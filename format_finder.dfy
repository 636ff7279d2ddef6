/** The format finder itself: it quantises the message boundaries once when
    it is built, and each iteration gathers the engines' candidate fields
    into its label set, clusters the messages into message types and maps
    those types back onto the untrimmed messages. */
module FormatFinder {
  import opened Wrappers
  import opened CommonRange
  import opened Normalise
  import opened Merge
  import opened Cluster
  import opened Retransform

  /** `label_set.update(ranges)` on a label set kept in insertion order: the
      ranges not yet present are appended, each once. */
  function AddToSet(labelSet: seq<Range>, rs: seq<Range>): (res: seq<Range>)
    ensures forall x :: x in res <==> x in labelSet || x in rs
    ensures |labelSet| <= |res| && res[..|labelSet|] == labelSet
    ensures Distinct(labelSet) ==> Distinct(res)
  {
    if rs == [] then labelSet
    else
      var acc := AddToSet(labelSet, rs[..|rs| - 1]);
      var r := rs[|rs| - 1];
      assert rs == rs[..|rs| - 1] + [r];
      if r in acc then acc else acc + [r]
  }

  /** The label set after the engines' outputs `outputs` were merged one by
      one and added to it. */
  function LabelSetAfter(labelSet: seq<Range>, outputs: seq<seq<Range>>): seq<Range>
  {
    if outputs == [] then labelSet
    else AddToSet(LabelSetAfter(labelSet, outputs[..|outputs| - 1]), Merged(outputs[|outputs| - 1]))
  }

  lemma {:induction false} LabelSetAfterStep(labelSet: seq<Range>, outputs: seq<seq<Range>>, e: nat)
    requires e < |outputs|
    ensures LabelSetAfter(labelSet, outputs[..e + 1]) == AddToSet(LabelSetAfter(labelSet, outputs[..e]), Merged(outputs[e]))
  {
    assert outputs[..e + 1][..e] == outputs[..e];
  }

  /** `x` is among the merged candidates of one of the engines. */
  ghost predicate FoundByEngine(x: Range, outputs: seq<seq<Range>>)
  {
    exists e :: 0 <= e < |outputs| && x in Merged(outputs[e])
  }

  lemma {:induction false} FoundByEngineStep(x: Range, outputs: seq<seq<Range>>)
    requires outputs != []
    ensures FoundByEngine(x, outputs) <==>
      FoundByEngine(x, outputs[..|outputs| - 1]) || x in Merged(outputs[|outputs| - 1])
  {
    var init := outputs[..|outputs| - 1];
    assert forall e :: 0 <= e < |init| ==> outputs[e] == init[e];
  }

  /** An iteration only ever adds to the label set: what was there stays, in
      place, every merged candidate of every engine is added, nothing else
      is, and no range is listed twice. */
  lemma {:induction false} LabelSetAfterProperties(labelSet: seq<Range>, outputs: seq<seq<Range>>)
    ensures forall x :: x in LabelSetAfter(labelSet, outputs) <==> x in labelSet || FoundByEngine(x, outputs)
    ensures |labelSet| <= |LabelSetAfter(labelSet, outputs)|
    ensures LabelSetAfter(labelSet, outputs)[..|labelSet|] == labelSet
    ensures Distinct(labelSet) ==> Distinct(LabelSetAfter(labelSet, outputs))
  {
    if outputs != [] {
      var init := outputs[..|outputs| - 1];
      LabelSetAfterProperties(labelSet, init);
      var before := LabelSetAfter(labelSet, init);
      assert LabelSetAfter(labelSet, outputs)[..|labelSet|] == before[..|labelSet|];
      forall x ensures x in LabelSetAfter(labelSet, outputs) <==> x in labelSet || FoundByEngine(x, outputs) {
        FoundByEngineStep(x, outputs);
      }
    }
  }

  /** The format finder of one protocol. */
  class FormatFinder {
    const shortestFieldLength: int
    const messages: seq<Message>
    /** Per message, where its preamble ends and where its sync ends; they
        are quantised in place once, in the constructor, and never change
        afterwards, so the object keeps their final values. */
    const preambleEnds: seq<int>
    const syncEnds: seq<int>
    /** Per message, its bits after its sync end: what the engines see. */
    const bitvectors: seq<Bits>
    const participantIndices: seq<int>
    /** Every candidate field found so far, each once. */
    var labelSet: seq<Range>
    var messageTypes: seq<Container>

    /** The boundaries are quantised (a positive multiple of the shortest
        field length, the preamble end never past the sync end) and the bit
        vectors and participant indices are derived from them. */
    ghost predicate Valid()
      reads this
    {
      shortestFieldLength > 0 &&
      |preambleEnds| == |syncEnds| == |messages| &&
      (forall i :: 0 <= i < |syncEnds| ==>
        preambleEnds[i] <= syncEnds[i] && shortestFieldLength <= syncEnds[i] && syncEnds[i] % shortestFieldLength == 0) &&
      bitvectors == BitVectors(messages, Some(syncEnds)) &&
      participantIndices == ParticipantIndices(messages) &&
      Distinct(labelSet)
    }

    /** `__init__`, given the preprocessor's per-message preamble ends and
        its shared sync length. */
    constructor (messages: seq<Message>, preambleEnds0: seq<int>, syncLen: int, shortestFieldLength: int)
      requires shortestFieldLength > 0
      requires |preambleEnds0| == |messages|
      ensures Valid()
      ensures this.messages == messages && this.shortestFieldLength == shortestFieldLength
      ensures forall i :: 0 <= i < |messages| ==>
        syncEnds[i] == QuantiseSyncEnd(preambleEnds0[i] + syncLen, shortestFieldLength)
      ensures forall i :: 0 <= i < |messages| ==>
        preambleEnds[i] == (if syncEnds[i] < preambleEnds0[i] then syncEnds[i] else preambleEnds0[i])
      ensures labelSet == [] && messageTypes == [Container([], {})]
    {
      var n := shortestFieldLength;
      var pe := new int[|messages|](i requires 0 <= i < |messages| => preambleEnds0[i]);
      var se := new int[|messages|](i requires 0 <= i < |messages| => preambleEnds0[i] + syncLen);
      QuantiseBoundaries(pe, se, n);
      this.shortestFieldLength := n;
      this.messages := messages;
      this.preambleEnds := pe[..];
      this.syncEnds := se[..];
      this.bitvectors := BitVectors(messages, Some(se[..]));
      this.participantIndices := ParticipantIndices(messages);
      labelSet := [];
      messageTypes := [Container([], {})];
    }

    /** `perform_iteration`, given what each engine found: the merged
        candidates join the label set, and the message types are rebuilt
        from it and mapped back onto the untrimmed messages. */
    method PerformIteration(engineOutputs: seq<seq<Range>>)
      requires Valid()
      modifies this
      ensures Valid()
      ensures labelSet == LabelSetAfter(old(labelSet), engineOutputs)
      ensures messageTypes == Retransformed(MessageTypes(labelSet, None), preambleEnds, syncEnds)
    {
      var labels := GatherLabels(labelSet, engineOutputs);
      LabelSetAfterProperties(labelSet, engineOutputs);
      labelSet := labels;
      messageTypes := RebuildMessageTypes(labels, preambleEnds, syncEnds);
    }
  }

  /** The loop of `perform_iteration` over the engines. */
  method GatherLabels(labelSet: seq<Range>, engineOutputs: seq<seq<Range>>) returns (labels: seq<Range>)
    ensures labels == LabelSetAfter(labelSet, engineOutputs)
  {
    labels := labelSet;
    for e := 0 to |engineOutputs|
      invariant labels == LabelSetAfter(labelSet, engineOutputs[..e])
    {
      var mergedRanges := MergeCommonRanges(engineOutputs[e]);
      LabelSetAfterStep(labelSet, engineOutputs, e);
      labels := AddToSet(labels, mergedRanges);
    }
    assert engineOutputs[..|engineOutputs|] == engineOutputs;
  }

  /** The end of `perform_iteration`: the message types are created from
      the label set and mapped back onto the untrimmed messages. */
  method RebuildMessageTypes(labelSet: seq<Range>, preambleEnds: seq<int>, syncEnds: seq<int>) returns (messageTypes: seq<Container>)
    requires |preambleEnds| == |syncEnds|
    ensures messageTypes == Retransformed(MessageTypes(labelSet, None), preambleEnds, syncEnds)
  {
    var mts := CreateMessageTypes(labelSet, None);
    messageTypes := RetransformMessageTypes(mts, preambleEnds, syncEnds);
  }
}
