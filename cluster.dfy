/** `create_message_types`: every message gets the sorted list of candidate
    fields that apply to it, messages with the same list form one message
    type, and overlapping fields inside each type are then resolved. */
module Cluster {
  import opened Wrappers
  import opened CommonRange
  import opened SortedSets
  import opened Overlap
  import opened Grouping

  /** Every message index named by some range of the label set. */
  function AllIndices(labelSet: seq<Range>): set<int>
  {
    set r, i | r in labelSet && i in r.messageIndices :: i
  }

  /** The messages to cluster: `range(num_messages)` when a count is given,
      otherwise the sorted indices the label set mentions. */
  function MessageIndices(labelSet: seq<Range>, numMessages: Option<int>): (idx: seq<int>)
    ensures numMessages.Some? ==> |idx| == Max(numMessages.value, 0) && forall k :: 0 <= k < |idx| ==> idx[k] == k
    ensures numMessages.None? ==> StrictlyIncreasing(idx)
    ensures numMessages.None? ==> forall i :: i in idx <==> exists r :: r in labelSet && i in r.messageIndices
  {
    match numMessages
    case Some(n) => seq(Max(n, 0), k requires 0 <= k < Max(n, 0) => k)
    case None => SortedSeq(AllIndices(labelSet))
  }

  /** A range labels message `i`: it is a real field (not the empty
      sentinel) and lists `i` among its messages. */
  predicate Applies(r: Range, i: int)
  {
    r.Common? && i in r.messageIndices
  }

  /** `set(rng for rng in label_set if ...)` kept in label-set order: the
      applicable ranges, each once. */
  function Applicable(labelSet: seq<Range>, i: int): (rs: seq<Range>)
    ensures forall x :: x in rs <==> x in labelSet && Applies(x, i)
    ensures Distinct(rs)
  {
    if labelSet == [] then []
    else
      var init := Applicable(labelSet[..|labelSet| - 1], i);
      var r := labelSet[|labelSet| - 1];
      assert labelSet == labelSet[..|labelSet| - 1] + [r];
      if Applies(r, i) && r !in init then init + [r] else init
  }

  /** The labels of message `i`: its applicable ranges sorted by start. */
  function Labels(labelSet: seq<Range>, i: int): seq<Range>
  {
    SortByStart(Applicable(labelSet, i))
  }

  /** The labels of a message are exactly the applicable ranges of the label
      set, each once, sorted by start, and none is the empty sentinel. */
  lemma LabelsAreApplicableRanges(labelSet: seq<Range>, i: int)
    ensures forall x :: x in Labels(labelSet, i) <==> x in labelSet && Applies(x, i)
    ensures forall x :: x in Labels(labelSet, i) ==> x.Common?
    ensures SortedByStart(Labels(labelSet, i))
    ensures forall x :: multiset(Labels(labelSet, i))[x] <= 1
  {
    var app := Applicable(labelSet, i);
    assert multiset(Labels(labelSet, i)) == multiset(app);
    forall x ensures x in Labels(labelSet, i) <==> x in app {
      assert x in Labels(labelSet, i) <==> x in multiset(Labels(labelSet, i));
      assert x in app <==> x in multiset(app);
    }
    forall x ensures multiset(app)[x] <= 1 {
      DistinctCount(app, x);
    }
  }

  lemma {:induction false} DistinctCount(rs: seq<Range>, x: Range)
    requires Distinct(rs)
    ensures multiset(rs)[x] <= 1
  {
    if rs != [] {
      var init := rs[..|rs| - 1];
      assert rs == init + [rs[|rs| - 1]];
      DistinctCount(init, x);
      if x == rs[|rs| - 1] {
        assert x !in init by {
          forall k | 0 <= k < |init| ensures init[k] != x {
            assert init[k] == rs[k];
          }
        }
      }
    }
  }

  /** Two messages get the same labels exactly when the same ranges apply
      to both. */
  lemma SameLabelsIffSameApplicable(labelSet: seq<Range>, i: int, j: int)
    ensures Labels(labelSet, i) == Labels(labelSet, j) <==>
      (forall x :: x in labelSet ==> (Applies(x, i) <==> Applies(x, j)))
  {
    LabelsAreApplicableRanges(labelSet, i);
    LabelsAreApplicableRanges(labelSet, j);
    if forall x :: x in labelSet ==> (Applies(x, i) <==> Applies(x, j)) {
      ApplicableDeterminedByMembers(labelSet, i, j);
    }
  }

  /** The applicable list is the label set filtered, so it depends only on
      which ranges apply. */
  lemma {:induction false} ApplicableDeterminedByMembers(labelSet: seq<Range>, i: int, j: int)
    requires forall x :: x in labelSet ==> (Applies(x, i) <==> Applies(x, j))
    ensures Applicable(labelSet, i) == Applicable(labelSet, j)
  {
    if labelSet != [] {
      var init := labelSet[..|labelSet| - 1];
      assert forall x :: x in init ==> x in labelSet;
      ApplicableDeterminedByMembers(init, i, j);
      assert labelSet[|labelSet| - 1] in labelSet;
    }
  }

  /** Message `i`'s labels, as a key to group messages by. */
  function LabelsOf(labelSet: seq<Range>): int -> seq<Range>
  {
    (i: int) => Labels(labelSet, i)
  }

  /** The result of `create_message_types`. */
  function MessageTypes(labelSet: seq<Range>, numMessages: Option<int>): seq<Container>
  {
    ResolveAll(GroupAll(MessageIndices(labelSet, numMessages), LabelsOf(labelSet)))
  }

  /** A message type after resolution: it keeps only ranges that label
      every one of its members, sorted by start, and keeps all its labels
      when they do not overlap. */
  ghost predicate TypeSound(labelSet: seq<Range>, mt: Container)
  {
    SortedByStart(mt.ranges) &&
    (forall i, x :: i in mt.messageIndices && x in mt.ranges ==> x in labelSet && Applies(x, i)) &&
    (forall i :: i in mt.messageIndices && !RangesOverlap(Labels(labelSet, i)) ==> mt.ranges == Labels(labelSet, i))
  }

  /** A type whose members all have its ranges as labels is sound after
      resolution. */
  lemma {:induction false} ResolvedTypeSound(labelSet: seq<Range>, c: Container)
    requires c.messageIndices != {}
    requires forall i :: i in c.messageIndices ==> c.ranges == Labels(labelSet, i)
    ensures TypeSound(labelSet, Resolve(c))
  {
    var members := c.messageIndices;
    assert (forall z :: z !in members) ==> members == {};
    var i :| i in members;
    LabelsAreApplicableRanges(labelSet, i);
    ResolvedRangesProperties(c.ranges);
    ResolveIsResolveContainer(c);
    forall j, x | j in Resolve(c).messageIndices && x in Resolve(c).ranges ensures x in labelSet && Applies(x, j) {
      LabelsAreApplicableRanges(labelSet, j);
    }
  }

  /** Resolving the overlaps of a sound clustering keeps each type and its
      members, and every resolved type is sound. */
  lemma {:induction false} ResolvedClustersProperties(labelSet: seq<Range>, idx: seq<int>, cs: seq<Container>)
    requires Grouped(idx, cs, LabelsOf(labelSet))
    ensures |ResolveAll(cs)| == |cs|
    ensures forall k :: 0 <= k < |cs| ==> ResolveAll(cs)[k].messageIndices == cs[k].messageIndices
    ensures forall k :: 0 <= k < |cs| ==> TypeSound(labelSet, ResolveAll(cs)[k])
  {
    ResolveAllProperties(cs);
    assert Inhabited(cs) && MembersKeyed(idx, cs, LabelsOf(labelSet));
    forall k | 0 <= k < |cs| ensures TypeSound(labelSet, ResolveAll(cs)[k]) {
      forall i | i in cs[k].messageIndices ensures cs[k].ranges == Labels(labelSet, i) {
        assert cs[k].ranges == LabelsOf(labelSet)(i);
      }
      ResolvedTypeSound(labelSet, cs[k]);
    }
  }

  /** `create_message_types` splits the messages into types by their
      labels, and every type keeps only ranges labelling all its members,
      sorted by start (all of them when they do not overlap). */
  lemma {:induction false} MessageTypesProperties(labelSet: seq<Range>, numMessages: Option<int>)
    ensures PartitionsBy(MessageIndices(labelSet, numMessages), MessageTypes(labelSet, numMessages), LabelsOf(labelSet))
    ensures forall k :: 0 <= k < |MessageTypes(labelSet, numMessages)| ==>
      TypeSound(labelSet, MessageTypes(labelSet, numMessages)[k])
  {
    var idx := MessageIndices(labelSet, numMessages);
    var cs := GroupAll(idx, LabelsOf(labelSet));
    var mts := ResolveAll(cs);
    assert MessageTypes(labelSet, numMessages) == mts;
    GroupAllIsGrouped(idx, LabelsOf(labelSet));
    GroupedIsPartition(idx, cs, LabelsOf(labelSet));
    ResolvedClustersProperties(labelSet, idx, cs);
    PartitionKeptByIndices(idx, cs, LabelsOf(labelSet), mts);
  }

  /** The clustering loop and the overlap resolution of `create_message_types`. */
  method CreateMessageTypes(labelSet: seq<Range>, numMessages: Option<int>) returns (result: seq<Container>)
    ensures result == MessageTypes(labelSet, numMessages)
  {
    var messageIndices := MessageIndices(labelSet, numMessages);
    var clusters := GroupMessages(labelSet, messageIndices);
    result := HandleOverlappingConflict(clusters);
  }

  /** The clustering loop of `create_message_types`. */
  method GroupMessages(labelSet: seq<Range>, messageIndices: seq<int>) returns (clusters: seq<Container>)
    ensures clusters == GroupAll(messageIndices, LabelsOf(labelSet))
  {
    clusters := [];
    for n := 0 to |messageIndices|
      invariant clusters == GroupAll(messageIndices[..n], LabelsOf(labelSet))
    {
      var i := messageIndices[n];
      var labels := Labels(labelSet, i);
      assert labels == LabelsOf(labelSet)(i);
      GroupAllStep(messageIndices, LabelsOf(labelSet), n);
      clusters := PlaceMessage(clusters, labels, i);
    }
    assert messageIndices[..|messageIndices|] == messageIndices;
  }
}
