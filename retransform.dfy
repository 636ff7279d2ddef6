/** `retransform_message_types`: the message types were found on bit
    vectors that start at each message's sync end, so every message gets
    its type's ranges shifted back by its own sync end, plus a Preamble and
    a Sync range; messages whose resulting range lists agree share a type. */
module Retransform {
  import opened Wrappers
  import opened CommonRange
  import opened Grouping

  /** `CommonBitRange(0, preamble_end, field_type="Preamble")`. */
  function PreambleRange(preambleEnd: int): Range
  {
    Common(0, preambleEnd, "Preamble", 0.0, [], {})
  }

  /** `CommonBitRange(preamble_end, sync_end - preamble_end, field_type="Sync")`. */
  function SyncRange(preambleEnd: int, syncEnd: int): Range
  {
    Common(preambleEnd, syncEnd - preambleEnd, "Sync", 0.0, [], {})
  }

  /** Every range moved by `d` bits, all else kept. */
  function Shift(rs: seq<Range>, d: int): (res: seq<Range>)
    ensures |res| == |rs|
  {
    seq(|rs|, k requires 0 <= k < |rs| => rs[k].(start := rs[k].start + d))
  }

  /** Shifting moves each range by `d`, changes nothing else, keeps the
      order by start, and shifting back undoes it. */
  lemma ShiftProperties(rs: seq<Range>, d: int)
    ensures forall k :: 0 <= k < |rs| ==>
      Shift(rs, d)[k].start == rs[k].start + d && Shift(rs, d)[k].length == rs[k].length &&
      Shift(rs, d)[k].fieldType == rs[k].fieldType && Shift(rs, d)[k].score == rs[k].score &&
      Shift(rs, d)[k].messageIndices == rs[k].messageIndices && Shift(rs, d)[k].Common? == rs[k].Common?
    ensures SortedByStart(rs) <==> SortedByStart(Shift(rs, d))
    ensures Shift(Shift(rs, d), -d) == rs
  {
    var sh := Shift(rs, d);
    assert forall k :: 0 <= k < |rs| ==> Shift(sh, -d)[k] == rs[k];
  }

  /** `next((mt for mt in message_types if i in mt.message_indices),
      CommonRangeContainer([], set()))`. */
  function MessageTypeOf(messageTypes: seq<Container>, i: int): (mt: Container)
    ensures forall k :: (0 <= k < |messageTypes| && i in messageTypes[k].messageIndices &&
                         forall j :: 0 <= j < k ==> i !in messageTypes[j].messageIndices) ==> mt == messageTypes[k]
    ensures (forall k :: 0 <= k < |messageTypes| ==> i !in messageTypes[k].messageIndices) ==> mt == Container([], {})
    ensures mt.ranges != [] ==>
      exists k :: 0 <= k < |messageTypes| && i in messageTypes[k].messageIndices && mt == messageTypes[k]
  {
    match FirstIndex(messageTypes, (m: Container) => i in m.messageIndices)
    case None => Container([], {})
    case Some(k) => messageTypes[k]
  }

  /** The ranges message `i` ends up with: its type's ranges shifted by its
      sync end, with the Preamble and Sync ranges added by start. */
  function NarrowedRanges(mt: Container, preambleEnd: int, syncEnd: int): seq<Range>
  {
    AddRanges(Shift(mt.ranges, syncEnd), [PreambleRange(preambleEnd), SyncRange(preambleEnd, syncEnd)])
  }

  /** A message's new ranges are its type's ranges shifted by its sync end
      together with the Preamble and Sync ranges, and they stay sorted by
      start when the type's ranges were. */
  lemma NarrowedRangesProperties(mt: Container, preambleEnd: int, syncEnd: int)
    ensures multiset(NarrowedRanges(mt, preambleEnd, syncEnd)) ==
      multiset(Shift(mt.ranges, syncEnd)) + multiset{PreambleRange(preambleEnd), SyncRange(preambleEnd, syncEnd)}
    ensures |NarrowedRanges(mt, preambleEnd, syncEnd)| == |mt.ranges| + 2
    ensures PreambleRange(preambleEnd) in NarrowedRanges(mt, preambleEnd, syncEnd)
    ensures SyncRange(preambleEnd, syncEnd) in NarrowedRanges(mt, preambleEnd, syncEnd)
    ensures SortedByStart(mt.ranges) ==> SortedByStart(NarrowedRanges(mt, preambleEnd, syncEnd))
  {
    var rs := NarrowedRanges(mt, preambleEnd, syncEnd);
    assert PreambleRange(preambleEnd) in multiset(rs);
    assert SyncRange(preambleEnd, syncEnd) in multiset(rs);
    assert |multiset(rs)| == |rs|;
    ShiftProperties(mt.ranges, syncEnd);
    if SortedByStart(mt.ranges) {
      AddRangesKeepsSorted(Shift(mt.ranges, syncEnd), [PreambleRange(preambleEnd), SyncRange(preambleEnd, syncEnd)]);
    }
  }

  /** Message `i`'s new ranges, as a key to group messages by. */
  function NarrowedOf(messageTypes: seq<Container>, preambleEnds: seq<int>, syncEnds: seq<int>): int -> seq<Range>
  {
    (i: int) =>
      if 0 <= i < |preambleEnds| && i < |syncEnds|
      then NarrowedRanges(MessageTypeOf(messageTypes, i), preambleEnds[i], syncEnds[i])
      else []
  }

  /** `range(n)`. */
  function Upto(n: nat): (idx: seq<int>)
    ensures |idx| == n && forall k :: 0 <= k < n ==> idx[k] == k
  {
    seq(n, k requires 0 <= k < n => k)
  }

  /** The result of `retransform_message_types`. */
  function Retransformed(messageTypes: seq<Container>, preambleEnds: seq<int>, syncEnds: seq<int>): seq<Container>
  {
    GroupAll(Upto(|syncEnds|), NarrowedOf(messageTypes, preambleEnds, syncEnds))
  }

  /** Every message index below the number of sync ends lands in exactly
      one message type and no other index appears; two messages share a
      type exactly when their new ranges agree. */
  lemma {:induction false} RetransformPartitions(messageTypes: seq<Container>, preambleEnds: seq<int>, syncEnds: seq<int>)
    ensures PartitionsBy(Upto(|syncEnds|), Retransformed(messageTypes, preambleEnds, syncEnds),
                         NarrowedOf(messageTypes, preambleEnds, syncEnds))
  {
    GroupAllPartitions(Upto(|syncEnds|), NarrowedOf(messageTypes, preambleEnds, syncEnds));
  }

  /** Each type's ranges are the new ranges of every one of its messages,
      all of which are below the number of sync ends, and no two types have
      the same ranges. */
  lemma {:induction false} RetransformedTypesMatchMessages(messageTypes: seq<Container>, preambleEnds: seq<int>, syncEnds: seq<int>)
    requires |preambleEnds| == |syncEnds|
    ensures forall k, i :: (0 <= k < |Retransformed(messageTypes, preambleEnds, syncEnds)| &&
      i in Retransformed(messageTypes, preambleEnds, syncEnds)[k].messageIndices) ==>
      (0 <= i < |syncEnds| &&
       Retransformed(messageTypes, preambleEnds, syncEnds)[k].ranges == NarrowedOf(messageTypes, preambleEnds, syncEnds)(i))
    ensures forall k, l :: 0 <= k < l < |Retransformed(messageTypes, preambleEnds, syncEnds)| ==>
      Retransformed(messageTypes, preambleEnds, syncEnds)[k].ranges !=
      Retransformed(messageTypes, preambleEnds, syncEnds)[l].ranges
  {
    var n := |syncEnds|;
    var key := NarrowedOf(messageTypes, preambleEnds, syncEnds);
    var out := Retransformed(messageTypes, preambleEnds, syncEnds);
    GroupAllPartitions(Upto(n), key);
    forall k, i | 0 <= k < |out| && i in out[k].messageIndices ensures 0 <= i < n {
      assert i in Upto(n);
    }
  }

  /** A message whose type has a single field, placed after the preamble
      once shifted, gets Preamble, Sync and the shifted field, in that order. */
  lemma {:induction false} NarrowSingleField(mt: Container, f: Range, preambleEnd: int, syncEnd: int)
    requires mt.ranges == [f]
    requires 0 <= preambleEnd < f.start + syncEnd
    ensures NarrowedRanges(mt, preambleEnd, syncEnd) ==
      [PreambleRange(preambleEnd), SyncRange(preambleEnd, syncEnd), f.(start := f.start + syncEnd)]
  {
    var g := f.(start := f.start + syncEnd);
    var pre, sync := PreambleRange(preambleEnd), SyncRange(preambleEnd, syncEnd);
    assert Shift([f], syncEnd) == [g];
    AddTwoRanges([g], pre, sync);
    InsertFront([g], pre);
    InsertAfterHead([pre, g], sync);
    assert [pre, g][1..] == [g];
    InsertFront([g], sync);
  }

  /** A message with preamble end 4 and sync end 12 whose type has the one
      range [0, 8) gets Preamble [0, 4), Sync [4, 12) and the field moved to
      [12, 20). */
  lemma RetransformExample(f: Range)
    requires f == Common(0, 8, "", 0.0, [], {})
    ensures NarrowedRanges(Container([f], {0}), 4, 12) ==
      [PreambleRange(4), SyncRange(4, 12), Common(12, 8, "", 0.0, [], {})]
    ensures SyncRange(4, 12).start == 4 && SyncRange(4, 12).length == 8
  {
    NarrowSingleField(Container([f], {0}), f, 4, 12);
  }

  lemma {:induction false} AddTwoRanges(rs: seq<Range>, x: Range, y: Range)
    ensures AddRanges(rs, [x, y]) == InsertByStart(InsertByStart(rs, x), y)
  {
    assert [x, y][0] == x && [x, y][1..] == [y];
    assert AddRanges(rs, [x, y]) == AddRanges(InsertByStart(rs, x), [y]);
    assert [y][0] == y && [y][1..] == [];
    assert AddRanges(InsertByStart(rs, x), [y]) == AddRanges(InsertByStart(InsertByStart(rs, x), y), []);
  }

  lemma {:induction false} InsertFront(rs: seq<Range>, r: Range)
    requires rs != [] && r.start < rs[0].start
    ensures InsertByStart(rs, r) == [r] + rs
  {
  }

  lemma {:induction false} InsertAfterHead(rs: seq<Range>, r: Range)
    requires rs != [] && rs[0].start <= r.start
    ensures InsertByStart(rs, r) == [rs[0]] + InsertByStart(rs[1..], r)
  {
  }

  /** The loop of `retransform_message_types`. */
  method RetransformMessageTypes(messageTypes: seq<Container>, preambleEnds: seq<int>, syncEnds: seq<int>)
    returns (result: seq<Container>)
    requires |preambleEnds| == |syncEnds|
    ensures result == Retransformed(messageTypes, preambleEnds, syncEnds)
  {
    ghost var idx, key := Upto(|syncEnds|), NarrowedOf(messageTypes, preambleEnds, syncEnds);
    result := [];
    for i := 0 to |syncEnds|
      invariant result == GroupAll(idx[..i], key)
    {
      var ranges := NarrowMessage(messageTypes, preambleEnds[i], syncEnds[i], i);
      assert ranges == key(i) && idx[i] == i;
      GroupAllStep(idx, key, i);
      result := PlaceMessage(result, ranges, i);
    }
    assert idx[..|syncEnds|] == idx;
  }

  /** The ranges of message `i` computed by the loop body: a copy of its
      type's ranges shifted by its sync end, with Preamble and Sync added. */
  method NarrowMessage(messageTypes: seq<Container>, preambleEnd: int, syncEnd: int, i: int) returns (ranges: seq<Range>)
    ensures ranges == NarrowedRanges(MessageTypeOf(messageTypes, i), preambleEnd, syncEnd)
  {
    var preamble := PreambleRange(preambleEnd);
    var sync := SyncRange(preambleEnd, syncEnd);
    var mt := MessageTypeOf(messageTypes, i);
    ranges := ShiftRanges(mt.ranges, syncEnd);
    ranges := AddRanges(ranges, [preamble, sync]);
  }

  /** `for rng in mt: rng.start += sync_end`. */
  method ShiftRanges(ranges: seq<Range>, d: int) returns (shifted: seq<Range>)
    ensures shifted == Shift(ranges, d)
  {
    shifted := ranges;
    for j := 0 to |shifted|
      invariant |shifted| == |ranges|
      invariant forall k :: 0 <= k < j ==> shifted[k] == ranges[k].(start := ranges[k].start + d)
      invariant forall k :: j <= k < |ranges| ==> shifted[k] == ranges[k]
    {
      shifted := shifted[j := shifted[j].(start := shifted[j].start + d)];
    }
  }
}
