/** The normaliser of the format finder: the quantisation of each message's
    sync end done in `FormatFinder.__init__`, the trimmed bit vectors the
    engines work on, and the participant index of each message. */
module Normalise {
  import opened Wrappers
  import opened CommonRange
  import opened SortedSets

  /** A captured message: its decoded bits and the participant that sent it
      (a participant is identified by its position in the participants'
      own order). */
  datatype Message = Message(decodedBits: Bits, participant: int)

  /** `n * max(int(math.floor(value / n)), 1)`: the sync end rounded down to
      a multiple of the shortest field length `n`, but never below `n`. */
  function QuantiseSyncEnd(value: int, n: int): (r: int)
    requires n > 0
    ensures r % n == 0 && n <= r
    ensures n <= value ==> r <= value < r + n
    ensures value < n ==> r == n
  {
    var units := value / n;
    assert value == n * units + value % n;
    assert units >= 1 ==> n * units >= n by {
      if units >= 1 { MulAtLeast(n, units); }
    }
    assert (n * Max(units, 1)) % n == 0 by { MulMod(n, Max(units, 1)); }
    n * Max(units, 1)
  }

  lemma MulAtLeast(n: int, k: int)
    requires n > 0 && k >= 1
    ensures n * k >= n
  {}

  lemma MulBounds(n: int, d: int)
    requires n > 0
    ensures d >= 1 ==> n * d >= n
    ensures d <= -1 ==> n * d <= -n
  {
    if d >= 1 { MulAtLeast(n, d); }
    if d <= -1 { MulAtLeast(n, -d); }
  }

  lemma MulMod(n: int, k: int)
    requires n > 0
    ensures (n * k) % n == 0
  {
    var q, m := (n * k) / n, (n * k) % n;
    assert n * k == n * q + m;
    assert n * (k - q) == m;
    MulBounds(n, k - q);
  }

  /** The quantisation loop of `__init__`: every sync end is quantised in
      place and a preamble end beyond its new sync end is pulled back to it. */
  method QuantiseBoundaries(preambleEnds: array<int>, syncEnds: array<int>, n: int)
    requires n > 0
    requires preambleEnds != syncEnds
    requires syncEnds.Length <= preambleEnds.Length
    modifies preambleEnds, syncEnds
    ensures forall i :: 0 <= i < syncEnds.Length ==>
      syncEnds[i] == QuantiseSyncEnd(old(syncEnds[i]), n)
    ensures forall i :: 0 <= i < syncEnds.Length ==>
      preambleEnds[i] == (if syncEnds[i] < old(preambleEnds[i]) then syncEnds[i] else old(preambleEnds[i]))
    ensures forall i :: syncEnds.Length <= i < preambleEnds.Length ==> preambleEnds[i] == old(preambleEnds[i])
    ensures forall i :: 0 <= i < syncEnds.Length ==> preambleEnds[i] <= syncEnds[i]
  {
    for i := 0 to syncEnds.Length
      invariant forall j :: 0 <= j < i ==> syncEnds[j] == QuantiseSyncEnd(old(syncEnds[j]), n)
      invariant forall j :: 0 <= j < i ==>
        preambleEnds[j] == (if syncEnds[j] < old(preambleEnds[j]) then syncEnds[j] else old(preambleEnds[j]))
      invariant forall j :: i <= j < syncEnds.Length ==> syncEnds[j] == old(syncEnds[j])
      invariant forall j :: i <= j < preambleEnds.Length ==> preambleEnds[j] == old(preambleEnds[j])
    {
      syncEnds[i] := QuantiseSyncEnd(syncEnds[i], n);
      if syncEnds[i] < preambleEnds[i] {
        preambleEnds[i] := syncEnds[i];
      }
    }
  }

  /** Python's `bits[k:]`: a negative `k` counts from the end, and an offset
      past either end is clamped. */
  function SliceFrom(bits: Bits, k: int): (r: Bits)
    ensures |r| <= |bits| && r == bits[|bits| - |r|..]
    ensures 0 <= k ==> |r| == Max(|bits| - k, 0)
    ensures k < 0 ==> |r| == if -k < |bits| then -k else |bits|
  {
    if k >= |bits| then []
    else if k >= 0 then bits[k..]
    else if -k < |bits| then bits[|bits| + k..]
    else bits
  }

  /** `get_bitvectors_from_messages`: each message's decoded bits from its
      sync end on; without sync ends (`None`) the whole message. */
  function BitVectors(messages: seq<Message>, syncEnds: Option<seq<int>>): (vs: seq<Bits>)
    requires syncEnds.Some? ==> |messages| <= |syncEnds.value|
    ensures |vs| == |messages|
  {
    seq(|messages|, i requires 0 <= i < |messages| =>
      match syncEnds
      case None => messages[i].decodedBits
      case Some(ends) => SliceFrom(messages[i].decodedBits, ends[i]))
  }

  /** Bit vector `i` is the message's bits after its sync end, and empty when
      the sync end lies past the end of the message. */
  lemma BitVectorIsTrimmedMessage(messages: seq<Message>, syncEnds: seq<int>, i: nat)
    requires |messages| <= |syncEnds| && i < |messages|
    requires 0 <= syncEnds[i]
    ensures syncEnds[i] <= |messages[i].decodedBits| ==>
      BitVectors(messages, Some(syncEnds))[i] == messages[i].decodedBits[syncEnds[i]..]
    ensures syncEnds[i] > |messages[i].decodedBits| ==> BitVectors(messages, Some(syncEnds))[i] == []
    ensures BitVectors(messages, None)[i] == messages[i].decodedBits
  {
    var bits := messages[i].decodedBits;
    var v := SliceFrom(bits, syncEnds[i]);
    assert BitVectors(messages, Some(syncEnds))[i] == v;
    if syncEnds[i] <= |bits| {
      assert |bits| - |v| == syncEnds[i];
    }
  }

  /** `set(msg.participant for msg in messages)`. */
  function Participants(messages: seq<Message>): set<int>
  {
    set m | m in messages :: m.participant
  }

  /** `[participants.index(msg.participant) for msg in messages]` with
      `participants` the sorted distinct participants. */
  function ParticipantIndices(messages: seq<Message>): (r: seq<int>)
    ensures |r| == |messages|
  {
    var participants := SortedSeq(Participants(messages));
    seq(|messages|, i requires 0 <= i < |messages| =>
      assert messages[i] in messages;
      IndexOf(participants, messages[i].participant))
  }

  /** Each participant index is the rank of the message's participant among
      the distinct participants: it lies below their number, equal
      participants get equal indices, and the order of participants is kept. */
  lemma ParticipantIndexIsRank(messages: seq<Message>)
    ensures forall i :: 0 <= i < |messages| ==>
      ParticipantIndices(messages)[i] == |set q | q in Participants(messages) && q < messages[i].participant|
    ensures forall i :: 0 <= i < |messages| ==>
      0 <= ParticipantIndices(messages)[i] < |Participants(messages)|
    ensures forall i, j :: 0 <= i < |messages| && 0 <= j < |messages| ==>
      (messages[i].participant < messages[j].participant <==>
       ParticipantIndices(messages)[i] < ParticipantIndices(messages)[j])
  {
    var ps := Participants(messages);
    var sorted := SortedSeq(ps);
    forall i | 0 <= i < |messages|
      ensures ParticipantIndices(messages)[i] == IndexOf(sorted, messages[i].participant)
      ensures ParticipantIndices(messages)[i] == |set q | q in ps && q < messages[i].participant|
      ensures 0 <= ParticipantIndices(messages)[i] < |ps|
    {
      assert messages[i] in messages;
      IndexIsRank(ps, messages[i].participant);
    }
    forall i, j | 0 <= i < |messages| && 0 <= j < |messages|
      ensures messages[i].participant < messages[j].participant <==>
              ParticipantIndices(messages)[i] < ParticipantIndices(messages)[j]
    {
      var a := IndexOf(sorted, messages[i].participant);
      var b := IndexOf(sorted, messages[j].participant);
      assert a < b ==> sorted[a] < sorted[b];
      assert b <= a ==> sorted[b] <= sorted[a];
    }
  }
}
