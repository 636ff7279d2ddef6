/** Grouping messages into message types by their range lists. Both
    `create_message_types` and `retransform_message_types` look for an
    existing container with the same ranges (`has_same_ranges`), add the
    message's index to it when there is one, and append a new container
    for the message otherwise. */
module Grouping {
  import opened Wrappers
  import opened CommonRange

  /** `next((c for c in result if <same ranges>), None)`. */
  function FindSameRanges(result: seq<Container>, ranges: seq<Range>): Option<nat>
  {
    FirstIndex(result, (c: Container) => HasSameRanges(c, ranges))
  }

  /** Places message `i`, whose range list is `ranges`, into the containers. */
  function AddMember(result: seq<Container>, ranges: seq<Range>, i: int): seq<Container>
  {
    match FindSameRanges(result, ranges)
    case None => result + [Container(ranges, {i})]
    case Some(k) => result[k := Container(result[k].ranges, result[k].messageIndices + {i})]
  }

  /** The in-place update both loops perform for one message. */
  method PlaceMessage(result: seq<Container>, ranges: seq<Range>, i: int) returns (placed: seq<Container>)
    ensures placed == AddMember(result, ranges, i)
  {
    var existing := FindSameRanges(result, ranges);
    if existing.None? {
      placed := result + [Container(ranges, {i})];
    } else {
      var k := existing.value;
      placed := result[k := Container(result[k].ranges, result[k].messageIndices + {i})];
    }
  }

  /** The grouping of the messages `idx` by `key` is sound: every container
      has members, every member was placed and has the container's ranges
      as its key, no two containers have the same ranges, and every placed
      message is in some container. */
  ghost predicate Grouped(idx: seq<int>, cs: seq<Container>, key: int -> seq<Range>)
  {
    Inhabited(cs) && MembersKeyed(idx, cs, key) && RangesDistinct(cs) && AllPlaced(idx, cs)
  }

  ghost predicate Inhabited(cs: seq<Container>)
  {
    forall k :: 0 <= k < |cs| ==> cs[k].messageIndices != {}
  }

  ghost predicate MembersKeyed(idx: seq<int>, cs: seq<Container>, key: int -> seq<Range>)
  {
    forall k, i :: 0 <= k < |cs| && i in cs[k].messageIndices ==> i in idx && cs[k].ranges == key(i)
  }

  ghost predicate RangesDistinct(cs: seq<Container>)
  {
    forall k, l :: 0 <= k < l < |cs| ==> cs[k].ranges != cs[l].ranges
  }

  ghost predicate AllPlaced(idx: seq<int>, cs: seq<Container>)
  {
    forall i :: i in idx ==> exists k :: 0 <= k < |cs| && i in cs[k].messageIndices
  }

  /** The containers split the messages `idx`: each lies in exactly one
      container, only those messages appear, and two messages share a
      container exactly when they have the same key. */
  ghost predicate PartitionsBy(idx: seq<int>, cs: seq<Container>, key: int -> seq<Range>)
  {
    (forall i :: i in idx ==> exists k :: 0 <= k < |cs| && i in cs[k].messageIndices) &&
    (forall k, i :: 0 <= k < |cs| && i in cs[k].messageIndices ==> i in idx) &&
    (forall i, k, l ::
      (0 <= k < |cs| && 0 <= l < |cs| && i in cs[k].messageIndices && i in cs[l].messageIndices) ==> k == l) &&
    (forall k, i, j :: (0 <= k < |cs| && i in cs[k].messageIndices && j in idx) ==>
      (j in cs[k].messageIndices <==> key(i) == key(j)))
  }

  lemma AddNewKeepsGrouped(idx: seq<int>, cs: seq<Container>, key: int -> seq<Range>, i: int)
    requires Grouped(idx, cs, key)
    requires forall k :: 0 <= k < |cs| ==> cs[k].ranges != key(i)
    ensures Grouped(idx + [i], cs + [Container(key(i), {i})], key)
  {
    var res := cs + [Container(key(i), {i})];
    var idx' := idx + [i];
    assert forall k :: 0 <= k < |cs| ==> res[k] == cs[k];
    forall k, j | 0 <= k < |res| && j in res[k].messageIndices
      ensures j in idx' && res[k].ranges == key(j)
    {
      if k < |cs| { assert j in idx; }
    }
    forall k, l | 0 <= k < l < |res| ensures res[k].ranges != res[l].ranges {
      if l < |cs| { assert res[l] == cs[l]; }
    }
    forall j | j in idx' ensures exists k :: 0 <= k < |res| && j in res[k].messageIndices {
      if j == i {
        assert i in res[|cs|].messageIndices;
      } else {
        assert j in idx;
        var k :| 0 <= k < |cs| && j in cs[k].messageIndices;
        assert j in res[k].messageIndices;
      }
    }
  }

  lemma AddExistingKeepsGrouped(idx: seq<int>, cs: seq<Container>, key: int -> seq<Range>, i: int, m: nat)
    requires Grouped(idx, cs, key)
    requires m < |cs| && cs[m].ranges == key(i)
    ensures Grouped(idx + [i], cs[m := Container(cs[m].ranges, cs[m].messageIndices + {i})], key)
  {
    var res := cs[m := Container(cs[m].ranges, cs[m].messageIndices + {i})];
    var idx' := idx + [i];
    assert forall k :: 0 <= k < |cs| ==> res[k].ranges == cs[k].ranges;
    assert forall k :: 0 <= k < |cs| ==> cs[k].messageIndices <= res[k].messageIndices;
    forall k, j | 0 <= k < |res| && j in res[k].messageIndices
      ensures j in idx' && res[k].ranges == key(j)
    {
      if j != i || k != m { assert j in cs[k].messageIndices; }
    }
    forall j | j in idx' ensures exists k :: 0 <= k < |res| && j in res[k].messageIndices {
      if j == i {
        assert i in res[m].messageIndices;
      } else {
        assert j in idx;
        var k :| 0 <= k < |cs| && j in cs[k].messageIndices;
        assert j in res[k].messageIndices;
      }
    }
  }

  /** Placing one more message keeps the grouping sound. */
  lemma AddMemberKeepsGrouped(idx: seq<int>, cs: seq<Container>, key: int -> seq<Range>, i: int)
    requires Grouped(idx, cs, key)
    ensures Grouped(idx + [i], AddMember(cs, key(i), i), key)
  {
    match FindSameRanges(cs, key(i))
    case None =>
      AddNewKeepsGrouped(idx, cs, key, i);
    case Some(m) =>
      AddExistingKeepsGrouped(idx, cs, key, i, m);
  }

  /** A sound grouping splits the messages by their keys. */
  lemma {:induction false} GroupedIsPartition(idx: seq<int>, cs: seq<Container>, key: int -> seq<Range>)
    requires Grouped(idx, cs, key)
    ensures PartitionsBy(idx, cs, key)
  {
    assert MembersKeyed(idx, cs, key) && RangesDistinct(cs) && AllPlaced(idx, cs);
    forall i, k, l | 0 <= k < |cs| && 0 <= l < |cs| && i in cs[k].messageIndices && i in cs[l].messageIndices
      ensures k == l
    {
      assert cs[k].ranges == key(i) == cs[l].ranges;
    }
    forall k, i, j | 0 <= k < |cs| && i in cs[k].messageIndices && j in idx
      ensures j in cs[k].messageIndices <==> key(i) == key(j)
    {
      var l :| 0 <= l < |cs| && j in cs[l].messageIndices;
      assert cs[k].ranges == key(i) && cs[l].ranges == key(j);
    }
  }

  /** How the messages are split depends only on the containers' indices. */
  lemma {:induction false} PartitionKeptByIndices(idx: seq<int>, cs: seq<Container>, key: int -> seq<Range>, cs': seq<Container>)
    requires PartitionsBy(idx, cs, key)
    requires |cs'| == |cs| && forall k :: 0 <= k < |cs| ==> cs'[k].messageIndices == cs[k].messageIndices
    ensures PartitionsBy(idx, cs', key)
  {
    forall i | i in idx ensures exists k :: 0 <= k < |cs'| && i in cs'[k].messageIndices {
      var k :| 0 <= k < |cs| && i in cs[k].messageIndices;
      assert i in cs'[k].messageIndices;
    }
  }

  /** The containers built by placing the messages `idx` in order. */
  function GroupAll(idx: seq<int>, key: int -> seq<Range>): seq<Container>
  {
    if idx == [] then []
    else AddMember(GroupAll(idx[..|idx| - 1], key), key(idx[|idx| - 1]), idx[|idx| - 1])
  }

  /** Placing the messages up to position `n` and then message `idx[n]`. */
  lemma {:induction false} GroupAllStep(idx: seq<int>, key: int -> seq<Range>, n: nat)
    requires n < |idx|
    ensures GroupAll(idx[..n + 1], key) == AddMember(GroupAll(idx[..n], key), key(idx[n]), idx[n])
  {
    assert idx[..n + 1][..n] == idx[..n];
  }

  lemma {:induction false} GroupAllIsGrouped(idx: seq<int>, key: int -> seq<Range>)
    ensures Grouped(idx, GroupAll(idx, key), key)
  {
    if idx != [] {
      var init := idx[..|idx| - 1];
      GroupAllIsGrouped(init, key);
      AddMemberKeepsGrouped(init, GroupAll(init, key), key, idx[|idx| - 1]);
      assert init + [idx[|idx| - 1]] == idx;
    }
  }

  /** Placing the messages one by one splits them by their keys, gives each
      container the key of every one of its members, and never gives two
      containers the same ranges. */
  lemma {:induction false} GroupAllPartitions(idx: seq<int>, key: int -> seq<Range>)
    ensures PartitionsBy(idx, GroupAll(idx, key), key)
    ensures forall k, i :: 0 <= k < |GroupAll(idx, key)| && i in GroupAll(idx, key)[k].messageIndices ==>
      GroupAll(idx, key)[k].ranges == key(i)
    ensures forall k, l :: 0 <= k < l < |GroupAll(idx, key)| ==> GroupAll(idx, key)[k].ranges != GroupAll(idx, key)[l].ranges
  {
    GroupAllIsGrouped(idx, key);
    GroupedIsPartition(idx, GroupAll(idx, key), key);
    assert MembersKeyed(idx, GroupAll(idx, key), key) && RangesDistinct(GroupAll(idx, key));
  }
}
