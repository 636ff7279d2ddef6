/** Candidate fields and message-type containers.

    The repository keeps these in urh/awre/CommonRange.py; that file is not part
    of this model, so its pieces that the format finder relies on are defined
    here: a range is a bit interval `[start, start + length)` carrying a field
    type, a score, the bit patterns seen in it and the messages it applies to;
    the "empty" range is a separate variant; a container is one message type. */
module CommonRange {

  /** A decoded bit sequence. */
  type Bits = seq<bool>

  /** A candidate field (`CommonBitRange`) or the sentinel "no field here"
      (`EmptyCommonBitRange`). Both carry the same attributes, since the
      empty range is a kind of common range in the repository. */
  datatype Range =
    | Common(start: int, length: int, fieldType: string, score: real,
             values: seq<Bits>, messageIndices: set<int>)
    | Empty(start: int, length: int, fieldType: string, score: real,
            values: seq<Bits>, messageIndices: set<int>)

  /** One message type (`CommonRangeContainer`): its ranges, sorted by start,
      and the indices of the messages it describes. */
  datatype Container = Container(ranges: seq<Range>, messageIndices: set<int>)

  /** Bit position `x` lies inside `r`. */
  predicate Covers(r: Range, x: int)
  {
    r.start <= x < r.start + r.length
  }

  /** `overlaps_with`: the half-open intervals of `a` and `b` share a bit. */
  predicate Overlaps(a: Range, b: Range)
  {
    a.start < b.start + b.length && b.start < a.start + a.length && 0 < a.length && 0 < b.length
  }

  /** Overlap is exactly a common bit position, so it is symmetric. */
  lemma OverlapsIsIntersection(a: Range, b: Range)
    ensures Overlaps(a, b) <==> exists x :: Covers(a, x) && Covers(b, x)
    ensures Overlaps(a, b) <==> Overlaps(b, a)
  {
    if Overlaps(a, b) {
      var x := if a.start < b.start then b.start else a.start;
      assert Covers(a, x) && Covers(b, x);
    }
  }

  /** `ranges_overlap`: some two ranges of the list overlap. */
  predicate RangesOverlap(rs: seq<Range>)
  {
    exists i, j :: 0 <= i < j < |rs| && Overlaps(rs[i], rs[j])
  }

  /** No range occurs twice in the list. */
  predicate Distinct(rs: seq<Range>)
  {
    forall j, k :: 0 <= j < k < |rs| ==> rs[j] != rs[k]
  }

  /** `has_same_ranges`: both containers list the same ranges in the same order. */
  predicate HasSameRanges(c: Container, ranges: seq<Range>)
  {
    c.ranges == ranges
  }

  ghost predicate SortedByStart(rs: seq<Range>)
  {
    forall i, j :: 0 <= i < j < |rs| ==> rs[i].start <= rs[j].start
  }

  /** Inserts `r` after every leading range that starts no later than it
      (the place a stable sort by start gives it). */
  function InsertByStart(rs: seq<Range>, r: Range): (res: seq<Range>)
    ensures multiset(res) == multiset(rs) + multiset{r}
    ensures |res| == |rs| + 1
  {
    if rs == [] then [r]
    else if r.start < rs[0].start then [r] + rs
    else
      assert rs == [rs[0]] + rs[1..];
      [rs[0]] + InsertByStart(rs[1..], r)
  }

  lemma {:induction false} InsertKeepsBound(rs: seq<Range>, r: Range, lo: int)
    requires forall k :: 0 <= k < |rs| ==> lo <= rs[k].start
    requires lo <= r.start
    ensures forall k :: 0 <= k < |InsertByStart(rs, r)| ==> lo <= InsertByStart(rs, r)[k].start
  {
    if rs != [] && r.start >= rs[0].start {
      InsertKeepsBound(rs[1..], r, lo);
    }
  }

  lemma {:induction false} InsertKeepsSorted(rs: seq<Range>, r: Range)
    requires SortedByStart(rs)
    ensures SortedByStart(InsertByStart(rs, r))
  {
    if rs == [] {
    } else if r.start < rs[0].start {
      var res := [r] + rs;
      forall i, j | 0 <= i < j < |res| ensures res[i].start <= res[j].start {
        assert res[j] == rs[j - 1] && rs[0].start <= rs[j - 1].start;
        if i > 0 { assert res[i] == rs[i - 1]; }
      }
    } else {
      var rest := rs[1..];
      assert SortedByStart(rest) by {
        forall i, j | 0 <= i < j < |rest| ensures rest[i].start <= rest[j].start {
          assert rest[i] == rs[i + 1] && rest[j] == rs[j + 1];
        }
      }
      assert forall k :: 0 <= k < |rest| ==> rs[0].start <= rest[k].start by {
        forall k | 0 <= k < |rest| ensures rs[0].start <= rest[k].start {
          assert rest[k] == rs[k + 1];
        }
      }
      var tail := InsertByStart(rest, r);
      InsertKeepsSorted(rest, r);
      InsertKeepsBound(rest, r, rs[0].start);
      var res := [rs[0]] + tail;
      forall i, j | 0 <= i < j < |res| ensures res[i].start <= res[j].start {
        assert res[j] == tail[j - 1];
        if i > 0 { assert res[i] == tail[i - 1]; }
      }
    }
  }

  /** Python's `sorted` with ranges compared by start: a stable insertion sort. */
  function SortByStart(rs: seq<Range>): (res: seq<Range>)
    ensures multiset(res) == multiset(rs)
    ensures SortedByStart(res)
  {
    if rs == [] then []
    else
      assert rs == rs[..|rs| - 1] + [rs[|rs| - 1]];
      InsertKeepsSorted(SortByStart(rs[..|rs| - 1]), rs[|rs| - 1]);
      InsertByStart(SortByStart(rs[..|rs| - 1]), rs[|rs| - 1])
  }

  /** `add_ranges`: inserts each new range, in order, at its place by start. */
  function AddRanges(rs: seq<Range>, extra: seq<Range>): (res: seq<Range>)
    ensures multiset(res) == multiset(rs) + multiset(extra)
    decreases |extra|
  {
    if extra == [] then rs
    else
      assert extra == [extra[0]] + extra[1..];
      AddRanges(InsertByStart(rs, extra[0]), extra[1..])
  }

  lemma {:induction false} AddRangesKeepsSorted(rs: seq<Range>, extra: seq<Range>)
    requires SortedByStart(rs)
    ensures SortedByStart(AddRanges(rs, extra))
    decreases |extra|
  {
    if extra != [] {
      InsertKeepsSorted(rs, extra[0]);
      AddRangesKeepsSorted(InsertByStart(rs, extra[0]), extra[1..]);
    }
  }
}
