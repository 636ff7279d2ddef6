/** `sorted(set(...))` over integers and `list.index`, as the format finder
    uses them for message indices and participant ranks. */
module SortedSets {

  ghost predicate StrictlyIncreasing(xs: seq<int>)
  {
    forall i, j :: 0 <= i < j < |xs| ==> xs[i] < xs[j]
  }

  /** A least element of a non-empty set, found by removing elements one at
      a time. */
  lemma {:induction false} LeastElement(s: set<int>) returns (m: int)
    requires s != {}
    ensures m in s && forall x :: x in s ==> m <= x
    decreases |s|
  {
    var members := s;
    assert (forall z :: z !in members) ==> members == {};
    var y :| y in members;
    var rest := s - {y};
    if rest == {} {
      m := y;
      assert s == {y};
    } else {
      var least := LeastElement(rest);
      m := if y < least then y else least;
      forall x | x in s ensures m <= x {
        if x != y { assert x in rest; }
      }
    }
  }

  /** The least element of a non-empty set. */
  function Min(s: set<int>): (m: int)
    requires s != {}
    ensures m in s && forall x :: x in s ==> m <= x
  {
    assert exists m :: m in s && forall x :: x in s ==> m <= x by {
      var w := LeastElement(s);
    }
    var m :| m in s && forall x :: x in s ==> m <= x;
    m
  }

  /** `sorted(s)`: the elements of `s` in increasing order. */
  function SortedSeq(s: set<int>): (r: seq<int>)
    ensures |r| == |s|
    ensures forall x :: x in r <==> x in s
    ensures StrictlyIncreasing(r)
    decreases |s|
  {
    if s == {} then []
    else
      var m := Min(s);
      var rest := SortedSeq(s - {m});
      LeastFirst(m, s, rest);
      [m] + rest
  }

  /** The least element followed by the others in increasing order lists
      the whole set in increasing order. */
  lemma {:induction false} LeastFirst(m: int, s: set<int>, rest: seq<int>)
    requires m in s && forall x :: x in s ==> m <= x
    requires |rest| == |s - {m}| && StrictlyIncreasing(rest)
    requires forall x :: x in rest <==> x in s - {m}
    ensures |[m] + rest| == |s|
    ensures forall x :: x in [m] + rest <==> x in s
    ensures StrictlyIncreasing([m] + rest)
  {
    var r := [m] + rest;
    assert forall x :: x in r <==> x == m || x in rest;
    forall i, j | 0 <= i < j < |r| ensures r[i] < r[j] {
      assert r[j] == rest[j - 1] && rest[j - 1] in s - {m};
      if 0 < i { assert r[i] == rest[i - 1]; }
    }
  }

  /** `xs.index(x)`: the position of the first occurrence of `x`. */
  function IndexOf(xs: seq<int>, x: int): (k: nat)
    requires x in xs
    ensures k < |xs| && xs[k] == x
    ensures forall j :: 0 <= j < k ==> xs[j] != x
  {
    if xs[0] == x then 0 else 1 + IndexOf(xs[1..], x)
  }

  /** A strictly increasing sequence has as many distinct elements as entries. */
  lemma {:induction false} DistinctCardinality(xs: seq<int>)
    requires StrictlyIncreasing(xs)
    ensures |set x | x in xs| == |xs|
  {
    if xs != [] {
      var init := xs[..|xs| - 1];
      DistinctCardinality(init);
      assert (set x | x in xs) == (set x | x in init) + {xs[|xs| - 1]};
      assert xs[|xs| - 1] !in (set x | x in init);
    }
  }

  /** In an increasing listing of `s`, the elements before position `k`
      are exactly the elements of `s` below the `k`-th one. */
  lemma {:induction false} PrefixIsBelow(r: seq<int>, s: set<int>, k: nat)
    requires StrictlyIncreasing(r)
    requires forall x :: x in r <==> x in s
    requires k < |r|
    ensures (set q | q in s && q < r[k]) == (set x | x in r[..k])
  {
    var lower := set q | q in s && q < r[k];
    var listed := set x | x in r[..k];
    assert forall j :: k <= j < |r| ==> r[k] <= r[j];
    forall q | q in lower ensures q in listed {
      assert q in r;
      var j :| 0 <= j < |r| && r[j] == q;
      assert r[..k][j] == q;
    }
    forall x | x in listed ensures x in lower {
      var j :| 0 <= j < k && r[..k][j] == x;
      assert r[j] == x && r[j] < r[k];
    }
  }

  /** The position of `p` in `sorted(s)` is the number of elements of `s`
      below `p`: its rank. */
  lemma IndexIsRank(s: set<int>, p: int)
    requires p in s
    ensures IndexOf(SortedSeq(s), p) == |set q | q in s && q < p|
    ensures IndexOf(SortedSeq(s), p) < |s|
  {
    var r := SortedSeq(s);
    var k := IndexOf(r, p);
    var prefix := r[..k];
    assert StrictlyIncreasing(prefix) by {
      forall i, j | 0 <= i < j < |prefix| ensures prefix[i] < prefix[j] {
        assert prefix[i] == r[i] && prefix[j] == r[j];
      }
    }
    DistinctCardinality(prefix);
    PrefixIsBelow(r, s, k);
    assert r[k] == p;
    assert (set q | q in s && q < p) == (set x | x in prefix);
  }
}
