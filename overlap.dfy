/** Overlap-conflict resolution: `handle_overlapping_conflict` and
    `__handle_container_overlapping_conflict`. The start-sorted ranges of a
    container are cut greedily into runs of overlapping ranges; in each run
    every range anchors one candidate solution, and the candidate with the
    highest total score is kept. */
module Overlap {
  import opened CommonRange

  function Last<T>(s: seq<T>): T
    requires s != []
  {
    s[|s| - 1]
  }

  /** The runs laid end to end. */
  function Flatten(ps: seq<seq<Range>>): seq<Range>
  {
    if ps == [] then [] else Flatten(ps[..|ps| - 1]) + Last(ps)
  }

  // ---------------------------------------------------------------------
  // Partitioning into runs

  /** The runs built by the partition loop: a range joins the current run
      when it overlaps the run's last range, and opens a new run otherwise. */
  function Partitions(rs: seq<Range>): (ps: seq<seq<Range>>)
    ensures forall k :: 0 <= k < |ps| ==> ps[k] != []
  {
    if rs == [] then []
    else
      JoinOrOpen(Partitions(rs[..|rs| - 1]), Last(rs))
  }

  /** One step of the partition loop: `cur` joins the last run when it
      overlaps that run's last range, and opens a new run otherwise. */
  function JoinOrOpen(ps: seq<seq<Range>>, cur: Range): (res: seq<seq<Range>>)
    requires forall k :: 0 <= k < |ps| ==> ps[k] != []
    ensures forall k :: 0 <= k < |res| ==> res[k] != []
  {
    if ps != [] && Overlaps(cur, Last(Last(ps))) then ps[..|ps| - 1] + [Last(ps) + [cur]]
    else ps + [[cur]]
  }

  /** A step of the partition loop appends `cur` to the laid-out runs. */
  lemma {:induction false} JoinOrOpenAppends(ps: seq<seq<Range>>, cur: Range)
    requires forall k :: 0 <= k < |ps| ==> ps[k] != []
    ensures Flatten(JoinOrOpen(ps, cur)) == Flatten(ps) + [cur]
  {
    if ps != [] && Overlaps(cur, Last(Last(ps))) {
      var init := ps[..|ps| - 1];
      var run := Last(ps) + [cur];
      var res := init + [run];
      assert res[..|res| - 1] == init && Last(res) == run;
      assert Flatten(res) == Flatten(init) + run;
      assert Flatten(ps) == Flatten(init) + Last(ps);
    } else {
      assert (ps + [[cur]])[..|ps|] == ps;
    }
  }

  /** Inside a run each range overlaps the one before it. */
  ghost predicate RunsChained(ps: seq<seq<Range>>)
  {
    forall k, j :: 0 <= k < |ps| && 0 < j < |ps[k]| ==> Overlaps(ps[k][j], ps[k][j - 1])
  }

  /** Each run after the first opens with a range that does not overlap the
      last range of the run before it. */
  ghost predicate RunsSeparated(ps: seq<seq<Range>>)
  {
    forall l :: 0 < l < |ps| ==> SeparatedAt(ps, l)
  }

  ghost predicate SeparatedAt(ps: seq<seq<Range>>, l: nat)
    requires 0 < l < |ps|
  {
    ps[l - 1] != [] && ps[l] != [] && !Overlaps(ps[l][0], Last(ps[l - 1]))
  }

  lemma JoinRunKeepsShape(ps: seq<seq<Range>>, cur: Range)
    requires ps != [] && Last(ps) != []
    requires RunsChained(ps) && RunsSeparated(ps)
    requires Overlaps(cur, Last(Last(ps)))
    ensures RunsChained(ps[..|ps| - 1] + [Last(ps) + [cur]])
    ensures RunsSeparated(ps[..|ps| - 1] + [Last(ps) + [cur]])
  {
    var res := ps[..|ps| - 1] + [Last(ps) + [cur]];
    assert forall k :: 0 <= k < |ps| - 1 ==> res[k] == ps[k];
    forall k, j | 0 <= k < |res| && 0 < j < |res[k]| ensures Overlaps(res[k][j], res[k][j - 1]) {
      if k == |ps| - 1 && j < |Last(ps)| {
        assert res[k][j] == ps[k][j] && res[k][j - 1] == ps[k][j - 1];
      }
    }
    forall l | 0 < l < |res| ensures SeparatedAt(res, l) {
      assert SeparatedAt(ps, l);
      assert res[l - 1] == ps[l - 1];
      if l < |ps| - 1 { assert res[l] == ps[l]; }
      else { assert res[l][0] == ps[l][0]; }
    }
  }

  lemma OpenRunKeepsShape(ps: seq<seq<Range>>, cur: Range)
    requires RunsChained(ps) && RunsSeparated(ps)
    requires ps != [] ==> Last(ps) != [] && !Overlaps(cur, Last(Last(ps)))
    ensures RunsChained(ps + [[cur]])
    ensures RunsSeparated(ps + [[cur]])
  {
    var res := ps + [[cur]];
    assert forall k :: 0 <= k < |ps| ==> res[k] == ps[k];
    forall l | 0 < l < |res| ensures SeparatedAt(res, l) {
      assert res[l - 1] == ps[l - 1];
      if l < |ps| { assert SeparatedAt(ps, l) && res[l] == ps[l]; }
    }
  }

  /** The runs, laid end to end, give back the ranges; within a run each
      range overlaps its predecessor; between runs the new run's first range
      does not overlap the previous run's last range. */
  lemma {:induction false} PartitionsAreGreedyRuns(rs: seq<Range>)
    ensures Flatten(Partitions(rs)) == rs
    ensures RunsChained(Partitions(rs))
    ensures RunsSeparated(Partitions(rs))
  {
    if rs != [] {
      var init := rs[..|rs| - 1];
      PartitionsAreGreedyRuns(init);
      var ps := Partitions(init);
      var cur := Last(rs);
      assert Partitions(rs) == JoinOrOpen(ps, cur);
      JoinOrOpenAppends(ps, cur);
      assert rs == init + [cur];
      if ps != [] && Overlaps(cur, Last(Last(ps))) {
        JoinRunKeepsShape(ps, cur);
      } else {
        OpenRunKeepsShape(ps, cur);
      }
    }
  }

  /** The partition loop of `__handle_container_overlapping_conflict`. */
  method PartitionRanges(ranges: seq<Range>) returns (partitions: seq<seq<Range>>)
    ensures partitions == Partitions(ranges)
  {
    partitions := [];
    for i := 0 to |ranges|
      invariant partitions == Partitions(ranges[..i])
    {
      var curRng := ranges[i];
      ghost var before := partitions;
      if |partitions| == 0 {
        partitions := partitions + [[curRng]];
      } else {
        var lastRng := Last(Last(partitions));
        if Overlaps(curRng, lastRng) {
          partitions := partitions[..|partitions| - 1] + [Last(partitions) + [curRng]];
        } else {
          partitions := partitions + [[curRng]];
        }
      }
      assert partitions == JoinOrOpen(before, curRng);
      assert ranges[..i + 1][..i] == ranges[..i];
    }
    assert ranges[..|ranges|] == ranges;
  }

  // ---------------------------------------------------------------------
  // Candidate solutions

  /** `[r for r in rest if not anchor.overlaps_with(r)]`. */
  function NotOverlapping(rest: seq<Range>, anchor: Range): (r: seq<Range>)
    ensures forall x :: x in r <==> x in rest && !Overlaps(anchor, x)
  {
    if rest == [] then []
    else NotOverlapping(rest[..|rest| - 1], anchor) + (if Overlaps(anchor, Last(rest)) then [] else [Last(rest)])
  }

  /** The filter keeps the order of a start-sorted list. */
  lemma {:induction false} NotOverlappingSorted(rest: seq<Range>, anchor: Range)
    requires SortedByStart(rest)
    ensures SortedByStart(NotOverlapping(rest, anchor))
  {
    if rest != [] {
      var init, x := rest[..|rest| - 1], Last(rest);
      assert rest == init + [x];
      SortedParts(init, [x]);
      NotOverlappingSorted(init, anchor);
      var kept := NotOverlapping(init, anchor);
      if !Overlaps(anchor, x) {
        forall y | y in kept ensures y.start <= x.start {
          var m :| 0 <= m < |init| && init[m] == y;
          assert rest[m] == y;
        }
        SortedSnoc(kept, x);
      }
    }
  }

  lemma SortedSnoc(s: seq<Range>, x: Range)
    requires SortedByStart(s) && forall y :: y in s ==> y.start <= x.start
    ensures SortedByStart(s + [x])
  {
    var t := s + [x];
    forall i, j | 0 <= i < j < |t| ensures t[i].start <= t[j].start {
      assert t[i] == s[i];
      if j < |s| { assert t[j] == s[j]; }
    }
  }

  /** The candidate anchored at `p[i]`, as line 214 builds it: the anchor
      and every later range of the run that does not overlap the anchor. */
  function Candidate(p: seq<Range>, i: nat): (sol: seq<Range>)
    requires i < |p|
    ensures sol != [] && sol[0] == p[i]
    ensures forall j :: 0 < j < |sol| ==> !Overlaps(p[i], sol[j]) && sol[j] in p[i + 1..]
  {
    var rest := NotOverlapping(p[i + 1..], p[i]);
    assert forall j :: 0 < j < |rest| + 1 ==> ([p[i]] + rest)[j] == rest[j - 1];
    [p[i]] + rest
  }

  /** A candidate is its anchor followed by exactly the later ranges of the
      run that do not overlap the anchor, in run order; none of them
      overlaps the anchor from either side. */
  lemma CandidateProperties(p: seq<Range>, i: nat)
    requires i < |p|
    ensures Candidate(p, i) != [] && Candidate(p, i)[0] == p[i]
    ensures forall x :: x in Candidate(p, i)[1..] <==> x in p[i + 1..] && !Overlaps(p[i], x)
    ensures Anchored(Candidate(p, i))
    ensures forall x :: x in Candidate(p, i) ==> x in p[i..]
    ensures SortedByStart(p) ==> SortedByStart(Candidate(p, i))
  {
    var sol := Candidate(p, i);
    assert sol[1..] == NotOverlapping(p[i + 1..], p[i]);
    assert p[i..] == [p[i]] + p[i + 1..];
    if SortedByStart(p) {
      CandidateSorted(p, i);
    }
  }

  lemma CandidateSorted(p: seq<Range>, i: nat)
    requires i < |p| && SortedByStart(p)
    ensures SortedByStart(Candidate(p, i))
  {
    var tail := p[i + 1..];
    assert p[i..] == [p[i]] + tail;
    SortedParts(p[..i], p[i..]);
    SortedParts([p[i]], tail);
    NotOverlappingSorted(tail, p[i]);
    var rest := NotOverlapping(tail, p[i]);
    forall y | y in rest ensures p[i].start <= y.start {
      var m :| 0 <= m < |tail| && tail[m] == y;
      assert p[i..][0] == p[i] && p[i..][m + 1] == y;
    }
    SortedCons(p[i], rest);
  }

  lemma SortedCons(x: Range, s: seq<Range>)
    requires SortedByStart(s) && forall y :: y in s ==> x.start <= y.start
    ensures SortedByStart([x] + s)
  {
    var t := [x] + s;
    forall i, j | 0 <= i < j < |t| ensures t[i].start <= t[j].start {
      assert t[j] == s[j - 1];
      if 0 < i { assert t[i] == s[i - 1]; }
    }
  }

  /** The first range of a solution overlaps none of the others. */
  ghost predicate Anchored(sol: seq<Range>)
  {
    sol != [] && forall j :: 0 < j < |sol| ==> !Overlaps(sol[0], sol[j]) && !Overlaps(sol[j], sol[0])
  }

  // ---------------------------------------------------------------------
  // Choosing the best candidate

  /** `sum(r.score for r in sol)`. */
  function Score(sol: seq<Range>): real
  {
    if sol == [] then 0.0 else Score(sol[..|sol| - 1]) + Last(sol).score
  }

  /** `max(solutions, key=score)`: the index of the first candidate of highest score. */
  function Best(solutions: seq<seq<Range>>): (b: nat)
    requires solutions != []
    ensures b < |solutions|
    ensures forall j :: 0 <= j < |solutions| ==> Score(solutions[j]) <= Score(solutions[b])
    ensures forall j :: 0 <= j < b ==> Score(solutions[j]) < Score(solutions[b])
  {
    if |solutions| == 1 then 0
    else
      var b := Best(solutions[..|solutions| - 1]);
      if Score(solutions[b]) < Score(Last(solutions)) then |solutions| - 1 else b
  }

  /** One candidate per range of the run, in run order. */
  function Candidates(p: seq<Range>): (cs: seq<seq<Range>>)
    ensures |cs| == |p|
  {
    seq(|p|, i requires 0 <= i < |p| => Candidate(p, i))
  }

  /** The resolved subset of one run. */
  function ResolvePartition(p: seq<Range>): seq<Range>
    requires p != []
  {
    var solutions := Candidates(p);
    solutions[Best(solutions)]
  }

  /** The kept subset of a run is one of its candidates, scores at least as
      high as every candidate and higher than every earlier one, is drawn
      from the run, and its anchor overlaps none of the other kept ranges. */
  lemma ResolvePartitionProperties(p: seq<Range>)
    requires p != []
    ensures exists b :: (0 <= b < |p| && ResolvePartition(p) == Candidate(p, b) &&
                         (forall j :: 0 <= j < b ==> Score(Candidate(p, j)) < Score(ResolvePartition(p))))
    ensures forall j :: 0 <= j < |p| ==> Score(Candidate(p, j)) <= Score(ResolvePartition(p))
    ensures Anchored(ResolvePartition(p))
    ensures forall x :: x in ResolvePartition(p) ==> x in p
  {
    var solutions := Candidates(p);
    var b := Best(solutions);
    CandidateProperties(p, b);
    assert forall j :: 0 <= j < |p| ==> solutions[j] == Candidate(p, j);
  }

  // ---------------------------------------------------------------------
  // The corrected candidate

  /** Scans `rest` in order and keeps each range that overlaps none of the
      ranges kept so far. */
  function Extend(chosen: seq<Range>, rest: seq<Range>): seq<Range>
    decreases |rest|
  {
    if rest == [] then chosen
    else if OverlapsAny(rest[0], chosen) then Extend(chosen, rest[1..])
    else Extend(chosen + [rest[0]], rest[1..])
  }

  /** `r` overlaps some range of `chosen`. */
  predicate OverlapsAny(r: Range, chosen: seq<Range>)
  {
    exists c :: c in chosen && Overlaps(r, c)
  }

  lemma {:induction false} ExtendProperties(chosen: seq<Range>, rest: seq<Range>)
    ensures |chosen| <= |Extend(chosen, rest)| && Extend(chosen, rest)[..|chosen|] == chosen
    ensures !RangesOverlap(chosen) ==> !RangesOverlap(Extend(chosen, rest))
    ensures forall x :: x in Extend(chosen, rest) ==> x in chosen || x in rest
    ensures forall x :: x in rest ==> x in Extend(chosen, rest) || OverlapsAny(x, Extend(chosen, rest))
    decreases |rest|
  {
    if rest != [] {
      var x := rest[0];
      assert rest == [x] + rest[1..];
      if OverlapsAny(x, chosen) {
        ExtendProperties(chosen, rest[1..]);
        var e := Extend(chosen, rest[1..]);
        var c :| c in chosen && Overlaps(x, c);
        assert c in e by { assert e[..|chosen|] == chosen; }
      } else {
        var grown := chosen + [x];
        ExtendProperties(grown, rest[1..]);
        var e := Extend(grown, rest[1..]);
        assert e[..|chosen|] == grown[..|chosen|] == chosen;
        assert x in e by { assert e[|chosen|] == grown[|chosen|]; }
        if !RangesOverlap(chosen) {
          forall i, j | 0 <= i < j < |grown| ensures !Overlaps(grown[i], grown[j]) {
            if j == |chosen| { assert grown[i] in chosen; }
          }
        }
      }
    }
  }

  /** The candidate anchored at `p[i]` as line 214 evidently means it: the
      anchor, then each later range of the run that overlaps none of the
      ranges already in the candidate. */
  function CorrectedCandidate(p: seq<Range>, i: nat): seq<Range>
    requires i < |p|
  {
    Extend([p[i]], p[i + 1..])
  }

  /** A corrected candidate starts with its anchor, holds no two overlapping
      ranges, is drawn from the anchor and the later ranges, and every later
      range left out overlaps a range of the candidate. */
  lemma CorrectedCandidateProperties(p: seq<Range>, i: nat)
    requires i < |p|
    ensures CorrectedCandidate(p, i) != [] && CorrectedCandidate(p, i)[0] == p[i]
    ensures !RangesOverlap(CorrectedCandidate(p, i))
    ensures forall x :: x in CorrectedCandidate(p, i) ==> x in p[i..]
    ensures forall x :: x in p[i + 1..] ==> x in CorrectedCandidate(p, i) || OverlapsAny(x, CorrectedCandidate(p, i))
  {
    ExtendProperties([p[i]], p[i + 1..]);
    assert p[i..] == [p[i]] + p[i + 1..];
  }

  function CorrectedCandidates(p: seq<Range>): (cs: seq<seq<Range>>)
    ensures |cs| == |p|
  {
    seq(|p|, i requires 0 <= i < |p| => CorrectedCandidate(p, i))
  }

  /** The resolved subset of one run with the corrected candidates. */
  function ResolvePartitionCorrected(p: seq<Range>): seq<Range>
    requires p != []
  {
    var solutions := CorrectedCandidates(p);
    solutions[Best(solutions)]
  }

  /** With the corrected candidates the kept subset of a run is the
      highest-scoring corrected candidate, the first among equals, and no
      two of its ranges overlap. */
  lemma CorrectedResolutionProperties(p: seq<Range>)
    requires p != []
    ensures exists b :: (0 <= b < |p| && ResolvePartitionCorrected(p) == CorrectedCandidate(p, b) &&
                         (forall j :: 0 <= j < b ==> Score(CorrectedCandidate(p, j)) < Score(ResolvePartitionCorrected(p))))
    ensures forall j :: 0 <= j < |p| ==> Score(CorrectedCandidate(p, j)) <= Score(ResolvePartitionCorrected(p))
    ensures !RangesOverlap(ResolvePartitionCorrected(p))
    ensures forall x :: x in ResolvePartitionCorrected(p) ==> x in p
  {
    var solutions := CorrectedCandidates(p);
    var b := Best(solutions);
    CorrectedCandidateProperties(p, b);
    assert forall j :: 0 <= j < |p| ==> solutions[j] == CorrectedCandidate(p, j);
  }

  /** The resolved subsets of the runs, one per run. */
  function ResolveEach(ps: seq<seq<Range>>): (sols: seq<seq<Range>>)
    requires forall k :: 0 <= k < |ps| ==> ps[k] != []
    ensures |sols| == |ps|
  {
    if ps == [] then [] else ResolveEach(ps[..|ps| - 1]) + [ResolvePartition(Last(ps))]
  }

  /** The range list of a container after conflict resolution. */
  function ResolvedRanges(rs: seq<Range>): seq<Range>
  {
    Flatten(ResolveEach(Partitions(rs)))
  }

  /** `__handle_container_overlapping_conflict` as a value: the resolved
      ranges with the container's message indices. */
  function ResolveContainer(c: Container): Container
  {
    Container(ResolvedRanges(c.ranges), c.messageIndices)
  }

  /** `handle_overlapping_conflict` for one container: only a container with
      overlapping ranges is resolved. */
  function Resolve(c: Container): Container
  {
    if RangesOverlap(c.ranges) then ResolveContainer(c) else c
  }

  function ResolveAll(cs: seq<Container>): (rs: seq<Container>)
    ensures |rs| == |cs|
  {
    seq(|cs|, k requires 0 <= k < |cs| => Resolve(cs[k]))
  }

  lemma ResolveAllSnoc(cs: seq<Container>, c: Container)
    ensures ResolveAll(cs + [c]) == ResolveAll(cs) + [Resolve(c)]
  {
    assert forall k :: 0 <= k < |cs| ==> (cs + [c])[k] == cs[k];
  }

  /** The loop of `__handle_container_overlapping_conflict`. */
  method HandleContainerOverlappingConflict(container: Container) returns (resolved: Container)
    ensures resolved == ResolveContainer(container)
  {
    var partitions := PartitionRanges(container.ranges);
    var result: seq<Range> := [];
    for k := 0 to |partitions|
      invariant result == Flatten(ResolveEach(partitions[..k]))
    {
      var partition := partitions[k];
      var possibleSolutions := PossibleSolutions(partition);
      var bestSolution := possibleSolutions[Best(possibleSolutions)];
      result := result + bestSolution;
      assert partitions[..k + 1][..k] == partitions[..k];
    }
    assert partitions[..|partitions|] == partitions;
    resolved := Container(result, container.messageIndices);
  }

  /** The candidate-building loop of one run. */
  method PossibleSolutions(partition: seq<Range>) returns (possibleSolutions: seq<seq<Range>>)
    ensures possibleSolutions == Candidates(partition)
  {
    possibleSolutions := [];
    for i := 0 to |partition|
      invariant possibleSolutions == Candidates(partition)[..i]
    {
      var solution := [partition[i]] + NotOverlapping(partition[i + 1..], partition[i]);
      possibleSolutions := possibleSolutions + [solution];
    }
  }

  /** The loop of `handle_overlapping_conflict`. */
  method HandleOverlappingConflict(containers: seq<Container>) returns (result: seq<Container>)
    ensures result == ResolveAll(containers)
  {
    result := [];
    for k := 0 to |containers|
      invariant result == ResolveAll(containers[..k])
    {
      var container := containers[k];
      ResolveAllSnoc(containers[..k], container);
      assert containers[..k + 1] == containers[..k] + [container];
      if !RangesOverlap(container.ranges) {
        result := result + [container];
      } else {
        var resolved := HandleContainerOverlappingConflict(container);
        result := result + [resolved];
      }
    }
    assert containers[..|containers|] == containers;
  }

  // ---------------------------------------------------------------------
  // What resolution keeps

  lemma {:induction false} FlattenAppend(ps: seq<seq<Range>>, run: seq<Range>)
    ensures Flatten(ps + [run]) == Flatten(ps) + run
  {
    assert (ps + [run])[..|ps|] == ps;
  }

  lemma {:induction false} ResolveEachAppend(ps: seq<seq<Range>>, run: seq<Range>)
    requires forall k :: 0 <= k < |ps| ==> ps[k] != []
    requires run != []
    ensures ResolveEach(ps + [run]) == ResolveEach(ps) + [ResolvePartition(run)]
  {
    assert (ps + [run])[..|ps|] == ps;
  }

  /** A lone range is its own resolution. */
  lemma SingletonRunIsKept(r: Range)
    ensures ResolvePartition([r]) == [r]
  {
    assert [r][1..] == [] && NotOverlapping([], r) == [];
    assert Candidate([r], 0) == [r];
    assert Candidates([r]) == [[r]];
  }

  /** Every range in a run of its own. */
  function Singletons(rs: seq<Range>): (ps: seq<seq<Range>>)
    ensures |ps| == |rs| && forall k :: 0 <= k < |rs| ==> ps[k] == [rs[k]]
  {
    seq(|rs|, k requires 0 <= k < |rs| => [rs[k]])
  }

  /** When no two ranges overlap, every run is a single range. */
  lemma {:induction false} NoOverlapSingletons(rs: seq<Range>)
    requires !RangesOverlap(rs)
    ensures Partitions(rs) == Singletons(rs)
  {
    if rs != [] {
      var init := rs[..|rs| - 1];
      var cur := Last(rs);
      assert !RangesOverlap(init) by {
        forall i, j | 0 <= i < j < |init| ensures !Overlaps(init[i], init[j]) {
          assert init[i] == rs[i] && init[j] == rs[j];
        }
      }
      NoOverlapSingletons(init);
      var ps := Partitions(init);
      if ps != [] {
        assert Last(Last(ps)) == rs[|rs| - 2];
        OverlapsIsIntersection(cur, rs[|rs| - 2]);
        assert !Overlaps(rs[|rs| - 2], cur);
      }
      assert Partitions(rs) == JoinOrOpen(ps, cur) == ps + [[cur]];
      assert Singletons(rs) == Singletons(init) + [[cur]];
    }
  }

  /** Runs of one range each are kept whole. */
  lemma {:induction false} SingletonsAreKept(rs: seq<Range>)
    ensures Flatten(ResolveEach(Singletons(rs))) == rs
  {
    if rs != [] {
      var init := rs[..|rs| - 1];
      var cur := Last(rs);
      SingletonsAreKept(init);
      assert Singletons(rs) == Singletons(init) + [[cur]];
      ResolveEachAppend(Singletons(init), [cur]);
      SingletonRunIsKept(cur);
      FlattenAppend(ResolveEach(Singletons(init)), [cur]);
      assert rs == init + [cur];
    }
  }

  /** When no two ranges overlap, every run is a single range and resolution
      gives the ranges back unchanged: the `ranges_overlap` test of
      `handle_overlapping_conflict` is only a shortcut. */
  lemma NoOverlapPassThrough(rs: seq<Range>)
    requires !RangesOverlap(rs)
    ensures Partitions(rs) == Singletons(rs)
    ensures ResolvedRanges(rs) == rs
  {
    NoOverlapSingletons(rs);
    SingletonsAreKept(rs);
  }

  /** Resolving a container that has no overlap changes nothing, so the
      shortcut and the full resolution agree on every container. */
  lemma ResolveIsResolveContainer(c: Container)
    ensures Resolve(c) == ResolveContainer(c)
  {
    if !RangesOverlap(c.ranges) {
      NoOverlapPassThrough(c.ranges);
    }
  }

  lemma {:induction false} JoinSorted(a: seq<Range>, b: seq<Range>, a': seq<Range>, b': seq<Range>)
    requires SortedByStart(a + b) && SortedByStart(a') && SortedByStart(b')
    requires forall x :: x in a' ==> x in a
    requires forall y :: y in b' ==> y in b
    ensures SortedByStart(a' + b')
  {
    var ab, res := a + b, a' + b';
    forall i, j | 0 <= i < j < |res| ensures res[i].start <= res[j].start {
      if i < |a'| && |a'| <= j {
        assert res[i] in a && res[j] in b;
        var p :| 0 <= p < |a| && a[p] == res[i];
        var q :| 0 <= q < |b| && b[q] == res[j];
        assert ab[p] == a[p] && ab[|a| + q] == b[q];
      } else if j < |a'| {
        assert res[i] == a'[i] && res[j] == a'[j];
      } else {
        assert res[i] == b'[i - |a'|] && res[j] == b'[j - |a'|];
      }
    }
  }

  /** The kept ranges of a run come from the run in their original order. */
  lemma ResolvePartitionKeepsOrder(p: seq<Range>)
    requires p != [] && SortedByStart(p)
    ensures SortedByStart(ResolvePartition(p))
  {
    var solutions := Candidates(p);
    CandidateProperties(p, Best(solutions));
  }

  /** Resolution only drops ranges: everything kept was in the runs. */
  lemma {:induction false} ResolveEachDrawn(ps: seq<seq<Range>>)
    requires forall k :: 0 <= k < |ps| ==> ps[k] != []
    ensures forall x :: x in Flatten(ResolveEach(ps)) ==> x in Flatten(ps)
  {
    if ps != [] {
      var init, run := ps[..|ps| - 1], Last(ps);
      ResolveEachDrawn(init);
      assert ps == init + [run];
      ResolveEachAppend(init, run);
      FlattenAppend(ResolveEach(init), ResolvePartition(run));
      FlattenAppend(init, run);
      ResolvePartitionProperties(run);
    }
  }

  lemma {:induction false} SortedParts(a: seq<Range>, b: seq<Range>)
    requires SortedByStart(a + b)
    ensures SortedByStart(a) && SortedByStart(b)
  {
    var f := a + b;
    forall i, j | 0 <= i < j < |a| ensures a[i].start <= a[j].start {
      assert a[i] == f[i] && a[j] == f[j];
    }
    forall i, j | 0 <= i < j < |b| ensures b[i].start <= b[j].start {
      assert b[i] == f[|a| + i] && b[j] == f[|a| + j];
    }
  }

  /** Ranges sorted by start stay sorted by start. */
  lemma {:induction false} ResolveEachSorted(ps: seq<seq<Range>>)
    requires forall k :: 0 <= k < |ps| ==> ps[k] != []
    requires SortedByStart(Flatten(ps))
    ensures SortedByStart(Flatten(ResolveEach(ps)))
  {
    if ps != [] {
      var init, run := ps[..|ps| - 1], Last(ps);
      assert ps == init + [run];
      FlattenAppend(init, run);
      SortedParts(Flatten(init), run);
      ResolveEachSorted(init);
      ResolveEachAppend(init, run);
      FlattenAppend(ResolveEach(init), ResolvePartition(run));
      ResolveEachDrawn(init);
      ResolvePartitionProperties(run);
      ResolvePartitionKeepsOrder(run);
      JoinSorted(Flatten(init), run, Flatten(ResolveEach(init)), ResolvePartition(run));
    }
  }

  /** In every resolved run the winning anchor overlaps none of the other
      kept ranges of that run. */
  lemma {:induction false} ResolveEachAnchored(ps: seq<seq<Range>>)
    requires forall k :: 0 <= k < |ps| ==> ps[k] != []
    ensures forall k :: 0 <= k < |ps| ==> Anchored(ResolveEach(ps)[k])
  {
    if ps != [] {
      var init, run := ps[..|ps| - 1], Last(ps);
      ResolveEachAnchored(init);
      assert ps == init + [run];
      ResolveEachAppend(init, run);
      ResolvePartitionProperties(run);
      forall k | 0 <= k < |ps| ensures Anchored(ResolveEach(ps)[k]) {
        if k < |init| { assert ResolveEach(ps)[k] == ResolveEach(init)[k]; }
      }
    }
  }

  /** The resolved ranges of a container are drawn from its ranges and keep
      their order; in each run the winning anchor overlaps none of the other
      kept ranges; a non-empty container stays non-empty. */
  lemma ResolvedRangesProperties(rs: seq<Range>)
    ensures forall x :: x in ResolvedRanges(rs) ==> x in rs
    ensures SortedByStart(rs) ==> SortedByStart(ResolvedRanges(rs))
    ensures forall k :: 0 <= k < |Partitions(rs)| ==> Anchored(ResolveEach(Partitions(rs))[k])
    ensures rs != [] ==> ResolvedRanges(rs) != []
  {
    var ps := Partitions(rs);
    PartitionsAreGreedyRuns(rs);
    ResolveEachDrawn(ps);
    if SortedByStart(rs) { ResolveEachSorted(ps); }
    ResolveEachAnchored(ps);
    if rs != [] {
      ResolveEachNonEmpty(ps);
    }
  }

  lemma ResolveEachNonEmpty(ps: seq<seq<Range>>)
    requires ps != [] && forall k :: 0 <= k < |ps| ==> ps[k] != []
    ensures Flatten(ResolveEach(ps)) != []
  {
    var sols := ResolveEach(ps);
    var run := Last(ps);
    var b :| 0 <= b < |run| && ResolvePartition(run) == Candidate(run, b) by {
      ResolvePartitionProperties(run);
    }
    assert Last(sols) == ResolvePartition(run);
  }

  /** `handle_overlapping_conflict` keeps the containers, in order, with
      their message indices; each keeps only ranges it already had, in
      their order. */
  lemma ResolveAllProperties(cs: seq<Container>)
    ensures |ResolveAll(cs)| == |cs|
    ensures forall k :: 0 <= k < |cs| ==> ResolveAll(cs)[k].messageIndices == cs[k].messageIndices
    ensures forall k, x :: 0 <= k < |cs| && x in ResolveAll(cs)[k].ranges ==> x in cs[k].ranges
    ensures forall k :: 0 <= k < |cs| && SortedByStart(cs[k].ranges) ==> SortedByStart(ResolveAll(cs)[k].ranges)
    ensures forall k :: 0 <= k < |cs| && !RangesOverlap(cs[k].ranges) ==> ResolveAll(cs)[k] == cs[k]
  {
    forall k | 0 <= k < |cs|
      ensures forall x :: x in ResolveAll(cs)[k].ranges ==> x in cs[k].ranges
      ensures SortedByStart(cs[k].ranges) ==> SortedByStart(ResolveAll(cs)[k].ranges)
    {
      ResolvedRangesProperties(cs[k].ranges);
    }
  }

  // ---------------------------------------------------------------------
  // Worked examples

  function Field(start: int, length: int, score: real): Range
  {
    Common(start, length, "", score, [], {})
  }

  /** A lone range forms one run. */
  lemma PartitionsSingle(x: Range)
    ensures Partitions([x]) == [[x]]
  {
    assert [x][..0] == [];
  }

  /** A range overlapping the last range of a single run joins that run. */
  lemma PartitionsJoin(rs: seq<Range>, x: Range)
    requires rs != [] && Partitions(rs) == [rs] && Overlaps(x, Last(rs))
    ensures Partitions(rs + [x]) == [rs + [x]]
  {
    assert (rs + [x])[..|rs|] == rs && Last(rs + [x]) == x;
    assert [rs][..0] == [];
  }

  /** A range not overlapping the last range of the last run opens a run. */
  lemma PartitionsOpen(rs: seq<Range>, x: Range)
    requires Partitions(rs) != [] && !Overlaps(x, Last(Last(Partitions(rs))))
    ensures Partitions(rs + [x]) == Partitions(rs) + [[x]]
  {
    assert (rs + [x])[..|rs|] == rs && Last(rs + [x]) == x;
  }

  lemma ThreeFieldRun(a: Range, b: Range, c: Range)
    requires a == Field(0, 8, 5.0) && b == Field(4, 8, 3.0) && c == Field(8, 4, 4.0)
    ensures Partitions([a, b, c]) == [[a, b, c]]
  {
    assert a.start == 0 && a.length == 8 && b.start == 4 && b.length == 8 && c.start == 8 && c.length == 4;
    PartitionsSingle(a);
    PartitionsJoin([a], b);
    assert [a] + [b] == [a, b];
    PartitionsJoin([a, b], c);
    assert [a, b] + [c] == [a, b, c];
  }

  lemma ThreeFieldCandidates(a: Range, b: Range, c: Range)
    requires a == Field(0, 8, 5.0) && b == Field(4, 8, 3.0) && c == Field(8, 4, 4.0)
    ensures Candidates([a, b, c]) == [[a, c], [b], [c]]
  {
    var rs := [a, b, c];
    assert a.start == 0 && a.length == 8 && b.start == 4 && b.length == 8 && c.start == 8 && c.length == 4;
    assert Overlaps(a, b) && Overlaps(b, c) && !Overlaps(a, c);
    assert Candidate(rs, 0) == [a, c] by {
      assert rs[1..] == [b, c] && [b, c][..1] == [b] && [b][..0] == [];
      assert NotOverlapping([b], a) == [];
      assert NotOverlapping([b, c], a) == [c];
    }
    assert Candidate(rs, 1) == [b] by {
      assert rs[2..] == [c] && [c][..0] == [];
      assert NotOverlapping([c], b) == [];
    }
    assert Candidate(rs, 2) == [c] by {
      assert rs[3..] == [];
    }
  }

  lemma ScoreSingle(r: Range)
    ensures Score([r]) == r.score
  {
    assert [r][..0] == [];
  }

  lemma ScorePair(r: Range, q: Range)
    ensures Score([r, q]) == r.score + q.score
  {
    assert [r, q][..1] == [r];
    ScoreSingle(r);
  }

  lemma ThreeFieldBest(a: Range, b: Range, c: Range)
    requires a == Field(0, 8, 5.0) && b == Field(4, 8, 3.0) && c == Field(8, 4, 4.0)
    ensures Best([[a, c], [b], [c]]) == 0
  {
    var sols := [[a, c], [b], [c]];
    assert a.score == 5.0 && b.score == 3.0 && c.score == 4.0;
    ScorePair(a, c);
    assert Score([a, c]) == 9.0;
    ScoreSingle(b);
    ScoreSingle(c);
    assert sols[..2] == [[a, c], [b]] && sols[..2][..1] == [[a, c]];
  }

  /** A = [0, 8) scoring 5, B = [4, 12) scoring 3 and C = [8, 12) scoring 4
      form one run; the candidate {A, C} scores 9 and wins. */
  lemma ThreeFieldExample()
    ensures Partitions([Field(0, 8, 5.0), Field(4, 8, 3.0), Field(8, 4, 4.0)])
      == [[Field(0, 8, 5.0), Field(4, 8, 3.0), Field(8, 4, 4.0)]]
    ensures ResolvedRanges([Field(0, 8, 5.0), Field(4, 8, 3.0), Field(8, 4, 4.0)])
      == [Field(0, 8, 5.0), Field(8, 4, 4.0)]
  {
    var a, b, c := Field(0, 8, 5.0), Field(4, 8, 3.0), Field(8, 4, 4.0);
    ThreeFieldRun(a, b, c);
    ThreeFieldCandidates(a, b, c);
    ThreeFieldBest(a, b, c);
    ResolvedOneRun([a, b, c]);
  }

  /** A container that forms a single run resolves to that run's choice. */
  lemma {:induction false} ResolvedOneRun(p: seq<Range>)
    requires p != [] && Partitions(p) == [p]
    ensures ResolvedRanges(p) == ResolvePartition(p)
  {
    assert [p] == [] + [p];
    ResolveEachAppend([], p);
    FlattenAppend([], ResolvePartition(p));
  }

  lemma FourFieldRun(a: Range, b: Range, c: Range, d: Range)
    requires a == Field(0, 10, 1.0) && b == Field(5, 10, 1.0) && c == Field(12, 4, 1.0) && d == Field(13, 4, 1.0)
    ensures Partitions([a, b, c, d]) == [[a, b, c, d]]
  {
    assert a.start == 0 && a.length == 10 && b.start == 5 && b.length == 10;
    assert c.start == 12 && c.length == 4 && d.start == 13 && d.length == 4;
    PartitionsSingle(a);
    PartitionsJoin([a], b);
    assert [a] + [b] == [a, b];
    PartitionsJoin([a, b], c);
    assert [a, b] + [c] == [a, b, c];
    PartitionsJoin([a, b, c], d);
    assert [a, b, c] + [d] == [a, b, c, d];
  }

  lemma FourFieldFilter0(a: Range, b: Range, c: Range, d: Range)
    requires a == Field(0, 10, 1.0) && b == Field(5, 10, 1.0) && c == Field(12, 4, 1.0) && d == Field(13, 4, 1.0)
    ensures NotOverlapping([b, c, d], a) == [c, d]
  {
    assert a.start == 0 && a.length == 10 && b.start == 5 && b.length == 10;
    assert c.start == 12 && c.length == 4 && d.start == 13 && d.length == 4;
    assert [b, c, d][..2] == [b, c] && [b, c][..1] == [b] && [b][..0] == [];
    assert NotOverlapping([b], a) == [];
    assert NotOverlapping([b, c], a) == [c];
  }

  lemma FourFieldCandidate0(a: Range, b: Range, c: Range, d: Range)
    requires a == Field(0, 10, 1.0) && b == Field(5, 10, 1.0) && c == Field(12, 4, 1.0) && d == Field(13, 4, 1.0)
    ensures Candidate([a, b, c, d], 0) == [a, c, d]
  {
    FourFieldFilter0(a, b, c, d);
    assert [a, b, c, d][1..] == [b, c, d];
  }

  lemma FourFieldCandidate1(a: Range, b: Range, c: Range, d: Range)
    requires a == Field(0, 10, 1.0) && b == Field(5, 10, 1.0) && c == Field(12, 4, 1.0) && d == Field(13, 4, 1.0)
    ensures Candidate([a, b, c, d], 1) == [b]
  {
    assert b.start == 5 && b.length == 10;
    assert c.start == 12 && c.length == 4 && d.start == 13 && d.length == 4;
    assert [a, b, c, d][2..] == [c, d] && [c, d][..1] == [c] && [c][..0] == [];
    assert NotOverlapping([c], b) == [];
    assert NotOverlapping([c, d], b) == [];
  }

  lemma FourFieldCandidate2(a: Range, b: Range, c: Range, d: Range)
    requires a == Field(0, 10, 1.0) && b == Field(5, 10, 1.0) && c == Field(12, 4, 1.0) && d == Field(13, 4, 1.0)
    ensures Candidate([a, b, c, d], 2) == [c]
  {
    assert c.start == 12 && c.length == 4 && d.start == 13 && d.length == 4;
    assert [a, b, c, d][3..] == [d] && [d][..0] == [];
    assert NotOverlapping([d], c) == [];
  }

  lemma FourFieldCandidates(a: Range, b: Range, c: Range, d: Range)
    requires a == Field(0, 10, 1.0) && b == Field(5, 10, 1.0) && c == Field(12, 4, 1.0) && d == Field(13, 4, 1.0)
    ensures Candidates([a, b, c, d]) == [[a, c, d], [b], [c], [d]]
  {
    FourFieldCandidate0(a, b, c, d);
    FourFieldCandidate1(a, b, c, d);
    FourFieldCandidate2(a, b, c, d);
    assert [a, b, c, d][4..] == [];
    assert Candidate([a, b, c, d], 3) == [d];
  }

  lemma FourFieldBest(a: Range, b: Range, c: Range, d: Range)
    requires a == Field(0, 10, 1.0) && b == Field(5, 10, 1.0) && c == Field(12, 4, 1.0) && d == Field(13, 4, 1.0)
    ensures Best([[a, c, d], [b], [c], [d]]) == 0
  {
    var sols := [[a, c, d], [b], [c], [d]];
    assert a.score == 1.0 && b.score == 1.0 && c.score == 1.0 && d.score == 1.0;
    assert Score([a, c, d]) == 3.0 by {
      assert [a, c, d][..2] == [a, c] && [a, c][..1] == [a] && [a][..0] == [];
      assert Score([a]) == 1.0;
      assert Score([a, c]) == 2.0;
    }
    assert Score([b]) == 1.0 by { assert [b][..0] == []; }
    assert Score([c]) == 1.0 by { assert [c][..0] == []; }
    assert Score([d]) == 1.0 by { assert [d][..0] == []; }
    assert sols[..3] == [[a, c, d], [b], [c]] && sols[..3][..2] == [[a, c, d], [b]] && sols[..3][..2][..1] == [[a, c, d]];
    assert Best([[a, c, d]]) == 0;
    assert Best([[a, c, d], [b]]) == 0;
    assert Best([[a, c, d], [b], [c]]) == 0;
  }

  /** The candidate built at line 214 only drops ranges that overlap its
      anchor, so two later ranges that overlap each other can both stay:
      A = [0, 10), B = [5, 15), C = [12, 16) and D = [13, 17), all scoring 1,
      form one run whose resolution keeps A, C and D although C and D
      overlap. */
  lemma AsWrittenKeepsOverlap()
    ensures Partitions([Field(0, 10, 1.0), Field(5, 10, 1.0), Field(12, 4, 1.0), Field(13, 4, 1.0)])
      == [[Field(0, 10, 1.0), Field(5, 10, 1.0), Field(12, 4, 1.0), Field(13, 4, 1.0)]]
    ensures ResolvedRanges([Field(0, 10, 1.0), Field(5, 10, 1.0), Field(12, 4, 1.0), Field(13, 4, 1.0)])
      == [Field(0, 10, 1.0), Field(12, 4, 1.0), Field(13, 4, 1.0)]
    ensures RangesOverlap(ResolvedRanges([Field(0, 10, 1.0), Field(5, 10, 1.0), Field(12, 4, 1.0), Field(13, 4, 1.0)]))
  {
    var a, b, c, d := Field(0, 10, 1.0), Field(5, 10, 1.0), Field(12, 4, 1.0), Field(13, 4, 1.0);
    FourFieldRun(a, b, c, d);
    FourFieldCandidates(a, b, c, d);
    FourFieldBest(a, b, c, d);
    ResolvedOneRun([a, b, c, d]);
    var r := [a, c, d];
    assert r[1] == c && r[2] == d && Overlaps(c, d);
  }

  lemma FourFieldCorrectedCandidates(a: Range, b: Range, c: Range, d: Range)
    requires a == Field(0, 10, 1.0) && b == Field(5, 10, 1.0) && c == Field(12, 4, 1.0) && d == Field(13, 4, 1.0)
    ensures CorrectedCandidates([a, b, c, d]) == [[a, c], [b], [c], [d]]
  {
    var p := [a, b, c, d];
    assert a.start == 0 && a.length == 10 && b.start == 5 && b.length == 10;
    assert c.start == 12 && c.length == 4 && d.start == 13 && d.length == 4;
    assert a in [a] && Overlaps(b, a) && !Overlaps(c, a);
    assert c in [a, c] && Overlaps(d, c);
    assert b in [b] && Overlaps(c, b) && Overlaps(d, b);
    assert c in [c] && Overlaps(d, c);
    assert CorrectedCandidate(p, 0) == [a, c] by {
      assert p[1..] == [b, c, d] && [b, c, d][1..] == [c, d] && [c, d][1..] == [d] && [d][1..] == [];
      assert Extend([a], [b, c, d]) == Extend([a], [c, d]);
      assert !OverlapsAny(c, [a]) by { assert forall x :: x in [a] ==> x == a; }
      assert [a] + [c] == [a, c];
      assert Extend([a], [c, d]) == Extend([a, c], [d]);
      assert Extend([a, c], [d]) == Extend([a, c], []);
    }
    assert CorrectedCandidate(p, 1) == [b] by {
      assert p[2..] == [c, d] && [c, d][1..] == [d] && [d][1..] == [];
      assert Extend([b], [c, d]) == Extend([b], [d]);
      assert Extend([b], [d]) == Extend([b], []);
    }
    assert CorrectedCandidate(p, 2) == [c] by {
      assert p[3..] == [d] && [d][1..] == [];
      assert Extend([c], [d]) == Extend([c], []);
    }
    assert CorrectedCandidate(p, 3) == [d] by {
      assert p[4..] == [];
    }
  }

  lemma FourFieldCorrectedBest(a: Range, b: Range, c: Range, d: Range)
    requires a == Field(0, 10, 1.0) && b == Field(5, 10, 1.0) && c == Field(12, 4, 1.0) && d == Field(13, 4, 1.0)
    ensures Best([[a, c], [b], [c], [d]]) == 0
  {
    var sols := [[a, c], [b], [c], [d]];
    assert a.score == 1.0 && b.score == 1.0 && c.score == 1.0 && d.score == 1.0;
    assert Score([a, c]) == 2.0 by {
      assert [a, c][..1] == [a] && [a][..0] == [];
      assert Score([a]) == 1.0;
    }
    assert Score([b]) == 1.0 by { assert [b][..0] == []; }
    assert Score([c]) == 1.0 by { assert [c][..0] == []; }
    assert Score([d]) == 1.0 by { assert [d][..0] == []; }
    assert sols[..3] == [[a, c], [b], [c]] && sols[..3][..2] == [[a, c], [b]] && sols[..3][..2][..1] == [[a, c]];
    assert Best([[a, c]]) == 0;
    assert Best([[a, c], [b]]) == 0;
    assert Best([[a, c], [b], [c]]) == 0;
  }

  /** On the same run the corrected candidates drop D, which overlaps the
      kept C, and the corrected resolution keeps A and C, which do not
      overlap. */
  lemma CorrectedDropsOverlap()
    ensures ResolvePartitionCorrected([Field(0, 10, 1.0), Field(5, 10, 1.0), Field(12, 4, 1.0), Field(13, 4, 1.0)])
      == [Field(0, 10, 1.0), Field(12, 4, 1.0)]
    ensures !RangesOverlap(ResolvePartitionCorrected([Field(0, 10, 1.0), Field(5, 10, 1.0), Field(12, 4, 1.0), Field(13, 4, 1.0)]))
  {
    var a, b, c, d := Field(0, 10, 1.0), Field(5, 10, 1.0), Field(12, 4, 1.0), Field(13, 4, 1.0);
    FourFieldCorrectedCandidates(a, b, c, d);
    FourFieldCorrectedBest(a, b, c, d);
    assert a.start == 0 && a.length == 10 && c.start == 12 && c.length == 4;
    ApartPair(a, c);
  }

  lemma ApartPair(x: Range, y: Range)
    requires !Overlaps(x, y)
    ensures !RangesOverlap([x, y])
  {
    var s := [x, y];
    assert forall i, j :: 0 <= i < j < 2 ==> s[i] == x && s[j] == y;
  }

  lemma SpanningRun(a: Range, b: Range, c: Range)
    requires a == Field(0, 100, 3.0) && b == Field(50, 10, 1.0) && c == Field(70, 5, 1.0)
    ensures Partitions([a, b, c]) == [[a, b], [c]]
  {
    assert a.start == 0 && a.length == 100 && b.start == 50 && b.length == 10 && c.start == 70 && c.length == 5;
    PartitionsSingle(a);
    PartitionsJoin([a], b);
    assert [a] + [b] == [a, b];
    PartitionsOpen([a, b], c);
    assert [a, b] + [c] == [a, b, c];
  }

  lemma SpanningResolution(a: Range, b: Range, c: Range)
    requires a == Field(0, 100, 3.0) && b == Field(50, 10, 1.0) && c == Field(70, 5, 1.0)
    ensures ResolvePartition([a, b]) == [a]
    ensures ResolvePartition([c]) == [c]
  {
    assert a.start == 0 && a.length == 100 && b.start == 50 && b.length == 10;
    assert a.score == 3.0 && b.score == 1.0;
    assert Overlaps(a, b);
    assert Candidate([a, b], 0) == [a] by {
      assert [a, b][1..] == [b] && [b][..0] == [];
      assert NotOverlapping([b], a) == [];
    }
    assert Candidate([a, b], 1) == [b] by {
      assert [a, b][2..] == [];
    }
    assert Candidates([a, b]) == [[a], [b]];
    assert Score([a]) == 3.0 && Score([b]) == 1.0 by {
      assert [a][..0] == [] && [b][..0] == [];
    }
    assert [[a], [b]][..1] == [[a]];
    SingletonRunIsKept(c);
  }

  /** A run only compares each range with the run's last range, so a long
      range can reach past a run's end: A = [0, 100) scoring 3 and
      B = [50, 60) form one run, C = [70, 75) opens the next, and the
      resolved container keeps A and C, which overlap. The overlap comes
      from the cut into runs, not from how a candidate is built. */
  lemma OverlapAcrossRuns()
    ensures Partitions([Field(0, 100, 3.0), Field(50, 10, 1.0), Field(70, 5, 1.0)])
      == [[Field(0, 100, 3.0), Field(50, 10, 1.0)], [Field(70, 5, 1.0)]]
    ensures ResolvedRanges([Field(0, 100, 3.0), Field(50, 10, 1.0), Field(70, 5, 1.0)])
      == [Field(0, 100, 3.0), Field(70, 5, 1.0)]
    ensures Overlaps(Field(0, 100, 3.0), Field(70, 5, 1.0))
  {
    var a, b, c := Field(0, 100, 3.0), Field(50, 10, 1.0), Field(70, 5, 1.0);
    SpanningRun(a, b, c);
    SpanningResolved(a, b, c);
    assert a.start == 0 && a.length == 100 && c.start == 70 && c.length == 5;
  }

  lemma SpanningResolved(a: Range, b: Range, c: Range)
    requires a == Field(0, 100, 3.0) && b == Field(50, 10, 1.0) && c == Field(70, 5, 1.0)
    ensures ResolvedRanges([a, b, c]) == [a, c]
  {
    SpanningRun(a, b, c);
    SpanningEach(a, b, c);
    TwoSingletonsFlatten(a, c);
  }

  lemma SpanningEach(a: Range, b: Range, c: Range)
    requires a == Field(0, 100, 3.0) && b == Field(50, 10, 1.0) && c == Field(70, 5, 1.0)
    ensures ResolveEach([[a, b], [c]]) == [[a], [c]]
  {
    SpanningResolution(a, b, c);
    ResolveEachTwo([a, b], [c]);
  }

  lemma {:induction false} ResolveEachTwo(p: seq<Range>, q: seq<Range>)
    requires p != [] && q != []
    ensures ResolveEach([p, q]) == [ResolvePartition(p), ResolvePartition(q)]
  {
    assert [p, q] == [p] + [q];
    ResolveEachAppend([p], q);
    assert [p] == [] + [p];
    ResolveEachAppend([], p);
    assert ResolveEach([p]) == [ResolvePartition(p)];
  }

  lemma {:induction false} TwoSingletonsFlatten(a: Range, c: Range)
    ensures Flatten([[a], [c]]) == [a, c]
  {
    assert [[a], [c]] == [[a]] + [[c]];
    FlattenAppend([[a]], [c]);
    assert [[a]] == [] + [[a]];
    FlattenAppend([], [a]);
  }
}
