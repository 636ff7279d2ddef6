/** `merge_common_ranges`: candidate ranges with the same start and length
    are folded into the first one seen, which collects the bit patterns and
    message indices of all of them. */
module Merge {
  import opened Wrappers
  import opened CommonRange

  /** Two candidates describe the same field when start and length agree. */
  predicate SameField(a: Range, b: Range)
  {
    a.start == b.start && a.length == b.length
  }

  /** Position of the accumulated range describing the same field as `r`. */
  function FindSame(acc: seq<Range>, r: Range): Option<nat>
  {
    FirstIndex(acc, x => SameField(x, r))
  }

  /** The first-seen range `into` absorbs the evidence of its duplicate `r`. */
  function Absorb(into: Range, r: Range): Range
  {
    into.(values := into.values + r.values, messageIndices := into.messageIndices + r.messageIndices)
  }

  /** One step of the merge loop. */
  function MergeStep(acc: seq<Range>, r: Range): seq<Range>
  {
    match FindSame(acc, r)
    case None => acc + [r]
    case Some(k) => acc[k := Absorb(acc[k], r)]
  }

  /** The merge of a whole candidate list, folded from the left. */
  function Merged(rs: seq<Range>): seq<Range>
  {
    if rs == [] then [] else MergeStep(Merged(rs[..|rs| - 1]), rs[|rs| - 1])
  }

  /** The loop of `merge_common_ranges`. */
  method MergeCommonRanges(commonRanges: seq<Range>) returns (mergedRanges: seq<Range>)
    ensures mergedRanges == Merged(commonRanges)
  {
    mergedRanges := [];
    for i := 0 to |commonRanges|
      invariant mergedRanges == Merged(commonRanges[..i])
    {
      var commonRange := commonRanges[i];
      var same := FindSame(mergedRanges, commonRange);
      if same.Some? {
        var k := same.value;
        mergedRanges := mergedRanges[k := Absorb(mergedRanges[k], commonRange)];
      } else {
        mergedRanges := mergedRanges + [commonRange];
      }
      assert commonRanges[..i + 1][..i] == commonRanges[..i];
    }
    assert commonRanges[..|commonRanges|] == commonRanges;
  }

  // ---------------------------------------------------------------------
  // Reference definitions: the (start, length) keys of a list, the keys in
  // order of first occurrence, and the evidence gathered for one key.

  function Key(r: Range): (int, int) { (r.start, r.length) }

  function Keys(rs: seq<Range>): (ks: seq<(int, int)>)
    ensures |ks| == |rs|
    ensures forall i :: 0 <= i < |rs| ==> ks[i] == Key(rs[i])
  {
    if rs == [] then [] else Keys(rs[..|rs| - 1]) + [Key(rs[|rs| - 1])]
  }

  /** The keys in order of first occurrence, each once. */
  function Dedup(ks: seq<(int, int)>): seq<(int, int)>
  {
    if ks == [] then []
    else
      var d := Dedup(ks[..|ks| - 1]);
      if ks[|ks| - 1] in d then d else d + [ks[|ks| - 1]]
  }

  /** The concatenated bit patterns of every candidate describing `key`, in input order. */
  function ValuesFor(rs: seq<Range>, key: (int, int)): seq<Bits>
  {
    if rs == [] then []
    else ValuesFor(rs[..|rs| - 1], key) + (if Key(rs[|rs| - 1]) == key then rs[|rs| - 1].values else [])
  }

  /** The union of the message indices of every candidate describing `key`. */
  function IndicesFor(rs: seq<Range>, key: (int, int)): set<int>
  {
    if rs == [] then {}
    else IndicesFor(rs[..|rs| - 1], key) + (if Key(rs[|rs| - 1]) == key then rs[|rs| - 1].messageIndices else {})
  }

  ghost predicate DistinctKeys(rs: seq<Range>)
  {
    forall i, j :: 0 <= i < j < |rs| ==> !SameField(rs[i], rs[j])
  }

  lemma {:induction false} DedupDistinct(ks: seq<(int, int)>)
    ensures forall i, j :: 0 <= i < j < |Dedup(ks)| ==> Dedup(ks)[i] != Dedup(ks)[j]
    ensures |Dedup(ks)| <= |ks|
    ensures forall k :: k in Dedup(ks) <==> k in ks
  {
    if ks != [] {
      var init := ks[..|ks| - 1];
      DedupDistinct(init);
      assert ks == init + [ks[|ks| - 1]];
    }
  }

  lemma {:induction false} KeysOfMergeStep(acc: seq<Range>, r: Range)
    ensures Keys(MergeStep(acc, r)) == if Key(r) in Keys(acc) then Keys(acc) else Keys(acc) + [Key(r)]
  {
    match FindSame(acc, r)
    case None =>
      assert Key(r) !in Keys(acc);
      assert Keys(acc + [r]) == Keys(acc) + [Key(r)];
    case Some(k) =>
      assert Keys(acc)[k] == Key(r);
      assert Keys(acc[k := Absorb(acc[k], r)]) == Keys(acc);
  }

  /** The merged list lists each (start, length) of the input once, in order of first occurrence. */
  lemma {:induction false} MergedKeysAreFirstOccurrences(rs: seq<Range>)
    ensures Keys(Merged(rs)) == Dedup(Keys(rs))
  {
    if rs != [] {
      var init := rs[..|rs| - 1];
      MergedKeysAreFirstOccurrences(init);
      KeysOfMergeStep(Merged(init), rs[|rs| - 1]);
      assert Keys(rs)[..|rs| - 1] == Keys(init);
    }
  }

  /** No two merged ranges share start and length; every input key appears;
      the merged list is never longer than the input. */
  lemma {:induction false} MergedIsDeduplicated(rs: seq<Range>)
    ensures DistinctKeys(Merged(rs))
    ensures |Merged(rs)| <= |rs|
    ensures forall i :: 0 <= i < |rs| ==> exists k :: 0 <= k < |Merged(rs)| && SameField(Merged(rs)[k], rs[i])
  {
    var m := Merged(rs);
    MergedKeysAreFirstOccurrences(rs);
    DedupDistinct(Keys(rs));
    forall i, j | 0 <= i < j < |m| ensures !SameField(m[i], m[j]) {
      assert Keys(m)[i] != Keys(m)[j];
    }
    forall i | 0 <= i < |rs| ensures exists k :: 0 <= k < |m| && SameField(m[k], rs[i]) {
      assert Keys(rs)[i] in Keys(rs);
      assert Key(rs[i]) in Keys(m);
      var k :| 0 <= k < |m| && Keys(m)[k] == Key(rs[i]);
      assert SameField(m[k], rs[i]);
    }
  }

  /** Index of the first input describing `key`. */
  function FirstWith(rs: seq<Range>, key: (int, int)): (j: nat)
    requires key in Keys(rs)
    ensures j < |rs| && Key(rs[j]) == key
    ensures forall i :: 0 <= i < j ==> Key(rs[i]) != key
  {
    if Key(rs[0]) == key then 0
    else
      assert key in Keys(rs[1..]) by {
        var m :| 0 <= m < |rs| && Keys(rs)[m] == key;
        assert Keys(rs[1..])[m - 1] == key;
      }
      1 + FirstWith(rs[1..], key)
  }

  /** What the merge keeps for `key`: the first candidate describing it,
      carrying the bit patterns and message indices of all of them. */
  function Gathered(rs: seq<Range>, key: (int, int)): Range
    requires key in Keys(rs)
  {
    rs[FirstWith(rs, key)].(values := ValuesFor(rs, key), messageIndices := IndicesFor(rs, key))
  }

  lemma {:induction false} NoEvidenceForAbsentKey(rs: seq<Range>, key: (int, int))
    requires key !in Keys(rs)
    ensures ValuesFor(rs, key) == [] && IndicesFor(rs, key) == {}
  {
    if rs != [] {
      assert Keys(rs) == Keys(rs[..|rs| - 1]) + [Key(rs[|rs| - 1])];
      NoEvidenceForAbsentKey(rs[..|rs| - 1], key);
    }
  }

  lemma FirstWithOfExtension(rs: seq<Range>, r: Range, key: (int, int))
    requires key in Keys(rs)
    ensures key in Keys(rs + [r]) && FirstWith(rs + [r], key) == FirstWith(rs, key)
  {
    var j := FirstWith(rs, key);
    assert Keys(rs + [r])[j] == key;
    var j' := FirstWith(rs + [r], key);
    assert Keys(rs + [r])[j'] == key;
    assert (rs + [r])[j] == rs[j];
  }

  lemma EvidenceExtension(init: seq<Range>, r: Range, key: (int, int))
    ensures ValuesFor(init + [r], key) == ValuesFor(init, key) + (if Key(r) == key then r.values else [])
    ensures IndicesFor(init + [r], key) == IndicesFor(init, key) + (if Key(r) == key then r.messageIndices else {})
  {
    assert (init + [r])[..|init|] == init;
  }

  /** Reading `r` leaves the evidence gathered for another key as it was. */
  lemma GatheredOther(init: seq<Range>, r: Range, key: (int, int))
    requires key in Keys(init) && key != Key(r)
    ensures key in Keys(init + [r]) && Gathered(init + [r], key) == Gathered(init, key)
  {
    FirstWithOfExtension(init, r, key);
    EvidenceExtension(init, r, key);
    assert (init + [r])[FirstWith(init, key)] == init[FirstWith(init, key)];
  }

  /** Reading a duplicate `r` adds its evidence to the range already gathered. */
  lemma GatheredSame(init: seq<Range>, r: Range)
    requires Key(r) in Keys(init)
    ensures Key(r) in Keys(init + [r])
    ensures Gathered(init + [r], Key(r)) == Absorb(Gathered(init, Key(r)), r)
  {
    FirstWithOfExtension(init, r, Key(r));
    EvidenceExtension(init, r, Key(r));
    assert (init + [r])[FirstWith(init, Key(r))] == init[FirstWith(init, Key(r))];
  }

  /** A range with a new key is gathered as it is. */
  lemma GatheredNew(init: seq<Range>, r: Range)
    requires Key(r) !in Keys(init)
    ensures Key(r) in Keys(init + [r]) && Gathered(init + [r], Key(r)) == r
  {
    var rs := init + [r];
    NoEvidenceForAbsentKey(init, Key(r));
    EvidenceExtension(init, r, Key(r));
    assert Keys(rs)[|init|] == Key(r);
    forall i | 0 <= i < |init| ensures Key(rs[i]) != Key(r) {
      assert Keys(init)[i] == Key(init[i]) && rs[i] == init[i];
    }
    var j := FirstWith(rs, Key(r));
    assert j == |init|;
    assert ValuesFor(rs, Key(r)) == r.values;
    assert IndicesFor(rs, Key(r)) == r.messageIndices;
  }

  /** Every merged range is the first-seen candidate for its (start, length)
      with the bit patterns of all candidates for it concatenated in input
      order and their message indices united. */
  lemma {:induction false} MergedGathersEvidence(rs: seq<Range>)
    ensures forall k :: 0 <= k < |Merged(rs)| ==>
      Key(Merged(rs)[k]) in Keys(rs) && Merged(rs)[k] == Gathered(rs, Key(Merged(rs)[k]))
  {
    if rs != [] {
      var init, r := rs[..|rs| - 1], rs[|rs| - 1];
      assert rs == init + [r];
      var m := Merged(init);
      MergedGathersEvidence(init);
      MergedKeysAreFirstOccurrences(init);
      DedupDistinct(Keys(init));
      var m' := MergeStep(m, r);
      match FindSame(m, r)
      case None =>
        assert m' == m + [r];
        forall k | 0 <= k < |m'|
          ensures Key(m'[k]) in Keys(rs) && m'[k] == Gathered(rs, Key(m'[k]))
        {
          if k < |m| {
            assert Keys(m)[k] == Key(m[k]) && Key(m[k]) != Key(r);
            GatheredOther(init, r, Key(m[k]));
          } else {
            assert Key(r) !in Keys(m);
            GatheredNew(init, r);
          }
        }
      case Some(k0) =>
        assert m' == m[k0 := Absorb(m[k0], r)];
        forall k | 0 <= k < |m'|
          ensures Key(m'[k]) in Keys(rs) && m'[k] == Gathered(rs, Key(m'[k]))
        {
          assert Keys(m)[k] == Key(m[k]);
          if k == k0 {
            GatheredSame(init, r);
          } else {
            GatheredOther(init, r, Key(m[k]));
          }
        }
    }
  }

  /** Each input range's message indices are contained in those of the merged
      range with the same start and length. */
  lemma {:induction false} MergedCoversEvidence(rs: seq<Range>)
    ensures forall i :: 0 <= i < |rs| ==>
      exists k :: (0 <= k < |Merged(rs)| && SameField(Merged(rs)[k], rs[i]) &&
                   rs[i].messageIndices <= Merged(rs)[k].messageIndices &&
                   Merged(rs)[k].values == ValuesFor(rs, Key(rs[i])))
  {
    var m := Merged(rs);
    MergedIsDeduplicated(rs);
    MergedGathersEvidence(rs);
    forall i | 0 <= i < |rs|
      ensures exists k :: (0 <= k < |m| && SameField(m[k], rs[i]) &&
                           rs[i].messageIndices <= m[k].messageIndices && m[k].values == ValuesFor(rs, Key(rs[i])))
    {
      var k :| 0 <= k < |m| && SameField(m[k], rs[i]);
      CoversOne(rs, m, i, k);
    }
  }

  lemma {:induction false} CoversOne(rs: seq<Range>, m: seq<Range>, i: nat, k: nat)
    requires i < |rs| && k < |m| && SameField(m[k], rs[i])
    requires Key(m[k]) in Keys(rs) && m[k] == Gathered(rs, Key(m[k]))
    ensures rs[i].messageIndices <= m[k].messageIndices && m[k].values == ValuesFor(rs, Key(rs[i]))
  {
    assert Key(m[k]) == Key(rs[i]);
    IndicesForContains(rs, i);
  }

  lemma {:induction false} IndicesForContains(rs: seq<Range>, i: nat)
    requires i < |rs|
    ensures rs[i].messageIndices <= IndicesFor(rs, Key(rs[i]))
  {
    if i < |rs| - 1 {
      IndicesForContains(rs[..|rs| - 1], i);
    }
  }

  /** A list without two candidates of the same start and length comes back unchanged. */
  lemma {:induction false} MergeOfDistinctIsIdentity(rs: seq<Range>)
    requires DistinctKeys(rs)
    ensures Merged(rs) == rs
  {
    if rs != [] {
      var init := rs[..|rs| - 1];
      MergeOfDistinctIsIdentity(init);
      assert FindSame(init, rs[|rs| - 1]).None? by {
        forall j | 0 <= j < |init| ensures !SameField(init[j], rs[|rs| - 1]) {
          assert !SameField(rs[j], rs[|rs| - 1]);
        }
      }
      assert init + [rs[|rs| - 1]] == rs;
    }
  }
}
