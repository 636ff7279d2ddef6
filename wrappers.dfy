/** Small helpers shared by the whole model: an optional value and the
    "first element satisfying a predicate" search that Python writes as
    `next((x for x in xs if p(x)), None)`. */
module Wrappers {

  datatype Option<+T> = None | Some(value: T)

  /** The larger of two integers. */
  function Max(a: int, b: int): int { if a < b then b else a }

  /** Index of the first element of `s` satisfying `p`, or None when there is none. */
  function FirstIndex<T>(s: seq<T>, p: T -> bool): (k: Option<nat>)
    ensures k.Some? ==> k.value < |s| && p(s[k.value])
    ensures k.Some? ==> forall j :: 0 <= j < k.value ==> !p(s[j])
    ensures k.None? ==> forall j :: 0 <= j < |s| ==> !p(s[j])
  {
    if s == [] then None
    else if p(s[0]) then Some(0)
    else match FirstIndex(s[1..], p)
      case None => None
      case Some(j) => Some(j + 1)
  }
}
