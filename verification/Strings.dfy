/** Substring search, as the string operations of the source use it. */
module Strings {
  import opened Wrappers

  predicate OccursAt(s: string, part: string, i: int) {
    0 <= i && i + |part| <= |s| && s[i..i + |part|] == part
  }

  ghost predicate Contains(s: string, part: string) {
    exists i :: OccursAt(s, part, i)
  }

  predicate HasPrefix(s: string, part: string) {
    OccursAt(s, part, 0)
  }

  predicate EndsIn(s: string, part: string) {
    OccursAt(s, part, |s| - |part|)
  }

  /** The first position at or after `from` where `part` occurs. */
  function IndexFrom(s: string, part: string, from: nat): (r: Option<nat>)
    requires from <= |s|
    ensures r.None? ==> forall i :: from <= i ==> !OccursAt(s, part, i)
    ensures r.Some? ==> from <= r.value && OccursAt(s, part, r.value)
    ensures r.Some? ==> forall i :: from <= i < r.value ==> !OccursAt(s, part, i)
    decreases |s| - from
  {
    if OccursAt(s, part, from) then Some(from)
    else if from == |s| then None
    else IndexFrom(s, part, from + 1)
  }
}
