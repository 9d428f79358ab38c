/** Small value types shared by the whole model. */
module Basics {

  /** No element occurs twice in `s`. */
  ghost predicate NoDuplicates<T>(s: seq<T>) {
    forall i, j :: 0 <= i < j < |s| ==> s[i] != s[j]
  }

  /** `sub` occurs in `s` starting at position `i`. */
  predicate MatchesAt(s: string, sub: string, i: nat) {
    i + |sub| <= |s| && s[i..i + |sub|] == sub
  }

  /** `std::string::find(sub) != npos`: `sub` occurs somewhere in `s`. */
  ghost predicate OccursIn(sub: string, s: string) {
    exists i: nat :: MatchesAt(s, sub, i)
  }

  /** Search from position `from` onwards; the recursion mirrors a left-to-right scan. */
  function ContainsFrom(s: string, sub: string, from: nat): (r: bool)
    requires from <= |s| + 1
    ensures r <==> exists i: nat :: from <= i && MatchesAt(s, sub, i)
    decreases |s| + 1 - from
  {
    if from + |sub| > |s| then false
    else if MatchesAt(s, sub, from) then true
    else ContainsFrom(s, sub, from + 1)
  }

  function Contains(s: string, sub: string): (r: bool)
    ensures r <==> OccursIn(sub, s)
  {
    ContainsFrom(s, sub, 0)
  }
}
