/** What several modules need. */
module Common {

  function Min(a: int, b: int): int { if a < b then a else b }

  predicate Distinct(s: seq<int>) { forall i, j :: 0 <= i < j < |s| ==> s[i] != s[j] }
}
