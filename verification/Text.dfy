/** Searching strings for a character. */
module Text {

  /** First index at or after i that holds c, or the length. */
  function Next(s: string, c: char, i: nat): (j: nat)
    requires i <= |s|
    ensures i <= j <= |s|
    ensures j < |s| ==> s[j] == c
    ensures forall k | i <= k < j :: s[k] != c
    decreases |s| - i
  {
    if i == |s| || s[i] == c then i else Next(s, c, i + 1)
  }

  /** No c from i up to j. */
  predicate Without(s: string, c: char, i: nat, j: nat)
    requires j <= |s|
  {
    forall k | i <= k < j :: s[k] != c
  }

  lemma NextAt(s: string, c: char, i: nat, e: nat)
    requires i <= e <= |s| && (e < |s| ==> s[e] == c) && Without(s, c, i, e)
    ensures Next(s, c, i) == e
  {
    var j := Next(s, c, i);
    assert j < |s| ==> s[j] == c;
    assert e < |s| ==> s[e] == c;
  }
}
