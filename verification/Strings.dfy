/** Finding and splitting at a character, as Python does it on strings. */
module Strings {
  /** The index of the first occurrence of a character, or the length. */
  function Index(s: string, c: char): (i: nat)
    ensures i <= |s| && (i < |s| ==> s[i] == c) && c !in s[..i]
  {
    if s == "" || s[0] == c then 0
    else
      assert forall i | 0 <= i < Index(s[1..], c) :: s[..1 + Index(s[1..], c)][i + 1] == s[1..][i];
      1 + Index(s[1..], c)
  }

  function Split(s: string, c: char): seq<string> {
    var i := Index(s, c);
    if i == |s| then [s] else [s[..i]] + Split(s[i + 1..], c)
  }

  lemma IndexOf(s: string, c: char, i: nat)
    requires i <= |s| && c !in s[..i] && (i < |s| ==> s[i] == c)
    ensures Index(s, c) == i
  {
    var j := Index(s, c);
    assert forall k | 0 <= k < i :: s[..i][k] == s[k] != c;
    assert forall k | 0 <= k < j :: s[..j][k] == s[k] != c;
  }
}
