/** Strings that end at a zero. */
module CStrings {

  /** The bytes before the first NUL. */
  function CString<T(==)>(s: seq<T>, nul: T): (r: seq<T>)
    ensures |r| <= |s| && r == s[..|r|] && nul !in r
    ensures |r| < |s| ==> s[|r|] == nul
  {
    if s == [] || s[0] == nul then [] else [s[0]] + CString(s[1..], nul)
  }

  /** Reading on from position i. */
  lemma CStringFrom<T>(s: seq<T>, nul: T, i: nat)
    requires i <= |s|
    ensures CString(s[i..], nul) == if i == |s| || s[i] == nul then [] else [s[i]] + CString(s[i + 1..], nul)
  {
    if i < |s| {
      assert s[i..][1..] == s[i + 1..];
    }
  }
}
