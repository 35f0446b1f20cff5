/** C strings and their comparison without regard to case. */
module CStrings {

  datatype Option<T> = None | Some(value: T)

  /** A char of a C string: signed, and never NUL. */
  type cchar = c: int | -128 <= c < 128 && c != 0 witness 65
  type CString = seq<cchar>

  /** tolower() in the C locale */
  function ToLower(c: cchar): cchar
  {
    if 65 <= c <= 90 then c + 32 else c
  }

  function Lower(s: CString): (r: CString)
    ensures |r| == |s| && forall i :: 0 <= i < |s| ==> r[i] == ToLower(s[i])
  {
    seq(|s|, i requires 0 <= i < |s| => ToLower(s[i]))
  }

  /** strcasecmp(a, b) == 0 */
  predicate SameCase(a: CString, b: CString) { Lower(a) == Lower(b) }

  lemma LowerIdempotent(s: CString)
    ensures Lower(Lower(s)) == Lower(s)
  {}

  const CAPITALS := "ABCDEFGHIJKLMNOPQRSTUVWXYZ"
  const SMALL := "abcdefghijklmnopqrstuvwxyz"

  /** The 26 letters fold, and nothing else does. */
  lemma FoldsLetters(i: nat, c: cchar)
    requires i < 26
    ensures CAPITALS[i] as int < 128 && ToLower(CAPITALS[i] as int) == SMALL[i] as int
    ensures ToLower(c) != c <==> exists j: nat :: j < 26 && c == CAPITALS[j] as int
  {
    assert forall j: nat :: j < 26 ==> CAPITALS[j] as int == 65 + j && SMALL[j] as int == 97 + j;
    if ToLower(c) != c {
      assert c == CAPITALS[c - 65] as int;
    }
  }
}
