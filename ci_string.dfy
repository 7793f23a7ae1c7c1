/** Case-insensitive comparison of strings, as `Anope::string::equals_ci` does it for ASCII text. */
module CiString {

  /** ASCII lower-casing; every other character is left as it is. */
  function FoldCase(ch: char): char {
    if 'A' <= ch <= 'Z' then (ch as int + 32) as char else ch
  }

  /** `a.equals_ci(b)`: same length and the same characters up to case. */
  predicate EqualsCi(a: string, b: string) {
    |a| == |b| && forall i :: 0 <= i < |a| ==> FoldCase(a[i]) == FoldCase(b[i])
  }
}
