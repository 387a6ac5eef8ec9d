/**
 * Python's notion of whitespace and `str.strip()` with no argument.
 * Both `str.strip()` and the `\s` class of a `str` regular expression
 * accept exactly the characters for which `str.isspace()` holds.
 */
module PyText {

  /** `c.isspace()`: the ASCII controls 9..13 and 28..31, the space, and the Unicode spaces. */
  predicate IsSpace(c: char)
    ensures c in " \t\n\r\U{0B}\U{0C}" ==> IsSpace(c)
    ensures IsSpace(c) ==> c != '`' && c != '[' && c != ']'
    ensures IsSpace(c) ==> !('0' <= c <= '9' || 'A' <= c <= 'Z' || 'a' <= c <= 'z')
  {
    ('\t' <= c <= '\r') || ('\U{1C}' <= c <= '\U{1F}') || c == ' '
    || c == '\U{85}' || c == '\U{A0}' || c == '\U{1680}'
    || ('\U{2000}' <= c <= '\U{200A}') || c == '\U{2028}' || c == '\U{2029}'
    || c == '\U{202F}' || c == '\U{205F}' || c == '\U{3000}'
  }

  /** Every character of s[i..j] is whitespace (and the range lies inside s). */
  predicate AllSpace(s: string, i: int, j: int) {
    0 <= i <= j <= |s| && forall k :: i <= k < j ==> IsSpace(s[k])
  }

  /** Neither the first nor the last character of s is whitespace. */
  predicate IsStripped(s: string) {
    s == [] || (!IsSpace(s[0]) && !IsSpace(s[|s| - 1]))
  }

  /** The end of the whitespace run that starts at i (greedy `\s*` from i). */
  function SkipSpace(s: string, i: nat): (j: nat)
    requires i <= |s|
    ensures i <= j <= |s| && AllSpace(s, i, j)
    ensures j == |s| || !IsSpace(s[j])
    decreases |s| - i
  {
    if i < |s| && IsSpace(s[i]) then SkipSpace(s, i + 1) else i
  }

  /** The start of the whitespace run that ends at q, not going below lo. */
  function BackOverSpace(s: string, lo: nat, q: nat): (b: nat)
    requires lo <= q <= |s|
    ensures lo <= b <= q && AllSpace(s, b, q)
    ensures b == lo || !IsSpace(s[b - 1])
    decreases q
  {
    if lo < q && IsSpace(s[q - 1]) then BackOverSpace(s, lo, q - 1) else q
  }

  /**
   * `s.strip()`: the infix of s that has no whitespace at either end and
   * leaves only whitespace outside it (StripUnique: there is only one).
   */
  function Strip(s: string): (r: string)
    ensures IsStripped(r)
    ensures exists i, j :: 0 <= i <= j <= |s| && r == s[i..j] && AllSpace(s, 0, i) && AllSpace(s, j, |s|)
  {
    var i := SkipSpace(s, 0);
    var j := BackOverSpace(s, i, |s|);
    assert AllSpace(s, 0, i) && AllSpace(s, j, |s|);
    s[i..j]
  }

  /**
   * Strip is THE stripped infix: any infix of s that has no surrounding
   * whitespace and leaves only whitespace outside it is Strip(s).
   */
  lemma StripUnique(s: string, i: int, j: int)
    requires 0 <= i <= j <= |s|
    requires IsStripped(s[i..j]) && AllSpace(s, 0, i) && AllSpace(s, j, |s|)
    ensures Strip(s) == s[i..j]
  {
  }

  /** A string without surrounding whitespace is its own strip. */
  lemma StripOfStripped(s: string)
    requires IsStripped(s)
    ensures Strip(s) == s
  {
    assert s[0..|s|] == s;
    StripUnique(s, 0, |s|);
  }

  /** Stripping twice strips no more than stripping once. */
  lemma StripIdempotent(s: string)
    ensures Strip(Strip(s)) == Strip(s)
  {
    StripOfStripped(Strip(s));
  }
}
