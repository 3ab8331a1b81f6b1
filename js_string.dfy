/** JavaScript's `String.prototype.trim` on strings of characters. */
module JsString {

  /** The characters `trim` removes: white space and line terminators. */
  predicate IsJsSpace(c: char) {
    || c == '\t' || c == '\n' || c == '\U{B}' || c == '\U{C}' || c == '\r' || c == ' '
    || c == '\U{A0}' || c == '\U{1680}' || ('\U{2000}' <= c <= '\U{200A}')
    || c == '\U{2028}' || c == '\U{2029}' || c == '\U{202F}' || c == '\U{205F}'
    || c == '\U{3000}' || c == '\U{FEFF}'
  }

  /** The text is all white space (possibly empty). */
  predicate Blank(s: string) {
    forall i :: 0 <= i < |s| ==> IsJsSpace(s[i])
  }

  /** The first position at or after `i` that does not hold white space (or the end). */
  function FirstKept(s: string, i: nat): (k: nat)
    requires i <= |s|
    ensures i <= k <= |s|
    ensures forall j :: i <= j < k ==> IsJsSpace(s[j])
    ensures k < |s| ==> !IsJsSpace(s[k])
    decreases |s| - i
  {
    if i < |s| && IsJsSpace(s[i]) then FirstKept(s, i + 1) else i
  }

  /** The end of the text before `j` once its trailing white space down to `lo` is dropped. */
  function LastKeptEnd(s: string, lo: nat, j: nat): (k: nat)
    requires lo <= j <= |s|
    ensures lo <= k <= j
    ensures forall m :: k <= m < j ==> IsJsSpace(s[m])
    ensures k > lo ==> !IsJsSpace(s[k - 1])
  {
    if j > lo && IsJsSpace(s[j - 1]) then LastKeptEnd(s, lo, j - 1) else j
  }

  /**
   * `s.trim()`: one slice of the text with only white space cut on either
   * side, starting and ending with a character that is not white space; it is
   * empty exactly when the text is blank.
   */
  function Trim(s: string): (r: string)
    ensures r == [] <==> Blank(s)
    ensures r != [] ==> !IsJsSpace(r[0]) && !IsJsSpace(r[|r| - 1])
    ensures var lo := FirstKept(s, 0);
      && lo + |r| <= |s|
      && r == s[lo..lo + |r|]
      && (forall i :: 0 <= i < lo ==> IsJsSpace(s[i]))
      && (forall i :: lo + |r| <= i < |s| ==> IsJsSpace(s[i]))
  {
    var lo := FirstKept(s, 0);
    var hi := LastKeptEnd(s, lo, |s|);
    assert lo < |s| ==> hi > lo;
    s[lo..hi]
  }
}
