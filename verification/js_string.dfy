/**
 * JavaScript's `String.prototype.trim`, which the name form applies before
 * testing a name for emptiness. Characters are Unicode scalar values; every
 * character `trim` removes lies in the Basic Multilingual Plane, so reading a
 * UTF-16 string unit by unit gives the same result.
 */
module JsString {

  /**
   * ECMAScript WhiteSpace (tab, vertical tab, form feed, no-break space,
   * byte-order mark and the space separators of category Zs) and
   * LineTerminator (line feed, carriage return, line and paragraph
   * separator). Tab through carriage return are U+0009 to U+000D.
   */
  predicate IsWhiteSpace(ch: char) {
    || ('\t' <= ch <= '\r') || ch == ' ' || ch == '\U{00A0}' || ch == '\U{1680}'
    || ('\U{2000}' <= ch <= '\U{200A}') || ch == '\U{2028}' || ch == '\U{2029}'
    || ch == '\U{202F}' || ch == '\U{205F}' || ch == '\U{3000}' || ch == '\U{FEFF}'
  }

  /** Every character of `s` is white space (the empty string included). */
  ghost predicate Blank(s: string) {
    forall i :: 0 <= i < |s| ==> IsWhiteSpace(s[i])
  }

  /** The first index from `i` on that holds a character other than white space, or `|s|`. */
  function TextStart(s: string, i: nat): (k: nat)
    requires i <= |s|
    ensures i <= k <= |s|
    ensures forall j :: i <= j < k ==> IsWhiteSpace(s[j])
    ensures k == |s| || !IsWhiteSpace(s[k])
    decreases |s| - i
  {
    if i == |s| || !IsWhiteSpace(s[i]) then i else TextStart(s, i + 1)
  }

  /** Moving back from `e` no further than `lo`, the end of the text: every character cut is white space. */
  function TextEnd(s: string, lo: nat, e: nat): (k: nat)
    requires lo <= e <= |s|
    ensures lo <= k <= e
    ensures forall j :: k <= j < e ==> IsWhiteSpace(s[j])
    ensures k == lo || !IsWhiteSpace(s[k - 1])
    decreases e
  {
    if e == lo || !IsWhiteSpace(s[e - 1]) then e else TextEnd(s, lo, e - 1)
  }

  /** Where the trimmed text starts in `s`. */
  function TrimOffset(s: string): (i: nat)
    ensures i <= |s|
  {
    TextStart(s, 0)
  }

  /**
   * `trim`: the characters of `s` from `TrimOffset(s)` on, with only white
   * space cut before and after them; the result neither starts nor ends with
   * white space, and it is empty (falsy) exactly when `s` is blank.
   */
  function Trim(s: string): (r: string)
    ensures r == [] <==> Blank(s)
    ensures TrimOffset(s) + |r| <= |s|
    ensures forall k :: 0 <= k < |r| ==> r[k] == s[TrimOffset(s) + k]
    ensures forall j :: 0 <= j < TrimOffset(s) ==> IsWhiteSpace(s[j])
    ensures forall j :: TrimOffset(s) + |r| <= j < |s| ==> IsWhiteSpace(s[j])
    ensures r == [] || (!IsWhiteSpace(r[0]) && !IsWhiteSpace(r[|r| - 1]))
  {
    var i := TextStart(s, 0);
    var e := TextEnd(s, i, |s|);
    s[i..e]
  }
}
