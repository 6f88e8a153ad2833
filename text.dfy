/**
 * The two string operations the core relies on: whitespace trimming of team
 * labels and lower-casing of file extensions.
 */
module Text {

  /**
   * The characters Python's `str.isspace` accepts, which are exactly the
   * ones `str.strip()` removes when called without arguments.
   */
  predicate IsSpace(c: char)
  {
    || '\t' <= c <= '\r'
    || '\U{1C}' <= c <= ' '
    || c == '\U{85}' || c == '\U{A0}' || c == '\U{1680}'
    || '\U{2000}' <= c <= '\U{200A}'
    || c == '\U{2028}' || c == '\U{2029}' || c == '\U{202F}' || c == '\U{205F}' || c == '\U{3000}'
  }

  /**
   * The first index at or after `i` that does not hold whitespace (or |s|):
   * everything skipped is whitespace, and the scan stops at once on a
   * character that is not.
   */
  function TrimStart(s: string, i: nat): (e: nat)
    requires i <= |s|
    ensures i <= e <= |s|
    ensures forall k :: i <= k < e ==> IsSpace(s[k])
    ensures e == |s| || !IsSpace(s[e])
    decreases |s| - i
  {
    if i < |s| && IsSpace(s[i]) then TrimStart(s, i + 1) else i
  }

  /**
   * Scanning back from `j` towards `lo`, the index just past the last
   * character that is not whitespace (or `lo`): everything skipped is
   * whitespace, and the scan stops at once on a character that is not.
   */
  function TrimEnd(s: string, lo: nat, j: nat): (e: nat)
    requires lo <= j <= |s|
    ensures lo <= e <= j
    ensures forall k :: e <= k < j ==> IsSpace(s[k])
    ensures e == lo || !IsSpace(s[e - 1])
  {
    if j > lo && IsSpace(s[j - 1]) then TrimEnd(s, lo, j - 1) else j
  }

  /**
   * Python's `str.strip()`: the result is a slice of `s` with only
   * whitespace cut off either side, it neither starts nor ends with
   * whitespace, and a string that already does neither is kept as it is.
   */
  function Strip(s: string): (r: string)
    ensures exists i, j ::
              && 0 <= i <= j <= |s| && r == s[i..j]
              && (forall k :: 0 <= k < i ==> IsSpace(s[k]))
              && (forall k :: j <= k < |s| ==> IsSpace(s[k]))
    ensures r == [] || (!IsSpace(r[0]) && !IsSpace(r[|r| - 1]))
    ensures (s == [] || (!IsSpace(s[0]) && !IsSpace(s[|s| - 1]))) ==> r == s
    ensures |r| <= |s|
  {
    var i := TrimStart(s, 0);
    var j := TrimEnd(s, i, |s|);
    s[i..j]
  }

  /** Lower-cases one ASCII letter and leaves every other character alone. */
  function LowerChar(c: char): char
  {
    if 'A' <= c <= 'Z' then (c as int + 32) as char else c
  }

  /**
   * ASCII lower-casing: an upper-case letter becomes the lower-case one 32
   * code points up, every other character is kept, and no upper-case letter
   * is left.
   */
  function Lower(s: string): (r: string)
    ensures |r| == |s|
    ensures forall k :: 0 <= k < |s| ==>
              if 'A' <= s[k] <= 'Z' then 'a' <= r[k] <= 'z' && r[k] as int == s[k] as int + 32 else r[k] == s[k]
    ensures forall k :: 0 <= k < |r| ==> !('A' <= r[k] <= 'Z')
  {
    seq(|s|, k requires 0 <= k < |s| => LowerChar(s[k]))
  }
}
