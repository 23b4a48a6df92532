/**
 * The pieces of JavaScript's string semantics the handlers rely on:
 * the `\s` and `\w` character classes, `String.prototype.trim`,
 * ASCII case folding as used by a case-insensitive regular expression,
 * and truthiness of strings.
 *
 * Strings are sequences of Unicode scalar values; `|s|` stands for the
 * JavaScript `length`.
 */
module JsText {

  /** `\s` in a JavaScript regular expression, which is also exactly the set
      of characters `trim` removes: WhiteSpace, LineTerminator and the
      Unicode space separators. */
  predicate IsJsWhitespace(c: char) {
    var n := c as int;
    n == 0x09 || n == 0x0A || n == 0x0B || n == 0x0C || n == 0x0D || n == 0x20
    || n == 0xA0 || n == 0x1680 || (0x2000 <= n <= 0x200A) || n == 0x2028
    || n == 0x2029 || n == 0x202F || n == 0x205F || n == 0x3000 || n == 0xFEFF
  }

  /** `\w`: ASCII letters, digits and underscore. */
  predicate IsWordChar(c: char) {
    ('a' <= c <= 'z') || ('A' <= c <= 'Z') || ('0' <= c <= '9') || c == '_'
  }

  /** Case folding of the `i` flag without the `u` flag, for ASCII patterns:
      only `A`-`Z` fold onto `a`-`z`. */
  function Lower(c: char): (r: char)
    ensures 'A' <= c <= 'Z' ==> r as int == c as int + 32
    ensures !('A' <= c <= 'Z') ==> r == c
  {
    if 'A' <= c <= 'Z' then (c as int + 32) as char else c
  }

  /** `s` begins with `p`, compared case-insensitively. */
  predicate StartsWithCI(s: string, p: string) {
    |p| <= |s| && forall i | 0 <= i < |p| :: Lower(s[i]) == Lower(p[i])
  }

  /** Whether `u + v` starts with `p` is decided inside `u` once `u` is long enough. */
  lemma StartsWithCIAppend(u: string, v: string, p: string)
    requires |p| <= |u|
    ensures StartsWithCI(u + v, p) <==> StartsWithCI(u, p)
  {
    assert forall i | 0 <= i < |p| :: (u + v)[i] == u[i];
  }

  /** Truthiness of a string value: only `""` is falsy. */
  predicate Truthy(s: string) {
    s != []
  }

  /** Length of the maximal run of `\s` characters at the start of `s`. */
  function LeadingWs(s: string): (n: nat)
    ensures n <= |s|
    ensures forall i | 0 <= i < n :: IsJsWhitespace(s[i])
    ensures n < |s| ==> !IsJsWhitespace(s[n])
  {
    if s == [] || !IsJsWhitespace(s[0]) then 0 else 1 + LeadingWs(s[1..])
  }

  /** Length of the maximal run of `\s` characters at the end of `s`. */
  function TrailingWs(s: string): (n: nat)
    ensures n <= |s|
    ensures forall i | |s| - n <= i < |s| :: IsJsWhitespace(s[i])
    ensures n < |s| ==> !IsJsWhitespace(s[|s| - 1 - n])
  {
    if s == [] || !IsJsWhitespace(s[|s| - 1]) then 0 else 1 + TrailingWs(s[..|s| - 1])
  }

  predicate AllWhitespace(s: string) {
    forall i | 0 <= i < |s| :: IsJsWhitespace(s[i])
  }

  /** `String.prototype.trim`. The result is the contiguous piece of `s`
      that starts at the first non-whitespace character and is followed by
      whitespace only; it is empty exactly when `s` is all whitespace, and
      otherwise neither starts nor ends with whitespace. */
  function JsTrim(s: string): (r: string)
    ensures |r| <= |s|
    ensures LeadingWs(s) + |r| <= |s| && r == s[LeadingWs(s)..LeadingWs(s) + |r|]
    ensures AllWhitespace(s[LeadingWs(s) + |r|..])
    ensures r == [] <==> AllWhitespace(s)
    ensures r != [] ==> !IsJsWhitespace(r[0]) && !IsJsWhitespace(r[|r| - 1])
    ensures s != [] && !IsJsWhitespace(s[0]) && !IsJsWhitespace(s[|s| - 1]) ==> r == s
  {
    var a := LeadingWs(s);
    if a == |s| then []
    else
      var b := |s| - TrailingWs(s);
      s[a..b]
  }

  /** Trimming twice is trimming once. */
  lemma TrimIdempotent(s: string)
    ensures JsTrim(JsTrim(s)) == JsTrim(s)
  {
    var t := JsTrim(s);
    if t != [] {
      assert LeadingWs(t) == 0;
      assert TrailingWs(t) == 0;
    }
  }

  /** A string without leading or trailing whitespace is its own trim. */
  lemma TrimOfTrimmed(s: string)
    requires s == [] || (!IsJsWhitespace(s[0]) && !IsJsWhitespace(s[|s| - 1]))
    ensures JsTrim(s) == s
  {
    if s != [] {
      assert LeadingWs(s) == 0;
      assert TrailingWs(s) == 0;
    }
  }

  /** `s.slice(0, end)` for a non-negative `end`, and for a negative one
      (which counts from the end of the string). */
  function JsSliceTo(s: string, end: int): (r: string)
    ensures 0 <= end ==> |r| == if end < |s| then end else |s|
    ensures end < 0 ==> |r| == if |s| + end < 0 then 0 else |s| + end
    ensures r == s[..|r|]
  {
    var e := if end < 0 then |s| + end else end;
    if e <= 0 then [] else if e >= |s| then s else s[..e]
  }
}
