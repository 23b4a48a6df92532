/**
 * The text sanitizer of lib/sanitize.ts: entity decoding, removal of
 * script and style blocks, removal of the remaining tags, removal of
 * dangerous substrings, whitespace normalisation and truncation, plus the
 * stricter name filter. Every regular-expression `replace` with the `g` flag
 * is modelled as a left-to-right scan that replaces each leftmost match and
 * resumes after it, exactly once (no second pass).
 */
module Sanitize {
  import opened Wrappers
  import opened JsText
  import Types

  // ---------------------------------------------------------------------
  // Step 1: HTML entities
  // ---------------------------------------------------------------------

  /** `HTML_ENTITIES`, in declaration order (which is `Object.entries` order). */
  const HtmlEntities: seq<(string, char)> := [
    ("&lt;", '<'), ("&gt;", '>'), ("&amp;", '&'), ("&quot;", '"'),
    ("&#x27;", '\''), ("&#x2F;", '/'), ("&#39;", '\''), ("&#47;", '/')
  ]

  /** Every entity in the table starts with `&`. */
  lemma EntitiesStartWithAmpersand()
    ensures forall k | 0 <= k < |HtmlEntities| :: HtmlEntities[k].0 != [] && HtmlEntities[k].0[0] == '&'
  {
  }

  /** `s.replace(new RegExp(pat, "gi"), rep)` for a pattern with no
      metacharacters: each leftmost case-insensitive occurrence becomes `rep`. */
  function ReplaceAllCI(s: string, pat: string, rep: char): (r: string)
    requires pat != []
    ensures |r| <= |s|
    decreases |s|
  {
    if s == [] then []
    else if StartsWithCI(s, pat) then [rep] + ReplaceAllCI(s[|pat|..], pat, rep)
    else [s[0]] + ReplaceAllCI(s[1..], pat, rep)
  }

  /** The text after the first `n` entries of the table have been applied,
      one pass each, in table order. */
  function DecodeFirst(s: string, n: nat): (r: string)
    requires n <= |HtmlEntities|
    ensures |r| <= |s|
  {
    if n == 0 then s
    else
      EntitiesStartWithAmpersand();
      var entry := HtmlEntities[n - 1];
      ReplaceAllCI(DecodeFirst(s, n - 1), entry.0, entry.1)
  }

  /** What `decodeHTMLEntities` computes; it never lengthens the text. */
  function DecodeEntities(s: string): (r: string)
    ensures |r| <= |s|
  {
    DecodeFirst(s, |HtmlEntities|)
  }

  /** `decodeHTMLEntities`: one replacement pass per table entry, in order. */
  method DecodeHtmlEntities(text: string) returns (decoded: string)
    ensures decoded == DecodeEntities(text)
  {
    EntitiesStartWithAmpersand();
    decoded := text;
    for i := 0 to |HtmlEntities|
      invariant decoded == DecodeFirst(text, i)
    {
      var entry := HtmlEntities[i];
      decoded := ReplaceAllCI(decoded, entry.0, entry.1);
    }
  }

  /** A pass whose pattern starts with `&` leaves `&`-free text alone. */
  lemma {:induction false} ReplaceWithoutAmpersand(s: string, pat: string, rep: char)
    requires pat != [] && pat[0] == '&' && '&' !in s
    ensures ReplaceAllCI(s, pat, rep) == s
    decreases |s|
  {
    if s != [] {
      assert Lower(s[0]) != Lower(pat[0]);
      assert !StartsWithCI(s, pat);
      ReplaceWithoutAmpersand(s[1..], pat, rep);
      assert s == [s[0]] + s[1..];
    }
  }

  /** Entity decoding only ever touches text that contains an `&`. */
  lemma {:induction false} DecodeWithoutAmpersand(s: string, n: nat)
    requires n <= |HtmlEntities| && '&' !in s
    ensures DecodeFirst(s, n) == s
  {
    if n > 0 {
      EntitiesStartWithAmpersand();
      DecodeWithoutAmpersand(s, n - 1);
      ReplaceWithoutAmpersand(s, HtmlEntities[n - 1].0, HtmlEntities[n - 1].1);
    }
  }

  // ---------------------------------------------------------------------
  // Step 2: script/style blocks and tags
  // ---------------------------------------------------------------------

  /** The first position `k >= from` at which `pat` occurs case-insensitively. */
  function FirstMatchFrom(s: string, pat: string, from: nat): (r: Option<nat>)
    requires pat != []
    ensures r.Some? ==> from <= r.value && r.value + |pat| <= |s| && StartsWithCI(s[r.value..], pat)
    ensures r.Some? ==> forall k | from <= k < r.value :: !StartsWithCI(s[k..], pat)
    ensures r.None? ==> forall k | from <= k <= |s| :: !StartsWithCI(s[k..], pat)
    decreases |s| - from
  {
    if from + |pat| > |s| then None
    else if StartsWithCI(s[from..], pat) then Some(from)
    else FirstMatchFrom(s, pat, from + 1)
  }

  /** The opening `<tag` and the closing `</tag>` of a block. */
  function Opener(tag: string): (o: string)
    ensures |o| == |tag| + 1 && o[0] == '<'
  {
    "<" + tag
  }

  function Closer(tag: string): (c: string)
    ensures |c| == |tag| + 3 && c[0] == '<'
  {
    "</" + tag + ">"
  }

  /** Length of the `<tag\b ... </tag>` block at the start of `s`, if one
      starts there: the opening name must be followed by a non-word character
      (the `\b`), and the block ends at the first closing tag after it. */
  function BlockLength(s: string, tag: string): (r: Option<nat>)
    ensures r.Some? ==> 0 < r.value <= |s|
  {
    var open, close := Opener(tag), Closer(tag);
    if StartsWithCI(s, open) && (|s| == |open| || !IsWordChar(s[|open|])) then
      match FirstMatchFrom(s, close, |open|)
      case Some(j) => Some(j + |close|)
      case None => None
    else None
  }

  /** `s.replace(/<tag\b[^<]*(?:(?!<\/tag>)<[^<]*)*<\/tag>/gi, "")`. */
  function RemoveBlocks(s: string, tag: string): (r: string)
    ensures |r| <= |s|
    decreases |s|
  {
    if s == [] then []
    else match BlockLength(s, tag)
      case Some(n) => RemoveBlocks(s[n..], tag)
      case None => [s[0]] + RemoveBlocks(s[1..], tag)
  }

  /** Index of the first `c` in `s`. */
  function FindChar(s: string, c: char): (k: nat)
    requires c in s
    ensures k < |s| && s[k] == c && c !in s[..k]
  {
    if s[0] == c then 0 else 1 + FindChar(s[1..], c)
  }

  /** No `<` is followed, anywhere later, by a `>`. */
  predicate NoTagPair(s: string) {
    forall i, j | 0 <= i < j < |s| :: !(s[i] == '<' && s[j] == '>')
  }

  lemma NoTagPairCons(c: char, t: string)
    ensures NoTagPair([c] + t) <==> (c == '<' ==> '>' !in t) && NoTagPair(t)
  {
    var s := [c] + t;
    if c == '<' && '>' in t {
      var j :| 0 <= j < |t| && t[j] == '>';
      assert s[0] == '<' && s[j + 1] == '>';
    }
    if NoTagPair(s) {
      forall i, j | 0 <= i < j < |t| ensures !(t[i] == '<' && t[j] == '>') {
        assert s[i + 1] == t[i] && s[j + 1] == t[j];
      }
    }
    if (c == '<' ==> '>' !in t) && NoTagPair(t) {
      forall i, j | 0 <= i < j < |s| ensures !(s[i] == '<' && s[j] == '>') {
        if i == 0 {
          assert s[j] == t[j - 1];
        } else {
          assert s[i] == t[i - 1] && s[j] == t[j - 1];
        }
      }
    }
  }

  lemma NoTagPairSlice(s: string, a: nat, b: nat)
    requires a <= b <= |s|
    ensures NoTagPair(s) ==> NoTagPair(s[a..b])
  {
    var t := s[a..b];
    if NoTagPair(s) {
      forall i, j | 0 <= i < j < |t| ensures !(t[i] == '<' && t[j] == '>') {
        assert t[i] == s[a + i] && t[j] == s[a + j];
      }
    }
  }

  /** `s.replace(/<[^>]*>/g, "")`: a `<` and everything up to the first `>`
      after it go; a `<` with no `>` anywhere after it stays. */
  function StripTags(s: string): (r: string)
    ensures |r| <= |s|
    ensures forall c | c in r :: c in s
    ensures NoTagPair(r)
    decreases |s|
  {
    if s == [] then []
    else if s[0] == '<' && '>' in s then
      StripTags(s[FindChar(s, '>') + 1..])
    else
      var t := StripTags(s[1..]);
      NoTagPairCons(s[0], t);
      [s[0]] + t
  }

  /** `stripHTMLTags`. */
  function StripHtmlTags(s: string): (r: string)
    ensures |r| <= |s|
    ensures NoTagPair(r)
  {
    StripTags(RemoveBlocks(RemoveBlocks(s, "script"), "style"))
  }

  /** `FirstMatchFrom` finds the first occurrence it is pointed at. */
  lemma {:induction false} FirstMatchFromFinds(s: string, pat: string, from: nat, p: nat)
    requires pat != [] && from <= p && p + |pat| <= |s| && StartsWithCI(s[p..], pat)
    requires forall k | from <= k < p :: !StartsWithCI(s[k..], pat)
    ensures FirstMatchFrom(s, pat, from) == Some(p)
    decreases p - from
  {
    if from < p {
      FirstMatchFromFinds(s, pat, from + 1, p);
    }
  }

  /** `b` is exactly one block the pattern matches: the opening tag, a
      non-word character, a body in which no closing tag starts, and the
      first closing tag. Letter case does not matter. */
  predicate IsBlock(b: string, tag: string) {
    var open, close := Opener(tag), Closer(tag);
    |open| + |close| <= |b|
    && StartsWithCI(b, open)
    && !IsWordChar(b[|open|])
    && StartsWithCI(b[|b| - |close|..], close)
    && forall k | |open| <= k < |b| - |close| :: !StartsWithCI(b[k..], close)
  }

  /** Whether `pat` occurs at `k` is decided inside `b` when it fits there. */
  lemma StartsAtAppend(b: string, y: string, k: nat, pat: string)
    requires k + |pat| <= |b|
    ensures StartsWithCI((b + y)[k..], pat) <==> StartsWithCI(b[k..], pat)
  {
    assert (b + y)[k..] == b[k..] + y;
    StartsWithCIAppend(b[k..], y, pat);
  }

  /** The opening tag at the head of a block is still there, still followed
      by a non-word character, whatever follows the block. */
  lemma OpenerAppend(b: string, y: string, tag: string)
    requires IsBlock(b, tag)
    ensures StartsWithCI(b + y, Opener(tag)) && !IsWordChar((b + y)[|Opener(tag)|])
  {
    StartsAtAppend(b, y, 0, Opener(tag));
    assert b[0..] == b && (b + y)[0..] == b + y;
  }

  /** The closing tag that ends a block is the first one after its opener,
      whatever follows the block. */
  lemma CloserAppend(b: string, y: string, tag: string)
    requires IsBlock(b, tag)
    ensures FirstMatchFrom(b + y, Closer(tag), |Opener(tag)|) == Some(|b| - |Closer(tag)|)
  {
    var close := Closer(tag);
    var p := |b| - |close|;
    StartsAtAppend(b, y, p, close);
    forall k | |Opener(tag)| <= k < p ensures !StartsWithCI((b + y)[k..], close) {
      StartsAtAppend(b, y, k, close);
    }
    FirstMatchFromFinds(b + y, close, |Opener(tag)|, p);
  }

  /** A block at the head of the text is recognised, whatever follows it. */
  lemma BlockAtHead(b: string, y: string, tag: string)
    requires IsBlock(b, tag)
    ensures BlockLength(b + y, tag) == Some(|b|)
  {
    OpenerAppend(b, y, tag);
    CloserAppend(b, y, tag);
  }

  /** A character other than `<` is kept, and the scan moves past it. */
  lemma RemoveBlocksSkip(c: char, rest: string, tag: string)
    requires c != '<'
    ensures RemoveBlocks([c] + rest, tag) == [c] + RemoveBlocks(rest, tag)
  {
    var s := [c] + rest;
    assert Lower(s[0]) != Lower(Opener(tag)[0]);
    assert BlockLength(s, tag) == None;
    assert s[1..] == rest;
  }

  /** A block at the head of the text is cut out and the scan resumes after it. */
  lemma RemoveBlocksAtHead(b: string, y: string, tag: string)
    requires IsBlock(b, tag)
    ensures RemoveBlocks(b + y, tag) == RemoveBlocks(y, tag)
  {
    BlockAtHead(b, y, tag);
    assert (b + y)[|b|..] == y;
  }

  /** A block that follows `<`-free text is cut out together with its body,
      up to its first closing tag; the text before it is kept and the scan
      resumes right after it. */
  lemma {:induction false} BlockRemoved(x: string, b: string, y: string, tag: string)
    requires '<' !in x && IsBlock(b, tag)
    ensures RemoveBlocks(x + b + y, tag) == x + RemoveBlocks(y, tag)
    decreases |x|
  {
    if x == [] {
      RemoveBlocksAtHead(b, y, tag);
      assert x + b == b;
      assert x + RemoveBlocks(y, tag) == RemoveBlocks(y, tag);
    } else {
      var rest := x[1..] + b + y;
      ConsSplit(x, b, y);
      RemoveBlocksSkip(x[0], rest, tag);
      BlockRemoved(x[1..], b, y, tag);
      ConsSplit(x, RemoveBlocks(y, tag), []);
    }
  }

  lemma ConsSplit(x: string, u: string, v: string)
    requires x != []
    ensures x + u + v == [x[0]] + (x[1..] + u + v)
    ensures x + u == [x[0]] + (x[1..] + u)
  {
    assert x == [x[0]] + x[1..];
  }

  // ---------------------------------------------------------------------
  // Step 3: dangerous patterns
  // ---------------------------------------------------------------------

  /** The five patterns of `removeDangerousPatterns`: `keyword\s*terminator`
      (case-insensitive) and the event-handler pattern `\bon\w+\s*=`. */
  datatype Pattern = Scheme(keyword: string, terminator: char) | EventHandler

  /** Length of the maximal run of `\w` characters at the start of `s`. */
  function LeadingWordChars(s: string): (n: nat)
    ensures n <= |s|
  {
    if s == [] || !IsWordChar(s[0]) then 0 else 1 + LeadingWordChars(s[1..])
  }

  /** Length of the match of `p` at the start of `s`, if any. The greedy
      `\s*`/`\w+` runs can only succeed at their maximal length, since the
      character that follows must be the terminator. `afterWord` says whether
      the character before `s` in the scanned string is a word character
      (for `\b`). */
  function MatchLength(s: string, p: Pattern, afterWord: bool): (r: Option<nat>)
    ensures r.Some? ==> 0 < r.value <= |s|
  {
    match p
    case Scheme(keyword, terminator) =>
      if StartsWithCI(s, keyword) then
        var k := |keyword| + LeadingWs(s[|keyword|..]);
        if k < |s| && s[k] == terminator then Some(k + 1) else None
      else None
    case EventHandler =>
      if !afterWord && StartsWithCI(s, "on") then
        var w := LeadingWordChars(s[2..]);
        if w == 0 then None
        else
          var k := 2 + w + LeadingWs(s[2 + w..]);
          if k < |s| && s[k] == '=' then Some(k + 1) else None
      else None
  }

  /** `s.replace(regex, "")` for one dangerous pattern, scanning left to right. */
  function RemoveAll(s: string, p: Pattern, afterWord: bool): (r: string)
    ensures |r| <= |s|
    ensures forall c | c in r :: c in s
    ensures NoTagPair(s) ==> NoTagPair(r)
    decreases |s|
  {
    if s == [] then []
    else match MatchLength(s, p, afterWord)
      case Some(n) =>
        var r := RemoveAll(s[n..], p, IsWordChar(s[n - 1]));
        NoTagPairSlice(s, n, |s|);
        r
      case None =>
        var t := RemoveAll(s[1..], p, IsWordChar(s[0]));
        NoTagPairCons(s[0], t);
        assert s == [s[0]] + s[1..];
        NoTagPairCons(s[0], s[1..]);
        [s[0]] + t
  }

  /** `removeDangerousPatterns`. */
  function RemoveDangerousPatterns(s: string): (r: string)
    ensures |r| <= |s|
    ensures NoTagPair(s) ==> NoTagPair(r)
  {
    var a := RemoveAll(s, Scheme("javascript", ':'), false);
    var b := RemoveAll(a, Scheme("data", ':'), false);
    var c := RemoveAll(b, Scheme("vbscript", ':'), false);
    var d := RemoveAll(c, EventHandler, false);
    RemoveAll(d, Scheme("expression", '('), false)
  }

  // ---------------------------------------------------------------------
  // Step 4: whitespace
  // ---------------------------------------------------------------------

  /** The only whitespace character in `s` is the plain space. */
  predicate OnlySpaceWhitespace(s: string) {
    forall i | 0 <= i < |s| :: IsJsWhitespace(s[i]) ==> s[i] == ' '
  }

  predicate NoAdjacentSpaces(s: string) {
    forall i | 0 <= i < |s| - 1 :: !(s[i] == ' ' && s[i + 1] == ' ')
  }

  /** `s.replace(/\s+/g, " ")`. */
  function CollapseWs(s: string): (r: string)
    ensures |r| <= |s|
    ensures OnlySpaceWhitespace(r) && NoAdjacentSpaces(r)
    ensures s != [] ==> r != [] && r[0] == (if IsJsWhitespace(s[0]) then ' ' else s[0])
    ensures forall c | c in r :: c == ' ' || c in s
    ensures NoTagPair(s) ==> NoTagPair(r)
    decreases |s|
  {
    if s == [] then []
    else if IsJsWhitespace(s[0]) then
      var rest := s[LeadingWs(s)..];
      var t := CollapseWs(rest);
      NoTagPairCons(' ', t);
      NoTagPairSlice(s, LeadingWs(s), |s|);
      assert t != [] ==> t[0] != ' ';
      [' '] + t
    else
      var t := CollapseWs(s[1..]);
      NoTagPairCons(s[0], t);
      assert s == [s[0]] + s[1..];
      NoTagPairCons(s[0], s[1..]);
      [s[0]] + t
  }

  /** Whitespace that is only spaces, never two in a row, survives slicing. */
  lemma SpacesSlice(s: string, a: nat, b: nat)
    requires a <= b <= |s|
    ensures OnlySpaceWhitespace(s) && NoAdjacentSpaces(s) ==>
      OnlySpaceWhitespace(s[a..b]) && NoAdjacentSpaces(s[a..b])
  {
    var t := s[a..b];
    if NoAdjacentSpaces(s) {
      forall i | 0 <= i < |t| - 1 ensures !(t[i] == ' ' && t[i + 1] == ' ') {
        assert t[i] == s[a + i] && t[i + 1] == s[a + i + 1];
      }
    }
  }

  /** Trimming text whose whitespace is single spaces leaves single inner
      spaces, and no tag pair appears. */
  lemma TrimOfSpaced(c: string)
    requires OnlySpaceWhitespace(c) && NoAdjacentSpaces(c)
    ensures var r := JsTrim(c);
      OnlySpaceWhitespace(r) && NoAdjacentSpaces(r)
      && (r != [] ==> r[0] != ' ' && r[|r| - 1] != ' ')
      && (NoTagPair(c) ==> NoTagPair(r))
  {
    var r := JsTrim(c);
    var a := LeadingWs(c);
    SpacesSlice(c, a, a + |r|);
    NoTagPairSlice(c, a, a + |r|);
    assert IsJsWhitespace(' ');
  }

  /** `normalizeWhitespace`: collapse, then trim. */
  function NormalizeWhitespace(s: string): (r: string)
    ensures |r| <= |s|
    ensures OnlySpaceWhitespace(r) && NoAdjacentSpaces(r)
    ensures r != [] ==> r[0] != ' ' && r[|r| - 1] != ' '
    ensures NoTagPair(s) ==> NoTagPair(r)
  {
    var c := CollapseWs(s);
    TrimOfSpaced(c);
    JsTrim(c)
  }

  // ---------------------------------------------------------------------
  // The two entry points
  // ---------------------------------------------------------------------

  /** The final cap: `s.slice(0, maxLength)` when `s` is longer than
      `maxLength`. It keeps a prefix of `s`, so every property the earlier
      steps established still holds. */
  function Truncate(s: string, maxLength: int): (r: string)
    ensures |r| <= |s| && r == s[..|r|]
    ensures 0 <= maxLength ==> |r| <= maxLength
    ensures |s| <= maxLength ==> r == s
    ensures NoTagPair(s) ==> NoTagPair(r)
    ensures OnlySpaceWhitespace(s) && NoAdjacentSpaces(s) ==> OnlySpaceWhitespace(r) && NoAdjacentSpaces(r)
    ensures s != [] && s[0] != ' ' ==> r == [] || r[0] != ' '
  {
    if |s| > maxLength then
      var r := JsSliceTo(s, maxLength);
      NoTagPairSlice(s, 0, |r|);
      SpacesSlice(s, 0, |r|);
      r
    else s
  }

  /** `sanitizeUserInput(input, maxLength = 500)`; `None` stands for a value
      that is not a string. The result fits `maxLength` (when that is not negative),
      holds no `<` followed later by `>`, has the plain space as its only
      whitespace, never two spaces in a row, and does not start with one;
      truncation may leave one trailing space. */
  function SanitizeUserInput(input: Option<string>, maxLength: int := 500): (r: string)
    ensures input == None || input == Some("") ==> r == ""
    ensures 0 <= maxLength ==> |r| <= maxLength
    ensures NoTagPair(r)
    ensures OnlySpaceWhitespace(r) && NoAdjacentSpaces(r)
    ensures r != [] ==> r[0] != ' '
  {
    if input.None? || !Truthy(input.value) then ""
    else Truncate(NormalizeWhitespace(RemoveDangerousPatterns(StripHtmlTags(DecodeEntities(input.value)))), maxLength)
  }

  /** A character the name filter keeps: a letter or number (the Unicode
      classes `\p{L}`/`\p{N}`, given as `letterOrNumber`), whitespace,
      `-`, `'` or `.`. */
  predicate NameChar(c: char, letterOrNumber: char -> bool) {
    letterOrNumber(c) || IsJsWhitespace(c) || c == '-' || c == '\'' || c == '.'
  }

  /** `s.replace(/[^\p{L}\p{N}\s\-'.]/gu, "")`: every name character of `s`
      is kept and every other character is deleted, so text made of name
      characters is unchanged. `KeepNameCharsCounts` and
      `KeepNameCharsInOrder` add that each is kept as often as it occurs and
      in its order. */
  function KeepNameChars(s: string, letterOrNumber: char -> bool): (r: string)
    ensures |r| <= |s|
    ensures forall i | 0 <= i < |r| :: NameChar(r[i], letterOrNumber)
    ensures forall i | 0 <= i < |s| && NameChar(s[i], letterOrNumber) :: s[i] in r
    ensures (forall i | 0 <= i < |s| :: NameChar(s[i], letterOrNumber)) ==> r == s
    ensures OnlySpaceWhitespace(s) ==> OnlySpaceWhitespace(r)
  {
    if s == [] then []
    else if NameChar(s[0], letterOrNumber) then [s[0]] + KeepNameChars(s[1..], letterOrNumber)
    else KeepNameChars(s[1..], letterOrNumber)
  }

  /** The filter keeps each name character exactly as often as it occurs,
      and no other character at all. */
  lemma {:induction false} KeepNameCharsCounts(s: string, letterOrNumber: char -> bool)
    ensures var r := KeepNameChars(s, letterOrNumber);
      forall c :: multiset(r)[c] == if NameChar(c, letterOrNumber) then multiset(s)[c] else 0
    decreases |s|
  {
    if s != [] {
      KeepNameCharsCounts(s[1..], letterOrNumber);
      assert s == [s[0]] + s[1..];
    }
  }

  /** The filter keeps the characters it keeps in their order. */
  lemma {:induction false} KeepNameCharsInOrder(s: string, letterOrNumber: char -> bool)
    ensures Types.IsSubsequence(KeepNameChars(s, letterOrNumber), s)
    decreases |s|
  {
    if s != [] {
      KeepNameCharsInOrder(s[1..], letterOrNumber);
      var rest := KeepNameChars(s[1..], letterOrNumber);
      if NameChar(s[0], letterOrNumber) {
        var r := [s[0]] + rest;
        assert r[0] == s[0] && r[1..] == rest;
      }
    }
  }

  /** `trim` deletes whitespace only: every other character of `t` is still
      in the result. */
  lemma TrimKeepsNonWhitespace(t: string)
    ensures forall i | 0 <= i < |t| && !IsJsWhitespace(t[i]) :: t[i] in JsTrim(t)
  {
    var r := JsTrim(t);
    var a := LeadingWs(t);
    forall i | 0 <= i < |t| && !IsJsWhitespace(t[i])
      ensures t[i] in r
    {
      assert a <= i;
      assert r[i - a] == t[i];
    }
  }

  /** Trimming keeps a string's characters, so it keeps any property of them. */
  lemma TrimKeepsNameChars(s: string, letterOrNumber: char -> bool)
    requires forall i | 0 <= i < |s| :: NameChar(s[i], letterOrNumber)
    ensures forall i | 0 <= i < |JsTrim(s)| :: NameChar(JsTrim(s)[i], letterOrNumber)
    ensures OnlySpaceWhitespace(s) ==> OnlySpaceWhitespace(JsTrim(s))
  {
    var r := JsTrim(s);
    var a := LeadingWs(s);
    forall i | 0 <= i < |r| ensures r[i] == s[a + i] {
    }
  }

  /** The second half of `sanitizeName`: the character filter, then `trim`.
      Only name characters remain, every name character of `s` that is not
      whitespace survives, no whitespace is left at either end, and text
      whose only whitespace is the plain space keeps that property. A name
      already made of name characters and not padded is unchanged. */
  function NameFilter(s: string, letterOrNumber: char -> bool): (r: string)
    ensures |r| <= |s|
    ensures forall i | 0 <= i < |r| :: NameChar(r[i], letterOrNumber)
    ensures forall i | 0 <= i < |s| && NameChar(s[i], letterOrNumber) && !IsJsWhitespace(s[i]) :: s[i] in r
    ensures OnlySpaceWhitespace(s) ==> OnlySpaceWhitespace(r)
    ensures r != [] ==> !IsJsWhitespace(r[0]) && !IsJsWhitespace(r[|r| - 1])
    ensures ((forall i | 0 <= i < |s| :: NameChar(s[i], letterOrNumber))
             && (s == [] || (!IsJsWhitespace(s[0]) && !IsJsWhitespace(s[|s| - 1])))) ==> r == s
  {
    var kept := KeepNameChars(s, letterOrNumber);
    TrimKeepsNameChars(kept, letterOrNumber);
    TrimKeepsNonWhitespace(kept);
    JsTrim(kept)
  }

  /** `sanitizeName(input, maxLength = 100)`. It still fits `maxLength`,
      because the filter and the trim only delete characters from the capped
      text. */
  function SanitizeName(input: Option<string>, letterOrNumber: char -> bool, maxLength: int := 100): (r: string)
    ensures input == None || input == Some("") ==> r == ""
    ensures 0 <= maxLength ==> |r| <= maxLength
  {
    if input.None? || !Truthy(input.value) then ""
    else NameFilter(SanitizeUserInput(input, maxLength), letterOrNumber)
  }

  /** Called without a limit, `sanitizeUserInput` keeps at most 500
      characters and `sanitizeName` at most 100. */
  lemma DefaultLimits(input: Option<string>, letterOrNumber: char -> bool)
    ensures |SanitizeUserInput(input)| <= 500
    ensures |SanitizeName(input, letterOrNumber)| <= 100
  {
  }

  /** What `sanitizeName` leaves: only name characters, the plain space as
      the only whitespace, and no whitespace at either end. */
  lemma SanitizeNameShape(input: Option<string>, maxLength: int, letterOrNumber: char -> bool)
    ensures var r := SanitizeName(input, letterOrNumber, maxLength);
      && (forall i | 0 <= i < |r| :: NameChar(r[i], letterOrNumber))
      && OnlySpaceWhitespace(r)
      && (r != [] ==> !IsJsWhitespace(r[0]) && !IsJsWhitespace(r[|r| - 1]))
  {
    var r := SanitizeName(input, letterOrNumber, maxLength);
    if input.Some? && Truthy(input.value) {
      var g := SanitizeUserInput(input, maxLength);
      assert OnlySpaceWhitespace(g);
      assert r == NameFilter(g, letterOrNumber);
    } else {
      assert r == [];
    }
  }

  // ---------------------------------------------------------------------
  // Text the sanitizer has nothing to do on
  // ---------------------------------------------------------------------

  /** Block removal leaves `<`-free text alone. */
  lemma {:induction false} RemoveBlocksWithoutLt(s: string, tag: string)
    requires '<' !in s
    ensures RemoveBlocks(s, tag) == s
    decreases |s|
  {
    if s != [] {
      assert s == [s[0]] + s[1..];
      RemoveBlocksSkip(s[0], s[1..], tag);
      RemoveBlocksWithoutLt(s[1..], tag);
    }
  }

  /** Tag stripping leaves `>`-free text alone. */
  lemma {:induction false} StripTagsWithoutGt(s: string)
    requires '>' !in s
    ensures StripTags(s) == s
    decreases |s|
  {
    if s != [] {
      StripTagsWithoutGt(s[1..]);
      assert s == [s[0]] + s[1..];
    }
  }

  /** The character every match of the pattern ends with. */
  function Terminator(p: Pattern): char {
    match p
    case Scheme(_, terminator) => terminator
    case EventHandler => '='
  }

  lemma MatchEndsWithTerminator(s: string, p: Pattern, afterWord: bool)
    requires MatchLength(s, p, afterWord).Some?
    ensures s[MatchLength(s, p, afterWord).value - 1] == Terminator(p)
  {
  }

  /** A pattern cannot match text that lacks its final character. */
  lemma {:induction false} RemoveAllWithoutTerminator(s: string, p: Pattern, afterWord: bool)
    requires Terminator(p) !in s
    ensures RemoveAll(s, p, afterWord) == s
    decreases |s|
  {
    if s != [] {
      if MatchLength(s, p, afterWord).Some? {
        MatchEndsWithTerminator(s, p, afterWord);
        assert false;
      }
      RemoveAllWithoutTerminator(s[1..], p, IsWordChar(s[0]));
      assert s == [s[0]] + s[1..];
    }
  }

  /** Whitespace that is already single inner spaces is left as it is. */
  lemma {:induction false} CollapseWsFixed(s: string)
    requires OnlySpaceWhitespace(s) && NoAdjacentSpaces(s)
    ensures CollapseWs(s) == s
    decreases |s|
  {
    if s != [] {
      SpacesSlice(s, 1, |s|);
      CollapseWsFixed(s[1..]);
      if IsJsWhitespace(s[0]) {
        assert LeadingWs(s) == 1 by {
          assert |s| > 1 ==> LeadingWs(s[1..]) == 0;
        }
      }
      assert s == [s[0]] + s[1..];
    }
  }

  /** Pattern removal leaves text alone that has no `:`, `=` or `(`. */
  lemma DangerousPatternsNeedTerminators(s: string)
    requires ':' !in s && '=' !in s && '(' !in s
    ensures RemoveDangerousPatterns(s) == s
  {
    RemoveAllWithoutTerminator(s, Scheme("javascript", ':'), false);
    RemoveAllWithoutTerminator(s, Scheme("data", ':'), false);
    RemoveAllWithoutTerminator(s, Scheme("vbscript", ':'), false);
    RemoveAllWithoutTerminator(s, EventHandler, false);
    RemoveAllWithoutTerminator(s, Scheme("expression", '('), false);
  }

  /** Decoding, block and tag removal and pattern removal all leave text
      alone that has none of the characters they key on. */
  lemma CleaningKeepsPlainText(s: string)
    requires '&' !in s && '<' !in s && '>' !in s && ':' !in s && '=' !in s && '(' !in s
    ensures RemoveDangerousPatterns(StripHtmlTags(DecodeEntities(s))) == s
  {
    DecodeWithoutAmpersand(s, |HtmlEntities|);
    RemoveBlocksWithoutLt(s, "script");
    RemoveBlocksWithoutLt(s, "style");
    StripTagsWithoutGt(s);
    DangerousPatternsNeedTerminators(s);
  }

  /** Whitespace normalisation leaves text alone whose whitespace is single
      inner spaces. */
  lemma NormalizeKeepsNormalText(s: string)
    requires OnlySpaceWhitespace(s) && NoAdjacentSpaces(s)
    requires s == [] || (s[0] != ' ' && s[|s| - 1] != ' ')
    ensures NormalizeWhitespace(s) == s
  {
    CollapseWsFixed(s);
    TrimOfTrimmed(s);
  }

  /** Text that is free of the characters every rewrite keys on (`&`, `<`,
      `>`, `:`, `=`, `(`), whose whitespace is single inner spaces and which
      fits `maxLength`, comes out of the sanitizer unchanged. */
  lemma SanitizeKeepsPlainText(s: string, maxLength: int)
    requires s != [] && |s| <= maxLength
    requires '&' !in s && '<' !in s && '>' !in s && ':' !in s && '=' !in s && '(' !in s
    requires OnlySpaceWhitespace(s) && NoAdjacentSpaces(s) && s[0] != ' ' && s[|s| - 1] != ' '
    ensures SanitizeUserInput(Some(s), maxLength) == s
  {
    CleaningKeepsPlainText(s);
    NormalizeKeepsNormalText(s);
  }

  /** A plain name (the conditions of `SanitizeKeepsPlainText`, made of
      name characters only) comes out of `sanitizeName` unchanged. */
  lemma SanitizeNameKeepsPlainName(s: string, maxLength: int, letterOrNumber: char -> bool)
    requires s != [] && |s| <= maxLength
    requires '&' !in s && '<' !in s && '>' !in s && ':' !in s && '=' !in s && '(' !in s
    requires OnlySpaceWhitespace(s) && NoAdjacentSpaces(s) && s[0] != ' ' && s[|s| - 1] != ' '
    requires forall i | 0 <= i < |s| :: NameChar(s[i], letterOrNumber)
    ensures SanitizeName(Some(s), letterOrNumber, maxLength) == s
  {
    SanitizeKeepsPlainText(s, maxLength);
    assert !IsJsWhitespace(s[0]) && !IsJsWhitespace(s[|s| - 1]);
  }

  /** An opening tag with no closing tag after it is no block: it stays. */
  lemma {:induction false} UnclosedOpenerKept(tag: string)
    requires '<' !in tag
    ensures RemoveBlocks(Opener(tag), tag) == Opener(tag)
  {
    var y := Opener(tag);
    assert FirstMatchFrom(y, Closer(tag), |y|) == None;
    assert y[1..] == tag;
    RemoveBlocksWithoutLt(tag, tag);
    assert y == [y[0]] + y[1..];
  }

  /** So a complete block followed by a bare opening tag leaves exactly that
      opening tag behind: block removal does not remove every opening tag. */
  lemma BlockThenUnclosedOpener(b: string, tag: string)
    requires IsBlock(b, tag) && '<' !in tag
    ensures RemoveBlocks(b + Opener(tag), tag) == Opener(tag)
  {
    assert [] + b + Opener(tag) == b + Opener(tag);
    BlockRemoved([], b, Opener(tag), tag);
    UnclosedOpenerKept(tag);
  }
}

module SanitizeExamples {
  import opened Wrappers
  import opened JsText
  import opened Sanitize

  /** A pass leaves text alone when the pattern occurs nowhere in it. */
  lemma {:induction false} ReplaceWithoutMatch(s: string, pat: string, rep: char)
    requires pat != []
    requires forall k | 0 <= k < |s| :: !StartsWithCI(s[k..], pat)
    ensures ReplaceAllCI(s, pat, rep) == s
    decreases |s|
  {
    if s != [] {
      assert s[0..] == s;
      forall k | 0 <= k < |s| - 1 ensures !StartsWithCI(s[1..][k..], pat) {
        assert s[1..][k..] == s[k + 1..];
      }
      ReplaceWithoutMatch(s[1..], pat, rep);
    }
  }

  /** Entries longer than the text decoded so far cannot match in it. */
  lemma {:induction false} LongEntriesLeave(s: string, m: nat, n: nat)
    requires m <= n <= |HtmlEntities|
    requires forall k | m <= k < n :: |HtmlEntities[k].0| > |DecodeFirst(s, m)|
    ensures DecodeFirst(s, n) == DecodeFirst(s, m)
  {
    if m < n {
      LongEntriesLeave(s, m, n - 1);
      EntitiesStartWithAmpersand();
      ReplaceWithoutMatch(DecodeFirst(s, m), HtmlEntities[n - 1].0, HtmlEntities[n - 1].1);
    }
  }

  lemma DoubleEncodedHasNoLtGt()
    ensures ReplaceAllCI("&amp;lt;", "&lt;", '<') == "&amp;lt;"
    ensures ReplaceAllCI("&amp;lt;", "&gt;", '>') == "&amp;lt;"
  {
    var s := "&amp;lt;";
    forall k | 0 <= k < |s| ensures !StartsWithCI(s[k..], "&lt;") && !StartsWithCI(s[k..], "&gt;") {
      if k == 0 {
        assert Lower(s[1]) != Lower('l') && Lower(s[1]) != Lower('g');
      } else {
        assert s[k..][0] == s[k] != '&';
      }
    }
    ReplaceWithoutMatch(s, "&lt;", '<');
    ReplaceWithoutMatch(s, "&gt;", '>');
  }

  lemma DoubleEncodedAmpPass()
    ensures ReplaceAllCI("&amp;lt;", "&amp;", '&') == "&lt;"
  {
    var s := "&amp;lt;";
    assert StartsWithCI(s, "&amp;");
    assert s[5..] == "lt;";
    ReplaceWithoutMatch("lt;", "&amp;", '&');
  }

  lemma LaterEntitiesAreLong()
    ensures forall k | 3 <= k < |HtmlEntities| :: |HtmlEntities[k].0| >= 5
  {
  }

  /** Each entity is decoded in a single pass, so a double-encoded entity is
      decoded only once. */
  lemma EntityDecodingIsOnePass(s: string)
    requires s == "&amp;lt;"
    ensures DecodeEntities(s) == "&lt;"
  {
    FirstThreeEntities(s);
    LaterEntitiesAreLong();
    LongEntriesLeave(s, 3, |HtmlEntities|);
  }

  lemma FirstThreeEntities(s: string)
    requires s == "&amp;lt;"
    ensures DecodeFirst(s, 3) == "&lt;"
  {
    DoubleEncodedHasNoLtGt();
    assert DecodeFirst(s, 2) == s;
    DoubleEncodedAmpPass();
  }
}
