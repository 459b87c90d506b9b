/** Inline Markdown to HTML: code spans, emphasis, links, images, autolinks and entities. */
module MarkdownInline {
  import opened Common
  import opened MarkdownHtml

  /** Unicode's letters-and-digits and white space, about which nothing is assumed. */
  datatype Unicode = Unicode(alnum: char -> bool, space: char -> bool)

  predicate AsciiDigit(c: char) { '0' <= c <= '9' }

  predicate AsciiAlpha(c: char) { 'a' <= c <= 'z' || 'A' <= c <= 'Z' }

  predicate AsciiAlnum(c: char) { AsciiDigit(c) || AsciiAlpha(c) }

  predicate AsciiHex(c: char) { AsciiDigit(c) || 'a' <= c <= 'f' || 'A' <= c <= 'F' }

  predicate IsSlash(c: char) { c == '/' }

  predicate NotAngle(c: char) { c != '>' }

  predicate NotQuote(c: char) { c != '"' && c != '\'' }

  // ----- escaping -----

  function Escaped(c: char): string {
    match c
    case '&' => "&amp;"
    case '<' => "&lt;"
    case '>' => "&gt;"
    case _ => [c]
  }

  function EscapeHtml(s: string): (r: string) {
    if s == "" then "" else Escaped(s[0]) + EscapeHtml(s[1..])
  }

  function EscapeAttr(s: string): (r: string) {
    if s == "" then "" else (if s[0] == '"' then "&quot;" else Escaped(s[0])) + EscapeAttr(s[1..])
  }

  /** What a browser makes of the four entities. */
  function Unescape(s: string): (r: string)
    decreases |s|
  {
    if s == "" then ""
    else if "&amp;" <= s then "&" + Unescape(s[5..])
    else if "&lt;" <= s then "<" + Unescape(s[4..])
    else if "&gt;" <= s then ">" + Unescape(s[4..])
    else if "&quot;" <= s then "\"" + Unescape(s[6..])
    else [s[0]] + Unescape(s[1..])
  }

  lemma {:induction false} EscapeHtmlSafe(s: string)
    ensures Clean(EscapeHtml(s)) && Unescape(EscapeHtml(s)) == s
    decreases |s|
  {
    hide Escaped, Unescape;
    if s == "" {
      assert Unescape("") == "" by { UnescapeEmpty(); }
    } else {
      EscapeHtmlSafe(s[1..]);
      UnescapeFirst(s[0], Escaped(s[0]), EscapeHtml(s[1..]));
      assert [s[0]] + s[1..] == s;
    }
  }

  lemma {:induction false} EscapeAttrSafe(s: string)
    ensures Clean(EscapeAttr(s)) && '"' !in EscapeAttr(s) && Unescape(EscapeAttr(s)) == s
    decreases |s|
  {
    hide Escaped, Unescape;
    if s == "" {
      assert Unescape("") == "" by { UnescapeEmpty(); }
    } else {
      EscapeAttrSafe(s[1..]);
      UnescapeFirst(s[0], if s[0] == '"' then "&quot;" else Escaped(s[0]), EscapeAttr(s[1..]));
      assert [s[0]] + s[1..] == s;
    }
  }

  lemma UnescapeEmpty()
    ensures Unescape("") == ""
  {
  }

  lemma UnescapeFirst(c: char, e: string, rest: string)
    requires e == Escaped(c) || (c == '"' && e == "&quot;")
    ensures Unescape(e + rest) == [c] + Unescape(rest)
    ensures Clean(e) && (e == "&quot;" || c != '"' ==> '"' !in e)
  {
    var s := e + rest;
    assert s[|e|..] == rest;
    if c == '&' { assert "&amp;" <= s; }
    else if c == '<' { assert s[1] == 'l'; assert "&lt;" <= s; }
    else if c == '>' { assert s[1] == 'g'; assert "&gt;" <= s; }
    else if e == "&quot;" { assert s[1] == 'q'; assert "&quot;" <= s; }
    else { assert s[0] != '&'; }
  }

  predicate IsEscapable(c: char) {
    c in "\\`*_{}[]()#+-.!<>\"'|~"
  }

  // ----- scanners -----

  function Repeat(c: char, n: nat): (s: string)
    ensures |s| == n && forall k | 0 <= k < n :: s[k] == c
  {
    seq(n, _ => c)
  }

  /** Length of the run of `c` from `i` on. */
  function RunLength(chars: string, i: nat, end: nat, c: char): (n: nat)
    requires i <= end <= |chars|
    ensures i + n <= end && (forall k | i <= k < i + n :: chars[k] == c)
    ensures i + n == end || chars[i + n] != c
    decreases end - i
  {
    if i < end && chars[i] == c then 1 + RunLength(chars, i + 1, end, c) else 0
  }

  function FindBacktickClose(chars: string, from: nat, end: nat, n: nat): (r: Option<nat>)
    requires from <= end <= |chars|
    ensures r.Some? ==> from <= r.value && r.value + n <= end
    decreases end - from
  {
    if from == end then None
    else if chars[from] == '`' then
      var run := RunLength(chars, from, end, '`');
      if run == n then Some(from)
      else if run == 0 then None
      else FindBacktickClose(chars, from + run, end, n)
    else FindBacktickClose(chars, from + 1, end, n)
  }

  /** A run of exactly `n` backticks at `k`, with no backtick on either side inside [from, end). */
  predicate RunAt(chars: string, from: nat, end: nat, n: nat, k: nat) {
    && from <= k && k + n <= end <= |chars| && n > 0
    && (forall j | k <= j < k + n :: chars[j] == '`')
    && (k == from || chars[k - 1] != '`') && (k + n == end || chars[k + n] != '`')
  }

  /** The closing backticks are the first run of the same length, and they are found whenever there is one. */
  lemma {:induction false} BacktickCloseIsFirst(chars: string, from: nat, i: nat, end: nat, n: nat)
    requires from <= i <= end <= |chars| && n > 0 && (i == from || i == end || chars[i - 1] != '`' || chars[i] != '`')
    ensures match FindBacktickClose(chars, i, end, n)
      case Some(k) => RunAt(chars, from, end, n, k) && forall m | i <= m < k :: !RunAt(chars, from, end, n, m)
      case None => forall m | i <= m :: !RunAt(chars, from, end, n, m)
    decreases end - i
  {
    if i < end {
      if chars[i] == '`' {
        var run := RunLength(chars, i, end, '`');
        if run != n {
          BacktickCloseIsFirst(chars, from, i + run, end, n);
          forall m | i <= m < i + run ensures !RunAt(chars, from, end, n, m) {
            assert m > i ==> chars[m - 1] == '`';
          }
        }
      } else {
        BacktickCloseIsFirst(chars, from, i + 1, end, n);
      }
    }
  }

  function FindEmphasisClose(u: Unicode, chars: string, from: nat, i: nat, end: nat, c: char, len: nat): (r: Option<nat>)
    requires from <= i && end <= |chars| && len > 0
    ensures r.Some? ==> from < r.value && i <= r.value && r.value + len <= end
    decreases end + 1 - i
  {
    if i + len > end then None
    else if chars[i] != c then FindEmphasisClose(u, chars, from, i + 1, end, c, len)
    else
      var run := RunLength(chars, i, end, c);
      var precededBySpace := i == from || u.space(chars[i - 1]);
      var intraword := c == '_' && i > from && u.alnum(chars[i - 1]) && i + len < end && u.alnum(chars[i + len]);
      if run >= len && !precededBySpace && !intraword then Some(i)
      else FindEmphasisClose(u, chars, from, i + Max(run, 1), end, c, len)
  }

  /** `find_matching_bracket` and `find_matching_paren`: where the depth returns to zero. */
  function FindMatching(chars: string, i: nat, end: nat, depth: int, open: char, close: char): (r: Option<nat>)
    requires end <= |chars|
    ensures r.Some? ==> i <= r.value < end && chars[r.value] == close
    decreases end + 1 - i
  {
    if i >= end then None
    else if chars[i] == open then FindMatching(chars, i + 1, end, depth + 1, open, close)
    else if chars[i] == close then
      if depth == 1 then Some(i) else FindMatching(chars, i + 1, end, depth - 1, open, close)
    else if chars[i] == '\\' then
      if i + 2 <= end + 1 then FindMatching(chars, i + 2, end, depth, open, close) else None
    else FindMatching(chars, i + 1, end, depth, open, close)
  }

  /** A run of at least `len` delimiters starts at `k` and may close emphasis that starts at `from`: there is
      text before it that does not end in white space, and an underscore is not inside a word. */
  predicate ClosesHere(u: Unicode, chars: string, from: nat, end: nat, c: char, len: nat, k: nat) {
    && from < k && k + len <= end <= |chars| && (forall j | k <= j < k + len :: chars[j] == c) && chars[k - 1] != c
    && !u.space(chars[k - 1])
    && !(c == '_' && u.alnum(chars[k - 1]) && k + len < end && u.alnum(chars[k + len]))
  }

  /** Emphasis is closed by the first run that may close it, and by one whenever there is one. */
  lemma {:induction false} EmphasisCloseIsFirst(u: Unicode, chars: string, from: nat, i: nat, end: nat, c: char, len: nat)
    requires from <= i && end <= |chars| && len > 0 && (i == from || i >= end || chars[i - 1] != c || chars[i] != c)
    ensures match FindEmphasisClose(u, chars, from, i, end, c, len)
      case Some(k) => ClosesHere(u, chars, from, end, c, len, k) && forall m | i <= m < k :: !ClosesHere(u, chars, from, end, c, len, m)
      case None => forall m | i <= m :: !ClosesHere(u, chars, from, end, c, len, m)
    decreases end + 1 - i
  {
    hide RunLength;
    if i + len <= end {
      if chars[i] != c {
        EmphasisCloseIsFirst(u, chars, from, i + 1, end, c, len);
      } else {
        var run := RunLength(chars, i, end, c);
        forall m | i < m < i + run ensures !ClosesHere(u, chars, from, end, c, len, m) {
          assert chars[m - 1] == c;
        }
        if run < len { assert chars[i + run] != c || i + run == end; }
        EmphasisCloseIsFirst(u, chars, from, i + Max(run, 1), end, c, len);
      }
    }
  }

  /** Openers less closers. */
  function Net(s: string, open: char, close: char): int {
    if s == "" then 0
    else Net(s[..|s| - 1], open, close) + (if s[|s| - 1] == open then 1 else if s[|s| - 1] == close then -1 else 0)
  }

  /** The closer at `k` brings the depth, counted from `i` on, to zero. */
  predicate BackToZero(chars: string, i: nat, end: nat, depth: int, open: char, close: char, k: nat) {
    i <= k < end <= |chars| && chars[k] == close && depth + Net(chars[i..k + 1], open, close) == 0
  }

  lemma {:induction false} NetFirst(s: string, open: char, close: char)
    requires s != ""
    ensures Net(s, open, close) == (if s[0] == open then 1 else if s[0] == close then -1 else 0) + Net(s[1..], open, close)
    decreases |s|
  {
    if |s| > 1 {
      NetFirst(s[..|s| - 1], open, close);
      assert s[1..][..|s| - 2] == s[..|s| - 1][1..];
    } else {
      assert s[..|s| - 1] == "" && s[1..] == "";
    }
  }

  /** Without backslashes, the match is the first closer that brings the depth to zero, and it is found whenever
      there is one. */
  lemma {:induction false} MatchingIsFirst(chars: string, i: nat, end: nat, depth: int, open: char, close: char)
    requires i <= end <= |chars| && open != close && forall k | i <= k < end :: chars[k] != '\\'
    ensures match FindMatching(chars, i, end, depth, open, close)
      case Some(k) =>
        BackToZero(chars, i, end, depth, open, close, k) && forall m | i <= m < k :: !BackToZero(chars, i, end, depth, open, close, m)
      case None => forall m | i <= m :: !BackToZero(chars, i, end, depth, open, close, m)
    decreases end - i
  {
    hide Net;
    if i < end {
      var step := if chars[i] == open then 1 else if chars[i] == close then -1 else 0;
      forall m | i < m < end
        ensures BackToZero(chars, i, end, depth, open, close, m) == BackToZero(chars, i + 1, end, depth + step, open, close, m)
      {
        NetFirst(chars[i..m + 1], open, close);
        assert chars[i..m + 1][1..] == chars[i + 1..m + 1];
      }
      NetOne(chars, i, open, close);
      MatchingIsFirst(chars, i + 1, end, depth + step, open, close);
    }
  }

  lemma NetOne(chars: string, i: nat, open: char, close: char)
    requires i < |chars|
    ensures Net(chars[i..i + 1], open, close) == if chars[i] == open then 1 else if chars[i] == close then -1 else 0
  {
    var s := chars[i..i + 1];
    assert s[..0] == "";
  }

  /** `entity_end`, for the `&` at `start`. */
  function EntityEnd(chars: string, start: nat, end: nat): (r: Option<nat>)
    requires start < end <= |chars| && chars[start] == '&'
    ensures r.Some? ==> start + 2 < r.value <= end && Clean(chars[start..r.value])
  {
    var numeric := start + 1 < end && chars[start + 1] == '#';
    var from := if numeric then start + 2 else start + 1;
    var i := SkipWhile(chars, from, end, if numeric then AsciiHex else AsciiAlnum);
    if i > from && i < end && chars[i] == ';' then
      assert Clean(chars[start..i + 1]);
      Some(i + 1)
    else None
  }

  function SkipWhile(chars: string, i: nat, end: nat, p: char -> bool): (k: nat)
    requires i <= end <= |chars|
    ensures i <= k <= end && (forall j | i <= j < k :: p(chars[j])) && (k == end || !p(chars[k]))
    decreases end - i
  {
    if i < end && p(chars[i]) then SkipWhile(chars, i + 1, end, p) else i
  }

  // ----- strings -----

  function TrimStart(s: string, p: char -> bool): string {
    s[SkipWhile(s, 0, |s|, p)..]
  }

  function TrimEnd(s: string, p: char -> bool): string
    decreases |s|
  {
    if s != "" && p(s[|s| - 1]) then TrimEnd(s[..|s| - 1], p) else s
  }

  function Trim(u: Unicode, s: string): string {
    TrimEnd(TrimStart(s, u.space), u.space)
  }

  function LastIndexOf(s: string, c: char): (r: Option<nat>)
    ensures r.Some? ==> r.value < |s|
    decreases |s|
  {
    if s == "" then None
    else if s[|s| - 1] == c then Some(|s| - 1)
    else LastIndexOf(s[..|s| - 1], c)
  }

  function FindSub(s: string, sub: string, i: nat): (r: Option<nat>)
    ensures r.Some? ==> i <= r.value <= |s|
    decreases |s| + 1 - i
  {
    if i > |s| then None else if sub <= s[i..] then Some(i) else FindSub(s, sub, i + 1)
  }

  function StripTags(html: string, inTag: bool): string {
    if html == "" then ""
    else if html[0] == '<' then StripTags(html[1..], true)
    else if html[0] == '>' then StripTags(html[1..], false)
    else (if inTag then "" else [html[0]]) + StripTags(html[1..], inTag)
  }

  function SplitDestTitle(u: Unicode, dest: string): (string, Option<string>) {
    var t := Trim(u, dest);
    var s := if |t| >= 2 && t[0] == '<' && t[|t| - 1] == '>' then t[1..|t| - 1] else t;
    var q := SkipWhile(s, 0, |s|, NotQuote);
    if q == |s| then (s, None)
    else
      match LastIndexOf(s[q + 1..], s[q])
      case Some(e) => (Trim(u, s[..q]), Some(s[q + 1..][..e]))
      case None => (s, None)
  }

  predicate IsInlineTag(inner: string) {
    var rest := if inner != "" && inner[0] == '/' then inner[1..] else inner;
    var body := TrimEnd(rest, IsSlash);
    && body != "" && AsciiAlpha(body[0])
    && forall k | 0 <= k < |body| :: AsciiAlnum(body[k]) || body[k] in "- =\"'_:./#%;"
  }

  // ----- rendering -----

  function TitleAttr(title: Option<string>): string {
    if title.Some? then Attr("title", EscapeAttr(title.value)) else ""
  }

  function Link(url: string, title: Option<string>, text: string): string {
    Element("a", Attr("href", EscapeAttr(url)) + TitleAttr(title), text)
  }

  function Image(url: string, title: Option<string>, alt: string): string {
    Tag("img", Attr("src", EscapeAttr(url)) + (Attr("alt", EscapeAttr(alt)) + TitleAttr(title)))
  }

  /** `try_angle`: an autolink, a raw tag, or nothing. */
  function TryAngle(u: Unicode, chars: string, start: nat, end: nat): (r: Option<(string, nat)>)
    requires start < end <= |chars|
    ensures r.Some? ==> start < r.value.1 <= end
  {
    var close := SkipWhile(chars, start + 1, end, NotAngle);
    if close == end then None
    else
      var inner := chars[start + 1..close];
      var raw := if IsInlineTag(inner) then Some(("<" + inner + ">", close + 1)) else None;
      if inner == "" || exists k | 0 <= k < |inner| :: u.space(inner[k]) then raw
      else if IsUrl(inner) then Some((Link(inner, None, EscapeHtml(inner)), close + 1))
      else if '@' in inner && FindSub(inner, "//", 0).None? then
        Some((Element("a", Attr("href", "mailto:" + EscapeAttr(inner)), EscapeHtml(inner)), close + 1))
      else raw
  }

  predicate IsUrl(inner: string) {
    match FindSub(inner, "://", 0)
    case None => false
    case Some(k) => k > 0 && forall j | 0 <= j < k :: AsciiAlnum(inner[j]) || inner[j] in "+.-"
  }

  function Wrap(c: char, len: nat, inner: string): string {
    if c == '~' then Element("del", "", inner)
    else if len == 3 then Element("strong", "", Element("em", "", inner))
    else if len == 2 then Element("strong", "", inner)
    else Element("em", "", inner)
  }

  /** The first of the lengths `len`, `len - 1`, ... down to `least` for which a close is found. */
  function FirstClose(u: Unicode, chars: string, from: nat, end: nat, c: char, len: nat, least: nat): (r: Option<(nat, nat)>)
    requires from <= end <= |chars| && least > 0
    ensures r.Some? ==> least <= r.value.0 <= len && from < r.value.1 && r.value.1 + r.value.0 <= end
  {
    if len < least then None
    else
      match FindEmphasisClose(u, chars, from, from, end, c, len)
      case Some(close) => Some((len, close))
      case None => FirstClose(u, chars, from, end, c, len - 1, least)
  }

  function Emphasis(u: Unicode, chars: string, start: nat, i: nat, end: nat): (r: (string, nat))
    requires start <= i < end <= |chars|
    ensures i < r.1 <= end
    decreases end - i, 0
  {
    var c := chars[i];
    var n := RunLength(chars, i, end, c);
    var beforeAlnum := i > start && u.alnum(chars[i - 1]);
    var afterAlnum := i + n < end && u.alnum(chars[i + n]);
    var afterSpace := i + n >= end || u.space(chars[i + n]);
    if (c == '_' && beforeAlnum && afterAlnum) || afterSpace then (Repeat(c, n), i + n)
    else
      var eff := Min(n, if c == '~' then 2 else 3);
      var surplus := Repeat(c, n - eff);
      match FirstClose(u, chars, i + n, end, c, eff, if c == '~' then 2 else 1)
      case Some((len, close)) =>
        (surplus + Wrap(c, len, RenderFrom(u, chars, i + n, i + n, close)), close + len)
      case None => (surplus + Repeat(c, eff), i + n)
  }

  function TryLink(u: Unicode, chars: string, start: nat, end: nat, isImage: bool): (r: Option<(string, nat)>)
    requires start < end <= |chars| && chars[start] == '['
    ensures r.Some? ==> start < r.value.1 <= end
    decreases end - start, 0
  {
    match FindMatching(chars, start, end, 0, '[', ']')
    case None => None
    case Some(closeBracket) =>
      if closeBracket + 1 >= end || chars[closeBracket + 1] != '(' then None
      else
        match FindMatching(chars, closeBracket + 2, end, 1, '(', ')')
        case None => None
        case Some(closeParen) =>
          var caption := chars[start + 1..closeBracket];
          var (url, title) := SplitDestTitle(u, Trim(u, chars[closeBracket + 2..closeParen]));
          var text := RenderFrom(u, caption, 0, 0, |caption|);
          Some((if isImage then Image(url, title, StripTags(text, false)) else Link(url, title, text), closeParen + 1))
  }

  /** The code between backticks, without the one space that may surround it. */
  function CodeText(code: string): string {
    if |code| >= 2 && code[0] == ' ' && code[|code| - 1] == ' ' && exists k | 0 <= k < |code| :: code[k] != ' '
    then code[1..|code| - 1] else code
  }

  /** One round of the loop in `render_span`: what it emits, and where it goes on. */
  function Step(u: Unicode, chars: string, start: nat, i: nat, end: nat): (r: (string, nat))
    requires start <= i < end <= |chars|
    ensures i < r.1 <= end
    decreases end - i, 1
  {
    var c := chars[i];
    if c == '\\' && i + 1 < end && IsEscapable(chars[i + 1]) then (Escaped(chars[i + 1]), i + 2)
    else if c == '`' then
      var n := RunLength(chars, i, end, '`');
      match FindBacktickClose(chars, i + n, end, n)
      case Some(close) => (Element("code", "", EscapeHtml(CodeText(chars[i + n..close]))), close + n)
      case None => (Repeat('`', n), i + n)
    else if c == '*' || c == '_' || c == '~' then Emphasis(u, chars, start, i, end)
    else if c == '!' && i + 1 < end && chars[i + 1] == '[' then
      match TryLink(u, chars, i + 1, end, true)
      case Some(r) => r
      case None => (Escaped(c), i + 1)
    else if c == '[' then
      match TryLink(u, chars, i, end, false)
      case Some(r) => r
      case None => (Escaped(c), i + 1)
    else if c == '<' then
      match TryAngle(u, chars, i, end)
      case Some(r) => r
      case None => ("&lt;", i + 1)
    else if c == '&' then
      match EntityEnd(chars, i, end)
      case Some(next) => (chars[i..next], next)
      case None => ("&amp;", i + 1)
    else if c == '>' then ("&gt;", i + 1)
    else ([c], i + 1)
  }

  /** What `render_span` emits from position `i` on. */
  function RenderFrom(u: Unicode, chars: string, start: nat, i: nat, end: nat): (out: string)
    requires start <= i <= end <= |chars|
    decreases end - i, 2
  {
    if i == end then ""
    else
      var (o, next) := Step(u, chars, start, i, end);
      o + RenderFrom(u, chars, start, next, end)
  }

  function RenderInline(u: Unicode, text: string): string {
    RenderFrom(u, text, 0, 0, |text|)
  }

  // ----- the loops -----

  /** `escape_html`. */
  method EscapeText(s: string) returns (out: string)
    ensures out == EscapeHtml(s)
  {
    out := "";
    assert s[0..] == s;
    for k := 0 to |s|
      invariant out + EscapeHtml(s[k..]) == EscapeHtml(s)
    {
      assert s[k..][1..] == s[k + 1..];
      out := out + Escaped(s[k]);
    }
  }

  /** `find_backtick_close`. */
  method ScanBacktickClose(chars: string, from: nat, end: nat, n: nat) returns (r: Option<nat>)
    requires from <= end <= |chars| && n > 0
    ensures r == FindBacktickClose(chars, from, end, n)
  {
    var i := from;
    while i < end
      invariant from <= i <= end
      invariant FindBacktickClose(chars, from, end, n) == FindBacktickClose(chars, i, end, n)
    {
      if chars[i] == '`' {
        var runStart, run := i, 0;
        while i < end && chars[i] == '`'
          invariant i == runStart + run && i <= end
          invariant RunLength(chars, runStart, end, '`') == run + RunLength(chars, i, end, '`')
        {
          run := run + 1;
          i := i + 1;
        }
        if run == n { return Some(runStart); }
      } else {
        i := i + 1;
      }
    }
    return None;
  }

  /** `find_emphasis_close`. */
  method ScanEmphasisClose(u: Unicode, chars: string, from: nat, end: nat, c: char, len: nat) returns (r: Option<nat>)
    requires end <= |chars| && len > 0
    ensures r == FindEmphasisClose(u, chars, from, from, end, c, len)
  {
    var i := from;
    while i + len <= end
      invariant from <= i
      invariant FindEmphasisClose(u, chars, from, from, end, c, len) == FindEmphasisClose(u, chars, from, i, end, c, len)
    {
      if chars[i] == c {
        var run := 0;
        while i + run < end && chars[i + run] == c
          invariant i + run <= end
          invariant RunLength(chars, i, end, c) == run + RunLength(chars, i + run, end, c)
        {
          run := run + 1;
        }
        if run >= len {
          var precededBySpace := i == from || u.space(chars[i - 1]);
          var intraword := c == '_' && i > from && u.alnum(chars[i - 1]) && i + len < end && u.alnum(chars[i + len]);
          if !precededBySpace && !intraword { return Some(i); }
        }
        i := i + Max(run, 1);
      } else {
        i := i + 1;
      }
    }
    return None;
  }

  /** `find_matching_bracket` and `find_matching_paren`. */
  method ScanMatching(chars: string, start: nat, end: nat, startDepth: int, open: char, close: char) returns (r: Option<nat>)
    requires end <= |chars| && open != close && open != '\\' && close != '\\'
    ensures r == FindMatching(chars, start, end, startDepth, open, close)
  {
    var depth, i := startDepth, start;
    while i < end
      invariant FindMatching(chars, start, end, startDepth, open, close) == FindMatching(chars, i, end, depth, open, close)
    {
      if chars[i] == open {
        depth := depth + 1;
      } else if chars[i] == close {
        depth := depth - 1;
        if depth == 0 { return Some(i); }
      } else if chars[i] == '\\' {
        i := i + 1;
      }
      i := i + 1;
    }
    return None;
  }

  /** `render_span`. */
  method RenderSpan(u: Unicode, chars: string, start: nat, end: nat) returns (out: string)
    requires start <= end <= |chars|
    ensures out == RenderFrom(u, chars, start, start, end)
  {
    out := "";
    var i := start;
    while i < end
      invariant start <= i <= end
      invariant out + RenderFrom(u, chars, start, i, end) == RenderFrom(u, chars, start, start, end)
    {
      var (o, next) := Step(u, chars, start, i, end);
      out := out + o;
      i := next;
    }
  }
}
