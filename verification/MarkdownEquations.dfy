/** What each inline construct renders to, stated on the source text: plain text is escaped, a backslash takes a
    character literally, and every kind of markup gives its element around the rendering of what it encloses. */
module MarkdownEquations {
  import opened Common
  import opened MarkdownHtml
  import opened MarkdownInline
  import opened MarkdownLocal

  /** A text that cannot be taken for an underscore run when it follows other text. */
  predicate Apart(r: string) {
    r == "" || r[0] != '_'
  }

  // ----- plain text -----

  /** No character that starts markup. */
  predicate PlainText(s: string) {
    forall k | 0 <= k < |s| :: s[k] !in "\\`*_~[<&"
  }

  lemma OrdinaryStep(u: Unicode, text: string)
    requires text != "" && text[0] !in "\\`*_~[<&" && !(text[0] == '!' && |text| > 1 && text[1] == '[')
    ensures Step(u, text, 0, 0, |text|) == (Escaped(text[0]), 1)
  {
  }

  /** An ordinary character is escaped and left in its place. */
  lemma Ordinary(u: Unicode, c: char, r: string)
    requires c !in "\\`*_~[<&" && !(c == '!' && r != "" && r[0] == '[') && Apart(r)
    ensures RenderInline(u, [c] + r) == Escaped(c) + RenderInline(u, r)
  {
    hide Step, RenderInline, Escaped;
    var text := [c] + r;
    OrdinaryStep(u, text);
    Peel(u, text, Escaped(c), 1);
    assert text[1..] == r;
  }

  /** Plain text before anything else. */
  lemma {:induction false} PlainThen(u: Unicode, p: string, r: string)
    requires PlainText(p) && Apart(r) && !(p != "" && p[|p| - 1] == '!' && r != "" && r[0] == '[')
    ensures RenderInline(u, p + r) == EscapeHtml(p) + RenderInline(u, r)
    decreases |p|
  {
    hide RenderInline, Escaped;
    if p == "" {
      assert p + r == r && "" + RenderInline(u, r) == RenderInline(u, r);
    } else {
      var rest := p[1..] + r;
      assert p + r == [p[0]] + rest;
      assert rest != "" ==> rest[0] == if |p| > 1 then p[1] else r[0];
      Ordinary(u, p[0], rest);
      PlainThen(u, p[1..], r);
      assert Escaped(p[0]) + (EscapeHtml(p[1..]) + RenderInline(u, r)) == EscapeHtml(p) + RenderInline(u, r);
    }
  }

  lemma RenderEmpty(u: Unicode)
    ensures RenderInline(u, "") == ""
  {
  }

  /** A text without markup renders to itself, escaped. */
  lemma PlainRenders(u: Unicode, text: string)
    requires PlainText(text)
    ensures RenderInline(u, text) == EscapeHtml(text)
  {
    hide RenderInline, EscapeHtml;
    PlainThen(u, text, "");
    RenderEmpty(u);
    assert text + "" == text && EscapeHtml(text) + "" == EscapeHtml(text);
  }

  // ----- backslashes -----

  /** A backslash takes the punctuation after it literally. */
  lemma Backslash(u: Unicode, c: char, r: string)
    requires IsEscapable(c) && Apart(r)
    ensures RenderInline(u, ['\\', c] + r) == Escaped(c) + RenderInline(u, r)
  {
    hide RenderInline, Escaped, IsEscapable;
    var text := ['\\', c] + r;
    assert Step(u, text, 0, 0, |text|) == (Escaped(c), 2);
    Peel(u, text, Escaped(c), 2);
    assert text[2..] == r;
  }

  /** A text with every punctuation character taken literally. */
  function Quoted(s: string): (r: string)
    ensures Apart(r)
  {
    if s == "" then ""
    else (if s[0] == '&' then "&amp;" else if IsEscapable(s[0]) then ['\\', s[0]] else [s[0]]) + Quoted(s[1..])
  }

  lemma AmpStep(u: Unicode, r: string)
    ensures var text := "&amp;" + r; Step(u, text, 0, 0, |text|) == ("&amp;", 5)
  {
    var text := "&amp;" + r;
    assert text[0] == '&' && text[1] == 'a' && text[2] == 'm' && text[3] == 'p' && text[4] == ';';
    assert SkipWhile(text, 4, |text|, AsciiAlnum) == 4;
    assert SkipWhile(text, 3, |text|, AsciiAlnum) == 4;
    assert SkipWhile(text, 2, |text|, AsciiAlnum) == 4;
    assert SkipWhile(text, 1, |text|, AsciiAlnum) == 4;
    assert text[0..5] == "&amp;";
  }

  /** Every text can be written so that it renders to itself, escaped. */
  lemma {:induction false} QuotedRenders(u: Unicode, s: string)
    ensures RenderInline(u, Quoted(s)) == EscapeHtml(s)
    decreases |s|
  {
    hide RenderInline, Step, IsEscapable;
    if s == "" {
      RenderEmpty(u);
    } else {
      var c, rest := s[0], Quoted(s[1..]);
      QuotedRenders(u, s[1..]);
      if c == '&' {
        AmpStep(u, rest);
        var text := "&amp;" + rest;
        Peel(u, text, "&amp;", 5);
        assert text[5..] == rest;
      } else if IsEscapable(c) {
        Backslash(u, c, rest);
      } else {
        NotEscapable(c);
        Ordinary(u, c, rest);
      }
    }
  }

  lemma NotEscapable(c: char)
    requires !IsEscapable(c)
    ensures c !in "\\`*_~[<" && c != '!'
  {
  }

  // ----- emphasis -----

  lemma {:induction false} RunIs(text: string, i: nat, n: nat, end: nat, c: char)
    requires i + n <= end <= |text| && (forall k | i <= k < i + n :: text[k] == c) && (i + n == end || text[i + n] != c)
    ensures RunLength(text, i, end, c) == n
    decreases n
  {
    if n > 0 { RunIs(text, i + 1, n - 1, end, c); }
  }

  /** The first run of the delimiter closes, if it is long enough and may close. */
  lemma {:induction false} ClosesAt(u: Unicode, text: string, from: nat, i: nat, m: nat, end: nat, c: char, len: nat)
    requires from <= i <= m && from < m && m + len <= end <= |text| && len > 0
    requires (forall k | i <= k < m :: text[k] != c) && text[m] == c && RunLength(text, m, end, c) >= len
    requires !u.space(text[m - 1])
    requires !(c == '_' && u.alnum(text[m - 1]) && m + len < end && u.alnum(text[m + len]))
    ensures FindEmphasisClose(u, text, from, i, end, c, len) == Some(m)
    decreases m - i
  {
    hide RunLength;
    if i < m { ClosesAt(u, text, from, i + 1, m, end, c, len); }
  }

  lemma {:induction false} NeverCloses(u: Unicode, text: string, from: nat, i: nat, end: nat, c: char, len: nat)
    requires from <= i && end <= |text| && len > 0 && forall k | i <= k < end :: text[k] != c
    ensures FindEmphasisClose(u, text, from, i, end, c, len) == None
    decreases end + 1 - i
  {
    if i + len <= end { NeverCloses(u, text, from, i + 1, end, c, len); }
  }

  lemma {:induction false} NoClose(u: Unicode, text: string, from: nat, end: nat, c: char, len: nat, least: nat)
    requires from <= end <= |text| && least > 0 && forall k | from <= k < end :: text[k] != c
    ensures FirstClose(u, text, from, end, c, len, least) == None
    decreases len
  {
    if len >= least {
      NeverCloses(u, text, from, from, end, c, len);
      NoClose(u, text, from, end, c, len - 1, least);
    }
  }

  predicate IsDelimiter(c: char, k: nat) {
    ((c == '*' || c == '_') && 1 <= k <= 3) || (c == '~' && k == 2)
  }

  /** Text that `k` delimiters `c` on each side emphasise, before `r`. */
  predicate Emphasised(u: Unicode, c: char, k: nat, x: string, r: string) {
    && IsDelimiter(c, k) && x != "" && c !in x && !u.space(x[0]) && !u.space(x[|x| - 1])
    && (r == "" || r[0] != c) && !(c == '_' && u.alnum(x[|x| - 1]) && r != "" && u.alnum(r[0]))
  }

  function Around(c: char, k: nat, x: string, r: string): string {
    Repeat(c, k) + x + Repeat(c, k) + r
  }

  lemma AroundShape(c: char, k: nat, x: string, r: string)
    ensures var t := Around(c, k, x, r); var m := k + |x|;
      && |t| == 2 * k + |x| + |r| && t[k..m] == x && t[m + k..] == r
      && (forall j | 0 <= j < k :: t[j] == c) && (forall j | m <= j < m + k :: t[j] == c)
      && (forall j | 0 <= j < |x| :: t[k + j] == x[j]) && (forall j | 0 <= j < |r| :: t[m + k + j] == r[j])
  {
  }

  lemma EmphasisCloses(u: Unicode, c: char, k: nat, x: string, r: string)
    requires Emphasised(u, c, k, x, r)
    ensures var t := Around(c, k, x, r);
      && RunLength(t, 0, |t|, c) == k
      && FirstClose(u, t, k, |t|, c, k, if c == '~' then 2 else 1) == Some((k, k + |x|))
  {
    hide Around, RunLength, FindEmphasisClose;
    AroundShape(c, k, x, r);
    var t, m := Around(c, k, x, r), k + |x|;
    assert t[k] == x[0] && t[m - 1] == x[|x| - 1] && x[0] in x;
    RunIs(t, 0, k, |t|, c);
    RunIs(t, m, k, |t|, c);
    forall j | k <= j < m ensures t[j] != c { assert t[j] == x[j - k]; }
    if r != "" { assert t[m + k] == r[0]; }
    ClosesAt(u, t, k, k, m, |t|, c, k);
  }

  lemma EmphasisStep(u: Unicode, c: char, k: nat, x: string, r: string)
    requires Emphasised(u, c, k, x, r)
    ensures var t := Around(c, k, x, r);
      Step(u, t, 0, 0, |t|) == (Wrap(c, k, RenderInline(u, x)), 2 * k + |x|)
  {
    hide Around, RunLength, FirstClose, Wrap, RenderInline, RenderFrom;
    AroundShape(c, k, x, r);
    var t, m := Around(c, k, x, r), k + |x|;
    EmphasisCloses(u, c, k, x, r);
    RenderSpanAlone(u, t, k, m);
    assert t[0] == c && t[k] == x[0];
    assert Repeat(c, 0) + Wrap(c, k, RenderInline(u, x)) == Wrap(c, k, RenderInline(u, x));
  }

  lemma EmphasisRenders(u: Unicode, c: char, k: nat, x: string, r: string)
    requires Emphasised(u, c, k, x, r) && Apart(r)
    ensures RenderInline(u, Around(c, k, x, r)) == Wrap(c, k, RenderInline(u, x)) + RenderInline(u, r)
  {
    hide Around, Wrap, RenderInline, Step;
    AroundShape(c, k, x, r);
    EmphasisStep(u, c, k, x, r);
    Peel(u, Around(c, k, x, r), Wrap(c, k, RenderInline(u, x)), 2 * k + |x|);
  }

  lemma Tags(inner: string)
    ensures Wrap('*', 1, inner) == Wrap('_', 1, inner) == "<em>" + inner + "</em>"
    ensures Wrap('*', 2, inner) == Wrap('_', 2, inner) == "<strong>" + inner + "</strong>"
    ensures Wrap('*', 3, inner) == Wrap('_', 3, inner) == "<strong><em>" + inner + "</em></strong>"
    ensures Wrap('~', 2, inner) == "<del>" + inner + "</del>"
  {
    assert Element("em", "", inner) == "<em>" + inner + "</em>";
    assert Element("strong", "", inner) == "<strong>" + inner + "</strong>";
    assert Element("strong", "", Element("em", "", inner)) == "<strong><em>" + inner + "</em></strong>";
    assert Element("del", "", inner) == "<del>" + inner + "</del>";
  }

  /** One, two or three stars or underscores on each side: em, strong, or both. */
  lemma Stars(u: Unicode, c: char, x: string, r: string)
    requires (c == '*' || c == '_') && Emphasised(u, c, 1, x, r) && Apart(r)
    ensures RenderInline(u, [c] + x + [c] + r) == "<em>" + RenderInline(u, x) + "</em>" + RenderInline(u, r)
    ensures RenderInline(u, [c, c] + x + [c, c] + r) == "<strong>" + RenderInline(u, x) + "</strong>" + RenderInline(u, r)
    ensures RenderInline(u, [c, c, c] + x + [c, c, c] + r)
      == "<strong><em>" + RenderInline(u, x) + "</em></strong>" + RenderInline(u, r)
  {
    hide Wrap, RenderInline;
    Tags(RenderInline(u, x));
    EmphasisRenders(u, c, 1, x, r);
    EmphasisRenders(u, c, 2, x, r);
    EmphasisRenders(u, c, 3, x, r);
    assert Repeat(c, 1) == [c] && Repeat(c, 2) == [c, c] && Repeat(c, 3) == [c, c, c];
  }

  /** Two tildes on each side: deleted text. */
  lemma Tildes(u: Unicode, x: string, r: string)
    requires Emphasised(u, '~', 2, x, r) && Apart(r)
    ensures RenderInline(u, "~~" + x + "~~" + r) == "<del>" + RenderInline(u, x) + "</del>" + RenderInline(u, r)
  {
    hide Wrap, RenderInline;
    Tags(RenderInline(u, x));
    EmphasisRenders(u, '~', 2, x, r);
    assert Repeat('~', 2) == "~~";
  }

  /** Delimiters before white space, or with none of their kind after them, stand for themselves. */
  lemma LoneDelimiters(u: Unicode, c: char, n: nat, s: string)
    requires (c == '*' || c == '_' || c == '~') && n > 0 && (s == "" || s[0] != c) && Apart(s)
    requires s == "" || u.space(s[0]) || c !in s
    ensures RenderInline(u, Repeat(c, n) + s) == Repeat(c, n) + RenderInline(u, s)
  {
    hide RunLength, FirstClose, Wrap, RenderInline, RenderFrom;
    var t := Repeat(c, n) + s;
    RunIs(t, 0, n, |t|, c);
    var eff := Min(n, if c == '~' then 2 else 3);
    if s != "" && c !in s {
      forall k | n <= k < |t| ensures t[k] != c { assert t[k] == s[k - n]; }
      NoClose(u, t, n, |t|, c, eff, if c == '~' then 2 else 1);
    }
    assert Repeat(c, n - eff) + Repeat(c, eff) == Repeat(c, n);
    assert Step(u, t, 0, 0, |t|) == (Repeat(c, n), n);
    Peel(u, t, Repeat(c, n), n);
    assert t[n..] == s;
  }

  // ----- code -----

  /** Text that `n` backticks on each side make code, before `r`. */
  ghost predicate Fenced(n: nat, x: string, r: string) {
    && n > 0 && x != "" && x[0] != '`' && x[|x| - 1] != '`' && (r == "" || r[0] != '`')
    && forall m | 0 <= m < |x| :: !RunAt(x, 0, |x|, n, m)
  }

  lemma CodeCloses(n: nat, x: string, r: string)
    requires Fenced(n, x, r)
    ensures var t := Around('`', n, x, r);
      RunLength(t, 0, |t|, '`') == n && FindBacktickClose(t, n, |t|, n) == Some(n + |x|)
  {
    hide Around, RunLength, FindBacktickClose;
    AroundShape('`', n, x, r);
    var t, m := Around('`', n, x, r), n + |x|;
    assert t[n] == x[0] && t[m - 1] == x[|x| - 1];
    if r != "" { assert t[m + n] == r[0]; }
    RunIs(t, 0, n, |t|, '`');
    BacktickCloseIsFirst(t, n, n, |t|, n);
    assert RunAt(t, n, |t|, n, m);
    var k := FindBacktickClose(t, n, |t|, n).value;
    if k < m {
      assert !(k <= m - 1 < k + n);
      InnerRun(t, x, n, k);
      assert false;
    }
  }

  lemma InnerRun(t: string, x: string, n: nat, k: nat)
    requires n + |x| <= |t| && (forall j | 0 <= j < |x| :: t[n + j] == x[j]) && n <= k && k + n <= n + |x|
    requires RunAt(t, n, |t|, n, k)
    ensures RunAt(x, 0, |x|, n, k - n)
  {
    forall j | k - n <= j < k ensures x[j] == '`' { assert t[n + j] == '`'; }
    if k > n { assert t[k - 1] == x[k - 1 - n]; }
    if k < |x| { assert t[k + n] == x[k]; }
  }

  /** Backticks: code, escaped and otherwise untouched. */
  lemma Backticks(u: Unicode, n: nat, x: string, r: string)
    requires Fenced(n, x, r) && Apart(r)
    ensures RenderInline(u, Repeat('`', n) + x + Repeat('`', n) + r)
      == "<code>" + EscapeHtml(CodeText(x)) + "</code>" + RenderInline(u, r)
  {
    hide RunLength, FindBacktickClose, EscapeHtml, CodeText, RenderInline, RenderFrom;
    AroundShape('`', n, x, r);
    var t := Around('`', n, x, r);
    CodeCloses(n, x, r);
    var o := Element("code", "", EscapeHtml(CodeText(x)));
    assert t[0] == '`';
    assert o == "<code>" + EscapeHtml(CodeText(x)) + "</code>";
    assert Step(u, t, 0, 0, |t|) == (o, 2 * n + |x|);
    Peel(u, t, o, 2 * n + |x|);
  }

  /** One space on each side of code is dropped, unless there is nothing but spaces. */
  lemma CodeSpaces(y: string, k: nat)
    requires k < |y| && y[k] != ' '
    ensures CodeText(" " + y + " ") == y
    ensures (y[0] != ' ' || y[|y| - 1] != ' ') ==> CodeText(y) == y
  {
    var code := " " + y + " ";
    assert code[k + 1] != ' ' && code[1..|code| - 1] == y;
  }

  // ----- links and images -----

  lemma {:induction false} MatchesAt(text: string, i: nat, m: nat, end: nat, open: char, close: char)
    requires i <= m < end <= |text| && text[m] == close && open != close && close != '\\'
    requires forall k | i <= k < m :: text[k] != open && text[k] != close && text[k] != '\\'
    ensures FindMatching(text, i, end, 1, open, close) == Some(m)
    decreases m - i
  {
    if i < m { MatchesAt(text, i + 1, m, end, open, close); }
  }

  /** A caption: no brackets and no backslashes. */
  predicate Caption(t: string) {
    '[' !in t && ']' !in t && '\\' !in t
  }

  /** A destination with its title, as written: no parentheses and no backslashes. */
  predicate Destination(d: string) {
    '(' !in d && ')' !in d && '\\' !in d
  }

  function Linked(t: string, d: string, r: string): string {
    "[" + t + "](" + d + ")" + r
  }

  lemma LinkedShape(t: string, d: string, r: string)
    ensures var s := Linked(t, d, r); var m := 1 + |t|; var n := m + 2 + |d|;
      && |s| == n + 1 + |r| && s[0] == '[' && s[m] == ']' && s[m + 1] == '(' && s[n] == ')'
      && s[1..m] == t && s[m + 2..n] == d && s[n + 1..] == r
      && (forall k | 0 <= k < |t| :: s[1 + k] == t[k]) && (forall k | 0 <= k < |d| :: s[m + 2 + k] == d[k])
  {
  }

  /** The scanners find the two ends of a link. */
  lemma LinkFound(t: string, d: string, r: string)
    requires Caption(t) && Destination(d)
    ensures var s := Linked(t, d, r); var m := 1 + |t|;
      && FindMatching(s, 0, |s|, 0, '[', ']') == Some(m)
      && FindMatching(s, m + 2, |s|, 1, '(', ')') == Some(m + 2 + |d|)
  {
    hide Linked;
    LinkedShape(t, d, r);
    var s, m := Linked(t, d, r), 1 + |t|;
    var n := m + 2 + |d|;
    forall k | 1 <= k < m ensures s[k] != '[' && s[k] != ']' && s[k] != '\\' { assert s[k] == t[k - 1]; }
    MatchesAt(s, 1, m, |s|, '[', ']');
    forall k | m + 2 <= k < n ensures s[k] != '(' && s[k] != ')' && s[k] != '\\' { assert s[k] == d[k - m - 2]; }
    MatchesAt(s, m + 2, n, |s|, '(', ')');
  }

  lemma TryLinkIs(u: Unicode, t: string, d: string, r: string, isImage: bool)
    requires Caption(t) && Destination(d)
    ensures var s := Linked(t, d, r); var (url, title) := SplitDestTitle(u, Trim(u, d));
      && s != "" && s[0] == '['
      && TryLink(u, s, 0, |s|, isImage) ==
         Some((if isImage then Image(url, title, StripTags(RenderInline(u, t), false)) else Link(url, title, RenderInline(u, t)),
               |t| + |d| + 4))
  {
    hide Linked, FindMatching, SplitDestTitle, Trim, Image, Link, StripTags;
    LinkFound(t, d, r);
    LinkedShape(t, d, r);
  }

  /** A link in general: its caption rendered inside an anchor. */
  lemma LinkRenders(u: Unicode, t: string, d: string, r: string)
    requires Caption(t) && Destination(d) && Apart(r)
    ensures var (url, title) := SplitDestTitle(u, Trim(u, d));
      RenderInline(u, Linked(t, d, r)) == Link(url, title, RenderInline(u, t)) + RenderInline(u, r)
  {
    hide Linked, SplitDestTitle, Trim, Link, TryLink, RenderInline;
    var s := Linked(t, d, r);
    TryLinkIs(u, t, d, r, false);
    LinkedShape(t, d, r);
    var (url, title) := SplitDestTitle(u, Trim(u, d));
    var o := Link(url, title, RenderInline(u, t));
    assert Step(u, s, 0, 0, |s|) == (o, |t| + |d| + 4);
    Peel(u, s, o, |t| + |d| + 4);
  }

  /** And an image, with the tags of its caption stripped for the alternative text. */
  lemma ImageRenders(u: Unicode, t: string, d: string, r: string)
    requires Caption(t) && Destination(d) && Apart(r)
    ensures var (url, title) := SplitDestTitle(u, Trim(u, d));
      RenderInline(u, "!" + Linked(t, d, r))
        == Image(url, title, StripTags(RenderInline(u, t), false)) + RenderInline(u, r)
  {
    hide Linked, SplitDestTitle, Trim, Image, TryLink, RenderInline, StripTags, Step;
    TryLinkIs(u, t, d, r, true);
    var (url, title) := SplitDestTitle(u, Trim(u, d));
    var l, o, k := Linked(t, d, r), Image(url, title, StripTags(RenderInline(u, t), false)), |t| + |d| + 4;
    BangStep(u, l, o, k);
    LinkedShape(t, d, r);
    assert ("!" + l)[k + 1..] == l[k..];
    Peel(u, "!" + l, o, k + 1);
  }

  lemma BangStep(u: Unicode, l: string, o: string, k: nat)
    requires l != "" && l[0] == '[' && TryLink(u, l, 0, |l|, true) == Some((o, k))
    ensures var s := "!" + l; Step(u, s, 0, 0, |s|) == (o, k + 1)
  {
    hide TryLink;
    var s := "!" + l;
    assert Part(s, l, 1);
    LinkShift(u, s, l, 1, 0, |l|, true);
    assert s[0] == '!' && s[1] == '[' && |s| == 1 + |l|;
  }

  // ----- destinations -----

  /** No white space at either end. */
  predicate Trimmed(u: Unicode, s: string) {
    s == "" || (!u.space(s[0]) && !u.space(s[|s| - 1]))
  }

  lemma TrimKeeps(u: Unicode, s: string)
    requires Trimmed(u, s)
    ensures Trim(u, s) == s
  {
    if s != "" {
      assert SkipWhile(s, 0, |s|, u.space) == 0;
      assert s[0..] == s;
    }
  }

  predicate NoQuotes(s: string) {
    '"' !in s && '\'' !in s
  }

  lemma {:induction false} SkipsTo(s: string, i: nat, m: nat, end: nat, p: char -> bool)
    requires i <= m <= end <= |s| && (forall k | i <= k < m :: p(s[k])) && (m == end || !p(s[m]))
    ensures SkipWhile(s, i, end, p) == m
    decreases m - i
  {
    if i < m { SkipsTo(s, i + 1, m, end, p); }
  }

  /** A bare address. */
  lemma BareAddress(u: Unicode, url: string)
    requires Trimmed(u, url) && NoQuotes(url) && !(|url| >= 2 && url[0] == '<' && url[|url| - 1] == '>')
    ensures SplitDestTitle(u, Trim(u, url)) == (url, None)
  {
    hide Trim, SkipWhile;
    TrimKeeps(u, url);
    SkipsTo(url, 0, |url|, |url|, NotQuote);
  }

  /** An address in angle brackets. */
  lemma BracketedAddress(u: Unicode, url: string)
    requires NoQuotes(url) && !u.space('<') && !u.space('>')
    ensures SplitDestTitle(u, Trim(u, "<" + url + ">")) == (url, None)
  {
    hide Trim, SkipWhile;
    var d := "<" + url + ">";
    TrimKeeps(u, d);
    assert d[1..|d| - 1] == url;
    SkipsTo(url, 0, |url|, |url|, NotQuote);
  }

  lemma {:induction false} LastIs(s: string, c: char, k: nat)
    requires k < |s| && s[k] == c && c !in s[k + 1..]
    ensures LastIndexOf(s, c) == Some(k)
    decreases |s|
  {
    if k < |s| - 1 {
      var t := s[..|s| - 1];
      assert s[|s| - 1] == s[k + 1..][|s| - k - 2];
      assert t[k + 1..] == s[k + 1..][..|s| - k - 2];
      LastIs(t, c, k);
    }
  }

  /** An address and a title in quotes of either kind. */
  lemma TitledAddress(u: Unicode, url: string, q: char, title: string)
    requires url != "" && Trimmed(u, url) && NoQuotes(url) && url[0] != '<' && (q == '"' || q == '\'')
    requires u.space(' ') && !u.space(q)
    ensures SplitDestTitle(u, Trim(u, url + " " + [q] + title + [q])) == (url, Some(title))
  {
    hide SkipWhile, LastIndexOf;
    var d := url + " " + [q] + title + [q];
    TrimKeeps(u, d);
    var k := |url| + 1;
    assert d[k] == q && (forall j | 0 <= j < |url| :: d[j] == url[j]) && d[|url|] == ' ';
    forall j | 0 <= j < k ensures NotQuote(d[j]) { if j < |url| { assert d[j] in url; } }
    SkipsTo(d, 0, k, |d|, NotQuote);
    var rest := d[k + 1..];
    assert rest == title + [q] && rest[|title| + 1..] == "";
    LastIs(rest, q, |title|);
    assert rest[..|title|] == title;
    assert d[..k] == url + " ";
    TrimSpace(u, url);
  }

  lemma TrimSpace(u: Unicode, s: string)
    requires s != "" && Trimmed(u, s) && u.space(' ')
    ensures Trim(u, s + " ") == s
  {
    var t := s + " ";
    assert SkipWhile(t, 0, |t|, u.space) == 0;
    assert t[0..] == t && t[..|t| - 1] == s;
    assert TrimEnd(t, u.space) == TrimEnd(s, u.space);
  }

  /** `[t](url)`: an anchor to the address around the caption. */
  lemma SimpleLink(u: Unicode, t: string, url: string, r: string)
    requires Caption(t) && Destination(url) && Trimmed(u, url) && NoQuotes(url) && Apart(r)
    requires !(|url| >= 2 && url[0] == '<' && url[|url| - 1] == '>')
    ensures RenderInline(u, "[" + t + "](" + url + ")" + r)
      == "<a href=\"" + EscapeAttr(url) + "\">" + RenderInline(u, t) + "</a>" + RenderInline(u, r)
  {
    hide RenderInline, EscapeAttr, SplitDestTitle, Trim;
    LinkRenders(u, t, url, r);
    BareAddress(u, url);
    LinkTags(url, RenderInline(u, t));
  }

  lemma LinkTags(url: string, text: string)
    ensures Link(url, None, text) == "<a href=\"" + EscapeAttr(url) + "\">" + text + "</a>"
  {
    hide EscapeAttr;
    var e := EscapeAttr(url);
    assert Attr("href", e) + "" == " href=\"" + e + "\"";
    assert "<" + ("a" + (" href=\"" + e + "\"")) + ">" == "<a href=\"" + e + "\">";
  }

  lemma TitledTags(url: string, title: string, text: string)
    ensures Link(url, Some(title), text)
      == "<a href=\"" + EscapeAttr(url) + "\" title=\"" + EscapeAttr(title) + "\">" + text + "</a>"
  {
    hide EscapeAttr;
    TitledAttrs(EscapeAttr(url), EscapeAttr(title));
  }

  lemma TitledAttrs(e: string, f: string)
    ensures Tag("a", Attr("href", e) + Attr("title", f)) == "<a href=\"" + e + "\" title=\"" + f + "\">"
  {
    var head, mid := " href=\"", "\" title=\"";
    assert Attr("href", e) + Attr("title", f) == head + e + mid + f + "\"";
    assert "<" + ("a" + (head + e + mid + f + "\"")) + ">" == "<a href=\"" + e + mid + f + "\">";
  }

  /** `[t](url "title")`: the same with a title. */
  lemma TitledLink(u: Unicode, t: string, url: string, title: string, r: string)
    requires Caption(t) && Destination(url) && Destination(title) && url != "" && Trimmed(u, url) && NoQuotes(url)
    requires url[0] != '<' && u.space(' ') && !u.space('"') && Apart(r)
    ensures RenderInline(u, "[" + t + "](" + (url + " \"" + title + "\"") + ")" + r)
      == "<a href=\"" + EscapeAttr(url) + "\" title=\"" + EscapeAttr(title) + "\">" + RenderInline(u, t) + "</a>" + RenderInline(u, r)
  {
    hide RenderInline, EscapeAttr, SplitDestTitle, Trim;
    var d := url + " \"" + title + "\"";
    assert d == url + " " + ['"'] + title + ['"'];
    LinkRenders(u, t, d, r);
    TitledAddress(u, url, '"', title);
    TitledTags(url, title, RenderInline(u, t));
  }

  lemma ImageTags(url: string, alt: string)
    ensures Image(url, None, alt) == "<img src=\"" + EscapeAttr(url) + "\" alt=\"" + EscapeAttr(alt) + "\">"
  {
    hide EscapeAttr;
    var e, f := EscapeAttr(url), EscapeAttr(alt);
    assert Attr("src", e) + (Attr("alt", f) + "") == " src=\"" + e + "\" alt=\"" + f + "\"";
    assert "<" + ("img" + (" src=\"" + e + "\" alt=\"" + f + "\"")) + ">" == "<img src=\"" + e + "\" alt=\"" + f + "\">";
  }

  lemma {:induction false} StripClean(s: string)
    requires Clean(s)
    ensures StripTags(s, false) == s
    decreases |s|
  {
    if s != "" {
      assert s[0] in s && (forall c :: c in s[1..] ==> c in s);
      StripClean(s[1..]);
    }
  }

  /** `![t](url)`: an image. Its alternative text has been escaped before it is escaped as an attribute, ... */
  lemma SimpleImage(u: Unicode, t: string, url: string, r: string)
    requires Caption(t) && PlainText(t) && Destination(url) && Trimmed(u, url) && NoQuotes(url) && Apart(r)
    requires !(|url| >= 2 && url[0] == '<' && url[|url| - 1] == '>')
    ensures RenderInline(u, "!" + ("[" + t + "](" + url + ")" + r))
      == "<img src=\"" + EscapeAttr(url) + "\" alt=\"" + EscapeAttr(EscapeHtml(t)) + "\">" + RenderInline(u, r)
  {
    hide RenderInline, EscapeAttr, EscapeHtml, SplitDestTitle, Trim, StripTags;
    ImageRenders(u, t, url, r);
    BareAddress(u, url);
    PlainRenders(u, t);
    EscapeHtmlSafe(t);
    StripClean(EscapeHtml(t));
    ImageTags(url, EscapeHtml(t));
  }

  /** ... so it reads as written exactly when it holds no `>`. */
  lemma AltReads(t: string)
    requires PlainText(t)
    ensures Unescape(EscapeAttr(EscapeHtml(t))) == t <==> '>' !in t
  {
    EscapeAttrSafe(EscapeHtml(t));
    EscapeChanges(t);
  }

  lemma {:induction false} EscapeChanges(t: string)
    requires PlainText(t)
    ensures EscapeHtml(t) == t <==> '>' !in t
    ensures |EscapeHtml(t)| >= |t| && ('>' in t ==> |EscapeHtml(t)| > |t|)
    decreases |t|
  {
    if t != "" {
      assert t[0] !in "\\`*_~[<&";
      EscapeChanges(t[1..]);
      assert t == [t[0]] + t[1..];
    }
  }

  // ----- angle brackets and entities -----

  lemma AngleInner(inner: string, r: string)
    requires '>' !in inner
    ensures var s := "<" + inner + ">" + r; var k := 1 + |inner|;
      SkipWhile(s, 1, |s|, NotAngle) == k < |s| && s[1..k] == inner && s[k + 1..] == r && s[0] == '<'
  {
    var s := "<" + inner + ">" + r;
    forall j | 1 <= j < 1 + |inner| ensures NotAngle(s[j]) { assert s[j] == inner[j - 1]; }
    SkipsTo(s, 1, 1 + |inner|, |s|, NotAngle);
  }

  lemma {:induction false} FindsSub(s: string, sub: string, i: nat, k: nat)
    requires i <= k <= |s| && sub <= s[k..] && forall j | i <= j < k :: !(sub <= s[j..])
    ensures FindSub(s, sub, i) == Some(k)
    decreases k - i
  {
    if i < k { FindsSub(s, sub, i + 1, k); }
  }

  lemma {:induction false} FindsNoSub(s: string, sub: string, i: nat)
    requires forall j | i <= j <= |s| :: !(sub <= s[j..])
    ensures FindSub(s, sub, i) == None
    decreases |s| + 1 - i
  {
    if i <= |s| { FindsNoSub(s, sub, i + 1); }
  }

  predicate SchemeChar(c: char) {
    AsciiAlnum(c) || c in "+.-"
  }

  lemma SchemeFound(scheme: string, rest: string)
    requires scheme != "" && forall k | 0 <= k < |scheme| :: SchemeChar(scheme[k])
    ensures IsUrl(scheme + "://" + rest)
  {
    hide FindSub;
    var s := scheme + "://" + rest;
    forall j | 0 <= j < |scheme| ensures !("://" <= s[j..]) { assert s[j..][0] == scheme[j]; }
    assert s[|scheme|..] == "://" + rest;
    FindsSub(s, "://", 0, |scheme|);
    forall j | 0 <= j < |scheme| ensures AsciiAlnum(s[j]) || s[j] in "+.-" { assert s[j] == scheme[j]; }
  }

  ghost predicate NoSpace(u: Unicode, s: string) {
    forall k | 0 <= k < |s| :: !u.space(s[k])
  }

  /** `<scheme://...>`: a link to the address it shows. */
  lemma AutoLink(u: Unicode, scheme: string, rest: string, r: string)
    requires scheme != "" && (forall k | 0 <= k < |scheme| :: SchemeChar(scheme[k]))
    requires var url := scheme + "://" + rest; NoSpace(u, url) && '>' !in url
    requires Apart(r)
    ensures var url := scheme + "://" + rest;
      RenderInline(u, "<" + url + ">" + r)
        == "<a href=\"" + EscapeAttr(url) + "\">" + EscapeHtml(url) + "</a>" + RenderInline(u, r)
  {
    hide RenderInline, EscapeAttr, EscapeHtml, IsUrl, SkipWhile, Link, IsInlineTag, FindSub;
    var url := scheme + "://" + rest;
    var s := "<" + url + ">" + r;
    AngleInner(url, r);
    SchemeFound(scheme, rest);
    LinkTags(url, EscapeHtml(url));
    var o := Link(url, None, EscapeHtml(url));
    assert Step(u, s, 0, 0, |s|) == (o, |url| + 2);
    Peel(u, s, o, |url| + 2);
  }

  lemma NoSlashes(s: string)
    requires '/' !in s
    ensures FindSub(s, "//", 0).None? && FindSub(s, "://", 0).None?
  {
    hide FindSub;
    forall j | 0 <= j <= |s| ensures !("//" <= s[j..]) && !("://" <= s[j..]) {
      var t := s[j..];
      assert forall k | 0 <= k < |t| :: t[k] == s[j + k];
      assert "//"[0] == '/' && "://"[1] == '/';
    }
    FindsNoSub(s, "//", 0);
    FindsNoSub(s, "://", 0);
  }

  lemma MailTags(e: string, text: string)
    ensures Element("a", Attr("href", "mailto:" + e), text) == "<a href=\"mailto:" + e + "\">" + text + "</a>"
  {
    assert Attr("href", "mailto:" + e) == " href=\"mailto:" + e + "\"";
    assert "<" + ("a" + (" href=\"mailto:" + e + "\"")) + ">" == "<a href=\"mailto:" + e + "\">";
  }

  /** `<user@host>`: a mail address. */
  lemma MailLink(u: Unicode, addr: string, r: string)
    requires '@' in addr && '/' !in addr && NoSpace(u, addr) && '>' !in addr && Apart(r)
    ensures RenderInline(u, "<" + addr + ">" + r)
      == "<a href=\"mailto:" + EscapeAttr(addr) + "\">" + EscapeHtml(addr) + "</a>" + RenderInline(u, r)
  {
    hide RenderInline, EscapeAttr, EscapeHtml, SkipWhile, IsInlineTag, FindSub;
    var s := "<" + addr + ">" + r;
    AngleInner(addr, r);
    NoSlashes(addr);
    MailTags(EscapeAttr(addr), EscapeHtml(addr));
    var o := Element("a", Attr("href", "mailto:" + EscapeAttr(addr)), EscapeHtml(addr));
    assert Step(u, s, 0, 0, |s|) == (o, |addr| + 2);
    Peel(u, s, o, |addr| + 2);
  }

  /** A `<` that nothing closes is escaped. */
  lemma LoneAngle(u: Unicode, r: string)
    requires '>' !in r && Apart(r)
    ensures RenderInline(u, "<" + r) == "&lt;" + RenderInline(u, r)
  {
    hide RenderInline, SkipWhile;
    var s := "<" + r;
    forall j | 1 <= j < |s| ensures NotAngle(s[j]) { assert s[j] == r[j - 1]; }
    SkipsTo(s, 1, |s|, |s|, NotAngle);
    assert Step(u, s, 0, 0, |s|) == ("&lt;", 1);
    Peel(u, s, "&lt;", 1);
    assert s[1..] == r;
  }

  /** An entity is left as it is, ... */
  lemma Entity(u: Unicode, name: string, r: string)
    requires name != "" && (forall k | 0 <= k < |name| :: AsciiAlnum(name[k])) && Apart(r)
    ensures RenderInline(u, "&" + name + ";" + r) == "&" + name + ";" + RenderInline(u, r)
  {
    hide RenderInline, SkipWhile;
    var s := "&" + name + ";" + r;
    var k := 1 + |name|;
    assert s[k] == ';' && s[1] == name[0];
    forall j | 1 <= j < k ensures AsciiAlnum(s[j]) { assert s[j] == name[j - 1]; }
    SkipsTo(s, 1, k, |s|, AsciiAlnum);
    assert s[0..k + 1] == "&" + name + ";";
    assert Step(u, s, 0, 0, |s|) == ("&" + name + ";", k + 1);
    Peel(u, s, "&" + name + ";", k + 1);
    assert s[k + 1..] == r;
  }

  /** ... and any other ampersand is escaped. */
  lemma LoneAmp(u: Unicode, r: string)
    requires (r == "" || (!AsciiAlnum(r[0]) && r[0] != '#')) && Apart(r)
    ensures RenderInline(u, "&" + r) == "&amp;" + RenderInline(u, r)
  {
    hide RenderInline, SkipWhile;
    var s := "&" + r;
    SkipsTo(s, 1, 1, |s|, AsciiAlnum);
    assert Step(u, s, 0, 0, |s|) == ("&amp;", 1);
    Peel(u, s, "&amp;", 1);
    assert s[1..] == r;
  }
}
