/** What a reader sees of rendered inline text: the output with its tags stripped and its entities decoded is the
    source with its markup taken away, in order, through all nesting. */
module MarkdownText {
  import opened Common
  import opened MarkdownHtml
  import opened MarkdownInline

  // ----- the text of a fragment of HTML -----

  function TextOf(html: string): (t: string)
    decreases |html|
  {
    if html == "" then ""
    else if html[0] == '<' then
      var k := IndexOf(html, '>', 1);
      if k == |html| then "" else TextOf(html[k + 1..])
    else if "&amp;" <= html then "&" + TextOf(html[5..])
    else if "&lt;" <= html then "<" + TextOf(html[4..])
    else if "&gt;" <= html then ">" + TextOf(html[4..])
    else if "&quot;" <= html then "\"" + TextOf(html[6..])
    else [html[0]] + TextOf(html[1..])
  }

  /** Wherever `p` stands, it shows `t`. */
  ghost predicate Shows(p: string, t: string) {
    forall rest: string :: TextOf(p + rest) == t + TextOf(rest)
  }

  lemma ShowsText(p: string, t: string)
    requires Shows(p, t)
    ensures TextOf(p) == t
  {
    assert p + "" == p && TextOf("") == "" && t + "" == t;
    assert TextOf(p + "") == t + TextOf("");
  }

  lemma ShowsNothing()
    ensures Shows("", "")
  {
    forall rest: string ensures TextOf("" + rest) == "" + TextOf(rest) {
      assert "" + rest == rest && "" + TextOf(rest) == TextOf(rest);
    }
  }

  lemma ShowsCat(p: string, a: string, q: string, b: string)
    requires Shows(p, a) && Shows(q, b)
    ensures Shows(p + q, a + b)
  {
    forall rest: string ensures TextOf((p + q) + rest) == (a + b) + TextOf(rest) {
      ShowsBoth(p, a, q, b, rest);
    }
  }

  lemma ShowsBoth(p: string, a: string, q: string, b: string, rest: string)
    requires Shows(p, a) && Shows(q, b)
    ensures TextOf((p + q) + rest) == (a + b) + TextOf(rest)
  {
    hide TextOf;
    Assoc(p, q, rest);
    Assoc(a, b, TextOf(rest));
    assert TextOf(p + (q + rest)) == a + TextOf(q + rest);
    assert TextOf(q + rest) == b + TextOf(rest);
  }

  lemma Assoc(a: string, b: string, c: string)
    ensures (a + b) + c == a + (b + c)
  {
  }

  lemma ShowsChar(c: char)
    requires c != '<' && c != '&'
    ensures Shows([c], [c])
  {
    forall rest: string ensures TextOf([c] + rest) == [c] + TextOf(rest) {
      var s := [c] + rest;
      assert s[0] == c && s[1..] == rest;
    }
  }

  lemma ShowsEscaped(c: char)
    ensures Shows(Escaped(c), [c])
  {
    if c == '&' || c == '<' || c == '>' {
      var e := Escaped(c);
      forall rest: string ensures TextOf(e + rest) == [c] + TextOf(rest) {
        var s := e + rest;
        assert s[|e|..] == rest && e <= s;
        assert s[0] == '&' && s[1] == e[1];
      }
    } else {
      ShowsChar(c);
    }
  }

  lemma {:induction false} ShowsEscape(s: string)
    ensures Shows(EscapeHtml(s), s)
    decreases |s|
  {
    hide Shows, Escaped;
    if s == "" {
      ShowsNothing();
    } else {
      ShowsEscaped(s[0]);
      ShowsEscape(s[1..]);
      ShowsCat(Escaped(s[0]), [s[0]], EscapeHtml(s[1..]), s[1..]);
      assert [s[0]] + s[1..] == s;
    }
  }

  lemma {:induction false} ShowsPlain(s: string)
    requires '<' !in s && '&' !in s
    ensures Shows(s, s)
    decreases |s|
  {
    hide Shows;
    if s == "" {
      ShowsNothing();
    } else {
      assert s[0] in s && (forall c :: c in s[1..] ==> c in s);
      ShowsChar(s[0]);
      ShowsPlain(s[1..]);
      ShowsCat([s[0]], [s[0]], s[1..], s[1..]);
      assert [s[0]] + s[1..] == s;
    }
  }

  lemma ShowsTag(tag: string)
    requires '>' !in tag
    ensures Shows("<" + tag + ">", "")
  {
    forall rest: string ensures TextOf("<" + tag + ">" + rest) == "" + TextOf(rest) {
      var s := "<" + tag + ">" + rest;
      TagEnd(tag, rest);
      assert s[0] == '<' && s[|tag| + 2..] == rest && "" + TextOf(rest) == TextOf(rest);
    }
  }

  lemma ShowsElement(name: string, attrs: string, inner: string, t: string)
    requires Clean(name) && Clean(attrs) && Shows(inner, t)
    ensures Shows(Element(name, attrs, inner), t)
  {
    hide Shows;
    ShowsTag(name + attrs);
    ShowsTag("/" + name);
    ShowsCat(Tag(name, attrs), "", inner, t);
    assert "" + t == t && t + "" == t && "<" + ("/" + name) + ">" == EndTag(name);
    ShowsCat(Tag(name, attrs) + inner, t, EndTag(name), "");
  }

  lemma ShowsWrap(c: char, len: nat, inner: string, t: string)
    requires Shows(inner, t)
    ensures Shows(Wrap(c, len, inner), t)
  {
    hide Shows, Element;
    ShowsElement("del", "", inner, t);
    ShowsElement("em", "", inner, t);
    ShowsElement("strong", "", inner, t);
    ShowsElement("strong", "", Element("em", "", inner), t);
  }

  lemma LinkAttrsClean(url: string, title: Option<string>)
    ensures Clean(Attr("href", EscapeAttr(url)) + TitleAttr(title))
    ensures Clean(Attr("src", EscapeAttr(url))) && Clean(TitleAttr(title))
  {
    hide EscapeAttr;
    EscapeAttrSafe(url);
    if title.Some? { EscapeAttrSafe(title.value); }
  }

  lemma ShowsLink(url: string, title: Option<string>, text: string, t: string)
    requires Shows(text, t)
    ensures Shows(Link(url, title, text), t)
  {
    hide Shows, Element, Attr, EscapeAttr, TitleAttr;
    LinkAttrsClean(url, title);
    ShowsElement("a", Attr("href", EscapeAttr(url)) + TitleAttr(title), text, t);
  }

  lemma ShowsImage(url: string, title: Option<string>, alt: string)
    ensures Shows(Image(url, title, alt), "")
  {
    hide Shows, EscapeAttr, TitleAttr;
    LinkAttrsClean(url, title);
    EscapeAttrSafe(alt);
    ShowsTag("img" + (Attr("src", EscapeAttr(url)) + (Attr("alt", EscapeAttr(alt)) + TitleAttr(title))));
  }

  // ----- entities -----

  /** What an entity shows: the four that escaping uses are decoded, others are left as they are. */
  function EntityText(e: string): string {
    if e == "&amp;" then "&" else if e == "&lt;" then "<" else if e == "&gt;" then ">" else if e == "&quot;" then "\"" else e
  }

  /** An entity: an ampersand, a name without semicolons, ampersands or brackets, and a semicolon. */
  predicate IsEntity(e: string) {
    && |e| > 2 && e[0] == '&' && e[|e| - 1] == ';'
    && forall k | 0 < k < |e| - 1 :: e[k] != ';' && e[k] != '&' && e[k] != '<'
  }

  lemma EntityPrefix(known: string, e: string, rest: string)
    requires IsEntity(known) && IsEntity(e)
    ensures known <= e + rest <==> known == e
  {
    var s := e + rest;
    if known <= s {
      assert forall k | 0 <= k < |known| :: s[k] == known[k];
      assert s[|known| - 1] == ';' && s[|e| - 1] == ';';
    }
  }

  lemma ShowsEntity(e: string)
    requires IsEntity(e)
    ensures Shows(e, EntityText(e))
  {
    forall rest: string ensures TextOf(e + rest) == EntityText(e) + TextOf(rest) {
      EntityShown(e, rest);
    }
  }

  lemma EntityShown(e: string, rest: string)
    requires IsEntity(e)
    ensures TextOf(e + rest) == EntityText(e) + TextOf(rest)
  {
    hide IsEntity;
    var s := e + rest;
    Known();
    EntityPrefix("&amp;", e, rest);
    EntityPrefix("&lt;", e, rest);
    EntityPrefix("&gt;", e, rest);
    EntityPrefix("&quot;", e, rest);
    EntityTail(e);
    if e != "&amp;" && e != "&lt;" && e != "&gt;" && e != "&quot;" {
      OtherEntity(e, rest);
    } else {
      assert s[|e|..] == rest && s[0] == '&';
    }
  }

  lemma OtherEntity(e: string, rest: string)
    requires e != "" && e[0] == '&' && '<' !in e[1..] && '&' !in e[1..]
    requires var s := e + rest; !("&amp;" <= s) && !("&lt;" <= s) && !("&gt;" <= s) && !("&quot;" <= s)
    ensures TextOf(e + rest) == e + TextOf(rest)
  {
    hide TextOf;
    var s, t := e + rest, e[1..];
    ShowsPlain(t);
    assert s[1..] == t + rest && [s[0]] + t == e;
    TextOfOther(s);
    assert TextOf(t + rest) == t + TextOf(rest);
    Assoc([s[0]], t, TextOf(rest));
  }

  lemma TextOfOther(s: string)
    requires s != "" && s[0] != '<' && !("&amp;" <= s) && !("&lt;" <= s) && !("&gt;" <= s) && !("&quot;" <= s)
    ensures TextOf(s) == [s[0]] + TextOf(s[1..])
  {
  }

  lemma Known()
    ensures IsEntity("&amp;") && IsEntity("&lt;") && IsEntity("&gt;") && IsEntity("&quot;")
  {
  }

  lemma EntityTail(e: string)
    requires IsEntity(e)
    ensures e != "" && e[0] == '&' && '<' !in e[1..] && '&' !in e[1..]
  {
    var t := e[1..];
    forall k | 0 <= k < |t| ensures t[k] != '<' && t[k] != '&' { assert t[k] == e[k + 1]; }
  }

  // ----- what the source shows -----

  /** The text the renderer shows of what starts at `i`, and where it goes on. Markup is dropped, the text it
      encloses is kept; images and raw tags show nothing. */
  function SeenStep(u: Unicode, chars: string, start: nat, i: nat, end: nat): (r: (string, nat))
    requires start <= i < end <= |chars|
    ensures i < r.1 <= end
    decreases end - i, 1
  {
    var c := chars[i];
    if c == '\\' && i + 1 < end && IsEscapable(chars[i + 1]) then ([chars[i + 1]], i + 2)
    else if c == '`' then
      var n := RunLength(chars, i, end, '`');
      match FindBacktickClose(chars, i + n, end, n)
      case Some(close) => (CodeText(chars[i + n..close]), close + n)
      case None => (chars[i..i + n], i + n)
    else if c == '*' || c == '_' || c == '~' then SeenEmphasis(u, chars, start, i, end)
    else if c == '!' && i + 1 < end && chars[i + 1] == '[' && LinkEnds(chars, i + 1, end).Some? then
      ("", LinkEnds(chars, i + 1, end).value.1 + 1)
    else if c == '[' && LinkEnds(chars, i, end).Some? then
      var (bracket, paren) := LinkEnds(chars, i, end).value;
      var caption := chars[i + 1..bracket];
      (SeenFrom(u, caption, 0, 0, |caption|), paren + 1)
    else if c == '<' then SeenAngle(u, chars, i, end)
    else if c == '&' && EntityEnd(chars, i, end).Some? then
      (EntityText(chars[i..EntityEnd(chars, i, end).value]), EntityEnd(chars, i, end).value)
    else ([c], i + 1)
  }

  function SeenFrom(u: Unicode, chars: string, start: nat, i: nat, end: nat): string
    requires start <= i <= end <= |chars|
    decreases end - i, 2
  {
    if i == end then ""
    else
      var (t, next) := SeenStep(u, chars, start, i, end);
      t + SeenFrom(u, chars, start, next, end)
  }

  function SeenEmphasis(u: Unicode, chars: string, start: nat, i: nat, end: nat): (r: (string, nat))
    requires start <= i < end <= |chars|
    ensures i < r.1 <= end
    decreases end - i, 0
  {
    var c := chars[i];
    var n := RunLength(chars, i, end, c);
    var most, least := if c == '~' then 2 else 3, if c == '~' then 2 else 1;
    var word := c == '_' && i > start && u.alnum(chars[i - 1]) && i + n < end && u.alnum(chars[i + n]);
    if word || i + n == end || u.space(chars[i + n]) then (chars[i..i + n], i + n)
    else
      match FirstClose(u, chars, i + n, end, c, Min(n, most), least)
      case Some((len, close)) =>
        // delimiters beyond the third stand for themselves
        (chars[i..i + n - Min(n, most)] + SeenFrom(u, chars, i + n, i + n, close), close + len)
      case None => (chars[i..i + n], i + n)
  }

  /** The bracket and the parenthesis that close a link at `start`. */
  function LinkEnds(chars: string, start: nat, end: nat): (r: Option<(nat, nat)>)
    requires start < end <= |chars| && chars[start] == '['
    ensures r.Some? ==> start < r.value.0 < r.value.1 < end
  {
    match FindMatching(chars, start, end, 0, '[', ']')
    case None => None
    case Some(bracket) =>
      if bracket + 1 >= end || chars[bracket + 1] != '(' then None
      else
        match FindMatching(chars, bracket + 2, end, 1, '(', ')')
        case None => None
        case Some(paren) => Some((bracket, paren))
  }

  /** An address in angle brackets shows itself, a raw tag nothing, anything else its bracket. */
  function SeenAngle(u: Unicode, chars: string, i: nat, end: nat): (r: (string, nat))
    requires i < end <= |chars|
    ensures i < r.1 <= end
  {
    var close := SkipWhile(chars, i + 1, end, NotAngle);
    if close == end then ([chars[i]], i + 1)
    else
      var inner := chars[i + 1..close];
      var spaced := inner == "" || exists k | 0 <= k < |inner| :: u.space(inner[k]);
      if !spaced && (IsUrl(inner) || ('@' in inner && FindSub(inner, "//", 0).None?)) then (inner, close + 1)
      else if IsInlineTag(inner) then ("", close + 1)
      else ([chars[i]], i + 1)
  }

  // ----- the renderer shows it -----

  lemma AngleShows(u: Unicode, chars: string, i: nat, end: nat)
    requires i < end <= |chars| && chars[i] == '<'
    ensures var (t, next) := SeenAngle(u, chars, i, end);
      match TryAngle(u, chars, i, end)
      case None => t == "<" && next == i + 1
      case Some((html, n)) => n == next && Shows(html, t)
  {
    hide Shows, Link, EscapeAttr, EscapeHtml, IsUrl, FindSub, Element, Attr, IsInlineTag;
    var close := SkipWhile(chars, i + 1, end, NotAngle);
    if close < end {
      var inner := chars[i + 1..close];
      ShowsEscape(inner);
      ShowsLink(inner, None, EscapeHtml(inner), inner);
      ShowsMail(inner);
      ShowsTag(inner);
    }
  }

  lemma ShowsMail(inner: string)
    ensures Shows(Element("a", Attr("href", "mailto:" + EscapeAttr(inner)), EscapeHtml(inner)), inner)
  {
    hide Shows, Element, EscapeAttr, EscapeHtml;
    ShowsEscape(inner);
    EscapeAttrSafe(inner);
    ShowsElement("a", Attr("href", "mailto:" + EscapeAttr(inner)), EscapeHtml(inner), inner);
  }

  lemma {:induction false} LinkShows(u: Unicode, chars: string, start: nat, end: nat, isImage: bool)
    requires start < end <= |chars| && chars[start] == '['
    ensures TryLink(u, chars, start, end, isImage).Some? <==> LinkEnds(chars, start, end).Some?
    ensures var r := TryLink(u, chars, start, end, isImage);
      r.Some? ==>
        var (bracket, paren) := LinkEnds(chars, start, end).value; var caption := chars[start + 1..bracket];
        r.value.1 == paren + 1 && Shows(r.value.0, if isImage then "" else SeenFrom(u, caption, 0, 0, |caption|))
    decreases end - start, 0
  {
    hide Shows, FindMatching, SplitDestTitle, Trim, RenderFrom, SeenFrom, Image, Link, StripTags;
    var ends := LinkEnds(chars, start, end);
    if ends.Some? {
      var (bracket, paren) := ends.value;
      var caption := chars[start + 1..bracket];
      var (url, title) := SplitDestTitle(u, Trim(u, chars[bracket + 2..paren]));
      var text := RenderFrom(u, caption, 0, 0, |caption|);
      if isImage {
        ShowsImage(url, title, StripTags(text, false));
      } else {
        RenderShows(u, caption, 0, 0, |caption|);
        ShowsLink(url, title, text, SeenFrom(u, caption, 0, 0, |caption|));
      }
    }
  }

  lemma RepeatShows(chars: string, i: nat, n: nat, c: char)
    requires i + n <= |chars| && (forall k | i <= k < i + n :: chars[k] == c) && c != '<' && c != '&'
    ensures Repeat(c, n) == chars[i..i + n] && Shows(Repeat(c, n), chars[i..i + n])
  {
    hide Shows;
    assert Repeat(c, n) == chars[i..i + n];
    ShowsPlain(Repeat(c, n));
  }

  lemma {:induction false} EmphasisShows(u: Unicode, chars: string, start: nat, i: nat, end: nat)
    requires start <= i < end <= |chars| && chars[i] in "*_~"
    ensures var (html, n), (t, next) := Emphasis(u, chars, start, i, end), SeenEmphasis(u, chars, start, i, end);
      n == next && Shows(html, t)
    decreases end - i, 0
  {
    hide Shows, Wrap, RenderFrom, SeenFrom, FirstClose, RunLength;
    var c := chars[i];
    var n := RunLength(chars, i, end, c);
    var eff := Min(n, if c == '~' then 2 else 3);
    RepeatShows(chars, i, n, c);
    RepeatShows(chars, i, n - eff, c);
    assert Repeat(c, n - eff) + Repeat(c, eff) == Repeat(c, n);
    var m := FirstClose(u, chars, i + n, end, c, eff, if c == '~' then 2 else 1);
    if m.Some? && n > 0 {
      var html, t := RenderFrom(u, chars, i + n, i + n, m.value.1), SeenFrom(u, chars, i + n, i + n, m.value.1);
      RenderShows(u, chars, i + n, i + n, m.value.1);
      ShowsWrap(c, m.value.0, html, t);
      ShowsCat(Repeat(c, n - eff), chars[i..i + n - eff], Wrap(c, m.value.0, html), t);
    }
  }

  lemma CodeShows(u: Unicode, chars: string, start: nat, i: nat, end: nat)
    requires start <= i < end <= |chars| && chars[i] == '`'
    ensures var (html, n), (t, next) := Step(u, chars, start, i, end), SeenStep(u, chars, start, i, end);
      n == next && Shows(html, t)
  {
    hide Shows, EscapeHtml, CodeText, FindBacktickClose, RunLength, Element;
    var n := RunLength(chars, i, end, '`');
    RepeatShows(chars, i, n, '`');
    var m := FindBacktickClose(chars, i + n, end, n);
    if m.Some? {
      var code := CodeText(chars[i + n..m.value]);
      ShowsEscape(code);
      ShowsElement("code", "", EscapeHtml(code), code);
    }
  }

  lemma EntityShape(chars: string, i: nat, end: nat)
    requires i < end <= |chars| && chars[i] == '&' && EntityEnd(chars, i, end).Some?
    ensures IsEntity(chars[i..EntityEnd(chars, i, end).value])
  {
  }

  lemma {:induction false} StepShows(u: Unicode, chars: string, start: nat, i: nat, end: nat)
    requires start <= i < end <= |chars|
    ensures var (html, n), (t, next) := Step(u, chars, start, i, end), SeenStep(u, chars, start, i, end);
      n == next && Shows(html, t)
    decreases end - i, 1
  {
    hide Shows, Emphasis, SeenEmphasis, TryLink, LinkEnds, TryAngle, SeenAngle, EscapeHtml, CodeText, FindBacktickClose,
      SeenFrom, EntityEnd, EntityText, IsEntity, IsEscapable, RunLength;
    var c := chars[i];
    ShowsEscaped(c);
    if c == '\\' && i + 1 < end && IsEscapable(chars[i + 1]) {
      ShowsEscaped(chars[i + 1]);
    } else if c == '`' {
      CodeShows(u, chars, start, i, end);
    } else if c == '*' || c == '_' || c == '~' {
      EmphasisShows(u, chars, start, i, end);
    } else if c == '!' && i + 1 < end && chars[i + 1] == '[' {
      LinkShows(u, chars, i + 1, end, true);
    } else if c == '[' {
      LinkShows(u, chars, i, end, false);
    } else if c == '<' {
      AngleShows(u, chars, i, end);
    } else if c == '&' && EntityEnd(chars, i, end).Some? {
      EntityShape(chars, i, end);
      ShowsEntity(chars[i..EntityEnd(chars, i, end).value]);
    }
  }

  lemma {:induction false} RenderShows(u: Unicode, chars: string, start: nat, i: nat, end: nat)
    requires start <= i <= end <= |chars|
    ensures Shows(RenderFrom(u, chars, start, i, end), SeenFrom(u, chars, start, i, end))
    decreases end - i, 2
  {
    hide Shows, Step, SeenStep;
    if i == end {
      ShowsNothing();
    } else {
      StepShows(u, chars, start, i, end);
      var (html, next) := Step(u, chars, start, i, end);
      var (t, _) := SeenStep(u, chars, start, i, end);
      RenderShows(u, chars, start, next, end);
      ShowsCat(html, t, RenderFrom(u, chars, start, next, end), SeenFrom(u, chars, start, next, end));
    }
  }

  /** For every text, what a reader sees of its rendering is the text without its markup. */
  lemma RenderedText(u: Unicode, text: string)
    ensures TextOf(RenderInline(u, text)) == SeenFrom(u, text, 0, 0, |text|)
  {
    RenderShows(u, text, 0, 0, |text|);
    ShowsText(RenderInline(u, text), SeenFrom(u, text, 0, 0, |text|));
  }

  // ----- nothing else is lost -----

  /** The characters that are not markup of emphasis, code or escapes, and not spaces. */
  function Letters(s: string): string {
    if s == "" then "" else Letters(s[..|s| - 1]) + if s[|s| - 1] in "\\`*_~ " then "" else [s[|s| - 1]]
  }

  lemma {:induction false} LettersCat(a: string, b: string)
    ensures Letters(a + b) == Letters(a) + Letters(b)
    decreases |b|
  {
    if b == "" {
      assert a + b == a && Letters(a) + "" == Letters(a);
    } else {
      var n := |b| - 1;
      assert (a + b)[..|a + b| - 1] == a + b[..n];
      LettersCat(a, b[..n]);
      var last := if b[n] in "\\`*_~ " then "" else [b[n]];
      assert Letters(a) + (Letters(b[..n]) + last) == Letters(a) + Letters(b[..n]) + last;
    }
  }

  lemma {:induction false} NoLetters(s: string)
    requires forall k | 0 <= k < |s| :: s[k] in "\\`*_~ "
    ensures Letters(s) == ""
    decreases |s|
  {
    if s != "" { NoLetters(s[..|s| - 1]); }
  }

  lemma LettersSplit(chars: string, i: nat, j: nat, k: nat)
    requires i <= j <= k <= |chars|
    ensures Letters(chars[i..k]) == Letters(chars[i..j]) + Letters(chars[j..k])
  {
    assert chars[i..k] == chars[i..j] + chars[j..k];
    LettersCat(chars[i..j], chars[j..k]);
  }

  /** Only emphasis, code and escapes from `i` on. */
  predicate NoLinks(chars: string, i: nat, end: nat)
    requires end <= |chars|
  {
    forall k | i <= k < end :: chars[k] != '[' && chars[k] != '<' && chars[k] != '&'
  }

  lemma CodeTextLetters(code: string)
    ensures Letters(CodeText(code)) == Letters(code)
  {
    var t := CodeText(code);
    if t != code {
      assert code == " " + t + " ";
      LettersCat(" " + t, " ");
      LettersCat(" ", t);
      NoLetters(" ");
    }
  }

  lemma CodeLetters(u: Unicode, chars: string, start: nat, i: nat, end: nat)
    requires start <= i < end <= |chars| && chars[i] == '`'
    ensures var (t, next) := SeenStep(u, chars, start, i, end); Letters(t) == Letters(chars[i..next])
  {
    hide Letters, CodeText, FindBacktickClose, RunLength;
    var n := RunLength(chars, i, end, '`');
    BacktickRun(chars, i + n, end, n);
    var m := FindBacktickClose(chars, i + n, end, n);
    if m.Some? {
      CodeTextLetters(chars[i + n..m.value]);
      LettersSplit(chars, i, i + n, m.value + n);
      LettersSplit(chars, i + n, m.value, m.value + n);
      NoLetters(chars[i..i + n]);
      NoLetters(chars[m.value..m.value + n]);
      assert "" + Letters(chars[i + n..m.value]) + "" == Letters(chars[i + n..m.value]);
    }
  }

  lemma {:induction false} BacktickRun(chars: string, from: nat, end: nat, n: nat)
    requires from <= end <= |chars|
    ensures var r := FindBacktickClose(chars, from, end, n);
      r.Some? ==> forall k | r.value <= k < r.value + n :: chars[k] == '`'
    decreases end - from
  {
    if from < end {
      var run := RunLength(chars, from, end, '`');
      if chars[from] == '`' {
        if run != n && run != 0 { BacktickRun(chars, from + run, end, n); }
      } else {
        BacktickRun(chars, from + 1, end, n);
      }
    }
  }

  lemma {:induction false} CloseRun(u: Unicode, chars: string, from: nat, end: nat, c: char, len: nat, least: nat)
    requires from <= end <= |chars| && least > 0 && (from == end || chars[from] != c)
    ensures var r := FirstClose(u, chars, from, end, c, len, least);
      r.Some? ==> forall k | r.value.1 <= k < r.value.1 + r.value.0 :: chars[k] == c
    decreases len
  {
    hide FindEmphasisClose;
    if len >= least {
      EmphasisCloseIsFirst(u, chars, from, from, end, c, len);
      CloseRun(u, chars, from, end, c, len - 1, least);
    }
  }

  lemma {:induction false} EmphasisLetters(u: Unicode, chars: string, start: nat, i: nat, end: nat)
    requires start <= i < end <= |chars| && chars[i] in "*_~" && NoLinks(chars, i, end)
    ensures var (t, next) := SeenEmphasis(u, chars, start, i, end); Letters(t) == Letters(chars[i..next])
    decreases end - i, 0
  {
    hide Letters, SeenFrom, FirstClose, RunLength;
    var c := chars[i];
    var n := RunLength(chars, i, end, c);
    var eff := Min(n, if c == '~' then 2 else 3);
    var least := if c == '~' then 2 else 1;
    CloseRun(u, chars, i + n, end, c, eff, least);
    var m := FirstClose(u, chars, i + n, end, c, eff, least);
    if m.Some? && n > 0 {
      var (len, close) := m.value;
      SeenLetters(u, chars, i + n, i + n, close);
      LettersSplit(chars, i, i + n, close + len);
      LettersSplit(chars, i + n, close, close + len);
      NoLetters(chars[i..i + n]);
      NoLetters(chars[close..close + len]);
      NoLetters(chars[i..i + n - eff]);
      LettersCat(chars[i..i + n - eff], SeenFrom(u, chars, i + n, i + n, close));
      var inner := Letters(chars[i + n..close]);
      assert "" + inner + "" == inner && "" + inner == inner;
    }
  }

  lemma {:induction false} StepLetters(u: Unicode, chars: string, start: nat, i: nat, end: nat)
    requires start <= i < end <= |chars| && NoLinks(chars, i, end)
    ensures var (t, next) := SeenStep(u, chars, start, i, end); Letters(t) == Letters(chars[i..next])
    decreases end - i, 1
  {
    hide Letters, SeenEmphasis, SeenAngle, CodeText, FindBacktickClose, SeenFrom, IsEscapable;
    var c := chars[i];
    if c == '\\' && i + 1 < end && IsEscapable(chars[i + 1]) {
      LettersSplit(chars, i, i + 1, i + 2);
      NoLetters(chars[i..i + 1]);
      assert chars[i + 1..i + 2] == [chars[i + 1]];
      assert "" + Letters([chars[i + 1]]) == Letters([chars[i + 1]]);
    } else if c == '`' {
      CodeLetters(u, chars, start, i, end);
    } else if c == '*' || c == '_' || c == '~' {
      EmphasisLetters(u, chars, start, i, end);
    } else {
      assert chars[i..i + 1] == [c];
    }
  }

  lemma {:induction false} SeenLetters(u: Unicode, chars: string, start: nat, i: nat, end: nat)
    requires start <= i <= end <= |chars| && NoLinks(chars, i, end)
    ensures Letters(SeenFrom(u, chars, start, i, end)) == Letters(chars[i..end])
    decreases end - i, 2
  {
    hide Letters, SeenStep;
    if i == end {
      assert chars[i..end] == "";
    } else {
      StepLetters(u, chars, start, i, end);
      var (t, next) := SeenStep(u, chars, start, i, end);
      SeenLetters(u, chars, start, next, end);
      LettersCat(t, SeenFrom(u, chars, start, next, end));
      LettersSplit(chars, i, next, end);
    }
  }

  /** In a text without links, tags and entities, no letter is lost, repeated or moved. */
  lemma LettersKept(u: Unicode, text: string)
    requires NoLinks(text, 0, |text|)
    ensures Letters(TextOf(RenderInline(u, text))) == Letters(text)
  {
    hide Letters, SeenFrom, RenderInline;
    RenderedText(u, text);
    SeenLetters(u, text, 0, 0, |text|);
    assert text[0..|text|] == text;
  }
}
