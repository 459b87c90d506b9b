/** Inline rendering yields well-formed HTML, through any nesting of emphasis, code, links and images,
    as long as the text holds no raw tag. */
module MarkdownBalanced {
  import opened Common
  import opened MarkdownHtml
  import opened MarkdownInline

  // ----- no raw tag is reached -----

  /** The `<` at `i` starts a tag that the renderer passes through. */
  predicate RawTagAt(u: Unicode, chars: string, i: nat, end: nat)
    requires i < end <= |chars|
  {
    var close := SkipWhile(chars, i + 1, end, NotAngle);
    close < end &&
    var inner := chars[i + 1..close];
    IsInlineTag(inner) &&
    ((exists k | 0 <= k < |inner| :: u.space(inner[k]))
     || (!IsUrl(inner) && !('@' in inner && FindSub(inner, "//", 0).None?)))
  }

  /** Rendering from `i` on passes no raw tag through. Code spans and the captions of images may hold any:
      the renderer escapes the first and strips the second. */
  ghost predicate TagFree(u: Unicode, chars: string, start: nat, i: nat, end: nat)
    requires start <= i <= end <= |chars|
    decreases end - i, 2
  {
    i < end ==> StepTagFree(u, chars, start, i, end) && TagFree(u, chars, start, Step(u, chars, start, i, end).1, end)
  }

  ghost predicate StepTagFree(u: Unicode, chars: string, start: nat, i: nat, end: nat)
    requires start <= i < end <= |chars|
    decreases end - i, 1
  {
    var c := chars[i];
    if c == '*' || c == '_' || c == '~' then EmphasisTagFree(u, chars, start, i, end)
    else if c == '[' then CaptionTagFree(u, chars, i, end)
    else c == '<' ==> !RawTagAt(u, chars, i, end)
  }

  ghost predicate EmphasisTagFree(u: Unicode, chars: string, start: nat, i: nat, end: nat)
    requires start <= i < end <= |chars|
    decreases end - i, 0
  {
    var c := chars[i];
    var n := RunLength(chars, i, end, c);
    n > 0 ==>
      match FirstClose(u, chars, i + n, end, c, Min(n, if c == '~' then 2 else 3), if c == '~' then 2 else 1)
      case Some((len, close)) => Opens(u, chars, start, i, end) ==> TagFree(u, chars, i + n, i + n, close)
      case None => true
  }

  /** The delimiter run at `i` can open emphasis. */
  predicate Opens(u: Unicode, chars: string, start: nat, i: nat, end: nat)
    requires start <= i < end <= |chars|
  {
    var c := chars[i];
    var n := RunLength(chars, i, end, c);
    && !(c == '_' && i > start && u.alnum(chars[i - 1]) && i + n < end && u.alnum(chars[i + n]))
    && !(i + n >= end || u.space(chars[i + n]))
  }

  ghost predicate CaptionTagFree(u: Unicode, chars: string, start: nat, end: nat)
    requires start < end <= |chars| && chars[start] == '['
    decreases end - start, 0
  {
    match FindMatching(chars, start, end, 0, '[', ']')
    case None => true
    case Some(closeBracket) =>
      var caption := chars[start + 1..closeBracket];
      TryLink(u, chars, start, end, false).Some? ==> TagFree(u, caption, 0, 0, |caption|)
  }

  /** A text in which rendering reaches no raw tag. */
  ghost predicate Tagless(u: Unicode, text: string) {
    TagFree(u, text, 0, 0, |text|)
  }

  // ----- the pieces -----

  lemma EscapedNeutral(c: char)
    ensures Neutral(Escaped(c))
  {
    assert Clean(Escaped(c));
    NeutralClean(Escaped(c));
  }

  lemma RepeatNeutral(c: char, n: nat)
    requires c != '<' && c != '>'
    ensures Neutral(Repeat(c, n))
  {
    NeutralClean(Repeat(c, n));
  }

  /** An element without attributes. */
  lemma PlainElement(name: string, inner: string)
    requires name != "" && name[0] != '/' && Clean(name) && ' ' !in name && !IsVoid(name) && Neutral(inner)
    ensures Neutral(Element(name, "", inner))
  {
    NeutralElement(name, "", inner);
  }

  lemma WrapNeutral(c: char, len: nat, inner: string)
    requires Neutral(inner)
    ensures Neutral(Wrap(c, len, inner))
  {
    hide Neutral, Element;
    if c == '~' {
      PlainElement("del", inner);
    } else if len == 3 {
      PlainElement("em", inner);
      PlainElement("strong", Element("em", "", inner));
    } else if len == 2 {
      PlainElement("strong", inner);
    } else {
      PlainElement("em", inner);
    }
  }

  lemma CodeNeutral(code: string)
    ensures Neutral(Element("code", "", EscapeHtml(code)))
  {
    hide Neutral, Element, EscapeHtml;
    EscapeHtmlSafe(code);
    NeutralClean(EscapeHtml(code));
    PlainElement("code", EscapeHtml(code));
  }

  // ----- links and images -----

  lemma TitleOk(title: Option<string>)
    ensures AttributesOk(TitleAttr(title)) && Clean(TitleAttr(title))
  {
    hide Attr, EscapeAttr;
    if title.Some? {
      var value := EscapeAttr(title.value);
      EscapeAttrSafe(title.value);
      AttributeOk("title", value, "");
      assert Attr("title", value) + "" == Attr("title", value);
    }
  }

  lemma LinkNeutral(url: string, title: Option<string>, text: string)
    requires Neutral(text)
    ensures Neutral(Link(url, title, text))
  {
    hide Neutral, AttributesOk, Attr, EscapeAttr, Element, TitleAttr;
    EscapeAttrSafe(url);
    TitleOk(title);
    AttributeOk("href", EscapeAttr(url), TitleAttr(title));
    NeutralElement("a", Attr("href", EscapeAttr(url)) + TitleAttr(title), text);
  }

  lemma MailNeutral(inner: string)
    ensures Neutral(Element("a", Attr("href", "mailto:" + EscapeAttr(inner)), EscapeHtml(inner)))
  {
    hide Neutral, Attr, EscapeAttr, EscapeHtml, Element;
    EscapeAttrSafe(inner);
    EscapeHtmlSafe(inner);
    NeutralClean(EscapeHtml(inner));
    var href := "mailto:" + EscapeAttr(inner);
    AttributeOk("href", href, "");
    assert Attr("href", href) + "" == Attr("href", href);
    NeutralElement("a", Attr("href", href), EscapeHtml(inner));
  }

  lemma ImageNeutral(url: string, title: Option<string>, alt: string)
    ensures Neutral(Image(url, title, alt))
  {
    hide Neutral, AttributesOk, Attr, EscapeAttr, Tag, TitleAttr;
    EscapeAttrSafe(url);
    EscapeAttrSafe(alt);
    TitleOk(title);
    var tail := Attr("alt", EscapeAttr(alt)) + TitleAttr(title);
    AttributeOk("alt", EscapeAttr(alt), TitleAttr(title));
    AttributeOk("src", EscapeAttr(url), tail);
    NeutralVoid("img", Attr("src", EscapeAttr(url)) + tail);
  }

  lemma AngleNeutral(u: Unicode, chars: string, start: nat, end: nat)
    requires start < end <= |chars| && chars[start] == '<' && !RawTagAt(u, chars, start, end)
    ensures TryAngle(u, chars, start, end).Some? ==> Neutral(TryAngle(u, chars, start, end).value.0)
  {
    hide Neutral, Link, EscapeAttr, EscapeHtml, IsUrl, FindSub, Element, Attr;
    var close := SkipWhile(chars, start + 1, end, NotAngle);
    if close < end {
      var inner := chars[start + 1..close];
      EscapeHtmlSafe(inner);
      NeutralClean(EscapeHtml(inner));
      LinkNeutral(inner, None, EscapeHtml(inner));
      MailNeutral(inner);
    }
  }

  // ----- the renderer -----

  lemma {:induction false} LinkStepNeutral(u: Unicode, chars: string, start: nat, end: nat, isImage: bool)
    requires start < end <= |chars| && chars[start] == '[' && (isImage || CaptionTagFree(u, chars, start, end))
    ensures var r := TryLink(u, chars, start, end, isImage); r.Some? ==> Neutral(r.value.0)
    decreases end - start, 0
  {
    hide Neutral, Link, Image, SplitDestTitle, StripTags, RenderFrom, FindMatching, Trim, TagFree;
    var closeBracket := FindMatching(chars, start, end, 0, '[', ']');
    if closeBracket.Some? && closeBracket.value + 1 < end && chars[closeBracket.value + 1] == '(' {
      var closeParen := FindMatching(chars, closeBracket.value + 2, end, 1, '(', ')');
      if closeParen.Some? {
        var caption := chars[start + 1..closeBracket.value];
        var (url, title) := SplitDestTitle(u, Trim(u, chars[closeBracket.value + 2..closeParen.value]));
        var text := RenderFrom(u, caption, 0, 0, |caption|);
        if isImage {
          ImageNeutral(url, title, StripTags(text, false));
        } else {
          RenderNeutral(u, caption, 0, 0, |caption|);
          LinkNeutral(url, title, text);
        }
      }
    }
  }

  lemma {:induction false} EmphasisNeutral(u: Unicode, chars: string, start: nat, i: nat, end: nat)
    requires start <= i < end <= |chars| && chars[i] in "*_~" && EmphasisTagFree(u, chars, start, i, end)
    ensures Neutral(Emphasis(u, chars, start, i, end).0)
    decreases end - i, 0
  {
    hide Neutral, Wrap, RenderFrom, FirstClose, TagFree;
    var c := chars[i];
    var n := RunLength(chars, i, end, c);
    var eff := Min(n, if c == '~' then 2 else 3);
    RepeatNeutral(c, n);
    RepeatNeutral(c, n - eff);
    RepeatNeutral(c, eff);
    NeutralCat(Repeat(c, n - eff), Repeat(c, eff));
    var m := FirstClose(u, chars, i + n, end, c, eff, if c == '~' then 2 else 1);
    if m.Some? && Opens(u, chars, start, i, end) {
      RenderNeutral(u, chars, i + n, i + n, m.value.1);
      WrapNeutral(c, m.value.0, RenderFrom(u, chars, i + n, i + n, m.value.1));
      NeutralCat(Repeat(c, n - eff), Wrap(c, m.value.0, RenderFrom(u, chars, i + n, i + n, m.value.1)));
    }
  }

  lemma {:induction false} StepNeutral(u: Unicode, chars: string, start: nat, i: nat, end: nat)
    requires start <= i < end <= |chars| && StepTagFree(u, chars, start, i, end)
    ensures Neutral(Step(u, chars, start, i, end).0)
    decreases end - i, 1
  {
    hide Neutral, Emphasis, TryLink, TryAngle, EscapeHtml, CodeText, FindBacktickClose, EmphasisTagFree, CaptionTagFree, RawTagAt;
    var c := chars[i];
    EscapedNeutral(c);
    if c == '\\' && i + 1 < end && IsEscapable(chars[i + 1]) {
      EscapedNeutral(chars[i + 1]);
    } else if c == '`' {
      var n := RunLength(chars, i, end, '`');
      RepeatNeutral('`', n);
      var m := FindBacktickClose(chars, i + n, end, n);
      if m.Some? { CodeNeutral(CodeText(chars[i + n..m.value])); }
    } else if c == '*' || c == '_' || c == '~' {
      EmphasisNeutral(u, chars, start, i, end);
    } else if c == '!' && i + 1 < end && chars[i + 1] == '[' {
      LinkStepNeutral(u, chars, i + 1, end, true);
    } else if c == '[' {
      LinkStepNeutral(u, chars, i, end, false);
    } else if c == '<' {
      AngleNeutral(u, chars, i, end);
    } else if c == '&' {
      var m := EntityEnd(chars, i, end);
      if m.Some? { NeutralClean(chars[i..m.value]); }
    }
  }

  lemma {:induction false} RenderNeutral(u: Unicode, chars: string, start: nat, i: nat, end: nat)
    requires start <= i <= end <= |chars| && TagFree(u, chars, start, i, end)
    ensures Neutral(RenderFrom(u, chars, start, i, end))
    decreases end - i, 2
  {
    hide Neutral, Step, StepTagFree;
    if i == end {
      NeutralClean("");
    } else {
      StepNeutral(u, chars, start, i, end);
      var (o, next) := Step(u, chars, start, i, end);
      RenderNeutral(u, chars, start, next, end);
      NeutralCat(o, RenderFrom(u, chars, start, next, end));
    }
  }

  /** For every text in which rendering reaches no raw tag, it gives properly nested, closed elements with
      quoted attributes and no stray angle bracket. */
  lemma RenderInlineBalanced(u: Unicode, text: string)
    requires Tagless(u, text)
    ensures Balanced(RenderInline(u, text))
  {
    RenderNeutral(u, text, 0, 0, |text|);
    NeutralBalanced(RenderInline(u, text));
  }

  // ----- texts that hold no raw tag -----

  /** The `<` before `k` can start a tag or a comment. */
  predicate TagStart(s: string, k: nat) {
    || (k < |s| && AsciiAlpha(s[k]))
    || (k + 1 < |s| && s[k] == '/' && AsciiAlpha(s[k + 1]))
    || (k + 2 < |s| && s[k] == '!' && s[k + 1] == '-' && s[k + 2] == '-')
  }

  /** No `<` is directly followed by a letter, by `/` and a letter, or by `!--`. */
  ghost predicate Harmless(s: string) {
    forall j | 0 <= j < |s| && s[j] == '<' :: !TagStart(s, j + 1)
  }

  lemma HarmlessSlice(s: string, lo: nat, hi: nat)
    requires Harmless(s) && lo <= hi <= |s|
    ensures Harmless(s[lo..hi])
  {
    var t := s[lo..hi];
    forall j | 0 <= j < |t| && t[j] == '<' ensures !TagStart(t, j + 1) {
      assert s[lo + j] == '<';
    }
  }

  lemma {:induction false} TrimEndPrefix(s: string, p: char -> bool)
    ensures TrimEnd(s, p) <= s
    decreases |s|
  {
    if s != "" && p(s[|s| - 1]) { TrimEndPrefix(s[..|s| - 1], p); }
  }

  lemma HarmlessNotRaw(u: Unicode, chars: string, i: nat, end: nat)
    requires i < end <= |chars| && chars[i] == '<' && Harmless(chars)
    ensures !RawTagAt(u, chars, i, end)
  {
    hide TrimEnd;
    var close := SkipWhile(chars, i + 1, end, NotAngle);
    if close < end {
      var inner := chars[i + 1..close];
      var rest := if inner != "" && inner[0] == '/' then inner[1..] else inner;
      TrimEndPrefix(rest, IsSlash);
      assert !TagStart(chars, i + 1);
    }
  }

  lemma {:induction false} HarmlessEmphasis(u: Unicode, chars: string, start: nat, i: nat, end: nat)
    requires start <= i < end <= |chars| && Harmless(chars)
    ensures EmphasisTagFree(u, chars, start, i, end)
    decreases end - i, 0
  {
    hide Harmless, FirstClose, Opens;
    var c := chars[i];
    var n := RunLength(chars, i, end, c);
    if n > 0 {
      var m := FirstClose(u, chars, i + n, end, c, Min(n, if c == '~' then 2 else 3), if c == '~' then 2 else 1);
      if m.Some? { HarmlessTagFree(u, chars, i + n, i + n, m.value.1); }
    }
  }

  lemma {:induction false} HarmlessCaption(u: Unicode, chars: string, start: nat, end: nat)
    requires start < end <= |chars| && chars[start] == '[' && Harmless(chars)
    ensures CaptionTagFree(u, chars, start, end)
    decreases end - start, 0
  {
    hide Harmless, FindMatching, TryLink;
    var m := FindMatching(chars, start, end, 0, '[', ']');
    if m.Some? {
      HarmlessSlice(chars, start + 1, m.value);
      var caption := chars[start + 1..m.value];
      HarmlessTagFree(u, caption, 0, 0, |caption|);
    }
  }

  /** Rendering a harmless text reaches no raw tag. */
  lemma {:induction false} HarmlessTagFree(u: Unicode, chars: string, start: nat, i: nat, end: nat)
    requires start <= i <= end <= |chars| && Harmless(chars)
    ensures TagFree(u, chars, start, i, end)
    decreases end - i, 2
  {
    hide Step, Harmless, RawTagAt, EmphasisTagFree, CaptionTagFree;
    if i < end {
      var c := chars[i];
      if c == '*' || c == '_' || c == '~' {
        HarmlessEmphasis(u, chars, start, i, end);
      } else if c == '[' {
        HarmlessCaption(u, chars, i, end);
      } else if c == '<' {
        HarmlessNotRaw(u, chars, i, end);
      }
      assert StepTagFree(u, chars, start, i, end);
      HarmlessTagFree(u, chars, start, Step(u, chars, start, i, end).1, end);
    }
  }

  /** A raw tag is passed through, so that text is left unbalanced; inside backticks the same tag is not. */
  lemma RawTagUnbalanced(u: Unicode)
    requires !u.space('b')
    ensures RenderInline(u, "<b>") == "<b>" && !Tagless(u, "<b>") && !Balanced("<b>")
    ensures Tagless(u, "`<b>`")
  {
    var t := "<b>";
    assert SkipWhile(t, 1, 3, NotAngle) == 2;
    assert t[1..2] == "b";
    assert TrimEnd("b", IsSlash) == "b";
    var b := "b";
    assert b[0] == 'b' && AsciiAlnum('b');
    assert b[0] != '/' && (forall k | 0 <= k < |b| :: b[k] == 'b');
    assert IsInlineTag(b);
    assert FindSub("b", "://", 0) == None by { assert FindSub("b", "://", 1) == None; }
    assert RawTagAt(u, t, 0, 3);
    assert TryAngle(u, t, 0, 3) == Some(("<" + "b" + ">", 3));
    assert "<" + "b" + ">" == t;
    assert Step(u, t, 0, 0, 3) == (t, 3);
    assert RenderFrom(u, t, 0, 3, 3) == "";
    assert IndexOf(t, '>', 1) == 2;
    CodeTagless(u);
  }

  lemma CodeTagless(u: Unicode)
    ensures Tagless(u, "`<b>`")
  {
    var t := "`<b>`";
    assert RunLength(t, 0, 5, '`') == 1 && RunLength(t, 4, 5, '`') == 1;
    assert FindBacktickClose(t, 1, 5, 1) == FindBacktickClose(t, 2, 5, 1) == FindBacktickClose(t, 3, 5, 1) == FindBacktickClose(t, 4, 5, 1) == Some(4);
    assert Step(u, t, 0, 0, 5).1 == 5;
    assert TagFree(u, t, 0, 5, 5);
  }
}
