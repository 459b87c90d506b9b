/** Documents that pass no raw HTML through render to well-formed HTML. */
module MarkdownWellFormed {
  import opened Common
  import opened MarkdownHtml
  import opened MarkdownInline
  import opened MarkdownBalanced
  import opened MarkdownBlocks
  import opened MarkdownDocument

  /** Letters and digits are neither angle brackets nor quotes. */
  ghost predicate Sane(u: Unicode) {
    !u.alnum('<') && !u.alnum('>') && !u.alnum('"')
  }

  // ----- blocks that pass nothing through -----

  ghost predicate AllTagless(u: Unicode, texts: seq<string>) {
    forall k | 0 <= k < |texts| :: Tagless(u, texts[k])
  }

  /** The part of a line that is rendered: without trailing spaces and the backslash of a hard break. */
  function Trimmed(line: string): string {
    TrimEnd(TrimEnd(line, IsSpace), IsBackslash)
  }

  ghost predicate LinesTagless(u: Unicode, lines: seq<string>) {
    forall k | 0 <= k < |lines| :: Tagless(u, Trimmed(lines[k]))
  }

  /** Rendering reaches no raw tag in any text of the block, and nothing in it is raw HTML. Code blocks may
      hold anything. */
  ghost predicate TaglessBlock(u: Unicode, b: Block)
    decreases b, 0
  {
    match b
    case Heading(_, text) => Tagless(u, text)
    case Paragraph(text) => LinesTagless(u, SplitOn(text, '\n', 0, ""))
    case Code(_, _) => true
    case Html(_) => false
    case Rule => true
    case Quote(inner) => TaglessBlocks(u, inner)
    case List(_, _, items) => TaglessItems(u, items)
    case Table(head, _, rows) => AllTagless(u, head) && forall k | 0 <= k < |rows| :: AllTagless(u, rows[k])
  }

  ghost predicate TaglessBlocks(u: Unicode, bs: seq<Block>)
    decreases bs, 0
  {
    forall k | 0 <= k < |bs| :: TaglessBlock(u, bs[k])
  }

  ghost predicate TaglessItems(u: Unicode, items: seq<Item>)
    decreases items, 0
  {
    items != [] ==> TaglessBlocks(u, items[0].blocks) && TaglessItems(u, items[1..])
  }

  // ----- rendering such blocks -----

  lemma InlineNeutral(u: Unicode, text: string)
    requires Tagless(u, text)
    ensures Neutral(RenderInline(u, text))
  {
    hide RenderFrom, Neutral, TagFree;
    RenderNeutral(u, text, 0, 0, |text|);
  }

  lemma NewlineNeutral(s: string)
    requires Neutral(s)
    ensures Neutral("\n" + s) && Neutral(s + "\n")
  {
    hide Neutral;
    NeutralClean("\n");
    NeutralCat("\n", s);
    NeutralCat(s, "\n");
  }

  lemma SimpleAttr(key: string, value: string)
    requires Clean(key) && '=' !in key && ' ' !in key && '"' !in key && Clean(value) && '"' !in value
    ensures AttributesOk(Attr(key, value)) && Clean(Attr(key, value))
  {
    hide Attr;
    AttributeOk(key, value, "");
    assert Attr(key, value) + "" == Attr(key, value);
  }

  lemma {:induction false} LinesNeutral(u: Unicode, lines: seq<string>)
    requires LinesTagless(u, lines)
    ensures Neutral(RenderLines(u, lines))
    decreases |lines|
  {
    hide Neutral, RenderInline, TrimEnd, Tag, Tagless;
    if lines == [] {
      NeutralClean("");
    } else {
      assert Tagless(u, Trimmed(lines[0]));
      var out := RenderInline(u, Trimmed(lines[0]));
      InlineNeutral(u, Trimmed(lines[0]));
      LinesNeutral(u, lines[1..]);
      var rest := RenderLines(u, lines[1..]);
      NeutralVoid("br", "");
      NewlineNeutral(Tag("br", ""));
      NeutralCat(Tag("br", "") + "\n", rest);
      NewlineNeutral(rest);
      NeutralCat(out, Tag("br", "") + "\n" + rest);
      NeutralCat(out, "\n" + rest);
    }
  }

  // ----- tables -----

  lemma AlignOk(a: Align)
    ensures AttributesOk(AlignAttr(a)) && Clean(AlignAttr(a))
  {
    hide Attr;
    SimpleAttr("style", "text-align:left");
    SimpleAttr("style", "text-align:center");
    SimpleAttr("style", "text-align:right");
  }

  lemma {:induction false} CellsNeutral(u: Unicode, name: string, cells: seq<string>, align: seq<Align>, k: nat)
    requires AllTagless(u, cells) && (name == "td" || name == "th")
    ensures Neutral(RenderCells(u, name, cells, align, k))
    decreases |cells| - k
  {
    hide Neutral, RenderInline, Element, AlignAttr, Tagless;
    if k >= |cells| {
      NeutralClean("");
    } else {
      var a := if k < |align| then align[k] else NoAlign;
      AlignOk(a);
      InlineNeutral(u, cells[k]);
      NeutralElement(name, AlignAttr(a), RenderInline(u, cells[k]));
      CellsNeutral(u, name, cells, align, k + 1);
      var rest := RenderCells(u, name, cells, align, k + 1);
      NewlineNeutral(rest);
      NeutralCat(Element(name, AlignAttr(a), RenderInline(u, cells[k])), "\n" + rest);
    }
  }

  /** An element without attributes around a newline and something neutral. */
  lemma NlElement(name: string, inner: string)
    requires name != "" && name[0] != '/' && Clean(name) && ' ' !in name && !IsVoid(name) && Neutral(inner)
    ensures Neutral(Element(name, "", "\n" + inner))
  {
    hide Neutral, Element;
    NewlineNeutral(inner);
    PlainElement(name, "\n" + inner);
  }

  lemma {:induction false} RowsNeutral(u: Unicode, rows: seq<seq<string>>, align: seq<Align>)
    requires forall k | 0 <= k < |rows| :: AllTagless(u, rows[k])
    ensures Neutral(RenderRows(u, rows, align))
    decreases |rows|
  {
    hide Neutral, Element, RenderCells;
    if rows == [] {
      NeutralClean("");
    } else {
      CellsNeutral(u, "td", rows[0], align, 0);
      NlElement("tr", RenderCells(u, "td", rows[0], align, 0));
      RowsNeutral(u, rows[1..], align);
      NewlineNeutral(RenderRows(u, rows[1..], align));
      NeutralCat(Element("tr", "", "\n" + RenderCells(u, "td", rows[0], align, 0)), "\n" + RenderRows(u, rows[1..], align));
    }
  }

  lemma TableNeutral(u: Unicode, head: seq<string>, align: seq<Align>, rows: seq<seq<string>>)
    requires AllTagless(u, head) && forall k | 0 <= k < |rows| :: AllTagless(u, rows[k])
    ensures Neutral(RenderTable(u, head, align, rows))
  {
    hide Neutral, Element, RenderCells, RenderRows;
    var cells := RenderCells(u, "th", head, align, 0);
    CellsNeutral(u, "th", head, align, 0);
    NlElement("tr", cells);
    var headRow := Element("tr", "", "\n" + cells);
    NewlineNeutral(headRow);
    NlElement("thead", headRow + "\n");
    RowsNeutral(u, rows, align);
    NlElement("tbody", RenderRows(u, rows, align));
    var body := Element("tbody", "", "\n" + RenderRows(u, rows, align)) + "\n";
    NewlineNeutral(Element("tbody", "", "\n" + RenderRows(u, rows, align)));
    NewlineNeutral(body);
    NeutralCat(Element("thead", "", "\n" + (headRow + "\n")), "\n" + body);
    NlElement("table", Element("thead", "", "\n" + (headRow + "\n")) + ("\n" + body));
  }

  // ----- headings -----

  predicate AttrChars(s: string) {
    Clean(s) && '"' !in s
  }

  lemma {:induction false} SlugCharsOk(u: Unicode, text: string, lastDash: bool)
    requires Sane(u)
    ensures AttrChars(SlugChars(u, text, lastDash))
    decreases |text|
  {
    if text != "" {
      SlugCharsOk(u, text[1..], lastDash);
      SlugCharsOk(u, text[1..], false);
      SlugCharsOk(u, text[1..], true);
    }
  }

  lemma {:induction false} TrimEndAttr(s: string, p: char -> bool)
    requires AttrChars(s)
    ensures AttrChars(TrimEnd(s, p))
    decreases |s|
  {
    if s != "" && p(s[|s| - 1]) { TrimEndAttr(s[..|s| - 1], p); }
  }

  lemma SlugifyOk(u: Unicode, text: string, slugs: Slugs)
    requires Sane(u)
    ensures AttrChars(Slugify(u, text, slugs).0)
  {
    hide SlugChars, TrimEnd;
    SlugCharsOk(u, text, false);
    var s := TrimStart(SlugChars(u, text, false), IsDash);
    TrimEndAttr(s, IsDash);
  }

  lemma HeadingNeutral(u: Unicode, level: nat, id: string, text: string)
    requires Tagless(u, text) && AttrChars(id)
    ensures Neutral(Element("h" + Digits(level), Attr("id", id), RenderInline(u, text)) + "\n")
  {
    hide Neutral, Element, RenderInline, Attr;
    var name := "h" + Digits(level);
    assert name[1] == Digits(level)[0];
    SimpleAttr("id", id);
    InlineNeutral(u, text);
    NeutralElement(name, Attr("id", id), RenderInline(u, text));
    NewlineNeutral(Element(name, Attr("id", id), RenderInline(u, text)));
  }

  lemma CodeBlockNeutral(lang: Option<string>, text: string)
    ensures var attrs := if lang.Some? then Attr("class", "language-" + EscapeAttr(lang.value)) else "";
      Neutral(Element("pre", "", Element("code", attrs, EscapeHtml(text))) + "\n")
  {
    hide Neutral, Element, Attr, EscapeAttr, EscapeHtml;
    var attrs := if lang.Some? then Attr("class", "language-" + EscapeAttr(lang.value)) else "";
    if lang.Some? {
      EscapeAttrSafe(lang.value);
      SimpleAttr("class", "language-" + EscapeAttr(lang.value));
    }
    EscapeHtmlSafe(text);
    NeutralClean(EscapeHtml(text));
    NeutralElement("code", attrs, EscapeHtml(text));
    PlainElement("pre", Element("code", attrs, EscapeHtml(text)));
    NewlineNeutral(Element("pre", "", Element("code", attrs, EscapeHtml(text))));
  }

  // ----- the tree -----

  lemma ListNeutral(ordered: bool, start: nat, s: string)
    requires Neutral(s)
    ensures var attrs := if ordered && start != 1 then Attr("start", Digits(start)) else "";
      Neutral(Element(if ordered then "ol" else "ul", attrs, "\n" + s) + "\n")
  {
    hide Neutral, Element, Attr;
    var attrs := if ordered && start != 1 then Attr("start", Digits(start)) else "";
    SimpleAttr("start", Digits(start));
    NewlineNeutral(s);
    var name := if ordered then "ol" else "ul";
    NeutralElement(name, attrs, "\n" + s);
    NewlineNeutral(Element(name, attrs, "\n" + s));
  }

  lemma {:induction false} BlockNeutral(u: Unicode, b: Block, slugs: Slugs)
    requires Sane(u) && TaglessBlock(u, b)
    ensures Neutral(RenderBlock(u, b, slugs).0)
    decreases b, 0
  {
    hide Neutral, Element, Attr, Tag, RenderInline, RenderLines, SplitOn, RenderTable, Slugify, EscapeHtml, EscapeAttr, Digits;
    match b
    case Heading(level, text) =>
      SlugifyOk(u, text, slugs);
      HeadingNeutral(u, level, Slugify(u, text, slugs).0, text);
    case Paragraph(text) =>
      var lines := RenderLines(u, SplitOn(text, '\n', 0, ""));
      LinesNeutral(u, SplitOn(text, '\n', 0, ""));
      PlainElement("p", lines);
      NewlineNeutral(Element("p", "", lines));
    case Code(lang, text) => CodeBlockNeutral(lang, text);
    case Rule =>
      NeutralVoid("hr", "");
      NewlineNeutral(Tag("hr", ""));
    case Quote(inner) =>
      BlocksNeutral(u, inner, slugs);
      var s := RenderBlocks(u, inner, slugs).0;
      NlElement("blockquote", s);
      NewlineNeutral(Element("blockquote", "", "\n" + s));
    case List(ordered, start, items) =>
      ItemsNeutral(u, items, slugs);
      ListNeutral(ordered, start, RenderItems(u, items, slugs).0);
    case Table(head, align, rows) =>
      TableNeutral(u, head, align, rows);
      NewlineNeutral(RenderTable(u, head, align, rows));
  }

  lemma {:induction false} BlocksNeutral(u: Unicode, bs: seq<Block>, slugs: Slugs)
    requires Sane(u) && TaglessBlocks(u, bs)
    ensures Neutral(RenderBlocks(u, bs, slugs).0)
    decreases bs, 0
  {
    hide Neutral, RenderBlock, TaglessBlock;
    if bs == [] {
      NeutralClean("");
    } else {
      BlockNeutral(u, bs[0], slugs);
      var (a, s1) := RenderBlock(u, bs[0], slugs);
      BlocksNeutral(u, bs[1..], s1);
      NeutralCat(a, RenderBlocks(u, bs[1..], s1).0);
    }
  }

  lemma {:induction false} ItemNeutral(u: Unicode, bs: seq<Block>, slugs: Slugs)
    requires Sane(u) && TaglessBlocks(u, bs)
    ensures Neutral(RenderItem(u, bs, slugs).0)
    decreases bs, 1
  {
    hide Neutral, RenderBlocks, RenderLines, SplitOn;
    BlocksNeutral(u, bs, slugs);
    if bs != [] && bs[0].Paragraph? {
      assert TaglessBlock(u, bs[0]);
      LinesNeutral(u, SplitOn(bs[0].text, '\n', 0, ""));
      assert TaglessBlocks(u, bs[1..]);
      BlocksNeutral(u, bs[1..], slugs);
      NeutralCat(RenderLines(u, SplitOn(bs[0].text, '\n', 0, "")), RenderBlocks(u, bs[1..], slugs).0);
    }
  }

  lemma {:induction false} ItemsNeutral(u: Unicode, items: seq<Item>, slugs: Slugs)
    requires Sane(u) && TaglessItems(u, items)
    ensures Neutral(RenderItems(u, items, slugs).0)
    decreases items, 0
  {
    hide Neutral, RenderItem, Element;
    if items == [] {
      NeutralClean("");
    } else {
      ItemNeutral(u, items[0].blocks, slugs);
      var (a, s1) := RenderItem(u, items[0].blocks, slugs);
      PlainElement("li", a);
      ItemsNeutral(u, items[1..], s1);
      var b := RenderItems(u, items[1..], s1).0;
      NewlineNeutral(b);
      NeutralCat(Element("li", "", a), "\n" + b);
    }
  }

  /** Parsing and rendering a document with no raw HTML block, and no raw tag that rendering reaches in its
      inline text, gives properly nested, closed elements. */
  lemma DocumentBalanced(u: Unicode, lines: seq<string>)
    requires Sane(u) && TaglessBlocks(u, BlocksOf(ParseFrom(u, lines, 0)))
    ensures Balanced(ToHtml(u, lines))
  {
    hide Neutral, RenderBlocks, ParseFrom, TaglessBlocks, Balanced;
    BlocksNeutral(u, BlocksOf(ParseFrom(u, lines, 0)), map[]);
    NeutralBalanced(ToHtml(u, lines));
  }

  /** A line of raw HTML is passed through, so the condition cannot be dropped. */
  lemma RawHtmlUnbalanced(u: Unicode)
    requires !u.space('<') && !u.space('>')
    ensures ToHtml(u, ["<b>"]) == "<b>\n" && !Balanced(ToHtml(u, ["<b>"]))
  {
    hide RenderBlocks, ParseFrom, Balanced;
    RawHtmlParses(u);
    HtmlRenders(u, "<b>");
    assert "<b>" + "\n" == "<b>\n";
    OpenUnbalanced();
  }

  lemma RawHtmlParses(u: Unicode)
    requires !u.space('<') && !u.space('>')
    ensures BlocksOf(ParseFrom(u, ["<b>"], 0)) == [Html("<b>")]
  {
    var line := "<b>";
    var lines := [line];
    HtmlLine(u);
    hide Blank, FenceOf, HeadingOf, IsRule, IsQuote, ListMarker, IsHtmlLine, TableSeparator;
    assert lines[0..1] == lines && EmptyBlanks(u, lines) == lines;
    assert HtmlEnd(u, lines, 1) == 1;
    assert TextAt(u, lines, 0) == (Html(line), 1);
    assert BlockAt(u, lines, 0) == (Html(line), 1);
    assert ParseFrom(u, lines, 1) == [];
  }

  lemma HtmlRenders(u: Unicode, text: string)
    ensures RenderBlocks(u, [Html(text)], map[]).0 == text + "\n"
  {
    var bs := [Html(text)];
    var none: seq<Block> := [];
    assert bs[1..] == none;
    assert RenderBlocks(u, none, map[]) == ("", map[]);
    assert RenderBlock(u, bs[0], map[]) == (text + "\n", map[]);
    assert text + "\n" + "" == text + "\n";
  }

  lemma OpenUnbalanced()
    ensures !Balanced("<b>\n")
  {
    var t := "<b>\n";
    assert IndexOf(t, '>', 1) == 2 && t[1..2] == "b" && t[3..] == "\n";
    assert Name("b") == "b" && "b"[1..] == "";
    assert Scan("\n", ["b"]) == Scan("", ["b"]) by { assert "\n"[1..] == ""; }
  }

  /** `<b>` alone on a line is no other kind of block. */
  lemma HtmlLine(u: Unicode)
    requires !u.space('<') && !u.space('>')
    ensures var line := "<b>";
      && !Blank(u, line) && FenceOf(u, line).None? && HeadingOf(u, line).None? && !IsRule(u, line)
      && !IsQuote(line) && ListMarker(line).None? && IsHtmlLine(u, line) && '|' !in line
  {
    var line := "<b>";
    assert SkipWhile(line, 0, 3, u.space) == 0 && line[0..] == line;
    assert TrimEnd(line, u.space) == line;
    assert Trim(u, line) == line;
    assert LeadingSpaces(line) == 0;
    assert SkipWhile(line, 0, 3, IsHash) == 0;
    assert SkipWhile(line, 0, 3, AsciiDigit) == 0;
  }

  // ----- documents in which no `<` starts a tag -----

  ghost predicate AllHarmless(ss: seq<string>) {
    forall k | 0 <= k < |ss| :: Harmless(ss[k])
  }

  lemma HarmlessTagless(u: Unicode, text: string)
    requires Harmless(text)
    ensures Tagless(u, text)
  {
    HarmlessTagFree(u, text, 0, 0, |text|);
  }

  lemma HarmlessPrefix(s: string, t: string)
    requires Harmless(s) && t <= s
    ensures Harmless(t)
  {
    assert t == s[0..|t|];
    HarmlessSlice(s, 0, |t|);
  }

  lemma TrimHarmless(u: Unicode, s: string)
    requires Harmless(s)
    ensures Harmless(TrimStart(s, u.space)) && Harmless(Trim(u, s))
  {
    hide TrimEnd, Harmless;
    var k := SkipWhile(s, 0, |s|, u.space);
    HarmlessSlice(s, k, |s|);
    assert s[k..|s|] == TrimStart(s, u.space);
    TrimEndPrefix(TrimStart(s, u.space), u.space);
    HarmlessPrefix(TrimStart(s, u.space), Trim(u, s));
  }

  lemma TrimmedHarmless(line: string)
    requires Harmless(line)
    ensures Harmless(Trimmed(line))
  {
    hide TrimEnd, Harmless;
    TrimEndPrefix(line, IsSpace);
    HarmlessPrefix(line, TrimEnd(line, IsSpace));
    TrimEndPrefix(TrimEnd(line, IsSpace), IsBackslash);
    HarmlessPrefix(TrimEnd(line, IsSpace), Trimmed(line));
  }

  lemma HarmlessJoin(a: string, b: string)
    requires Harmless(a) && Harmless(b)
    ensures Harmless(a + "\n" + b)
  {
    var s := a + "\n" + b;
    var n := |a| + 1;
    forall j | 0 <= j < |s| && s[j] == '<' ensures !TagStart(s, j + 1) {
      if j < |a| {
        assert a[j] == '<' && !TagStart(a, j + 1);
      } else {
        assert b[j - n] == '<' && !TagStart(b, j - n + 1);
      }
    }
  }

  lemma {:induction false} JoinHarmless(lines: seq<string>)
    requires AllHarmless(lines)
    ensures Harmless(JoinLines(lines))
    decreases |lines|
  {
    hide Harmless;
    if lines == [] {
      HarmlessEmpty();
    } else if |lines| > 1 {
      JoinHarmless(lines[1..]);
      HarmlessJoin(lines[0], JoinLines(lines[1..]));
    }
  }

  lemma HarmlessEmpty()
    ensures Harmless("")
  {
  }

  /** Splitting cuts a text into slices of it; `from` is where the current one starts. */
  lemma {:induction false} SplitHarmless(s: string, c: char, from: nat, i: nat)
    requires from <= i <= |s| && Harmless(s)
    ensures AllHarmless(SplitOn(s, c, i, s[from..i]))
    decreases |s| - i
  {
    hide Harmless;
    HarmlessSlice(s, from, i);
    if i < |s| {
      if s[i] == c {
        SplitHarmless(s, c, i + 1, i + 1);
        assert s[i + 1..i + 1] == "";
      } else {
        SplitHarmless(s, c, from, i + 1);
        assert s[from..i] + [s[i]] == s[from..i + 1];
      }
    }
  }

  lemma {:induction false} SplitCellsHarmless(u: Unicode, t: string, from: nat, i: nat)
    requires from <= i <= |t| && Harmless(t)
    ensures AllHarmless(SplitCells(u, t, i, t[from..i]))
    decreases |t| - i
  {
    hide Harmless, Trim;
    HarmlessSlice(t, from, i);
    TrimHarmless(u, t[from..i]);
    if i < |t| {
      if t[i] == '\\' && i + 1 < |t| {
        SplitCellsHarmless(u, t, from, i + 2);
        assert t[from..i] + [t[i], t[i + 1]] == t[from..i + 2];
      } else if t[i] == '|' {
        SplitCellsHarmless(u, t, i + 1, i + 1);
        assert t[i + 1..i + 1] == "";
      } else {
        SplitCellsHarmless(u, t, from, i + 1);
        assert t[from..i] + [t[i]] == t[from..i + 1];
      }
    }
  }

  lemma SplitRowHarmless(u: Unicode, line: string)
    requires Harmless(line)
    ensures AllTagless(u, SplitRow(u, line))
  {
    hide Harmless, Trim, SplitCells, Tagless;
    TrimHarmless(u, line);
    var t := Trim(u, line);
    var t1 := if Starts(t, '|') then t[1..] else t;
    var t2 := if t1 != "" && t1[|t1| - 1] == '|' then t1[..|t1| - 1] else t1;
    if Starts(t, '|') {
      HarmlessSlice(t, 1, |t|);
      assert t[1..|t|] == t1;
    }
    HarmlessPrefix(t1, t2);
    SplitCellsHarmless(u, t2, 0, 0);
    var cells := SplitRow(u, line);
    forall k | 0 <= k < |cells| ensures Tagless(u, cells[k]) {
      HarmlessTagless(u, cells[k]);
    }
  }

  lemma HeadingHarmless(u: Unicode, line: string)
    requires Harmless(line) && HeadingOf(u, line).Some?
    ensures Tagless(u, HeadingOf(u, line).value.1)
  {
    hide Trim, TrimStart, TrimEnd, Harmless, Tagless;
    TrimHarmless(u, line);
    var trimmed := TrimStart(line, u.space);
    var hashes := SkipWhile(trimmed, 0, |trimmed|, IsHash);
    HarmlessSlice(trimmed, hashes, |trimmed|);
    var rest := trimmed[hashes..];
    assert trimmed[hashes..|trimmed|] == rest;
    TrimHarmless(u, rest);
    var a := Trim(u, rest);
    TrimEndPrefix(a, IsHash);
    HarmlessPrefix(a, TrimEnd(a, IsHash));
    TrimEndPrefix(TrimEnd(a, IsHash), u.space);
    HarmlessPrefix(TrimEnd(a, IsHash), TrimEnd(TrimEnd(a, IsHash), u.space));
    HarmlessTagless(u, TrimEnd(TrimEnd(a, IsHash), u.space));
  }

  lemma NotHtml(u: Unicode, line: string)
    requires Harmless(line)
    ensures !IsHtmlLine(u, line)
  {
    hide Trim;
    TrimHarmless(u, line);
    var t := Trim(u, line);
    if Starts(t, '<') { assert !TagStart(t, 1); }
  }

  lemma ParagraphHarmless(u: Unicode, text: string)
    requires Harmless(text)
    ensures LinesTagless(u, SplitOn(text, '\n', 0, ""))
  {
    hide Harmless, SplitOn, Tagless, TrimEnd;
    SplitHarmless(text, '\n', 0, 0);
    assert text[0..0] == "";
    var lines := SplitOn(text, '\n', 0, "");
    forall k | 0 <= k < |lines| ensures Tagless(u, Trimmed(lines[k])) {
      TrimmedHarmless(lines[k]);
      HarmlessTagless(u, Trimmed(lines[k]));
    }
  }

  lemma TextHarmless(u: Unicode, lines: seq<string>, i: nat)
    requires i < |lines| && AllHarmless(lines)
    ensures TaglessBlock(u, TextAt(u, lines, i).0)
  {
    hide IsHtmlLine, SplitRow, TableSeparator, JoinLines, Harmless, SplitOn, Tagless;
    var (b, k) := TextAt(u, lines, i);
    NotHtml(u, lines[i]);
    if b.Table? {
      SplitRowHarmless(u, lines[i]);
      forall x | 0 <= x < |b.rows| ensures AllTagless(u, b.rows[x]) {
        SplitRowHarmless(u, lines[i + 2..k][x]);
      }
    } else {
      JoinHarmless(lines[i..k]);
      ParagraphHarmless(u, JoinLines(lines[i..k]));
    }
  }

  lemma {:induction false} ItemsHarmless(u: Unicode, lines: seq<string>, i: nat, marker: Marker, indent: nat)
    requires i <= |lines| && AllHarmless(lines)
    ensures TaglessItems(u, ItemsFrom(u, lines, i, marker, indent).0)
    decreases Total(lines), |lines| - i, 0
  {
    hide ItemStarts, ListMarker, ItemEnd, ParseFrom, Blank, Harmless;
    if i < |lines| && ItemStarts(u, lines[i], marker, indent) {
      MarkerOf(u, lines[i], marker, indent);
      var col := ListMarker(lines[i]).value.2;
      var k := ItemEnd(u, lines, i + 1, col);
      ItemShrinks(u, lines, i, k, col);
      var item := ItemLines(u, lines[i..k], col);
      ItemLinesHarmless(u, lines[i..k], col);
      ParseHarmless(u, item, 0);
      ItemsHarmless(u, lines, k, marker, indent);
      var items, rest := ItemsFrom(u, lines, i, marker, indent).0, ItemsFrom(u, lines, k, marker, indent).0;
      assert items == [Item(BlocksOf(ParseFrom(u, item, 0)))] + rest;
      assert items[1..] == rest;
    }
  }

  lemma ItemLinesHarmless(u: Unicode, lines: seq<string>, col: nat)
    requires AllHarmless(lines)
    ensures AllHarmless(ItemLines(u, lines, col))
  {
    hide Blank, Harmless;
    HarmlessEmpty();
    forall k | 0 <= k < |lines| ensures Harmless(ItemLines(u, lines, col)[k]) {
      var line := lines[k];
      if |line| > col {
        HarmlessSlice(line, col, |line|);
        assert line[col..|line|] == line[col..];
      }
    }
  }

  lemma StrippedHarmless(line: string)
    requires Harmless(line) && IsQuote(line)
    ensures Harmless(QuoteStrip(line))
  {
    hide Harmless, LeadingSpaces;
    var r, n := QuoteStrip(line), |line| - |QuoteStrip(line)|;
    assert line[n..|line|] == r;
    HarmlessSlice(line, n, |line|);
  }

  lemma UnquotedHarmless(lines: seq<string>)
    requires AllHarmless(lines) && forall k | 0 <= k < |lines| :: IsQuote(lines[k])
    ensures AllHarmless(Unquoted(lines))
  {
    hide Harmless, QuoteStrip, IsQuote;
    var r := Unquoted(lines);
    forall k | 0 <= k < |r| ensures Harmless(r[k]) {
      assert Harmless(lines[k]);
      StrippedHarmless(lines[k]);
    }
  }

  lemma {:induction false} ListAtHarmless(u: Unicode, lines: seq<string>, i: nat)
    requires i < |lines| && !Blank(u, lines[i]) && ListMarker(lines[i]).Some? && AllHarmless(lines)
    ensures TaglessBlock(u, ListAt(u, lines, i).0)
    decreases Total(lines), |lines| - i, 1
  {
    hide Blank, ListMarker, ItemsFrom, Harmless;
    var (marker, indent, col) := ListMarker(lines[i]).value;
    ItemsHarmless(u, lines, i, marker, indent);
  }

  lemma {:induction false} BlockAtHarmless(u: Unicode, lines: seq<string>, i: nat)
    requires i < |lines| && !Blank(u, lines[i]) && AllHarmless(lines)
    ensures TaglessBlock(u, BlockAt(u, lines, i).0)
    decreases Total(lines), |lines| - i, 2
  {
    hide Blank, FenceOf, HeadingOf, IsRule, IsQuote, ListMarker, TextAt, ListAt, ParseFrom, FirstWord, JoinLines, Harmless, Tagless;
    var line := lines[i];
    if FenceOf(u, line).Some? {
    } else if HeadingOf(u, line).Some? {
      HeadingHarmless(u, line);
    } else if IsRule(u, line) {
    } else if IsQuote(line) {
      var k := QuoteEnd(lines, i + 1);
      UnquotedShrinks(lines, i, k);
      UnquotedHarmless(lines[i..k]);
      ParseHarmless(u, Unquoted(lines[i..k]), 0);
    } else if ListMarker(line).Some? {
      ListAtHarmless(u, lines, i);
    } else {
      TextHarmless(u, lines, i);
    }
  }

  lemma {:induction false} ParseHarmless(u: Unicode, lines: seq<string>, i: nat)
    requires i <= |lines| && AllHarmless(lines)
    ensures TaglessBlocks(u, BlocksOf(ParseFrom(u, lines, i)))
    decreases Total(lines), |lines| - i, 3
  {
    hide Blank, BlockAt, TaglessBlock, Harmless;
    if i < |lines| {
      if Blank(u, lines[i]) {
        ParseHarmless(u, lines, i + 1);
      } else {
        BlockAtHarmless(u, lines, i);
        ParseHarmless(u, lines, BlockAt(u, lines, i).1);
        var rest := BlocksOf(ParseFrom(u, lines, BlockAt(u, lines, i).1));
        assert BlocksOf(ParseFrom(u, lines, i)) == [BlockAt(u, lines, i).0] + rest;
      }
    }
  }

  /** So every document in whose source no `<` is followed by a letter, by `/` and a letter or by `!--`,
      and so every one without `<`, renders to properly nested, closed elements. */
  lemma HarmlessDocumentBalanced(u: Unicode, lines: seq<string>)
    requires Sane(u) && AllHarmless(lines)
    ensures Balanced(ToHtml(u, lines))
  {
    hide ParseFrom, TaglessBlocks, Balanced, ToHtml;
    ParseHarmless(u, lines, 0);
    DocumentBalanced(u, lines);
  }
}
