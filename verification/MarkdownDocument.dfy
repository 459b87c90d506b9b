/** Whole documents: heading ids and the rendering of the block tree. */
module MarkdownDocument {
  import opened MarkdownHtml
  import opened MarkdownInline
  import opened MarkdownBlocks

  // ----- heading anchors -----

  function Digits(n: nat): (s: string)
    ensures s != "" && forall k | 0 <= k < |s| :: AsciiDigit(s[k])
  {
    (if n < 10 then "" else Digits(n / 10)) + [('0' as int + n % 10) as char]
  }

  function Lower(c: char): char {
    if 'A' <= c <= 'Z' then (c as int + 32) as char else c
  }

  function SlugChars(u: Unicode, text: string, lastDash: bool): string {
    if text == "" then ""
    else if text[0] in "*_`#~" then SlugChars(u, text[1..], lastDash)
    else if u.alnum(text[0]) then [Lower(text[0])] + SlugChars(u, text[1..], false)
    else if (text[0] == ' ' || text[0] == '-') && !lastDash then "-" + SlugChars(u, text[1..], true)
    else SlugChars(u, text[1..], lastDash)
  }

  predicate IsDash(c: char) { c == '-' }

  function Slug(u: Unicode, text: string): string {
    var s := TrimEnd(TrimStart(SlugChars(u, text, false), IsDash), IsDash);
    if s == "" then "section" else s
  }

  type Slugs = map<string, nat>

  /** `slugify`: repeated slugs get a number. */
  function Slugify(u: Unicode, text: string, slugs: Slugs): (string, Slugs) {
    var slug := Slug(u, text);
    var n := if slug in slugs then slugs[slug] else 0;
    (if n == 0 then slug else slug + "-" + Digits(n), slugs[slug := n + 1])
  }

  // ----- blocks to HTML -----

  function AlignAttr(a: Align): string {
    match a
    case NoAlign => ""
    case AlignLeft => Attr("style", "text-align:left")
    case AlignCenter => Attr("style", "text-align:center")
    case AlignRight => Attr("style", "text-align:right")
  }

  predicate IsBackslash(c: char) { c == '\\' }

  /** `render_inline_multiline`: hard breaks become `<br>`. */
  function RenderLines(u: Unicode, lines: seq<string>): string {
    if lines == [] then ""
    else
      var line := lines[0];
      var hard := (|line| >= 2 && line[|line| - 2..] == "  ") || (line != "" && line[|line| - 1] == '\\');
      var out := RenderInline(u, TrimEnd(TrimEnd(line, IsSpace), IsBackslash));
      if |lines| == 1 then out
      else out + ((if hard then Tag("br", "") + "\n" else "\n") + RenderLines(u, lines[1..]))
  }

  function RenderCells(u: Unicode, name: string, cells: seq<string>, align: seq<Align>, k: nat): string
    decreases |cells| - k
  {
    if k >= |cells| then ""
    else
      var a := if k < |align| then align[k] else NoAlign;
      Element(name, AlignAttr(a), RenderInline(u, cells[k])) + ("\n" + RenderCells(u, name, cells, align, k + 1))
  }

  function RenderRows(u: Unicode, rows: seq<seq<string>>, align: seq<Align>): string {
    if rows == [] then ""
    else Element("tr", "", "\n" + RenderCells(u, "td", rows[0], align, 0)) + ("\n" + RenderRows(u, rows[1..], align))
  }

  function RenderTable(u: Unicode, head: seq<string>, align: seq<Align>, rows: seq<seq<string>>): string {
    var headRow := Element("tr", "", "\n" + RenderCells(u, "th", head, align, 0));
    Element("table", "",
      "\n" + (Element("thead", "", "\n" + (headRow + "\n")) + ("\n" + (Element("tbody", "", "\n" + RenderRows(u, rows, align)) + "\n"))))
  }

  function RenderBlocks(u: Unicode, bs: seq<Block>, slugs: Slugs): (string, Slugs)
    decreases bs, 0
  {
    if bs == [] then ("", slugs)
    else
      var (a, s1) := RenderBlock(u, bs[0], slugs);
      var (b, s2) := RenderBlocks(u, bs[1..], s1);
      (a + b, s2)
  }

  /** `render_list_item`: a first paragraph stands without its tag. */
  function RenderItem(u: Unicode, bs: seq<Block>, slugs: Slugs): (string, Slugs)
    decreases bs, 1
  {
    if bs != [] && bs[0].Paragraph? then
      var (b, s1) := RenderBlocks(u, bs[1..], slugs);
      (RenderLines(u, SplitOn(bs[0].text, '\n', 0, "")) + b, s1)
    else RenderBlocks(u, bs, slugs)
  }

  function RenderItems(u: Unicode, items: seq<Item>, slugs: Slugs): (string, Slugs)
    decreases items, 0
  {
    if items == [] then ("", slugs)
    else
      var (a, s1) := RenderItem(u, items[0].blocks, slugs);
      var (b, s2) := RenderItems(u, items[1..], s1);
      (Element("li", "", a) + ("\n" + b), s2)
  }

  function RenderBlock(u: Unicode, b: Block, slugs: Slugs): (string, Slugs)
    decreases b, 0
  {
    match b
    case Heading(level, text) =>
      var (id, s1) := Slugify(u, text, slugs);
      (Element("h" + Digits(level), Attr("id", id), RenderInline(u, text)) + "\n", s1)
    case Paragraph(text) => (Element("p", "", RenderLines(u, SplitOn(text, '\n', 0, ""))) + "\n", slugs)
    case Code(lang, text) =>
      var attrs := if lang.Some? then Attr("class", "language-" + EscapeAttr(lang.value)) else "";
      (Element("pre", "", Element("code", attrs, EscapeHtml(text))) + "\n", slugs)
    case Html(text) => (text + "\n", slugs)
    case Rule => (Tag("hr", "") + "\n", slugs)
    case Quote(inner) =>
      var (s, s1) := RenderBlocks(u, inner, slugs);
      (Element("blockquote", "", "\n" + s) + "\n", s1)
    case List(ordered, start, items) =>
      var (s, s1) := RenderItems(u, items, slugs);
      var attrs := if ordered && start != 1 then Attr("start", Digits(start)) else "";
      (Element(if ordered then "ol" else "ul", attrs, "\n" + s) + "\n", s1)
    case Table(head, align, rows) => (RenderTable(u, head, align, rows) + "\n", slugs)
  }

  /** `to_html`, from the lines of the source. */
  function ToHtml(u: Unicode, lines: seq<string>): string {
    RenderBlocks(u, BlocksOf(ParseFrom(u, lines, 0)), map[]).0
  }
}
