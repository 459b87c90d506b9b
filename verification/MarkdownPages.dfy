/** From source lines to HTML, spelt out: what whole documents of each kind render to. */
module MarkdownPages {
  import opened Common
  import opened MarkdownHtml
  import opened MarkdownInline
  import opened MarkdownBlocks
  import opened MarkdownDocument
  import opened MarkdownEquations
  import opened MarkdownLines

  lemma Tagged(name: string, inner: string)
    ensures Element(name, "", inner) == "<" + name + ">" + inner + "</" + name + ">"
  {
    assert name + "" == name;
  }

  lemma TaggedWith(name: string, key: string, value: string, inner: string)
    ensures Element(name, Attr(key, value), inner)
      == "<" + name + " " + key + "=\"" + value + "\">" + inner + "</" + name + ">"
  {
    assert "<" + (name + (" " + key + "=\"" + value + "\"")) + ">" == "<" + name + " " + key + "=\"" + value + "\">";
  }

  /** A document that is one block. */
  lemma OneBlock(u: Unicode, lines: seq<string>, b: Block)
    requires lines != [] && !Blank(u, lines[0]) && BlockAt(u, lines, 0) == (b, |lines|)
    ensures ParseFrom(u, lines, 0) == [Placed(b, 0, |lines|)]
    ensures ToHtml(u, lines) == RenderBlock(u, b, map[]).0
  {
    hide BlockAt, Blank, RenderBlock;
    assert ParseFrom(u, lines, |lines|) == [];
    var ps := [Placed(b, 0, |lines|)];
    assert ParseFrom(u, lines, 0) == ps;
    assert BlocksOf(ps) == [b];
    OneRendered(u, b);
  }

  lemma OneRendered(u: Unicode, b: Block)
    ensures RenderBlocks(u, [b], map[]) == RenderBlock(u, b, map[])
  {
    hide RenderBlock;
    var bs := [b];
    assert bs[1..] == [];
    var (a, s1) := RenderBlock(u, b, map[]);
    assert RenderBlocks(u, bs[1..], s1) == ("", s1);
    assert a + "" == a;
  }

  lemma NotBlank(u: Unicode, line: string, k: nat)
    requires k < |line| && !u.space(line[k])
    ensures !Blank(u, line)
  {
    var a, b := TrimMeans(u, line);
  }

  /** What a line that starts in the first column can be, by its first character. */
  lemma ByFirst(u: Unicode, line: string)
    requires line != "" && line[0] != ' ' && !u.space(line[0])
    ensures !Blank(u, line)
    ensures line[0] != '`' && line[0] != '~' ==> FenceOf(u, line) == None
    ensures line[0] != '#' ==> HeadingOf(u, line) == None
    ensures line[0] !in "-*_" ==> !IsRule(u, line)
    ensures IsQuote(line) <==> line[0] == '>'
    ensures line[0] !in "-*+" && !AsciiDigit(line[0]) ==> ListMarker(line) == None
    ensures line[0] != '<' ==> !IsHtmlLine(u, line)
  {
    hide TrimEnd, RunLength, MarkerSpaces;
    NotBlank(u, line, 0);
    assert LeadingSpaces(line) == 0 && line[0..] == line;
    var a, b := TrimMeans(u, line);
    assert a == 0 && b > 0;
    assert Trim(u, line)[0] == line[0];
    assert TrimStart(line, u.space) == line;
  }

  // ----- headings and rules -----

  /** `## text`: a heading of that level with its slug as id. */
  lemma HeadingPage(u: Unicode, n: nat, t: string)
    requires SpaceSane(u) && 1 <= n <= 6 && Trimmed(u, t) && t != "" && t[|t| - 1] != '#'
    ensures var d := [('0' as int + n) as char];
      ToHtml(u, [Repeat('#', n) + (" " + t)])
        == "<h" + d + " id=\"" + Slug(u, t) + "\">" + RenderInline(u, t) + "</h" + d + ">\n"
  {
    hide RenderInline, Slug, Element, BlockAt, Blank;
    HeadingAt(u, n, t);
    OneBlock(u, [Repeat('#', n) + (" " + t)], Heading(n, t));
    HeadingHtml([('0' as int + n) as char], Slug(u, t), RenderInline(u, t));
    OneDigit(n);
  }

  lemma OneDigit(n: nat)
    requires n < 10
    ensures Digits(n) == [('0' as int + n) as char]
  {
  }

  lemma HeadingAt(u: Unicode, n: nat, t: string)
    requires SpaceSane(u) && 1 <= n <= 6 && Trimmed(u, t) && t != "" && t[|t| - 1] != '#'
    ensures var line := Repeat('#', n) + (" " + t); !Blank(u, line) && BlockAt(u, [line], 0) == (Heading(n, t), 1)
  {
    hide HeadingOf, FenceOf, Blank;
    var line := Repeat('#', n) + (" " + t);
    assert Indented(0, line) == line;
    HeadingIs(u, 0, n, t, 0);
    assert line[0] == '#' && '!' <= '#' <= '~';
    ByFirst(u, line);
  }

  lemma HeadingHtml(d: string, id: string, x: string)
    ensures Element("h" + d, Attr("id", id), x) + "\n" == "<h" + d + " id=\"" + id + "\">" + x + "</h" + d + ">\n"
  {
    assert "<" + ("h" + d + (" id=\"" + id + "\"")) + ">" == "<h" + d + " id=\"" + id + "\">";
    assert "</" + ("h" + d) + ">" + "\n" == "</h" + d + ">\n";
    var a := "<h" + d + " id=\"" + id + "\">" + x;
    assert a + ("</" + ("h" + d) + ">") + "\n" == a + ("</" + ("h" + d) + ">" + "\n");
  }

  lemma Tail(a: string, b: string, c: string, d: string)
    ensures a + (b + c) + d == a + b + (c + d) && a + b + c + d == a + b + (c + d)
  {
  }

  /** Three or more dashes: a rule. */
  lemma RulePage(u: Unicode, c: char, n: nat)
    requires SpaceSane(u) && (c == '-' || c == '*' || c == '_') && n >= 3
    ensures ToHtml(u, [Repeat(c, n)]) == "<hr>\n"
  {
    hide HeadingOf, FenceOf, Blank, IsRule;
    var line := Repeat(c, n);
    assert '!' <= c <= '~' && line[0] == c;
    ByFirst(u, line);
    RuleIs(u, c, n);
    OneBlock(u, [line], Rule);
  }

  // ----- paragraphs -----

  /** A line of prose: it starts with a letter, ends in no white space and no backslash, and has no bars. */
  predicate Prose(u: Unicode, t: string) {
    t != "" && AsciiAlpha(t[0]) && !u.space(t[|t| - 1]) && t[|t| - 1] != '\\' && '|' !in t && '\n' !in t
  }

  lemma ProseLine(u: Unicode, t: string)
    requires SpaceSane(u) && Prose(u, t)
    ensures !Blank(u, t) && Textual(u, t) && !StartsBlock(u, t) && !IsHtmlLine(u, t)
  {
    hide Blank, FenceOf, HeadingOf, IsRule, IsQuote, ListMarker, IsHtmlLine;
    assert '!' <= t[0] <= '~';
    ByFirst(u, t);
  }

  lemma ProseRenders(u: Unicode, t: string)
    requires SpaceSane(u) && Prose(u, t)
    ensures TrimEnd(TrimEnd(t, IsSpace), IsBackslash) == t && !(|t| >= 2 && t[|t| - 2..] == "  ")
  {
    assert t[|t| - 1] != ' ';
    TrimEndKeeps(t, IsSpace);
    TrimEndKeeps(t, IsBackslash);
    assert |t| >= 2 ==> t[|t| - 2..][1] == t[|t| - 1];
  }

  /** Lines of prose make one paragraph, ... */
  lemma ParagraphAt(u: Unicode, ls: seq<string>)
    requires SpaceSane(u) && ls != [] && forall k | 0 <= k < |ls| :: Prose(u, ls[k])
    ensures !Blank(u, ls[0]) && BlockAt(u, ls, 0) == (Paragraph(JoinLines(ls)), |ls|)
  {
    hide Blank, FenceOf, HeadingOf, IsRule, IsQuote, ListMarker, IsHtmlLine, JoinLines, Prose, StartsBlock;
    ProseLine(u, ls[0]);
    ProseRun(u, ls, 1);
    assert ls[0..|ls|] == ls;
    NoBar(u, ls[0]);
  }

  lemma NoBar(u: Unicode, t: string)
    requires Prose(u, t)
    ensures '|' !in t && '\n' !in t
  {
  }

  lemma {:induction false} ProseRun(u: Unicode, ls: seq<string>, i: nat)
    requires SpaceSane(u) && i <= |ls| && forall k | 0 <= k < |ls| :: Prose(u, ls[k])
    ensures ParagraphEnd(u, ls, i) == |ls|
    decreases |ls| - i
  {
    hide Blank, StartsBlock, Prose;
    if i < |ls| {
      ProseLine(u, ls[i]);
      ProseRun(u, ls, i + 1);
    }
  }

  /** The rendered lines, each on its own line. */
  function Lined(u: Unicode, ls: seq<string>): string
    requires ls != []
  {
    if |ls| == 1 then RenderInline(u, ls[0]) else RenderInline(u, ls[0]) + "\n" + Lined(u, ls[1..])
  }

  lemma {:induction false} ProseLines(u: Unicode, ls: seq<string>)
    requires SpaceSane(u) && ls != [] && forall k | 0 <= k < |ls| :: Prose(u, ls[k])
    ensures RenderLines(u, ls) == Lined(u, ls)
    decreases |ls|
  {
    hide RenderInline;
    assert Prose(u, ls[0]);
    ProseRenders(u, ls[0]);
    if |ls| > 1 {
      assert forall k | 0 <= k < |ls[1..]| :: ls[1..][k] == ls[k + 1];
      ProseLines(u, ls[1..]);
      var a, b := RenderInline(u, ls[0]), Lined(u, ls[1..]);
      assert a + ("\n" + b) == a + "\n" + b;
    }
  }

  /** ... rendered line by line. */
  lemma ParagraphPage(u: Unicode, ls: seq<string>)
    requires SpaceSane(u) && ls != [] && forall k | 0 <= k < |ls| :: Prose(u, ls[k])
    ensures ToHtml(u, ls) == "<p>" + Lined(u, ls) + "</p>\n"
  {
    hide Blank, BlockAt, JoinLines, RenderLines, Lined, Element, Prose, SplitOn;
    ParagraphAt(u, ls);
    OneBlock(u, ls, Paragraph(JoinLines(ls)));
    JoinConsists(ls);
    forall k | 0 <= k < |ls| ensures '\n' !in ls[k] { NoBar(u, ls[k]); }
    ProseLines(u, ls);
    Tagged("p", Lined(u, ls));
    assert "<" + "p" + ">" == "<p>" && "</" + "p" + ">" == "</p>";
    Tail("<p>" + Lined(u, ls), "</" + "p", ">", "\n");
    assert "</" + "p" + (">" + "\n") == "</p>\n";
    Tail("<p>", Lined(u, ls), "</" + "p", ">" + "\n");
  }

  /** A line that ends in two spaces or a backslash breaks there. */
  lemma HardBreak(u: Unicode, a: string, b: string, slash: bool)
    requires SpaceSane(u) && Prose(u, a) && Prose(u, b)
    ensures RenderLines(u, [a + (if slash then "\\" else "  "), b]) == RenderInline(u, a) + "<br>\n" + RenderInline(u, b)
  {
    hide RenderInline, TrimEnd;
    var line := a + (if slash then "\\" else "  ");
    var ls := [line, b];
    assert ls[1..] == [b];
    ProseRenders(u, b);
    if slash {
      TrimEndKeeps(line, IsSpace);
      TrimEndCuts(a, "\\", IsBackslash);
    } else {
      assert line[|line| - 2..] == "  ";
      TrimEndCuts(a, "  ", IsSpace);
      TrimEndKeeps(a, IsSpace);
    }
    TrimEndKeeps(a, IsBackslash);
    assert RenderLines(u, [b]) == RenderInline(u, b);
    var x, y := RenderInline(u, a), RenderInline(u, b);
    assert Tag("br", "") + "\n" == "<br>\n";
    assert x + ("<br>\n" + y) == x + "<br>\n" + y;
  }

  // ----- code -----

  lemma {:induction false} FenceEndAt(u: Unicode, ls: seq<string>, i: nat, m: nat, c: char, len: nat)
    requires i <= m < |ls| && ClosesFence(u, ls[m], c, len) && forall k | i <= k < m :: !ClosesFence(u, ls[k], c, len)
    ensures FenceEnd(u, ls, i, c, len) == m
    decreases m - i
  {
    hide FenceOf;
    if i < m {
      assert !ClosesFence(u, ls[i], c, len);
      FenceEndAt(u, ls, i + 1, m, c, len);
    }
  }

  lemma {:induction false} DedentNothing(ls: seq<string>)
    ensures DedentAll(ls, 0) == ls
  {
    forall k | 0 <= k < |ls| ensures DedentAll(ls, 0)[k] == ls[k] { assert ls[k][0..] == ls[k]; }
  }

  lemma CodeAt(u: Unicode, c: char, n: nat, w: string, body: seq<string>)
    requires SpaceSane(u) && (c == '`' || c == '~') && n >= 3 && w != "" && w[0] != c
    requires (forall k | 0 <= k < |w| :: !u.space(w[k])) && forall k | 0 <= k < |body| :: !ClosesFence(u, body[k], c, n)
    ensures var ls := [Repeat(c, n) + w] + body + [Repeat(c, n)];
      !Blank(u, ls[0]) && BlockAt(u, ls, 0) == (Code(Some(w), JoinLines(body)), |ls|)
  {
    hide FenceOf, Blank, JoinLines, FirstWord, LeadingSpaces, DedentAll, FenceEnd, HeadingOf, IsRule, ListMarker;
    var ls := [Repeat(c, n) + w] + body + [Repeat(c, n)];
    FenceLines(u, c, n, w);
    CodeEnds(u, c, n, w, body);
    assert ls[1..|body| + 1] == body;
    DedentNothing(body);
  }

  lemma FenceLines(u: Unicode, c: char, n: nat, w: string)
    requires SpaceSane(u) && (c == '`' || c == '~') && n >= 3 && w != "" && w[0] != c
    requires forall k | 0 <= k < |w| :: !u.space(w[k])
    ensures var open := Repeat(c, n) + w;
      && !Blank(u, open) && FenceOf(u, open) == Some((c, n, w)) && LeadingSpaces(open) == 0
      && FenceOf(u, Repeat(c, n)) == Some((c, n, "")) && FirstWord(u, w) == Some(w)
  {
    hide FenceOf, Blank, FirstWord, LeadingSpaces;
    var open, close := Repeat(c, n) + w, Repeat(c, n);
    assert Indented(0, open) == open && Indented(0, close + "") == close;
    FenceIs(u, 0, c, n, w);
    FenceIs(u, 0, c, n, "");
    assert open[0] == c && '!' <= c <= '~';
    NotBlank(u, open, 0);
    FirstWordIs(u, w, "");
    assert w + "" == w;
    IndentIs(0, open);
  }

  lemma CodeEnds(u: Unicode, c: char, n: nat, w: string, body: seq<string>)
    requires FenceOf(u, Repeat(c, n)) == Some((c, n, "")) && forall k | 0 <= k < |body| :: !ClosesFence(u, body[k], c, n)
    ensures FenceEnd(u, [Repeat(c, n) + w] + body + [Repeat(c, n)], 1, c, n) == |body| + 1
  {
    hide FenceOf;
    var ls, m := [Repeat(c, n) + w] + body + [Repeat(c, n)], |body| + 1;
    assert ls[m] == Repeat(c, n) && ClosesFence(u, ls[m], c, n);
    forall k | 1 <= k < m ensures !ClosesFence(u, ls[k], c, n) { assert ls[k] == body[k - 1]; }
    FenceEndAt(u, ls, 1, m, c, n);
  }

  /** A fenced block: its lines unchanged but escaped, with its language as a class. */
  lemma CodePage(u: Unicode, c: char, n: nat, w: string, body: seq<string>)
    requires SpaceSane(u) && (c == '`' || c == '~') && n >= 3 && w != "" && w[0] != c
    requires (forall k | 0 <= k < |w| :: !u.space(w[k])) && forall k | 0 <= k < |body| :: !ClosesFence(u, body[k], c, n)
    ensures ToHtml(u, [Repeat(c, n) + w] + body + [Repeat(c, n)])
      == "<pre><code class=\"language-" + EscapeAttr(w) + "\">" + EscapeHtml(JoinLines(body)) + "</code></pre>\n"
  {
    hide Blank, BlockAt, JoinLines, EscapeAttr, EscapeHtml, Element, ClosesFence;
    CodeAt(u, c, n, w, body);
    OneBlock(u, [Repeat(c, n) + w] + body + [Repeat(c, n)], Code(Some(w), JoinLines(body)));
    CodeHtml(EscapeAttr(w), EscapeHtml(JoinLines(body)));
  }

  lemma CodeHtml(w: string, x: string)
    ensures Element("pre", "", Element("code", Attr("class", "language-" + w), x)) + "\n"
      == "<pre><code class=\"language-" + w + "\">" + x + "</code></pre>\n"
  {
    var open := "<code class=\"language-" + w + "\">";
    CodeOpen(w);
    var inner := Element("code", Attr("class", "language-" + w), x);
    assert inner == open + x + EndTag("code");
    Tagged("pre", inner);
    Nested("<pre>", open, x, EndTag("code"), EndTag("pre"), "\n");
    PreCode(w);
  }

  lemma CodeOpen(w: string)
    ensures Tag("code", Attr("class", "language-" + w)) == "<code class=\"language-" + w + "\">"
  {
    assert Attr("class", "language-" + w) == " class=\"language-" + w + "\"";
    assert "<" + ("code" + (" class=\"language-" + w + "\"")) == "<code class=\"language-" + w + "\"";
  }

  lemma PreCode(w: string)
    ensures "<pre>" + ("<code class=\"language-" + w + "\">") == "<pre><code class=\"language-" + w + "\">"
    ensures EndTag("code") + EndTag("pre") + "\n" == "</code></pre>\n" && "<" + "pre" + ">" == "<pre>"
  {
    assert "<pre>" + "<code class=\"language-" == "<pre><code class=\"language-";
  }

  lemma Nested(a: string, b: string, x: string, c: string, d: string, e: string)
    ensures a + (b + x + c) + d + e == (a + b) + x + (c + d + e)
  {
  }

  // ----- quotes -----

  /** Every line quoted. */
  function QuoteAll(ls: seq<string>): (r: seq<string>)
    ensures |r| == |ls| && forall k | 0 <= k < |ls| :: r[k] == "> " + ls[k]
  {
    seq(|ls|, k requires 0 <= k < |ls| => "> " + ls[k])
  }

  lemma QuotedLine(t: string)
    ensures IsQuote("> " + t) && QuoteStrip("> " + t) == t
  {
    var s := " " + t;
    assert Indented(0, ">" + s) == "> " + t && s[1..] == t;
    QuoteIs(0, s);
  }

  lemma {:induction false} QuoteRun(ls: seq<string>, i: nat)
    requires i <= |ls| && forall k | 0 <= k < |ls| :: IsQuote(ls[k])
    ensures QuoteEnd(ls, i) == |ls|
    decreases |ls| - i
  {
    hide IsQuote;
    if i < |ls| { QuoteRun(ls, i + 1); }
  }

  lemma QuotedAt(u: Unicode, ls: seq<string>)
    requires SpaceSane(u) && ls != []
    ensures var qs := QuoteAll(ls);
      !Blank(u, qs[0]) && BlockAt(u, qs, 0) == (Quote(BlocksOf(ParseFrom(u, ls, 0))), |qs|)
  {
    hide Blank, FenceOf, HeadingOf, IsRule, IsQuote, QuoteStrip, ParseFrom;
    var qs := QuoteAll(ls);
    forall k | 0 <= k < |qs| ensures IsQuote(qs[k]) && QuoteStrip(qs[k]) == ls[k] { QuotedLine(ls[k]); }
    assert qs[0][0] == '>' && '!' <= '>' <= '~';
    ByFirst(u, qs[0]);
    QuoteRun(qs, 1);
    assert qs[0..|qs|] == qs;
    assert Unquoted(qs) == ls;
  }

  /** Any document with every line quoted is the same document inside a block quote. */
  lemma QuotePage(u: Unicode, ls: seq<string>)
    requires SpaceSane(u) && ls != []
    ensures ToHtml(u, QuoteAll(ls)) == "<blockquote>\n" + ToHtml(u, ls) + "</blockquote>\n"
  {
    hide Blank, BlockAt, ParseFrom, Element, RenderBlocks;
    QuotedAt(u, ls);
    OneBlock(u, QuoteAll(ls), Quote(BlocksOf(ParseFrom(u, ls, 0))));
    QuoteHtml(ToHtml(u, ls));
  }

  lemma QuoteHtml(x: string)
    ensures Element("blockquote", "", "\n" + x) + "\n" == "<blockquote>\n" + x + "</blockquote>\n"
  {
    Tagged("blockquote", "\n" + x);
    assert "<" + "blockquote" + ">" + ("\n" + x) == "<blockquote>\n" + x;
    assert "</" + "blockquote" + ">" + "\n" == "</blockquote>\n";
    assert "<blockquote>\n" + x + ("</" + "blockquote" + ">") + "\n" == "<blockquote>\n" + x + ("</" + "blockquote" + ">" + "\n");
  }

  // ----- lists -----

  /** A line that starts an item of the list with the text `t`. */
  predicate ItemLine(u: Unicode, line: string, marker: Marker, t: string) {
    && !Blank(u, line) && LeadingSpaces(line) == 0 && ListMarker(line).Some?
    && SameKind(ListMarker(line).value.0, marker) && ListMarker(line).value.1 == 0
    && StripCols(line, ListMarker(line).value.2) == t
  }

  function TextItems(ts: seq<string>): (r: seq<Item>)
    ensures |r| == |ts| && forall k | 0 <= k < |ts| :: r[k] == Item([Paragraph(ts[k])])
  {
    seq(|ts|, k requires 0 <= k < |ts| => Item([Paragraph(ts[k])]))
  }

  lemma ProseParsed(u: Unicode, t: string)
    requires SpaceSane(u) && Prose(u, t)
    ensures BlocksOf(ParseFrom(u, [t], 0)) == [Paragraph(t)]
  {
    hide BlockAt, Blank, Prose;
    ParagraphAt(u, [t]);
    OneBlock(u, [t], Paragraph(JoinLines([t])));
  }

  lemma OneLineItem(u: Unicode, lines: seq<string>, i: nat, t: string, marker: Marker)
    requires i < |lines| && ItemLine(u, lines[i], marker, t) && (i + 1 < |lines| ==> !Blank(u, lines[i + 1]) && LeadingSpaces(lines[i + 1]) == 0)
    ensures var col := ListMarker(lines[i]).value.2;
      ItemEnd(u, lines, i + 1, col) == i + 1 && ItemLines(u, lines[i..i + 1], col) == [t] && ItemStarts(u, lines[i], marker, 0)
  {
    hide Blank, LeadingSpaces, ListMarker, StripCols, SameKind;
    assert lines[i..i + 1] == [lines[i]];
  }

  lemma {:induction false} ItemsAre(u: Unicode, lines: seq<string>, ts: seq<string>, i: nat, marker: Marker)
    requires SpaceSane(u) && |lines| == |ts| && i <= |ts|
    requires forall k | 0 <= k < |ts| :: Prose(u, ts[k]) && ItemLine(u, lines[k], marker, ts[k])
    ensures ItemsFrom(u, lines, i, marker, 0) == (TextItems(ts[i..]), |lines|)
    decreases |ts| - i
  {
    hide Blank, ListMarker, ItemEnd, ItemLines, ParseFrom, ItemStarts, ItemLine, Prose;
    if i < |ts| {
      assert ItemLine(u, lines[i], marker, ts[i]);
      if i + 1 < |ts| { assert ItemLine(u, lines[i + 1], marker, ts[i + 1]); NextItem(u, lines[i + 1], marker, ts[i + 1]); }
      OneLineItem(u, lines, i, ts[i], marker);
      ProseParsed(u, ts[i]);
      ItemsAre(u, lines, ts, i + 1, marker);
      assert TextItems(ts[i..]) == [Item([Paragraph(ts[i])])] + TextItems(ts[i + 1..]);
    } else {
      assert ts[i..] == [];
    }
  }

  lemma NextItem(u: Unicode, line: string, marker: Marker, t: string)
    requires ItemLine(u, line, marker, t)
    ensures !Blank(u, line) && LeadingSpaces(line) == 0
  {
  }

  /** Items in order, each text in its own element. */
  function ItemsHtml(u: Unicode, ts: seq<string>): string {
    if ts == [] then "" else "<li>" + RenderInline(u, ts[0]) + "</li>\n" + ItemsHtml(u, ts[1..])
  }

  lemma TextItem(u: Unicode, t: string, slugs: Slugs)
    requires SpaceSane(u) && Prose(u, t)
    ensures RenderItem(u, [Paragraph(t)], slugs) == (RenderInline(u, t), slugs)
  {
    hide RenderInline, RenderBlock, RenderLines, SplitOn;
    var bs := [Paragraph(t)];
    assert bs[1..] == [] && RenderBlocks(u, bs[1..], slugs) == ("", slugs);
    JoinConsists([t]);
    assert JoinLines([t]) == t;
    ProseLines(u, [t]);
    assert RenderInline(u, t) + "" == RenderInline(u, t);
  }

  lemma {:induction false} TextItemsRender(u: Unicode, ts: seq<string>, slugs: Slugs)
    requires SpaceSane(u) && forall k | 0 <= k < |ts| :: Prose(u, ts[k])
    ensures RenderItems(u, TextItems(ts), slugs) == (ItemsHtml(u, ts), slugs)
    decreases |ts|
  {
    hide RenderInline, RenderItem, Element, Prose;
    if ts != [] {
      var items := TextItems(ts);
      assert items[1..] == TextItems(ts[1..]) && items[0].blocks == [Paragraph(ts[0])];
      TextItem(u, ts[0], slugs);
      TextItemsRender(u, ts[1..], slugs);
      ItemHtml(RenderInline(u, ts[0]), ItemsHtml(u, ts[1..]));
    }
  }

  lemma ItemHtml(x: string, rest: string)
    ensures Element("li", "", x) + ("\n" + rest) == "<li>" + x + "</li>\n" + rest
  {
    Tagged("li", x);
    assert "<" + "li" + ">" == "<li>" && "</" + "li" + ">" + "\n" == "</li>\n";
    var a, b := "<li>" + x, "</" + "li" + ">";
    assert a + b + ("\n" + rest) == a + (b + "\n") + rest;
  }

  function BulletLines(c: char, ts: seq<string>): (r: seq<string>)
    ensures |r| == |ts| && forall k | 0 <= k < |ts| :: r[k] == [c] + (" " + ts[k])
  {
    seq(|ts|, k requires 0 <= k < |ts| => [c] + (" " + ts[k]))
  }

  lemma ProseStart(u: Unicode, t: string)
    requires Prose(u, t)
    ensures t != "" && AsciiAlpha(t[0]) && !u.space(t[|t| - 1])
  {
  }

  lemma BulletLine(u: Unicode, c: char, t: string)
    requires SpaceSane(u) && (c == '-' || c == '*' || c == '+') && Prose(u, t)
    ensures var line := [c] + (" " + t); ItemLine(u, line, Bullet(c), t) && !IsRule(u, line)
  {
    hide ListMarker, Blank, Prose;
    var line := [c] + (" " + t);
    ProseStart(u, t);
    assert Indented(0, line) == line;
    BulletIs(0, c, t);
    IndentIs(0, line);
    assert '!' <= c <= '~' && line[0] == c && line[|line| - 1] == t[|t| - 1];
    NotBlank(u, line, 0);
    TrimKeeps(u, line);
    assert line[2] == t[0] && t[0] != c && t[0] != ' ';
    assert line[2..] == t;
  }

  lemma ListAtIs(u: Unicode, lines: seq<string>, ts: seq<string>, marker: Marker)
    requires SpaceSane(u) && |lines| == |ts| > 0 && marker == MarkerIn(lines[0])
    requires forall k | 0 <= k < |ts| :: Prose(u, ts[k]) && ItemLine(u, lines[k], marker, ts[k])
    requires FenceOf(u, lines[0]).None? && HeadingOf(u, lines[0]).None? && !IsRule(u, lines[0]) && !IsQuote(lines[0])
    ensures !Blank(u, lines[0])
    ensures BlockAt(u, lines, 0) == (List(marker.Ordered?, if marker.Ordered? then marker.n else 1, TextItems(ts)), |lines|)
  {
    hide Blank, FenceOf, HeadingOf, IsRule, IsQuote, ListMarker, ItemsFrom, Prose;
    assert ItemLine(u, lines[0], marker, ts[0]);
    ItemsAre(u, lines, ts, 0, marker);
    assert ts[0..] == ts;
  }

  function MarkerIn(line: string): Marker {
    if ListMarker(line).Some? then ListMarker(line).value.0 else Bullet(' ')
  }

  /** A bullet list: its items in order. */
  lemma BulletPage(u: Unicode, c: char, ts: seq<string>)
    requires SpaceSane(u) && (c == '-' || c == '*' || c == '+') && ts != [] && forall k | 0 <= k < |ts| :: Prose(u, ts[k])
    ensures ToHtml(u, BulletLines(c, ts)) == "<ul>\n" + ItemsHtml(u, ts) + "</ul>\n"
  {
    hide Blank, BlockAt, FenceOf, HeadingOf, IsRule, IsQuote, ListMarker, Prose, ItemLine, RenderItems, ItemsHtml, Element;
    var lines := BulletLines(c, ts);
    forall k | 0 <= k < |ts| ensures ItemLine(u, lines[k], Bullet(c), ts[k]) && !IsRule(u, lines[k]) {
      BulletLine(u, c, ts[k]);
    }
    BulletFirst(u, c, ts[0]);
    ListAtIs(u, lines, ts, Bullet(c));
    OneBlock(u, lines, List(false, 1, TextItems(ts)));
    TextItemsRender(u, ts, map[]);
    ListHtml("ul", ItemsHtml(u, ts));
    assert "<" + "ul" + ">" + "\n" == "<ul>\n" && "</" + "ul" + ">" + "\n" == "</ul>\n";
  }

  lemma BulletFirst(u: Unicode, c: char, t: string)
    requires SpaceSane(u) && (c == '-' || c == '*' || c == '+') && Prose(u, t)
    ensures var line := [c] + (" " + t);
      FenceOf(u, line).None? && HeadingOf(u, line).None? && !IsQuote(line) && MarkerIn(line) == Bullet(c)
  {
    hide FenceOf, HeadingOf, IsQuote, ListMarker, Prose;
    var line := [c] + (" " + t);
    assert '!' <= c <= '~' && line[0] == c;
    ByFirst(u, line);
    ProseStart(u, t);
    assert Indented(0, line) == line;
    BulletIs(0, c, t);
  }

  lemma ListHtml(name: string, x: string)
    ensures Element(name, "", "\n" + x) + "\n" == "<" + name + ">" + "\n" + x + ("</" + name + ">" + "\n")
  {
    Tagged(name, "\n" + x);
    var a, b := "<" + name + ">", "</" + name + ">";
    assert a + ("\n" + x) + b + "\n" == a + "\n" + x + (b + "\n");
    assert a + ("\n" + x) + "</" + name + ">" == a + ("\n" + x) + b;
  }

  // ----- numbered lists -----

  function NumberLines(n: nat, d: char, ts: seq<string>): (r: seq<string>)
    ensures |r| == |ts| && forall k | 0 <= k < |ts| :: r[k] == Digits(n + k) + [d] + (" " + ts[k])
  {
    seq(|ts|, k requires 0 <= k < |ts| => Digits(n + k) + [d] + (" " + ts[k]))
  }

  lemma NumberLine(u: Unicode, n: nat, d: char, t: string)
    requires SpaceSane(u) && (d == '.' || d == ')') && n < 1_000_000_000 && Prose(u, t)
    ensures var line := Digits(n) + [d] + (" " + t);
      && MarkerIn(line) == Ordered(n, d) && (forall m :: ItemLine(u, line, Ordered(m, d), t))
      && FenceOf(u, line).None? && HeadingOf(u, line).None? && !IsRule(u, line) && !IsQuote(line)
  {
    hide FenceOf, HeadingOf, IsRule, IsQuote, ListMarker, Prose, Digits, Blank, ItemLine, LeadingSpaces, MarkerIn;
    var g, line := Digits(n), Digits(n) + [d] + (" " + t);
    ProseStart(u, t);
    NumberShape(g, d, t);
    OrderedIs(0, n, d, t);
    NumberRead(u, line, n, d, |g| + 2, t);
  }

  lemma NumberRead(u: Unicode, line: string, n: nat, d: char, k: nat, t: string)
    requires SpaceSane(u) && line != "" && AsciiDigit(line[0]) && k < |line| && line[k..] == t
    requires ListMarker(line) == Some((Ordered(n, d), 0, k)) && Indented(0, line) == line
    ensures MarkerIn(line) == Ordered(n, d) && (forall m :: ItemLine(u, line, Ordered(m, d), t))
    ensures FenceOf(u, line).None? && HeadingOf(u, line).None? && !IsRule(u, line) && !IsQuote(line)
  {
    hide FenceOf, HeadingOf, IsRule, IsQuote, ListMarker, Blank, ItemLine, LeadingSpaces;
    DigitFirst(u, line);
    IndentIs(0, line);
    forall m ensures ItemLine(u, line, Ordered(m, d), t) { NumberItem(u, line, n, m, d, t); }
  }

  lemma DigitFirst(u: Unicode, line: string)
    requires SpaceSane(u) && line != "" && AsciiDigit(line[0])
    ensures !Blank(u, line) && FenceOf(u, line).None? && HeadingOf(u, line).None? && !IsRule(u, line) && !IsQuote(line)
  {
    hide FenceOf, HeadingOf, IsRule, IsQuote, ListMarker, Blank, IsHtmlLine;
    assert '!' <= line[0] <= '~';
    ByFirst(u, line);
  }

  lemma NumberShape(g: string, d: char, t: string)
    requires g != "" && AsciiDigit(g[0])
    ensures var line := g + [d] + (" " + t);
      AsciiDigit(line[0]) && Indented(0, line) == line && line[|g| + 2..] == t
  {
  }

  lemma NumberItem(u: Unicode, line: string, n: nat, m: nat, d: char, t: string)
    requires !Blank(u, line) && LeadingSpaces(line) == 0 && ListMarker(line).Some? && ListMarker(line).value.0 == Ordered(n, d)
    requires ListMarker(line).value.1 == 0 && ListMarker(line).value.2 < |line| && line[ListMarker(line).value.2..] == t
    ensures ItemLine(u, line, Ordered(m, d), t)
  {
    hide Blank, LeadingSpaces, ListMarker;
  }

  /** A numbered list starts at the number of its first item, whatever the others say. */
  lemma NumberPage(u: Unicode, n: nat, d: char, ts: seq<string>)
    requires SpaceSane(u) && (d == '.' || d == ')') && n + |ts| < 1_000_000_000 && ts != []
    requires forall k | 0 <= k < |ts| :: Prose(u, ts[k])
    ensures ToHtml(u, NumberLines(n, d, ts))
      == (if n == 1 then "<ol>" else "<ol start=\"" + Digits(n) + "\">") + "\n" + ItemsHtml(u, ts) + "</ol>\n"
  {
    hide Blank, BlockAt, FenceOf, HeadingOf, IsRule, IsQuote, ListMarker, Prose, ItemLine, RenderItems, ItemsHtml, Element, Digits, MarkerIn;
    var lines := NumberLines(n, d, ts);
    forall k | 0 <= k < |ts| ensures ItemLine(u, lines[k], Ordered(n, d), ts[k]) {
      NumberLine(u, n + k, d, ts[k]);
    }
    NumberLine(u, n, d, ts[0]);
    assert n + 0 == n && lines[0] == Digits(n) + [d] + (" " + ts[0]);
    ListAtIs(u, lines, ts, Ordered(n, d));
    OneBlock(u, lines, List(true, n, TextItems(ts)));
    TextItemsRender(u, ts, map[]);
    NumberHtml(n, Digits(n), ItemsHtml(u, ts));
  }

  lemma NumberHtml(n: nat, g: string, x: string)
    ensures Element("ol", if n != 1 then Attr("start", g) else "", "\n" + x) + "\n"
      == (if n == 1 then "<ol>" else "<ol start=\"" + g + "\">") + "\n" + x + "</ol>\n"
  {
    if n == 1 {
      ListHtml("ol", x);
      assert "<" + "ol" + ">" == "<ol>" && "</" + "ol" + ">" + "\n" == "</ol>\n";
    } else {
      var open := "<ol start=\"" + g + "\">";
      assert Tag("ol", Attr("start", g)) == open;
      assert open + ("\n" + x) + EndTag("ol") + "\n" == open + "\n" + x + (EndTag("ol") + "\n");
      assert EndTag("ol") + "\n" == "</ol>\n";
    }
  }

  // ----- tables -----

  ghost predicate AllCells(u: Unicode, cells: seq<string>) {
    cells != [] && forall k | 0 <= k < |cells| :: IsCell(u, cells[k])
  }

  function RowLine(cells: seq<string>): string
    requires cells != []
  {
    "|" + JoinOn(Padded(cells), '|') + "|"
  }

  function SeparatorLine(ds: seq<(Align, nat)>): string
    requires ds != []
  {
    "|" + JoinOn(DashCells(ds), '|') + "|"
  }

  function RowLines(rows: seq<seq<string>>): (r: seq<string>)
    requires forall k | 0 <= k < |rows| :: rows[k] != []
    ensures |r| == |rows| && forall k | 0 <= k < |rows| :: r[k] == RowLine(rows[k])
  {
    seq(|rows|, k requires 0 <= k < |rows| => RowLine(rows[k]))
  }

  function TableLines(head: seq<string>, ds: seq<(Align, nat)>, rows: seq<seq<string>>): seq<string>
    requires head != [] && ds != [] && forall k | 0 <= k < |rows| :: rows[k] != []
  {
    [RowLine(head), SeparatorLine(ds)] + RowLines(rows)
  }

  lemma BarLine(u: Unicode, body: string)
    requires SpaceSane(u)
    ensures var line := "|" + body + "|"; !Blank(u, line) && Textual(u, line) && '|' in line
  {
    hide Blank, FenceOf, HeadingOf, IsRule, IsQuote, ListMarker, IsHtmlLine;
    var line := "|" + body + "|";
    assert line[0] == '|' && '!' <= '|' <= '~';
    ByFirst(u, line);
  }

  lemma {:induction false} TableRun(u: Unicode, ls: seq<string>, i: nat)
    requires i <= |ls| && forall k | i <= k < |ls| :: '|' in ls[k] && !Blank(u, ls[k])
    ensures TableEnd(u, ls, i) == |ls|
    decreases |ls| - i
  {
    hide Blank;
    if i < |ls| { TableRun(u, ls, i + 1); }
  }

  lemma TableAt(u: Unicode, head: seq<string>, ds: seq<(Align, nat)>, rows: seq<seq<string>>)
    requires SpaceSane(u) && AllCells(u, head) && ds != [] && (forall k | 0 <= k < |ds| :: ds[k].1 > 0)
    requires forall k | 0 <= k < |rows| :: rows[k] != [] && AllCells(u, rows[k])
    ensures var ls := TableLines(head, ds, rows);
      !Blank(u, ls[0]) && BlockAt(u, ls, 0) == (Table(head, AlignsOf(ds), rows), |ls|)
  {
    hide Blank, FenceOf, HeadingOf, IsRule, IsQuote, ListMarker, IsHtmlLine, SplitRow, TableSeparator, TableEnd, JoinOn, Padded, DashCells, IsCell;
    var ls := TableLines(head, ds, rows);
    BarLine(u, JoinOn(Padded(head), '|'));
    RowIs(u, head);
    SeparatorIs(u, ds);
    forall k | 2 <= k < |ls| ensures '|' in ls[k] && !Blank(u, ls[k]) && SplitRow(u, ls[k]) == rows[k - 2] {
      assert ls[k] == RowLine(rows[k - 2]) && AllCells(u, rows[k - 2]);
      BarLine(u, JoinOn(Padded(rows[k - 2]), '|'));
      RowIs(u, rows[k - 2]);
    }
    TableRun(u, ls, 2);
    assert ls[0] == RowLine(head) && ls[1] == SeparatorLine(ds);
    assert Rows(u, ls[2..]) == rows;
    assert ls[2..|ls|] == ls[2..];
  }

  function Style(a: Align): string {
    match a
    case NoAlign => ""
    case AlignLeft => " style=\"text-align:left\""
    case AlignCenter => " style=\"text-align:center\""
    case AlignRight => " style=\"text-align:right\""
  }

  /** Cells from `k` on; those past the last alignment have none. */
  function CellsHtml(u: Unicode, name: string, cells: seq<string>, align: seq<Align>, k: nat): string
    decreases |cells| - k
  {
    if k >= |cells| then ""
    else
      "<" + name + (if k < |align| then Style(align[k]) else "") + ">" + RenderInline(u, cells[k]) + "</" + name + ">\n"
      + CellsHtml(u, name, cells, align, k + 1)
  }

  function RowsHtml(u: Unicode, rows: seq<seq<string>>, align: seq<Align>): string {
    if rows == [] then "" else "<tr>\n" + CellsHtml(u, "td", rows[0], align, 0) + "</tr>\n" + RowsHtml(u, rows[1..], align)
  }

  lemma StyleIs(a: Align)
    ensures AlignAttr(a) == Style(a)
  {
    match a
    case NoAlign =>
    case AlignLeft => LeftStyle();
    case AlignCenter => CenterStyle();
    case AlignRight => RightStyle();
  }

  lemma LeftStyle()
    ensures AlignAttr(AlignLeft) == Style(AlignLeft)
  {
    assert " " + "style" + "=\"" + "text-align:left" == " style=\"text-align:left";
  }

  lemma CenterStyle()
    ensures AlignAttr(AlignCenter) == Style(AlignCenter)
  {
    assert " " + "style" + "=\"" + "text-align:center" == " style=\"text-align:center";
  }

  lemma RightStyle()
    ensures AlignAttr(AlignRight) == Style(AlignRight)
  {
    assert " " + "style" + "=\"" + "text-align:right" == " style=\"text-align:right";
  }

  lemma CellHtml(name: string, style: string, x: string, rest: string)
    ensures Element(name, style, x) + ("\n" + rest) == "<" + name + style + ">" + x + "</" + name + ">\n" + rest
  {
    assert "<" + (name + style) + ">" == "<" + name + style + ">";
    assert "</" + name + ">\n" == "</" + name + ">" + "\n";
    var a, b := "<" + name + style + ">" + x, "</" + name + ">";
    assert a + b + ("\n" + rest) == a + (b + "\n") + rest;
    assert a + "</" + name + ">\n" == a + ("</" + name + ">\n");
  }

  lemma {:induction false} CellsAre(u: Unicode, name: string, cells: seq<string>, align: seq<Align>, k: nat)
    ensures RenderCells(u, name, cells, align, k) == CellsHtml(u, name, cells, align, k)
    decreases |cells| - k
  {
    hide RenderInline, Element, AlignAttr, Style;
    if k < |cells| {
      CellsAre(u, name, cells, align, k + 1);
      var a := if k < |align| then align[k] else NoAlign;
      StyleIs(a);
      NoStyle();
      CellHtml(name, Style(a), RenderInline(u, cells[k]), CellsHtml(u, name, cells, align, k + 1));
    }
  }

  lemma NoStyle()
    ensures Style(NoAlign) == ""
  {
  }

  lemma {:induction false} RowsAre(u: Unicode, rows: seq<seq<string>>, align: seq<Align>)
    ensures RenderRows(u, rows, align) == RowsHtml(u, rows, align)
    decreases |rows|
  {
    hide RenderCells, CellsHtml, Element;
    if rows != [] {
      RowsAre(u, rows[1..], align);
      CellsAre(u, "td", rows[0], align, 0);
      var x := CellsHtml(u, "td", rows[0], align, 0);
      CellHtml("tr", "", "\n" + x, RowsHtml(u, rows[1..], align));
      RowTags(x);
    }
  }

  lemma RowTags(x: string)
    ensures "<" + "tr" + "" + ">" + ("\n" + x) + "</" + "tr" + ">\n" == "<tr>\n" + x + "</tr>\n"
  {
    assert "<" + "tr" + "" + ">" + ("\n" + x) == "<tr>\n" + x;
    assert "</" + "tr" + ">\n" == "</tr>\n";
    var a := "<tr>\n" + x;
    assert a + "</" + "tr" + ">\n" == a + ("</" + "tr" + ">\n");
  }

  lemma Wrapped(name: string, x: string)
    ensures Element(name, "", "\n" + x) == "<" + name + ">\n" + x + "</" + name + ">"
  {
    Tagged(name, "\n" + x);
    assert "<" + name + ">" + ("\n" + x) == "<" + name + ">\n" + x;
  }

  /** A table: its head, and its rows in order, with the alignment of each column. */
  lemma TablePage(u: Unicode, head: seq<string>, ds: seq<(Align, nat)>, rows: seq<seq<string>>)
    requires SpaceSane(u) && AllCells(u, head) && ds != [] && (forall k | 0 <= k < |ds| :: ds[k].1 > 0)
    requires forall k | 0 <= k < |rows| :: rows[k] != [] && AllCells(u, rows[k])
    ensures ToHtml(u, TableLines(head, ds, rows)) == TableHtml(u, head, AlignsOf(ds), rows)
  {
    hide Blank, BlockAt, TableLines, RenderTable, AlignsOf, TableHtml, IsCell;
    TableAt(u, head, ds, rows);
    OneBlock(u, TableLines(head, ds, rows), Table(head, AlignsOf(ds), rows));
    TableIs(u, head, AlignsOf(ds), rows);
  }

  function TableHtml(u: Unicode, head: seq<string>, align: seq<Align>, rows: seq<seq<string>>): string {
    "<table>\n<thead>\n<tr>\n" + CellsHtml(u, "th", head, align, 0) + "</tr>\n</thead>\n<tbody>\n"
    + RowsHtml(u, rows, align) + "</tbody>\n</table>\n"
  }

  lemma TableIs(u: Unicode, head: seq<string>, align: seq<Align>, rows: seq<seq<string>>)
    ensures RenderTable(u, head, align, rows) + "\n" == TableHtml(u, head, align, rows)
  {
    hide RenderCells, CellsHtml, RenderRows, RowsHtml, Element;
    CellsAre(u, "th", head, align, 0);
    RowsAre(u, rows, align);
    TableTags(CellsHtml(u, "th", head, align, 0), RowsHtml(u, rows, align));
  }

  lemma TableTags(h: string, r: string)
    ensures Element("table", "",
        "\n" + (Element("thead", "", "\n" + (Element("tr", "", "\n" + h) + "\n"))
                + ("\n" + (Element("tbody", "", "\n" + r) + "\n")))) + "\n"
      == "<table>\n<thead>\n<tr>\n" + h + "</tr>\n</thead>\n<tbody>\n" + r + "</tbody>\n</table>\n"
  {
    hide Element;
    var row := Element("tr", "", "\n" + h) + "\n";
    var top := Element("thead", "", "\n" + row);
    var body := Element("tbody", "", "\n" + r) + "\n";
    HeadTags(h);
    BodyTags(r);
    Wrapped("table", top + ("\n" + body));
    TableEnds(top, body);
    assert "<table>\n" + "<thead>\n<tr>\n" == "<table>\n<thead>\n<tr>\n";
    assert "</tr>\n</thead>" + "\n" + "<tbody>\n" == "</tr>\n</thead>\n<tbody>\n";
    assert "</tbody>\n" + "</table>\n" == "</tbody>\n</table>\n";
    Seven("<table>\n", "<thead>\n<tr>\n", h, "</tr>\n</thead>", "\n", "<tbody>\n", r, "</tbody>\n", "</table>\n");
  }

  lemma HeadTags(h: string)
    ensures Element("thead", "", "\n" + (Element("tr", "", "\n" + h) + "\n")) == "<thead>\n<tr>\n" + h + "</tr>\n</thead>"
  {
    hide Element;
    Wrapped("tr", h);
    var row := "<tr>\n" + h + "</tr>\n";
    assert "<" + "tr" + ">\n" == "<tr>\n" && "</" + "tr" + ">" + "\n" == "</tr>\n";
    assert "<tr>\n" + h + "</" + "tr" + ">" + "\n" == "<tr>\n" + h + ("</" + "tr" + ">" + "\n");
    Wrapped("thead", row);
    assert "<" + "thead" + ">\n" + row == "<thead>\n<tr>\n" + h + "</tr>\n";
    assert "</tr>\n" + ("</" + "thead" + ">") == "</tr>\n</thead>";
    var a := "<thead>\n<tr>\n" + h;
    assert a + "</tr>\n" + "</" + "thead" + ">" == a + ("</tr>\n" + ("</" + "thead" + ">"));
  }

  lemma BodyTags(r: string)
    ensures Element("tbody", "", "\n" + r) + "\n" == "<tbody>\n" + r + "</tbody>\n"
  {
    hide Element;
    Wrapped("tbody", r);
    assert "<" + "tbody" + ">\n" == "<tbody>\n" && "</" + "tbody" + ">" + "\n" == "</tbody>\n";
    var a := "<tbody>\n" + r;
    assert a + "</" + "tbody" + ">" + "\n" == a + ("</" + "tbody" + ">" + "\n");
  }

  lemma TableEnds(top: string, body: string)
    ensures "<" + "table" + ">\n" + (top + ("\n" + body)) + "</" + "table" + ">" + "\n" == "<table>\n" + top + "\n" + body + "</table>\n"
  {
    assert "<" + "table" + ">\n" == "<table>\n" && "</" + "table" + ">" + "\n" == "</table>\n";
    var a := "<table>\n" + (top + ("\n" + body));
    assert a == "<table>\n" + top + "\n" + body;
    assert a + "</" + "table" + ">" + "\n" == a + ("</" + "table" + ">" + "\n");
  }

  lemma Seven(a: string, b: string, h: string, c: string, n: string, d: string, r: string, e: string, f: string)
    ensures a + (b + h + c) + n + (d + r + e) + f == (a + b) + h + (c + n + d) + r + (e + f)
  {
    assert a + (b + h + c) == (a + b) + h + c;
    var x := (a + b) + h;
    assert x + c + n + (d + r + e) == x + (c + n + d) + (r + e);
    var y := x + (c + n + d);
    assert y + (r + e) + f == y + r + (e + f);
  }

  // ----- several blocks -----

  lemma ParagraphThen(u: Unicode, a: string, lines: seq<string>)
    requires SpaceSane(u) && Prose(u, a) && |lines| >= 2 && lines[0] == a && Blank(u, lines[1])
    ensures !Blank(u, a) && BlockAt(u, lines, 0) == (Paragraph(a), 1)
  {
    hide Blank, FenceOf, HeadingOf, IsRule, IsQuote, ListMarker, IsHtmlLine, StartsBlock, Prose;
    ProseLine(u, a);
    NoBar(u, a);
    assert ParagraphEnd(u, lines, 1) == 1;
    assert lines[0..1] == [a] && JoinLines([a]) == a;
  }

  /** A blank line separates paragraphs. */
  lemma TwoParagraphs(u: Unicode, a: string, b: string)
    requires SpaceSane(u) && Prose(u, a) && Prose(u, b)
    ensures ToHtml(u, [a, "", b]) == "<p>" + RenderInline(u, a) + "</p>\n" + "<p>" + RenderInline(u, b) + "</p>\n"
  {
    hide Blank, BlockAt, RenderBlock, Prose, RenderInline, JoinLines;
    var lines := [a, "", b];
    BlankEmpty(u);
    ParagraphThen(u, a, lines);
    LastParagraph(u, lines, b);
    assert ParseFrom(u, lines, 3) == [];
    assert ParseFrom(u, lines, 2) == [Placed(Paragraph(b), 2, 3)];
    assert ParseFrom(u, lines, 1) == ParseFrom(u, lines, 2);
    assert ParseFrom(u, lines, 0) == [Placed(Paragraph(a), 0, 1), Placed(Paragraph(b), 2, 3)];
    var bs := [Paragraph(a), Paragraph(b)];
    assert BlocksOf(ParseFrom(u, lines, 0)) == bs;
    PlainParagraph(u, a, map[]);
    PlainParagraph(u, b, map[]);
    assert bs[1..] == [Paragraph(b)] && bs[1..][1..] == [];
    OneRendered(u, Paragraph(b));
    var x, y := "<p>" + RenderInline(u, a) + "</p>\n", "<p>" + RenderInline(u, b) + "</p>\n";
    assert x + ("<p>" + RenderInline(u, b) + "</p>\n") == x + "<p>" + RenderInline(u, b) + "</p>\n";
  }

  lemma BlankEmpty(u: Unicode)
    ensures Blank(u, "")
  {
  }

  lemma LastParagraph(u: Unicode, lines: seq<string>, b: string)
    requires SpaceSane(u) && Prose(u, b) && |lines| == 3 && lines[2] == b
    ensures !Blank(u, b) && BlockAt(u, lines, 2) == (Paragraph(b), 3)
  {
    hide Blank, FenceOf, HeadingOf, IsRule, IsQuote, ListMarker, IsHtmlLine, StartsBlock, Prose;
    ProseLine(u, b);
    NoBar(u, b);
    assert lines[2..3] == [b] && JoinLines([b]) == b;
  }

  lemma PlainParagraph(u: Unicode, t: string, slugs: Slugs)
    requires SpaceSane(u) && Prose(u, t)
    ensures RenderBlock(u, Paragraph(t), slugs) == ("<p>" + RenderInline(u, t) + "</p>\n", slugs)
  {
    hide RenderLines, SplitOn, RenderInline, Element;
    JoinConsists([t]);
    assert JoinLines([t]) == t;
    ProseLines(u, [t]);
    var x := RenderInline(u, t);
    Tagged("p", x);
    assert "<" + "p" + ">" == "<p>" && "</" + "p" + ">" + "\n" == "</p>\n";
    assert "<p>" + x + "</" + "p" + ">" + "\n" == "<p>" + x + ("</" + "p" + ">" + "\n");
  }

  /** A line of raw HTML stands as it is. */
  lemma HtmlPage(u: Unicode, line: string)
    requires SpaceSane(u) && line != "" && line[0] == '<' && '|' !in line && IsHtmlLine(u, line)
    ensures ToHtml(u, [line]) == line + "\n"
  {
    hide Blank, FenceOf, HeadingOf, IsRule, IsQuote, ListMarker, IsHtmlLine;
    assert '!' <= '<' <= '~';
    ByFirst(u, line);
    var ls := [line];
    assert ls[0..1] == [line];
    HtmlLineKept(u, line);
    assert BlockAt(u, ls, 0) == (Html(line), 1);
    OneBlock(u, ls, Html(line));
  }

  lemma HtmlLineKept(u: Unicode, line: string)
    requires !Blank(u, line)
    ensures JoinLines(EmptyBlanks(u, [line])) == line
  {
    hide Blank;
    assert EmptyBlanks(u, [line]) == [line];
  }
}
