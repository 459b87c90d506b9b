/** `parse_blocks` in the form of its loops: one outer loop over the lines, and for each kind of block a
    loop that collects its lines. */
module MarkdownParser {
  import opened Common
  import opened MarkdownInline
  import opened MarkdownBlocks

  /** The lines up to the closing fence. */
  method CollectFenced(u: Unicode, lines: seq<string>, i: nat) returns (b: Block, next: nat)
    requires i < |lines| && FenceOf(u, lines[i]).Some?
    ensures (b, next) == FencedAt(u, lines, i)
  {
    hide FenceOf, LeadingSpaces, Dedent, JoinLines, FirstWord;
    var (c, len, info) := FenceOf(u, lines[i]).value;
    var indent, code := LeadingSpaces(lines[i]), [];
    ghost var k := FenceEnd(u, lines, i + 1, c, len);
    next := i + 1;
    while next < |lines|
      invariant i < next <= |lines| && FenceEnd(u, lines, next, c, len) == k
      invariant code == DedentAll(lines[i + 1..next], indent)
    {
      var f := FenceOf(u, lines[next]);
      if f.Some? && f.value.0 == c && f.value.1 >= len && f.value.2 == "" {
        next := next + 1;
        return Code(FirstWord(u, info), JoinLines(code)), next;
      }
      code := code + [Dedent(lines[next], indent)];
      next := next + 1;
    }
    b := Code(FirstWord(u, info), JoinLines(code));
  }

  method CollectQuote(u: Unicode, lines: seq<string>, i: nat) returns (b: Block, next: nat)
    requires i < |lines| && IsQuote(lines[i])
    ensures (b, next) == QuoteAt(u, lines, i)
    decreases Total(lines), 0
  {
    var quoted;
    quoted, next := QuotedLines(lines, i);
    UnquotedShrinks(lines, i, next);
    var inner := ParseBlocks(u, quoted);
    b := Quote(inner);
  }

  method QuotedLines(lines: seq<string>, i: nat) returns (quoted: seq<string>, next: nat)
    requires i < |lines| && IsQuote(lines[i])
    ensures next == QuoteEnd(lines, i + 1) && quoted == Unquoted(lines[i..next])
  {
    hide IsQuote, QuoteStrip;
    quoted, next := [], i;
    while next < |lines| && IsQuote(lines[next])
      invariant i <= next <= |lines| && QuoteEnd(lines, i) == QuoteEnd(lines, next)
      invariant forall j | i <= j < next :: IsQuote(lines[j])
      invariant quoted == Unquoted(lines[i..next])
    {
      quoted := quoted + [QuoteStrip(lines[next])];
      next := next + 1;
    }
  }

  /** The first line from `i` on that is not blank. */
  method SkipBlank(u: Unicode, lines: seq<string>, i: nat) returns (j: nat)
    requires i <= |lines|
    ensures j == NextNonBlank(u, lines, i)
  {
    hide Blank;
    j := i;
    while j < |lines| && Blank(u, lines[j])
      invariant i <= j <= |lines| && NextNonBlank(u, lines, i) == NextNonBlank(u, lines, j)
    {
      j := j + 1;
    }
  }

  lemma ItemLinesSnoc(u: Unicode, lines: seq<string>, i: nat, k: nat, col: nat)
    requires i < k < |lines|
    ensures ItemLines(u, lines[i..k + 1], col)
      == ItemLines(u, lines[i..k], col) + [if Blank(u, lines[k]) then "" else StripCols(lines[k], col)]
  {
    hide Blank, StripCols;
    var a, b := lines[i..k], lines[i..k + 1];
    assert b == a + [lines[k]];
  }

  lemma FirstItemLine(u: Unicode, lines: seq<string>, i: nat, col: nat)
    requires i < |lines|
    ensures ItemLines(u, lines[i..i + 1], col) == [StripCols(lines[i], col)]
  {
    assert lines[i..i + 1] == [lines[i]];
  }

  /** The lines of one item, stripped of its marker and indentation. */
  method CollectItem(u: Unicode, lines: seq<string>, i: nat, col: nat) returns (item: seq<string>, next: nat)
    requires i < |lines|
    ensures next == ItemEnd(u, lines, i + 1, col) && item == ItemLines(u, lines[i..next], col)
  {
    hide Blank, LeadingSpaces, StripCols, ItemLines, NextNonBlank;
    FirstItemLine(u, lines, i, col);
    item, next := [StripCols(lines[i], col)], i + 1;
    while next < |lines|
      invariant i < next <= |lines| && ItemEnd(u, lines, i + 1, col) == ItemEnd(u, lines, next, col)
      invariant item == ItemLines(u, lines[i..next], col)
    {
      ItemLinesSnoc(u, lines, i, next, col);
      if Blank(u, lines[next]) {
        var j := SkipBlank(u, lines, next + 1);
        if j == |lines| || LeadingSpaces(lines[j]) < col { return; }
        item := item + [""];
      } else {
        if LeadingSpaces(lines[next]) < col { return; }
        item := item + [StripCols(lines[next], col)];
      }
      next := next + 1;
    }
  }

  lemma ItemsStep(u: Unicode, lines: seq<string>, i: nat, marker: Marker, indent: nat)
    requires i <= |lines|
    ensures ItemsFrom(u, lines, i, marker, indent) ==
      if i == |lines| || !ItemStarts(u, lines[i], marker, indent) then ([], i)
      else
        var col := ListMarker(lines[i]).value.2;
        var k := ItemEnd(u, lines, i + 1, col);
        var (rest, end) := ItemsFrom(u, lines, k, marker, indent);
        ([Item(BlocksOf(ParseFrom(u, ItemLines(u, lines[i..k], col), 0)))] + rest, end)
  {
    hide Blank, ListMarker, ItemEnd, ItemLines, ParseFrom, SameKind;
  }

  /** Consecutive items of one list. */
  method CollectList(u: Unicode, lines: seq<string>, i: nat) returns (b: Block, next: nat)
    requires i < |lines| && !Blank(u, lines[i]) && ListMarker(lines[i]).Some?
    ensures (b, next) == ListAt(u, lines, i)
    decreases Total(lines), 0
  {
    hide Blank, ListMarker, ItemEnd, ItemLines, ParseFrom, SameKind, ItemsFrom, BlocksOf;
    var (marker, indent, _) := ListMarker(lines[i]).value;
    ghost var all := ItemsFrom(u, lines, i, marker, indent);
    var items: seq<Item> := [];
    next := i;
    assert all.0 == items + all.0;
    while next < |lines| && ItemStarts(u, lines[next], marker, indent)
      invariant i <= next <= |lines|
      invariant all.0 == items + ItemsFrom(u, lines, next, marker, indent).0
      invariant all.1 == ItemsFrom(u, lines, next, marker, indent).1
    {
      ItemsStep(u, lines, next, marker, indent);
      var col := ListMarker(lines[next]).value.2;
      var item, k := CollectItem(u, lines, next, col);
      ItemShrinks(u, lines, next, k, col);
      var inner := ParseBlocks(u, item);
      ghost var rest := ItemsFrom(u, lines, k, marker, indent).0;
      assert items + ([Item(inner)] + rest) == items + [Item(inner)] + rest;
      items := items + [Item(inner)];
      next := k;
    }
    ItemsStep(u, lines, next, marker, indent);
    assert items + [] == items;
    b := List(marker.Ordered?, if marker.Ordered? then marker.n else 1, items);
  }

  method CollectTable(u: Unicode, lines: seq<string>, i: nat) returns (rows: seq<seq<string>>, next: nat)
    requires i <= |lines|
    ensures next == TableEnd(u, lines, i) && rows == Rows(u, lines[i..next])
  {
    hide Blank, SplitRow;
    rows, next := [], i;
    while next < |lines| && '|' in lines[next] && !Blank(u, lines[next])
      invariant i <= next <= |lines| && TableEnd(u, lines, i) == TableEnd(u, lines, next)
      invariant rows == Rows(u, lines[i..next])
    {
      rows := rows + [SplitRow(u, lines[next])];
      next := next + 1;
    }
  }

  method CollectHtml(u: Unicode, lines: seq<string>, i: nat) returns (html: seq<string>, next: nat)
    requires i < |lines| && !Blank(u, lines[i])
    ensures next == HtmlEnd(u, lines, i + 1) && html == EmptyBlanks(u, lines[i..next])
  {
    hide Blank, IsHtmlLine;
    html, next := [lines[i]], i + 1;
    while next < |lines|
      invariant i < next <= |lines| && HtmlEnd(u, lines, i + 1) == HtmlEnd(u, lines, next)
      invariant html == EmptyBlanks(u, lines[i..next])
    {
      if Blank(u, lines[next]) {
        if next + 1 >= |lines| || !IsHtmlLine(u, lines[next + 1]) { return; }
        html := html + [""];
      } else {
        if !IsHtmlLine(u, lines[next]) { return; }
        html := html + [lines[next]];
      }
      next := next + 1;
    }
  }

  method CollectParagraph(u: Unicode, lines: seq<string>, i: nat) returns (para: seq<string>, next: nat)
    requires i < |lines|
    ensures next == ParagraphEnd(u, lines, i + 1) && para == lines[i..next]
  {
    hide Blank, StartsBlock;
    para, next := [lines[i]], i + 1;
    while next < |lines| && !Blank(u, lines[next]) && !StartsBlock(u, lines[next])
      invariant i < next <= |lines| && ParagraphEnd(u, lines, i + 1) == ParagraphEnd(u, lines, next)
      invariant para == lines[i..next]
    {
      assert lines[i..next + 1] == lines[i..next] + [lines[next]];
      para := para + [lines[next]];
      next := next + 1;
    }
  }

  /** A table, raw HTML or a paragraph. */
  method CollectText(u: Unicode, lines: seq<string>, i: nat) returns (b: Block, next: nat)
    requires i < |lines| && !Blank(u, lines[i])
    ensures (b, next) == TextAt(u, lines, i)
  {
    hide Blank, SplitRow, TableSeparator, IsHtmlLine, JoinLines, TableEnd, HtmlEnd, ParagraphEnd;
    if '|' in lines[i] && i + 1 < |lines| {
      var aligns := TableSeparator(u, lines[i + 1]);
      if aligns.Some? {
        var rows;
        rows, next := CollectTable(u, lines, i + 2);
        return Table(SplitRow(u, lines[i]), aligns.value, rows), next;
      }
    }
    if IsHtmlLine(u, lines[i]) {
      var html;
      html, next := CollectHtml(u, lines, i);
      return Html(JoinLines(html)), next;
    }
    var para;
    para, next := CollectParagraph(u, lines, i);
    b := Paragraph(JoinLines(para));
  }

  method CollectBlock(u: Unicode, lines: seq<string>, i: nat) returns (b: Block, next: nat)
    requires i < |lines| && !Blank(u, lines[i])
    ensures (b, next) == BlockAt(u, lines, i)
    decreases Total(lines), 1
  {
    hide Blank, FenceOf, HeadingOf, IsRule, IsQuote, ListMarker, FencedAt, QuoteAt, ListAt, TextAt;
    var line := lines[i];
    if FenceOf(u, line).Some? {
      b, next := CollectFenced(u, lines, i);
    } else if HeadingOf(u, line).Some? {
      var (level, text) := HeadingOf(u, line).value;
      b, next := Heading(level, text), i + 1;
    } else if IsRule(u, line) {
      b, next := Rule, i + 1;
    } else if IsQuote(line) {
      b, next := CollectQuote(u, lines, i);
    } else if ListMarker(line).Some? {
      b, next := CollectList(u, lines, i);
    } else {
      b, next := CollectText(u, lines, i);
    }
  }

  /** `parse_blocks`. */
  method ParseBlocks(u: Unicode, lines: seq<string>) returns (blocks: seq<Block>)
    ensures blocks == BlocksOf(ParseFrom(u, lines, 0))
    decreases Total(lines), 2
  {
    hide BlockAt, Blank;
    blocks := [];
    ghost var ps := [];
    var i := 0;
    while i < |lines|
      invariant i <= |lines|
      invariant blocks == BlocksOf(ps) && ps + ParseFrom(u, lines, i) == ParseFrom(u, lines, 0)
    {
      if Blank(u, lines[i]) {
        i := i + 1;
        continue;
      }
      var b, next := CollectBlock(u, lines, i);
      blocks := blocks + [b];
      ps := ps + [Placed(b, i, next)];
      i := next;
    }
  }
}
