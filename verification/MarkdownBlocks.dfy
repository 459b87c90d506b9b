/** Block-level Markdown: classifying lines and grouping them into headings, code, quotes, lists,
    tables, raw HTML and paragraphs. */
module MarkdownBlocks {
  import opened Common
  import opened MarkdownInline

  datatype Align = NoAlign | AlignLeft | AlignCenter | AlignRight

  datatype Block =
    | Heading(level: nat, text: string)
    | Paragraph(text: string)
    | Code(lang: Option<string>, text: string)
    | Html(text: string)
    | Rule
    | Quote(inner: seq<Block>)
    | List(ordered: bool, start: nat, items: seq<Item>)
    | Table(head: seq<string>, align: seq<Align>, rows: seq<seq<string>>)

  /** A list item. */
  datatype Item = Item(blocks: seq<Block>)

  // ----- one line -----

  predicate IsSpace(c: char) { c == ' ' }

  predicate IsHash(c: char) { c == '#' }

  predicate IsBar(c: char) { c == '|' }

  predicate IsTab(c: char) { c == ' ' || c == '\t' }

  predicate IsColon(c: char) { c == ':' }

  predicate Starts(s: string, c: char) {
    s != "" && s[0] == c
  }

  function LeadingSpaces(line: string): (n: nat)
    ensures n <= |line|
  {
    SkipWhile(line, 0, |line|, IsSpace)
  }

  function Dedent(line: string, col: nat): string {
    line[Min(LeadingSpaces(line), col)..]
  }

  function StripCols(line: string, col: nat): (r: string)
    ensures |r| <= |line| && (col > 0 && line != "" ==> |r| < |line|)
  {
    if |line| <= col then "" else line[col..]
  }

  predicate Blank(u: Unicode, line: string) {
    Trim(u, line) == ""
  }

  function HeadingOf(u: Unicode, line: string): Option<(nat, string)> {
    if LeadingSpaces(line) > 3 then None
    else
      var trimmed := TrimStart(line, u.space);
      var hashes := SkipWhile(trimmed, 0, |trimmed|, IsHash);
      var rest := trimmed[hashes..];
      if hashes == 0 || hashes > 6 then None
      else if rest != "" && rest[0] != ' ' && rest[0] != '\t' then None
      else Some((hashes, TrimEnd(TrimEnd(Trim(u, rest), IsHash), u.space)))
  }

  function CountNot(s: string, c: char): nat {
    if s == "" then 0 else (if s[0] != c then 1 else 0) + CountNot(s[1..], c)
  }

  predicate IsRule(u: Unicode, line: string) {
    var t := Trim(u, line);
    && |t| >= 3 && (t[0] == '-' || t[0] == '*' || t[0] == '_')
    && CountNot(t, ' ') >= 3 && forall k | 0 <= k < |t| :: t[k] == t[0] || t[k] == ' '
  }

  /** Fence character, its count, and the info string. */
  function FenceOf(u: Unicode, line: string): Option<(char, nat, string)> {
    var indent := LeadingSpaces(line);
    var t := line[indent..];
    if indent > 3 || t == "" || (t[0] != '`' && t[0] != '~') then None
    else
      var n := RunLength(t, 0, |t|, t[0]);
      if n < 3 then None else Some((t[0], n, Trim(u, t[n..])))
  }

  predicate IsQuote(line: string) {
    var indent := LeadingSpaces(line);
    indent <= 3 && Starts(line[indent..], '>')
  }

  function QuoteStrip(line: string): (r: string)
    requires IsQuote(line)
    ensures |r| < |line|
  {
    var rest := line[LeadingSpaces(line)..][1..];
    if Starts(rest, ' ') then rest[1..] else rest
  }

  datatype Marker = Bullet(c: char) | Ordered(n: nat, delim: char)

  function Number(digits: string): nat {
    if digits == "" then 0
    else
      var d := digits[|digits| - 1];
      10 * Number(digits[..|digits| - 1]) + (if AsciiDigit(d) then d as int - '0' as int else 0)
  }

  /** Spaces after a marker that belong to it: one to four. */
  function MarkerSpaces(after: string): (n: nat)
    ensures n >= 1
  {
    if after == "" then 1 else Min(Max(SkipWhile(after, 0, |after|, IsTab), 1), 4)
  }

  predicate EndsMarker(after: string) {
    after == "" || after[0] == ' ' || after[0] == '\t'
  }

  /** Marker, its indent, and the column where the item's content starts. */
  function ListMarker(line: string): (r: Option<(Marker, nat, nat)>)
    ensures r.Some? ==> line != "" && r.value.2 > 0
  {
    var indent := LeadingSpaces(line);
    var rest := line[indent..];
    if indent > 3 || rest == "" then None
    else if rest[0] == '-' || rest[0] == '*' || rest[0] == '+' then
      if EndsMarker(rest[1..]) then Some((Bullet(rest[0]), indent, indent + 1 + MarkerSpaces(rest[1..]))) else None
    else
      var n := SkipWhile(rest, 0, |rest|, AsciiDigit);
      if n == 0 || n > 9 || n == |rest| || (rest[n] != '.' && rest[n] != ')') then None
      else
        var after := rest[n + 1..];
        if !EndsMarker(after) then None
        else Some((Ordered(Number(rest[..n]), rest[n]), indent, indent + n + 1 + MarkerSpaces(after)))
  }

  predicate SameKind(a: Marker, b: Marker) {
    (a.Bullet? && b.Bullet? && a.c == b.c) || (a.Ordered? && b.Ordered? && a.delim == b.delim)
  }

  function SplitOn(s: string, c: char, i: nat, cur: string): (r: seq<string>)
    requires i <= |s|
    ensures r != []
    decreases |s| - i
  {
    if i == |s| then [cur]
    else if s[i] == c then [cur] + SplitOn(s, c, i + 1, "")
    else SplitOn(s, c, i + 1, cur + [s[i]])
  }

  function CellAlign(u: Unicode, cell: string): Option<Align> {
    var t := Trim(u, cell);
    var dashes := TrimEnd(TrimStart(t, IsColon), IsColon);
    if dashes == "" || exists k | 0 <= k < |dashes| :: dashes[k] != '-' then None
    else
      var l, r := t[0] == ':', t[|t| - 1] == ':';
      Some(if l && r then AlignCenter else if l then AlignLeft else if r then AlignRight else NoAlign)
  }

  function CellAligns(u: Unicode, cells: seq<string>): Option<seq<Align>> {
    if cells == [] then Some([])
    else
      match CellAlign(u, cells[0])
      case None => None
      case Some(a) =>
        match CellAligns(u, cells[1..])
        case None => None
        case Some(rest) => Some([a] + rest)
  }

  function TableSeparator(u: Unicode, line: string): Option<seq<Align>> {
    var t := TrimEnd(TrimStart(Trim(u, line), IsBar), IsBar);
    if t == "" then None else CellAligns(u, SplitOn(t, '|', 0, ""))
  }

  function SplitCells(u: Unicode, t: string, i: nat, cur: string): (cells: seq<string>)
    requires i <= |t|
    decreases |t| - i
  {
    if i == |t| then [Trim(u, cur)]
    else if t[i] == '\\' && i + 1 < |t| then SplitCells(u, t, i + 2, cur + [t[i], t[i + 1]])
    else if t[i] == '|' then [Trim(u, cur)] + SplitCells(u, t, i + 1, "")
    else SplitCells(u, t, i + 1, cur + [t[i]])
  }

  function SplitRow(u: Unicode, line: string): seq<string> {
    var t := Trim(u, line);
    var t1 := if Starts(t, '|') then t[1..] else t;
    var t2 := if t1 != "" && t1[|t1| - 1] == '|' then t1[..|t1| - 1] else t1;
    SplitCells(u, t2, 0, "")
  }

  predicate IsHtmlLine(u: Unicode, line: string) {
    var t := Trim(u, line);
    Starts(t, '<') &&
    ("<!--" <= t ||
     (var rest := if Starts(t[1..], '/') then t[2..] else t[1..]; rest != "" && AsciiAlpha(rest[0])))
  }

  predicate StartsBlock(u: Unicode, line: string) {
    HeadingOf(u, line).Some? || IsRule(u, line) || FenceOf(u, line).Some? || IsQuote(line)
    || ListMarker(line).Some? || IsHtmlLine(u, line)
  }

  // ----- where a block ends -----

  /** The line that closes the fence, or the end. */
  function FenceEnd(u: Unicode, lines: seq<string>, i: nat, c: char, len: nat): (k: nat)
    requires i <= |lines|
    ensures i <= k <= |lines|
    decreases |lines| - i
  {
    if i == |lines| then i
    else
      match FenceOf(u, lines[i])
      case Some((c2, len2, info)) => if c2 == c && len2 >= len && info == "" then i else FenceEnd(u, lines, i + 1, c, len)
      case None => FenceEnd(u, lines, i + 1, c, len)
  }

  function QuoteEnd(lines: seq<string>, i: nat): (k: nat)
    requires i <= |lines|
    ensures i <= k <= |lines| && forall j | i <= j < k :: IsQuote(lines[j])
    decreases |lines| - i
  {
    if i < |lines| && IsQuote(lines[i]) then QuoteEnd(lines, i + 1) else i
  }

  function NextNonBlank(u: Unicode, lines: seq<string>, i: nat): (k: nat)
    requires i <= |lines|
    ensures i <= k <= |lines|
    decreases |lines| - i
  {
    if i < |lines| && Blank(u, lines[i]) then NextNonBlank(u, lines, i + 1) else i
  }

  /** The end of a list item whose content starts in column `col`. */
  function ItemEnd(u: Unicode, lines: seq<string>, i: nat, col: nat): (k: nat)
    requires i <= |lines|
    ensures i <= k <= |lines|
    decreases |lines| - i
  {
    if i == |lines| then i
    else if Blank(u, lines[i]) then
      var j := NextNonBlank(u, lines, i + 1);
      if j < |lines| && LeadingSpaces(lines[j]) >= col then ItemEnd(u, lines, i + 1, col) else i
    else if LeadingSpaces(lines[i]) >= col then ItemEnd(u, lines, i + 1, col)
    else i
  }

  function TableEnd(u: Unicode, lines: seq<string>, i: nat): (k: nat)
    requires i <= |lines|
    ensures i <= k <= |lines|
    decreases |lines| - i
  {
    if i < |lines| && '|' in lines[i] && !Blank(u, lines[i]) then TableEnd(u, lines, i + 1) else i
  }

  function HtmlEnd(u: Unicode, lines: seq<string>, i: nat): (k: nat)
    requires i <= |lines|
    ensures i <= k <= |lines|
    decreases |lines| - i
  {
    if i == |lines| then i
    else if Blank(u, lines[i]) then
      if i + 1 < |lines| && IsHtmlLine(u, lines[i + 1]) then HtmlEnd(u, lines, i + 1) else i
    else if IsHtmlLine(u, lines[i]) then HtmlEnd(u, lines, i + 1)
    else i
  }

  function ParagraphEnd(u: Unicode, lines: seq<string>, i: nat): (k: nat)
    requires i <= |lines|
    ensures i <= k <= |lines|
    decreases |lines| - i
  {
    if i < |lines| && !Blank(u, lines[i]) && !StartsBlock(u, lines[i]) then ParagraphEnd(u, lines, i + 1) else i
  }

  // ----- what a block contains -----

  function JoinLines(lines: seq<string>): string {
    if lines == [] then "" else if |lines| == 1 then lines[0] else lines[0] + "\n" + JoinLines(lines[1..])
  }

  function DedentAll(lines: seq<string>, col: nat): (r: seq<string>)
    ensures |r| == |lines| && forall k | 0 <= k < |lines| :: r[k] == Dedent(lines[k], col)
  {
    seq(|lines|, k requires 0 <= k < |lines| => Dedent(lines[k], col))
  }

  /** Blank lines inside a raw HTML block are emptied. */
  function EmptyBlanks(u: Unicode, lines: seq<string>): (r: seq<string>)
    ensures |r| == |lines| && forall k | 0 <= k < |lines| :: r[k] == if Blank(u, lines[k]) then "" else lines[k]
  {
    seq(|lines|, k requires 0 <= k < |lines| => if Blank(u, lines[k]) then "" else lines[k])
  }

  function Rows(u: Unicode, lines: seq<string>): (r: seq<seq<string>>)
    ensures |r| == |lines| && forall k | 0 <= k < |lines| :: r[k] == SplitRow(u, lines[k])
  {
    seq(|lines|, k requires 0 <= k < |lines| => SplitRow(u, lines[k]))
  }

  function Unquoted(lines: seq<string>): (r: seq<string>)
    requires forall k | 0 <= k < |lines| :: IsQuote(lines[k])
    ensures |r| == |lines| && forall k | 0 <= k < |lines| :: r[k] == QuoteStrip(lines[k])
  {
    seq(|lines|, k requires 0 <= k < |lines| => QuoteStrip(lines[k]))
  }

  /** The lines of an item, without its marker and indentation. */
  function ItemLines(u: Unicode, lines: seq<string>, col: nat): (r: seq<string>)
    ensures |r| == |lines|
    ensures forall k | 0 <= k < |lines| :: r[k] == if k > 0 && Blank(u, lines[k]) then "" else StripCols(lines[k], col)
  {
    seq(|lines|, k requires 0 <= k < |lines| => if k > 0 && Blank(u, lines[k]) then "" else StripCols(lines[k], col))
  }

  // ----- nested parsing terminates: the characters get fewer -----

  function Total(lines: seq<string>): nat {
    if lines == [] then 0 else |lines[0]| + Total(lines[1..])
  }

  lemma {:induction false} TotalSlice(lines: seq<string>, lo: nat, hi: nat)
    requires lo <= hi <= |lines|
    ensures Total(lines[lo..hi]) <= Total(lines)
    decreases |lines|
  {
    if lines != [] {
      if lo > 0 {
        TotalSlice(lines[1..], lo - 1, hi - 1);
        assert lines[1..][lo - 1..hi - 1] == lines[lo..hi];
      } else if hi > 0 {
        TotalSlice(lines[1..], 0, hi - 1);
        assert lines[0..hi][1..] == lines[1..][0..hi - 1];
      }
    }
  }

  lemma {:induction false} TotalShrinks(xs: seq<string>, ys: seq<string>)
    requires |xs| == |ys| && forall k | 0 <= k < |xs| :: |xs[k]| <= |ys[k]|
    ensures Total(xs) <= Total(ys)
    ensures xs != [] && |xs[0]| < |ys[0]| ==> Total(xs) < Total(ys)
    decreases |xs|
  {
    if xs != [] { TotalShrinks(xs[1..], ys[1..]); }
  }

  lemma UnquotedShrinks(lines: seq<string>, lo: nat, hi: nat)
    requires lo < hi <= |lines| && forall j | lo <= j < hi :: IsQuote(lines[j])
    ensures Total(Unquoted(lines[lo..hi])) < Total(lines)
  {
    TotalSlice(lines, lo, hi);
    TotalShrinks(Unquoted(lines[lo..hi]), lines[lo..hi]);
  }

  lemma ItemShrinks(u: Unicode, lines: seq<string>, lo: nat, hi: nat, col: nat)
    requires lo < hi <= |lines| && lines[lo] != "" && col > 0
    ensures Total(ItemLines(u, lines[lo..hi], col)) < Total(lines)
  {
    TotalSlice(lines, lo, hi);
    TotalShrinks(ItemLines(u, lines[lo..hi], col), lines[lo..hi]);
  }

  // ----- parsing -----

  /** A block with the range of lines it was made from. */
  datatype Placed = Placed(block: Block, lo: nat, hi: nat)

  function BlocksOf(ps: seq<Placed>): (bs: seq<Block>)
    ensures |bs| == |ps| && forall k | 0 <= k < |ps| :: bs[k] == ps[k].block
  {
    seq(|ps|, k requires 0 <= k < |ps| => ps[k].block)
  }

  function ParseFrom(u: Unicode, lines: seq<string>, i: nat): (ps: seq<Placed>)
    requires i <= |lines|
    decreases Total(lines), |lines| - i, 3
  {
    if i == |lines| then []
    else if Blank(u, lines[i]) then ParseFrom(u, lines, i + 1)
    else
      var (b, next) := BlockAt(u, lines, i);
      [Placed(b, i, next)] + ParseFrom(u, lines, next)
  }

  function BlockAt(u: Unicode, lines: seq<string>, i: nat): (r: (Block, nat))
    requires i < |lines| && !Blank(u, lines[i])
    ensures i < r.1 <= |lines|
    decreases Total(lines), |lines| - i, 2
  {
    var line := lines[i];
    if FenceOf(u, line).Some? then FencedAt(u, lines, i)
    else if HeadingOf(u, line).Some? then
      var (level, text) := HeadingOf(u, line).value;
      (Heading(level, text), i + 1)
    else if IsRule(u, line) then (Rule, i + 1)
    else if IsQuote(line) then QuoteAt(u, lines, i)
    else if ListMarker(line).Some? then ListAt(u, lines, i)
    else TextAt(u, lines, i)
  }

  function FirstWord(u: Unicode, info: string): Option<string> {
    var word := info[..SkipWhile(info, 0, |info|, (x: char) => !u.space(x))];
    if word == "" then None else Some(word)
  }

  function FencedAt(u: Unicode, lines: seq<string>, i: nat): (r: (Block, nat))
    requires i < |lines| && FenceOf(u, lines[i]).Some?
    ensures i < r.1 <= |lines|
  {
    var (c, len, info) := FenceOf(u, lines[i]).value;
    var k := FenceEnd(u, lines, i + 1, c, len);
    (Code(FirstWord(u, info), JoinLines(DedentAll(lines[i + 1..k], LeadingSpaces(lines[i])))), Min(k + 1, |lines|))
  }

  function QuoteAt(u: Unicode, lines: seq<string>, i: nat): (r: (Block, nat))
    requires i < |lines| && IsQuote(lines[i])
    ensures i < r.1 <= |lines|
    decreases Total(lines), |lines| - i, 1
  {
    var k := QuoteEnd(lines, i + 1);
    UnquotedShrinks(lines, i, k);
    (Quote(BlocksOf(ParseFrom(u, Unquoted(lines[i..k]), 0))), k)
  }

  function ListAt(u: Unicode, lines: seq<string>, i: nat): (r: (Block, nat))
    requires i < |lines| && !Blank(u, lines[i]) && ListMarker(lines[i]).Some?
    ensures i < r.1 <= |lines|
    decreases Total(lines), |lines| - i, 1
  {
    var (marker, indent, col) := ListMarker(lines[i]).value;
    var (items, k) := ItemsFrom(u, lines, i, marker, indent);
    (List(marker.Ordered?, if marker.Ordered? then marker.n else 1, items), k)
  }

  function TextAt(u: Unicode, lines: seq<string>, i: nat): (r: (Block, nat))
    requires i < |lines|
    ensures i < r.1 <= |lines|
  {
    if '|' in lines[i] && i + 1 < |lines| && TableSeparator(u, lines[i + 1]).Some? then
      var k := TableEnd(u, lines, i + 2);
      (Table(SplitRow(u, lines[i]), TableSeparator(u, lines[i + 1]).value, Rows(u, lines[i + 2..k])), k)
    else if IsHtmlLine(u, lines[i]) then
      var k := HtmlEnd(u, lines, i + 1);
      (Html(JoinLines(EmptyBlanks(u, lines[i..k]))), k)
    else
      var k := ParagraphEnd(u, lines, i + 1);
      (Paragraph(JoinLines(lines[i..k])), k)
  }

  /** Consecutive items with the marker kind and indent of the first one. */
  function ItemsFrom(u: Unicode, lines: seq<string>, i: nat, marker: Marker, indent: nat): (r: (seq<Item>, nat))
    requires i <= |lines|
    ensures i <= r.1 <= |lines|
    ensures i < |lines| && ItemStarts(u, lines[i], marker, indent) ==> i < r.1
    decreases Total(lines), |lines| - i, 0
  {
    if i == |lines| || !ItemStarts(u, lines[i], marker, indent) then ([], i)
    else
      var col := ListMarker(lines[i]).value.2;
      var k := ItemEnd(u, lines, i + 1, col);
      ItemShrinks(u, lines, i, k, col);
      var item := ItemLines(u, lines[i..k], col);
      var (rest, end) := ItemsFrom(u, lines, k, marker, indent);
      ([Item(BlocksOf(ParseFrom(u, item, 0)))] + rest, end)
  }

  predicate ItemStarts(u: Unicode, line: string, marker: Marker, indent: nat) {
    && !Blank(u, line) && ListMarker(line).Some?
    && SameKind(ListMarker(line).value.0, marker) && ListMarker(line).value.1 == indent
  }

  // ----- coverage -----

  /** From line `i` on, the blocks take up consecutive disjoint ranges, each starting at a line that is
      not blank, and every line outside them is blank. */
  ghost predicate Covers(u: Unicode, lines: seq<string>, i: nat, ps: seq<Placed>)
    decreases |ps|
  {
    var gap := if ps == [] then |lines| else ps[0].lo;
    && i <= gap <= |lines| && (forall x | i <= x < gap :: Blank(u, lines[x]))
    && (ps != [] ==>
          gap < ps[0].hi <= |lines| && !Blank(u, lines[gap]) && Covers(u, lines, ps[0].hi, ps[1..]))
  }

  lemma {:induction false} ParseCovers(u: Unicode, lines: seq<string>, i: nat)
    requires i <= |lines|
    ensures Covers(u, lines, i, ParseFrom(u, lines, i))
    decreases |lines| - i
  {
    hide BlockAt, Blank;
    if i < |lines| {
      if Blank(u, lines[i]) {
        ParseCovers(u, lines, i + 1);
      } else {
        var (b, next) := BlockAt(u, lines, i);
        ParseCovers(u, lines, next);
        assert ParseFrom(u, lines, i)[1..] == ParseFrom(u, lines, next);
      }
    }
  }

  /** Every line belongs to at most one block, and a line that is not blank to exactly one. */
  lemma {:induction false} LineInOneBlock(u: Unicode, lines: seq<string>, i: nat, ps: seq<Placed>, x: nat)
    requires Covers(u, lines, i, ps) && i <= x < |lines|
    ensures !Blank(u, lines[x]) ==> exists k | 0 <= k < |ps| :: ps[k].lo <= x < ps[k].hi
    ensures forall k | 0 <= k < |ps| :: i <= ps[k].lo
    ensures forall j, k | 0 <= j < k < |ps| :: ps[j].hi <= ps[k].lo
    decreases |ps|
  {
    if ps != [] {
      assert forall k | 0 < k < |ps| :: ps[k] == ps[1..][k - 1];
      if x >= ps[0].hi {
        LineInOneBlock(u, lines, ps[0].hi, ps[1..], x);
        if !Blank(u, lines[x]) {
          var k :| 0 <= k < |ps[1..]| && ps[1..][k].lo <= x < ps[1..][k].hi;
          assert ps[k + 1].lo <= x < ps[k + 1].hi;
        }
      } else {
        if x >= ps[0].lo { assert ps[0].lo <= x < ps[0].hi; }
        if ps[0].hi < |lines| {
          LineInOneBlock(u, lines, ps[0].hi, ps[1..], ps[0].hi);
        } else {
          assert ps[1..] == [];
        }
      }
    }
  }

  /** Line `j` belongs to an item whose content starts in column `col`: it is indented that far, or it is blank and
      the next line that is not blank is. */
  ghost predicate Continues(u: Unicode, lines: seq<string>, j: nat, col: nat)
    requires j < |lines|
  {
    if Blank(u, lines[j]) then exists m | j < m < |lines| :: Reaches(u, lines, j, m, col)
    else LeadingSpaces(lines[j]) >= col
  }

  /** Line `m` is the next one after `j` that is not blank, and it is indented to `col`. */
  ghost predicate Reaches(u: Unicode, lines: seq<string>, j: nat, m: nat, col: nat)
    requires j < m < |lines|
  {
    (forall x | j < x < m :: Blank(u, lines[x])) && !Blank(u, lines[m]) && LeadingSpaces(lines[m]) >= col
  }

  lemma {:induction false} NextNonBlankIs(u: Unicode, lines: seq<string>, i: nat)
    requires i <= |lines|
    ensures var k := NextNonBlank(u, lines, i);
      (forall x | i <= x < k :: Blank(u, lines[x])) && (k < |lines| ==> !Blank(u, lines[k]))
    decreases |lines| - i
  {
    hide Blank;
    if i < |lines| && Blank(u, lines[i]) { NextNonBlankIs(u, lines, i + 1); }
  }

  lemma BlankContinues(u: Unicode, lines: seq<string>, j: nat, col: nat)
    requires j < |lines| && Blank(u, lines[j])
    ensures var m := NextNonBlank(u, lines, j + 1);
      Continues(u, lines, j, col) <==> m < |lines| && LeadingSpaces(lines[m]) >= col
  {
    hide Blank, LeadingSpaces, NextNonBlank;
    NextNonBlankIs(u, lines, j + 1);
    var m := NextNonBlank(u, lines, j + 1);
    if m < |lines| && LeadingSpaces(lines[m]) >= col { assert Reaches(u, lines, j, m, col); }
    if Continues(u, lines, j, col) {
      var k :| j < k < |lines| && Reaches(u, lines, j, k, col);
      assert !Blank(u, lines[k]);
      assert m <= k;
    }
  }

  lemma {:induction false} ItemEndMeans(u: Unicode, lines: seq<string>, i: nat, col: nat)
    requires i <= |lines|
    ensures var k := ItemEnd(u, lines, i, col);
      && (forall j | i <= j < k :: Continues(u, lines, j, col)) && (k < |lines| ==> !Continues(u, lines, k, col))
    decreases |lines| - i
  {
    hide Blank, LeadingSpaces, NextNonBlank, Continues;
    if i < |lines| {
      if Blank(u, lines[i]) { BlankContinues(u, lines, i, col); } else { PlainContinues(u, lines, i, col); }
      if Continues(u, lines, i, col) { ItemEndMeans(u, lines, i + 1, col); }
    }
  }

  lemma PlainContinues(u: Unicode, lines: seq<string>, j: nat, col: nat)
    requires j < |lines| && !Blank(u, lines[j])
    ensures Continues(u, lines, j, col) <==> LeadingSpaces(lines[j]) >= col
  {
  }

  /** The items of a list come from consecutive stretches of its lines. */
  ghost predicate ItemsMade(u: Unicode, lines: seq<string>, lo: nat, hi: nat, items: seq<Item>, marker: Marker, indent: nat)
    requires lo <= hi <= |lines|
    decreases |items|
  {
    if items == [] then lo == hi
    else exists k | lo < k <= hi :: ItemMade(u, lines, lo, k, items[0], marker, indent) && ItemsMade(u, lines, k, hi, items[1..], marker, indent)
  }

  /** An item: a line with the marker of the list and all lines that continue it, stripped and parsed. */
  ghost predicate ItemMade(u: Unicode, lines: seq<string>, lo: nat, hi: nat, item: Item, marker: Marker, indent: nat)
    requires lo < hi <= |lines|
  {
    ItemStarts(u, lines[lo], marker, indent) &&
    var col := ListMarker(lines[lo]).value.2;
    && item.blocks == BlocksOf(ParseFrom(u, ItemLines(u, lines[lo..hi], col), 0))
    && (forall j | lo < j < hi :: Continues(u, lines, j, col)) && (hi < |lines| ==> !Continues(u, lines, hi, col))
  }

  lemma {:induction false} ItemsFromMade(u: Unicode, lines: seq<string>, i: nat, marker: Marker, indent: nat)
    requires i <= |lines|
    ensures var (items, end) := ItemsFrom(u, lines, i, marker, indent);
      ItemsMade(u, lines, i, end, items, marker, indent)
    decreases |lines| - i
  {
    hide ItemStarts, ParseFrom, ListMarker, ItemEnd, Continues, ItemLines;
    if i < |lines| && ItemStarts(u, lines[i], marker, indent) {
      MarkerOf(u, lines[i], marker, indent);
      var (items, end) := ItemsFrom(u, lines, i, marker, indent);
      var col := ListMarker(lines[i]).value.2;
      var next := ItemEnd(u, lines, i + 1, col);
      ItemEndMeans(u, lines, i + 1, col);
      ItemsFromMade(u, lines, next, marker, indent);
      assert ItemMade(u, lines, i, next, items[0], marker, indent);
    }
  }

  lemma MarkerOf(u: Unicode, line: string, marker: Marker, indent: nat)
    requires ItemStarts(u, line, marker, indent)
    ensures ListMarker(line).Some?
  {
  }

  // ----- the lines of a text -----

  predicate NoBreaks(ls: seq<string>) {
    forall k | 0 <= k < |ls| :: '\n' !in ls[k]
  }

  /** Split at newlines, `text` is `ls`. */
  predicate Consists(text: string, ls: seq<string>) {
    NoBreaks(ls) ==> if ls == [] then text == "" else SplitOn(text, '\n', 0, "") == ls
  }

  lemma {:induction false} SplitRest(s: string, c: char, i: nat, cur: string, k: nat)
    requires i <= k <= |s| && c !in s[i..k]
    ensures SplitOn(s, c, i, cur) == if k == |s| then [cur + s[i..k]] else SplitOn(s, c, k, cur + s[i..k])
    decreases k - i
  {
    if i < k {
      assert s[i] == s[i..k][0] && s[i..k] == [s[i]] + s[i + 1..k];
      SplitRest(s, c, i + 1, cur + [s[i]], k);
      assert cur + [s[i]] + s[i + 1..k] == cur + s[i..k];
    } else {
      assert s[i..k] == "" && cur + "" == cur;
    }
  }

  lemma {:induction false} SplitFrom(s: string, t: string, c: char, i: nat, cur: string)
    requires i <= |t| && |t| <= |s| && s[|s| - |t|..] == t
    ensures SplitOn(s, c, |s| - |t| + i, cur) == SplitOn(t, c, i, cur)
    decreases |t| - i
  {
    if i < |t| {
      assert s[|s| - |t| + i] == t[i];
      SplitFrom(s, t, c, i + 1, "");
      SplitFrom(s, t, c, i + 1, cur + [t[i]]);
    }
  }

  /** Lines joined by newlines split into the same lines again. */
  lemma {:induction false} JoinConsists(ls: seq<string>)
    ensures Consists(JoinLines(ls), ls)
    decreases |ls|
  {
    if ls != [] && NoBreaks(ls) {
      var s, a := JoinLines(ls), ls[0];
      assert s[0..|a|] == a && '\n' !in a;
      SplitRest(s, '\n', 0, "", |a|);
      assert "" + a == a;
      if |ls| > 1 {
        var t := JoinLines(ls[1..]);
        assert forall k | 0 <= k < |ls[1..]| :: ls[1..][k] == ls[k + 1];
        JoinConsists(ls[1..]);
        assert s == a + "\n" + t && s[|a|] == '\n';
        SplitFrom(s, t, '\n', 0, "");
        assert ls == [a] + ls[1..];
      } else {
        assert ls == [a];
      }
    }
  }

  // ----- what blocks are made of -----

  /** A line that is neither code, heading, rule, quote nor list item. */
  predicate Textual(u: Unicode, line: string) {
    FenceOf(u, line).None? && HeadingOf(u, line).None? && !IsRule(u, line) && !IsQuote(line) && ListMarker(line).None?
  }

  /** The line closes a code block opened by `len` characters `c`. */
  predicate ClosesFence(u: Unicode, line: string, c: char, len: nat) {
    match FenceOf(u, line)
    case None => false
    case Some((c2, len2, info)) => c2 == c && len2 >= len && info == ""
  }

  /** A code block: the opening line with its language, the lines up to the first closing one, and that line, or
      all lines to the end. */
  ghost predicate CodeMade(u: Unicode, lines: seq<string>, lo: nat, hi: nat, lang: Option<string>, text: string)
    requires lo < hi <= |lines|
  {
    FenceOf(u, lines[lo]).Some? &&
    var (c, len, info) := FenceOf(u, lines[lo]).value;
    var closed := hi - 1 > lo && ClosesFence(u, lines[hi - 1], c, len);
    var inner := DedentAll(lines[lo + 1..if closed then hi - 1 else hi], LeadingSpaces(lines[lo]));
    && lang == FirstWord(u, info) && text == JoinLines(inner) && Consists(text, inner)
    && (forall k | lo < k < hi - 1 :: !ClosesFence(u, lines[k], c, len)) && (!closed ==> hi == |lines|)
  }

  /** What a block is made of: its own lines, as many as belong to it. */
  ghost predicate MadeFrom(u: Unicode, lines: seq<string>, p: Placed)
    requires p.lo < p.hi <= |lines|
  {
    var own := lines[p.lo..p.hi];
    match p.block
    case Paragraph(text) =>
      && text == JoinLines(own) && Consists(text, own) && Textual(u, own[0]) && !IsHtmlLine(u, own[0])
      && (forall k | 0 < k < |own| :: !Blank(u, own[k]) && !StartsBlock(u, own[k]))
      && (p.hi < |lines| ==> Blank(u, lines[p.hi]) || StartsBlock(u, lines[p.hi]))
    case Html(text) =>
      && text == JoinLines(EmptyBlanks(u, own)) && Consists(text, EmptyBlanks(u, own)) && Textual(u, own[0]) && IsHtmlLine(u, own[0])
      && (forall k | 0 < k < |own| :: IsHtmlLine(u, own[k]) || (Blank(u, own[k]) && k + 1 < |own| && IsHtmlLine(u, own[k + 1])))
      && (p.hi < |lines| ==> !IsHtmlLine(u, lines[p.hi]))
    case Code(lang, text) => CodeMade(u, lines, p.lo, p.hi, lang, text)
    case Quote(inner) =>
      && (forall k | 0 <= k < |own| :: IsQuote(own[k])) && (p.hi < |lines| ==> !IsQuote(lines[p.hi]))
      && inner == BlocksOf(ParseFrom(u, Unquoted(own), 0))
    case Table(head, align, rows) =>
      && |own| >= 2 && Textual(u, own[0]) && head == SplitRow(u, own[0]) && TableSeparator(u, own[1]) == Some(align)
      && rows == Rows(u, own[2..]) && (p.hi < |lines| ==> '|' !in lines[p.hi] || Blank(u, lines[p.hi]))
    case Heading(level, text) => |own| == 1 && HeadingOf(u, own[0]) == Some((level, text))
    case Rule => |own| == 1 && IsRule(u, own[0])
    case List(ordered, start, items) =>
      ListMarker(own[0]).Some? && !IsRule(u, own[0]) &&
      var (marker, indent, _) := ListMarker(own[0]).value;
      && ordered == marker.Ordered? && start == (if marker.Ordered? then marker.n else 1)
      && ItemsMade(u, lines, p.lo, p.hi, items, marker, indent)
      && (p.hi < |lines| ==> !ItemStarts(u, lines[p.hi], marker, indent))
  }

  lemma {:induction false} FenceEndCloses(u: Unicode, lines: seq<string>, i: nat, c: char, len: nat)
    requires i <= |lines|
    ensures var k := FenceEnd(u, lines, i, c, len);
      && (k < |lines| ==> ClosesFence(u, lines[k], c, len))
      && forall x | i <= x < k :: !ClosesFence(u, lines[x], c, len)
    decreases |lines| - i
  {
    hide FenceOf;
    if i < |lines| { FenceEndCloses(u, lines, i + 1, c, len); }
  }

  lemma FencedMade(u: Unicode, lines: seq<string>, i: nat)
    requires i < |lines| && FenceOf(u, lines[i]).Some?
    ensures MadeFrom(u, lines, Placed(FencedAt(u, lines, i).0, i, FencedAt(u, lines, i).1))
  {
    hide FenceOf, FenceEnd, JoinLines, FirstWord, LeadingSpaces, DedentAll, Consists, ClosesFence;
    var (c, len, info) := FenceOf(u, lines[i]).value;
    var k := FenceEnd(u, lines, i + 1, c, len);
    FenceEndCloses(u, lines, i + 1, c, len);
    JoinConsists(DedentAll(lines[i + 1..k], LeadingSpaces(lines[i])));
    assert CodeMade(u, lines, i, Min(k + 1, |lines|), FencedAt(u, lines, i).0.lang, FencedAt(u, lines, i).0.text);
  }

  lemma {:induction false} ParagraphLines(u: Unicode, lines: seq<string>, i: nat, x: nat)
    requires i <= |lines| && i <= x < ParagraphEnd(u, lines, i)
    ensures !Blank(u, lines[x]) && !StartsBlock(u, lines[x])
    decreases |lines| - i
  {
    hide Blank, StartsBlock;
    if x > i { ParagraphLines(u, lines, i + 1, x); }
  }

  lemma {:induction false} ParagraphStops(u: Unicode, lines: seq<string>, i: nat)
    requires i <= |lines|
    ensures var k := ParagraphEnd(u, lines, i); k < |lines| ==> Blank(u, lines[k]) || StartsBlock(u, lines[k])
    decreases |lines| - i
  {
    hide Blank, StartsBlock;
    if i < |lines| && !Blank(u, lines[i]) && !StartsBlock(u, lines[i]) { ParagraphStops(u, lines, i + 1); }
  }

  lemma {:induction false} HtmlLines(u: Unicode, lines: seq<string>, i: nat, x: nat)
    requires i <= |lines| && i <= x < HtmlEnd(u, lines, i)
    ensures IsHtmlLine(u, lines[x]) || (Blank(u, lines[x]) && x + 1 < HtmlEnd(u, lines, i) && IsHtmlLine(u, lines[x + 1]))
    decreases |lines| - i
  {
    hide Blank, IsHtmlLine;
    if x > i {
      HtmlLines(u, lines, i + 1, x);
    } else if Blank(u, lines[i]) {
      HtmlNotBlank(u, lines[i + 1]);
    }
  }

  lemma HtmlNotBlank(u: Unicode, line: string)
    requires IsHtmlLine(u, line)
    ensures !Blank(u, line)
  {
  }

  lemma {:induction false} HtmlStops(u: Unicode, lines: seq<string>, i: nat)
    requires i <= |lines|
    ensures var k := HtmlEnd(u, lines, i); k < |lines| ==> !IsHtmlLine(u, lines[k])
    decreases |lines| - i
  {
    hide Blank, IsHtmlLine;
    if i < |lines| {
      if IsHtmlLine(u, lines[i]) { HtmlNotBlank(u, lines[i]); }
      if HtmlEnd(u, lines, i) > i { HtmlStops(u, lines, i + 1); }
    }
  }

  lemma {:induction false} TableStops(u: Unicode, lines: seq<string>, i: nat)
    requires i <= |lines|
    ensures var k := TableEnd(u, lines, i); k < |lines| ==> '|' !in lines[k] || Blank(u, lines[k])
    decreases |lines| - i
  {
    hide Blank;
    if i < |lines| && '|' in lines[i] && !Blank(u, lines[i]) { TableStops(u, lines, i + 1); }
  }

  lemma {:induction false} QuoteStops(lines: seq<string>, i: nat)
    requires i <= |lines|
    ensures var k := QuoteEnd(lines, i); k < |lines| ==> !IsQuote(lines[k])
    decreases |lines| - i
  {
    hide IsQuote;
    if i < |lines| && IsQuote(lines[i]) { QuoteStops(lines, i + 1); }
  }

  lemma {:induction false} ItemsStop(u: Unicode, lines: seq<string>, i: nat, marker: Marker, indent: nat)
    requires i <= |lines|
    ensures var k := ItemsFrom(u, lines, i, marker, indent).1; k < |lines| ==> !ItemStarts(u, lines[k], marker, indent)
    decreases |lines| - i
  {
    hide ItemStarts, ParseFrom, ListMarker, ItemEnd, ItemLines;
    if i < |lines| && ItemStarts(u, lines[i], marker, indent) {
      MarkerOf(u, lines[i], marker, indent);
      ItemsStop(u, lines, ItemEnd(u, lines, i + 1, ListMarker(lines[i]).value.2), marker, indent);
    }
  }

  lemma TextMade(u: Unicode, lines: seq<string>, i: nat)
    requires i < |lines| && Textual(u, lines[i])
    ensures MadeFrom(u, lines, Placed(TextAt(u, lines, i).0, i, TextAt(u, lines, i).1))
  {
    hide Blank, StartsBlock, JoinLines, TableSeparator, SplitRow, IsHtmlLine, TableEnd, HtmlEnd, ParagraphEnd, Consists, Textual;
    var (b, k) := TextAt(u, lines, i);
    var own := lines[i..k];
    if b.Table? {
      assert own[2..] == lines[i + 2..k] && own[1] == lines[i + 1];
      TableStops(u, lines, i + 2);
    } else if b.Html? {
      JoinConsists(EmptyBlanks(u, own));
      HtmlStops(u, lines, i + 1);
      forall x | 0 < x < |own|
        ensures IsHtmlLine(u, own[x]) || (Blank(u, own[x]) && x + 1 < |own| && IsHtmlLine(u, own[x + 1]))
      {
        HtmlLines(u, lines, i + 1, i + x);
      }
    } else {
      JoinConsists(own);
      ParagraphStops(u, lines, i + 1);
      forall x | 0 < x < |own| ensures !Blank(u, own[x]) && !StartsBlock(u, own[x]) {
        ParagraphLines(u, lines, i + 1, i + x);
      }
    }
  }

  lemma QuoteMade(u: Unicode, lines: seq<string>, i: nat)
    requires i < |lines| && IsQuote(lines[i])
    ensures MadeFrom(u, lines, Placed(QuoteAt(u, lines, i).0, i, QuoteAt(u, lines, i).1))
  {
    hide IsQuote, ParseFrom, Unquoted;
    var k := QuoteEnd(lines, i + 1);
    QuoteStops(lines, i + 1);
    var own := lines[i..k];
    assert forall x | 0 <= x < |own| :: IsQuote(own[x]);
  }

  lemma ListMade(u: Unicode, lines: seq<string>, i: nat)
    requires i < |lines| && !Blank(u, lines[i]) && ListMarker(lines[i]).Some? && !IsRule(u, lines[i])
    ensures MadeFrom(u, lines, Placed(ListAt(u, lines, i).0, i, ListAt(u, lines, i).1))
  {
    hide Blank, ListMarker, ItemsFrom, ItemsMade, ItemStarts, IsRule;
    var (marker, indent, _) := ListMarker(lines[i]).value;
    ItemsFromMade(u, lines, i, marker, indent);
    ItemsStop(u, lines, i, marker, indent);
    assert lines[i..ListAt(u, lines, i).1][0] == lines[i];
  }

  /** Every block is made from exactly the lines of its range. */
  lemma BlockMade(u: Unicode, lines: seq<string>, i: nat)
    requires i < |lines| && !Blank(u, lines[i])
    ensures MadeFrom(u, lines, Placed(BlockAt(u, lines, i).0, i, BlockAt(u, lines, i).1))
  {
    hide Blank, FencedAt, QuoteAt, ListAt, TextAt, FenceOf, IsQuote, HeadingOf, IsRule, ListMarker;
    var line := lines[i];
    if FenceOf(u, line).Some? {
      FencedMade(u, lines, i);
    } else if HeadingOf(u, line).Some? {
      var (level, text) := HeadingOf(u, line).value;
      assert lines[i..i + 1] == [line] && HeadingOf(u, line) == Some((level, text));
    } else if IsRule(u, line) {
      assert lines[i..i + 1] == [line];
    } else if IsQuote(line) {
      QuoteMade(u, lines, i);
    } else if ListMarker(line).Some? {
      ListMade(u, lines, i);
    } else {
      TextMade(u, lines, i);
    }
  }

  lemma {:induction false} ParseMade(u: Unicode, lines: seq<string>, i: nat, k: nat)
    requires i <= |lines| && k < |ParseFrom(u, lines, i)|
    ensures var p := ParseFrom(u, lines, i)[k]; p.lo < p.hi <= |lines| && MadeFrom(u, lines, p)
    decreases |lines| - i
  {
    hide BlockAt, Blank, MadeFrom;
    if Blank(u, lines[i]) {
      ParseMade(u, lines, i + 1, k);
    } else {
      BlockMade(u, lines, i);
      if k > 0 { ParseMade(u, lines, BlockAt(u, lines, i).1, k - 1); }
    }
  }
}
