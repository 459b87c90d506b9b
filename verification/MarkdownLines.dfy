/** What each kind of line is, stated on its text: headings, rules, fences, quotes, list items, table rows and
    separators, and raw HTML. */
module MarkdownLines {
  import opened Common
  import opened MarkdownInline
  import opened MarkdownBlocks
  import opened MarkdownDocument
  import opened MarkdownSlugs
  import opened MarkdownEquations

  /** White space has the space in it and no visible ASCII character. */
  ghost predicate SpaceSane(u: Unicode) {
    u.space(' ') && forall c | '!' <= c <= '~' :: !u.space(c)
  }

  /** `n` spaces and a text that starts with none. */
  function Indented(n: nat, t: string): string {
    Repeat(' ', n) + t
  }

  lemma IndentIs(n: nat, t: string)
    requires t == "" || t[0] != ' '
    ensures LeadingSpaces(Indented(n, t)) == n && Indented(n, t)[n..] == t
  {
    var s := Indented(n, t);
    SkipsTo(s, 0, n, |s|, IsSpace);
  }

  // ----- trimming -----

  lemma {:induction false} TrimEndMeans(s: string, p: char -> bool) returns (b: nat)
    ensures b <= |s| && TrimEnd(s, p) == s[..b] && (forall k | b <= k < |s| :: p(s[k])) && (b == 0 || !p(s[b - 1]))
    decreases |s|
  {
    if s != "" && p(s[|s| - 1]) {
      var t := s[..|s| - 1];
      b := TrimEndMeans(t, p);
      assert t[..b] == s[..b];
    } else {
      b := |s|;
    }
  }

  /** Trimming cuts white space off both ends and nothing else. */
  lemma TrimMeans(u: Unicode, s: string) returns (a: nat, b: nat)
    ensures a <= b <= |s| && Trim(u, s) == s[a..b]
    ensures (forall k | 0 <= k < a || b <= k < |s| :: u.space(s[k])) && (a < b ==> !u.space(s[a]) && !u.space(s[b - 1]))
  {
    a := SkipWhile(s, 0, |s|, u.space);
    var t := s[a..];
    var c := TrimEndMeans(t, u.space);
    b := a + c;
    assert t[..c] == s[a..b];
    if c > 0 { assert t[c - 1] == s[b - 1] && t[0] == s[a]; }
    forall k | b <= k < |s| ensures u.space(s[k]) { assert s[k] == t[k - a]; }
  }

  lemma TrimEndKeeps(s: string, p: char -> bool)
    requires s == "" || !p(s[|s| - 1])
    ensures TrimEnd(s, p) == s
  {
  }

  lemma {:induction false} TrimEndCuts(s: string, t: string, p: char -> bool)
    requires forall k | 0 <= k < |t| :: p(t[k])
    ensures TrimEnd(s + t, p) == TrimEnd(s, p)
    decreases |t|
  {
    if t == "" {
      assert s + t == s;
    } else {
      var n := |t| - 1;
      assert (s + t)[..|s + t| - 1] == s + t[..n];
      TrimEndCuts(s, t[..n], p);
    }
  }

  lemma TrimIndent(u: Unicode, n: nat, t: string)
    requires u.space(' ') && t != "" && !u.space(t[0])
    ensures TrimStart(Indented(n, t), u.space) == t
  {
    var s := Indented(n, t);
    SkipsTo(s, 0, n, |s|, u.space);
    assert s[n..] == t;
  }

  // ----- headings -----

  function HashLine(pre: nat, n: nat, t: string): string {
    Indented(pre, Repeat('#', n) + t)
  }

  lemma HashesIs(u: Unicode, pre: nat, n: nat, t: string)
    requires SpaceSane(u) && n > 0 && (t == "" || t[0] != '#')
    ensures var line := HashLine(pre, n, t);
      && LeadingSpaces(line) == pre
      && var s := TrimStart(line, u.space); SkipWhile(s, 0, |s|, IsHash) == n && s[n..] == t
  {
    hide SkipWhile;
    var h := Repeat('#', n) + t;
    assert h[0] == '#' && '!' <= '#' <= '~';
    IndentIs(pre, h);
    TrimIndent(u, pre, h);
    SkipsTo(h, 0, n, |h|, IsHash);
    assert h[n..] == t;
  }

  /** One to six hashes and a space, indented at most three columns, with or without closing hashes. */
  lemma HeadingIs(u: Unicode, pre: nat, n: nat, t: string, m: nat)
    requires SpaceSane(u) && n > 0 && Trimmed(u, t) && (t == "" || t[|t| - 1] != '#')
    ensures HeadingOf(u, HashLine(pre, n, " " + t)) == if pre <= 3 && n <= 6 then Some((n, t)) else None
    ensures t != "" ==>
      HeadingOf(u, HashLine(pre, n, " " + t + " " + Repeat('#', m))) == if pre <= 3 && n <= 6 then Some((n, t)) else None
  {
    hide HashLine, SkipWhile, TrimStart, TrimEnd;
    HashesIs(u, pre, n, " " + t);
    SpacedTrim(u, t);
    TrimEndKeeps(t, IsHash);
    TrimEndKeeps(t, u.space);
    if t != "" {
      var rest := " " + t + " " + Repeat('#', m);
      HashesIs(u, pre, n, rest);
      ClosedTrim(u, t, m);
    }
  }

  lemma SpacedTrim(u: Unicode, t: string)
    requires u.space(' ') && Trimmed(u, t)
    ensures Trim(u, " " + t) == t
  {
    var s := " " + t;
    SkipsTo(s, 0, 1, |s|, u.space);
    assert s[1..] == t;
    TrimEndKeeps(t, u.space);
  }

  lemma ClosedTrim(u: Unicode, t: string, m: nat)
    requires SpaceSane(u) && t != "" && Trimmed(u, t) && t[|t| - 1] != '#'
    ensures var rest := " " + t + " " + Repeat('#', m); TrimEnd(TrimEnd(Trim(u, rest), IsHash), u.space) == t
  {
    hide SkipWhile, TrimEnd;
    var rest := " " + t + " " + Repeat('#', m);
    SkipsTo(rest, 0, 1, |rest|, u.space);
    var body := t + " " + Repeat('#', m);
    assert rest[1..] == body;
    assert '!' <= '#' <= '~';
    if m > 0 {
      TrimEndKeeps(body, u.space);
      TrimEndCuts(t + " ", Repeat('#', m), IsHash);
      TrimEndKeeps(t + " ", IsHash);
    } else {
      assert body == t + " ";
      TrimEndCuts(t, " ", u.space);
      TrimEndKeeps(t, u.space);
      TrimEndKeeps(t, IsHash);
    }
    TrimEndCuts(t, " ", u.space);
    TrimEndKeeps(t, u.space);
  }

  /** Hashes that run into the text are no heading. */
  lemma HashTag(u: Unicode, pre: nat, n: nat, t: string)
    requires SpaceSane(u) && n > 0 && t != "" && t[0] !in "# \t"
    ensures HeadingOf(u, HashLine(pre, n, t)) == None
  {
    hide HashLine, SkipWhile, TrimStart;
    HashesIs(u, pre, n, t);
  }

  // ----- rules -----

  lemma {:induction false} CountRepeat(c: char, n: nat)
    requires c != ' '
    ensures CountNot(Repeat(c, n), ' ') == n
    decreases n
  {
    if n > 0 {
      assert Repeat(c, n)[1..] == Repeat(c, n - 1);
      CountRepeat(c, n - 1);
    }
  }

  lemma RepeatTrimmed(u: Unicode, c: char, n: nat)
    requires !u.space(c)
    ensures Trim(u, Repeat(c, n)) == Repeat(c, n)
  {
    TrimKeeps(u, Repeat(c, n));
  }

  /** Dashes, stars or underscores make a rule from three on; other characters never do. */
  lemma RuleIs(u: Unicode, c: char, n: nat)
    requires !u.space(c) && c != ' '
    ensures IsRule(u, Repeat(c, n)) <==> n >= 3 && (c == '-' || c == '*' || c == '_')
  {
    RepeatTrimmed(u, c, n);
    CountRepeat(c, n);
  }

  // ----- fences -----

  /** Three or more backticks or tildes open a block, with what follows as information. */
  lemma FenceIs(u: Unicode, pre: nat, c: char, n: nat, info: string)
    requires c != ' ' && n > 0 && Trimmed(u, info) && (info == "" || info[0] != c)
    ensures FenceOf(u, Indented(pre, Repeat(c, n) + info))
      == if pre <= 3 && n >= 3 && (c == '`' || c == '~') then Some((c, n, info)) else None
  {
    hide RunLength, Trim;
    var t := Repeat(c, n) + info;
    assert t[0] == c;
    IndentIs(pre, t);
    RunIs(t, 0, n, |t|, c);
    assert t[n..] == info;
    TrimKeeps(u, info);
  }

  /** The language is the first word of the information. */
  lemma FirstWordIs(u: Unicode, w: string, r: string)
    requires w != "" && (forall k | 0 <= k < |w| :: !u.space(w[k])) && (r == "" || u.space(r[0]))
    ensures FirstWord(u, w + r) == Some(w) && FirstWord(u, "") == None
  {
    var s := w + r;
    var p := (x: char) => !u.space(x);
    SkipsTo(s, 0, |w|, |s|, p);
    assert s[..|w|] == w;
    FirstWordAt(u, s, |w|);
  }

  lemma FirstWordAt(u: Unicode, s: string, n: nat)
    requires 0 < n <= |s| && (forall k | 0 <= k < n :: !u.space(s[k])) && (n == |s| || u.space(s[n]))
    ensures FirstWord(u, s) == Some(s[..n])
  {
    var k := SkipWhile(s, 0, |s|, (x: char) => !u.space(x));
    assert k == n;
  }

  // ----- quotes -----

  /** A bracket indented at most three columns quotes the rest of the line, without one space. */
  lemma QuoteIs(pre: nat, t: string)
    ensures IsQuote(Indented(pre, ">" + t)) <==> pre <= 3
    ensures pre <= 3 ==> QuoteStrip(Indented(pre, ">" + t)) == if t != "" && t[0] == ' ' then t[1..] else t
  {
    var q := ">" + t;
    IndentIs(pre, q);
    assert q[1..] == t;
  }

  // ----- list items -----

  lemma OneSpace(t: string)
    requires t == "" || !IsTab(t[0])
    ensures MarkerSpaces(" " + t) == 1 && EndsMarker(" " + t)
  {
    var s := " " + t;
    SkipsTo(s, 0, 1, |s|, IsTab);
  }

  /** A dash, star or plus and a space. */
  lemma BulletIs(pre: nat, c: char, t: string)
    requires c == '-' || c == '*' || c == '+'
    requires t == "" || !IsTab(t[0])
    ensures ListMarker(Indented(pre, [c] + (" " + t))) == if pre <= 3 then Some((Bullet(c), pre, pre + 2)) else None
  {
    hide MarkerSpaces, EndsMarker;
    var s := [c] + (" " + t);
    IndentIs(pre, s);
    assert s[1..] == " " + t;
    OneSpace(t);
  }

  lemma {:induction false} DigitsLength(n: nat, d: nat)
    requires n < Power(d) && d > 0
    ensures |Digits(n)| <= d
    decreases d
  {
    if n >= 10 { DigitsLength(n / 10, d - 1); }
  }

  function Power(d: nat): nat {
    if d == 0 then 1 else 10 * Power(d - 1)
  }

  /** A number of at most nine digits, a dot or parenthesis and a space. */
  lemma OrderedIs(pre: nat, n: nat, d: char, t: string)
    requires (d == '.' || d == ')') && n < 1_000_000_000 && (t == "" || !IsTab(t[0])) && pre <= 3
    ensures ListMarker(Indented(pre, Digits(n) + [d] + (" " + t))) == Some((Ordered(n, d), pre, pre + |Digits(n)| + 2))
  {
    hide MarkerSpaces, EndsMarker, SkipWhile, Digits, Number;
    var g := Digits(n);
    var s := g + [d] + (" " + t);
    assert s[0] == g[0] && AsciiDigit(g[0]);
    IndentIs(pre, s);
    forall k | 0 <= k < |g| ensures AsciiDigit(s[k]) { assert s[k] == g[k]; }
    SkipsTo(s, 0, |g|, |s|, AsciiDigit);
    NineDigits(n);
    assert s[..|g|] == g && s[|g| + 1..] == " " + t;
    NumberOfDigits(n);
    OneSpace(t);
  }

  lemma NineDigits(n: nat)
    requires n < 1_000_000_000
    ensures |Digits(n)| <= 9
  {
    assert Power(3) == 1000;
    assert Power(6) == 1000 * Power(3);
    assert Power(9) == 1000 * Power(6);
    DigitsLength(n, 9);
  }

  // ----- raw HTML -----

  /** A bracket before a letter, before a slash and a letter, or the start of a comment. */
  lemma HtmlIs(u: Unicode, c: char, r: string)
    requires SpaceSane(u) && !u.space(c) && (r == "" || !u.space(r[|r| - 1]))
    ensures IsHtmlLine(u, "<" + [c] + r) <==>
      AsciiAlpha(c) || (c == '/' && r != "" && AsciiAlpha(r[0])) || (c == '!' && "--" <= r)
  {
    var s := "<" + [c] + r;
    assert '!' <= '<' <= '~';
    TrimKeeps(u, s);
    assert s[1..] == [c] + r && s[2..] == r;
    assert "<!--" <= s <==> c == '!' && "--" <= r by {
      if "--" <= r && c == '!' { assert s == "<!--" + r[2..]; }
      if "<!--" <= s { assert s[1] == '!' && s[2] == '-' && s[3] == '-'; }
    }
  }

  // ----- tables -----

  function JoinOn(ls: seq<string>, c: char): string
    requires ls != []
  {
    if |ls| == 1 then ls[0] else ls[0] + [c] + JoinOn(ls[1..], c)
  }

  lemma SplitHere(s: string, c: char, i: nat, cur: string)
    requires i < |s| && s[i] == c
    ensures SplitOn(s, c, i, cur) == [cur] + SplitOn(s, c, i + 1, "")
  {
  }

  /** Joining at a character and splitting there again. */
  lemma {:induction false} SplitJoined(ls: seq<string>, c: char)
    requires ls != [] && forall k | 0 <= k < |ls| :: c !in ls[k]
    ensures SplitOn(JoinOn(ls, c), c, 0, "") == ls
    decreases |ls|
  {
    hide SplitOn;
    var s, a := JoinOn(ls, c), ls[0];
    assert s[0..|a|] == a && c !in a;
    SplitRest(s, c, 0, "", |a|);
    assert "" + a == a;
    if |ls| > 1 {
      var t := JoinOn(ls[1..], c);
      assert forall k | 0 <= k < |ls[1..]| :: ls[1..][k] == ls[k + 1];
      SplitJoined(ls[1..], c);
      assert s == a + [c] + t && s[|a|] == c;
      SplitHere(s, c, |a|, a);
      SplitFrom(s, t, c, 0, "");
      assert ls == [a] + ls[1..];
    } else {
      assert ls == [a];
    }
  }

  /** A table cell as written between bars. */
  predicate IsCell(u: Unicode, c: string) {
    Trimmed(u, c) && '|' !in c && '\\' !in c
  }

  function Padded(cells: seq<string>): (r: seq<string>)
    ensures |r| == |cells| && forall k | 0 <= k < |cells| :: r[k] == " " + cells[k] + " "
  {
    seq(|cells|, k requires 0 <= k < |cells| => " " + cells[k] + " ")
  }

  lemma {:induction false} CellsRest(u: Unicode, t: string, i: nat, cur: string, k: nat)
    requires i <= k <= |t| && '|' !in t[i..k] && '\\' !in t[i..k]
    ensures SplitCells(u, t, i, cur) == if k == |t| then [Trim(u, cur + t[i..k])] else SplitCells(u, t, k, cur + t[i..k])
    decreases k - i
  {
    hide Trim;
    if i < k {
      assert t[i] == t[i..k][0] && t[i..k] == [t[i]] + t[i + 1..k];
      CellsRest(u, t, i + 1, cur + [t[i]], k);
      assert cur + [t[i]] + t[i + 1..k] == cur + t[i..k];
    } else {
      assert t[i..k] == "" && cur + "" == cur;
    }
  }

  lemma {:induction false} CellsFrom(u: Unicode, s: string, t: string, i: nat, cur: string)
    requires i <= |t| && |t| <= |s| && s[|s| - |t|..] == t
    ensures SplitCells(u, s, |s| - |t| + i, cur) == SplitCells(u, t, i, cur)
    decreases |t| - i
  {
    hide Trim;
    if i < |t| {
      assert s[|s| - |t| + i] == t[i];
      if i + 1 < |t| {
        assert s[|s| - |t| + i + 1] == t[i + 1];
        CellsFrom(u, s, t, i + 2, cur + [t[i], t[i + 1]]);
      }
      CellsFrom(u, s, t, i + 1, "");
      CellsFrom(u, s, t, i + 1, cur + [t[i]]);
    }
  }

  lemma PaddedTrim(u: Unicode, c: string)
    requires u.space(' ') && Trimmed(u, c)
    ensures Trim(u, " " + c + " ") == c
  {
    var s := " " + c + " ";
    if c == "" {
      SkipsTo(s, 0, 2, 2, u.space);
      assert s[2..] == "";
    } else {
      SkipsTo(s, 0, 1, |s|, u.space);
      assert s[1..] == c + " ";
      TrimEndCuts(c, " ", u.space);
      TrimEndKeeps(c, u.space);
    }
  }

  lemma {:induction false} CellsJoined(u: Unicode, cells: seq<string>)
    requires u.space(' ') && cells != [] && forall k | 0 <= k < |cells| :: IsCell(u, cells[k])
    ensures SplitCells(u, JoinOn(Padded(cells), '|'), 0, "") == cells
    decreases |cells|
  {
    hide Trim, SplitCells, Trimmed;
    var ps := Padded(cells);
    var s, a := JoinOn(ps, '|'), ps[0];
    assert IsCell(u, cells[0]);
    assert s[0..|a|] == a && '|' !in a && '\\' !in a;
    CellsRest(u, s, 0, "", |a|);
    assert "" + a == a;
    PaddedTrim(u, cells[0]);
    if |cells| > 1 {
      assert ps[1..] == Padded(cells[1..]);
      assert forall k | 0 <= k < |cells[1..]| :: cells[1..][k] == cells[k + 1];
      var t := JoinOn(ps[1..], '|');
      CellsJoined(u, cells[1..]);
      assert s == a + "|" + t && s[|a|] == '|';
      CellsAtBar(u, s, |a|, a);
      CellsFrom(u, s, t, 0, "");
      assert cells == [cells[0]] + cells[1..];
    } else {
      assert cells == [cells[0]];
    }
  }

  lemma CellsAtBar(u: Unicode, t: string, i: nat, cur: string)
    requires i < |t| && t[i] == '|'
    ensures SplitCells(u, t, i, cur) == [Trim(u, cur)] + SplitCells(u, t, i + 1, "")
  {
    hide Trim;
  }

  /** Cells between bars are the cells of the row. */
  lemma RowIs(u: Unicode, cells: seq<string>)
    requires SpaceSane(u) && cells != [] && forall k | 0 <= k < |cells| :: IsCell(u, cells[k])
    ensures SplitRow(u, "|" + JoinOn(Padded(cells), '|') + "|") == cells
  {
    hide Trim, SplitCells, JoinOn;
    var body := JoinOn(Padded(cells), '|');
    var line := "|" + body + "|";
    assert '!' <= '|' <= '~';
    TrimKeeps(u, line);
    assert line[1..] == body + "|" && (body + "|")[..|body|] == body;
    CellsJoined(u, cells);
  }

  /** The cell of a separator line for an alignment, with `n` dashes. */
  function DashCell(a: Align, n: nat): string {
    (if a == AlignLeft || a == AlignCenter then ":" else "") + Repeat('-', n)
    + (if a == AlignRight || a == AlignCenter then ":" else "")
  }

  lemma DashCellShape(a: Align, n: nat)
    requires n > 0
    ensures var s := DashCell(a, n); var l := if a == AlignLeft || a == AlignCenter then 1 else 0;
      && s != "" && (forall k | 0 <= k < |s| :: s[k] == if k < l || k >= l + n then ':' else '-')
      && |s| == l + n + (if a == AlignRight || a == AlignCenter then 1 else 0) && s[l..l + n] == Repeat('-', n)
  {
  }

  lemma DashAlign(u: Unicode, a: Align, n: nat)
    requires SpaceSane(u) && n > 0
    ensures CellAlign(u, DashCell(a, n)) == Some(a)
  {
    hide SkipWhile, TrimEnd, DashCell, Trim;
    DashCellShape(a, n);
    var s, l := DashCell(a, n), if a == AlignLeft || a == AlignCenter then 1 else 0;
    assert '!' <= ':' <= '~' && '!' <= '-' <= '~';
    TrimKeeps(u, s);
    SkipsTo(s, 0, l, |s|, IsColon);
    var t := s[l..];
    assert t[..n] == s[l..l + n] == Repeat('-', n) && t == Repeat('-', n) + t[n..];
    TrimEndCuts(Repeat('-', n), t[n..], IsColon);
    TrimEndKeeps(Repeat('-', n), IsColon);
  }

  function DashCells(ds: seq<(Align, nat)>): (r: seq<string>)
    ensures |r| == |ds| && forall k | 0 <= k < |ds| :: r[k] == DashCell(ds[k].0, ds[k].1)
  {
    seq(|ds|, k requires 0 <= k < |ds| => DashCell(ds[k].0, ds[k].1))
  }

  function AlignsOf(ds: seq<(Align, nat)>): (r: seq<Align>)
    ensures |r| == |ds| && forall k | 0 <= k < |ds| :: r[k] == ds[k].0
  {
    seq(|ds|, k requires 0 <= k < |ds| => ds[k].0)
  }

  lemma {:induction false} DashAligns(u: Unicode, ds: seq<(Align, nat)>)
    requires SpaceSane(u) && forall k | 0 <= k < |ds| :: ds[k].1 > 0
    ensures CellAligns(u, DashCells(ds)) == Some(AlignsOf(ds))
    decreases |ds|
  {
    hide CellAlign, DashCell;
    if ds != [] {
      DashAlign(u, ds[0].0, ds[0].1);
      DashAligns(u, ds[1..]);
      assert DashCells(ds)[1..] == DashCells(ds[1..]) && AlignsOf(ds) == [ds[0].0] + AlignsOf(ds[1..]);
    }
  }

  /** A separator line gives the alignments it shows. */
  lemma SeparatorIs(u: Unicode, ds: seq<(Align, nat)>)
    requires SpaceSane(u) && ds != [] && forall k | 0 <= k < |ds| :: ds[k].1 > 0
    ensures TableSeparator(u, "|" + JoinOn(DashCells(ds), '|') + "|") == Some(AlignsOf(ds))
  {
    hide JoinOn, SkipWhile, TrimEnd, CellAligns, DashCells, Trim, SplitOn;
    var cells := DashCells(ds);
    var body := JoinOn(cells, '|');
    var line := "|" + body + "|";
    NoBars(ds);
    JoinEnds(cells, '|');
    assert '!' <= '|' <= '~';
    TrimKeeps(u, line);
    SkipsTo(line, 0, 1, |line|, IsBar);
    assert line[1..] == body + "|";
    TrimEndCuts(body, "|", IsBar);
    TrimEndKeeps(body, IsBar);
    SplitJoined(cells, '|');
    DashAligns(u, ds);
  }

  lemma NoBars(ds: seq<(Align, nat)>)
    requires forall k | 0 <= k < |ds| :: ds[k].1 > 0
    ensures forall k | 0 <= k < |ds| :: DashCells(ds)[k] != "" && '|' !in DashCells(ds)[k]
  {
    hide DashCell;
    forall k | 0 <= k < |ds| ensures DashCells(ds)[k] != "" && '|' !in DashCells(ds)[k] {
      DashCellShape(ds[k].0, ds[k].1);
    }
  }

  /** A joined text starts and ends like its first and last piece. */
  lemma {:induction false} JoinEnds(ls: seq<string>, c: char)
    requires ls != [] && forall k | 0 <= k < |ls| :: ls[k] != ""
    ensures var s, last := JoinOn(ls, c), ls[|ls| - 1]; s != "" && s[0] == ls[0][0] && s[|s| - 1] == last[|last| - 1]
    decreases |ls|
  {
    if |ls| > 1 {
      assert forall k | 0 <= k < |ls[1..]| :: ls[1..][k] == ls[k + 1];
      JoinEnds(ls[1..], c);
    }
  }

  // ----- slugs -----

  /** Letters and digits only. */
  ghost predicate IsWord(u: Unicode, w: string) {
    w != "" && forall k | 0 <= k < |w| :: u.alnum(w[k]) && w[k] !in "*_`#~"
  }

  function LowerAll(w: string): (r: string)
    ensures |r| == |w| && forall k | 0 <= k < |w| :: r[k] == Lower(w[k])
  {
    seq(|w|, k requires 0 <= k < |w| => Lower(w[k]))
  }

  lemma {:induction false} WordChars(u: Unicode, w: string, rest: string, dash: bool)
    requires forall k | 0 <= k < |w| :: u.alnum(w[k]) && w[k] !in "*_`#~"
    ensures SlugChars(u, w + rest, dash) == LowerAll(w) + SlugChars(u, rest, if w == "" then dash else false)
    decreases |w|
  {
    if w == "" {
      assert w + rest == rest;
    } else {
      assert (w + rest)[1..] == w[1..] + rest && (w + rest)[0] == w[0];
      WordChars(u, w[1..], rest, false);
      assert LowerAll(w) == [Lower(w[0])] + LowerAll(w[1..]);
      assert [Lower(w[0])] + (LowerAll(w[1..]) + SlugChars(u, rest, false)) == LowerAll(w) + SlugChars(u, rest, false);
    }
  }

  function LowerWords(ws: seq<string>): (r: seq<string>)
    ensures |r| == |ws| && forall k | 0 <= k < |ws| :: r[k] == LowerAll(ws[k])
  {
    seq(|ws|, k requires 0 <= k < |ws| => LowerAll(ws[k]))
  }

  lemma {:induction false} WordsChars(u: Unicode, ws: seq<string>)
    requires ws != [] && !u.alnum(' ') && forall k | 0 <= k < |ws| :: IsWord(u, ws[k])
    ensures SlugChars(u, JoinOn(ws, ' '), false) == JoinOn(LowerWords(ws), '-')
    decreases |ws|
  {
    hide SlugChars;
    assert IsWord(u, ws[0]);
    if |ws| == 1 {
      WordChars(u, ws[0], "", false);
      SlugNothing(u);
      assert ws[0] + "" == ws[0] && LowerAll(ws[0]) + "" == LowerAll(ws[0]);
    } else {
      assert forall k | 0 <= k < |ws[1..]| :: ws[1..][k] == ws[k + 1];
      var rest := JoinOn(ws[1..], ' ');
      WordsChars(u, ws[1..]);
      WordChars(u, ws[0], " " + rest, false);
      assert ws[0] + [' '] + rest == ws[0] + (" " + rest);
      WordsStart(u, ws[1..]);
      SlugSpace(u, rest);
      assert LowerWords(ws)[1..] == LowerWords(ws[1..]);
      var a, b := LowerAll(ws[0]), JoinOn(LowerWords(ws[1..]), '-');
      assert a + ("-" + b) == a + ['-'] + b;
    }
  }

  lemma SlugNothing(u: Unicode)
    ensures SlugChars(u, "", false) == ""
  {
  }

  lemma WordsStart(u: Unicode, ws: seq<string>)
    requires ws != [] && forall k | 0 <= k < |ws| :: IsWord(u, ws[k])
    ensures var s := JoinOn(ws, ' '); s != "" && u.alnum(s[0]) && s[0] !in "*_`#~"
  {
    assert IsWord(u, ws[0]);
  }

  /** A space gives a dash; the next letter does not care. */
  lemma SlugSpace(u: Unicode, rest: string)
    requires !u.alnum(' ') && rest != "" && u.alnum(rest[0]) && rest[0] !in "*_`#~"
    ensures SlugChars(u, " " + rest, false) == "-" + SlugChars(u, rest, false)
  {
    var s := " " + rest;
    assert s[1..] == rest;
    assert SlugChars(u, rest, true) == SlugChars(u, rest, false);
  }

  /** The slug of words is the words in lower case with dashes between them. */
  lemma SlugOfWords(u: Unicode, ws: seq<string>)
    requires ws != [] && !u.alnum(' ') && !u.alnum('-') && forall k | 0 <= k < |ws| :: IsWord(u, ws[k])
    ensures Slug(u, JoinOn(ws, ' ')) == JoinOn(LowerWords(ws), '-')
  {
    hide JoinOn, SlugChars, TrimStart, TrimEnd, LowerWords;
    WordsChars(u, ws);
    LowerEnds(u, ws);
    TrimDashes(JoinOn(LowerWords(ws), '-'));
  }

  lemma TrimDashes(s: string)
    requires s != "" && s[0] != '-' && s[|s| - 1] != '-'
    ensures TrimEnd(TrimStart(s, IsDash), IsDash) == s
  {
    assert SkipWhile(s, 0, |s|, IsDash) == 0;
    assert s[0..] == s;
  }

  lemma LowerEnds(u: Unicode, ws: seq<string>)
    requires ws != [] && !u.alnum('-') && forall k | 0 <= k < |ws| :: IsWord(u, ws[k])
    ensures var s := JoinOn(LowerWords(ws), '-'); s != "" && s[0] != '-' && s[|s| - 1] != '-'
  {
    hide JoinOn, Lower;
    var ls, n := LowerWords(ws), |ws| - 1;
    forall k | 0 <= k < |ls| ensures ls[k] != "" { assert IsWord(u, ws[k]); }
    JoinEnds(ls, '-');
    assert IsWord(u, ws[0]) && IsWord(u, ws[n]);
    NotDash(u, ws[0][0]);
    NotDash(u, ws[n][|ws[n]| - 1]);
  }

  lemma NotDash(u: Unicode, c: char)
    requires u.alnum(c) && !u.alnum('-')
    ensures Lower(c) != '-'
  {
  }
}
