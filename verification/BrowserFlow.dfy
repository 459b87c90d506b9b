/** The browser's text flow: bytes pushed one by one, wrapped into lines at spaces. */
module BrowserFlow {
  import opened Common

  const LINE_BUF: nat := 100
  const MAX_LINES: nat := 4096
  const TITLE_MAX: nat := 128
  const SPACE: Byte := 32
  const DASH: Byte := 45
  const NO_LINK: nat := 0xFFFF
  const C_BORDER: nat := 0xFF30363D
  const C_TEXT: nat := 0xFFB4BEC9
  const C_H1: nat := 0xFFF0F6FC
  const C_H2: nat := 0xFFCDD9E5
  const C_H3: nat := 0xFF8B949E
  const C_LINK: nat := 0xFF58A6FF

  datatype Line = Line(text: seq<Byte>, color: nat, link: nat)

  const EMPTY := Line([], C_TEXT, NO_LINK)

  /** Lines so far, the line being filled with its colour and link, and the parser's modes. */
  datatype Flow = Flow(
    lines: seq<Line>, pending: seq<Byte>, color: nat, link: nat,
    title: seq<Byte>, inTitle: bool, heading: nat, inLink: bool, active: nat)

  const START := Flow([], [], C_TEXT, NO_LINK, [], false, 0, false, NO_LINK)

  function ColorOf(inLink: bool, heading: nat): (c: nat)
    ensures c != C_BORDER
  {
    if inLink then C_LINK
    else if heading == 1 then C_H1
    else if heading == 2 then C_H2
    else if 3 <= heading <= 6 then C_H3
    else C_TEXT
  }

  /** Where a full line is cut: after the last space among its last sixteen bytes, or at its end. */
  function WrapFrom(p: seq<Byte>, k: nat): (w: nat)
    requires k <= |p|
    ensures w <= |p| && (p != [] ==> w > 0)
  {
    if k == 0 then |p|
    else if p[k - 1] == SPACE then k
    else if |p| - (k - 1) > 15 then |p|
    else WrapFrom(p, k - 1)
  }

  function WrapAt(p: seq<Byte>): nat {
    WrapFrom(p, |p|)
  }

  /** A cut is after a space with none later, or the line is kept whole because there is none near its end. */
  lemma {:induction false} WrapMeans(p: seq<Byte>, k: nat)
    requires k <= |p| && p != [] && |p| - k <= 15 && forall i | k <= i < |p| :: p[i] != SPACE
    ensures var w := WrapFrom(p, k);
      if w > 0 && p[w - 1] == SPACE then w <= k && |p| - w <= 15 && forall i | w <= i < |p| :: p[i] != SPACE
      else w == |p| && forall i | 0 <= i < |p| && |p| - i <= 16 :: p[i] != SPACE
    decreases k
  {
    if k > 0 && p[k - 1] != SPACE && |p| - (k - 1) <= 15 { WrapMeans(p, k - 1); }
  }

  // ----- operations -----

  function Emit(f: Flow): Flow {
    if |f.lines| < MAX_LINES && f.pending != [] then f.(lines := f.lines + [Line(f.pending, f.color, f.link)], pending := [])
    else f
  }

  function Blank(f: Flow): Flow {
    var g := Emit(f);
    if g.lines != [] && g.lines[|g.lines| - 1].text != [] && |g.lines| < MAX_LINES then g.(lines := g.lines + [EMPTY])
    else g
  }

  function Dashes(n: nat): (r: seq<Byte>)
    ensures |r| == n
  {
    seq(n, _ => DASH)
  }

  /** A horizontal rule. */
  function Rule(f: Flow, cols: nat): Flow {
    var g := Emit(f);
    if |g.lines| < MAX_LINES then g.(lines := g.lines + [Line(Dashes(Min(cols, 80)), C_BORDER, NO_LINK)]) else g
  }

  /** The wrapping part of `push_char`. */
  function Wrap(f: Flow, cols: nat): Flow {
    if |f.pending| >= Min(cols, LINE_BUF) && |f.lines| < MAX_LINES then
      var w := WrapAt(f.pending);
      f.(lines := f.lines + [Line(f.pending[..w], f.color, f.link)], pending := f.pending[w..])
    else f
  }

  function Push(f: Flow, cols: nat, b: Byte): Flow {
    if f.inTitle then f.(title := if |f.title| < TITLE_MAX then f.title + [b] else f.title)
    else
      Wrap(f.(color := ColorOf(f.inLink, f.heading), link := f.active,
              pending := if |f.pending| < LINE_BUF then f.pending + [b] else f.pending), cols)
  }

  // ----- what the lines say -----

  /** The text of the lines that are not rules. */
  function Text(lines: seq<Line>): seq<Byte> {
    if lines == [] then []
    else
      var l := lines[|lines| - 1];
      Text(lines[..|lines| - 1]) + if l.color == C_BORDER then [] else l.text
  }

  function Said(f: Flow): seq<Byte> {
    Text(f.lines) + f.pending
  }

  /** The widest a wrapped line gets. */
  function Limit(cols: nat): nat {
    Max(1, Min(cols, 100))
  }

  /** Lines are no wider than the limit, and the pending one is narrower until the line cap is reached. */
  predicate Fits(f: Flow, cols: nat) {
    && (forall k | 0 <= k < |f.lines| && f.lines[k].color != C_BORDER :: |f.lines[k].text| <= Limit(cols))
    && |f.lines| <= MAX_LINES && |f.pending| <= LINE_BUF && f.color != C_BORDER
    && (|f.lines| < MAX_LINES ==> |f.pending| < Limit(cols))
  }

  lemma TextSnoc(lines: seq<Line>, l: Line)
    ensures Text(lines + [l]) == Text(lines) + if l.color == C_BORDER then [] else l.text
  {
    assert (lines + [l])[..|lines|] == lines;
  }

  lemma EmitKeeps(f: Flow, cols: nat)
    requires Fits(f, cols)
    ensures Fits(Emit(f), cols) && Said(Emit(f)) == Said(f)
  {
    TextSnoc(f.lines, Line(f.pending, f.color, f.link));
  }

  lemma BlankKeeps(f: Flow, cols: nat)
    requires Fits(f, cols)
    ensures Fits(Blank(f), cols) && Said(Blank(f)) == Said(f)
  {
    EmitKeeps(f, cols);
    TextSnoc(Emit(f).lines, EMPTY);
  }

  lemma RuleKeeps(f: Flow, cols: nat)
    requires Fits(f, cols)
    ensures Fits(Rule(f, cols), cols) && Said(Rule(f, cols)) == Said(f)
  {
    EmitKeeps(f, cols);
    TextSnoc(Emit(f).lines, Line(Dashes(Min(cols, 80)), C_BORDER, NO_LINK));
  }

  lemma WrapKeeps(f: Flow, cols: nat)
    requires |f.lines| <= MAX_LINES && f.pending != [] && |f.pending| <= LINE_BUF && f.color != C_BORDER
    requires forall k | 0 <= k < |f.lines| && f.lines[k].color != C_BORDER :: |f.lines[k].text| <= Limit(cols)
    requires |f.lines| < MAX_LINES ==> |f.pending| <= Limit(cols)
    ensures Fits(Wrap(f, cols), cols) && Said(Wrap(f, cols)) == Said(f)
  {
    var w := WrapAt(f.pending);
    TextSnoc(f.lines, Line(f.pending[..w], f.color, f.link));
    assert f.pending == f.pending[..w] + f.pending[w..];
  }

  /** A byte outside the title is kept exactly when the pending line has room for it. */
  lemma PushKeeps(f: Flow, cols: nat, b: Byte)
    requires Fits(f, cols)
    ensures Fits(Push(f, cols, b), cols)
    ensures f.inTitle ==> Said(Push(f, cols, b)) == Said(f)
    ensures !f.inTitle ==> Said(Push(f, cols, b)) == if |f.pending| < LINE_BUF then Said(f) + [b] else Said(f)
  {
    if !f.inTitle {
      var g := f.(color := ColorOf(f.inLink, f.heading), link := f.active,
                  pending := if |f.pending| < LINE_BUF then f.pending + [b] else f.pending);
      hide Wrap;
      WrapKeeps(g, cols);
    }
  }

  // ----- runs -----

  datatype Event =
    | Char(b: Byte) | Newline | BlankLine | RuleLine
    | Title(on: bool) | Heading(h: nat) | Anchor(id: nat) | EndAnchor

  function Step(f: Flow, cols: nat, e: Event): Flow {
    match e
    case Char(b) => Push(f, cols, b)
    case Newline => Emit(f)
    case BlankLine => Blank(f)
    case RuleLine => Rule(f, cols)
    case Title(on) => f.(inTitle := on)
    case Heading(h) => f.(heading := h)
    case Anchor(id) => f.(inLink := true, active := id)
    case EndAnchor => f.(inLink := false, active := NO_LINK)
  }

  function Run(f: Flow, cols: nat, es: seq<Event>): Flow
    decreases |es|
  {
    if es == [] then f else Run(Step(f, cols, es[0]), cols, es[1..])
  }

  /** The bytes a run pushes outside the title. */
  function Pushed(inTitle: bool, es: seq<Event>): seq<Byte>
    decreases |es|
  {
    if es == [] then []
    else
      (if es[0].Char? && !inTitle then [es[0].b] else [])
      + Pushed(if es[0].Title? then es[0].on else inTitle, es[1..])
  }

  lemma StepKeeps(f: Flow, cols: nat, e: Event)
    requires Fits(f, cols)
    ensures Fits(Step(f, cols, e), cols) && |Step(f, cols, e).lines| >= |f.lines|
    ensures Step(f, cols, e).inTitle == if e.Title? then e.on else f.inTitle
    ensures |f.lines| < MAX_LINES ==> Said(Step(f, cols, e)) == Said(f) + if e.Char? && !f.inTitle then [e.b] else []
  {
    match e
    case Char(b) => PushKeeps(f, cols, b);
    case Newline => EmitKeeps(f, cols);
    case BlankLine => BlankKeeps(f, cols);
    case RuleLine => RuleKeeps(f, cols);
    case _ => assert Said(f) + [] == Said(f);
  }

  /** Until the line cap nothing is lost, repeated or reordered: the lines that are not rules and the
      pending line are together exactly the bytes pushed, and no wrapped line is wider than the limit. */
  lemma {:induction false} RunConserves(f: Flow, cols: nat, es: seq<Event>)
    requires Fits(f, cols)
    ensures Fits(Run(f, cols, es), cols) && |Run(f, cols, es).lines| >= |f.lines|
    ensures |Run(f, cols, es).lines| < 4096 ==> Said(Run(f, cols, es)) == Said(f) + Pushed(f.inTitle, es)
    decreases |es|
  {
    if es == [] {
      assert Said(f) + [] == Said(f);
    } else {
      hide Step, Said, Fits;
      StepKeeps(f, cols, es[0]);
      var g := Step(f, cols, es[0]);
      RunConserves(g, cols, es[1..]);
      var a := if es[0].Char? && !f.inTitle then [es[0].b] else [];
      assert Said(f) + (a + Pushed(g.inTitle, es[1..])) == Said(f) + a + Pushed(g.inTitle, es[1..]);
    }
  }

  // ----- blank lines -----

  /** No blank line at the top and no two in a row. */
  predicate Spaced(lines: seq<Line>) {
    forall k | 0 <= k < |lines| && lines[k].text == [] :: k > 0 && lines[k - 1].text != []
  }

  lemma SpacedSnoc(lines: seq<Line>, l: Line)
    requires Spaced(lines) && (l.text == [] ==> lines != [] && lines[|lines| - 1].text != [])
    ensures Spaced(lines + [l])
  {
  }

  lemma EmitSpaced(f: Flow)
    requires Spaced(f.lines)
    ensures Spaced(Emit(f).lines)
  {
    hide Spaced;
    if f.pending != [] { SpacedSnoc(f.lines, Line(f.pending, f.color, f.link)); }
  }

  lemma PushSpaced(f: Flow, cols: nat, b: Byte)
    requires Spaced(f.lines)
    ensures Spaced(Push(f, cols, b).lines)
  {
    hide Spaced, WrapFrom;
    if !f.inTitle {
      var p := if |f.pending| < LINE_BUF then f.pending + [b] else f.pending;
      SpacedSnoc(f.lines, Line(p[..WrapAt(p)], ColorOf(f.inLink, f.heading), f.active));
    }
  }

  lemma StepSpaced(f: Flow, cols: nat, e: Event)
    requires Spaced(f.lines) && cols > 0
    ensures Spaced(Step(f, cols, e).lines)
  {
    hide Spaced, Dashes, Push, Emit;
    EmitSpaced(f);
    var g := Emit(f);
    if g.lines != [] && g.lines[|g.lines| - 1].text != [] { SpacedSnoc(g.lines, EMPTY); }
    SpacedSnoc(g.lines, Line(Dashes(Min(cols, 80)), C_BORDER, NO_LINK));
    if e.Char? { PushSpaced(f, cols, e.b); }
  }

  lemma {:induction false} RunSpacedFrom(f: Flow, cols: nat, es: seq<Event>)
    requires Spaced(f.lines) && cols > 0
    ensures Spaced(Run(f, cols, es).lines)
    decreases |es|
  {
    hide Spaced, Step;
    if es != [] {
      StepSpaced(f, cols, es[0]);
      RunSpacedFrom(Step(f, cols, es[0]), cols, es[1..]);
    }
  }

  /** Over every run there is no blank line at the top and no two are in a row, exactly when there is a column to
      draw rules in. */
  lemma RunSpaced(cols: nat)
    ensures (forall es :: Spaced(Run(START, cols, es).lines)) <==> cols > 0
  {
    if cols > 0 {
      forall es ensures Spaced(Run(START, cols, es).lines) { RunSpacedFrom(START, cols, es); }
    } else {
      var es := [RuleLine];
      assert es[1..] == [];
      assert Run(START, cols, es) == Step(START, cols, RuleLine);
      assert Run(START, cols, es).lines[0].text == [];
    }
  }

  /** Asking for a blank line leaves one as the last line, unless nothing has been said before it. */
  lemma BlankMeans(f: Flow)
    requires |f.lines| + 2 <= 4096
    ensures var r := Blank(f);
      && r.pending == [] && r.title == f.title && f.lines <= r.lines
      && if f.lines == [] && f.pending == [] then r.lines == [] else r.lines != [] && r.lines[|r.lines| - 1].text == []
  {
  }

  /** A rule is a line of its own: up to 80 dashes in the border colour, linked to nothing, below the pending line. */
  lemma RuleMeans(f: Flow, cols: nat)
    requires |f.lines| + 2 <= 4096
    ensures var r := Rule(f, cols);
      && r.pending == [] && |r.lines| > |f.lines|
      && r.lines[..|r.lines| - 1] == f.lines + (if f.pending == [] then [] else [Line(f.pending, f.color, f.link)])
      && var l := r.lines[|r.lines| - 1];
         |l.text| == Min(cols, 80) && (forall k | 0 <= k < |l.text| :: l.text[k] == 45) && l.color == 0xFF30363D && l.link == 0xFFFF
  {
  }

  // ----- looks -----

  /** A line looks like the last byte put in it: link colour inside a link, otherwise that of the heading. */
  lemma LooksOfLast(f: Flow, cols: nat, b: Byte)
    requires !f.inTitle && |f.lines| + 2 <= 4096 && |f.pending| < 100
    ensures var r := Emit(Push(f, cols, b));
      && r.pending == [] && r.lines != []
      && var l := r.lines[|r.lines| - 1];
         && l.text != [] && l.text[|l.text| - 1] == b && l.link == f.active
         && l.color == if f.inLink then 0xFF58A6FF else if f.heading == 1 then 0xFFF0F6FC
                       else if f.heading == 2 then 0xFFCDD9E5 else if 3 <= f.heading <= 6 then 0xFF8B949E else 0xFFB4BEC9
  {
    var p := f.pending + [b];
    var g := f.(color := ColorOf(f.inLink, f.heading), link := f.active, pending := p);
    var w := WrapAt(p);
    assert p[w..] == [] || p[w..][|p| - w - 1] == b;
    if |p| >= Min(cols, LINE_BUF) && w == |p| {
      assert p[..w] == p;
    }
  }

  /** The bytes a run pushes inside the title. */
  function InTitle(inTitle: bool, es: seq<Event>): seq<Byte>
    decreases |es|
  {
    if es == [] then []
    else
      (if es[0].Char? && inTitle then [es[0].b] else [])
      + InTitle(if es[0].Title? then es[0].on else inTitle, es[1..])
  }

  /** The title is the first 128 bytes pushed inside it. */
  lemma {:induction false} RunTitle(f: Flow, cols: nat, es: seq<Event>)
    requires |f.title| <= 128
    ensures var all := f.title + InTitle(f.inTitle, es); Run(f, cols, es).title == First(all)
    decreases |es|
  {
    hide Step;
    if es == [] {
      assert f.title + [] == f.title;
    } else {
      var g := Step(f, cols, es[0]);
      StepTitle(f, cols, es[0]);
      RunTitle(g, cols, es[1..]);
      FirstBytes(f.title, if es[0].Char? && f.inTitle then [es[0].b] else [], InTitle(g.inTitle, es[1..]));
    }
  }

  function First(s: seq<Byte>): seq<Byte> {
    s[..Min(|s|, 128)]
  }

  lemma FirstBytes(t: seq<Byte>, a: seq<Byte>, rest: seq<Byte>)
    requires |t| <= 128 && |a| <= 1
    ensures First((if |t| < 128 then t + a else t) + rest) == First(t + (a + rest))
  {
    assert t + (a + rest) == t + a + rest;
    if |t| == 128 {
      assert (t + rest)[..128] == t && (t + a + rest)[..128] == t;
    }
  }

  lemma StepTitle(f: Flow, cols: nat, e: Event)
    requires |f.title| <= 128
    ensures var g := Step(f, cols, e);
      && g.inTitle == (if e.Title? then e.on else f.inTitle)
      && g.title == if e.Char? && f.inTitle && |f.title| < 128 then f.title + [e.b] else f.title
  {
  }
}
