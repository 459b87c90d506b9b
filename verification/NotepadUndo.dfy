/** Undo and redo by replaying small operations amount to keeping whole snapshots: every run of
    commands behaves like an editor that stores the document and cursor before and after each of
    its last 256 edits. */
module NotepadUndo {
  import opened Common
  import opened NotepadText

  datatype Command = Type(ch: Byte) | Enter | Back | Arrow(d: Direction) | UndoCmd | RedoCmd

  // ----- the reference: an editor that stores snapshots -----

  /** One edit: the snapshots around it. */
  datatype Edit = Edit(before: Snap, after: Snap)

  /** Both lists end with the edit that is next to be undone or redone. */
  datatype Timeline = Timeline(at: Snap, past: seq<Edit>, future: seq<Edit>)

  /** The document and cursor after an editing command, `None` if the command does nothing. */
  function Edited(s: Snap, c: Command): (r: Option<Snap>)
    requires s.row < |s.text| && s.col <= |s.text[s.row]|
  {
    match c
    case Type(ch) =>
      if |s.text[s.row]| < MAX_LINE_LEN then Some(Snap(InsertAt(s.text, s.row, s.col, ch), s.row, s.col + 1)) else None
    case Enter =>
      if |s.text| < MAX_LINES then Some(Snap(SplitAt(s.text, s.row, s.col), s.row + 1, 0)) else None
    case Back =>
      if s.col > 0 then Some(Snap(DeleteAt(s.text, s.row, s.col - 1), s.row, s.col - 1))
      else if s.row > 0 then Some(Snap(JoinAt(s.text, s.row - 1), s.row - 1, |s.text[s.row - 1]|))
      else None
    case _ => None
  }

  function Next(tl: Timeline, c: Command): (r: Timeline)
    requires tl.at.row < |tl.at.text| && tl.at.col <= |tl.at.text[tl.at.row]|
  {
    match c
    case Arrow(d) => tl.(at := Move(tl.at, d))
    case UndoCmd =>
      if tl.past == [] then tl
      else
        var last := tl.past[|tl.past| - 1];
        Timeline(last.before, tl.past[..|tl.past| - 1], tl.future + [last])
    case RedoCmd =>
      if tl.future == [] then tl
      else
        var last := tl.future[|tl.future| - 1];
        Timeline(last.after, tl.past + [last], tl.future[..|tl.future| - 1])
    case _ =>
      match Edited(tl.at, c)
      case None => tl
      case Some(s) => Timeline(s, Newest(tl.past + [Edit(tl.at, s)]), [])
  }

  // ----- the notepad -----

  /** Undo and redo need their operation to fit the document; the refinement shows that it does. */
  predicate Enabled(e: Editor, c: Command) {
    && e.at.row < |e.at.text| && e.at.col <= |e.at.text[e.at.row]|
    && (c.UndoCmd? && e.undo != [] ==> Applies(e.undo[|e.undo| - 1], e.at.text))
    && (c.RedoCmd? && e.redo != [] ==> Applies(e.redo[|e.redo| - 1], e.at.text))
  }

  function Step(e: Editor, c: Command): Editor
    requires Enabled(e, c)
  {
    match c
    case Type(ch) => InsertChar(e, ch)
    case Enter => InsertNewline(e)
    case Back => Backspace(e)
    case Arrow(d) => e.(at := Move(e.at, d))
    case UndoCmd => Undo(e)
    case RedoCmd => Redo(e)
  }

  /** The command does not join two lines that are too long for one. */
  predicate Lossless(s: Snap, c: Command)
    requires s.row < |s.text|
  {
    c.Back? && s.col == 0 && s.row > 0 ==> |s.text[s.row - 1]| + |s.text[s.row]| <= MAX_LINE_LEN
  }

  // ----- what an operation in the log stands for -----

  /** Applying `op` undoes the edit, and applying its reverse does it again. */
  predicate Undoes(op: Op, ed: Edit) {
    && Applies(op, ed.after.text) && Apply(op, ed.after.text) == ed.before
    && Applies(Reverse(op), ed.before.text) && Apply(Reverse(op), ed.before.text) == ed.after
  }

  lemma TypeUndoes(s: Snap, ch: Byte)
    requires InText(s) && |s.text[s.row]| < MAX_LINE_LEN
    ensures Undoes(Char(s.row, s.col, ch, true), Edit(s, Edited(s, Type(ch)).value))
    ensures InText(Edited(s, Type(ch)).value)
  {
    var l, t' := s.text[s.row], InsertAt(s.text, s.row, s.col, ch);
    assert t'[s.row][..s.col] + t'[s.row][s.col + 1..] == l;
    assert DeleteAt(t', s.row, s.col) == s.text;
  }

  lemma EnterUndoes(s: Snap)
    requires InText(s) && |s.text| < MAX_LINES
    ensures Undoes(Newline(s.row, s.col, true), Edit(s, Edited(s, Enter).value))
    ensures InText(Edited(s, Enter).value)
  {
    var t' := SplitAt(s.text, s.row, s.col);
    assert t'[s.row] + t'[s.row + 1] == s.text[s.row];
    assert t'[..s.row] == s.text[..s.row] && t'[s.row + 2..] == s.text[s.row + 1..];
    assert JoinAt(t', s.row) == s.text;
  }

  lemma DeleteUndoes(s: Snap)
    requires InText(s) && s.col > 0
    ensures Undoes(Char(s.row, s.col - 1, s.text[s.row][s.col - 1], false), Edit(s, Edited(s, Back).value))
    ensures InText(Edited(s, Back).value)
  {
    var l, c := s.text[s.row], s.col - 1;
    var l' := l[..c] + l[c + 1..];
    assert l'[..c] + [l[c]] + l'[c..] == l;
    assert InsertAt(DeleteAt(s.text, s.row, c), s.row, c, l[c]) == s.text;
  }

  lemma JoinUndoes(s: Snap)
    requires InText(s) && s.col == 0 && s.row > 0 && Lossless(s, Back)
    ensures Undoes(Newline(s.row - 1, |s.text[s.row - 1]|, false), Edit(s, Edited(s, Back).value))
    ensures InText(Edited(s, Back).value)
  {
    var r, a, b := s.row - 1, s.text[s.row - 1], s.text[s.row];
    var t' := JoinAt(s.text, r);
    assert t'[r] == a + b && t'[r][..|a|] == a && t'[r][|a|..] == b;
    assert t'[..r] == s.text[..r] && t'[r + 1..] == s.text[r + 2..];
    assert SplitAt(t', r, |a|) == s.text;
  }

  // ----- refinement -----

  ghost predicate BothInText(ed: Edit) {
    InText(ed.before) && InText(ed.after)
  }

  /** The undo log stands for `past`, whose last edit led to the document `t` (cursor moves since
      then do not matter). */
  ghost predicate UndoLog(undo: seq<Op>, past: seq<Edit>, t: Text) {
    && |undo| == |past|
    && (past != [] ==>
          var n := |past| - 1;
          && Undoes(undo[n], past[n]) && BothInText(past[n]) && past[n].after.text == t
          && UndoLog(undo[..n], past[..n], past[n].before.text))
  }

  /** The redo log stands for `future`, whose last edit starts from the document `t`. */
  ghost predicate RedoLog(redo: seq<Op>, future: seq<Edit>, t: Text) {
    && |redo| == |future|
    && (future != [] ==>
          var n := |future| - 1;
          && Undoes(Reverse(redo[n]), future[n]) && BothInText(future[n]) && future[n].before.text == t
          && RedoLog(redo[..n], future[..n], future[n].after.text))
  }

  ghost predicate Refines(e: Editor, tl: Timeline) {
    && e.at == tl.at && InText(e.at)
    && |tl.past| + |tl.future| <= UNDO_CAP
    && UndoLog(e.undo, tl.past, tl.at.text) && RedoLog(e.redo, tl.future, tl.at.text)
  }

  lemma UndoLogPush(undo: seq<Op>, past: seq<Edit>, op: Op, ed: Edit)
    requires UndoLog(undo, past, ed.before.text) && Undoes(op, ed) && BothInText(ed)
    ensures UndoLog(undo + [op], past + [ed], ed.after.text)
  {
    hide Undoes, BothInText;
    assert (undo + [op])[..|past|] == undo && (past + [ed])[..|past|] == past;
  }

  lemma {:induction false} UndoLogDrop(undo: seq<Op>, past: seq<Edit>, t: Text, d: nat)
    requires UndoLog(undo, past, t) && d <= |past|
    ensures UndoLog(undo[d..], past[d..], t)
    decreases |past|
  {
    hide Undoes, BothInText;
    if d < |past| {
      var n := |past| - 1;
      UndoLogDrop(undo[..n], past[..n], past[n].before.text, d);
      assert undo[d..][..n - d] == undo[..n][d..] && past[d..][..n - d] == past[..n][d..];
    }
  }

  lemma RedoLogPush(redo: seq<Op>, future: seq<Edit>, op: Op, ed: Edit)
    requires RedoLog(redo, future, ed.after.text) && Undoes(op, ed) && BothInText(ed)
    ensures RedoLog(redo + [Reverse(op)], future + [ed], ed.before.text)
  {
    hide Undoes, BothInText;
    assert Reverse(Reverse(op)) == op;
    assert (redo + [Reverse(op)])[..|future|] == redo && (future + [ed])[..|future|] == future;
  }

  lemma UndoLogLength(undo: seq<Op>, past: seq<Edit>, t: Text)
    requires UndoLog(undo, past, t)
    ensures |undo| == |past|
  {
  }

  lemma RefinesEdit(e: Editor, tl: Timeline, s: Snap, op: Op)
    requires Refines(e, tl) && InText(s) && Undoes(op, Edit(tl.at, s))
    ensures Refines(Record(e, s, op), Timeline(s, Newest(tl.past + [Edit(tl.at, s)]), []))
  {
    hide Undoes, UndoLog;
    UndoLogPush(e.undo, tl.past, op, Edit(tl.at, s));
    var past := tl.past + [Edit(tl.at, s)];
    assert |e.undo| == |tl.past| by { UndoLogLength(e.undo, tl.past, tl.at.text); }
    UndoLogDrop(e.undo + [op], past, s.text, |past| - |Newest(past)|);
  }

  lemma RefinesUndo(e: Editor, tl: Timeline)
    requires Refines(e, tl)
    ensures Enabled(e, UndoCmd) && Refines(Step(e, UndoCmd), Next(tl, UndoCmd))
  {
    if tl.past != [] {
      var n := |tl.past| - 1;
      RedoLogPush(e.redo, tl.future, e.undo[n], tl.past[n]);
    }
  }

  lemma RedoLogTop(redo: seq<Op>, future: seq<Edit>, t: Text)
    requires RedoLog(redo, future, t) && future != []
    ensures |redo| == |future| && var n := |future| - 1;
      && Undoes(Reverse(redo[n]), future[n]) && BothInText(future[n]) && future[n].before.text == t
      && RedoLog(redo[..n], future[..n], future[n].after.text)
      && Reverse(Reverse(redo[n])) == redo[n]
  {
  }

  lemma RefinesRedo(e: Editor, tl: Timeline)
    requires Refines(e, tl)
    ensures Enabled(e, RedoCmd) && Refines(Step(e, RedoCmd), Next(tl, RedoCmd))
  {
    if tl.future != [] {
      var n := |tl.future| - 1;
      RedoLogTop(e.redo, tl.future, tl.at.text);
      UndoLogLength(e.undo, tl.past, tl.at.text);
      hide UndoLog, RedoLog;
      UndoLogPush(e.undo, tl.past, Reverse(e.redo[n]), tl.future[n]);
    }
  }

  /** One command: the notepad and the reference stay in step. */
  lemma RefinesStep(e: Editor, tl: Timeline, c: Command)
    requires Refines(e, tl) && Lossless(e.at, c)
    ensures Enabled(e, c) && Refines(Step(e, c), Next(tl, c))
  {
    hide Undoes, UndoLog, RedoLog, InsertAt, DeleteAt, SplitAt, JoinAt, Newest;
    var s := e.at;
    match c
    case Type(ch) =>
      if |s.text[s.row]| < MAX_LINE_LEN {
        TypeUndoes(s, ch);
        RefinesEdit(e, tl, Edited(s, c).value, Char(s.row, s.col, ch, true));
      }
    case Enter =>
      if |s.text| < MAX_LINES {
        EnterUndoes(s);
        RefinesEdit(e, tl, Edited(s, c).value, Newline(s.row, s.col, true));
      }
    case Back =>
      if s.col > 0 {
        DeleteUndoes(s);
        RefinesEdit(e, tl, Edited(s, c).value, Char(s.row, s.col - 1, s.text[s.row][s.col - 1], false));
      } else if s.row > 0 {
        JoinUndoes(s);
        RefinesEdit(e, tl, Edited(s, c).value, Newline(s.row - 1, |s.text[s.row - 1]|, false));
      }
    case Arrow(d) =>
    case UndoCmd => RefinesUndo(e, tl);
    case RedoCmd => RefinesRedo(e, tl);
  }

  // ----- runs -----

  predicate InRange(s: Snap) {
    s.row < |s.text| && s.col <= |s.text[s.row]|
  }

  function RunReference(tl: Timeline, cs: seq<Command>): Timeline
    decreases |cs|
  {
    if cs == [] || !InRange(tl.at) then tl else RunReference(Next(tl, cs[0]), cs[1..])
  }

  function Run(e: Editor, cs: seq<Command>): Editor
    decreases |cs|
  {
    if cs == [] || !Enabled(e, cs[0]) then e else Run(Step(e, cs[0]), cs[1..])
  }

  /** Undo and redo find an operation that fits at every point of the run. */
  predicate AlwaysEnabled(e: Editor, cs: seq<Command>)
    decreases |cs|
  {
    cs != [] ==> Enabled(e, cs[0]) && AlwaysEnabled(Step(e, cs[0]), cs[1..])
  }

  predicate LosslessRun(e: Editor, cs: seq<Command>)
    decreases |cs|
  {
    cs != [] && Enabled(e, cs[0]) ==> Lossless(e.at, cs[0]) && LosslessRun(Step(e, cs[0]), cs[1..])
  }

  /** Any run of typing, line breaks, backspaces, cursor moves, undos and redos in any order, as long
      as no join is too long for a line: the notepad does what the editor with snapshots does. */
  lemma {:induction false} RunRefines(e: Editor, tl: Timeline, cs: seq<Command>)
    requires Refines(e, tl) && LosslessRun(e, cs)
    ensures AlwaysEnabled(e, cs) && Refines(Run(e, cs), RunReference(tl, cs))
    decreases |cs|
  {
    hide UndoLog, RedoLog, Step, Next, Enabled, Lossless;
    if cs != [] {
      EnabledHere(e, tl, cs[0]);
      RefinesStep(e, tl, cs[0]);
      RunRefines(Step(e, cs[0]), Next(tl, cs[0]), cs[1..]);
    }
  }

  lemma EnabledHere(e: Editor, tl: Timeline, c: Command)
    requires Refines(e, tl)
    ensures Enabled(e, c) && InRange(tl.at)
  {
    RefinesUndo(e, tl);
    RefinesRedo(e, tl);
  }

  /** At the end of every such run both logs can be replayed. */
  lemma RunSafe(e: Editor, tl: Timeline, cs: seq<Command>)
    requires Refines(e, tl) && LosslessRun(e, cs)
    ensures var e' := Run(e, cs); InText(e'.at) && Replayable(e'.undo, e'.at.text) && Replayable(e'.redo, e'.at.text)
  {
    hide RunReference, Run, LosslessRun;
    RunRefines(e, tl, cs);
    RefinesReplayable(Run(e, cs), RunReference(tl, cs));
  }

  lemma RefinesReplayable(e: Editor, tl: Timeline)
    requires Refines(e, tl)
    ensures InText(e.at) && Replayable(e.undo, e.at.text) && Replayable(e.redo, e.at.text)
  {
    if e.redo != [] {
      RedoLogTop(e.redo, tl.future, tl.at.text);
    }
  }

  // ----- what the reference does -----

  function Times(c: Command, n: nat): (cs: seq<Command>)
    ensures |cs| == n
  {
    if n == 0 then [] else [c] + Times(c, n - 1)
  }

  /** Undoing `n` times goes back to the snapshot before the `n`th last edit. */
  lemma {:induction false} UndoTimes(e: Editor, tl: Timeline, n: nat)
    requires Refines(e, tl) && n <= |tl.past|
    ensures var m := |tl.past| - n; var tl' := RunReference(tl, Times(UndoCmd, n));
      && tl'.at == (if n == 0 then tl.at else tl.past[m].before)
      && tl'.past == tl.past[..m] && |tl'.future| == |tl.future| + n
      && Refines(Run(e, Times(UndoCmd, n)), tl')
    decreases n
  {
    hide UndoLog, RedoLog, Step, Next, Enabled;
    if n > 0 {
      EnabledHere(e, tl, UndoCmd);
      RefinesUndo(e, tl);
      assert Times(UndoCmd, n)[1..] == Times(UndoCmd, n - 1);
      NextUndo(tl);
      UndoTimes(Step(e, UndoCmd), Next(tl, UndoCmd), n - 1);
    }
  }

  lemma NextUndo(tl: Timeline)
    requires InRange(tl.at) && tl.past != []
    ensures var tl', n := Next(tl, UndoCmd), |tl.past| - 1;
      tl'.at == tl.past[n].before && tl'.past == tl.past[..n] && tl'.future == tl.future + [tl.past[n]]
  {
  }

  /** Repeating a command once more. */
  lemma {:induction false} RunTimes(e: Editor, c: Command, n: nat)
    ensures var e' := Run(e, Times(c, n));
      Run(e, Times(c, n + 1)) == if Enabled(e', c) then Step(e', c) else e'
    decreases n
  {
    hide Enabled, Step;
    assert Times(c, n + 1)[1..] == Times(c, n);
    if n == 0 {
      assert Times(c, 0) == [];
    } else if Enabled(e, c) {
      assert Times(c, n)[1..] == Times(c, n - 1);
      RunTimes(Step(e, c), c, n - 1);
    }
  }

  lemma RedoLength(redo: seq<Op>, future: seq<Edit>, t: Text)
    requires RedoLog(redo, future, t)
    ensures |redo| == |future|
  {
  }

  lemma RedoAfterUndo(e: Editor, tl: Timeline, s: Snap)
    requires Refines(e, tl) && tl.past != [] && Enabled(e, UndoCmd)
    requires InText(s) && s.text == tl.past[|tl.past| - 1].before.text
    ensures var e' := Step(e, UndoCmd).(at := s);
      Enabled(e', RedoCmd) && Step(e', RedoCmd) == e.(at := tl.past[|tl.past| - 1].after)
  {
    hide Apply, Applies, BothInText, RedoLog;
    var n := |tl.past| - 1;
    var op := e.undo[n];
    assert |e.redo| == |tl.future| by { RedoLength(e.redo, tl.future, tl.at.text); }
    var e' := Step(e, UndoCmd).(at := s);
    assert e'.redo == e.redo + [Reverse(op)] && e'.redo[..|e.redo|] == e.redo;
    assert Reverse(Reverse(op)) == op;
    assert e.undo[..n] + [op] == e.undo;
  }

  /** Undoing and redoing `n` times gives back the document, with the cursor where the last recorded
      edit had left it. */
  lemma {:induction false} UndoThenRedo(e: Editor, tl: Timeline, n: nat)
    requires Refines(e, tl) && n <= |tl.past|
    ensures Run(Run(e, Times(UndoCmd, n)), Times(RedoCmd, n)) ==
            if n == 0 then e else e.(at := tl.past[|tl.past| - 1].after)
    decreases n
  {
    hide Step, Enabled, Undoes, Next, RedoLog;
    if n > 0 {
      RefinesUndo(e, tl);
      NextUndo(tl);
      EnabledHere(e, tl, UndoCmd);
      var e1, tl1 := Step(e, UndoCmd), Next(tl, UndoCmd);
      assert Times(UndoCmd, n)[1..] == Times(UndoCmd, n - 1);
      UndoThenRedo(e1, tl1, n - 1);
      RunTimes(Run(e1, Times(UndoCmd, n - 1)), RedoCmd, n - 1);
      var s := if n == 1 then e1.at else tl1.past[|tl1.past| - 1].after;
      assert e1.(at := e1.at) == e1;
      RedoAfterUndo(e, tl, s);
    }
  }

  // ----- runs of edits and moves from an empty log -----

  /** All edits of a run, oldest first. */
  function Edits(s: Snap, cs: seq<Command>): seq<Edit>
    decreases |cs|
  {
    if cs == [] || !InRange(s) then []
    else if cs[0].Arrow? then Edits(Move(s, cs[0].d), cs[1..])
    else
      match Edited(s, cs[0])
      case None => Edits(s, cs[1..])
      case Some(s') => [Edit(s, s')] + Edits(s', cs[1..])
  }

  predicate NoUndo(cs: seq<Command>) {
    forall i | 0 <= i < |cs| :: !cs[i].UndoCmd? && !cs[i].RedoCmd?
  }

  lemma {:induction false} PastOfEdits(tl: Timeline, cs: seq<Command>)
    requires NoUndo(cs) && |tl.past| <= UNDO_CAP && tl.future == []
    ensures RunReference(tl, cs).past == Newest(tl.past + Edits(tl.at, cs))
    ensures RunReference(tl, cs).future == []
    decreases |cs|
  {
    hide Edited, Move, Newest;
    if cs == [] || !InRange(tl.at) {
      assert tl.past + [] == tl.past;
    } else {
      var tl1 := Next(tl, cs[0]);
      PastOfEdits(tl1, cs[1..]);
      if !cs[0].Arrow? && Edited(tl.at, cs[0]).Some? {
        var ed := Edit(tl.at, tl1.at);
        NewestTwice(tl.past, ed, Edits(tl1.at, cs[1..]));
      }
    }
  }

  lemma NewestTwice(past: seq<Edit>, ed: Edit, rest: seq<Edit>)
    ensures Newest(Newest(past + [ed]) + rest) == Newest(past + ([ed] + rest))
  {
    var x := past + [ed];
    var a, b, d := Newest(x) + rest, x + rest, |x| - |Newest(x)|;
    assert past + ([ed] + rest) == b;
    assert a == b[d..];
    assert b[d..][|a| - |Newest(a)|..] == b[d + |a| - |Newest(a)|..];
  }

  /** After any run of edits and cursor moves from an empty log: with `all` the edits of the run,
      the log holds the newest 256 of them; undoing `n` of those restores the document and cursor
      from before the `n`th last edit, and redoing them restores the final document, with the
      cursor where the last edit left it. */
  lemma UndoRedoOfRun(e: Editor, cs: seq<Command>, n: nat)
    requires InText(e.at) && e.undo == [] && e.redo == []
    requires NoUndo(cs) && LosslessRun(e, cs)
    requires 0 < n <= |Run(e, cs).undo|
    ensures var all, end := Edits(e.at, cs), Run(e, cs);
      && |end.undo| == Min(|all|, 256)
      && var back := Run(end, Times(UndoCmd, n));
         && back.at == all[|all| - n].before
         && Run(back, Times(RedoCmd, n)) == end.(at := all[|all| - 1].after)
         && all[|all| - 1].after.text == end.at.text
  {
    hide Refines, LosslessRun, Run, Edits, RunReference, Times, Newest, InText;
    var all, end := Edits(e.at, cs), Run(e, cs);
    var tl := RunOfEdits(e, cs);
    NewestIndex(all, n);
    NewestIndex(all, 1);
    UndoTimes(end, tl, n);
    RefinedAt(Run(end, Times(UndoCmd, n)), RunReference(tl, Times(UndoCmd, n)));
    UndoThenRedo(end, tl, n);
  }

  lemma NewestIndex(all: seq<Edit>, n: nat)
    requires 0 < n <= |Newest(all)|
    ensures Newest(all)[|Newest(all)| - n] == all[|all| - n]
  {
  }

  lemma RunOfEdits(e: Editor, cs: seq<Command>) returns (tl: Timeline)
    requires InText(e.at) && e.undo == [] && e.redo == []
    requires NoUndo(cs) && LosslessRun(e, cs)
    ensures Refines(Run(e, cs), tl) && tl.past == Newest(Edits(e.at, cs)) && tl.future == []
    ensures |Run(e, cs).undo| == |tl.past|
    ensures tl.past != [] ==> tl.past[|tl.past| - 1].after.text == Run(e, cs).at.text
  {
    hide Refines, LosslessRun, Run, Edits, RunReference, Newest;
    var tl0 := Timeline(e.at, [], []);
    StartRefines(e);
    RunRefines(e, tl0, cs);
    PastOfEdits(tl0, cs);
    tl := RunReference(tl0, cs);
    assert [] + Edits(e.at, cs) == Edits(e.at, cs);
    RefinedLog(Run(e, cs), tl);
  }

  lemma RefinedAt(e: Editor, tl: Timeline)
    requires Refines(e, tl)
    ensures e.at == tl.at
  {
  }

  lemma RefinedLog(e: Editor, tl: Timeline)
    requires Refines(e, tl)
    ensures |e.undo| == |tl.past| && e.at == tl.at
    ensures tl.past != [] ==> tl.past[|tl.past| - 1].after.text == tl.at.text
  {
  }

  lemma StartRefines(e: Editor)
    requires InText(e.at) && e.undo == [] && e.redo == []
    ensures Refines(e, Timeline(e.at, [], []))
  {
  }

  // ----- joins that do not fit -----

  /** Undoing a backspace that joined two lines restores the document exactly when the joined line
      was not too long. */
  lemma JoinUndoneIffFits(e: Editor)
    requires Sound(e) && e.at.col == 0 && e.at.row > 0
    ensures Enabled(Step(e, Back), UndoCmd)
    ensures Step(Step(e, Back), UndoCmd).at.text == e.at.text <==> Lossless(e.at, Back)
  {
    var s := e.at;
    var r, a, b := s.row - 1, s.text[s.row - 1], s.text[s.row];
    var e1 := Step(e, Back);
    var op := Newline(r, |a|, false);
    assert e1.undo[|e1.undo| - 1] == op;
    var t' := JoinAt(s.text, r);
    assert t'[r] == Cut(a + b) && |t'| == |s.text| - 1;
    if Lossless(s, Back) {
      JoinUndoes(s);
    } else {
      assert SplitAt(t', r, |a|)[r + 1] == Cut(a + b)[|a|..];
      assert |Cut(a + b)[|a|..]| < |b|;
    }
  }
}
