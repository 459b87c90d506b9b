/** The notepad's document and its editing commands, on values: text, cursor, and the two logs of
    small operations that undo and redo replay. */
module NotepadText {
  import opened Common

  const MAX_LINES: nat := 1024
  const MAX_LINE_LEN: nat := 256
  const UNDO_CAP: nat := 256

  type Line = seq<Byte>
  type Text = seq<Line>

  /** A document the fixed arrays can hold. */
  ghost predicate Fits(t: Text) {
    1 <= |t| <= MAX_LINES && forall i | 0 <= i < |t| :: |t[i]| <= MAX_LINE_LEN
  }

  // ----- raw edits -----

  /** `raw_insert_char_at` on a line that is not full. */
  function InsertAt(t: Text, row: nat, col: nat, ch: Byte): Text
    requires row < |t| && col <= |t[row]|
  {
    t[row := t[row][..col] + [ch] + t[row][col..]]
  }

  /** `raw_delete_char_at`. */
  function DeleteAt(t: Text, row: nat, col: nat): Text
    requires row < |t| && col < |t[row]|
  {
    t[row := t[row][..col] + t[row][col + 1..]]
  }

  /** `raw_split_line`. */
  function SplitAt(t: Text, row: nat, col: nat): Text
    requires row < |t| && col <= |t[row]|
  {
    t[..row] + [t[row][..col], t[row][col..]] + t[row + 1..]
  }

  /** As much of a line as the buffer holds. */
  function Cut(l: Line): Line {
    if |l| <= MAX_LINE_LEN then l else l[..MAX_LINE_LEN]
  }

  /** `raw_join_lines`: what does not fit is lost. */
  function JoinAt(t: Text, row: nat): Text
    requires row + 1 < |t|
  {
    t[..row] + [Cut(t[row] + t[row + 1])] + t[row + 2..]
  }

  // ----- log operations -----

  datatype Op =
    | Char(row: nat, col: nat, ch: Byte, insert: bool)
    | Newline(row: nat, col: nat, insert: bool)

  /** A cursor position in a document. */
  datatype Snap = Snap(text: Text, row: nat, col: nat)

  ghost predicate InText(s: Snap) {
    Fits(s.text) && s.row < |s.text| && s.col <= |s.text[s.row]|
  }

  /** The operation refers to places that exist in the document. */
  predicate Applies(op: Op, t: Text) {
    op.row < |t| &&
    match op
    case Char(row, col, ch, insert) =>
      if insert then col < |t[row]| else col <= |t[row]| && |t[row]| < MAX_LINE_LEN
    case Newline(row, col, insert) =>
      if insert then row + 1 < |t| else col <= |t[row]| && |t| < MAX_LINES
  }

  /** `apply_op`: the document and cursor afterwards. */
  function Apply(op: Op, t: Text): (s: Snap)
    requires Applies(op, t)
  {
    match op
    case Char(row, col, ch, insert) =>
      if insert then Snap(DeleteAt(t, row, col), row, col)
      else Snap(InsertAt(t, row, col, ch), row, col + 1)
    case Newline(row, col, insert) =>
      if insert then Snap(JoinAt(t, row), row, col)
      else Snap(SplitAt(t, row, col), row + 1, 0)
  }

  /** The operation `apply_op` hands to the other log. */
  function Reverse(op: Op): Op {
    op.(insert := !op.insert)
  }

  // ----- the editor -----

  datatype Editor = Editor(at: Snap, undo: seq<Op>, redo: seq<Op>)

  ghost predicate Sound(e: Editor) {
    InText(e.at) && |e.undo| <= UNDO_CAP && |e.redo| <= UNDO_CAP
  }

  const EMPTY_EDITOR := Editor(Snap([[]], 0, 0), [], [])

  /** The newest `UNDO_CAP` elements, which is all a ring of that size keeps. */
  function Newest<T>(s: seq<T>): (r: seq<T>)
    ensures |r| == Min(|s|, UNDO_CAP) && r == s[|s| - |r|..]
  {
    if |s| <= UNDO_CAP then s else s[|s| - UNDO_CAP..]
  }

  /** `undo_push`. */
  function Record(e: Editor, s: Snap, op: Op): Editor {
    Editor(s, Newest(e.undo + [op]), [])
  }

  function InsertChar(e: Editor, ch: Byte): Editor
    requires e.at.row < |e.at.text| && e.at.col <= |e.at.text[e.at.row]|
  {
    var Snap(t, row, col) := e.at;
    if |t[row]| >= MAX_LINE_LEN then e
    else Record(e, Snap(InsertAt(t, row, col, ch), row, col + 1), Char(row, col, ch, true))
  }

  function InsertNewline(e: Editor): Editor
    requires e.at.row < |e.at.text| && e.at.col <= |e.at.text[e.at.row]|
  {
    var Snap(t, row, col) := e.at;
    if |t| >= MAX_LINES then e
    else Record(e, Snap(SplitAt(t, row, col), row + 1, 0), Newline(row, col, true))
  }

  function Backspace(e: Editor): Editor
    requires e.at.row < |e.at.text| && e.at.col <= |e.at.text[e.at.row]|
  {
    var Snap(t, row, col) := e.at;
    if col > 0 then
      Record(e, Snap(DeleteAt(t, row, col - 1), row, col - 1), Char(row, col - 1, t[row][col - 1], false))
    else if row > 0 then
      var prevLen := |t[row - 1]|;
      Record(e, Snap(JoinAt(t, row - 1), row - 1, prevLen), Newline(row - 1, prevLen, false))
    else e
  }

  function Undo(e: Editor): Editor
    requires e.undo != [] ==> Applies(e.undo[|e.undo| - 1], e.at.text)
  {
    if e.undo == [] then e
    else
      var op := e.undo[|e.undo| - 1];
      Editor(Apply(op, e.at.text), e.undo[..|e.undo| - 1],
             if |e.redo| < UNDO_CAP then e.redo + [Reverse(op)] else e.redo)
  }

  function Redo(e: Editor): Editor
    requires e.redo != [] ==> Applies(e.redo[|e.redo| - 1], e.at.text)
  {
    if e.redo == [] then e
    else
      var op := e.redo[|e.redo| - 1];
      Editor(Apply(op, e.at.text), Newest(e.undo + [Reverse(op)]), e.redo[..|e.redo| - 1])
  }

  /** The newest operation of a log fits the document and leads to a proper one. */
  ghost predicate Replayable(log: seq<Op>, t: Text) {
    log != [] ==> Applies(log[|log| - 1], t) && InText(Apply(log[|log| - 1], t))
  }

  // ----- cursor moves -----

  datatype Direction = Up | Down | Left | Right

  function Move(s: Snap, d: Direction): Snap
    requires s.row < |s.text| && s.col <= |s.text[s.row]|
  {
    match d
    case Up =>
      if s.row > 0 then s.(row := s.row - 1, col := Min(s.col, |s.text[s.row - 1]|)) else s
    case Down =>
      if s.row + 1 < |s.text| then s.(row := s.row + 1, col := Min(s.col, |s.text[s.row + 1]|)) else s
    case Left =>
      if s.col > 0 then s.(col := s.col - 1)
      else if s.row > 0 then s.(row := s.row - 1, col := |s.text[s.row - 1]|) else s
    case Right =>
      if s.col < |s.text[s.row]| then s.(col := s.col + 1)
      else if s.row + 1 < |s.text| then s.(row := s.row + 1, col := 0) else s
  }
}
