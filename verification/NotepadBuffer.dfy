/** The notepad's fixed arrays: lines of 256 bytes shifted in place, a ring buffer of undo operations
    and a stack of redo operations, each method tied to the editor on values. */
module NotepadBuffer {
  import opened Common
  import opened NotepadText
  import opened NotepadFile
  import opened NotepadFind

  class Buffer {
    const lines: array2<Byte>
    const lineLens: array<nat>
    var numLines: nat
    var cursorRow: nat
    var cursorCol: nat
    const undoBuf: array<Op>
    var undoHead: nat
    var undoLen: nat
    const redoBuf: array<Op>
    var redoLen: nat
    var findHasMatch: bool
    var findMatchRow: nat
    var findMatchCol: nat

    /** The document, and the operations in the two logs, oldest first. */
    ghost var text: Text
    ghost var undo: seq<Op>
    ghost var redo: seq<Op>

    // ----- what the arrays hold -----

    ghost predicate Sized() {
      && lines.Length0 == MAX_LINES && lines.Length1 == MAX_LINE_LEN && lineLens.Length == MAX_LINES
      && undoBuf.Length == UNDO_CAP && redoBuf.Length == UNDO_CAP && undoBuf != redoBuf
      && lines as object != undoBuf && lines as object != redoBuf && lines as object != lineLens
      && lineLens as object != undoBuf && lineLens as object != redoBuf
    }

    /** Row `r` of the arrays holds line `l`. */
    ghost predicate Holds(r: nat, l: Line)
      requires Sized()
      reads lines, lineLens
    {
      r < MAX_LINES && |l| <= MAX_LINE_LEN && lineLens[r] == |l| && forall j | 0 <= j < |l| :: lines[r, j] == l[j]
    }

    ghost predicate HoldsText()
      reads `text, `numLines, lines, lineLens
    {
      && Sized() && |text| == numLines && 1 <= numLines <= MAX_LINES
      && forall r | 0 <= r < numLines :: Holds(r, text[r])
    }

    /** Where the ring keeps the `k`th of its `len` elements. */
    static function RingSlot(head: nat, len: nat, k: nat): (slot: nat)
      requires len <= UNDO_CAP
      ensures slot < UNDO_CAP
    {
      (head + UNDO_CAP - len + k) % UNDO_CAP
    }

    ghost predicate HoldsUndo()
      reads `undo, `undoHead, `undoLen, undoBuf
    {
      && Sized() && undoHead < UNDO_CAP && |undo| == undoLen <= UNDO_CAP
      && forall k | 0 <= k < undoLen :: undo[k] == undoBuf[RingSlot(undoHead, undoLen, k)]
    }

    ghost predicate HoldsRedo()
      reads `redo, `redoLen, redoBuf
    {
      Sized() && redoLen <= UNDO_CAP && redo == redoBuf[..redoLen]
    }

    ghost predicate Valid()
      reads this, lines, lineLens, undoBuf, redoBuf
    {
      HoldsText() && HoldsUndo() && HoldsRedo() && cursorRow < numLines && cursorCol <= |text[cursorRow]|
    }

    ghost function State(): Editor
      reads this
    {
      Editor(Snap(text, cursorRow, cursorCol), undo, redo)
    }

    constructor ()
      ensures Valid() && State() == EMPTY_EDITOR
      ensures fresh(lines) && fresh(lineLens) && fresh(undoBuf) && fresh(redoBuf)
    {
      lines := new Byte[MAX_LINES, MAX_LINE_LEN]((i, j) => 0);
      lineLens := new nat[MAX_LINES](i => 0);
      undoBuf := new Op[UNDO_CAP](i => Char(0, 0, 0, false));
      redoBuf := new Op[UNDO_CAP](i => Char(0, 0, 0, false));
      numLines, cursorRow, cursorCol, undoHead, undoLen, redoLen := 1, 0, 0, 0, 0, 0;
      findHasMatch, findMatchRow, findMatchCol := false, 0, 0;
      text, undo, redo := [[]], [], [];
    }

    // ----- raw edits -----

    /** Makes room at `col` in a row with `len` bytes. */
    method ShiftRight(row: nat, col: nat, len: nat)
      requires Sized() && row < MAX_LINES && col <= len < MAX_LINE_LEN
      modifies lines
      ensures forall r, j | 0 <= r < MAX_LINES && 0 <= j < MAX_LINE_LEN && r != row :: lines[r, j] == old(lines[r, j])
      ensures forall j | 0 <= j < col :: lines[row, j] == old(lines[row, j])
      ensures forall j | col < j <= len :: lines[row, j] == old(lines[row, j - 1])
    {
      var i := len;
      while i > col
        invariant col <= i <= len
        invariant forall r, j | 0 <= r < MAX_LINES && 0 <= j < MAX_LINE_LEN && r != row :: lines[r, j] == old(lines[r, j])
        invariant forall j | 0 <= j <= i :: lines[row, j] == old(lines[row, j])
        invariant forall j | i < j <= len :: lines[row, j] == old(lines[row, j - 1])
      {
        i := i - 1;
        lines[row, i + 1] := lines[row, i];
      }
    }

    /** `raw_insert_char_at`. */
    method RawInsertCharAt(row: nat, col: nat, ch: Byte)
      requires HoldsText() && row < numLines && col <= |text[row]|
      modifies `text, lines, lineLens
      ensures HoldsText()
      ensures text == if old(|text[row]|) < MAX_LINE_LEN then InsertAt(old(text), row, col, ch) else old(text)
    {
      assert Holds(row, text[row]);
      var len := lineLens[row];
      if len >= MAX_LINE_LEN { return; }
      ShiftRight(row, col, len);
      lines[row, col] := ch;
      lineLens[row] := lineLens[row] + 1;
      text := InsertAt(text, row, col, ch);
      forall r | 0 <= r < numLines ensures Holds(r, text[r]) {
        assert old(Holds(r, text[r]));
      }
    }

    /** `raw_delete_char_at`. */
    method RawDeleteCharAt(row: nat, col: nat)
      requires HoldsText() && row < numLines
      modifies `text, lines, lineLens
      ensures HoldsText()
      ensures text == if col < old(|text[row]|) then DeleteAt(old(text), row, col) else old(text)
    {
      assert Holds(row, text[row]);
      var len := lineLens[row];
      if col >= len { return; }
      for i := col to len - 1
        modifies lines
        invariant forall r, j | 0 <= r < MAX_LINES && 0 <= j < MAX_LINE_LEN && (r != row || j < col || j >= i) ::
          lines[r, j] == old(lines[r, j])
        invariant forall j | col <= j < i :: lines[row, j] == old(lines[row, j + 1])
      {
        lines[row, i] := lines[row, i + 1];
      }
      lines[row, len - 1] := 0;
      lineLens[row] := len - 1;
      text := DeleteAt(text, row, col);
      forall r | 0 <= r < numLines ensures Holds(r, text[r]) {
        assert old(Holds(r, text[r]));
      }
    }

    /** `self.lines[dst] = self.lines[src]` together with the length. */
    method CopyRow(dst: nat, src: nat)
      requires Sized() && dst < MAX_LINES && src < MAX_LINES
      modifies lines, lineLens
      ensures lineLens[dst] == old(lineLens[src])
      ensures forall r | 0 <= r < MAX_LINES && r != dst :: lineLens[r] == old(lineLens[r])
      ensures forall j | 0 <= j < MAX_LINE_LEN :: lines[dst, j] == old(lines[src, j])
      ensures forall r, j | 0 <= r < MAX_LINES && 0 <= j < MAX_LINE_LEN && r != dst :: lines[r, j] == old(lines[r, j])
    {
      forall j | 0 <= j < MAX_LINE_LEN { lines[dst, j] := lines[src, j]; }
      lineLens[dst] := lineLens[src];
    }

    /** The loop of `raw_split_line` that moves the rows below `row` down by one. */
    method ShiftDown(row: nat)
      requires HoldsText() && row < numLines < MAX_LINES
      modifies lines, lineLens
      ensures forall r | 0 <= r <= row :: Holds(r, text[r])
      ensures forall r | row < r < numLines :: Holds(r + 1, text[r])
    {
      var i := numLines;
      while i > row + 1
        invariant row + 1 <= i <= numLines
        invariant forall r | 0 <= r < i :: Holds(r, text[r])
        invariant forall r | i <= r < numLines :: Holds(r + 1, text[r])
      {
        i := i - 1;
        label L:
        CopyRow(i + 1, i);
        assert forall r | 0 <= r <= i :: old@L(Holds(r, text[r]));
        assert forall r | i < r < numLines :: old@L(Holds(r + 1, text[r]));
      }
    }

    /** The end of `raw_split_line`: row `row + 1` takes the tail of row `row`. */
    method SplitRow(row: nat, at: nat, ghost l: Line)
      requires Sized() && row + 1 < MAX_LINES && Holds(row, l) && at <= |l|
      modifies lines, lineLens
      ensures Holds(row, l[..at]) && Holds(row + 1, l[at..])
      ensures forall r | 0 <= r < MAX_LINES && r != row && r != row + 1 :: lineLens[r] == old(lineLens[r])
      ensures forall r, j | 0 <= r < MAX_LINES && 0 <= j < MAX_LINE_LEN && r != row && r != row + 1 ::
        lines[r, j] == old(lines[r, j])
    {
      var oldLen := lineLens[row];
      var tailLen := oldLen - at;
      var newLine := new Byte[MAX_LINE_LEN](_ => 0);
      for i := 0 to tailLen
        modifies newLine
        invariant forall j | 0 <= j < i :: newLine[j] == l[at + j]
      {
        newLine[i] := lines[row, at + i];
      }
      for i := at to oldLen
        modifies lines
        invariant forall r, j | 0 <= r < MAX_LINES && 0 <= j < MAX_LINE_LEN && (r != row || j < at) ::
          lines[r, j] == old(lines[r, j])
      {
        lines[row, i] := 0;
      }
      lineLens[row] := at;
      forall j | 0 <= j < MAX_LINE_LEN { lines[row + 1, j] := newLine[j]; }
      lineLens[row + 1] := tailLen;
    }

    /** `raw_split_line`. */
    method RawSplitLine(row: nat, col: nat)
      requires HoldsText() && row < numLines
      modifies `text, `numLines, lines, lineLens
      ensures HoldsText()
      ensures text == if old(numLines) < MAX_LINES then SplitAt(old(text), row, Min(col, |old(text)[row]|)) else old(text)
    {
      if numLines >= MAX_LINES { return; }
      assert Holds(row, text[row]);
      var oldLen := lineLens[row];
      var at := Min(col, oldLen);
      ShiftDown(row);
      label shifted:
      assert Holds(row, text[row]);
      SplitRow(row, at, text[row]);
      text := SplitAt(text, row, at);
      numLines := numLines + 1;
      forall r | 0 <= r < numLines ensures Holds(r, text[r]) {
        if r < row {
          assert old@shifted(Holds(r, text[r]));
        } else if r > row + 1 {
          assert old@shifted(Holds((r - 1) + 1, text[r - 1]));
          assert text[r] == old(text)[r - 1];
        }
      }
    }

    /** The loop of `raw_join_lines` that moves the rows below `row + 1` up by one. */
    method ShiftUp(row: nat, ghost t: Text)
      requires Sized() && |t| == numLines <= MAX_LINES && row + 1 < numLines
      requires forall r | 0 <= r < numLines && r != row + 1 :: Holds(r, t[r])
      modifies lines, lineLens
      ensures forall r | 0 <= r <= row :: Holds(r, t[r])
      ensures forall r | row + 1 < r < numLines :: Holds(r - 1, t[r])
    {
      for i := row + 1 to numLines - 1
        invariant forall r | 0 <= r <= row || i < r < numLines :: Holds(r, t[r])
        invariant forall r | row + 1 < r <= i :: Holds(r - 1, t[r])
      {
        label L:
        CopyRow(i, i + 1);
        assert forall r | 0 <= r <= row || i < r < numLines :: old@L(Holds(r, t[r]));
        assert forall r | row + 1 < r <= i :: old@L(Holds(r - 1, t[r]));
      }
    }

    /** `raw_join_lines`. */
    method RawJoinLines(row: nat)
      requires HoldsText()
      modifies `text, `numLines, lines, lineLens
      ensures HoldsText()
      ensures text == if row + 1 < old(numLines) then JoinAt(old(text), row) else old(text)
    {
      if row + 1 >= numLines { return; }
      assert Holds(row, text[row]) && Holds(row + 1, text[row + 1]);
      var prevLen, curLen := lineLens[row], lineLens[row + 1];
      var copyLen := Min(curLen, MAX_LINE_LEN - prevLen);
      for i := 0 to copyLen
        modifies lines
        invariant forall r, j | 0 <= r < MAX_LINES && 0 <= j < MAX_LINE_LEN && (r != row || j < prevLen) ::
          lines[r, j] == old(lines[r, j])
        invariant forall j | prevLen <= j < prevLen + i :: lines[row, j] == text[row + 1][j - prevLen]
      {
        lines[row, prevLen + i] := lines[row + 1, i];
      }
      lineLens[row] := prevLen + copyLen;
      ghost var joined := Cut(text[row] + text[row + 1]);
      ghost var t := text[row := joined];
      forall r | 0 <= r < numLines && r != row + 1 ensures Holds(r, t[r]) {
        assert old(Holds(r, text[r]));
        if r == row { JoinedHolds(row, old(text[row]), old(text[row + 1]), prevLen, copyLen); }
      }
      ShiftUp(row, t);
      text := JoinAt(text, row);
      numLines := numLines - 1;
      forall r | 0 <= r < numLines ensures Holds(r, text[r]) {
        assert text[r] == if r <= row then t[r] else t[r + 1];
      }
    }

    // ----- the two logs -----

    /** `undo_push_raw`. */
    method UndoPushRaw(op: Op)
      requires HoldsUndo()
      modifies `undo, `undoHead, `undoLen, undoBuf
      ensures HoldsUndo() && undo == Newest(old(undo) + [op])
    {
      hide RingSlot;
      undoBuf[undoHead] := op;
      undo := Newest(undo + [op]);
      undoHead := (undoHead + 1) % UNDO_CAP;
      undoLen := Min(undoLen + 1, UNDO_CAP);
      forall k | 0 <= k < undoLen ensures undo[k] == undoBuf[RingSlot(undoHead, undoLen, k)] {
        RingIndex(old(undoHead), old(undoLen), k);
      }
    }

    static lemma RingSlotIs(head: nat, len: nat, k: nat)
      requires head < UNDO_CAP && k <= len <= UNDO_CAP
      ensures RingSlot(head, len, k) == if head + k < len then head + UNDO_CAP - len + k else head + k - len
    {
    }

    /** Slot `k` of the ring after a push is the slot of the same element before it, or the new one. */
    static lemma RingIndex(head: nat, len: nat, k: nat)
      requires head < UNDO_CAP && len <= UNDO_CAP && k < Min(len + 1, UNDO_CAP)
      ensures var head', len' := (head + 1) % UNDO_CAP, Min(len + 1, UNDO_CAP);
        var slot := RingSlot(head', len', k);
        if k == len' - 1 then slot == head
        else slot != head && slot == RingSlot(head, len, if len < UNDO_CAP then k else k + 1)
    {
      hide RingSlot;
      var head', len' := (head + 1) % UNDO_CAP, Min(len + 1, UNDO_CAP);
      assert head' == if head + 1 == UNDO_CAP then 0 else head + 1;
      RingSlotIs(head', len', k);
      if k < len' - 1 { RingSlotIs(head, len, if len < UNDO_CAP then k else k + 1); }
    }

    /** `undo_push`: a new edit clears the redo log. */
    method UndoPush(op: Op)
      requires HoldsUndo() && HoldsRedo()
      modifies `undo, `redo, `undoHead, `undoLen, `redoLen, undoBuf
      ensures HoldsUndo() && HoldsRedo() && undo == Newest(old(undo) + [op]) && redo == []
    {
      redoLen := 0;
      redo := [];
      UndoPushRaw(op);
    }

    /** `undo_pop`. */
    method UndoPop() returns (r: Option<Op>)
      requires HoldsUndo()
      modifies `undo, `undoHead, `undoLen
      ensures HoldsUndo()
      ensures if old(undo) == [] then r == None && undo == []
              else r == Some(old(undo)[|old(undo)| - 1]) && undo == old(undo)[..|old(undo)| - 1]
    {
      if undoLen == 0 { return None; }
      undoHead := (undoHead + UNDO_CAP - 1) % UNDO_CAP;
      undoLen := undoLen - 1;
      r := Some(undoBuf[undoHead]);
      undo := undo[..undoLen];
      assert RingSlot(old(undoHead), old(undoLen), undoLen) == undoHead;
      forall k | 0 <= k < undoLen ensures undo[k] == undoBuf[RingSlot(undoHead, undoLen, k)] {
        assert RingSlot(undoHead, undoLen, k) == RingSlot(old(undoHead), old(undoLen), k);
      }
    }

    /** `redo_push`. */
    method RedoPush(op: Op)
      requires HoldsRedo()
      modifies `redo, `redoLen, redoBuf
      ensures HoldsRedo() && redo == if |old(redo)| < UNDO_CAP then old(redo) + [op] else old(redo)
    {
      if redoLen < UNDO_CAP {
        redoBuf[redoLen] := op;
        redoLen := redoLen + 1;
        redo := redo + [op];
      }
    }

    /** `redo_pop`. */
    method RedoPop() returns (r: Option<Op>)
      requires HoldsRedo()
      modifies `redo, `redoLen
      ensures HoldsRedo()
      ensures if old(redo) == [] then r == None && redo == []
              else r == Some(old(redo)[|old(redo)| - 1]) && redo == old(redo)[..|old(redo)| - 1]
    {
      if redoLen == 0 { return None; }
      redoLen := redoLen - 1;
      redo := redo[..redoLen];
      return Some(redoBuf[redoLen]);
    }

    // ----- commands -----

    /** `apply_op`. */
    method ApplyOp(op: Op) returns (rev: Op)
      requires HoldsText() && Applies(op, text)
      modifies `text, `numLines, `cursorRow, `cursorCol, lines, lineLens
      ensures HoldsText() && rev == Reverse(op)
      ensures Snap(text, cursorRow, cursorCol) == Apply(op, old(text))
    {
      match op
      case Char(row, col, ch, insert) =>
        if insert {
          RawDeleteCharAt(row, col);
          cursorRow, cursorCol := row, col;
          return Char(row, col, ch, false);
        } else {
          RawInsertCharAt(row, col, ch);
          cursorRow, cursorCol := row, col + 1;
          return Char(row, col, ch, true);
        }
      case Newline(row, col, insert) =>
        if insert {
          RawJoinLines(row);
          cursorRow, cursorCol := row, col;
          return Newline(row, col, false);
        } else {
          RawSplitLine(row, col);
          cursorRow, cursorCol := row + 1, 0;
          return Newline(row, col, true);
        }
    }

    /** `insert_char`. */
    method InsertChar(ch: Byte)
      requires Valid()
      modifies this, lines, lineLens, undoBuf
      ensures Valid() && State() == NotepadText.InsertChar(old(State()), ch)
    {
      hide HoldsUndo, HoldsRedo;
      assert Holds(cursorRow, text[cursorRow]);
      var row, col := cursorRow, cursorCol;
      if lineLens[row] >= MAX_LINE_LEN { return; }
      RawInsertCharAt(row, col, ch);
      cursorCol := cursorCol + 1;
      UndoPush(Char(row, col, ch, true));
    }

    /** `insert_newline`. */
    method InsertNewline()
      requires Valid()
      modifies this, lines, lineLens, undoBuf
      ensures Valid() && State() == NotepadText.InsertNewline(old(State()))
    {
      hide HoldsUndo, HoldsRedo, Holds, Newest;
      var row, col := cursorRow, cursorCol;
      if numLines >= MAX_LINES { return; }
      RawSplitLine(row, col);
      cursorRow := cursorRow + 1;
      cursorCol := 0;
      UndoPush(Newline(row, col, true));
    }

    /** `backspace`. */
    method Backspace()
      requires Valid()
      modifies this, lines, lineLens, undoBuf
      ensures Valid() && State() == NotepadText.Backspace(old(State()))
    {
      if cursorCol > 0 {
        EraseChar();
      } else if cursorRow > 0 {
        EraseBreak();
      }
    }

    /** `backspace` after a character. */
    method EraseChar()
      requires Valid() && cursorCol > 0
      modifies this, lines, lineLens, undoBuf
      ensures Valid() && State() == NotepadText.Backspace(old(State()))
    {
      hide HoldsUndo, HoldsRedo;
      var row, col := cursorRow, cursorCol;
      assert Holds(row, text[row]);
      var oldCh := lines[row, col - 1];
      RawDeleteCharAt(row, col - 1);
      cursorCol := cursorCol - 1;
      UndoPush(Char(row, col - 1, oldCh, false));
    }

    /** `backspace` at the start of a line. */
    method EraseBreak()
      requires Valid() && cursorCol == 0 && cursorRow > 0
      modifies this, lines, lineLens, undoBuf
      ensures Valid() && State() == NotepadText.Backspace(old(State()))
    {
      hide HoldsUndo, HoldsRedo;
      var row := cursorRow;
      assert Holds(row - 1, text[row - 1]);
      var prevLen := lineLens[row - 1];
      RawJoinLines(row - 1);
      cursorRow := cursorRow - 1;
      cursorCol := prevLen;
      UndoPush(Newline(row - 1, prevLen, false));
    }

    /** `undo`. Runs of commands keep the newest operation of either log replayable: see `RunSafe`
        in module NotepadUndo. */
    method Undo()
      requires Valid() && Replayable(undo, text)
      modifies this, lines, lineLens, redoBuf
      ensures Valid() && State() == NotepadText.Undo(old(State()))
    {
      hide HoldsUndo, HoldsRedo;
      var op := UndoPop();
      if op.None? { return; }
      var rev := ApplyOp(op.value);
      RedoPush(rev);
    }

    /** `redo`. */
    method Redo()
      requires Valid() && Replayable(redo, text)
      modifies this, lines, lineLens, undoBuf
      ensures Valid() && State() == NotepadText.Redo(old(State()))
    {
      hide HoldsUndo, HoldsRedo;
      var op := RedoPop();
      if op.None? { return; }
      var rev := ApplyOp(op.value);
      UndoPushRaw(rev);
    }

    /** `move_up`, `move_down`, `move_left` and `move_right`. */
    method MoveCursor(d: Direction)
      requires Valid()
      modifies `cursorRow, `cursorCol
      ensures Valid() && State() == old(State()).(at := Move(old(State()).at, d))
    {
      hide HoldsUndo, HoldsRedo;
      assert Holds(cursorRow, text[cursorRow]);
      match d
      case Up =>
        if cursorRow > 0 {
          cursorRow := cursorRow - 1;
          assert Holds(cursorRow, text[cursorRow]);
          cursorCol := Min(cursorCol, lineLens[cursorRow]);
        }
      case Down =>
        if cursorRow + 1 < numLines {
          cursorRow := cursorRow + 1;
          assert Holds(cursorRow, text[cursorRow]);
          cursorCol := Min(cursorCol, lineLens[cursorRow]);
        }
      case Left =>
        if cursorCol > 0 {
          cursorCol := cursorCol - 1;
        } else if cursorRow > 0 {
          cursorRow := cursorRow - 1;
          assert Holds(cursorRow, text[cursorRow]);
          cursorCol := lineLens[cursorRow];
        }
      case Right =>
        if cursorCol < lineLens[cursorRow] {
          cursorCol := cursorCol + 1;
        } else if cursorRow + 1 < numLines {
          cursorRow := cursorRow + 1;
          cursorCol := 0;
        }
    }

    // ----- files -----

    /** The part of `save` that fills the buffer. */
    method Serialize() returns (bytes: seq<Byte>)
      requires HoldsText()
      ensures bytes == Joined(text)
    {
      var buf := new Byte[SAVE_BUFFER](_ => 0);
      var pos: nat := 0;
      for i := 0 to numLines
        modifies buf
        invariant pos <= SAVE_BUFFER && buf[..pos] == Written(text, i)
      {
        assert Holds(i, text[i]);
        WrittenFits(i);
        pos := PutLine(buf, pos, i);
        if i + 1 < numLines && pos < buf.Length { buf[pos] := NEWLINE; pos := pos + 1; }
      }
      WrittenIsJoined(text, numLines);
      assert text[..numLines] == text;
      bytes := buf[..pos];
    }

    lemma WrittenFits(i: nat)
      requires HoldsText() && i < numLines
      ensures |Written(text, i)| + |text[i]| + 1 <= SAVE_BUFFER
    {
      hide Written;
      forall r | 0 <= r < numLines ensures |text[r]| <= MAX_LINE_LEN { assert Holds(r, text[r]); }
      WrittenLength(text, i);
      assert (i + 1) * (MAX_LINE_LEN + 1) <= SAVE_BUFFER;
    }

    /** The inner loop of `save`. */
    method PutLine(buf: array<Byte>, start: nat, row: nat) returns (pos: nat)
      requires HoldsText() && row < numLines && start + |text[row]| <= buf.Length
      requires buf as object != lineLens && buf as object != lines
      modifies buf
      ensures pos == start + |text[row]| && buf[..pos] == old(buf[..start]) + text[row]
    {
      assert Holds(row, text[row]);
      pos := start;
      for j := 0 to lineLens[row]
        modifies buf
        invariant pos == start + j
        invariant buf[..pos] == old(buf[..start]) + text[row][..j]
      {
        if pos < buf.Length { buf[pos] := lines[row, j]; pos := pos + 1; }
      }
      assert text[row][..|text[row]|] == text[row];
    }

    /** Every row starts empty. */
    method ClearRows()
      requires Sized()
      modifies lineLens
      ensures forall r | 0 <= r < MAX_LINES :: lineLens[r] == 0
    {
      for i := 0 to MAX_LINES
        invariant forall r | 0 <= r < i :: lineLens[r] == 0
      {
        lineLens[i] := 0;
      }
    }

    /** The part of `open_file` that replaces the document. With `MAX_LINES` newlines or more it leaves
        a line count that exceeds the arrays. */
    method Load(data: seq<Byte>)
      requires Valid()
      modifies this, lines, lineLens
      ensures numLines == Min(Newlines(data), MAX_LINES) + 1
      ensures Newlines(data) < MAX_LINES ==> Valid() && State() == Editor(Snap(Parsed(data), 0, 0), [], [])
    {
      ClearRows();
      cursorRow, cursorCol, undoLen, undoHead, redoLen := 0, 0, 0, 0, 0;
      undo, redo := [], [];
      var row := ParseRows(data);
      numLines := row + 1;
      text := Parsed(data);
    }

    /** The rows hold the lines of `t`, and the rows after them are empty. */
    ghost predicate HoldsRows(t: Text)
      reads lines, lineLens
    {
      && Sized() && |t| <= MAX_LINES && (forall r | 0 <= r < |t| :: Holds(r, t[r]))
      && forall r | |t| <= r < MAX_LINES :: lineLens[r] == 0
    }

    /** One byte that is not a newline, in the parsing loop of `open_file`. */
    method PutByte(row: nat, col: nat, byte: Byte, ghost t: Text) returns (col': nat)
      requires HoldsRows(t) && row + 1 == |t| && col == |t[row]|
      modifies lines, lineLens
      ensures var l := if |t[row]| < MAX_LINE_LEN then t[row] + [byte] else t[row];
        HoldsRows(t[row := l]) && col' == |l|
    {
      assert Holds(row, t[row]);
      col' := col;
      if col < MAX_LINE_LEN {
        lines[row, col] := byte;
        col' := col + 1;
        lineLens[row] := col';
        assert forall r | 0 <= r < |t| :: old(Holds(r, t[r]));
      }
    }

    lemma StartRows()
      requires Sized() && forall r | 0 <= r < MAX_LINES :: lineLens[r] == 0
      ensures HoldsRows([[]])
    {
    }

    /** The parsing loop of `open_file`. */
    method ParseRows(data: seq<Byte>) returns (row: nat)
      requires Sized() && forall r | 0 <= r < MAX_LINES :: lineLens[r] == 0
      modifies lines, lineLens
      ensures row == Min(Newlines(data), MAX_LINES)
      ensures row < MAX_LINES ==> HoldsRows(Parsed(data))
    {
      hide HoldsRows, Parsed, Newlines;
      StartRows();
      ParsedNone(data);
      row := 0;
      var col := 0;
      for k := 0 to |data|
        invariant row == Min(Newlines(data[..k]), MAX_LINES)
        invariant row < MAX_LINES ==> HoldsRows(Parsed(data[..k])) && col == |Parsed(data[..k])[row]|
      {
        if row >= MAX_LINES {
          NewlinesGrow(data, k);
          return;
        }
        ParsedTake(data, k);
        var byte := data[k];
        if byte == NEWLINE {
          row := row + 1;
          col := 0;
          if row < MAX_LINES {
            ClearRow(row, Parsed(data[..k]));
          }
        } else {
          ghost var t := Parsed(data[..k]);
          col := PutByte(row, col, byte, t);
          assert t[row := t[row]] == t;
        }
      }
      assert data[..|data|] == data;
    }

    /** A newline, in the parsing loop of `open_file`. */
    method ClearRow(row: nat, ghost t: Text)
      requires HoldsRows(t) && row == |t| < MAX_LINES
      modifies lineLens
      ensures HoldsRows(t + [[]])
    {
      lineLens[row] := 0;
      assert forall r | 0 <= r < |t| :: old(Holds(r, t[r]));
    }

    // ----- search -----

    method MatchesAt(row: nat, col: nat, q: Line) returns (b: bool)
      requires HoldsText() && row < numLines && col + |q| <= |text[row]|
      ensures b == Occurs(text, q, Pos(row, col))
    {
      assert Holds(row, text[row]);
      for j := 0 to |q|
        invariant text[row][col..col + j] == q[..j]
      {
        if lines[row, col + j] != q[j] {
          assert text[row][col..col + |q|][j] != q[j];
          return false;
        }
        assert text[row][col + j] == lines[row, col + j];
        assert text[row][col..col + j + 1] == text[row][col..col + j] + [q[j]] && q[..j + 1] == q[..j] + [q[j]];
      }
      assert q[..|q|] == q;
      return true;
    }

    /** One pass of `find_next`. */
    method SearchFrom(q: Line, from: Pos) returns (m: Option<Pos>)
      requires HoldsText() && q != []
      ensures FirstFrom(text, q, from, m)
    {
      assert |text| == numLines;
      hide HoldsText;
      var row := from.row;
      while row < numLines
        invariant from.row <= row
        invariant forall o | Occurs(text, q, o) && !Before(o, from) :: o.row >= row
      {
        var lineLen := LineLength(row);
        var colFrom := if row == from.row then from.col else 0;
        if lineLen >= |q| {
          var col := colFrom;
          while col <= lineLen - |q|
            invariant colFrom <= col
            invariant forall o | Occurs(text, q, o) && !Before(o, from) && o.row == row :: o.col >= col
            decreases lineLen - col
          {
            var b := MatchesAt(row, col, q);
            if b { return Some(Pos(row, col)); }
            col := col + 1;
          }
        }
        row := row + 1;
      }
      return None;
    }

    method LineLength(row: nat) returns (len: nat)
      requires HoldsText() && row < numLines
      ensures row < |text| == numLines && len == |text[row]|
    {
      assert Holds(row, text[row]);
      len := lineLens[row];
    }

    /** `find_next`, for the query in the input bar. */
    method FindNext(q: Line)
      requires Valid() && (findHasMatch ==> findMatchRow < MAX_LINES)
      modifies `findHasMatch, `findMatchRow, `findMatchCol, `cursorRow, `cursorCol
      ensures Valid()
      ensures findHasMatch <==> q != [] && exists p :: Occurs(text, q, p)
      ensures findHasMatch ==>
        && cursorRow == findMatchRow && cursorCol == findMatchCol
        && var m := Some(Pos(findMatchRow, findMatchCol));
           if old(findHasMatch) then NextAfter(text, q, old(Pos(findMatchRow, findMatchCol)), m)
           else FirstFrom(text, q, Pos(0, 0), m)
      ensures !findHasMatch ==> cursorRow == old(cursorRow) && cursorCol == old(cursorCol)
    {
      hide HoldsUndo, HoldsRedo, Holds, FirstFrom, NextAfter, Occurs;
      var m := NextMatch(q);
      if m.Some? {
        findMatchRow, findMatchCol, findHasMatch := m.value.row, m.value.col, true;
        cursorRow, cursorCol := m.value.row, m.value.col;
      } else {
        findHasMatch := false;
      }
    }

    /** The search of `find_next`, before it moves the cursor. */
    method NextMatch(q: Line) returns (m: Option<Pos>)
      requires HoldsText() && (findHasMatch ==> findMatchRow < MAX_LINES)
      ensures m.Some? <==> q != [] && exists p :: Occurs(text, q, p)
      ensures m.Some? ==> m.value.row < |text| && m.value.col <= |text[m.value.row]|
      ensures q != [] ==> if findHasMatch then NextAfter(text, q, Pos(findMatchRow, findMatchCol), m)
                          else FirstFrom(text, q, Pos(0, 0), m)
    {
      hide HoldsText, FirstFrom, NextAfter, Occurs, StartsAfter;
      if q == [] { return None; }
      var start := Pos(0, 0);
      if findHasMatch {
        start := AfterMatch(q);
      }
      m := SearchTwice(q, start);
    }

    /** The two passes of `find_next`: the second one only if the first did not start at the top. */
    method SearchTwice(q: Line, start: Pos) returns (m: Option<Pos>)
      requires HoldsText() && q != []
      ensures m.Some? <==> exists p :: Occurs(text, q, p)
      ensures m.Some? ==> m.value.row < |text| && m.value.col <= |text[m.value.row]|
      ensures start == Pos(0, 0) ==> FirstFrom(text, q, start, m)
      ensures forall cur | StartsAfter(text, q, cur, start) :: NextAfter(text, q, cur, m)
    {
      hide HoldsText, FirstFrom, NextAfter, Occurs, StartsAfter;
      m := SearchFrom(q, start);
      ghost var first := m;
      if m.None? && start != Pos(0, 0) {
        m := SearchFrom(q, Pos(0, 0));
      }
      MatchIsNext(q, start, first, m);
    }

    /** The position `find_next` starts from when there is a match. */
    method AfterMatch(q: Line) returns (start: Pos)
      requires HoldsText() && findMatchRow < MAX_LINES
      ensures StartsAfter(text, q, Pos(findMatchRow, findMatchCol), start) && start != Pos(0, 0)
    {
      var nc, nr := findMatchCol + 1, findMatchRow;
      if nr < numLines { assert Holds(nr, text[nr]); }
      start := if nc + |q| > lineLens[nr] then Pos(nr + 1, 0) else Pos(nr, nc);
    }

    lemma MatchIsNext(q: Line, start: Pos, first: Option<Pos>, m: Option<Pos>)
      requires FirstFrom(text, q, start, first)
      requires if first.Some? || start == Pos(0, 0) then m == first else FirstFrom(text, q, Pos(0, 0), m)
      ensures m.Some? <==> exists p :: Occurs(text, q, p)
      ensures m.Some? ==> Occurs(text, q, m.value) && m.value.row < |text| && m.value.col <= |text[m.value.row]|
      ensures start == Pos(0, 0) ==> FirstFrom(text, q, start, m)
      ensures forall cur | StartsAfter(text, q, cur, start) :: NextAfter(text, q, cur, m)
    {
      if m.None? { FoundIffOccurs(text, q, m); }
      forall cur | StartsAfter(text, q, cur, start) ensures NextAfter(text, q, cur, m) {
        if first.None? {
          SecondPass(text, q, cur, start, m);
        } else {
          NextOfFirst(text, q, cur, start, first);
        }
      }
    }

    lemma JoinedHolds(row: nat, a: Line, b: Line, prevLen: nat, copyLen: nat)
      requires Sized() && row < MAX_LINES && |a| == prevLen <= MAX_LINE_LEN && |b| <= MAX_LINE_LEN
      requires copyLen == Min(|b|, MAX_LINE_LEN - prevLen) && lineLens[row] == prevLen + copyLen
      requires forall j | 0 <= j < prevLen :: lines[row, j] == a[j]
      requires forall j | prevLen <= j < prevLen + copyLen :: lines[row, j] == b[j - prevLen]
      ensures Holds(row, Cut(a + b))
    {
    }
  }
}
