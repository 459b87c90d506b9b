/** The document as the flat string of its bytes, lines separated by newlines, with the cursor as an offset
    into it: every edit inserts or removes one byte at the cursor, and moving left or right is moving the
    offset by one. */
module NotepadFlat {
  import opened Common
  import opened NotepadText
  import opened NotepadFile

  // ----- a document around one of its lines -----

  /** The lines before a line, each with its newline. */
  function Ahead(ls: Text): (bytes: seq<Byte>)
    decreases |ls|
  {
    if ls == [] then [] else Ahead(ls[..|ls| - 1]) + ls[|ls| - 1] + [NEWLINE]
  }

  /** The lines after a line, each after a newline. */
  function Behind(ls: Text): (bytes: seq<Byte>)
    decreases |ls|
  {
    if ls == [] then [] else Behind(ls[..|ls| - 1]) + [NEWLINE] + ls[|ls| - 1]
  }

  lemma {:induction false} JoinedAround(t: Text, row: nat)
    requires row < |t|
    ensures Joined(t) == Ahead(t[..row]) + t[row] + Behind(t[row + 1..])
    decreases |t|
  {
    var n := |t| - 1;
    if row == n {
      assert t[row + 1..] == [];
      if n > 0 {
        JoinedAround(t[..n], n - 1);
        assert t[..n][..n - 1] == t[..n - 1] && t[..n][n..] == [];
        assert t[..n][..|t[..n]| - 1] == t[..n - 1];
      }
    } else {
      JoinedAround(t[..n], row);
      var rest := t[row + 1..];
      assert t[..n][row + 1..] == rest[..|rest| - 1] && rest[|rest| - 1] == t[n] && t[..n][..row] == t[..row];
      JoinCat(Ahead(t[..row]) + t[row], Behind(rest[..|rest| - 1]), [NEWLINE] + t[n]);
      JoinCat(Ahead(t[..row]) + t[row] + Behind(rest[..|rest| - 1]), [NEWLINE], t[n]);
      JoinCat(Behind(rest[..|rest| - 1]), [NEWLINE], t[n]);
    }
  }

  lemma JoinCat(a: seq<Byte>, b: seq<Byte>, c: seq<Byte>)
    ensures a + b + c == a + (b + c)
  {
  }

  /** Where a place in the document lies in the flat bytes. */
  function Offset(t: Text, row: nat, col: nat): nat
    requires row < |t|
  {
    |Ahead(t[..row])| + col
  }

  function At(s: Snap): nat
    requires s.row < |s.text|
  {
    Offset(s.text, s.row, s.col)
  }

  ghost predicate Placed(s: Snap) {
    s.row < |s.text| && s.col <= |s.text[s.row]|
  }

  lemma NextRow(t: Text, row: nat)
    requires row + 1 < |t|
    ensures Offset(t, row + 1, 0) == Offset(t, row, |t[row]|) + 1
  {
    var ls := t[..row + 1];
    assert ls[..|ls| - 1] == t[..row];
  }

  lemma {:induction false} RowsAscend(t: Text, a: nat, b: nat)
    requires a < b < |t|
    ensures Offset(t, a, |t[a]|) < Offset(t, b, 0)
    decreases b
  {
    NextRow(t, b - 1);
    if a < b - 1 { RowsAscend(t, a, b - 1); }
  }

  /** Every place has its own offset, from zero to the length of the document. */
  lemma OffsetsDiffer(t: Text, p: nat, i: nat, q: nat, j: nat)
    requires p < |t| && i <= |t[p]| && q < |t| && j <= |t[q]|
    ensures Offset(t, p, i) == Offset(t, q, j) <==> p == q && i == j
    ensures Offset(t, p, i) < Offset(t, q, j) <==> p < q || (p == q && i < j)
    ensures Offset(t, p, i) <= |Joined(t)|
  {
    if p < q { RowsAscend(t, p, q); }
    if q < p { RowsAscend(t, q, p); }
    JoinedAround(t, p);
  }

  lemma Ends(t: Text)
    requires t != []
    ensures Offset(t, 0, 0) == 0 && Offset(t, |t| - 1, |t[|t| - 1]|) == |Joined(t)|
  {
    var n := |t| - 1;
    assert t[..0] == [] && t[n + 1..] == [];
    JoinedAround(t, n);
  }

  // ----- cursor moves -----

  /** Left and right go to the place before and after in the document, and stay only at its two ends. */
  lemma LeftRight(s: Snap)
    requires Placed(s)
    ensures var l := Move(s, Left);
      l.text == s.text && Placed(l) && At(l) == if At(s) == 0 then 0 else At(s) - 1
    ensures var r := Move(s, Right);
      r.text == s.text && Placed(r) && At(r) == if At(s) == |Joined(s.text)| then At(s) else At(s) + 1
  {
    var t, row := s.text, s.row;
    Ends(t);
    if row > 0 { NextRow(t, row - 1); }
    if row + 1 < |t| { NextRow(t, row); OffsetsDiffer(t, row, s.col, row + 1, 0); }
    OffsetsDiffer(t, row, s.col, 0, 0);
    OffsetsDiffer(t, row, s.col, |t| - 1, |t[|t| - 1]|);
  }

  /** They undo each other everywhere else. */
  lemma LeftRightInverse(s: Snap)
    requires Placed(s)
    ensures At(s) > 0 ==> Move(Move(s, Left), Right) == s
    ensures At(s) < |Joined(s.text)| ==> Move(Move(s, Right), Left) == s
  {
    LeftRight(s);
    var l, r := Move(s, Left), Move(s, Right);
    LeftRight(l);
    LeftRight(r);
    var lr, rl := Move(l, Right), Move(r, Left);
    OffsetsDiffer(s.text, s.row, s.col, lr.row, lr.col);
    OffsetsDiffer(s.text, s.row, s.col, rl.row, rl.col);
    OffsetsDiffer(s.text, s.row, s.col, 0, 0);
  }

  /** `c` is the largest column of line `l` that is not past `col`. */
  ghost predicate Nearest(l: Line, col: nat, c: nat) {
    c <= |l| && c <= col && (c == |l| || c == col)
  }

  /** Up and down change the row by one exactly when there is such a row, and keep the column as far as the
      line reaches. */
  lemma UpDown(s: Snap)
    requires Placed(s)
    ensures var a := Move(s, Up);
      a.text == s.text &&
      if s.row == 0 then a == s else a.row == s.row - 1 && Nearest(s.text[s.row - 1], s.col, a.col)
    ensures var a := Move(s, Down);
      a.text == s.text &&
      if s.row == |s.text| - 1 then a == s else a.row == s.row + 1 && Nearest(s.text[s.row + 1], s.col, a.col)
  {
  }

  // ----- edits -----

  /** `c` put in at `k`. */
  function With(f: seq<Byte>, k: nat, c: Byte): seq<Byte>
    requires k <= |f|
  {
    f[..k] + [c] + f[k..]
  }

  /** The byte before `k` taken out. */
  function Less(f: seq<Byte>, k: nat): seq<Byte>
    requires 0 < k <= |f|
  {
    f[..k - 1] + f[k..]
  }

  lemma CatAround(a: seq<Byte>, p: seq<Byte>, m: seq<Byte>, q: seq<Byte>, b: seq<Byte>)
    ensures a + (p + m + q) + b == (a + p) + m + (q + b)
    ensures a + (p + q) + b == (a + p) + (q + b)
  {
  }

  lemma Inside(t: Text, row: nat, col: nat)
    requires row < |t| && col <= |t[row]|
    ensures var f, o := Joined(t), Offset(t, row, col);
      && o <= |f| && f[..o] == Ahead(t[..row]) + t[row][..col] && f[o..] == t[row][col..] + Behind(t[row + 1..])
  {
    hide Ahead, Behind, Joined;
    JoinedAround(t, row);
    var a, l, b := Ahead(t[..row]), t[row], Behind(t[row + 1..]);
    assert l == l[..col] + l[col..];
    CatAround(a, l[..col], [], l[col..], b);
  }

  /** Typing puts the byte in at the cursor and moves past it, unless the line is full. */
  lemma TypeInserts(e: Editor, ch: Byte)
    requires Placed(e.at)
    ensures var r := NotepadText.InsertChar(e, ch);
      if |e.at.text[e.at.row]| >= 256 then r == e
      else Placed(r.at) && At(e.at) <= |Joined(e.at.text)| && r.at.text != [] &&
           Joined(r.at.text) == With(Joined(e.at.text), At(e.at), ch) && At(r.at) == At(e.at) + 1
  {
    hide Ahead, Behind, Joined;
    var Snap(t, row, col) := e.at;
    Inside(t, row, col);
    if |t[row]| < MAX_LINE_LEN {
      var t1 := InsertAt(t, row, col, ch);
      assert t1[..row] == t[..row] && t1[row + 1..] == t[row + 1..];
      JoinedAround(t1, row);
      CatAround(Ahead(t[..row]), t[row][..col], [ch], t[row][col..], Behind(t[row + 1..]));
    }
  }

  lemma AheadSplit(t: Text, row: nat, col: nat)
    requires row < |t| && col <= |t[row]|
    ensures var t1 := SplitAt(t, row, col);
      && |t1| == |t| + 1 && t1[row] == t[row][..col] && t1[row + 1] == t[row][col..]
      && t1[..row] == t[..row] && t1[row + 2..] == t[row + 1..]
      && Ahead(t1[..row + 1]) == Ahead(t[..row]) + t[row][..col] + [NEWLINE]
  {
    var t1 := SplitAt(t, row, col);
    var ls := t1[..row + 1];
    assert t1[..row] == t[..row] && t1[row + 2..] == t[row + 1..];
    assert ls[..|ls| - 1] == t[..row] && ls[|ls| - 1] == t[row][..col];
  }

  /** Return puts a newline in at the cursor and moves past it, unless all lines are in use. */
  lemma EnterInserts(e: Editor)
    requires Placed(e.at)
    ensures var r := NotepadText.InsertNewline(e);
      if |e.at.text| >= 1024 then r == e
      else Placed(r.at) && At(e.at) <= |Joined(e.at.text)| && r.at.text != [] &&
           Joined(r.at.text) == With(Joined(e.at.text), At(e.at), 10) && At(r.at) == At(e.at) + 1
  {
    hide Ahead, Behind, Joined;
    var Snap(t, row, col) := e.at;
    Inside(t, row, col);
    if |t| < MAX_LINES {
      AheadSplit(t, row, col);
      JoinedAround(SplitAt(t, row, col), row + 1);
      var a, l, b := Ahead(t[..row]), t[row], Behind(t[row + 1..]);
      assert a + l[..col] + [NEWLINE] + l[col..] + b == (a + l[..col]) + [NEWLINE] + (l[col..] + b);
    }
  }

  /** Backspace takes the byte before the cursor out and moves there, unless there is none; what a join of two
      lines leaves over past 256 bytes is lost with it. */
  lemma BackDeletes(e: Editor)
    requires InText(e.at)
    ensures var r := NotepadText.Backspace(e); var s := e.at;
      if At(s) == 0 then r == e
      else
        && Placed(r.at) && At(s) <= |Joined(s.text)| && At(r.at) == At(s) - 1 && r.at.text != []
        && if s.col > 0 || |s.text[s.row - 1]| + |s.text[s.row]| <= 256
           then Joined(r.at.text) == Less(Joined(s.text), At(s))
           else |Joined(r.at.text)| == |Joined(s.text)| - 1 - (|s.text[s.row - 1]| + |s.text[s.row]| - 256)
  {
    hide Offset, Joined, Less;
    var Snap(t, row, col) := e.at;
    OffsetsDiffer(t, row, col, 0, 0);
    Ends(t);
    if col > 0 {
      DeleteInFlat(t, row, col);
    } else if row > 0 {
      JoinInFlat(t, row);
    }
  }

  lemma DeleteInFlat(t: Text, row: nat, col: nat)
    requires row < |t| && 0 < col <= |t[row]|
    ensures var t1, o := DeleteAt(t, row, col - 1), Offset(t, row, col);
      && o <= |Joined(t)| && Joined(t1) == Less(Joined(t), o) && Offset(t1, row, col - 1) == o - 1
  {
    hide Ahead, Behind, Joined;
    var t1 := DeleteAt(t, row, col - 1);
    Inside(t, row, col);
    Inside(t, row, col - 1);
    assert t1[..row] == t[..row] && t1[row + 1..] == t[row + 1..];
    JoinedAround(t1, row);
    CatAround(Ahead(t[..row]), t[row][..col - 1], [], t[row][col..], Behind(t[row + 1..]));
  }

  lemma JoinInFlat(t: Text, row: nat)
    requires 0 < row < |t|
    ensures var t1, o := JoinAt(t, row - 1), Offset(t, row, 0);
      && o <= |Joined(t)| && |t1| == |t| - 1 && Offset(t1, row - 1, |t[row - 1]|) == o - 1
      && t1[row - 1] == Cut(t[row - 1] + t[row])
      && (|t[row - 1] + t[row]| <= 256 ==> Joined(t1) == Less(Joined(t), o))
      && |Joined(t1)| == |Joined(t)| - 1 - (|t[row - 1] + t[row]| - |Cut(t[row - 1] + t[row])|)
  {
    hide Behind, Joined;
    var t1 := JoinAt(t, row - 1);
    var p, l := t[row - 1], t[row];
    Inside(t, row, 0);
    NextRow(t, row - 1);
    assert t1[..row - 1] == t[..row - 1] && t1[row..] == t[row + 1..];
    JoinedAround(t1, row - 1);
    var ls := t[..row];
    assert ls[..|ls| - 1] == t[..row - 1];
    var a, b := Ahead(t[..row - 1]), Behind(t[row + 1..]);
    assert l[0..] == l && l[..0] == [];
    var f, o := Joined(t), Offset(t, row, 0);
    assert f[..o] == a + p + [NEWLINE] && f[o..] == l + b;
    assert f[..o - 1] == f[..o][..o - 1] == a + p;
    CatAround(a, p, [], l, b);
  }
}
