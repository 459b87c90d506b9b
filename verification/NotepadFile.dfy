/** The bytes of a saved document, and the document read from bytes. */
module NotepadFile {
  import opened Common
  import opened NotepadText

  const NEWLINE: Byte := 10
  const SAVE_BUFFER: nat := MAX_LINES * (MAX_LINE_LEN + 1)

  /** Lines separated by newline bytes, as `save` writes them. */
  function Joined(t: Text): (bytes: seq<Byte>)
    requires t != []
  {
    var n := |t| - 1;
    if n == 0 then t[0] else Joined(t[..n]) + [10] + t[n]
  }

  /** What `save` has put in its buffer after `i` lines. */
  function Written(t: Text, i: nat): (bytes: seq<Byte>)
    requires i <= |t|
  {
    if i == 0 then []
    else Written(t, i - 1) + t[i - 1] + (if i < |t| then [NEWLINE] else [])
  }

  lemma {:induction false} WrittenIsJoined(t: Text, i: nat)
    requires 0 < i <= |t|
    ensures Written(t, i) == Joined(t[..i]) + (if i < |t| then [NEWLINE] else [])
    decreases i
  {
    if i == 1 {
      assert t[..1] == [t[0]];
      assert Written(t, 0) + t[0] == t[0];
    } else {
      WrittenIsJoined(t, i - 1);
      assert t[..i][..i - 1] == t[..i - 1];
    }
  }

  /** The save buffer is large enough for every document. */
  lemma {:induction false} WrittenLength(t: Text, i: nat)
    requires i <= |t| && forall k | 0 <= k < |t| :: |t[k]| <= MAX_LINE_LEN
    ensures |Written(t, i)| <= i * (MAX_LINE_LEN + 1)
    decreases i
  {
    if i > 0 { WrittenLength(t, i - 1); }
  }

  function Newlines(data: seq<Byte>): (n: nat)
    ensures n <= |data|
  {
    if data == [] then 0
    else Newlines(data[..|data| - 1]) + (if data[|data| - 1] == NEWLINE then 1 else 0)
  }

  lemma {:induction false} NewlinesGrow(data: seq<Byte>, k: nat)
    requires k <= |data|
    ensures Newlines(data[..k]) <= Newlines(data)
    decreases |data|
  {
    if k == |data| {
      assert data[..k] == data;
    } else {
      NewlinesGrow(data[..|data| - 1], k);
      assert data[..|data| - 1][..k] == data[..k];
    }
  }

  /** All lines of the data, however long. */
  function Lines(data: seq<Byte>): (t: Text)
    ensures |t| == Newlines(data) + 1
  {
    if data == [] then [[]]
    else
      var t, b := Lines(data[..|data| - 1]), data[|data| - 1];
      var n := |t| - 1;
      if b == NEWLINE then t + [[]] else t[n := t[n] + [b]]
  }

  /** The lines `open_file` keeps: bytes past the end of a row are dropped. */
  function Parsed(data: seq<Byte>): (t: Text)
    ensures |t| == Newlines(data) + 1
    ensures forall i | 0 <= i < |t| :: |t[i]| <= MAX_LINE_LEN
  {
    if data == [] then [[]]
    else
      var t, b := Parsed(data[..|data| - 1]), data[|data| - 1];
      var n := |t| - 1;
      if b == NEWLINE then t + [[]]
      else if |t[n]| < MAX_LINE_LEN then t[n := t[n] + [b]]
      else t
  }

  lemma ParsedNone(data: seq<Byte>)
    ensures Parsed(data[..0]) == [[]] && Newlines(data[..0]) == 0
  {
  }

  /** One more byte of the file. */
  lemma ParsedTake(data: seq<Byte>, k: nat)
    requires k < |data|
    ensures var t, b := Parsed(data[..k]), data[k]; var n := |t| - 1;
      && Newlines(data[..k + 1]) == Newlines(data[..k]) + (if b == NEWLINE then 1 else 0)
      && Parsed(data[..k + 1]) == if b == NEWLINE then t + [[]] else if |t[n]| < MAX_LINE_LEN then t[n := t[n] + [b]] else t
  {
    assert data[..k + 1][..k] == data[..k];
  }

  ghost predicate NoNewline(t: Text) {
    forall i | 0 <= i < |t| :: NEWLINE !in t[i]
  }

  // ----- opening what was saved -----

  /** More text at the end of the last line. */
  function Extend(t: Text, l: Line): Text
    requires t != []
  {
    t[|t| - 1 := t[|t| - 1] + l]
  }

  lemma ExtendTwice(t: Text, a: Line, b: Line)
    requires t != []
    ensures |Extend(t, a)| == |t| && Extend(t, a)[|t| - 1] == t[|t| - 1] + a
    ensures Extend(Extend(t, a), b) == Extend(t, a + b)
  {
    assert t[|t| - 1] + a + b == t[|t| - 1] + (a + b);
  }

  lemma ExtendNone(t: Text)
    requires t != []
    ensures Extend(t, []) == t
  {
    assert t[|t| - 1] + [] == t[|t| - 1];
  }

  lemma ParsedSnoc(data: seq<Byte>, b: Byte)
    ensures var t := Parsed(data); var n := |t| - 1;
      Parsed(data + [b]) == if b == NEWLINE then t + [[]] else if |t[n]| < MAX_LINE_LEN then Extend(t, [b]) else t
  {
    assert (data + [b])[..|data|] == data;
  }

  lemma ParsedRoom(data: seq<Byte>, b: Byte)
    requires b != NEWLINE && var t := Parsed(data); |t[|t| - 1]| < MAX_LINE_LEN
    ensures Parsed(data + [b]) == Extend(Parsed(data), [b])
  {
    hide Parsed, Extend;
    ParsedSnoc(data, b);
  }

  lemma {:induction false} ParsedAppend(data: seq<Byte>, l: Line)
    requires NEWLINE !in l
    requires var t := Parsed(data); |t[|t| - 1]| + |l| <= MAX_LINE_LEN
    ensures Parsed(data + l) == Extend(Parsed(data), l)
    decreases |l|
  {
    hide Parsed, Extend;
    var t := Parsed(data);
    if l == [] {
      ExtendNone(t);
      assert data + l == data;
    } else {
      var l0, b := l[..|l| - 1], l[|l| - 1];
      assert b in l && l0 + [b] == l;
      ParsedAppend(data, l0);
      ExtendTwice(t, l0, [b]);
      ParsedRoom(data + l0, b);
      assert data + l0 + [b] == data + l;
    }
  }

  /** Opening the saved bytes of a document gives that document back. */
  lemma {:induction false} OpenAfterSave(t: Text)
    requires t != [] && NoNewline(t) && forall i | 0 <= i < |t| :: |t[i]| <= MAX_LINE_LEN
    ensures Parsed(Joined(t)) == t
    decreases |t|
  {
    var n := |t| - 1;
    var t0 := t[..n];
    var head := if n == 0 then [] else Joined(t0) + [NEWLINE];
    assert Joined(t) == head + t[n];
    assert t0 + [t[n]] == t && NEWLINE !in t[n] && NoNewline(t0);
    assert Parsed([]) == t[..0] + [[]];
    hide Parsed, Joined, Extend, NoNewline;
    if n > 0 {
      OpenAfterSave(t0);
      ParsedSnoc(Joined(t0), NEWLINE);
    }
    assert Parsed(head) == t0 + [[]];
    ParsedAppend(head, t[n]);
    ExtendEmpty(t0, t[n]);
  }

  lemma ExtendEmpty(t: Text, l: Line)
    ensures Extend(t + [[]], l) == t + [l]
  {
    var empty: Line := [];
    assert empty + l == l;
  }

  // ----- saving what was opened -----

  lemma JoinedUpdate(t: Text, l: Line)
    requires t != []
    ensures var n := |t| - 1; Joined(t[n := t[n] + l]) == Joined(t) + l
  {
    var n := |t| - 1;
    var t' := t[n := t[n] + l];
    assert t'[..n] == t[..n];
    if n > 0 {
      assert Joined(t[..n]) + [NEWLINE] + (t[n] + l) == Joined(t[..n]) + [NEWLINE] + t[n] + l;
    }
  }

  lemma {:induction false} JoinedLines(data: seq<Byte>)
    ensures Joined(Lines(data)) == data
    decreases |data|
  {
    if data != [] {
      var init, b := data[..|data| - 1], data[|data| - 1];
      JoinedLines(init);
      var t := Lines(init);
      assert data == init + [b];
      if b == NEWLINE {
        assert (t + [[]])[..|t|] == t;
      } else {
        JoinedUpdate(t, [b]);
      }
    }
  }

  function CutAll(t: Text): (r: Text)
    ensures |r| == |t| && forall i | 0 <= i < |t| :: r[i] == Cut(t[i])
  {
    seq(|t|, i requires 0 <= i < |t| => Cut(t[i]))
  }

  lemma {:induction false} ParsedIsCut(data: seq<Byte>)
    ensures Parsed(data) == CutAll(Lines(data))
    decreases |data|
  {
    if data != [] {
      ParsedIsCut(data[..|data| - 1]);
      var t, b := Lines(data[..|data| - 1]), data[|data| - 1];
      var l := t[|t| - 1];
      assert Cut(l + [b]) == if |Cut(l)| < MAX_LINE_LEN then Cut(l) + [b] else Cut(l);
      assert b == NEWLINE ==> CutAll(t + [[]]) == CutAll(t) + [[]];
      assert b != NEWLINE ==> Parsed(data) == CutAll(t[|t| - 1 := l + [b]]);
    }
  }

  lemma {:induction false} CutShorter(t: Text)
    requires t != []
    ensures |Joined(CutAll(t))| <= |Joined(t)|
    ensures (exists i | 0 <= i < |t| :: |t[i]| > MAX_LINE_LEN) ==> |Joined(CutAll(t))| < |Joined(t)|
    decreases |t|
  {
    var n := |t| - 1;
    if n > 0 {
      assert CutAll(t)[..n] == CutAll(t[..n]);
      CutShorter(t[..n]);
      if i :| 0 <= i < |t| && |t[i]| > MAX_LINE_LEN {
        if i < n { assert |t[..n][i]| > MAX_LINE_LEN; }
      }
    }
  }

  /** Opening a file and saving it again leaves its bytes as they were exactly when none of its lines
      is longer than a row. */
  lemma SaveAfterOpen(data: seq<Byte>)
    ensures Joined(Parsed(data)) == data <==> forall i | 0 <= i < |Lines(data)| :: |Lines(data)[i]| <= 256
  {
    var t := Lines(data);
    ParsedIsCut(data);
    JoinedLines(data);
    CutShorter(t);
    if forall i | 0 <= i < |t| :: |t[i]| <= MAX_LINE_LEN {
      assert CutAll(t) == t;
    }
  }
}
