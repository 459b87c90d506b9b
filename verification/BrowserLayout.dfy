/** The line buffer of the browser's parser, filled and shifted in place. */
module BrowserLayout {
  import opened Common
  import opened BrowserFlow

  class Layout {
    const cols: nat
    const curBuf: array<Byte>
    var curLen: nat
    var curColor: nat
    var curLink: nat
    var lines: seq<Line>
    var title: seq<Byte>
    var inTitle: bool
    var heading: nat
    var inLink: bool
    var activeLink: nat

    ghost predicate Valid()
      reads `curLen
    {
      curBuf.Length == LINE_BUF && curLen <= LINE_BUF
    }

    ghost function State(): Flow
      requires Valid()
      reads this, curBuf
    {
      Flow(lines, curBuf[..curLen], curColor, curLink, title, inTitle, heading, inLink, activeLink)
    }

    constructor (cols: nat)
      ensures Valid() && State() == START && this.cols == cols && fresh(curBuf)
    {
      this.cols := cols;
      curBuf := new Byte[LINE_BUF](_ => 0);
      curLen, curColor, curLink := 0, C_TEXT, NO_LINK;
      lines, title := [], [];
      inTitle, heading, inLink, activeLink := false, 0, false, NO_LINK;
    }

    /** `emit_line`. */
    method EmitLine()
      requires Valid()
      modifies `lines, `curLen
      ensures Valid() && State() == Emit(old(State()))
    {
      if |lines| < MAX_LINES && curLen > 0 {
        lines := lines + [Line(curBuf[..curLen], curColor, curLink)];
        curLen := 0;
      }
    }

    /** `blank_line`: no two in a row, and none at the top. */
    method EmitBlank()
      requires Valid()
      modifies `lines, `curLen
      ensures Valid() && State() == Blank(old(State()))
    {
      EmitLine();
      var lastEmpty := lines == [] || lines[|lines| - 1].text == [];
      if !lastEmpty && |lines| < MAX_LINES {
        lines := lines + [EMPTY];
      }
    }

    /** The rule of an `hr` tag. */
    method EmitRule()
      requires Valid()
      modifies `lines, `curLen
      ensures Valid() && State() == Rule(old(State()), cols)
    {
      EmitLine();
      var n := Min(Min(cols, 80), LINE_BUF);
      var text: seq<Byte> := [];
      for k := 0 to n
        invariant text == Dashes(k)
      {
        text := text + [DASH];
      }
      if |lines| < MAX_LINES { lines := lines + [Line(text, C_BORDER, NO_LINK)]; }
    }

    /** The backward search for a place to cut. */
    method FindWrap() returns (w: nat)
      requires Valid()
      ensures w == WrapAt(curBuf[..curLen])
    {
      var k: nat := curLen;
      ghost var p := curBuf[..curLen];
      while k > 0
        invariant k <= curLen && WrapFrom(p, |p|) == WrapFrom(p, k)
      {
        k := k - 1;
        assert p[k] == curBuf[k];
        if curBuf[k] == SPACE { return k + 1; }
        if curLen - k > 15 { return curLen; }
      }
      return curLen;
    }

    /** Moves the bytes after the cut to the front. */
    method ShiftDown(w: nat)
      requires Valid() && w <= curLen
      modifies `curLen, curBuf
      ensures Valid() && curBuf[..curLen] == old(curBuf[..curLen])[w..]
    {
      var remainder := curLen - w;
      if remainder > 0 {
        for k := 0 to remainder
          invariant forall i | 0 <= i < k :: curBuf[i] == old(curBuf[w + i])
          invariant forall i | k <= i < curBuf.Length :: curBuf[i] == old(curBuf[i])
        {
          curBuf[k] := curBuf[w + k];
        }
      }
      curLen := remainder;
    }

    /** The wrapping part of `push_char`. */
    method WrapLine()
      requires Valid()
      modifies `lines, `curLen, curBuf
      ensures Valid() && State() == Wrap(old(State()), cols)
    {
      if curLen >= Min(cols, LINE_BUF) {
        var w := FindWrap();
        if |lines| < MAX_LINES {
          lines := lines + [Line(curBuf[..w], curColor, curLink)];
          assert curBuf[..w] == old(State()).pending[..w];
          ShiftDown(w);
        }
      }
    }

    /** `push_char`. */
    method PushChar(b: Byte)
      requires Valid()
      modifies `title, `curColor, `curLink, `curLen, `lines, curBuf
      ensures Valid() && State() == Push(old(State()), cols, b)
    {
      if inTitle {
        if |title| < TITLE_MAX { title := title + [b]; }
        return;
      }
      hide Wrap;
      curColor := ColorOf(inLink, heading);
      curLink := activeLink;
      ghost var p := curBuf[..curLen];
      if curLen < LINE_BUF {
        curBuf[curLen] := b;
        curLen := curLen + 1;
        assert curBuf[..curLen] == p + [b];
      }
      WrapLine();
    }
  }
}
