/** Inline rendering is local: what a span renders to depends on its own characters only, and on the character
    before it only through an underscore at its start. */
module MarkdownLocal {
  import opened Common
  import opened MarkdownInline

  // ----- the scanners, in a text and in a part of it -----

  /** `t` is the part of `chars` that starts at `a`. */
  predicate Part(chars: string, t: string, a: nat) {
    a + |t| <= |chars| && forall k | 0 <= k < |t| :: t[k] == chars[a + k]
  }

  function Moved(r: Option<nat>, a: nat): Option<nat> {
    match r case None => None case Some(k) => Some(a + k)
  }

  lemma {:induction false} RunShift(chars: string, t: string, a: nat, i: nat, end: nat, c: char)
    requires Part(chars, t, a) && i <= end <= |t|
    ensures RunLength(chars, a + i, a + end, c) == RunLength(t, i, end, c)
    decreases end - i
  {
    if i < end && t[i] == c { RunShift(chars, t, a, i + 1, end, c); }
  }

  lemma {:induction false} BacktickShift(chars: string, t: string, a: nat, from: nat, end: nat, n: nat)
    requires Part(chars, t, a) && from <= end <= |t|
    ensures FindBacktickClose(chars, a + from, a + end, n) == Moved(FindBacktickClose(t, from, end, n), a)
    decreases end - from
  {
    hide RunLength;
    if from < end {
      RunShift(chars, t, a, from, end, '`');
      var run := RunLength(t, from, end, '`');
      if t[from] == '`' {
        if run != n && run != 0 { BacktickShift(chars, t, a, from + run, end, n); }
      } else {
        BacktickShift(chars, t, a, from + 1, end, n);
      }
    }
  }

  lemma {:induction false} EmphasisShift(u: Unicode, chars: string, t: string, a: nat, from: nat, i: nat, end: nat, c: char, len: nat)
    requires Part(chars, t, a) && from <= i && end <= |t| && len > 0
    ensures FindEmphasisClose(u, chars, a + from, a + i, a + end, c, len) == Moved(FindEmphasisClose(u, t, from, i, end, c, len), a)
    decreases end + 1 - i
  {
    hide RunLength;
    if i + len <= end {
      RunShift(chars, t, a, i, end, c);
      var run := RunLength(t, i, end, c);
      if t[i] != c {
        EmphasisShift(u, chars, t, a, from, i + 1, end, c, len);
      } else {
        EmphasisShift(u, chars, t, a, from, i + Max(run, 1), end, c, len);
      }
    }
  }

  function MovedPair(r: Option<(nat, nat)>, a: nat): Option<(nat, nat)> {
    match r case None => None case Some((n, k)) => Some((n, a + k))
  }

  lemma {:induction false} CloseShift(u: Unicode, chars: string, t: string, a: nat, from: nat, end: nat, c: char, len: nat, least: nat)
    requires Part(chars, t, a) && from <= end <= |t| && least > 0
    ensures FirstClose(u, chars, a + from, a + end, c, len, least) == MovedPair(FirstClose(u, t, from, end, c, len, least), a)
    decreases len
  {
    hide FindEmphasisClose;
    if len >= least {
      EmphasisShift(u, chars, t, a, from, from, end, c, len);
      CloseShift(u, chars, t, a, from, end, c, len - 1, least);
    }
  }

  lemma {:induction false} MatchingShift(chars: string, t: string, a: nat, i: nat, end: nat, depth: int, open: char, close: char)
    requires Part(chars, t, a) && end <= |t|
    ensures FindMatching(chars, a + i, a + end, depth, open, close) == Moved(FindMatching(t, i, end, depth, open, close), a)
    decreases end + 1 - i
  {
    if i < end {
      if t[i] == open {
        MatchingShift(chars, t, a, i + 1, end, depth + 1, open, close);
      } else if t[i] == close {
        if depth != 1 { MatchingShift(chars, t, a, i + 1, end, depth - 1, open, close); }
      } else if t[i] == '\\' {
        MatchingShift(chars, t, a, i + 2, end, depth, open, close);
      } else {
        MatchingShift(chars, t, a, i + 1, end, depth, open, close);
      }
    }
  }

  lemma {:induction false} SkipShift(chars: string, t: string, a: nat, i: nat, end: nat, p: char -> bool)
    requires Part(chars, t, a) && i <= end <= |t|
    ensures SkipWhile(chars, a + i, a + end, p) == a + SkipWhile(t, i, end, p)
    decreases end - i
  {
    if i < end && p(t[i]) { SkipShift(chars, t, a, i + 1, end, p); }
  }

  lemma SliceShift(chars: string, t: string, a: nat, i: nat, j: nat)
    requires Part(chars, t, a) && i <= j <= |t|
    ensures chars[a + i..a + j] == t[i..j]
  {
  }

  lemma EntityShift(chars: string, t: string, a: nat, start: nat, end: nat)
    requires Part(chars, t, a) && start < end <= |t| && t[start] == '&'
    ensures EntityEnd(chars, a + start, a + end) == Moved(EntityEnd(t, start, end), a)
  {
    hide SkipWhile;
    var numeric := start + 1 < end && t[start + 1] == '#';
    var from := if numeric then start + 2 else start + 1;
    SkipShift(chars, t, a, from, end, if numeric then AsciiHex else AsciiAlnum);
  }

  function MovedStep(r: Option<(string, nat)>, a: nat): Option<(string, nat)> {
    match r case None => None case Some((o, k)) => Some((o, a + k))
  }

  lemma AngleShift(u: Unicode, chars: string, t: string, a: nat, start: nat, end: nat)
    requires Part(chars, t, a) && start < end <= |t|
    ensures TryAngle(u, chars, a + start, a + end) == MovedStep(TryAngle(u, t, start, end), a)
  {
    hide SkipWhile, IsInlineTag, IsUrl, Link, EscapeHtml, EscapeAttr, FindSub;
    SkipShift(chars, t, a, start + 1, end, NotAngle);
    var close := SkipWhile(t, start + 1, end, NotAngle);
    SliceShift(chars, t, a, start + 1, close);
    var inner := t[start + 1..close];
    assert chars[a + start + 1..a + close] == inner;
  }

  // ----- the renderer -----

  lemma LinkShift(u: Unicode, chars: string, t: string, a: nat, start: nat, end: nat, isImage: bool)
    requires Part(chars, t, a) && start < end <= |t| && t[start] == '['
    ensures TryLink(u, chars, a + start, a + end, isImage) == MovedStep(TryLink(u, t, start, end, isImage), a)
  {
    hide FindMatching, SplitDestTitle, Trim, RenderFrom, Image, Link, StripTags;
    MatchingShift(chars, t, a, start, end, 0, '[', ']');
    var closeBracket := FindMatching(t, start, end, 0, '[', ']');
    if closeBracket.Some? && closeBracket.value + 1 < end {
      MatchingShift(chars, t, a, closeBracket.value + 2, end, 1, '(', ')');
      SliceShift(chars, t, a, start + 1, closeBracket.value);
      var closeParen := FindMatching(t, closeBracket.value + 2, end, 1, '(', ')');
      if closeParen.Some? { SliceShift(chars, t, a, closeBracket.value + 2, closeParen.value); }
    }
  }

  lemma {:induction false} EmphasisStepShift(u: Unicode, chars: string, t: string, a: nat, start: nat, i: nat, end: nat)
    requires Part(chars, t, a) && start <= i < end <= |t|
    ensures var (html, next) := Emphasis(u, t, start, i, end);
      Emphasis(u, chars, a + start, a + i, a + end) == (html, a + next)
    decreases end - i, 0
  {
    hide RenderFrom, FirstClose, Wrap, RunLength;
    var c := t[i];
    RunShift(chars, t, a, i, end, c);
    var n := RunLength(t, i, end, c);
    var eff := Min(n, if c == '~' then 2 else 3);
    CloseShift(u, chars, t, a, i + n, end, c, eff, if c == '~' then 2 else 1);
    var m := FirstClose(u, t, i + n, end, c, eff, if c == '~' then 2 else 1);
    if m.Some? && n > 0 { RenderShift(u, chars, t, a, i + n, i + n, m.value.1); }
  }

  lemma CodeShift(u: Unicode, chars: string, t: string, a: nat, start: nat, i: nat, end: nat)
    requires Part(chars, t, a) && start <= i < end <= |t| && t[i] == '`'
    ensures var (html, next) := Step(u, t, start, i, end);
      Step(u, chars, a + start, a + i, a + end) == (html, a + next)
  {
    hide EscapeHtml, CodeText, FindBacktickClose, RunLength;
    RunShift(chars, t, a, i, end, '`');
    var n := RunLength(t, i, end, '`');
    BacktickShift(chars, t, a, i + n, end, n);
    var m := FindBacktickClose(t, i + n, end, n);
    if m.Some? { SliceShift(chars, t, a, i + n, m.value); }
  }

  lemma {:induction false} StepShift(u: Unicode, chars: string, t: string, a: nat, start: nat, i: nat, end: nat)
    requires Part(chars, t, a) && start <= i < end <= |t|
    ensures var (html, next) := Step(u, t, start, i, end);
      Step(u, chars, a + start, a + i, a + end) == (html, a + next)
    decreases end - i, 1
  {
    hide Emphasis, TryLink, TryAngle, EscapeHtml, CodeText, FindBacktickClose, EntityEnd, RunLength, Escaped, IsEscapable;
    var c := t[i];
    if c == '`' {
      CodeShift(u, chars, t, a, start, i, end);
    } else if c == '*' || c == '_' || c == '~' {
      EmphasisStepShift(u, chars, t, a, start, i, end);
    } else if c == '!' && i + 1 < end && t[i + 1] == '[' {
      LinkShift(u, chars, t, a, i + 1, end, true);
    } else if c == '[' {
      LinkShift(u, chars, t, a, i, end, false);
    } else if c == '<' {
      AngleShift(u, chars, t, a, i, end);
    } else if c == '&' {
      EntityShift(chars, t, a, i, end);
      var m := EntityEnd(t, i, end);
      if m.Some? { SliceShift(chars, t, a, i, m.value); }
    }
  }

  /** Rendering a span of a text is rendering it in any part that holds it. */
  lemma {:induction false} RenderShift(u: Unicode, chars: string, t: string, a: nat, start: nat, i: nat, end: nat)
    requires Part(chars, t, a) && start <= i <= end <= |t|
    ensures RenderFrom(u, chars, a + start, a + i, a + end) == RenderFrom(u, t, start, i, end)
    decreases end - i, 2
  {
    hide Step;
    if i < end {
      StepShift(u, chars, t, a, start, i, end);
      RenderShift(u, chars, t, a, start, Step(u, t, start, i, end).1, end);
    }
  }

  /** So a span renders like its text alone. */
  lemma RenderSpanAlone(u: Unicode, chars: string, start: nat, end: nat)
    requires start <= end <= |chars|
    ensures RenderFrom(u, chars, start, start, end) == RenderInline(u, chars[start..end])
  {
    hide RenderFrom;
    var t := chars[start..end];
    assert Part(chars, t, start);
    RenderShift(u, chars, t, start, 0, 0, |t|);
  }

  // ----- the start of the span -----

  lemma StartMovedStep(u: Unicode, chars: string, s: nat, t: nat, i: nat, end: nat)
    requires s <= i < end <= |chars| && t <= i && ((s < i && t < i) || chars[i] != '_')
    ensures Step(u, chars, s, i, end) == Step(u, chars, t, i, end)
  {
    hide RenderFrom, FirstClose, TryLink, TryAngle, FindBacktickClose, EscapeHtml, CodeText, EntityEnd, Wrap, RunLength;
  }

  lemma {:induction false} StartMoved(u: Unicode, chars: string, s: nat, t: nat, i: nat, end: nat)
    requires s <= i <= end <= |chars| && t <= i && ((s < i && t < i) || i == end || chars[i] != '_')
    ensures RenderFrom(u, chars, s, i, end) == RenderFrom(u, chars, t, i, end)
    decreases end - i
  {
    hide Step;
    if i < end {
      StartMovedStep(u, chars, s, t, i, end);
      StartMoved(u, chars, s, t, Step(u, chars, s, i, end).1, end);
    }
  }

  /** One round of the loop at the start of a text, and then the rest of the text on its own. */
  lemma Peel(u: Unicode, text: string, o: string, k: nat)
    requires text != "" && Step(u, text, 0, 0, |text|) == (o, k) && (k == |text| || text[k] != '_')
    ensures k <= |text| && RenderInline(u, text) == o + RenderInline(u, text[k..])
  {
    hide Step;
    StartMoved(u, text, 0, k, k, |text|);
    RenderSpanAlone(u, text, k, |text|);
    assert text[k..|text|] == text[k..];
  }
}
