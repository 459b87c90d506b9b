/** Cyclic search: what it means for a match to be the next one. */
module NotepadFind {
  import opened Common
  import opened NotepadText

  datatype Pos = Pos(row: nat, col: nat)

  /** Document order. */
  predicate Before(a: Pos, b: Pos) {
    a.row < b.row || (a.row == b.row && a.col < b.col)
  }

  predicate Occurs(t: Text, q: Line, p: Pos) {
    p.row < |t| && p.col + |q| <= |t[p.row]| && t[p.row][p.col..p.col + |q|] == q
  }

  /** `m` is the first occurrence at or after `from`. */
  ghost predicate FirstFrom(t: Text, q: Line, from: Pos, m: Option<Pos>) {
    match m
    case Some(p) => Occurs(t, q, p) && !Before(p, from) && forall o | Occurs(t, q, o) && Before(o, p) :: Before(o, from)
    case None => forall o | Occurs(t, q, o) :: Before(o, from)
  }

  /** `m` is the occurrence that follows position `cur` going round the document: the first one after
      `cur`, or the very first one when there is none after it. */
  ghost predicate NextAfter(t: Text, q: Line, cur: Pos, m: Option<Pos>) {
    if exists o :: Occurs(t, q, o) && Before(cur, o)
    then m.Some? && Occurs(t, q, m.value) && Before(cur, m.value)
         && forall o | Occurs(t, q, o) && Before(cur, o) :: !Before(o, m.value)
    else FirstFrom(t, q, Pos(0, 0), m)
  }

  /** Where `find_next` starts looking after `cur`. */
  ghost predicate StartsAfter(t: Text, q: Line, cur: Pos, start: Pos) {
    || start == Pos(cur.row, cur.col + 1)
    || (start == Pos(cur.row + 1, 0) && (cur.row < |t| ==> cur.col + 1 + |q| > |t[cur.row]|))
  }

  /** When a pass from there finds nothing, the first match from the top is the next one. */
  lemma SecondPass(t: Text, q: Line, cur: Pos, start: Pos, m: Option<Pos>)
    requires StartsAfter(t, q, cur, start)
    requires FirstFrom(t, q, start, None) && FirstFrom(t, q, Pos(0, 0), m)
    ensures NextAfter(t, q, cur, m)
  {
    assert forall o | Occurs(t, q, o) :: Before(o, start) <==> !Before(cur, o);
  }

  /** What a pass from there finds is the next match. */
  lemma NextOfFirst(t: Text, q: Line, cur: Pos, start: Pos, first: Option<Pos>)
    requires StartsAfter(t, q, cur, start) && FirstFrom(t, q, start, first) && first.Some?
    ensures NextAfter(t, q, cur, first)
  {
    assert forall o | Occurs(t, q, o) :: Before(o, start) <==> !Before(cur, o);
  }

  /** So a pass from there and, if it finds nothing, one from the top find the next match in cyclic order. */
  lemma TwoPasses(t: Text, q: Line, cur: Pos, start: Pos, first: Option<Pos>, again: Option<Pos>)
    requires StartsAfter(t, q, cur, start)
    requires FirstFrom(t, q, start, first) && FirstFrom(t, q, Pos(0, 0), again)
    ensures NextAfter(t, q, cur, if first.Some? then first else again)
  {
    if first.Some? { NextOfFirst(t, q, cur, start, first); } else { SecondPass(t, q, cur, start, again); }
  }

  lemma FoundIffOccurs(t: Text, q: Line, m: Option<Pos>)
    requires FirstFrom(t, q, Pos(0, 0), m)
    ensures m.Some? <==> exists p :: Occurs(t, q, p)
  {
  }

  /** Repeated search visits everything: from an occurrence, the next one is again that occurrence
      only if there is no other. */
  lemma NextMoves(t: Text, q: Line, cur: Pos, m: Pos)
    requires Occurs(t, q, cur) && NextAfter(t, q, cur, Some(m))
    ensures m == cur ==> forall o | Occurs(t, q, o) :: o == cur
  {
    if m == cur {
      forall o | Occurs(t, q, o) ensures o == cur {
        assert !Before(cur, o) && !Before(o, cur);
      }
    }
  }
}
