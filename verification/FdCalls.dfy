/** What the descriptor calls do to the tables, entry by entry. */
module FdCalls {
  import opened Common
  import opened FdTables

  /** Process `u` has entry `e` at descriptor `f`. */
  predicate Has(k: Kern, u: nat, f: nat, e: Option<Entry>) {
    u < |k.tables| && f < |k.tables[u]| && k.tables[u][f] == e
  }

  /** Every entry but those of process `u` at descriptors for which `touched` holds is as before. */
  ghost predicate Others(k: Kern, r: Kern, u: nat, touched: nat -> bool) {
    && |r.tables| == |k.tables|
    && forall v: nat, f: nat, e: Option<Entry> | v != u || !touched(f) :: Has(k, v, f, e) ==> Has(r, v, f, e)
  }

  /** `close` empties one entry. */
  lemma CloseTouches(k: Kern, t: nat, fd: int)
    requires Shape(k) && t < |k.tables|
    ensures Others(k, Close(k, t, fd), t, f => f == fd)
    ensures 0 <= fd < 32 ==> Has(Close(k, t, fd), t, fd, None)
  {
  }

  /** `dup2` copies one entry onto another, if there is one to copy. */
  lemma Dup2Touches(k: Kern, t: nat, a: int, b: int)
    requires Shape(k) && t < |k.tables|
    ensures Others(k, Dup2(k, t, a, b), t, f => f == b && 0 <= a < 32 && k.tables[t][a].Some?)
    ensures 0 <= a < 32 && 0 <= b < 32 && k.tables[t][a].Some? ==> Has(Dup2(k, t, a, b), t, b, k.tables[t][a])
  {
  }

  /** A child starts with the parent's entries. */
  lemma ForkTouches(k: Kern, t: nat, s: nat)
    requires Shape(k) && t < |k.tables| && s < |k.tables|
    ensures Others(k, Fork(k, t, s), s, _ => true)
    ensures forall f: nat, e: Option<Entry> | Has(k, t, f, e) :: Has(Fork(k, t, s), s, f, e)
  {
  }

  /** `exec` empties every entry from 3 on. */
  lemma ExecTouches(k: Kern, t: nat)
    requires Shape(k) && t < |k.tables|
    ensures Others(k, Exec(k, t), t, f => f >= 3)
    ensures forall f: nat | 3 <= f < 32 :: Has(Exec(k, t), t, f, None)
    ensures Exec(k, t).ends == k.ends
  {
  }

  /** A program starts with no entries at all. */
  lemma LaunchTouches(k: Kern, s: nat)
    requires Shape(k) && s < |k.tables|
    ensures Others(k, Launch(k, s), s, _ => true)
    ensures forall f: nat | f < 32 :: Has(Launch(k, s), s, f, None)
    ensures Launch(k, s).ends == k.ends
  {
  }

  /** `dup` copies to the lowest free descriptor from `start` on, and fails exactly when there is nothing to
      copy or no such descriptor. */
  lemma DupTouches(k: Kern, t: nat, fd: int, start: nat)
    requires Shape(k) && t < |k.tables|
    ensures var (r, got) := DupFrom(k, t, fd, start);
      && r.ends == k.ends
      && (got.Some? <==> 0 <= fd < 32 && !Has(k, t, fd, None) && exists f: nat | start <= f < 32 :: Has(k, t, f, None))
      && (got == None ==> r == k)
      && (got.Some? ==> start <= got.value < 32 && Has(k, t, got.value, None))
      && (got.Some? ==> forall f: nat | start <= f < got.value :: !Has(k, t, f, None))
      && (got.Some? ==> Others(k, r, t, f => f == got.value) && Has(r, t, got.value, k.tables[t][fd]))
  {
    var table := k.tables[t];
    if start < 32 {
      var n := FreeFd(table, start);
      if n < 32 { assert Has(k, t, n, None); }
    }
  }

  /** `pipe` gives the two lowest free descriptors from 3 on to the ends of the first pipe that is closed at
      both ends. */
  lemma PipeTouches(k: Kern, t: nat)
    requires Shape(k) && t < |k.tables| && Pipe(k, t).1.Some?
    ensures var (r, got) := Pipe(k, t);
      var (rd, wr) := got.value;
      && 3 <= rd < wr < 32 && Has(k, t, rd, None) && Has(k, t, wr, None)
      && (forall f: nat | 3 <= f < wr && f != rd :: !Has(k, t, f, None))
      && Others(k, r, t, f => f == rd || f == wr)
      && exists p: nat | p < 8 ::
           && Has(r, t, rd, Some(PipeEnd(p, false))) && Has(r, t, wr, Some(PipeEnd(p, true)))
           && !k.ends[p].readOpen && !k.ends[p].writeOpen && (forall q | 0 <= q < p :: k.ends[q].readOpen || k.ends[q].writeOpen)
           && r.ends == k.ends[p := Ends(true, true, 1, 1)]
  {
    var table, p := k.tables[t], FreePipe(k.ends, 0);
    var rd := FreeFd(table, 3);
    var table1 := table[rd := Some(PipeEnd(p, false))];
    var wr := FreeFd(table1, 3);
    assert table1[rd].Some? && table1[wr] == table[wr];
    forall f: nat | 3 <= f < wr && f != rd ensures !Has(k, t, f, None) { assert table1[f] == table[f]; }
    assert Has(Pipe(k, t).0, t, rd, Some(PipeEnd(p, false))) && Has(Pipe(k, t).0, t, wr, Some(PipeEnd(p, true)));
  }
}
