/** Per-process descriptor tables and the reference counts of the pipe ends they hold, on values. */
module FdTables {
  import opened Common

  const MAX_FD: nat := 32
  const MAX_TASKS: nat := 8
  const PIPE_COUNT: nat := 8
  const MAX_REFS: nat := 255

  datatype Entry = PipeEnd(pipe: nat, write: bool) | Other(id: nat)

  type Table = seq<Option<Entry>>

  /** One pipe: which ends are open and how many table entries refer to each. */
  datatype Ends = Ends(readOpen: bool, writeOpen: bool, readRefs: nat, writeRefs: nat)

  datatype Kern = Kern(ends: seq<Ends>, tables: seq<Table>)

  const CLOSED := Ends(false, false, 0, 0)

  function Refs(e: Ends, write: bool): nat {
    if write then e.writeRefs else e.readRefs
  }

  predicate IsOpen(e: Ends, write: bool) {
    if write then e.writeOpen else e.readOpen
  }

  function SetEnd(e: Ends, write: bool, open: bool, refs: nat): Ends {
    if write then e.(writeOpen := open, writeRefs := refs) else e.(readOpen := open, readRefs := refs)
  }

  // ----- reference counts -----

  /** `addref`, which saturates. */
  function AddRef(ends: seq<Ends>, p: nat, w: bool): (r: seq<Ends>)
    requires p < |ends|
    ensures |r| == |ends|
  {
    var e := ends[p];
    ends[p := SetEnd(e, w, IsOpen(e, w), Min(Refs(e, w) + 1, MAX_REFS))]
  }

  /** `close` of one end of a pipe. */
  function DropRef(ends: seq<Ends>, p: nat, w: bool): (r: seq<Ends>)
    requires p < |ends|
    ensures |r| == |ends|
  {
    var e := ends[p];
    var refs := if Refs(e, w) > 0 then Refs(e, w) - 1 else 0;
    ends[p := SetEnd(e, w, refs > 0 && IsOpen(e, w), refs)]
  }

  function Taken(ends: seq<Ends>, e: Option<Entry>): (r: seq<Ends>)
    ensures |r| == |ends|
  {
    match e
    case Some(PipeEnd(p, w)) => if p < |ends| then AddRef(ends, p, w) else ends
    case _ => ends
  }

  function Dropped(ends: seq<Ends>, e: Option<Entry>): (r: seq<Ends>)
    ensures |r| == |ends|
  {
    match e
    case Some(PipeEnd(p, w)) => if p < |ends| then DropRef(ends, p, w) else ends
    case _ => ends
  }

  function TakenFrom(ends: seq<Ends>, t: Table, i: nat): (r: seq<Ends>)
    requires i <= |t|
    ensures |r| == |ends|
    decreases |t| - i
  {
    if i == |t| then ends else TakenFrom(Taken(ends, t[i]), t, i + 1)
  }

  // ----- one table -----

  predicate IsFd(fd: int) {
    0 <= fd < MAX_FD
  }

  function CloseIn(t: Table, fd: int): (r: Table)
    requires |t| == MAX_FD
    ensures |r| == MAX_FD
  {
    if IsFd(fd) then t[fd := None] else t
  }

  function Dup2In(t: Table, a: int, b: int): (r: Table)
    requires |t| == MAX_FD
    ensures |r| == MAX_FD
  {
    if IsFd(a) && IsFd(b) && t[a].Some? then t[b := t[a]] else t
  }

  /** The lowest free descriptor from `i` on. */
  function FreeFd(t: Table, i: nat): (r: nat)
    requires i <= |t|
    ensures i <= r <= |t| && (r < |t| ==> t[r].None?) && forall k | i <= k < r :: t[k].Some?
    decreases |t| - i
  {
    if i == |t| || t[i].None? then i else FreeFd(t, i + 1)
  }

  function FreePipe(ends: seq<Ends>, i: nat): (r: nat)
    requires i <= |ends|
    ensures i <= r <= |ends| && (r < |ends| ==> !ends[r].readOpen && !ends[r].writeOpen)
    ensures forall k | i <= k < r :: ends[k].readOpen || ends[k].writeOpen
    decreases |ends| - i
  {
    if i == |ends| || (!ends[i].readOpen && !ends[i].writeOpen) then i else FreePipe(ends, i + 1)
  }

  // ----- system calls -----

  predicate Shape(k: Kern) {
    && |k.ends| == PIPE_COUNT
    && (forall t | 0 <= t < |k.tables| :: |k.tables[t]| == MAX_FD)
  }

  function Close(k: Kern, t: nat, fd: int): Kern
    requires Shape(k) && t < |k.tables|
  {
    var table := k.tables[t];
    Kern(if IsFd(fd) then Dropped(k.ends, table[fd]) else k.ends, k.tables[t := CloseIn(table, fd)])
  }

  function Dup2(k: Kern, t: nat, a: int, b: int): Kern
    requires Shape(k) && t < |k.tables|
  {
    var table := k.tables[t];
    Kern(if IsFd(a) && IsFd(b) && table[a].Some? then Dropped(Taken(k.ends, table[a]), table[b]) else k.ends,
         k.tables[t := Dup2In(table, a, b)])
  }

  /** The child takes the process slot `s`, whatever table was left there. */
  function Fork(k: Kern, t: nat, s: nat): Kern
    requires Shape(k) && t < |k.tables| && s < |k.tables|
  {
    Kern(TakenFrom(k.ends, k.tables[t], 0), k.tables[s := k.tables[t]])
  }

  /** `exec`: the new program keeps its three standard descriptors only; nothing is closed. */
  function Exec(k: Kern, t: nat): Kern
    requires Shape(k) && t < |k.tables|
  {
    k.(tables := k.tables[t := k.tables[t][..3] + seq(MAX_FD - 3, _ => None)])
  }

  /** `dup`, from 0 on, and `fcntl` with F_DUPFD: the entry is copied to the lowest free descriptor from
      `start` on, and its reference is not counted. */
  function DupFrom(k: Kern, t: nat, fd: int, start: nat): (r: (Kern, Option<nat>))
    requires Shape(k) && t < |k.tables|
  {
    var table := k.tables[t];
    if !IsFd(fd) || table[fd].None? || start >= MAX_FD then (k, None)
    else
      var n := FreeFd(table, start);
      if n == MAX_FD then (k, None) else (k.(tables := k.tables[t := table[n := table[fd]]]), Some(n))
  }

  function NoEntries(): (t: Table)
    ensures |t| == MAX_FD && forall fd | 0 <= fd < MAX_FD :: t[fd] == None
  {
    seq(MAX_FD, _ => None)
  }

  /** Starting a new program in slot `s`: whatever table was left there is replaced by an empty one. */
  function Launch(k: Kern, s: nat): Kern
    requires Shape(k) && s < |k.tables|
  {
    k.(tables := k.tables[s := NoEntries()])
  }

  /** `pipe_alloc`: a pipe that finds no descriptors is closed again. */
  function Pipe(k: Kern, t: nat): (r: (Kern, Option<(nat, nat)>))
    requires Shape(k) && t < |k.tables|
  {
    var table := k.tables[t];
    var p := FreePipe(k.ends, 0);
    if p == PIPE_COUNT then (k, None)
    else
      var ends := k.ends[p := Ends(true, true, 1, 1)];
      var r := FreeFd(table, 3);
      if r == MAX_FD then (Kern(DropRef(DropRef(ends, p, false), p, true), k.tables), None)
      else
        var table1 := table[r := Some(PipeEnd(p, false))];
        var w := FreeFd(table1, 3);
        if w == MAX_FD then (Kern(DropRef(DropRef(ends, p, false), p, true), k.tables[t := table1]), None)
        else (Kern(ends, k.tables[t := table1[w := Some(PipeEnd(p, true))]]), Some((r, w)))
  }

  // ----- the counts are exact -----

  /** How many entries of a table refer to `e`. */
  function Holding(t: Table, e: Entry): nat {
    multiset(t)[Some(e)]
  }

  function Holds(tables: seq<Table>, e: Entry): nat {
    if tables == [] then 0 else Holds(tables[..|tables| - 1], e) + Holding(tables[|tables| - 1], e)
  }

  /** Every pipe end is counted once for every table entry that refers to it, and is open exactly while
      there is one. */
  ghost predicate Counted(k: Kern) {
    && Shape(k)
    && forall p: nat, w: bool | p < PIPE_COUNT :: EndCounted(k, p, w)
  }

  predicate EndCounted(k: Kern, p: nat, w: bool)
    requires p < |k.ends|
  {
    Refs(k.ends[p], w) == Holds(k.tables, PipeEnd(p, w)) && (IsOpen(k.ends[p], w) <==> Refs(k.ends[p], w) > 0)
  }

  lemma {:induction false} HoldsUpdate(tables: seq<Table>, t: nat, table: Table, e: Entry)
    requires t < |tables|
    ensures Holds(tables[t := table], e) + Holding(tables[t], e) == Holds(tables, e) + Holding(table, e)
    ensures Holds(tables, e) >= Holding(tables[t], e)
    decreases |tables|
  {
    var n := |tables| - 1;
    var r := tables[t := table];
    if t == n {
      assert r[..n] == tables[..n];
    } else {
      HoldsUpdate(tables[..n], t, table, e);
      assert r[..n] == tables[..n][t := table];
    }
  }

  lemma HoldingUpdate(t: Table, fd: nat, v: Option<Entry>, e: Entry)
    requires fd < |t|
    ensures Holding(t[fd := v], e) + (if t[fd] == Some(e) then 1 else 0) == Holding(t, e) + (if v == Some(e) then 1 else 0)
    ensures t[fd] == Some(e) ==> Holding(t, e) > 0
  {
    assert t == t[..fd] + [t[fd]] + t[fd + 1..];
    assert t[fd := v] == t[..fd] + [v] + t[fd + 1..];
  }

  lemma TakenAt(ends: seq<Ends>, e: Option<Entry>, p: nat, w: bool)
    requires p < |ends|
    ensures |Taken(ends, e)| == |ends|
    ensures IsOpen(Taken(ends, e)[p], w) == IsOpen(ends[p], w)
    ensures Refs(Taken(ends, e)[p], w) ==
      if e == Some(PipeEnd(p, w)) then Min(Refs(ends[p], w) + 1, 255) else Refs(ends[p], w)
  {
  }

  lemma DroppedAt(ends: seq<Ends>, e: Option<Entry>, p: nat, w: bool)
    requires p < |ends|
    ensures |Dropped(ends, e)| == |ends|
    ensures e == Some(PipeEnd(p, w)) ==>
      Refs(Dropped(ends, e)[p], w) == Max(Refs(ends[p], w) - 1, 0)
      && IsOpen(Dropped(ends, e)[p], w) == (Refs(ends[p], w) > 1 && IsOpen(ends[p], w))
    ensures e != Some(PipeEnd(p, w)) ==>
      Refs(Dropped(ends, e)[p], w) == Refs(ends[p], w) && IsOpen(Dropped(ends, e)[p], w) == IsOpen(ends[p], w)
  {
  }

  lemma {:induction false} TakenFromAt(ends: seq<Ends>, t: Table, i: nat, p: nat, w: bool)
    requires i <= |t| && p < |ends| && Refs(ends[p], w) + Holding(t[i..], PipeEnd(p, w)) <= MAX_REFS
    ensures |TakenFrom(ends, t, i)| == |ends|
    ensures IsOpen(TakenFrom(ends, t, i)[p], w) == IsOpen(ends[p], w)
    ensures Refs(TakenFrom(ends, t, i)[p], w) == Refs(ends[p], w) + Holding(t[i..], PipeEnd(p, w))
    decreases |t| - i
  {
    if i < |t| {
      assert t[i..] == [t[i]] + t[i + 1..];
      TakenAt(ends, t[i], p, w);
      hide Taken;
      TakenFromAt(Taken(ends, t[i]), t, i + 1, p, w);
    } else {
      assert t[i..] == [];
    }
  }

  lemma CloseCounted(k: Kern, t: nat, fd: int)
    requires Counted(k) && t < |k.tables|
    ensures Counted(Close(k, t, fd))
  {
    hide Dropped, Taken, Holding, Holds, Refs, IsOpen;
    if IsFd(fd) {
      var table := k.tables[t];
      DroppedAt(k.ends, table[fd], 0, false);
      forall p: nat, w: bool | p < PIPE_COUNT ensures EndCounted(Close(k, t, fd), p, w) {
        assert EndCounted(k, p, w);
        DroppedAt(k.ends, table[fd], p, w);
        HoldsUpdate(k.tables, t, CloseIn(table, fd), PipeEnd(p, w));
        HoldingUpdate(table, fd, None, PipeEnd(p, w));
      }
    } else {
      assert Close(k, t, fd) == k;
    }
  }

  /** There is room in the counter of the end that `e` refers to. */
  predicate Room(k: Kern, e: Option<Entry>) {
    e.Some? && e.value.PipeEnd? && e.value.pipe < PIPE_COUNT ==> Holds(k.tables, e.value) < MAX_REFS
  }

  /** The counts stay exact over `dup2`, also onto an open descriptor or itself, exactly when the counter
      of the copied end has room. */
  lemma Dup2Counted(k: Kern, t: nat, a: int, b: int)
    requires Counted(k) && t < |k.tables|
    ensures Counted(Dup2(k, t, a, b)) <==> (IsFd(a) && IsFd(b) ==> Room(k, k.tables[t][a]))
  {
    hide Dropped, Taken, Holding, Holds, Refs, IsOpen;
    var table := k.tables[t];
    if IsFd(a) && IsFd(b) && table[a].Some? {
      var ends1 := Taken(k.ends, table[a]);
      TakenAt(k.ends, table[a], 0, false);
      DroppedAt(ends1, table[b], 0, false);
      forall p: nat, w: bool | p < PIPE_COUNT
        ensures EndCounted(Dup2(k, t, a, b), p, w) <==> (table[a] == Some(PipeEnd(p, w)) ==> Holds(k.tables, PipeEnd(p, w)) < MAX_REFS)
      {
        assert EndCounted(k, p, w);
        TakenAt(k.ends, table[a], p, w);
        DroppedAt(ends1, table[b], p, w);
        HoldsUpdate(k.tables, t, Dup2In(table, a, b), PipeEnd(p, w));
        HoldingUpdate(table, b, table[a], PipeEnd(p, w));
        HoldingUpdate(table, a, None, PipeEnd(p, w));
      }
      if !Room(k, table[a]) { assert !EndCounted(Dup2(k, t, a, b), table[a].value.pipe, table[a].value.write); }
    } else {
      assert Dup2(k, t, a, b) == k;
    }
  }

  /** No entry of a table is a pipe end. */
  ghost predicate Clean(t: Table) {
    forall p: nat, w: bool | p < PIPE_COUNT :: Holding(t, PipeEnd(p, w)) == 0
  }

  /** The counts stay exact over `fork` exactly when the slot the child takes was left without pipe ends. */
  lemma ForkCounted(k: Kern, t: nat, s: nat)
    requires Counted(k) && t < |k.tables| && s < |k.tables|
    requires forall p: nat, w: bool | p < PIPE_COUNT ::
      Holds(k.tables, PipeEnd(p, w)) + Holding(k.tables[t], PipeEnd(p, w)) <= MAX_REFS
    ensures Counted(Fork(k, t, s)) <==> Clean(k.tables[s])
  {
    hide Holding, Holds, Refs, IsOpen;
    var r := Fork(k, t, s);
    var table := k.tables[t];
    assert table[0..] == table;
    assert EndCounted(k, 0, false);
    TakenFromAt(k.ends, table, 0, 0, false);
    forall p: nat, w: bool | p < PIPE_COUNT
      ensures EndCounted(r, p, w) <==> Holding(k.tables[s], PipeEnd(p, w)) == 0
    {
      assert EndCounted(k, p, w);
      TakenFromAt(k.ends, table, 0, p, w);
      HoldsUpdate(k.tables, s, table, PipeEnd(p, w));
      HoldsUpdate(k.tables, t, table, PipeEnd(p, w));
    }
  }

  /** The counts stay exact over `exec` exactly when the process had closed its other pipe ends. */
  lemma ExecCounted(k: Kern, t: nat)
    requires Counted(k) && t < |k.tables|
    ensures Counted(Exec(k, t)) <==> Clean(k.tables[t][3..])
  {
    var table := k.tables[t];
    var none: Table := seq(MAX_FD - 3, _ => None);
    assert table == table[..3] + table[3..];
    forall p: nat, w: bool | p < PIPE_COUNT
      ensures EndCounted(Exec(k, t), p, w) <==> Holding(table[3..], PipeEnd(p, w)) == 0
    {
      assert EndCounted(k, p, w);
      assert Some(PipeEnd(p, w)) !in none;
      assert Holding(table[..3] + none, PipeEnd(p, w)) == Holding(table[..3], PipeEnd(p, w));
      HoldsUpdate(k.tables, t, table[..3] + none, PipeEnd(p, w));
    }
  }

  /** The counts stay exact over `dup` and F_DUPFD exactly when the call fails or copies no pipe end. */
  lemma DupCounted(k: Kern, t: nat, fd: int, start: nat)
    requires Counted(k) && t < |k.tables|
    ensures var (r, got) := DupFrom(k, t, fd, start);
      Counted(r) <==>
        (got.Some? ==> !(k.tables[t][fd].value.PipeEnd? && k.tables[t][fd].value.pipe < PIPE_COUNT))
  {
    hide Holding, Holds, Refs, IsOpen;
    var table := k.tables[t];
    var (r, got) := DupFrom(k, t, fd, start);
    if got.Some? {
      var n := got.value;
      forall p: nat, w: bool | p < PIPE_COUNT ensures EndCounted(r, p, w) <==> table[fd] != Some(PipeEnd(p, w)) {
        assert EndCounted(k, p, w);
        HoldsUpdate(k.tables, t, table[n := table[fd]], PipeEnd(p, w));
        HoldingUpdate(table, n, table[fd], PipeEnd(p, w));
      }
      var e := table[fd].value;
      if e.PipeEnd? && e.pipe < PIPE_COUNT { assert !EndCounted(r, e.pipe, e.write); }
    }
  }

  lemma EmptyHolds(e: Entry)
    ensures Holding(NoEntries(), e) == 0
  {
    assert Some(e) !in NoEntries();
  }

  /** The counts stay exact over starting a program exactly when its slot was left without pipe ends. */
  lemma LaunchCounted(k: Kern, s: nat)
    requires Counted(k) && s < |k.tables|
    ensures Counted(Launch(k, s)) <==> Clean(k.tables[s])
  {
    hide Holding, Holds, Refs, IsOpen, NoEntries;
    forall p: nat, w: bool | p < PIPE_COUNT
      ensures EndCounted(Launch(k, s), p, w) <==> Holding(k.tables[s], PipeEnd(p, w)) == 0
    {
      assert EndCounted(k, p, w);
      EmptyHolds(PipeEnd(p, w));
      HoldsUpdate(k.tables, s, NoEntries(), PipeEnd(p, w));
    }
  }

  /** Descriptors that `pipe` may use. */
  predicate Usable(t: Table, fd: nat) {
    3 <= fd < |t| && t[fd].None?
  }

  ghost predicate OneUsable(t: Table) {
    exists fd :: Usable(t, fd) && forall g | Usable(t, g) :: g == fd
  }

  /** The counts stay exact over `pipe` unless a pipe is free and exactly one descriptor is: then the
      entry for the read end stays behind although the pipe is closed again. */
  lemma PipeCounted(k: Kern, t: nat)
    requires Counted(k) && t < |k.tables|
    ensures Counted(Pipe(k, t).0) <==> !(FreePipe(k.ends, 0) < PIPE_COUNT && OneUsable(k.tables[t]))
  {
    var table := k.tables[t];
    var p := FreePipe(k.ends, 0);
    if p < PIPE_COUNT {
      assert EndCounted(k, p, false) && EndCounted(k, p, true);
      var r := FreeFd(table, 3);
      if r == MAX_FD {
        assert !OneUsable(table);
        assert Pipe(k, t).0.ends == k.ends;
      } else {
        PipeSlots(table, p);
        PipeCountedAt(k, t);
      }
    }
  }

  lemma NoFreeFd(t: Table, g: nat)
    requires 3 <= g < |t| && FreeFd(t, 3) == |t|
    ensures t[g].Some?
  {
  }

  lemma PipeSlots(table: Table, p: nat)
    requires |table| == MAX_FD && FreeFd(table, 3) < MAX_FD
    ensures OneUsable(table) <==> FreeFd(table[FreeFd(table, 3) := Some(PipeEnd(p, false))], 3) == MAX_FD
  {
    var r := FreeFd(table, 3);
    var table1 := table[r := Some(PipeEnd(p, false))];
    var w := FreeFd(table1, 3);
    assert Usable(table, r);
    if w < MAX_FD { assert Usable(table, w) && w != r; }
    else {
      forall g: nat | Usable(table, g) ensures g == r { NoFreeFd(table1, g); }
    }
  }

  lemma PipeCountedAt(k: Kern, t: nat)
    requires Counted(k) && t < |k.tables|
    requires FreePipe(k.ends, 0) < PIPE_COUNT && FreeFd(k.tables[t], 3) < MAX_FD
    ensures Counted(Pipe(k, t).0) <==> Pipe(k, t).1.Some?
  {
    var table := k.tables[t];
    var p := FreePipe(k.ends, 0);
    var r := FreeFd(table, 3);
    var table1 := table[r := Some(PipeEnd(p, false))];
    var w := FreeFd(table1, 3);
    var (k1, got) := Pipe(k, t);
    assert EndCounted(k, p, false) && EndCounted(k, p, true);
    hide Holding, Holds;
    if w == MAX_FD {
      HoldsUpdate(k.tables, t, table1, PipeEnd(p, false));
      HoldingUpdate(table, r, table1[r], PipeEnd(p, false));
      assert !EndCounted(k1, p, false);
    } else {
      var table2 := table1[w := Some(PipeEnd(p, true))];
      forall q: nat, v: bool | q < PIPE_COUNT ensures EndCounted(k1, q, v) {
        assert EndCounted(k, q, v);
        HoldsUpdate(k.tables, t, table2, PipeEnd(q, v));
        HoldingUpdate(table, r, table1[r], PipeEnd(q, v));
        HoldingUpdate(table1, w, table2[w], PipeEnd(q, v));
      }
    }
  }

  // ----- who holds an end -----

  /** No table holds this end of a pipe exactly when its count is zero. */
  lemma NoRefsIffUnheld(k: Kern, p: nat, w: bool)
    requires Counted(k) && p < PIPE_COUNT
    ensures Refs(k.ends[p], w) == 0 <==>
      forall t: nat, fd: nat | t < |k.tables| && fd < MAX_FD :: k.tables[t][fd] != Some(PipeEnd(p, w))
  {
    assert EndCounted(k, p, w);
    HoldsNone(k.tables, PipeEnd(p, w));
    if Refs(k.ends[p], w) == 0 {
      forall t: nat, fd: nat | t < |k.tables| && fd < MAX_FD ensures k.tables[t][fd] != Some(PipeEnd(p, w)) {
        assert Holding(k.tables[t], PipeEnd(p, w)) == 0;
        HoldingUpdate(k.tables[t], fd, None, PipeEnd(p, w));
      }
    } else {
      var t: nat :| t < |k.tables| && Holding(k.tables[t], PipeEnd(p, w)) > 0;
      assert Some(PipeEnd(p, w)) in k.tables[t];
      var fd :| 0 <= fd < MAX_FD && k.tables[t][fd] == Some(PipeEnd(p, w));
    }
  }

  lemma {:induction false} HoldsNone(tables: seq<Table>, e: Entry)
    ensures Holds(tables, e) == 0 <==> forall t | 0 <= t < |tables| :: Holding(tables[t], e) == 0
    decreases |tables|
  {
    if tables != [] {
      var n := |tables| - 1;
      HoldsNone(tables[..n], e);
      if Holds(tables, e) == 0 {
        forall t | 0 <= t < |tables| ensures Holding(tables[t], e) == 0 {
          if t < n { assert tables[..n][t] == tables[t]; }
        }
      }
    }
  }

  // ----- a kernel with nothing open -----

  function FreshKern(): (k: Kern)
    ensures |k.ends| == PIPE_COUNT && |k.tables| == MAX_TASKS
    ensures forall p | 0 <= p < PIPE_COUNT :: k.ends[p] == CLOSED
    ensures forall t | 0 <= t < MAX_TASKS :: k.tables[t] == NoEntries()
  {
    Kern(seq(PIPE_COUNT, _ => CLOSED), seq(MAX_TASKS, _ => NoEntries()))
  }

  lemma FreshCounted()
    ensures Counted(FreshKern()) && Clean(NoEntries())
  {
    var k := FreshKern();
    hide FreshKern, NoEntries, Holding, Holds;
    forall p: nat, w: bool | p < PIPE_COUNT ensures EndCounted(k, p, w) && Holding(NoEntries(), PipeEnd(p, w)) == 0 {
      EmptyHolds(PipeEnd(p, w));
      HoldsNone(k.tables, PipeEnd(p, w));
    }
  }
}
