/** Opening the pipes of a pipeline: with enough free pipes and descriptors every call succeeds, and the
    pipeline is ready to be wired. */
module PipelineOpen {
  import opened Common
  import opened FdTables
  import opened PipelinePlan
  import opened PipelineRun

  lemma PipeShape(k: Kern, t: nat)
    requires Shape(k) && t < |k.tables|
    ensures Shape(Pipe(k, t).0) && |Pipe(k, t).0.tables| == |k.tables|
    ensures forall s | 0 <= s < |k.tables| && s != t :: Pipe(k, t).0.tables[s] == k.tables[s]
  {
  }

  /** The kernel after `m` calls of `pipe` by process `t`. */
  function Piped(k: Kern, t: nat, m: nat): (r: Kern)
    requires Shape(k) && t < |k.tables|
    ensures Shape(r) && |r.tables| == |k.tables|
  {
    if m == 0 then k
    else
      PipeShape(Piped(k, t, m - 1), t);
      Pipe(Piped(k, t, m - 1), t).0
  }

  /** What call `j` of `pipe` gives. */
  function Got(k: Kern, t: nat, j: nat): Option<(nat, nat)>
    requires Shape(k) && t < |k.tables|
  {
    Pipe(Piped(k, t, j), t).1
  }

  /** Descriptors the shell keeps; a failed call leaves them at -1. */
  function ReadFd(k: Kern, t: nat, j: nat): int
    requires Shape(k) && t < |k.tables|
  {
    if Got(k, t, j).Some? then Got(k, t, j).value.0 else -1
  }

  function WriteFd(k: Kern, t: nat, j: nat): int
    requires Shape(k) && t < |k.tables|
  {
    if Got(k, t, j).Some? then Got(k, t, j).value.1 else -1
  }

  function PipeNo(k: Kern, t: nat, j: nat): nat
    requires Shape(k) && t < |k.tables|
  {
    FreePipe(Piped(k, t, j).ends, 0)
  }

  function ReadFds(k: Kern, t: nat, m: nat): (r: seq<int>)
    requires Shape(k) && t < |k.tables|
    ensures |r| == m
  {
    if m == 0 then [] else ReadFds(k, t, m - 1) + [ReadFd(k, t, m - 1)]
  }

  function WriteFds(k: Kern, t: nat, m: nat): (r: seq<int>)
    requires Shape(k) && t < |k.tables|
    ensures |r| == m
  {
    if m == 0 then [] else WriteFds(k, t, m - 1) + [WriteFd(k, t, m - 1)]
  }

  function PipeNos(k: Kern, t: nat, m: nat): (r: seq<nat>)
    requires Shape(k) && t < |k.tables|
    ensures |r| == m
  {
    if m == 0 then [] else PipeNos(k, t, m - 1) + [PipeNo(k, t, m - 1)]
  }

  // ----- success -----

  function FreePipes(ends: seq<Ends>): set<nat> {
    set p: nat | p < |ends| && !ends[p].readOpen && !ends[p].writeOpen
  }

  function FreeFds(t: Table): set<nat> {
    set fd: nat | fd < |t| && Usable(t, fd)
  }

  /** Enough for `m` more pipes in process `t`. */
  predicate Capacity(k: Kern, t: nat, m: nat)
    requires t < |k.tables|
  {
    |FreePipes(k.ends)| >= m && |FreeFds(k.tables[t])| >= 2 * m
  }

  lemma NoFreePipes(ends: seq<Ends>)
    ensures FreePipes(ends) == {} <==> FreePipe(ends, 0) == |ends|
  {
    if FreePipe(ends, 0) < |ends| { assert FreePipe(ends, 0) in FreePipes(ends); }
  }

  lemma NoFreeFds(t: Table)
    requires |t| >= 3
    ensures FreeFds(t) == {} <==> FreeFd(t, 3) == |t|
  {
    if FreeFd(t, 3) < |t| { assert FreeFd(t, 3) in FreeFds(t); }
  }

  /** With room for `m` pipes a call succeeds and leaves room for the others. */
  lemma PipeSucceeds(k: Kern, t: nat, m: nat)
    requires Shape(k) && t < |k.tables| && m > 0 && Capacity(k, t, m)
    ensures Pipe(k, t).1.Some? && Capacity(Pipe(k, t).0, t, m - 1)
  {
    var table := k.tables[t];
    var p := FreePipe(k.ends, 0);
    var r := FreeFd(table, 3);
    NoFreePipes(k.ends);
    NoFreeFds(table);
    var table1 := table[r := Some(PipeEnd(p, false))];
    var w := FreeFd(table1, 3);
    assert FreeFds(table1) == FreeFds(table) - {r};
    assert r in FreeFds(table) && |FreeFds(table1)| == |FreeFds(table)| - 1;
    NoFreeFds(table1);
    assert w in FreeFds(table1) && p in FreePipes(k.ends);
    var k1 := Pipe(k, t).0;
    assert k1.ends == k.ends[p := Ends(true, true, 1, 1)];
    assert FreePipes(k1.ends) == FreePipes(k.ends) - {p};
    assert FreeFds(k1.tables[t]) == FreeFds(table1) - {w};
  }

  lemma {:induction false} AllSucceed(k: Kern, t: nat, m: nat, j: nat)
    requires Shape(k) && t < |k.tables| && Capacity(k, t, m) && j <= m
    ensures Capacity(Piped(k, t, j), t, m - j) && (j < m ==> Got(k, t, j).Some?)
    decreases j
  {
    if j > 0 {
      AllSucceed(k, t, m, j - 1);
      PipeSucceeds(Piped(k, t, j - 1), t, m - j + 1);
    }
    if j < m { PipeSucceeds(Piped(k, t, j), t, m - j); }
  }

  // ----- what is open afterwards -----

  lemma OneMoreEnd(t0: Table, t: Table, t1: Table, fds: seq<int>, ps: seq<nat>, write: bool, fd: nat, p: nat)
    requires |t0| == |t| == |t1| == MAX_FD && |fds| == |ps|
    requires forall j | 0 <= j < |fds| :: 3 <= fds[j] < MAX_FD && t0[fds[j]].None? && t[fds[j]] == Some(PipeEnd(ps[j], write))
    requires forall j | 0 <= j < |fds| :: t1[fds[j]] == t[fds[j]]
    requires 3 <= fd < MAX_FD && t0[fd].None? && t1[fd] == Some(PipeEnd(p, write))
    ensures var all, pipes := fds + [fd], ps + [p];
      forall j | 0 <= j < |all| :: 3 <= all[j] < MAX_FD && t0[all[j]].None? && t1[all[j]] == Some(PipeEnd(pipes[j], write))
  {
  }

  lemma NotOpened(t0: Table, t: Table, rd: seq<int>, wr: seq<int>, ps: seq<nat>, fd: nat)
    requires OpenedPipes(t0, t, rd, wr, ps) && fd < MAX_FD && t[fd].None?
    ensures fd !in rd && fd !in wr && t0[fd].None?
  {
  }

  lemma OpenOne(t0: Table, t: Table, rd: seq<int>, wr: seq<int>, ps: seq<nat>, r: nat, w: nat, p: nat)
    requires OpenedPipes(t0, t, rd, wr, ps) && p < PIPE_COUNT && p !in ps
    requires 3 <= r < MAX_FD && 3 <= w < MAX_FD && r != w && t[r].None? && t[w].None?
    ensures OpenedPipes(t0, t[r := Some(PipeEnd(p, false))][w := Some(PipeEnd(p, true))], rd + [r], wr + [w], ps + [p])
  {
    var t1 := t[r := Some(PipeEnd(p, false))][w := Some(PipeEnd(p, true))];
    NotOpened(t0, t, rd, wr, ps, r);
    NotOpened(t0, t, rd, wr, ps, w);
    OneMoreEnd(t0, t, t1, rd, ps, false, r, p);
    OneMoreEnd(t0, t, t1, wr, ps, true, w, p);
  }

  lemma PipeResult(k: Kern, t: nat)
    requires Counted(k) && t < |k.tables| && Pipe(k, t).1.Some?
    ensures var (r, w) := Pipe(k, t).1.value; var table := k.tables[t]; var p := FreePipe(k.ends, 0);
      && p < PIPE_COUNT && 3 <= r < MAX_FD && 3 <= w < MAX_FD && r != w && table[r].None? && table[w].None?
      && Pipe(k, t).0.tables == k.tables[t := table[r := Some(PipeEnd(p, false))][w := Some(PipeEnd(p, true))]]
      && (forall s, v: bool | 0 <= s < |k.tables| :: Holding(k.tables[s], PipeEnd(p, v)) == 0)
      && Counted(Pipe(k, t).0)
  {
    var p := FreePipe(k.ends, 0);
    var r := FreeFd(k.tables[t], 3);
    PipeCountedAt(k, t);
    forall s, v: bool | 0 <= s < |k.tables| ensures Holding(k.tables[s], PipeEnd(p, v)) == 0 {
      assert EndCounted(k, p, v);
      HoldsNone(k.tables, PipeEnd(p, v));
    }
  }

  /** After `m` successful calls the counts are exact, only the table of `t` has changed, and it has the
      pipes opened in it. */
  ghost predicate AllOpen(k: Kern, t: nat, m: nat)
    requires Shape(k) && t < |k.tables|
  {
    var r := Piped(k, t, m);
    && Counted(r) && ErrorsElsewhere(r.tables) && r.tables == k.tables[t := r.tables[t]]
    && OpenedPipes(k.tables[t], r.tables[t], ReadFds(k, t, m), WriteFds(k, t, m), PipeNos(k, t, m))
    && NoneHeld(k.tables, PipeNos(k, t, m))
  }

  lemma NoneOpen(k: Kern, t: nat)
    requires Counted(k) && t < |k.tables| && ErrorsElsewhere(k.tables)
    ensures AllOpen(k, t, 0)
  {
    hide Counted;
    assert k.tables[t := k.tables[t]] == k.tables;
  }

  lemma {:induction false} PipesOpen(k: Kern, t: nat, m: nat)
    requires Counted(k) && t < |k.tables| && ErrorsElsewhere(k.tables) && Capacity(k, t, m)
    ensures AllOpen(k, t, m) && forall j | 0 <= j < m :: Got(k, t, j).Some?
  {
    hide AllOpen, Capacity, Got;
    if m == 0 {
      NoneOpen(k, t);
    } else {
      CapacityLess(k, t, m);
      PipesOpen(k, t, m - 1);
      AllSucceed(k, t, m, m - 1);
      PipesOpenStep(k, t, m);
    }
  }

  lemma CapacityLess(k: Kern, t: nat, m: nat)
    requires t < |k.tables| && m > 0 && Capacity(k, t, m)
    ensures Capacity(k, t, m - 1)
  {
  }

  lemma PipesOpenStep(k: Kern, t: nat, m: nat)
    requires Shape(k) && t < |k.tables| && m > 0
    requires forall j | 0 <= j < m :: Got(k, t, j).Some?
    requires AllOpen(k, t, m - 1)
    ensures AllOpen(k, t, m)
  {
    hide Pipe, Holding, Counted, OpenedPipes;
    var k1 := Piped(k, t, m - 1);
    var (r, w) := Got(k, t, m - 1).value;
    var p := PipeNo(k, t, m - 1);
    var ps := PipeNos(k, t, m - 1);
    PipeResult(k1, t);
    NotOpenedYet(k.tables[t], k1.tables[t], ReadFds(k, t, m - 1), WriteFds(k, t, m - 1), ps, p);
    OpenOne(k.tables[t], k1.tables[t], ReadFds(k, t, m - 1), WriteFds(k, t, m - 1), ps, r, w, p);
    forall s, v: bool | 0 <= s < |k.tables| ensures Holding(k.tables[s], PipeEnd(p, v)) == 0 {
      assert Holding(k1.tables[s], PipeEnd(p, v)) == 0;
      if s == t { BeforeOpening(k.tables[t], k1.tables[t], ReadFds(k, t, m - 1), WriteFds(k, t, m - 1), ps, PipeEnd(p, v)); }
    }
  }

  lemma NotOpenedYet(t0: Table, t: Table, rd: seq<int>, wr: seq<int>, ps: seq<nat>, p: nat)
    requires OpenedPipes(t0, t, rd, wr, ps) && Holding(t, PipeEnd(p, false)) == 0
    ensures p !in ps
  {
    forall j | 0 <= j < |ps| ensures ps[j] != p {
      HoldingUpdate(t, rd[j], None, PipeEnd(p, false));
    }
  }

  lemma BeforeOpening(t0: Table, t: Table, rd: seq<int>, wr: seq<int>, ps: seq<nat>, e: Entry)
    requires OpenedPipes(t0, t, rd, wr, ps) && Holding(t, e) == 0
    ensures Holding(t0, e) == 0
  {
    forall fd | 0 <= fd < MAX_FD ensures t0[fd] != Some(e) {
      HoldingUpdate(t, fd, None, e);
    }
    assert Some(e) !in t0;
  }

  // ----- the pipeline from the start -----

  function PlanOf(k: Kern, n: nat, out: int, shell: nat, slots: seq<Option<nat>>): (pl: Plan)
    requires Shape(k) && shell < |k.tables| && 1 <= n == |slots|
    ensures Sized(pl)
  {
    Plan(n, ReadFds(k, shell, n - 1), WriteFds(k, shell, n - 1), PipeNos(k, shell, n - 1), out, shell, slots)
  }

  /** Only the shell has anything to do. */
  function Start(k: Kern, pl: Plan): (m: Machine)
    requires Sized(pl)
    ensures m.k == k && |m.todo| == |k.tables|
    ensures pl.shell < |k.tables| ==> m.todo[pl.shell] == Spawns(pl, 0) + Closing(pl)
    ensures forall s | 0 <= s < |m.todo| && s != pl.shell :: m.todo[s] == []
  {
    Machine(k, seq(|k.tables|, s => if s == pl.shell then Spawns(pl, 0) + Closing(pl) else []))
  }

  /** What the shell needs to find: exact counts, room for the pipes, an open redirect and, for the stages,
      free process slots that hold no pipe ends. */
  ghost predicate CanRun(k: Kern, n: nat, out: int, shell: nat, slots: seq<Option<nat>>) {
    && Counted(k) && ErrorsElsewhere(k.tables) && shell < |k.tables| && 1 <= n == |slots|
    && Capacity(k, shell, n - 1) && (out >= 0 ==> 3 <= out < MAX_FD && k.tables[shell][out].Some?)
    && SlotsOk(PlanOf(k, n, out, shell, slots), |k.tables|) && CleanSlots(PlanOf(k, n, out, shell, slots), k.tables)
  }

  /** The opened pipes of a plan, in its terms. */
  lemma PlanOpened(k: Kern, n: nat, out: int, shell: nat, slots: seq<Option<nat>>)
    requires Shape(k) && shell < |k.tables| && 1 <= n == |slots| && AllOpen(k, shell, n - 1)
    ensures var pl, k1 := PlanOf(k, n, out, shell, slots), Piped(k, shell, n - 1);
      && Counted(k1) && ErrorsElsewhere(k1.tables) && k1.tables == k.tables[shell := k1.tables[shell]]
      && Opened(k.tables[shell], k1.tables[shell], pl) && NoneHeld(k.tables, pl.ps)
      && pl.n == n && pl.out == out && pl.shell == shell && pl.slots == slots
  {
    hide Counted, ErrorsElsewhere, OpenedPipes, NoneHeld, Piped, ReadFds, WriteFds, PipeNos;
  }

  lemma OpenedFds(t0: Table, t: Table, pl: Plan)
    requires Opened(t0, t, pl) && (pl.out < 0 || pl.out >= 3)
    ensures PipeFds(pl)
  {
  }

  /** A plan whose pipes are open, started. */
  lemma StartReady(k1: Kern, pl: Plan, base: seq<Table>, t0: Table, t: Table)
    requires Counted(k1) && ErrorsElsewhere(k1.tables) && Opened(t0, t, pl) && RedirectOk(t0, pl) && NoneHeld(base, pl.ps)
    requires SlotsOk(pl, |base|) && CleanSlots(pl, base) && base[pl.shell] == t0 && k1.tables == base[pl.shell := t]
    ensures Ready(Start(k1, pl), pl, base, t0, t)
  {
    OpenedFds(t0, t, pl);
    assert Shape(k1) && |t0| == MAX_FD;
    hide Counted, ErrorsElsewhere, Opened, NoneHeld, CleanSlots, Closing, Spawns, PipeFds, SlotsOk, RedirectOk;
  }

  lemma CanRunReady(k: Kern, n: nat, out: int, shell: nat, slots: seq<Option<nat>>)
    requires CanRun(k, n, out, shell, slots)
    ensures var pl, k1 := PlanOf(k, n, out, shell, slots), Piped(k, shell, n - 1);
      Ready(Start(k1, pl), pl, k.tables, k.tables[shell], k1.tables[shell])
  {
    assert Shape(k);
    hide Counted, ErrorsElsewhere, Capacity, CleanSlots, Piped, Got, AllOpen, PlanOf, Opened, NoneHeld, Ready, Start, SlotsOk;
    PipesOpen(k, shell, n - 1);
    PlanOpened(k, n, out, shell, slots);
    var k1 := Piped(k, shell, n - 1);
    StartReady(k1, PlanOf(k, n, out, shell, slots), k.tables, k.tables[shell], k1.tables[shell]);
  }

  // ----- a kernel on which every pipeline can be started -----

  function Between(lo: nat, hi: nat): (r: set<nat>)
    requires lo <= hi
    ensures |r| == hi - lo && forall x :: x in r <==> lo <= x < hi
  {
    if lo == hi then {} else Between(lo, hi - 1) + {hi - 1}
  }

  lemma FreshCapacity(shell: nat, m: nat)
    requires shell < MAX_TASKS && m <= PIPE_COUNT
    ensures Capacity(FreshKern(), shell, m)
  {
    var k := FreshKern();
    hide FreshKern, NoEntries, Between;
    AllFreePipes(k.ends);
    AllFreeFds(k.tables[shell]);
  }

  lemma AllFreePipes(ends: seq<Ends>)
    requires forall p | 0 <= p < |ends| :: ends[p] == CLOSED
    ensures |FreePipes(ends)| == |ends|
  {
    assert FreePipes(ends) == Between(0, |ends|);
  }

  lemma AllFreeFds(t: Table)
    requires |t| >= 3 && forall fd | 0 <= fd < |t| :: t[fd] == None
    ensures |FreeFds(t)| == |t| - 3
  {
    assert FreeFds(t) == Between(3, |t|);
  }

  /** On a kernel where nothing is open every pipeline of one to eight stages can be run, whatever distinct
      slots its forks get. */
  lemma FreshCanRun(n: nat, shell: nat, slots: seq<Option<nat>>)
    requires 1 <= n == |slots| <= 8 && shell < 8
    requires forall i | 0 <= i < n && slots[i].Some? :: slots[i].value < 8 && slots[i].value != shell
    requires forall i, j | 0 <= i < j < n && slots[i].Some? :: slots[i] != slots[j]
    ensures CanRun(FreshKern(), n, -1, shell, slots)
  {
    FreshCounted();
    FreshCapacity(shell, n - 1);
    var k := FreshKern();
    assert ErrorsElsewhere(k.tables);
    hide FreshKern, NoEntries, Capacity, Counted, Clean, ErrorsElsewhere, ReadFds, WriteFds, PipeNos;
    assert Shape(k);
  }
}
