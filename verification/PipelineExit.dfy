/** Stages of a pipeline that exit: what their readers see, and what becomes of their slots. */
module PipelineExit {
  import opened Common
  import opened FdTables
  import opened FdLife
  import opened PipeBuffer
  import opened PipelinePlan
  import opened PipelineRun
  import opened PipelineOpen
  import opened PipelineShell

  /** A finished pipeline in which the stages on both sides of pipe `j` were forked. */
  ghost predicate Piping(k: Kern, pl: Plan, base: seq<Table>, t0: Table, j: nat) {
    && Counted(k) && |t0| == MAX_FD && Planned(pl, |base|) && RedirectOk(t0, pl) && Distinct(pl.ps)
    && j < pl.n - 1 && pl.slots[j].Some? && pl.slots[j + 1].Some? && pl.ps[j] < PIPE_COUNT
    && Outcome(k.tables, pl, base, t0) && NoneHeld(base, pl.ps) && base[pl.shell] == t0
  }

  /** Only its own stage holds an end of pipe `j`. */
  lemma OnlyHolder(k: Kern, pl: Plan, base: seq<Table>, t0: Table, j: nat, w: bool, t: nat, fd: nat)
    requires Piping(k, pl, base, t0, j) && HeldAt(k, t, fd, pl.ps[j], w)
    ensures Holder(pl, j, w) == Some(t)
  {
    assert Shape(k);
    hide Wired, Rest, Holding, Counted;
    var e := PipeEnd(pl.ps[j], w);
    HoldingUpdate(k.tables[t], fd, None, e);
    assert Holding(t0, e) == 0;
    if t == pl.shell {
      WiredHolding(t0, pl, 0, j, w);
    } else if Some(t) in pl.slots {
      var i :| 0 <= i < pl.n && pl.slots[i] == Some(t);
      WiredHolding(t0, pl, i, j, w);
    }
  }

  lemma HolderHas(k: Kern, pl: Plan, base: seq<Table>, t0: Table, j: nat)
    requires Piping(k, pl, base, t0, j)
    ensures HeldAt(k, pl.slots[j].value, 1, pl.ps[j], true) && HeldAt(k, pl.slots[j + 1].value, 0, pl.ps[j], false)
  {
    hide Counted, Rest;
    assert k.tables[pl.slots[j].value] == Wired(t0, pl, j) && k.tables[pl.slots[j + 1].value] == Wired(t0, pl, j + 1);
  }

  /** When the stage that writes to a pipe has exited no live process can write to it, and yet a reader that
      has taken everything is told to try again, never that the file ended. */
  lemma ExitHidesEof(k: Kern, pl: Plan, base: seq<Table>, t0: Table, j: nat, dead: set<nat>, n: nat)
    requires Piping(k, pl, base, t0, j) && pl.slots[j].value in dead
    ensures !LiveWriter(System(k, dead), pl.ps[j]) && ReadOutcome(k.ends[pl.ps[j]], [], n) == Again
  {
    var s, p := System(k, dead), pl.ps[j];
    HolderHas(k, pl, base, t0, j);
    ReadTells(k, p, [], n);
    if LiveWriter(s, p) {
      var t: nat, fd: nat :| HeldAt(k, t, fd, p, true) && t !in dead;
      OnlyHolder(k, pl, base, t0, j, true, t, fd);
      assert false;
    }
  }

  /** So for two stages on a kernel where nothing else is open: the first exits, and the second never sees
      the end of its input. */
  lemma TwoStageExit(n: nat)
    ensures var slots := [Some(1), Some(2)];
      var pl := PlanOf(FreshKern(), 2, -1, 0, slots);
      var k := InOrder(Start(Piped(FreshKern(), 0, 1), pl), pl).k;
      var s := Exit(System(k, {}), 1);
      && Shape(k) && pl.ps[0] < |k.ends|
      && !LiveWriter(s, pl.ps[0]) && ReadOutcome(s.k.ends[pl.ps[0]], [], n) == Again
  {
    var slots := [Some(1), Some(2)];
    var k0 := FreshKern();
    FreshCanRun(2, 0, slots);
    InOrderWires(k0, 2, -1, 0, slots);
    CanRunReady(k0, 2, -1, 0, slots);
    var pl := PlanOf(k0, 2, -1, 0, slots);
    var k := InOrder(Start(Piped(k0, 0, 1), pl), pl).k;
    hide FreshKern, Piped, InOrder, Start, Outcome, NoneHeld, Counted;
    assert Piping(k, pl, k0.tables, k0.tables[0], 0);
    ExitHidesEof(k, pl, k0.tables, k0.tables[0], 0, {1}, n);
  }

  // ----- slots that are taken again -----

  lemma CleanEntry(t: Table, fd: nat, p: nat, w: bool)
    requires Clean(t) && fd < |t| && p < PIPE_COUNT
    ensures t[fd] != Some(PipeEnd(p, w))
  {
    HoldingUpdate(t, fd, None, PipeEnd(p, w));
  }

  /** Of a shell without pipe ends, a wired stage holds none exactly when it is the only stage. */
  lemma WiredClean(t0: Table, pl: Plan, i: nat)
    requires |t0| == MAX_FD && Sized(pl) && RedirectOk(t0, pl) && i < pl.n && Clean(t0)
    requires forall j | 0 <= j < |pl.ps| :: pl.ps[j] < PIPE_COUNT
    ensures Clean(Wired(t0, pl, i)) <==> pl.n == 1
  {
    var t := Wired(t0, pl, i);
    if i > 0 {
      NotClean(t, 0, pl.ps[i - 1], false);
    } else if pl.n > 1 {
      NotClean(t, 1, pl.ps[0], true);
    } else {
      forall p: nat, w: bool | p < PIPE_COUNT ensures Holding(t, PipeEnd(p, w)) == 0 {
        forall fd | 0 <= fd < |t| ensures t[fd] != Some(PipeEnd(p, w)) {
          CleanEntry(t0, fd, p, w);
          if pl.out >= 0 { CleanEntry(t0, pl.out, p, w); }
        }
        assert Some(PipeEnd(p, w)) !in t;
      }
    }
  }

  /** A stage that has exited before a later `fork`, whose slot that `fork` takes: the counts stay exact
      exactly when there is one stage, so never, since then there is no later `fork`. This is why the
      stages of a plan have distinct slots. */
  lemma ReusedSlot(k: Kern, pl: Plan, t0: Table, i: nat, s: nat)
    requires |t0| == MAX_FD && Sized(pl) && RedirectOk(t0, pl) && i < pl.n && Clean(t0)
    requires Counted(k) && pl.shell < |k.tables| && s < |k.tables| && k.tables[s] == Wired(t0, pl, i)
    requires forall j | 0 <= j < |pl.ps| :: pl.ps[j] < PIPE_COUNT
    requires forall p: nat, w: bool | p < PIPE_COUNT ::
      Holds(k.tables, PipeEnd(p, w)) + Holding(k.tables[pl.shell], PipeEnd(p, w)) <= MAX_REFS
    ensures Counted(Fork(k, pl.shell, s)) <==> pl.n == 1
  {
    hide Wired, Counted, Clean, Holds, Holding;
    WiredClean(t0, pl, i);
    ForkCounted(k, pl.shell, s);
  }
}
