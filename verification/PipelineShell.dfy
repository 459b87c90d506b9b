/** The shell's own loops: opening the pipes, forking and wiring the stages, closing every end. They come
    out as one of the runs of the plan. */
module PipelineShell {
  import opened Common
  import opened FdTables
  import opened FdKernel
  import opened PipelinePlan
  import opened PipelineRun
  import opened PipelineOpen

  const MAX_PIPES: nat := 7

  // ----- the shell's own order -----

  function Next(m: Machine, pl: Plan, who: nat): Machine
    requires Sized(pl)
  {
    if Steady(m) && who < |m.todo| then Step(m, pl, who) else m
  }

  /** Process `who` makes `d` calls. */
  function Steps(m: Machine, pl: Plan, who: nat, d: nat): Machine
    requires Sized(pl)
  {
    if d == 0 then m else Next(Steps(m, pl, who, d - 1), pl, who)
  }

  /** The first `i` stages spawned, each making all its calls before the next is spawned. */
  function Staged(m: Machine, pl: Plan, i: nat): Machine
    requires Sized(pl) && i <= pl.n
  {
    if i == 0 then m
    else
      var m1 := Next(Staged(m, pl, i - 1), pl, pl.shell);
      match pl.slots[i - 1]
      case Some(s) => Steps(m1, pl, s, |StageCalls(pl, i - 1)|)
      case None => m1
  }

  function InOrder(m: Machine, pl: Plan): Machine
    requires Sized(pl)
  {
    Steps(Staged(m, pl, pl.n), pl, pl.shell, |Closing(pl)|)
  }

  predicate NoSpawn(cs: seq<Call>) {
    forall c | c in cs :: !c.Spawn?
  }

  lemma {:induction false} ShutPipesNoSpawn(pl: Plan, m: nat)
    requires Sized(pl) && m < pl.n
    ensures NoSpawn(ShutPipes(pl, m))
  {
    if m > 0 { ShutPipesNoSpawn(pl, m - 1); }
  }

  lemma ClosingNoSpawn(pl: Plan)
    requires Sized(pl)
    ensures NoSpawn(Closing(pl))
  {
    ShutPipesNoSpawn(pl, pl.n - 1);
  }

  lemma StageNoSpawn(pl: Plan, i: nat)
    requires Sized(pl) && i < pl.n
    ensures NoSpawn(StageCalls(pl, i))
  {
    ClosingNoSpawn(pl);
  }

  lemma {:induction false} StepsTodo(m: Machine, pl: Plan, who: nat, d: nat)
    requires Sized(pl) && Steady(m) && who < |m.todo| && d <= |m.todo[who]| && NoSpawn(m.todo[who])
    ensures Steady(Steps(m, pl, who, d)) && Steps(m, pl, who, d).todo == m.todo[who := m.todo[who][d..]]
    decreases d
  {
    if d > 0 {
      StepsTodo(m, pl, who, d - 1);
      var m1 := Steps(m, pl, who, d - 1);
      assert m.todo[who][d - 1..][0] in m.todo[who];
      StepTables(m1, pl, who);
    }
  }

  lemma SpawnsNext(pl: Plan, i: nat)
    requires Sized(pl) && i < pl.n
    ensures var cs := Spawns(pl, i) + Closing(pl); cs != [] && cs[0] == Spawn(i) && cs[1..] == Spawns(pl, i + 1) + Closing(pl)
  {
  }

  /** Nobody but the shell has anything to do between stages. */
  predicate BetweenStages(m: Machine, pl: Plan, i: nat)
    requires Sized(pl) && i <= pl.n
  {
    && Steady(m) && SlotsOk(pl, |m.todo|) && m.todo[pl.shell] == Spawns(pl, i) + Closing(pl)
    && (forall s | 0 <= s < |m.todo| && s != pl.shell :: m.todo[s] == [])
  }

  lemma StagedNext(m: Machine, pl: Plan, i: nat)
    requires Sized(pl) && i < pl.n && BetweenStages(Staged(m, pl, i), pl, i)
    ensures BetweenStages(Staged(m, pl, i + 1), pl, i + 1)
  {
    hide Closing, Spawns, StageCalls, Step;
    var m0 := Staged(m, pl, i);
    SpawnsNext(pl, i);
    SpawnTables(m0, pl, pl.shell, i);
    if pl.slots[i].Some? {
      StageNoSpawn(pl, i);
      StepsTodo(Step(m0, pl, pl.shell), pl, pl.slots[i].value, |StageCalls(pl, i)|);
    }
  }

  lemma {:induction false} StagedBetween(m: Machine, pl: Plan, i: nat)
    requires Sized(pl) && i <= pl.n && BetweenStages(m, pl, 0)
    ensures BetweenStages(Staged(m, pl, i), pl, i)
    decreases i
  {
    if i > 0 {
      StagedBetween(m, pl, i - 1);
      StagedNext(m, pl, i - 1);
    }
  }

  /** The shell's own order is one of the schedules. */
  lemma InOrderIsRun(m: Machine, pl: Plan) returns (schedule: seq<nat>)
    requires Sized(pl) && BetweenStages(m, pl, 0)
    ensures Run(m, pl, schedule) == InOrder(m, pl) && Finished(InOrder(m, pl))
  {
    StagedBetween(m, pl, pl.n);
    ClosingNoSpawn(pl);
    var m1 := Staged(m, pl, pl.n);
    assert m1.todo[pl.shell] == Closing(pl);
    StepsTodo(m1, pl, pl.shell, |Closing(pl)|);
    hide Staged, Closing, Step;
    var a := StagedIsRun(m, pl, pl.n);
    var b := StepsAreRun(m1, pl, pl.shell, |Closing(pl)|);
    RunCat(m, pl, a, b);
    schedule := a + b;
  }

  lemma StagedIsRun(m: Machine, pl: Plan, i: nat) returns (schedule: seq<nat>)
    requires Sized(pl) && i <= pl.n
    ensures Run(m, pl, schedule) == Staged(m, pl, i)
    decreases i
  {
    if i == 0 {
      schedule := [];
    } else {
      var a := StagedIsRun(m, pl, i - 1);
      RunCat(m, pl, a, [pl.shell]);
      schedule := a + [pl.shell];
      RunOne(Staged(m, pl, i - 1), pl, pl.shell);
      hide Run, StageCalls;
      if pl.slots[i - 1].Some? {
        var b := StepsAreRun(Run(m, pl, schedule), pl, pl.slots[i - 1].value, |StageCalls(pl, i - 1)|);
        RunCat(m, pl, schedule, b);
        schedule := schedule + b;
      }
    }
  }

  lemma StepsAreRun(m: Machine, pl: Plan, who: nat, d: nat) returns (schedule: seq<nat>)
    requires Sized(pl)
    ensures Run(m, pl, schedule) == Steps(m, pl, who, d)
    decreases d
  {
    if d == 0 {
      schedule := [];
    } else {
      var a := StepsAreRun(m, pl, who, d - 1);
      RunCat(m, pl, a, [who]);
      RunOne(Run(m, pl, a), pl, who);
      schedule := a + [who];
    }
  }

  lemma RunOne(m: Machine, pl: Plan, who: nat)
    requires Sized(pl)
    ensures Run(m, pl, [who]) == Next(m, pl, who)
  {
    assert [who][1..] == [];
  }

  lemma {:induction false} RunCat(m: Machine, pl: Plan, a: seq<nat>, b: seq<nat>)
    requires Sized(pl)
    ensures Run(m, pl, a + b) == Run(Run(m, pl, a), pl, b)
    decreases |a|
  {
    if a == [] {
      assert a + b == b;
    } else {
      assert (a + b)[1..] == a[1..] + b;
      RunCat(Next(m, pl, a[0]), pl, a[1..], b);
    }
  }

  // ----- the calls in place -----

  /** The kernel is the machine's. */
  ghost predicate Tracks(kern: Kernel, m: Machine)
    reads kern.ends, kern.tables
  {
    kern.Valid() && Steady(m) && m.k == kern.State()
  }

  lemma TracksSteady(kern: Kernel, m: Machine)
    requires Tracks(kern, m)
    ensures Steady(m)
  {
  }

  lemma StepsNone(m: Machine, pl: Plan, who: nat)
    requires Steady(m) && Sized(pl) && who < |m.todo|
    ensures Steps(m, pl, who, 0) == m
  {
  }

  /** `dup2` as the next call of a process. */
  method IssueDup(kern: Kernel, task: nat, a: int, b: int, ghost pl: Plan, ghost m: Machine)
    requires Tracks(kern, m) && Sized(pl) && task < |m.todo| && m.todo[task] != [] && m.todo[task][0] == Dup(a, b)
    modifies kern.ends, kern.tables
    ensures Tracks(kern, Next(m, pl, task))
  {
    kern.SysDup2(task, a, b);
  }

  /** `close` as the next call of a process. */
  method IssueClose(kern: Kernel, task: nat, fd: int, ghost pl: Plan, ghost m: Machine)
    requires Tracks(kern, m) && Sized(pl) && task < |m.todo| && m.todo[task] != [] && m.todo[task][0] == Shut(fd)
    modifies kern.ends, kern.tables
    ensures Tracks(kern, Next(m, pl, task))
  {
    kern.SysClose(task, fd);
  }

  /** `fork` as the next call of a process. */
  method IssueFork(kern: Kernel, task: nat, i: nat, s: nat, ghost pl: Plan, ghost m: Machine)
    requires Tracks(kern, m) && SlotsOk(pl, |m.todo|) && task < |m.todo| && i < pl.n && pl.slots[i] == Some(s)
    requires m.todo[task] != [] && m.todo[task][0] == Spawn(i)
    modifies kern.ends, kern.tables
    ensures Tracks(kern, Next(m, pl, task))
  {
    SpawnTables(m, pl, task, i);
    kern.SysFork(task, s);
  }

  lemma {:induction false} ShutPipesAt(pl: Plan, m: nat, j: nat)
    requires Sized(pl) && m < pl.n && j < m
    ensures |ShutPipes(pl, m)| == 2 * m
    ensures ShutPipes(pl, m)[2 * j] == Shut(pl.rd[j]) && ShutPipes(pl, m)[2 * j + 1] == Shut(pl.wr[j])
    decreases m
  {
    if m == 1 {
    } else if j < m - 1 {
      ShutPipesAt(pl, m - 1, j);
    } else {
      ShutPipesAt(pl, m - 1, 0);
    }
  }

  lemma ClosingAt(pl: Plan, j: nat)
    requires Sized(pl)
    ensures |Closing(pl)| == 2 * (pl.n - 1) + |Redirect(pl)|
    ensures j < pl.n - 1 ==> Closing(pl)[2 * j] == Shut(pl.rd[j]) && Closing(pl)[2 * j + 1] == Shut(pl.wr[j])
    ensures pl.out >= 0 ==> Closing(pl)[2 * (pl.n - 1)] == Shut(pl.out)
  {
    if pl.n > 1 { ShutPipesAt(pl, pl.n - 1, if j < pl.n - 1 then j else 0); }
  }

  /** The call a process is about to make. */
  lemma HeadAfter(m: Machine, pl: Plan, who: nat, d: nat)
    requires Sized(pl) && Steady(m) && who < |m.todo| && d < |m.todo[who]| && NoSpawn(m.todo[who])
    ensures var r := Steps(m, pl, who, d); Steady(r) && |r.todo| == |m.todo| && r.todo[who] != [] && r.todo[who][0] == m.todo[who][d]
    ensures Steps(m, pl, who, d + 1) == Next(Steps(m, pl, who, d), pl, who)
  {
    StepsTodo(m, pl, who, d);
  }

  /** The last calls of a process, from number `d` on: closing both ends of every pipe, and the redirect. */
  method CloseAll(kern: Kernel, rd: array<int>, wr: array<int>, n: nat, out: int, task: nat, ghost d: nat, ghost pl: Plan, ghost m: Machine)
    requires Sized(pl) && pl.n == n && pl.out == out && n - 1 <= MAX_PIPES
    requires rd.Length == wr.Length == MAX_PIPES && rd[..n - 1] == pl.rd && wr[..n - 1] == pl.wr
    requires Steady(m) && task < |m.todo| && NoSpawn(m.todo[task]) && d <= |m.todo[task]| && m.todo[task][d..] == Closing(pl)
    requires Tracks(kern, Steps(m, pl, task, d))
    modifies kern.ends, kern.tables
    ensures Tracks(kern, Steps(m, pl, task, |m.todo[task]|))
  {
    hide Steps, Closing, NoSpawn, Tracks, Next;
    ClosingAt(pl, 0);
    for j := 0 to n - 1
      modifies kern.ends, kern.tables
      invariant Tracks(kern, Steps(m, pl, task, d + 2 * j))
    {
      ClosingAt(pl, j);
      HeadAfter(m, pl, task, d + 2 * j);
      IssueClose(kern, task, rd[j], pl, Steps(m, pl, task, d + 2 * j));
      HeadAfter(m, pl, task, d + 2 * j + 1);
      IssueClose(kern, task, wr[j], pl, Steps(m, pl, task, d + 2 * j + 1));
    }
    if out >= 0 {
      HeadAfter(m, pl, task, d + 2 * (n - 1));
      IssueClose(kern, task, out, pl, Steps(m, pl, task, d + 2 * (n - 1)));
    }
  }

  lemma StageCallsSplit(pl: Plan, i: nat)
    requires Sized(pl) && i < pl.n
    ensures var cs, a, b := StageCalls(pl, i), |Inlet(pl, i)|, |Outlet(pl, i)|;
      && |cs| == a + b + |Closing(pl)| && cs[a + b..] == Closing(pl)
      && (i > 0 ==> a == 1 && cs[0] == Dup(pl.rd[i - 1], 0))
      && (i < pl.n - 1 ==> b == 1 && cs[a] == Dup(pl.wr[i], 1))
      && (i == pl.n - 1 && pl.out >= 0 ==> b == 1 && cs[a] == Dup(pl.out, 1))
  {
  }

  /** The child's standard input and output. */
  method WireEnds(kern: Kernel, rd: array<int>, wr: array<int>, n: nat, out: int, i: nat, task: nat, ghost pl: Plan, ghost m: Machine)
    requires Sized(pl) && pl.n == n && pl.out == out && n - 1 <= MAX_PIPES && i < n
    requires rd.Length == wr.Length == MAX_PIPES && rd[..n - 1] == pl.rd && wr[..n - 1] == pl.wr
    requires Tracks(kern, m) && task < |m.todo| && m.todo[task] == StageCalls(pl, i)
    modifies kern.ends, kern.tables
    ensures Tracks(kern, Steps(m, pl, task, |Inlet(pl, i)| + |Outlet(pl, i)|))
  {
    hide Steps, Closing, StageCalls, NoSpawn, Tracks, Next, Steady;
    TracksSteady(kern, m);
    StepsNone(m, pl, task);
    StageNoSpawn(pl, i);
    StageCallsSplit(pl, i);
    if i > 0 {
      HeadAfter(m, pl, task, 0);
      IssueDup(kern, task, rd[i - 1], 0, pl, m);
    }
    ghost var d := |Inlet(pl, i)|;
    if i < n - 1 {
      HeadAfter(m, pl, task, d);
      IssueDup(kern, task, wr[i], 1, pl, Steps(m, pl, task, d));
    } else if out >= 0 {
      HeadAfter(m, pl, task, d);
      IssueDup(kern, task, out, 1, pl, Steps(m, pl, task, d));
    }
  }

  /** What the child does after `fork`: wire standard input and output, then close everything. */
  method WireStage(kern: Kernel, rd: array<int>, wr: array<int>, n: nat, out: int, i: nat, task: nat, ghost pl: Plan, ghost m: Machine)
    requires Sized(pl) && pl.n == n && pl.out == out && n - 1 <= MAX_PIPES && i < n
    requires rd.Length == wr.Length == MAX_PIPES && rd[..n - 1] == pl.rd && wr[..n - 1] == pl.wr
    requires Tracks(kern, m) && task < |m.todo| && m.todo[task] == StageCalls(pl, i)
    modifies kern.ends, kern.tables
    ensures Tracks(kern, Steps(m, pl, task, |StageCalls(pl, i)|))
  {
    hide Steps, Closing, StageCalls, NoSpawn, Tracks, Next, Inlet, Outlet, Steady;
    TracksSteady(kern, m);
    StageNoSpawn(pl, i);
    StageCallsSplit(pl, i);
    WireEnds(kern, rd, wr, n, out, i, task, pl, m);
    CloseAll(kern, rd, wr, n, out, task, |Inlet(pl, i)| + |Outlet(pl, i)|, pl, m);
  }

  /** The kernel is `k` after `i` calls of `pipe`. */
  ghost predicate Opening(kern: Kernel, k: Kern, shell: nat, i: nat)
    reads kern.ends, kern.tables
  {
    kern.Valid() && Shape(k) && |k.tables| == kern.tables.Length > shell && kern.State() == Piped(k, shell, i)
  }

  lemma {:induction false} FdsAre(k: Kern, t: nat, rd: seq<int>, wr: seq<int>)
    requires Shape(k) && t < |k.tables| && |rd| == |wr|
    requires forall j | 0 <= j < |rd| :: rd[j] == ReadFd(k, t, j) && wr[j] == WriteFd(k, t, j)
    ensures rd == ReadFds(k, t, |rd|) && wr == WriteFds(k, t, |wr|)
    decreases |rd|
  {
    hide ReadFd, WriteFd;
    if rd != [] {
      var n := |rd| - 1;
      FdsAre(k, t, rd[..n], wr[..n]);
      assert rd == rd[..n] + [rd[n]] && wr == wr[..n] + [wr[n]];
    }
  }

  /** One more pipe; the descriptors stay -1 when there is none. */
  method OpenNext(kern: Kernel, shell: nat, ghost k: Kern, ghost i: nat) returns (r: int, w: int)
    requires Shape(k) && shell < |k.tables| && Opening(kern, k, shell, i)
    modifies kern.ends, kern.tables
    ensures Opening(kern, k, shell, i + 1) && r == ReadFd(k, shell, i) && w == WriteFd(k, shell, i)
  {
    hide Pipe;
    r, w := -1, -1;
    var got := kern.SysPipe(shell);
    if got.Some? { r, w := got.value.0, got.value.1; }
  }

  lemma NothingOpened(kern: Kernel, shell: nat)
    requires kern.Valid() && shell < kern.tables.Length
    ensures Shape(kern.State()) && Opening(kern, kern.State(), shell, 0)
  {
  }

  /** The pipes of the pipeline. */
  method OpenPipes(kern: Kernel, n: nat, shell: nat) returns (rd: array<int>, wr: array<int>)
    requires kern.Valid() && 1 <= n <= MAX_PIPES + 1 && shell < kern.tables.Length
    modifies kern.ends, kern.tables
    ensures Opening(kern, old(kern.State()), shell, n - 1)
    ensures rd.Length == wr.Length == MAX_PIPES && fresh(rd) && fresh(wr)
    ensures rd[..n - 1] == ReadFds(old(kern.State()), shell, n - 1) && wr[..n - 1] == WriteFds(old(kern.State()), shell, n - 1)
  {
    hide Opening, ReadFds, WriteFds, ReadFd, WriteFd, Shape;
    ghost var k := kern.State();
    NothingOpened(kern, shell);
    rd := new int[MAX_PIPES](_ => -1);
    wr := new int[MAX_PIPES](_ => -1);
    FillPipes(kern, rd, wr, n, shell, k);
    FdsAre(k, shell, rd[..n - 1], wr[..n - 1]);
  }

  /** The loop over the pipes. */
  method FillPipes(kern: Kernel, rd: array<int>, wr: array<int>, n: nat, shell: nat, ghost k: Kern)
    requires 1 <= n <= MAX_PIPES + 1 && rd.Length == wr.Length == MAX_PIPES && rd != wr
    requires rd as object != kern.ends && rd as object != kern.tables && wr as object != kern.ends && wr as object != kern.tables
    requires Shape(k) && shell < |k.tables| && Opening(kern, k, shell, 0)
    modifies kern.ends, kern.tables, rd, wr
    ensures Opening(kern, k, shell, n - 1)
    ensures forall j | 0 <= j < n - 1 :: rd[j] == ReadFd(k, shell, j) && wr[j] == WriteFd(k, shell, j)
  {
    hide Opening, ReadFd, WriteFd, Shape;
    for i := 0 to n - 1
      invariant Opening(kern, k, shell, i)
      invariant forall j | 0 <= j < i :: rd[j] == ReadFd(k, shell, j) && wr[j] == WriteFd(k, shell, j)
    {
      var r, w := OpenNext(kern, shell, k, i);
      rd[i] := r;
      wr[i] := w;
    }
  }

  lemma StartBetween(k: Kern, pl: Plan)
    requires Shape(k) && SlotsOk(pl, |k.tables|)
    ensures BetweenStages(Start(k, pl), pl, 0)
  {
  }

  lemma OpeningTracks(kern: Kernel, k: Kern, n: nat, pl: Plan)
    requires 1 <= n && Opening(kern, k, pl.shell, n - 1) && SlotsOk(pl, |k.tables|)
    ensures Shape(k) && pl.shell < |k.tables|
    ensures var m := Start(Piped(k, pl.shell, n - 1), pl); Tracks(kern, m) && BetweenStages(m, pl, 0)
  {
    StartBetween(Piped(k, pl.shell, n - 1), pl);
  }

  /** The shell's order from a pipeline that is ready. */
  lemma ReadyWires(m: Machine, pl: Plan, base: seq<Table>, t0: Table, t: Table)
    requires Ready(m, pl, base, t0, t) && BetweenStages(m, pl, 0)
    ensures Sized(pl) && |t0| == MAX_FD && RedirectOk(t0, pl)
    ensures var r := InOrder(m, pl); Counted(r.k) && Outcome(r.k.tables, pl, base, t0) && WiredOnce(r.k, pl)
  {
    hide InOrder, BetweenStages, Outcome, Run, WiredOnce, Opened, CleanSlots, NoneHeld, Counted;
    var schedule := InOrderIsRun(m, pl);
    EveryScheduleWires(m, pl, base, t0, t, schedule);
  }

  /** The shell's order from a kernel with room for the pipeline. */
  lemma InOrderWires(k: Kern, n: nat, out: int, shell: nat, slots: seq<Option<nat>>)
    requires CanRun(k, n, out, shell, slots)
    ensures var pl := PlanOf(k, n, out, shell, slots);
      var r := InOrder(Start(Piped(k, shell, n - 1), pl), pl);
      RedirectOk(k.tables[shell], pl) && Counted(r.k) && Outcome(r.k.tables, pl, k.tables, k.tables[shell]) && WiredOnce(r.k, pl)
  {
    assert Shape(k);
    hide Counted, Piped, InOrder, PlanOf, Start, BetweenStages, Ready, Outcome, WiredOnce, Capacity, CleanSlots, SlotsOk, ErrorsElsewhere, RedirectOk;
    var pl, k1 := PlanOf(k, n, out, shell, slots), Piped(k, shell, n - 1);
    CanRunReady(k, n, out, shell, slots);
    StartBetween(k1, pl);
    ReadyWires(Start(k1, pl), pl, k.tables, k.tables[shell], k1.tables[shell]);
  }

  /** `run_pipeline`. The calls of a stage happen here right after the `fork` that starts it; every other
      order gives the same tables. `slots` tells which process each `fork` gives, if any. */
  method RunPipeline(kern: Kernel, n: nat, out: int, shell: nat, slots: seq<Option<nat>>)
    requires kern.Valid() && shell < kern.tables.Length && |slots| == n <= MAX_PIPES + 1
    requires n > 0 ==> SlotsOk(PlanOf(kern.State(), n, out, shell, slots), kern.tables.Length)
    modifies kern.ends, kern.tables
    ensures n == 0 ==> kern.State() == old(kern.State())
    ensures n > 0 ==>
      var pl := PlanOf(old(kern.State()), n, out, shell, slots);
      Tracks(kern, InOrder(Start(Piped(old(kern.State()), shell, n - 1), pl), pl))
    ensures CanRun(old(kern.State()), n, out, shell, slots) ==>
      var k, pl := old(kern.State()), PlanOf(old(kern.State()), n, out, shell, slots);
      Counted(kern.State()) && Outcome(kern.tables[..], pl, k.tables, k.tables[shell]) && WiredOnce(kern.State(), pl)
  {
    if n == 0 { return; }
    ghost var k := kern.State();
    ghost var pl := PlanOf(k, n, out, shell, slots);
    var rd, wr := OpenPipes(kern, n, shell);
    ghost var m := Start(Piped(k, shell, n - 1), pl);
    OpeningTracks(kern, k, n, pl);
    assert rd[..n - 1] == pl.rd && wr[..n - 1] == pl.wr;
    RunStages(kern, rd, wr, n, out, shell, slots, pl, m);
    if CanRun(k, n, out, shell, slots) { InOrderWires(k, n, out, shell, slots); }
  }

  /** The loop over the stages, and the shell's closing. */
  method RunStages(kern: Kernel, rd: array<int>, wr: array<int>, n: nat, out: int, shell: nat, slots: seq<Option<nat>>, ghost pl: Plan, ghost m: Machine)
    requires Sized(pl) && pl.n == n && pl.out == out && pl.shell == shell && n - 1 <= MAX_PIPES && pl.slots == slots
    requires rd.Length == wr.Length == MAX_PIPES && rd[..n - 1] == pl.rd && wr[..n - 1] == pl.wr
    requires BetweenStages(m, pl, 0) && Tracks(kern, m)
    modifies kern.ends, kern.tables
    ensures Tracks(kern, InOrder(m, pl))
  {
    hide Tracks;
    for i := 0 to n
      modifies kern.ends, kern.tables
      invariant Tracks(kern, Staged(m, pl, i))
    {
      StagedBetween(m, pl, i);
      RunStage(kern, rd, wr, n, out, i, shell, slots[i], pl, m);
    }
    StagedBetween(m, pl, n);
    ClosingNoSpawn(pl);
    ghost var m1 := Staged(m, pl, n);
    assert m1.todo[shell] == Closing(pl) && m1.todo[shell][0..] == Closing(pl) && Steps(m1, pl, shell, 0) == m1;
    CloseAll(kern, rd, wr, n, out, shell, 0, pl, m1);
  }

  /** One round of the loop over the stages. */
  method RunStage(kern: Kernel, rd: array<int>, wr: array<int>, n: nat, out: int, i: nat, shell: nat, slot: Option<nat>, ghost pl: Plan, ghost m: Machine)
    requires Sized(pl) && pl.n == n && pl.out == out && pl.shell == shell && n - 1 <= MAX_PIPES && i < n && pl.slots[i] == slot
    requires rd.Length == wr.Length == MAX_PIPES && rd[..n - 1] == pl.rd && wr[..n - 1] == pl.wr
    requires BetweenStages(Staged(m, pl, i), pl, i) && Tracks(kern, Staged(m, pl, i))
    modifies kern.ends, kern.tables
    ensures Tracks(kern, Staged(m, pl, i + 1))
  {
    ghost var m0 := Staged(m, pl, i);
    SpawnsNext(pl, i);
    SpawnTables(m0, pl, shell, i);
    ghost var m1 := Next(m0, pl, shell);
    if slot.Some? {
      IssueFork(kern, shell, i, slot.value, pl, m0);
      hide Tracks, Step;
      WireStage(kern, rd, wr, n, out, i, slot.value, pl, m1);
    }
  }
}
