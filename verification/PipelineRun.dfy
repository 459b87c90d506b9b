/** The shell and the stages of a pipeline as processes whose calls interleave in any order. */
module PipelineRun {
  import opened Common
  import opened FdTables
  import opened PipelinePlan

  /** The kernel and the calls each process still has to make. */
  datatype Machine = Machine(k: Kern, todo: seq<seq<Call>>)

  function Spawns(pl: Plan, j: nat): seq<Call>
    requires j <= pl.n
    decreases pl.n - j
  {
    if j == pl.n then [] else [Spawn(j)] + Spawns(pl, j + 1)
  }

  predicate Steady(m: Machine) {
    Shape(m.k) && |m.k.tables| == |m.todo|
  }

  /** One call of process `who`. */
  function Step(m: Machine, pl: Plan, who: nat): (r: Machine)
    requires Steady(m) && Sized(pl) && who < |m.todo|
    ensures |r.todo| == |m.todo|
  {
    if m.todo[who] == [] then m
    else
      var todo := m.todo[who := m.todo[who][1..]];
      match m.todo[who][0]
      case Dup(a, b) => Machine(Dup2(m.k, who, a, b), todo)
      case Shut(fd) => Machine(Close(m.k, who, fd), todo)
      case Spawn(i) =>
        if i < pl.n && pl.slots[i].Some? && pl.slots[i].value < |m.todo| then
          var s := pl.slots[i].value;
          Machine(Fork(m.k, who, s), todo[s := StageCalls(pl, i)])
        else m.(todo := todo)
  }

  // ----- where the processes have got to -----

  /** Stages spawned, closing calls the shell has made, and calls each stage has made. */
  datatype Progress = Progress(spawned: nat, closed: nat, done: seq<nat>)

  predicate PipeFds(pl: Plan)
    requires Sized(pl)
  {
    && (forall j | 0 <= j < pl.n - 1 :: pl.rd[j] >= 3 && pl.wr[j] >= 3)
    && (pl.out < 0 || pl.out >= 3)
  }

  /** The slots of the stages are processes of their own. */
  predicate SlotsOk(pl: Plan, tasks: nat) {
    && Sized(pl) && pl.shell < tasks <= MAX_TASKS
    && (forall i | 0 <= i < pl.n && pl.slots[i].Some? :: pl.slots[i].value < tasks && pl.slots[i].value != pl.shell)
    && (forall i, j | 0 <= i < j < pl.n && pl.slots[i].Some? :: pl.slots[i] != pl.slots[j])
  }

  /** Also, the descriptors leave the standard three alone. */
  predicate Planned(pl: Plan, tasks: nat) {
    SlotsOk(pl, tasks) && PipeFds(pl)
  }

  /** A process that has made the first `d` of its calls `cs`, starting with table `t`. */
  predicate TaskAt(m: Machine, s: nat, t: Table, cs: seq<Call>, d: nat)
    requires Steady(m) && s < |m.todo| && |t| == MAX_FD
  {
    d <= |cs| && m.k.tables[s] == After(t, cs[..d]) && m.todo[s] == cs[d..]
  }

  predicate Idle(m: Machine, s: nat, base: seq<Table>)
    requires Steady(m) && s < |m.todo| == |base|
  {
    m.k.tables[s] == base[s] && m.todo[s] == []
  }

  predicate StageAt(m: Machine, pl: Plan, base: seq<Table>, t: Table, pr: Progress, i: nat)
    requires Steady(m) && Planned(pl, |m.todo|) && |m.todo| == |base| && |t| == MAX_FD && |pr.done| == pl.n && i < pl.n
  {
    pl.slots[i].Some? ==>
      if i < pr.spawned then TaskAt(m, pl.slots[i].value, t, StageCalls(pl, i), pr.done[i])
      else Idle(m, pl.slots[i].value, base)
  }

  predicate ShellAt(m: Machine, pl: Plan, t: Table, pr: Progress)
    requires Steady(m) && Planned(pl, |m.todo|) && |t| == MAX_FD
  {
    && pr.spawned <= pl.n && (pr.spawned < pl.n ==> pr.closed == 0) && pr.closed <= |Closing(pl)|
    && m.k.tables[pl.shell] == After(t, Closing(pl)[..pr.closed])
    && m.todo[pl.shell] == Spawns(pl, pr.spawned) + Closing(pl)[pr.closed..]
  }

  /** Every process's table is what its own calls so far made of the table it started with. `base` holds the
      tables of the processes that are not part of the pipeline. */
  ghost predicate At(m: Machine, pl: Plan, base: seq<Table>, t: Table, pr: Progress) {
    && Steady(m) && Planned(pl, |m.todo|) && |m.todo| == |base| && |t| == MAX_FD && |pr.done| == pl.n
    && ShellAt(m, pl, t, pr)
    && (forall i | 0 <= i < pl.n :: StageAt(m, pl, base, t, pr, i))
    && (forall s | 0 <= s < |base| && s != pl.shell && Some(s) !in pl.slots :: Idle(m, s, base))
  }

  lemma {:induction false} AfterSnoc(t: Table, cs: seq<Call>, d: nat)
    requires |t| == MAX_FD && d < |cs|
    ensures After(t, cs[..d + 1]) == Effect(After(t, cs[..d]), cs[d])
  {
    assert cs[..d + 1] == cs[..d] + [cs[d]];
    AfterCat(t, cs[..d], [cs[d]]);
  }

  /** A call other than a spawn changes the table of the process that makes it, as `Effect` says, and no other. */
  lemma StepTables(m: Machine, pl: Plan, who: nat)
    requires Steady(m) && Sized(pl) && who < |m.todo| && m.todo[who] != [] && !m.todo[who][0].Spawn?
    ensures Shape(Step(m, pl, who).k)
    ensures Step(m, pl, who).k.tables == m.k.tables[who := Effect(m.k.tables[who], m.todo[who][0])]
    ensures Step(m, pl, who).todo == m.todo[who := m.todo[who][1..]]
  {
  }

  /** A process that makes its next call. */
  lemma TaskStep(m: Machine, pl: Plan, s: nat, t: Table, cs: seq<Call>, d: nat)
    requires Steady(m) && Sized(pl) && s < |m.todo| && |t| == MAX_FD && TaskAt(m, s, t, cs, d) && d < |cs| && !cs[d].Spawn?
    ensures Steady(Step(m, pl, s)) && TaskAt(Step(m, pl, s), s, t, cs, d + 1)
  {
    StepTables(m, pl, s);
    AfterSnoc(t, cs, d);
    assert cs[d..][1..] == cs[d + 1..];
  }

  lemma StageStep(m: Machine, pl: Plan, base: seq<Table>, t: Table, pr: Progress, i: nat)
    requires At(m, pl, base, t, pr) && i < pr.spawned && pl.slots[i].Some? && m.todo[pl.slots[i].value] != []
    ensures At(Step(m, pl, pl.slots[i].value), pl, base, t, pr.(done := pr.done[i := pr.done[i] + 1]))
  {
    hide After, StageCalls, Closing, TaskAt;
    var s := pl.slots[i].value;
    var r := Step(m, pl, s);
    assert StageAt(m, pl, base, t, pr, i);
    StageNext(m, pl, s, t, i, pr.done[i]);
    StepTables(m, pl, s);
    hide Step;
    var pr1 := pr.(done := pr.done[i := pr.done[i] + 1]);
    forall j | 0 <= j < pl.n ensures StageAt(r, pl, base, t, pr1, j) {
      assert StageAt(m, pl, base, t, pr, j);
      if j != i && pl.slots[j].Some? && j < pr.spawned { TaskFrame(m, r, pl.slots[j].value, t, StageCalls(pl, j), pr.done[j]); }
    }
  }

  lemma TaskFrame(m: Machine, r: Machine, s: nat, t: Table, cs: seq<Call>, d: nat)
    requires Steady(m) && Steady(r) && s < |m.todo| == |r.todo| && |t| == MAX_FD && TaskAt(m, s, t, cs, d)
    requires r.k.tables[s] == m.k.tables[s] && r.todo[s] == m.todo[s]
    ensures TaskAt(r, s, t, cs, d)
  {
  }

  lemma StageNext(m: Machine, pl: Plan, s: nat, t: Table, i: nat, d: nat)
    requires Steady(m) && Planned(pl, |m.todo|) && s < |m.todo| && |t| == MAX_FD && i < pl.n
    requires TaskAt(m, s, t, StageCalls(pl, i), d) && m.todo[s] != []
    ensures !m.todo[s][0].Spawn? && Steady(Step(m, pl, s)) && TaskAt(Step(m, pl, s), s, t, StageCalls(pl, i), d + 1)
  {
    StageTame(pl, i);
    assert StageCalls(pl, i)[d] in StageCalls(pl, i);
    TaskStep(m, pl, s, t, StageCalls(pl, i), d);
  }

  lemma ShellCloses(m: Machine, pl: Plan, base: seq<Table>, t: Table, pr: Progress)
    requires At(m, pl, base, t, pr) && pr.spawned == pl.n && m.todo[pl.shell] != []
    ensures !m.todo[pl.shell][0].Spawn?
    ensures At(Step(m, pl, pl.shell), pl, base, t, pr.(closed := pr.closed + 1))
  {
    hide After, StageCalls, Closing;
    ClosingTame(pl);
    assert Spawns(pl, pl.n) + Closing(pl)[pr.closed..] == Closing(pl)[pr.closed..];
    assert Closing(pl)[pr.closed] in Closing(pl);
    TaskStep(m, pl, pl.shell, t, Closing(pl), pr.closed);
    StepTables(m, pl, pl.shell);
    var r := Step(m, pl, pl.shell);
    hide Step;
    assert Spawns(pl, pl.n) + Closing(pl)[pr.closed + 1..] == Closing(pl)[pr.closed + 1..];
    assert ShellAt(r, pl, t, pr.(closed := pr.closed + 1));
    OthersKeep(m, r, pl, base, t, pr, pr.(closed := pr.closed + 1));
  }

  /** Stages whose process and progress are the same. */
  lemma OthersKeep(m: Machine, r: Machine, pl: Plan, base: seq<Table>, t: Table, pr: Progress, pr1: Progress)
    requires At(m, pl, base, t, pr) && Steady(r) && |r.todo| == |m.todo| && |pr1.done| == pl.n
    requires forall i | 0 <= i < pl.n && pl.slots[i].Some? ::
      r.k.tables[pl.slots[i].value] == m.k.tables[pl.slots[i].value] && r.todo[pl.slots[i].value] == m.todo[pl.slots[i].value]
      && (i < pr.spawned <==> i < pr1.spawned) && pr.done[i] == pr1.done[i]
    ensures forall i | 0 <= i < pl.n :: StageAt(r, pl, base, t, pr1, i)
  {
    forall i | 0 <= i < pl.n ensures StageAt(r, pl, base, t, pr1, i) {
      assert StageAt(m, pl, base, t, pr, i);
    }
  }

  function Spawned(pr: Progress): Progress
    requires pr.spawned < |pr.done|
  {
    pr.(spawned := pr.spawned + 1, done := pr.done[pr.spawned := 0])
  }

  lemma SpawnTables(m: Machine, pl: Plan, who: nat, j: nat)
    requires Steady(m) && SlotsOk(pl, |m.todo|) && who < |m.todo| && m.todo[who] != [] && m.todo[who][0] == Spawn(j) && j < pl.n
    ensures Steady(Step(m, pl, who))
    ensures var r, todo := Step(m, pl, who), m.todo[who := m.todo[who][1..]];
      match pl.slots[j]
      case Some(s) => r.k.tables == m.k.tables[s := m.k.tables[who]] && r.todo == todo[s := StageCalls(pl, j)]
      case None => r.k.tables == m.k.tables && r.todo == todo
  {
  }

  /** Stage `i` after the shell has spawned stage `pr.spawned`. */
  lemma StageAfterSpawn(m: Machine, r: Machine, pl: Plan, base: seq<Table>, t: Table, pr: Progress, i: nat)
    requires At(m, pl, base, t, pr) && pr.spawned < pl.n && i < pl.n && m.todo[pl.shell] != [] && m.k.tables[pl.shell] == t
    requires Steady(r) && |r.todo| == |m.todo|
    requires var todo := m.todo[pl.shell := m.todo[pl.shell][1..]];
      match pl.slots[pr.spawned]
      case Some(s) => r.k.tables == m.k.tables[s := t] && r.todo == todo[s := StageCalls(pl, pr.spawned)]
      case None => r.k.tables == m.k.tables && r.todo == todo
    ensures StageAt(r, pl, base, t, Spawned(pr), i)
  {
    hide StageCalls, Closing, Spawns, TaskAt, After;
    assert StageAt(m, pl, base, t, pr, i);
    if pl.slots[i].Some? {
      var s := pl.slots[i].value;
      if i == pr.spawned {
        TaskStarts(r, s, t, StageCalls(pl, i));
      } else if i < pr.spawned {
        TaskFrame(m, r, s, t, StageCalls(pl, i), pr.done[i]);
      }
    }
  }

  lemma TaskStarts(m: Machine, s: nat, t: Table, cs: seq<Call>)
    requires Steady(m) && s < |m.todo| && |t| == MAX_FD && m.k.tables[s] == t && m.todo[s] == cs
    ensures TaskAt(m, s, t, cs, 0)
  {
    assert cs[..0] == [] && cs[0..] == cs;
  }

  lemma ShellSpawns(m: Machine, pl: Plan, base: seq<Table>, t: Table, pr: Progress)
    requires At(m, pl, base, t, pr) && pr.spawned < pl.n
    ensures m.todo[pl.shell] != [] && m.todo[pl.shell][0] == Spawn(pr.spawned) && m.k.tables[pl.shell] == t
    ensures At(Step(m, pl, pl.shell), pl, base, t, Spawned(pr))
  {
    var j := pr.spawned;
    var r := Step(m, pl, pl.shell);
    AfterOption(t, []);
    assert Closing(pl)[..0] == [];
    assert m.todo[pl.shell][1..] == Spawns(pl, j + 1) + Closing(pl)[0..];
    SpawnTables(m, pl, pl.shell, j);
    hide Step, After, StageCalls, Closing, Spawns, StageAt;
    assert ShellAt(r, pl, t, Spawned(pr));
    forall i | 0 <= i < pl.n ensures StageAt(r, pl, base, t, Spawned(pr), i) {
      StageAfterSpawn(m, r, pl, base, t, pr, i);
    }
  }

  // ----- the counts -----

  /** No process has a pipe as standard error, so no counter can saturate. */
  predicate ErrorsElsewhere(tables: seq<Table>) {
    forall s | 0 <= s < |tables| :: |tables[s]| == MAX_FD && (tables[s][2].Some? ==> !tables[s][2].value.PipeEnd?)
  }

  lemma {:induction false} MultiplicityBound<T>(s: seq<T>, x: T)
    ensures multiset(s)[x] <= |s|
    decreases |s|
  {
    if s != [] {
      MultiplicityBound(s[1..], x);
      assert s == [s[0]] + s[1..];
    }
  }

  lemma {:induction false} HoldsBound(tables: seq<Table>, e: Entry)
    requires ErrorsElsewhere(tables) && e.PipeEnd?
    ensures Holds(tables, e) <= 31 * |tables|
    decreases |tables|
  {
    if tables != [] {
      var n := |tables| - 1;
      HoldsBound(tables[..n], e);
      var t := tables[n];
      MultiplicityBound(t[..2], Some(e));
      MultiplicityBound(t[3..], Some(e));
      assert t == t[..2] + [t[2]] + t[3..];
    }
  }

  lemma RoomForAll(k: Kern, e: Option<Entry>)
    requires ErrorsElsewhere(k.tables) && |k.tables| <= MAX_TASKS
    ensures Room(k, e)
  {
    if e.Some? && e.value.PipeEnd? { HoldsBound(k.tables, e.value); }
  }

  lemma TameCounted(m: Machine, pl: Plan, who: nat)
    requires Steady(m) && Sized(pl) && who < |m.todo| <= MAX_TASKS && m.todo[who] != [] && Tame(m.todo[who][0])
    requires Counted(m.k) && ErrorsElsewhere(m.k.tables)
    ensures Counted(Step(m, pl, who).k) && ErrorsElsewhere(Step(m, pl, who).k.tables)
  {
    StepTables(m, pl, who);
    hide Counted;
    match m.todo[who][0]
    case Dup(a, b) =>
      if IsFd(a) { RoomForAll(m.k, m.k.tables[who][a]); }
      Dup2Counted(m.k, who, a, b);
    case Shut(fd) => CloseCounted(m.k, who, fd);
  }

  lemma ForkStepCounted(m: Machine, pl: Plan, who: nat, j: nat)
    requires Steady(m) && Planned(pl, |m.todo|) && who < |m.todo| && m.todo[who] != [] && m.todo[who][0] == Spawn(j) && j < pl.n
    requires Counted(m.k) && ErrorsElsewhere(m.k.tables) && (pl.slots[j].Some? ==> Clean(m.k.tables[pl.slots[j].value]))
    ensures Counted(Step(m, pl, who).k) && ErrorsElsewhere(Step(m, pl, who).k.tables)
  {
    if pl.slots[j].Some? {
      var s := pl.slots[j].value;
      var table := m.k.tables[who];
      forall p: nat, w: bool | p < PIPE_COUNT
        ensures Holds(m.k.tables, PipeEnd(p, w)) + Holding(table, PipeEnd(p, w)) <= MAX_REFS
      {
        HoldsUpdate(m.k.tables, s, table, PipeEnd(p, w));
        HoldsBound(m.k.tables[s := table], PipeEnd(p, w));
      }
      hide Holds, Holding, Counted, Clean;
      ForkCounted(m.k, who, s);
    }
  }

  // ----- the calls of a pipeline replace only standard input and output -----

  predicate Tame(c: Call) {
    match c
    case Dup(_, b) => b == 0 || b == 1
    case Shut(fd) => fd >= 3
    case Spawn(_) => false
  }

  lemma {:induction false} ShutPipesTame(pl: Plan, m: nat)
    requires Sized(pl) && PipeFds(pl) && m < pl.n
    ensures forall c | c in ShutPipes(pl, m) :: Tame(c) && c.Shut?
  {
    if m > 0 { ShutPipesTame(pl, m - 1); }
  }

  lemma ClosingTame(pl: Plan)
    requires Sized(pl) && PipeFds(pl)
    ensures forall c | c in Closing(pl) :: Tame(c) && c.Shut?
  {
    ShutPipesTame(pl, pl.n - 1);
  }

  lemma StageTame(pl: Plan, i: nat)
    requires Sized(pl) && PipeFds(pl) && i < pl.n
    ensures forall c | c in StageCalls(pl, i) :: Tame(c)
  {
    ClosingTame(pl);
  }

  // ----- every schedule -----

  ghost predicate CleanSlots(pl: Plan, base: seq<Table>) {
    forall i | 0 <= i < |pl.slots| && pl.slots[i].Some? :: pl.slots[i].value < |base| && Clean(base[pl.slots[i].value])
  }

  ghost predicate Sound(m: Machine, pl: Plan, base: seq<Table>, t: Table) {
    && Counted(m.k) && ErrorsElsewhere(m.k.tables)
    && exists pr :: At(m, pl, base, t, pr)
  }

  lemma StepSound(m: Machine, pl: Plan, base: seq<Table>, t: Table, who: nat)
    requires Sound(m, pl, base, t) && CleanSlots(pl, base) && who < |m.todo|
    ensures Steady(m) && Sized(pl) && Sound(Step(m, pl, who), pl, base, t)
  {
    hide Counted, Clean, ErrorsElsewhere;
    var pr :| At(m, pl, base, t, pr);
    if m.todo[who] == [] {
    } else if who == pl.shell {
      ShellSound(m, pl, base, t, pr);
    } else {
      assert Some(who) in pl.slots;
      var i :| 0 <= i < pl.n && pl.slots[i] == Some(who);
      assert StageAt(m, pl, base, t, pr, i);
      StageTame(pl, i);
      assert StageCalls(pl, i)[pr.done[i]] in StageCalls(pl, i);
      hide Step, After, StageCalls, Closing, Spawns;
      StageStep(m, pl, base, t, pr, i);
      TameCounted(m, pl, who);
    }
  }

  lemma ShellSound(m: Machine, pl: Plan, base: seq<Table>, t: Table, pr: Progress)
    requires At(m, pl, base, t, pr) && Counted(m.k) && ErrorsElsewhere(m.k.tables) && CleanSlots(pl, base)
    requires m.todo[pl.shell] != []
    ensures Sound(Step(m, pl, pl.shell), pl, base, t)
  {
    hide Step, After, StageCalls, Counted, Clean, ErrorsElsewhere;
    if pr.spawned < pl.n {
      ShellSpawns(m, pl, base, t, pr);
      assert StageAt(m, pl, base, t, pr, pr.spawned);
      ForkStepCounted(m, pl, pl.shell, pr.spawned);
    } else {
      ShellCloses(m, pl, base, t, pr);
      ClosingTame(pl);
      assert m.todo[pl.shell] == Closing(pl)[pr.closed..];
      assert Closing(pl)[pr.closed] in Closing(pl);
      TameCounted(m, pl, pl.shell);
    }
  }

  /** The processes named by a schedule make their next calls in turn. */
  function Run(m: Machine, pl: Plan, schedule: seq<nat>): Machine
    requires Sized(pl)
    decreases |schedule|
  {
    if schedule == [] then m
    else if Steady(m) && schedule[0] < |m.todo| then Run(Step(m, pl, schedule[0]), pl, schedule[1..])
    else Run(m, pl, schedule[1..])
  }

  lemma {:induction false} RunSound(m: Machine, pl: Plan, base: seq<Table>, t: Table, schedule: seq<nat>)
    requires Sized(pl) && Sound(m, pl, base, t) && CleanSlots(pl, base)
    ensures Sound(Run(m, pl, schedule), pl, base, t)
    decreases |schedule|
  {
    hide Step, Sound, CleanSlots;
    if schedule != [] {
      if Steady(m) && schedule[0] < |m.todo| {
        StepSound(m, pl, base, t, schedule[0]);
        RunSound(Step(m, pl, schedule[0]), pl, base, t, schedule[1..]);
      } else {
        RunSound(m, pl, base, t, schedule[1..]);
      }
    }
  }

  // ----- what holds at the end -----

  predicate Finished(m: Machine) {
    forall s | 0 <= s < |m.todo| :: m.todo[s] == []
  }

  /** No table holds an end of these pipes. */
  predicate NoneHeld(tables: seq<Table>, ps: seq<nat>) {
    forall j, s, v: bool | 0 <= j < |ps| && 0 <= s < |tables| :: Holding(tables[s], PipeEnd(ps[j], v)) == 0
  }

  /** The tables a finished pipeline leaves. */
  predicate Outcome(tables: seq<Table>, pl: Plan, base: seq<Table>, t0: Table)
    requires |t0| == MAX_FD && Sized(pl) && RedirectOk(t0, pl)
  {
    && |tables| == |base| && pl.shell < |base| && tables[pl.shell] == Rest(t0, pl)
    && (forall i | 0 <= i < pl.n && pl.slots[i].Some? ::
          pl.slots[i].value < |base| && tables[pl.slots[i].value] == Wired(t0, pl, i))
    && (forall s | 0 <= s < |base| && s != pl.shell && Some(s) !in pl.slots :: tables[s] == base[s])
  }

  lemma FinishedOutcome(m: Machine, pl: Plan, base: seq<Table>, t0: Table, t: Table, pr: Progress)
    requires At(m, pl, base, t, pr) && Finished(m) && Opened(t0, t, pl) && RedirectOk(t0, pl)
    ensures Outcome(m.k.tables, pl, base, t0)
  {
    hide Opened, After, Wired, Closing, StageCalls;
    OpenedSized(t0, t, pl);
    assert pr.spawned == pl.n;
    assert Closing(pl)[..pr.closed] == Closing(pl);
    AfterShell(t0, t, pl);
    forall i | 0 <= i < pl.n && pl.slots[i].Some? ensures m.k.tables[pl.slots[i].value] == Wired(t0, pl, i) {
      assert StageAt(m, pl, base, t, pr, i);
      assert StageCalls(pl, i)[..pr.done[i]] == StageCalls(pl, i);
      AfterStage(t0, t, pl, i);
    }
  }

  lemma {:induction false} HoldsOnly(tables: seq<Table>, e: Entry, s: Option<nat>)
    requires s.Some? ==> s.value < |tables|
    requires forall k: nat | k < |tables| :: Holding(tables[k], e) == if s == Some(k) then 1 else 0
    ensures Holds(tables, e) == if s.Some? then 1 else 0
    decreases |tables|
  {
    if tables != [] {
      var n := |tables| - 1;
      HoldsOnly(tables[..n], e, if s == Some(n) then None else s);
    }
  }

  /** The one stage that should hold an end of pipe `j`. */
  function Holder(pl: Plan, j: nat, w: bool): Option<nat>
    requires Sized(pl) && j < pl.n - 1
  {
    if w then pl.slots[j] else pl.slots[j + 1]
  }

  lemma WiredHolding(t0: Table, pl: Plan, i: nat, j: nat, w: bool)
    requires |t0| == MAX_FD && Sized(pl) && RedirectOk(t0, pl) && Distinct(pl.ps) && i < pl.n && j < pl.n - 1
    requires Holding(t0, PipeEnd(pl.ps[j], w)) == 0
    ensures Holding(Rest(t0, pl), PipeEnd(pl.ps[j], w)) == 0
    ensures Holding(Wired(t0, pl, i), PipeEnd(pl.ps[j], w)) == if i == (if w then j else j + 1) then 1 else 0
  {
    var e := PipeEnd(pl.ps[j], w);
    var r := Rest(t0, pl);
    var v := Wired(t0, pl, i);
    HoldingUpdate(t0, 0, None, e);
    HoldingUpdate(t0, 1, None, e);
    if pl.out >= 0 { HoldingUpdate(t0, pl.out, None, e); }
    hide Holding;
    HoldingUpdate(r, 0, v[0], e);
    HoldingUpdate(r[0 := v[0]], 1, v[1], e);
  }

  /** Each pipe end is held exactly by the stage it belongs to, once: one writer, one reader, and none
      in the shell. */
  lemma OutcomeHolds(tables: seq<Table>, pl: Plan, base: seq<Table>, t0: Table, j: nat, w: bool)
    requires |t0| == MAX_FD && Planned(pl, |base|) && RedirectOk(t0, pl) && Distinct(pl.ps) && j < pl.n - 1
    requires Outcome(tables, pl, base, t0) && NoneHeld(base, pl.ps) && base[pl.shell] == t0
    ensures Holds(tables, PipeEnd(pl.ps[j], w)) == if Holder(pl, j, w).Some? then 1 else 0
  {
    hide Holding, Wired, Rest;
    var e := PipeEnd(pl.ps[j], w);
    assert Holding(t0, e) == 0;
    forall s: nat | s < |tables| ensures Holding(tables[s], e) == if Holder(pl, j, w) == Some(s) then 1 else 0 {
      if s == pl.shell {
        WiredHolding(t0, pl, 0, j, w);
      } else if Some(s) in pl.slots {
        var i :| 0 <= i < pl.n && pl.slots[i] == Some(s);
        WiredHolding(t0, pl, i, j, w);
      }
    }
    HoldsOnly(tables, e, Holder(pl, j, w));
  }

  /** A pipeline whose pipes are open and whose stages are still to be spawned. */
  ghost predicate Ready(m: Machine, pl: Plan, base: seq<Table>, t0: Table, t: Table) {
    && Steady(m) && Planned(pl, |m.todo|) && |base| == |m.todo| && base[pl.shell] == t0 && |t0| == MAX_FD
    && m.k.tables == base[pl.shell := t] && Opened(t0, t, pl) && RedirectOk(t0, pl)
    && Counted(m.k) && ErrorsElsewhere(m.k.tables) && CleanSlots(pl, base) && NoneHeld(base, pl.ps)
    && m.todo[pl.shell] == Spawns(pl, 0) + Closing(pl)
    && (forall s | 0 <= s < |m.todo| && s != pl.shell :: m.todo[s] == [])
  }

  lemma ReadySound(m: Machine, pl: Plan, base: seq<Table>, t0: Table, t: Table)
    requires Ready(m, pl, base, t0, t)
    ensures Sound(m, pl, base, t)
  {
    hide Opened, Counted, NoneHeld, CleanSlots, StageCalls, Closing, Spawns;
    OpenedSized(t0, t, pl);
    var pr := Progress(0, 0, seq(pl.n, _ => 0));
    assert Closing(pl)[..0] == [] && Closing(pl)[0..] == Closing(pl);
    assert ShellAt(m, pl, t, pr);
    assert At(m, pl, base, t, pr);
  }

  /** Every pipe of a finished pipeline counts one reader and one writer, for stages that were forked. */
  predicate WiredOnce(k: Kern, pl: Plan)
    requires Sized(pl)
  {
    forall j, w: bool | 0 <= j < pl.n - 1 ::
      pl.ps[j] < |k.ends| && Refs(k.ends[pl.ps[j]], w) == if Holder(pl, j, w).Some? then 1 else 0
  }

  lemma OpenedPlan(t0: Table, t: Table, pl: Plan)
    requires Opened(t0, t, pl)
    ensures Sized(pl) && Distinct(pl.ps) && forall j | 0 <= j < |pl.ps| :: pl.ps[j] < PIPE_COUNT
  {
  }

  lemma SoundCounted(m: Machine, pl: Plan, base: seq<Table>, t: Table)
    requires Sized(pl) && Sound(m, pl, base, t)
    ensures Counted(m.k)
  {
    hide At, Counted;
  }

  lemma SoundFinished(m: Machine, pl: Plan, base: seq<Table>, t0: Table, t: Table)
    requires Sized(pl) && Sound(m, pl, base, t) && Finished(m) && Opened(t0, t, pl) && RedirectOk(t0, pl)
    ensures |t0| == MAX_FD && Outcome(m.k.tables, pl, base, t0)
  {
    hide At, Opened, Outcome, Counted, Finished;
    OpenedSized(t0, t, pl);
    var pr :| At(m, pl, base, t, pr);
    FinishedOutcome(m, pl, base, t0, t, pr);
  }

  lemma OutcomeWiredOnce(k: Kern, pl: Plan, base: seq<Table>, t0: Table)
    requires |t0| == MAX_FD && Planned(pl, |base|) && RedirectOk(t0, pl)
    requires Distinct(pl.ps) && forall j | 0 <= j < |pl.ps| :: pl.ps[j] < PIPE_COUNT
    requires Counted(k) && Outcome(k.tables, pl, base, t0) && NoneHeld(base, pl.ps) && base[pl.shell] == t0
    ensures WiredOnce(k, pl)
  {
    hide Outcome, NoneHeld, Refs, Holds, Distinct;
    forall j, w: bool | 0 <= j < pl.n - 1
      ensures pl.ps[j] < |k.ends| && Refs(k.ends[pl.ps[j]], w) == if Holder(pl, j, w).Some? then 1 else 0
    {
      OutcomeHolds(k.tables, pl, base, t0, j, w);
      assert EndCounted(k, pl.ps[j], w);
    }
  }

  /** Whatever order the shell and the stages make their calls in, once all are made every stage has
      exactly the table it should, the shell has its own back, every other process is untouched, and each
      pipe counts one reader and one writer (or none, for a stage that could not be forked). */
  lemma EveryScheduleWires(m: Machine, pl: Plan, base: seq<Table>, t0: Table, t: Table, schedule: seq<nat>)
    requires Ready(m, pl, base, t0, t)
    ensures var r := Run(m, pl, schedule);
      Counted(r.k) && (Finished(r) ==> Outcome(r.k.tables, pl, base, t0) && WiredOnce(r.k, pl))
  {
    hide Run, Sound, At, Counted, Outcome, WiredOnce, Finished, Opened, NoneHeld, CleanSlots, Planned, ErrorsElsewhere;
    OpenedPlan(t0, t, pl);
    var r := Run(m, pl, schedule);
    ReadySound(m, pl, base, t0, t);
    RunSound(m, pl, base, t, schedule);
    SoundCounted(r, pl, base, t);
    if Finished(r) {
      SoundFinished(r, pl, base, t0, t);
      OutcomeWiredOnce(r.k, pl, base, t0);
    }
  }

  /** A wired stage has closed every pipe end but its standard ones, so the counts stay exact when it
      goes on to `exec`, provided the shell held no other pipe ends itself. */
  lemma StageExecs(k: Kern, pl: Plan, base: seq<Table>, t0: Table, i: nat)
    requires |t0| == MAX_FD && Sized(pl) && RedirectOk(t0, pl) && Outcome(k.tables, pl, base, t0)
    requires Counted(k) && i < pl.n && pl.slots[i].Some? && Clean(t0[3..])
    ensures Counted(Exec(k, pl.slots[i].value))
  {
    var t := Wired(t0, pl, i);
    forall p: nat, w: bool | p < PIPE_COUNT ensures Holding(t[3..], PipeEnd(p, w)) == 0 {
      assert Holding(t0[3..], PipeEnd(p, w)) == 0;
      assert Some(PipeEnd(p, w)) !in t0[3..];
      forall j | 0 <= j < |t[3..]| ensures t[3..][j] != Some(PipeEnd(p, w)) {
        assert t[3..][j] == t0[3..][j] || t[3..][j] == None;
      }
    }
    hide Counted, Wired;
    ExecCounted(k, pl.slots[i].value);
  }

  // ----- no end is lost on the way -----

  predicate Touches(c: Call, fd: int) {
    match c
    case Dup(_, b) => b == fd
    case Shut(x) => x == fd
    case Spawn(_) => false
  }

  lemma {:induction false} Untouched(t: Table, cs: seq<Call>, fd: nat)
    requires |t| == MAX_FD && fd < MAX_FD && forall c | c in cs :: !Touches(c, fd)
    ensures After(t, cs)[fd] == t[fd]
    decreases |cs|
  {
    if cs != [] {
      assert !Touches(cs[0], fd);
      Untouched(Effect(t, cs[0]), cs[1..], fd);
    }
  }

  /** From `fork` on, a stage holds the write end of the pipe after it. */
  lemma StageHoldsOut(t0: Table, t: Table, pl: Plan, i: nat, d: nat)
    requires Opened(t0, t, pl) && RedirectOk(t0, pl) && PipeFds(pl) && i < pl.n - 1 && d <= |StageCalls(pl, i)|
    ensures Some(PipeEnd(pl.ps[i], true)) in After(t, StageCalls(pl, i)[..d])
  {
    hide Opened, After;
    OpenedSized(t0, t, pl);
    var k := |Inlet(pl, i)|;
    if d <= k {
      assert StageCalls(pl, i)[..d] == Inlet(pl, i)[..d];
      Untouched(t, Inlet(pl, i)[..d], pl.wr[i]);
    } else {
      var rest := Closing(pl)[..d - k - 1];
      var dups := Inlet(pl, i) + Outlet(pl, i);
      assert StageCalls(pl, i)[..d] == dups + rest;
      AfterCat(t, dups, rest);
      AfterCat(t, Inlet(pl, i), Outlet(pl, i));
      AfterDups(t0, t, pl, i);
      ClosingTame(pl);
      forall c | c in rest ensures !Touches(c, 1) { assert c in Closing(pl); }
      Untouched(After(t, dups), rest, 1);
    }
  }

  /** From `fork` on, a stage holds the read end of the pipe before it. */
  lemma StageHoldsIn(t0: Table, t: Table, pl: Plan, i: nat, d: nat)
    requires Opened(t0, t, pl) && RedirectOk(t0, pl) && PipeFds(pl) && 0 < i < pl.n && d <= |StageCalls(pl, i)|
    ensures Some(PipeEnd(pl.ps[i - 1], false)) in After(t, StageCalls(pl, i)[..d])
  {
    hide Opened, After;
    OpenedSized(t0, t, pl);
    if d == 0 {
      AfterOption(t, StageCalls(pl, i)[..d]);
    } else {
      var rest := (Outlet(pl, i) + Closing(pl))[..d - 1];
      assert StageCalls(pl, i)[..d] == Inlet(pl, i) + rest;
      AfterCat(t, Inlet(pl, i), rest);
      AfterOption(t, Inlet(pl, i));
      ClosingTame(pl);
      forall c | c in rest ensures !Touches(c, 0) {
        assert c in Outlet(pl, i) || c in Closing(pl);
      }
      Untouched(After(t, Inlet(pl, i)), rest, 0);
    }
  }

  lemma InTables(k: Kern, s: nat, p: nat, w: bool)
    requires Counted(k) && s < |k.tables| && p < PIPE_COUNT && Some(PipeEnd(p, w)) in k.tables[s]
    ensures Refs(k.ends[p], w) > 0
  {
    assert EndCounted(k, p, w);
    HoldsUpdate(k.tables, s, k.tables[s], PipeEnd(p, w));
    assert Holding(k.tables[s], PipeEnd(p, w)) > 0;
  }

  lemma HolderHolds(m: Machine, pl: Plan, base: seq<Table>, t0: Table, t: Table, pr: Progress, j: nat, w: bool)
    requires At(m, pl, base, t, pr) && Opened(t0, t, pl) && RedirectOk(t0, pl) && j < pl.n - 1 && Holder(pl, j, w).Some?
    ensures exists s | 0 <= s < |m.k.tables| :: Some(PipeEnd(pl.ps[j], w)) in m.k.tables[s]
  {
    hide After, Opened, StageCalls, Closing, Spawns;
    OpenedSized(t0, t, pl);
    var i := if w then j else j + 1;
    if i < pr.spawned {
      assert StageAt(m, pl, base, t, pr, i);
      if w { StageHoldsOut(t0, t, pl, i, pr.done[i]); } else { StageHoldsIn(t0, t, pl, i, pr.done[i]); }
      assert Some(PipeEnd(pl.ps[j], w)) in m.k.tables[pl.slots[i].value];
    } else {
      assert Closing(pl)[..0] == [];
      AfterOption(t, []);
      assert m.k.tables[pl.shell][if w then pl.wr[j] else pl.rd[j]] == Some(PipeEnd(pl.ps[j], w));
    }
  }

  /** At no moment of any schedule does a pipe count no writer although its writing stage runs or may
      still be forked, nor no reader likewise: no stage sees an end of file, or a closed reader, because
      of the order of the calls. */
  lemma NoEndLost(m: Machine, pl: Plan, base: seq<Table>, t0: Table, t: Table, schedule: seq<nat>, j: nat, w: bool)
    requires Ready(m, pl, base, t0, t) && j < pl.n - 1 && Holder(pl, j, w).Some?
    ensures pl.ps[j] < |Run(m, pl, schedule).k.ends| && Refs(Run(m, pl, schedule).k.ends[pl.ps[j]], w) > 0
  {
    ReadySound(m, pl, base, t0, t);
    RunSound(m, pl, base, t, schedule);
    assert pl.ps[j] < PIPE_COUNT;
    hide At, Opened, Refs, Run;
    var r := Run(m, pl, schedule);
    var pr :| At(r, pl, base, t, pr);
    HolderHolds(r, pl, base, t0, t, pr, j, w);
    var s :| 0 <= s < |r.k.tables| && Some(PipeEnd(pl.ps[j], w)) in r.k.tables[s];
    InTables(r.k, s, pl.ps[j], w);
  }
}
