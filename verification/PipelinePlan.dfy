/** The calls a shell pipeline plans for itself and for each stage, and what each list of calls does to
    one table. */
module PipelinePlan {
  import opened Common
  import opened FdTables

  /** A pipeline of `n` stages: descriptors and pipes of its `n - 1` pipes, the redirect descriptor or
      a negative number, the shell's process and the process slot each `fork` gets, if it succeeds. */
  datatype Plan = Plan(n: nat, rd: seq<int>, wr: seq<int>, ps: seq<nat>, out: int, shell: nat, slots: seq<Option<nat>>)

  datatype Call = Dup(a: int, b: int) | Shut(fd: int) | Spawn(stage: nat)

  predicate Sized(pl: Plan) {
    1 <= pl.n == |pl.slots| && |pl.rd| == |pl.wr| == |pl.ps| == pl.n - 1
  }

  function Redirect(pl: Plan): seq<Call> {
    if pl.out >= 0 then [Shut(pl.out)] else []
  }

  /** Closing both ends of the first `m` pipes. */
  function ShutPipes(pl: Plan, m: nat): seq<Call>
    requires Sized(pl) && m < pl.n
  {
    if m == 0 then [] else ShutPipes(pl, m - 1) + [Shut(pl.rd[m - 1]), Shut(pl.wr[m - 1])]
  }

  function Inlet(pl: Plan, i: nat): seq<Call>
    requires Sized(pl) && i < pl.n
  {
    if i > 0 then [Dup(pl.rd[i - 1], 0)] else []
  }

  function Outlet(pl: Plan, i: nat): seq<Call>
    requires Sized(pl) && i < pl.n
  {
    if i < pl.n - 1 then [Dup(pl.wr[i], 1)] else if pl.out >= 0 then [Dup(pl.out, 1)] else []
  }

  function Closing(pl: Plan): seq<Call>
    requires Sized(pl)
  {
    ShutPipes(pl, pl.n - 1) + Redirect(pl)
  }

  /** What stage `i` does between `fork` and `exec`. */
  function StageCalls(pl: Plan, i: nat): seq<Call>
    requires Sized(pl) && i < pl.n
  {
    Inlet(pl, i) + Outlet(pl, i) + Closing(pl)
  }

  /** The table of a process after its own calls; spawning does not change it. */
  function Effect(t: Table, c: Call): (r: Table)
    requires |t| == MAX_FD
    ensures |r| == MAX_FD
  {
    match c
    case Dup(a, b) => Dup2In(t, a, b)
    case Shut(fd) => CloseIn(t, fd)
    case Spawn(_) => t
  }

  function After(t: Table, cs: seq<Call>): (r: Table)
    requires |t| == MAX_FD
    ensures |r| == MAX_FD
    decreases |cs|
  {
    if cs == [] then t else After(Effect(t, cs[0]), cs[1..])
  }

  lemma {:induction false} AfterCat(t: Table, a: seq<Call>, b: seq<Call>)
    requires |t| == MAX_FD
    ensures After(t, a + b) == After(After(t, a), b)
    decreases |a|
  {
    if a == [] {
      assert a + b == b;
    } else {
      assert (a + b)[1..] == a[1..] + b;
      AfterCat(Effect(t, a[0]), a[1..], b);
    }
  }

  lemma AfterOne(t: Table, c: Call)
    requires |t| == MAX_FD
    ensures After(t, [c]) == Effect(t, c)
  {
  }

  lemma AfterOption(t: Table, cs: seq<Call>)
    requires |t| == MAX_FD && |cs| <= 1
    ensures After(t, cs) == if cs == [] then t else Effect(t, cs[0])
  {
    if cs != [] { assert cs == [cs[0]]; }
  }

  // ----- what the calls amount to -----

  predicate Distinct<T(==)>(s: seq<T>) {
    forall i, j | 0 <= i < j < |s| :: s[i] != s[j]
  }

  /** `t` is the table `t0` with pipes `ps` opened in it, at the free descriptors `rd` and `wr`. */
  ghost predicate OpenedPipes(t0: Table, t: Table, rd: seq<int>, wr: seq<int>, ps: seq<nat>) {
    && |t0| == |t| == MAX_FD && |rd| == |wr| == |ps|
    && Distinct(ps) && (forall j | 0 <= j < |ps| :: ps[j] < PIPE_COUNT)
    && (forall j | 0 <= j < |rd| :: 3 <= rd[j] < MAX_FD && t0[rd[j]].None? && t[rd[j]] == Some(PipeEnd(ps[j], false)))
    && (forall j | 0 <= j < |wr| :: 3 <= wr[j] < MAX_FD && t0[wr[j]].None? && t[wr[j]] == Some(PipeEnd(ps[j], true)))
    && (forall fd | 0 <= fd < MAX_FD && fd !in rd && fd !in wr :: t[fd] == t0[fd])
  }

  ghost predicate Opened(t0: Table, t: Table, pl: Plan) {
    Sized(pl) && OpenedPipes(t0, t, pl.rd, pl.wr, pl.ps)
  }

  /** The redirect descriptor, if any, is an open descriptor of the shell other than the standard three. */
  predicate RedirectOk(t0: Table, pl: Plan) {
    pl.out >= 0 ==> 3 <= pl.out < |t0| && t0[pl.out].Some?
  }

  /** The shell's table without the redirect. */
  function Rest(t0: Table, pl: Plan): (r: Table)
    requires |t0| == MAX_FD && RedirectOk(t0, pl)
    ensures |r| == MAX_FD
  {
    if pl.out >= 0 then t0[pl.out := None] else t0
  }

  /** The table stage `i` should run with: the shell's, with standard input from the pipe before and
      standard output to the pipe after it or to the redirect. */
  function Wired(t0: Table, pl: Plan, i: nat): Table
    requires |t0| == MAX_FD && Sized(pl) && RedirectOk(t0, pl) && i < pl.n
  {
    Rest(t0, pl)[
      0 := if i > 0 then Some(PipeEnd(pl.ps[i - 1], false)) else t0[0]][
      1 := if i < pl.n - 1 then Some(PipeEnd(pl.ps[i], true)) else if pl.out >= 0 then t0[pl.out] else t0[1]]
  }

  lemma {:induction false} AfterShutPipes(t: Table, pl: Plan, m: nat)
    requires |t| == MAX_FD && Sized(pl) && m < pl.n
    requires forall j | 0 <= j < pl.n - 1 :: 3 <= pl.rd[j] < MAX_FD && 3 <= pl.wr[j] < MAX_FD
    ensures forall fd | 0 <= fd < MAX_FD ::
      After(t, ShutPipes(pl, m))[fd] == if fd in pl.rd[..m] || fd in pl.wr[..m] then None else t[fd]
  {
    if m > 0 {
      AfterShutPipes(t, pl, m - 1);
      var t1 := After(t, ShutPipes(pl, m - 1));
      var a, b := Shut(pl.rd[m - 1]), Shut(pl.wr[m - 1]);
      AfterCat(t, ShutPipes(pl, m - 1), [a] + [b]);
      AfterCat(t1, [a], [b]);
      AfterOne(t1, a);
      AfterOne(Effect(t1, a), b);
      assert [a, b] == [a] + [b];
      hide After;
      assert pl.rd[..m] == pl.rd[..m - 1] + [pl.rd[m - 1]] && pl.wr[..m] == pl.wr[..m - 1] + [pl.wr[m - 1]];
    }
  }

  lemma OpenedElsewhere(t0: Table, t: Table, pl: Plan, fd: nat)
    requires Opened(t0, t, pl) && fd < MAX_FD
    ensures if fd in pl.rd || fd in pl.wr then fd >= 3 && t0[fd].None? else t[fd] == t0[fd]
  {
  }

  lemma OpenedSized(t0: Table, t: Table, pl: Plan)
    requires Opened(t0, t, pl)
    ensures |t0| == |t| == MAX_FD && Sized(pl)
    ensures forall j | 0 <= j < pl.n - 1 :: 3 <= pl.rd[j] < MAX_FD && 3 <= pl.wr[j] < MAX_FD
    ensures forall j | 0 <= j < pl.n - 1 :: t[pl.rd[j]] == Some(PipeEnd(pl.ps[j], false)) && t[pl.wr[j]] == Some(PipeEnd(pl.ps[j], true))
  {
  }

  lemma EffectShut(t: Table, fd: int)
    requires |t| == MAX_FD
    ensures Effect(t, Shut(fd)) == if 0 <= fd < MAX_FD then t[fd := None] else t
  {
  }

  lemma EffectDup(t: Table, a: int, b: nat)
    requires |t| == MAX_FD && IsFd(a) && t[a].Some? && b < MAX_FD
    ensures Effect(t, Dup(a, b)) == t[b := t[a]]
  {
  }

  /** `t2` is `t1` with both ends of every pipe closed. */
  predicate PipesShut(t1: Table, t2: Table, pl: Plan) {
    && |t1| == |t2| == MAX_FD
    && forall fd | 0 <= fd < MAX_FD :: t2[fd] == if fd in pl.rd || fd in pl.wr then None else t1[fd]
  }

  /** The shell's table with the pipes shut, then the redirect. */
  lemma ClosedIsRest(t0: Table, t: Table, t1: Table, t2: Table, pl: Plan)
    requires Opened(t0, t, pl) && RedirectOk(t0, pl)
    requires PipesShut(t1, t2, pl) && forall fd | 2 <= fd < MAX_FD :: t1[fd] == t[fd]
    ensures (if pl.out >= 0 then t2[pl.out := None] else t2) == Rest(t0, pl)[0 := t1[0]][1 := t1[1]]
  {
    hide Opened;
    OpenedSized(t0, t, pl);
    forall fd | 0 <= fd < MAX_FD ensures t2[fd] == if fd < 2 then t1[fd] else t0[fd] {
      OpenedElsewhere(t0, t, pl, fd);
    }
  }

  lemma AfterShutAll(t: Table, pl: Plan)
    requires |t| == MAX_FD && Sized(pl)
    requires forall j | 0 <= j < pl.n - 1 :: 3 <= pl.rd[j] < MAX_FD && 3 <= pl.wr[j] < MAX_FD
    ensures PipesShut(t, After(t, ShutPipes(pl, pl.n - 1)), pl)
  {
    hide After, ShutPipes;
    AfterShutPipes(t, pl, pl.n - 1);
    assert pl.rd[..pl.n - 1] == pl.rd && pl.wr[..pl.n - 1] == pl.wr;
  }

  lemma AfterRedirect(t: Table, pl: Plan)
    requires |t| == MAX_FD && pl.out < MAX_FD
    ensures After(t, Redirect(pl)) == if pl.out >= 0 then t[pl.out := None] else t
  {
    hide After, Effect;
    AfterOption(t, Redirect(pl));
    EffectShut(t, pl.out);
  }

  /** Closing undoes opening: what is left is the shell's own table, apart from the standard descriptors
      the process has replaced. */
  lemma AfterClosing(t0: Table, t: Table, t1: Table, pl: Plan)
    requires Opened(t0, t, pl) && RedirectOk(t0, pl)
    requires |t1| == MAX_FD && forall fd | 2 <= fd < MAX_FD :: t1[fd] == t[fd]
    ensures After(t1, Closing(pl)) == Rest(t0, pl)[0 := t1[0]][1 := t1[1]]
  {
    hide Opened, After, Effect, ShutPipes, Redirect, Rest, PipesShut;
    OpenedSized(t0, t, pl);
    AfterShutAll(t1, pl);
    var t2 := After(t1, ShutPipes(pl, pl.n - 1));
    AfterRedirect(t2, pl);
    AfterCat(t1, ShutPipes(pl, pl.n - 1), Redirect(pl));
    ClosedIsRest(t0, t, t1, t2, pl);
  }

  /** Standard input and output of a stage before it closes the pipes. */
  lemma AfterDups(t0: Table, t: Table, pl: Plan, i: nat)
    requires Opened(t0, t, pl) && RedirectOk(t0, pl) && i < pl.n
    ensures After(After(t, Inlet(pl, i)), Outlet(pl, i)) == t[0 := Wired(t0, pl, i)[0]][1 := Wired(t0, pl, i)[1]]
  {
    hide Opened, After, Effect;
    OpenedSized(t0, t, pl);
    OpenedElsewhere(t0, t, pl, 0);
    OpenedElsewhere(t0, t, pl, 1);
    var t1 := After(t, Inlet(pl, i));
    AfterOption(t, Inlet(pl, i));
    if i > 0 { EffectDup(t, pl.rd[i - 1], 0); }
    assert t1 == t[0 := Wired(t0, pl, i)[0]];
    AfterOption(t1, Outlet(pl, i));
    if i < pl.n - 1 {
      EffectDup(t1, pl.wr[i], 1);
    } else if pl.out >= 0 {
      OpenedElsewhere(t0, t, pl, pl.out);
      EffectDup(t1, pl.out, 1);
    }
  }

  /** The calls of a stage give it exactly the table it should run with. */
  lemma AfterStage(t0: Table, t: Table, pl: Plan, i: nat)
    requires Opened(t0, t, pl) && RedirectOk(t0, pl) && i < pl.n
    ensures After(t, StageCalls(pl, i)) == Wired(t0, pl, i)
  {
    hide Opened, After, Effect, Inlet, Outlet, Closing;
    OpenedSized(t0, t, pl);
    AfterCat(t, Inlet(pl, i) + Outlet(pl, i), Closing(pl));
    AfterCat(t, Inlet(pl, i), Outlet(pl, i));
    AfterDups(t0, t, pl, i);
    var t2 := t[0 := Wired(t0, pl, i)[0]][1 := Wired(t0, pl, i)[1]];
    AfterClosing(t0, t, t2, pl);
    assert Rest(t0, pl)[0 := t2[0]][1 := t2[1]] == Wired(t0, pl, i);
  }

  /** The closing calls of the shell give it its own table back, without the redirect. */
  lemma AfterShell(t0: Table, t: Table, pl: Plan)
    requires Opened(t0, t, pl) && RedirectOk(t0, pl)
    ensures After(t, Closing(pl)) == Rest(t0, pl)
  {
    AfterClosing(t0, t, t, pl);
    assert Rest(t0, pl)[0 := t[0]][1 := t[1]] == Rest(t0, pl);
  }
}
