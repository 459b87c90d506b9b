/** End of file as the tables decide it, and what becomes of pipe ends when processes exit. */
module FdLife {
  import opened Common
  import opened FdTables
  import opened PipeBuffer

  /** Some process holds this end of pipe `p`. */
  ghost predicate Held(k: Kern, p: nat, w: bool)
    requires Shape(k)
  {
    exists t: nat, fd: nat :: HeldAt(k, t, fd, p, w)
  }

  predicate HeldAt(k: Kern, t: nat, fd: nat, p: nat, w: bool)
    requires Shape(k)
  {
    t < |k.tables| && fd < MAX_FD && k.tables[t][fd] == Some(PipeEnd(p, w))
  }

  /** The ends of a pipe are open exactly while some process holds them. */
  lemma OpenIffHeld(k: Kern, p: nat, w: bool)
    requires Counted(k) && p < PIPE_COUNT
    ensures IsOpen(k.ends[p], w) <==> Held(k, p, w)
    ensures Refs(k.ends[p], w) == 0 <==> !Held(k, p, w)
  {
    assert EndCounted(k, p, w);
    NoRefsIffUnheld(k, p, w);
    if Held(k, p, w) {
      var t: nat, fd: nat :| HeldAt(k, t, fd, p, w);
      assert k.tables[t][fd] == Some(PipeEnd(p, w));
    } else {
      forall t: nat, fd: nat | t < |k.tables| && fd < MAX_FD ensures k.tables[t][fd] != Some(PipeEnd(p, w)) {
        assert !HeldAt(k, t, fd, p, w);
      }
    }
  }

  /** What a read of pipe `p` returns, in terms of who holds its ends and of the bytes queued: data as long
      as there is any, then end of file exactly when nobody holds the write end. */
  lemma ReadTells(k: Kern, p: nat, q: seq<Byte>, n: nat)
    requires Counted(k) && p < PIPE_COUNT
    ensures var r := ReadOutcome(k.ends[p], q, n);
      && (r.BadDescriptor? <==> !Held(k, p, false))
      && (r.EndOfFile? <==> Held(k, p, false) && q == [] && !Held(k, p, true))
      && (r.Again? <==> Held(k, p, false) && q == [] && Held(k, p, true))
      && (r.Data? <==> Held(k, p, false) && q != [])
  {
    OpenIffHeld(k, p, false);
    OpenIffHeld(k, p, true);
    hide Held, Counted;
  }

  // ----- processes that have exited -----

  /** The kernel with the slots whose process has exited and not been replaced. */
  datatype System = System(k: Kern, dead: set<nat>)

  /** Exit frees the memory of a process and leaves its table as it is. */
  function Exit(s: System, t: nat): System {
    s.(dead := s.dead + {t})
  }

  ghost predicate LiveWriter(s: System, p: nat)
    requires Shape(s.k)
  {
    exists t: nat, fd: nat :: HeldAt(s.k, t, fd, p, true) && t !in s.dead
  }

  ghost predicate DeadWriter(s: System, p: nat)
    requires Shape(s.k)
  {
    exists t: nat, fd: nat :: HeldAt(s.k, t, fd, p, true) && t in s.dead
  }

  /** Exit changes no count and no reading. */
  lemma ExitCounted(s: System, t: nat)
    requires Counted(s.k)
    ensures Counted(Exit(s, t).k)
    ensures forall p, q: seq<Byte>, n | 0 <= p < PIPE_COUNT ::
      ReadOutcome(Exit(s, t).k.ends[p], q, n) == ReadOutcome(s.k.ends[p], q, n)
  {
  }

  /** A reader of an empty pipe is told that the file ended exactly when no table, those of exited processes
      included, holds the write end. So it learns of the last writer's end exactly when some writer lives
      or no exited process has left a write end behind. */
  lemma EofIffWritersGone(s: System, p: nat, n: nat)
    requires Counted(s.k) && p < PIPE_COUNT && Held(s.k, p, false)
    ensures ReadOutcome(s.k.ends[p], [], n) == EndOfFile <==> !LiveWriter(s, p) && !DeadWriter(s, p)
    ensures (ReadOutcome(s.k.ends[p], [], n) == EndOfFile <==> !LiveWriter(s, p)) <==> LiveWriter(s, p) || !DeadWriter(s, p)
  {
    ReadTells(s.k, p, [], n);
    if Held(s.k, p, true) {
      var t: nat, fd: nat :| HeldAt(s.k, t, fd, p, true);
      assert LiveWriter(s, p) || DeadWriter(s, p);
    }
    if LiveWriter(s, p) {
      var t: nat, fd: nat :| HeldAt(s.k, t, fd, p, true) && t !in s.dead;
      assert Held(s.k, p, true);
    }
    if DeadWriter(s, p) {
      var t: nat, fd: nat :| HeldAt(s.k, t, fd, p, true) && t in s.dead;
      assert Held(s.k, p, true);
    }
  }

  // ----- the conditions are needed -----

  /** The process in slot 0 has one pipe open, at descriptors 3 and 4. */
  function OnePipe(): Kern {
    Pipe(FreshKern(), 0).0
  }

  lemma OnePipeCounted()
    ensures Counted(OnePipe()) && |OnePipe().tables| == MAX_TASKS
    ensures OnePipe().tables[0] == NoEntries()[3 := Some(PipeEnd(0, false))][4 := Some(PipeEnd(0, true))]
    ensures forall t | 0 < t < MAX_TASKS :: OnePipe().tables[t] == NoEntries()
    ensures !Clean(OnePipe().tables[0]) && !Clean(OnePipe().tables[0][3..])
  {
    FreshCounted();
    var k := FreshKern();
    hide FreshKern, NoEntries, Counted, Clean;
    var t := k.tables[0];
    assert Shape(k) by { FreshShape(); }
    assert FreeFd(t, 3) == 3;
    var t1 := t[3 := Some(PipeEnd(0, false))];
    assert FreeFd(t1, 3) == FreeFd(t1, 4) == 4;
    assert FreePipe(k.ends, 0) == 0;
    PipeCountedAt(k, 0);
    var t2 := t1[4 := Some(PipeEnd(0, true))];
    NotClean(t2, 3, 0, false);
    assert t2[3..][0] == Some(PipeEnd(0, false));
    NotClean(t2[3..], 0, 0, false);
  }

  lemma FreshShape()
    ensures Shape(FreshKern())
  {
  }

  lemma NotClean(t: Table, fd: nat, p: nat, w: bool)
    requires fd < |t| && p < PIPE_COUNT && t[fd] == Some(PipeEnd(p, w))
    ensures !Clean(t)
  {
    HoldingUpdate(t, fd, None, PipeEnd(p, w));
  }

  /** Each of these calls upsets the counts of a kernel that had them exact: a child or a new program in a
      slot that an exited process left with pipe ends, `exec` with pipe ends open, and `dup` of a pipe end. */
  lemma CountsUpset()
    ensures var k := OnePipe();
      && Counted(k) && Shape(k) && |k.tables| == MAX_TASKS
      && !Counted(Fork(k, 1, 0)) && !Counted(Launch(k, 0)) && !Counted(Exec(k, 0)) && !Counted(DupFrom(k, 0, 3, 0).0)
  {
    OnePipeCounted();
    var k := OnePipe();
    assert Shape(k);
    assert k.tables[0][3] == Some(PipeEnd(0, false));
    assert FreeFd(k.tables[0], 0) == 0;
    forall p: nat, w: bool | p < PIPE_COUNT
      ensures Holds(k.tables, PipeEnd(p, w)) + Holding(k.tables[1], PipeEnd(p, w)) <= MAX_REFS
    {
      EmptyHolds(PipeEnd(p, w));
      OnePipeHolds(p, w);
    }
    hide OnePipe, NoEntries, Counted, Clean, Holds, Holding;
    ForkCounted(k, 1, 0);
    LaunchCounted(k, 0);
    ExecCounted(k, 0);
    DupCounted(k, 0, 3, 0);
  }

  lemma OnePipeHolds(p: nat, w: bool)
    requires p < PIPE_COUNT
    ensures Holds(OnePipe().tables, PipeEnd(p, w)) <= 1
  {
    OnePipeCounted();
    var k := OnePipe();
    assert EndCounted(k, p, w);
    hide OnePipe, NoEntries, Holds, Holding;
    assert k.ends[p] == CLOSED || k.ends[p] == Ends(true, true, 1, 1) by { OnePipeEnds(p); }
  }

  lemma OnePipeEnds(p: nat)
    requires p < PIPE_COUNT
    ensures |OnePipe().ends| == PIPE_COUNT && (OnePipe().ends[p] == CLOSED || OnePipe().ends[p] == Ends(true, true, 1, 1))
  {
    hide FreshKern, NoEntries;
    var k := FreshKern();
    assert FreePipe(k.ends, 0) == 0;
    var t := k.tables[0];
    assert FreeFd(t, 3) == 3;
    assert FreeFd(t[3 := Some(PipeEnd(0, false))], 3) == FreeFd(t[3 := Some(PipeEnd(0, false))], 4) == 4;
  }

  /** One descriptor free: all others hold something that is no pipe end. */
  function NearlyFull(): (t: Table)
    ensures |t| == MAX_FD && forall fd | 0 <= fd < MAX_FD :: t[fd] == if fd == 3 then None else Some(Other(0))
  {
    seq(MAX_FD, fd => if fd == 3 then None else Some(Other(0)))
  }

  /** With one free descriptor left, `pipe` upsets the counts. */
  lemma PipeUpset()
    ensures var k := FreshKern().(tables := FreshKern().tables[0 := NearlyFull()]);
      Counted(k) && |k.tables| == MAX_TASKS && !Counted(Pipe(k, 0).0)
  {
    FreshCounted();
    var k0 := FreshKern();
    var k := k0.(tables := k0.tables[0 := NearlyFull()]);
    hide FreshKern, NearlyFull, Holds, Holding, NoEntries;
    forall p: nat, w: bool | p < PIPE_COUNT ensures EndCounted(k, p, w) {
      assert EndCounted(k0, p, w);
      EmptyHolds(PipeEnd(p, w));
      FullHolds(PipeEnd(p, w));
      HoldsUpdate(k0.tables, 0, NearlyFull(), PipeEnd(p, w));
    }
    assert FreePipe(k.ends, 0) == 0;
    assert Usable(NearlyFull(), 3);
    PipeCounted(k, 0);
  }

  lemma FullHolds(e: Entry)
    requires e.PipeEnd?
    ensures Holding(NearlyFull(), e) == 0
  {
    assert Some(e) !in NearlyFull();
  }
}
