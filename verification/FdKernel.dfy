/** The kernel's pipe table and process tables, updated in place by the system calls a shell makes. */
module FdKernel {
  import opened Common
  import opened FdTables

  class Kernel {
    const ends: array<Ends>
    const tables: array<Table>

    ghost function State(): Kern
      reads ends, tables
    {
      Kern(ends[..], tables[..])
    }

    ghost predicate Valid()
      reads ends, tables
    {
      Shape(State())
    }

    /** All pipes closed and all tables empty. */
    constructor ()
      ensures Valid() && Counted(State()) && tables.Length == MAX_TASKS
      ensures forall t | 0 <= t < MAX_TASKS :: tables[t] == seq(MAX_FD, _ => None)
      ensures fresh(ends) && fresh(tables)
    {
      ends := new Ends[PIPE_COUNT](_ => CLOSED);
      tables := new Table[MAX_TASKS](_ => seq(MAX_FD, _ => None));
      new;
      forall p: nat, w: bool | p < PIPE_COUNT ensures EndCounted(State(), p, w) {
        HoldsNone(tables[..], PipeEnd(p, w));
      }
    }

    /** `alloc_fd`. */
    method AllocFd(t: nat) returns (r: nat)
      requires Valid() && t < tables.Length
      ensures r == FreeFd(tables[t], 3)
    {
      var table := tables[t];
      assert table == State().tables[t];
      r := 3;
      while r < MAX_FD
        invariant 3 <= r <= MAX_FD
        invariant FreeFd(table, 3) == FreeFd(table, r)
      {
        if table[r].None? { return; }
        r := r + 1;
      }
    }

    /** `pipe::alloc`. */
    method AllocPipe() returns (p: nat)
      requires Valid()
      modifies ends
      ensures p == FreePipe(old(ends[..]), 0)
      ensures ends[..] == if p == PIPE_COUNT then old(ends[..]) else old(ends[..])[p := Ends(true, true, 1, 1)]
    {
      p := 0;
      while p < PIPE_COUNT
        invariant p <= PIPE_COUNT && ends[..] == old(ends[..])
        invariant FreePipe(ends[..], 0) == FreePipe(ends[..], p)
      {
        if !ends[p].readOpen && !ends[p].writeOpen {
          ends[p] := Ends(true, true, 1, 1);
          return;
        }
        p := p + 1;
      }
    }

    method Take(e: Option<Entry>)
      requires Valid()
      modifies ends
      ensures ends[..] == Taken(old(ends[..]), e)
    {
      if e.Some? && e.value.PipeEnd? && e.value.pipe < ends.Length {
        var p, w := e.value.pipe, e.value.write;
        ends[p] := SetEnd(ends[p], w, IsOpen(ends[p], w), Min(Refs(ends[p], w) + 1, MAX_REFS));
      }
    }

    method Drop(e: Option<Entry>)
      requires Valid()
      modifies ends
      ensures ends[..] == Dropped(old(ends[..]), e)
    {
      if e.Some? && e.value.PipeEnd? && e.value.pipe < ends.Length {
        var p, w := e.value.pipe, e.value.write;
        var refs := if Refs(ends[p], w) > 0 then Refs(ends[p], w) - 1 else 0;
        ends[p] := SetEnd(ends[p], w, refs > 0 && IsOpen(ends[p], w), refs);
      }
    }

    /** `close`. */
    method SysClose(t: nat, fd: int)
      requires Valid() && t < tables.Length
      modifies ends, tables
      ensures Valid() && State() == Close(old(State()), t, fd)
    {
      assert tables[t] == State().tables[t];
      if 0 <= fd < MAX_FD {
        var e := tables[t][fd];
        tables[t] := tables[t][fd := None];
        assert tables[..] == old(tables[..])[t := old(tables[t])[fd := None]];
        Drop(e);
      } else {
        assert tables[..][t := tables[t]] == tables[..];
      }
    }

    /** `dup2`. */
    method SysDup2(t: nat, a: int, b: int)
      requires Valid() && t < tables.Length
      modifies ends, tables
      ensures Valid() && State() == Dup2(old(State()), t, a, b)
    {
      var table := tables[t];
      assert table == State().tables[t];
      if IsFd(a) && IsFd(b) && table[a].Some? {
        Take(table[a]);
        Drop(table[b]);
        tables[t] := table[b := table[a]];
        assert tables[..] == old(tables[..])[t := Dup2In(table, a, b)];
      } else {
        assert tables[..][t := table] == tables[..];
      }
    }

    /** The table part of `fork_task`. */
    method SysFork(t: nat, s: nat)
      requires Valid() && t < tables.Length && s < tables.Length
      modifies ends, tables
      ensures Valid() && State() == Fork(old(State()), t, s)
    {
      var table := tables[t];
      assert table == State().tables[t];
      tables[s] := table;
      for i := 0 to MAX_FD
        invariant Valid() && tables[..] == old(tables[..])[s := table]
        invariant TakenFrom(old(ends[..]), table, 0) == TakenFrom(ends[..], table, i)
      {
        Take(table[i]);
      }
    }

    /** `dup`, with `start` 0, and the F_DUPFD command of `fcntl`. */
    method SysDupFrom(t: nat, fd: int, start: nat) returns (got: Option<nat>)
      requires Valid() && t < tables.Length
      modifies tables
      ensures Valid() && (State(), got) == DupFrom(old(State()), t, fd, start)
    {
      var table := tables[t];
      assert table == State().tables[t];
      if fd < 0 || fd >= MAX_FD || table[fd].None? { return None; }
      var n := start;
      while n < MAX_FD
        invariant start <= n && (n <= MAX_FD || n == start) && tables[..] == old(tables[..])
        invariant n <= MAX_FD ==> FreeFd(table, start) == FreeFd(table, n)
      {
        if table[n].None? {
          tables[t] := table[n := table[fd]];
          return Some(n);
        }
        n := n + 1;
      }
      return None;
    }

    /** `open_pipe`: the entry for the read end stays when there is no room for the write end. */
    method OpenPipe(t: nat, p: nat) returns (got: Option<(nat, nat)>)
      requires Valid() && t < tables.Length
      modifies tables
      ensures Valid()
      ensures var table := old(tables[t]);
        var r := FreeFd(table, 3);
        if r == MAX_FD then got == None && tables[..] == old(tables[..])
        else
          var table1 := table[r := Some(PipeEnd(p, false))];
          var w := FreeFd(table1, 3);
          if w == MAX_FD then got == None && tables[..] == old(tables[..])[t := table1]
          else got == Some((r, w)) && tables[..] == old(tables[..])[t := table1[w := Some(PipeEnd(p, true))]]
    {
      assert tables[t] == State().tables[t];
      var r := AllocFd(t);
      if r == MAX_FD { return None; }
      tables[t] := tables[t][r := Some(PipeEnd(p, false))];
      assert Shape(State());
      var w := AllocFd(t);
      if w == MAX_FD { return None; }
      tables[t] := tables[t][w := Some(PipeEnd(p, true))];
      return Some((r, w));
    }

    /** `pipe_alloc`. */
    method SysPipe(t: nat) returns (got: Option<(nat, nat)>)
      requires Valid() && t < tables.Length
      modifies ends, tables
      ensures Valid() && (State(), got) == Pipe(old(State()), t)
    {
      assert tables[t] == State().tables[t];
      var p := AllocPipe();
      if p == PIPE_COUNT { return None; }
      got := OpenPipe(t, p);
      if got.None? {
        Drop(Some(PipeEnd(p, false)));
        Drop(Some(PipeEnd(p, true)));
      }
    }
  }
}
