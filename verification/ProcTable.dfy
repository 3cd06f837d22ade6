/** The table scans of proc.c, run in place on the process table and the per-CPU records. */
module ProcTable {
  import opened Common
  import opened Processes
  import opened ProcessSafety

  datatype WaitResult = Pid(pid: nat) | NoChildren | Slept

  class ProcTable {
    const table: array<Process>
    const cpus: array<Option<nat>>
    var nextpid: nat
    ghost var forking: map<nat, nat>
    ghost var reaped: seq<nat>
    ghost var forked: set<nat>

    ghost function Abs(): System
      reads this, table, cpus
    {
      System(table[..], cpus[..], nextpid, forking, reaped, forked)
    }

    /** The state userinit leaves, each CPU about to enter its scheduler loop. */
    constructor (nproc: nat, ncpu: nat)
      requires nproc > INIT
      ensures fresh(table) && fresh(cpus) && Abs() == Booted(nproc, ncpu) && Ok(Abs())
    {
      var s := Booted(nproc, ncpu);
      table := new Process[nproc](i requires 0 <= i < nproc => s.procs[i]);
      cpus := new Option<nat>[ncpu](k => None);
      nextpid, forking, reaped, forked := 2, map[], [], {1};
      new;
      assert table[..] == s.procs;
      assert cpus[..] == s.cpus;
      BootedOk(nproc, ncpu);
    }

    /** allocproc's locked part, called by process c: the first free slot. */
    method AllocProc(c: nat) returns (r: Option<nat>)
      requires Ok(Abs()) && IsRunning(Abs(), c) && c !in forking
      modifies this, table
      ensures Ok(Abs())
      ensures r == None ==> Abs() == old(Abs()) && forall i :: 0 <= i < table.Length ==> table[i].state != Unused
      ensures r.Some? ==> Enabled(old(Abs()), Alloc(c, r.value)) && Abs() == Next(old(Abs()), Alloc(c, r.value))
    {
      hide Ok;
      var i := 0;
      while i < table.Length && table[i].state != Unused
        invariant i <= table.Length && forall j :: 0 <= j < i ==> table[j].state != Unused
      {
        i := i + 1;
      }
      if i == table.Length {
        return None;
      }
      ghost var s := Abs();
      StepOk(s, Alloc(c, i));
      table[i] := table[i].(state := Embryo, pid := nextpid);
      nextpid := nextpid + 1;
      forking := forking[c := i];
      assert table[..] == s.procs[i := table[i]];
      r := Some(i);
    }

    method Wakeup1(ch: Chan)
      modifies table
      ensures table[..] == Woken(old(table[..]), ch)
      ensures forall i :: 0 <= i < table.Length ==>
                var p := old(table[i]);
                table[i] == if p.state == Sleeping && p.chan == ch then p.(state := Runnable) else p
    {
      var i := 0;
      while i < table.Length
        invariant i <= table.Length
        invariant forall j :: 0 <= j < i ==> table[j] == WakeOne(old(table[j]), ch)
        invariant forall j :: i <= j < table.Length ==> table[j] == old(table[j])
      {
        if table[i].state == Sleeping && table[i].chan == ch {
          table[i] := table[i].(state := Runnable);
        }
        i := i + 1;
      }
    }

    /** One pass of exit's loop over the table, from slot i on. */
    method PassChildren(c: nat, ghost ps: seq<Process>)
      requires c < |ps| == table.Length && ps[c].parent.Some?
      requires forall j :: 0 <= j < |ps| ==> table[j] == PassedOne(ps, c, 0, j)
      modifies table
      ensures forall j :: 0 <= j < |ps| ==> table[j] == PassedOne(ps, c, |ps|, j)
    {
      var i := 0;
      while i < table.Length
        invariant i <= table.Length && forall j :: 0 <= j < |ps| ==> table[j] == PassedOne(ps, c, i, j)
      {
        PassStep(ps, c, i);
        hide PassedOne, ZombieBefore;
        if table[i].parent == Some(c) {
          table[i] := table[i].(parent := Some(INIT));
          if table[i].state == Zombie {
            Wakeup1(Proc(INIT));
          }
        }
        i := i + 1;
      }
    }

    /** exit's work on the table. */
    method ExitTable(c: nat)
      requires c < table.Length && table[c].parent.Some? && table[c].state == Running
      modifies table
      ensures table[..] == Exited(old(table[..]), c)
    {
      ghost var ps := table[..];
      Wakeup1(Proc(table[c].parent.value));
      PassedNone(ps, c);
      hide Exited, PassedOne, Woken;
      PassChildren(c, ps);
      table[c] := table[c].(state := Zombie);
      PassedAll(ps, c, table[..]);
    }

    /** exit of the process on CPU k, up to the switch back to the scheduler. */
    method Exit(k: nat)
      requires Ok(Abs()) && k < cpus.Length && cpus[k].Some? && cpus[k].value !in forking && cpus[k].value != INIT
      modifies table, cpus
      ensures var c := old(cpus[k].value);
              Enabled(old(Abs()), Step.Exit(c)) && Abs() == Next(old(Abs()), Step.Exit(c))
      ensures Ok(Abs())
    {
      hide Ok, Exited, Left;
      ghost var s := Abs();
      var c := cpus[k].value;
      CurrentRuns(s, k);
      HasParent(s, c);
      StepOk(s, Step.Exit(c));
      LeftOne(s, k, c);
      ExitTable(c);
      cpus[k] := None;
      assert cpus[..] == s.cpus[k := None];
    }

    /** wait's scan: the first zombie child of c, and whether c has children at all. */
    method ScanChildren(c: nat) returns (havekids: bool, z: Option<nat>)
      ensures z.Some? ==> FirstZombie(table[..], c, z.value)
      ensures z == None ==> !HasZombie(table[..], c) && (havekids <==> HasKids(table[..], c))
    {
      havekids := false;
      var i := 0;
      while i < table.Length
        invariant i <= table.Length
        invariant forall j :: 0 <= j < i ==> !IsZombieOf(table[j], c)
        invariant havekids <==> exists j :: 0 <= j < i && table[j].parent == Some(c)
      {
        if table[i].parent == Some(c) {
          havekids := true;
          if table[i].state == Zombie {
            return havekids, Some(i);
          }
        }
        i := i + 1;
      }
      z := None;
    }

    /** wait's release of a zombie's slot. */
    method FreeSlot(c: nat, z: nat) returns (pid: nat)
      requires Enabled(Abs(), Reap(c, z))
      modifies this, table
      ensures pid == old(table[..])[z].pid && Abs() == Next(old(Abs()), Reap(c, z))
    {
      ghost var ps := table[..];
      assert z < table.Length;
      pid := table[z].pid;
      table[z] := table[z].(pid := 0, parent := None, killed := false, state := Unused);
      reaped := reaped + [pid];
      assert table[..] == ps[z := Freed(ps[z])];
    }

    /** One scan of wait by the process on CPU k: it reaps, gives up, or goes to sleep. */
    method Wait(k: nat) returns (r: WaitResult, ghost z: nat)
      requires Ok(Abs()) && k < cpus.Length && cpus[k].Some? && cpus[k].value !in forking
      modifies this, table, cpus
      ensures Ok(Abs())
      ensures var c := old(cpus[k].value);
              match r
              case Pid(pid) =>
                Enabled(old(Abs()), Reap(c, z)) && pid == old(table[..])[z].pid && Abs() == Next(old(Abs()), Reap(c, z))
              case Slept => Enabled(old(Abs()), WaitSleep(c)) && Abs() == Next(old(Abs()), WaitSleep(c))
              case NoChildren =>
                Abs() == old(Abs()) && !HasZombie(table[..], c) && c < table.Length && (!HasKids(table[..], c) || table[c].killed)
    {
      hide Ok, FirstZombie, HasZombie, HasKids, Left;
      ghost var s := Abs();
      var c := cpus[k].value;
      CurrentRuns(s, k);
      LeftOne(s, k, c);
      var havekids, found := ScanChildren(c);
      z := 0;
      if found.Some? {
        z := found.value;
        StepOk(s, Reap(c, z));
        var pid := FreeSlot(c, found.value);
        return Pid(pid), z;
      }
      if !havekids || table[c].killed {
        return NoChildren, z;
      }
      StepOk(s, WaitSleep(c));
      table[c] := table[c].(chan := Proc(c), state := Sleeping);
      cpus[k] := None;
      assert table[..] == s.procs[c := table[c]] && cpus[..] == s.cpus[k := None];
      r := Slept;
    }

    method Kill(pid: nat) returns (ok: bool)
      requires Ok(Abs())
      modifies table
      ensures Ok(Abs())
      ensures ok ==> exists i: nat :: Enabled(old(Abs()), Step.Kill(pid, i)) && Abs() == Next(old(Abs()), Step.Kill(pid, i))
                                      && table[i].pid == pid && table[i].killed && table[i].state != Sleeping
      ensures !ok ==> Abs() == old(Abs()) && forall i :: 0 <= i < table.Length ==> table[i].pid != pid
    {
      hide Ok;
      ghost var s := Abs();
      var i := 0;
      while i < table.Length
        invariant i <= table.Length && Abs() == s && forall j :: 0 <= j < i ==> s.procs[j].pid != pid
      {
        if table[i].pid == pid {
          StepOk(s, Step.Kill(pid, i));
          table[i] := table[i].(killed := true);
          if table[i].state == Sleeping {
            table[i] := table[i].(state := Runnable);
          }
          assert table[..] == s.procs[i := KilledOne(s.procs[i])];
          return true;
        }
        i := i + 1;
      }
      ok := false;
    }

    /** The scheduler's scan on an idle CPU from slot `from` to the end of the table: the next runnable process. */
    method Schedule(k: nat, from: nat) returns (r: Option<nat>)
      requires Ok(Abs()) && k < cpus.Length && cpus[k] == None && from <= table.Length
      modifies table, cpus
      ensures Ok(Abs())
      ensures r == None ==> Abs() == old(Abs()) && forall i :: from <= i < table.Length ==> table[i].state != Runnable
      ensures r.Some? ==> from <= r.value < table.Length && forall i :: from <= i < r.value ==> old(table[i]).state != Runnable
      ensures r.Some? ==> Enabled(old(Abs()), Dispatch(k, r.value)) && Abs() == Next(old(Abs()), Dispatch(k, r.value))
    {
      hide Ok;
      ghost var s := Abs();
      var i := from;
      while i < table.Length && table[i].state != Runnable
        invariant from <= i <= table.Length && forall j :: from <= j < i ==> table[j].state != Runnable
      {
        i := i + 1;
      }
      if i == table.Length {
        return None;
      }
      StepOk(s, Dispatch(k, i));
      cpus[k] := Some(i);
      table[i] := table[i].(state := Running, chan := NoChan);
      assert table[..] == s.procs[i := table[i]] && cpus[..] == s.cpus[k := Some(i)];
      r := Some(i);
    }
  }

  // ---------- about the loops ----------

  ghost predicate ZombieBefore(ps: seq<Process>, c: nat, i: nat) {
    exists z :: 0 <= z < i && z < |ps| && IsZombieOf(ps[z], c)
  }

  /** Slot j when exit's loop has passed the slots below i. */
  ghost function PassedOne(ps: seq<Process>, c: nat, i: nat, j: nat): Process
    requires c < |ps| && j < |ps| && ps[c].parent.Some?
  {
    var p := if j < i then Adopted(ps[j], c) else ps[j];
    if p.state == Sleeping && (p.chan == Proc(ps[c].parent.value) || (ZombieBefore(ps, c, i) && p.chan == Proc(INIT)))
    then p.(state := Runnable) else p
  }

  lemma PassedNone(ps: seq<Process>, c: nat)
    requires c < |ps| && ps[c].parent.Some?
    ensures forall j :: 0 <= j < |ps| ==> PassedOne(ps, c, 0, j) == Woken(ps, Proc(ps[c].parent.value))[j]
  {
  }

  /** What the loop's step at slot i does, to that slot and to the others. */
  lemma PassStep(ps: seq<Process>, c: nat, i: nat)
    requires c < |ps| && i < |ps| && ps[c].parent.Some?
    ensures PassedOne(ps, c, i, i).parent == ps[i].parent && (PassedOne(ps, c, i, i).state == Zombie <==> ps[i].state == Zombie)
    ensures forall j :: 0 <= j < |ps| && j != i ==>
              PassedOne(ps, c, i + 1, j) == if IsZombieOf(ps[i], c) then WakeOne(PassedOne(ps, c, i, j), Proc(INIT)) else PassedOne(ps, c, i, j)
    ensures PassedOne(ps, c, i + 1, i) == var q := Adopted(PassedOne(ps, c, i, i), c);
                                          if IsZombieOf(ps[i], c) then WakeOne(q, Proc(INIT)) else q
  {
    assert ZombieBefore(ps, c, i + 1) <==> ZombieBefore(ps, c, i) || IsZombieOf(ps[i], c) by {
      if ZombieBefore(ps, c, i + 1) && !ZombieBefore(ps, c, i) {
        var z :| 0 <= z < i + 1 && z < |ps| && IsZombieOf(ps[z], c);
        assert z == i;
      }
    }
    hide ZombieBefore;
  }

  lemma PassedAll(ps: seq<Process>, c: nat, qs: seq<Process>)
    requires c < |ps| == |qs| && ps[c].parent.Some? && ps[c].state == Running
    requires forall j :: 0 <= j < |ps| && j != c ==> qs[j] == PassedOne(ps, c, |ps|, j)
    requires qs[c] == PassedOne(ps, c, |ps|, c).(state := Zombie)
    ensures qs == Exited(ps, c)
  {
    assert ZombieBefore(ps, c, |ps|) <==> HasZombie(ps, c);
    hide ZombieBefore, HasZombie;
    forall j | 0 <= j < |ps|
      ensures qs[j] == ExitedOne(ps, c, j)
    {
    }
  }

  /** The process a CPU points at is running. */
  lemma CurrentRuns(s: System, k: nat)
    requires Ok(s) && k < |s.cpus| && s.cpus[k].Some?
    ensures IsRunning(s, s.cpus[k].value)
  {
  }

  lemma HasParent(s: System, c: nat)
    requires Ok(s) && IsRunning(s, c) && c != INIT
    ensures s.procs[c].parent.Some?
  {
  }

  /** Only that CPU has to let go. */
  lemma LeftOne(s: System, k: nat, c: nat)
    requires Ok(s) && k < |s.cpus| && s.cpus[k] == Some(c)
    ensures Left(s.cpus, c) == s.cpus[k := None]
  {
    forall m | 0 <= m < |s.cpus|
      ensures Left(s.cpus, c)[m] == s.cpus[k := None][m]
    {
      assert m < k ==> s.cpus[m] != s.cpus[k];
      assert m > k ==> s.cpus[k] != s.cpus[m];
    }
  }
}
