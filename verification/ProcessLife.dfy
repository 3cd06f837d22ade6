/** What becomes of one process (proc.c): the state diagram, who changes which field, and why a sleeper sleeps. */
module ProcessLife {
  import opened Common
  import opened Processes
  import opened ProcessSafety

  // ---------- the state diagram ----------

  /** The step wakes process i out of its sleep: a wakeup on its channel, a kill, or for a process in wait the exit of a
      child or, for init, of a process that leaves it a zombie. */
  ghost predicate Rouses(s: System, e: Step, i: nat)
    requires Enabled(s, e) && i < |s.procs|
  {
    match e
    case Wakeup(id) => s.procs[i].chan == Other(id)
    case Kill(_, k) => k == i
    case Exit(c) => s.procs[i].chan == Proc(i) && (s.procs[c].parent == Some(i) || (i == INIT && HasZombie(s.procs, c)))
    case _ => false
  }

  /** The step takes process i along an edge of the diagram to state `to`. */
  ghost predicate Moves(s: System, e: Step, i: nat, to: State)
    requires Enabled(s, e) && i < |s.procs|
  {
    match s.procs[i].state
    case Unused => e.Alloc? && e.np == i && to == Embryo
    case Embryo =>
      || (e.AllocFail? && s.forking[e.c] == i && to == Unused)
      || (e.Launch? && s.forking[e.c] == i && to == Runnable)
    case Runnable => e.Dispatch? && e.c == i && to == Running
    case Running =>
      || (e.Yield? && e.c == i && to == Runnable)
      || ((e.Sleep? || e.WaitSleep?) && e.c == i && to == Sleeping)
      || (e.Exit? && e.c == i && to == Zombie)
    case Sleeping => to == Runnable && Rouses(s, e, i)
    case Zombie => e.Reap? && e.z == i && to == Unused
  }

  /** A process changes state exactly along those edges. */
  lemma LifeCycle(s: System, e: Step, i: nat)
    requires Ok(s) && Enabled(s, e) && i < |s.procs|
    ensures |Next(s, e).procs| == |s.procs|
    ensures var now := Next(s, e).procs[i].state;
            && (forall to :: Moves(s, e, i, to) ==> now == to)
            && (now == s.procs[i].state || Moves(s, e, i, now))
  {
    hide CpusOk, ParentsOk, WaitsOk, PidsOk, HasZombie, HasKids, FirstPid;
    SameLength(s, e);
    match e
    case Exit(c) => ExitLife(s, c, i);
    case Wakeup(id) => hide ForksOk;
    case Alloc(_, _) => ForkLife(s, e, i);
    case AllocFail(_) => ForkLife(s, e, i);
    case Launch(_) => ForkLife(s, e, i);
    case SetParent(_) => ForkLife(s, e, i);
    case _ => hide ForksOk, Exited;
  }

  /** The steps of fork. */
  lemma ForkLife(s: System, e: Step, i: nat)
    requires ForksOk(s) && Enabled(s, e) && i < |s.procs| && (e.Alloc? || e.AllocFail? || e.SetParent? || e.Launch?)
    ensures var now := Next(s, e).procs[i].state;
            && (forall to :: Moves(s, e, i, to) ==> now == to)
            && (now == s.procs[i].state || Moves(s, e, i, now))
  {
  }

  lemma ExitLife(s: System, c: nat, i: nat)
    requires Ok(s) && Enabled(s, Exit(c)) && i < |s.procs|
    ensures var now := Next(s, Exit(c)).procs[i].state;
            && (forall to :: Moves(s, Exit(c), i, to) ==> now == to)
            && (now == s.procs[i].state || Moves(s, Exit(c), i, now))
  {
    hide PidsOk, CpusOk, ForksOk, HasZombie;
    assert Next(s, Exit(c)).procs[i] == ExitedOne(s.procs, c, i);
  }

  /** Who changes the other fields of a process. */
  lemma FieldsChange(s: System, e: Step, i: nat)
    requires Ok(s) && Enabled(s, e) && i < |s.procs|
    ensures var p, q := s.procs[i], Next(s, e).procs[i];
            && q.pid == (if e.Alloc? && e.np == i then s.nextpid else if e.Reap? && e.z == i then 0 else p.pid)
            && q.parent == (if e.SetParent? && s.forking[e.c] == i then Some(e.c) else if e.Reap? && e.z == i then None
                            else if e.Exit? && p.parent == Some(e.c) then Some(INIT) else p.parent)
            && q.chan == (if e.WaitSleep? && e.c == i then Proc(i) else if e.Sleep? && e.c == i then Other(e.id)
                          else if e.Dispatch? && e.c == i then NoChan else p.chan)
            && q.killed == ((p.killed || (e.Kill? && e.i == i)) && !(e.Reap? && e.z == i))
  {
    hide Ok, HasZombie, HasKids, FirstPid, ExitWakes;
    if e.Exit? {
      assert Next(s, e).procs[i] == ExitedOne(s.procs, e.c, i);
    }
  }

  /** kill marks the process and gets it out of its sleep, and touches nothing else. */
  lemma KillMarks(s: System, pid: nat, i: nat)
    requires Enabled(s, Kill(pid, i))
    ensures var t := Next(s, Kill(pid, i));
            && t == s.(procs := s.procs[i := t.procs[i]])
            && t.procs[i].killed && t.procs[i].state == (if s.procs[i].state == Sleeping then Runnable else s.procs[i].state)
            && t.procs[i] == s.procs[i].(killed := true, state := t.procs[i].state)
  {
  }

  // ---------- why a sleeper sleeps ----------

  predicate Asleep(p: Process, ch: Chan) {
    p.state == Sleeping && p.chan == ch
  }

  /** A process sleeps on a channel after a step exactly if the step put it to sleep there, or it slept there before and
      the step did not wake it. */
  lemma AsleepIff(s: System, e: Step, i: nat, id: nat)
    requires Ok(s) && Enabled(s, e) && i < |s.procs|
    ensures |Next(s, e).procs| == |s.procs|
    ensures Asleep(Next(s, e).procs[i], Other(id)) <==>
              || e == Sleep(i, id)
              || (Asleep(s.procs[i], Other(id)) && e != Wakeup(id) && !(e.Kill? && e.i == i))
  {
    hide Ok, Next, Enabled, HasZombie;
    LifeCycle(s, e, i);
    FieldsChange(s, e, i);
    Actors(s, e);
    if e == Sleep(i, id) {
      assert Moves(s, e, i, Sleeping);
    } else if Asleep(s.procs[i], Other(id)) && (e == Wakeup(id) || (e.Kill? && e.i == i)) {
      assert Moves(s, e, i, Runnable);
    }
  }

  /** Who a step is for. */
  lemma Actors(s: System, e: Step)
    requires Enabled(s, e)
    ensures e.Sleep? || e.WaitSleep? ==> e.c < |s.procs| && s.procs[e.c].state == Running
    ensures e.Dispatch? ==> e.c < |s.procs| && s.procs[e.c].state == Runnable
  {
  }

  /** After a wakeup nobody sleeps on that channel, and nobody else is disturbed. */
  lemma WakeupWakes(s: System, id: nat, i: nat)
    requires i < |s.procs|
    ensures var p, q := s.procs[i], Next(s, Wakeup(id)).procs[i];
            && !Asleep(q, Other(id))
            && q == if Asleep(p, Other(id)) then p.(state := Runnable) else p
  {
  }

  /** The last step of es that put process i to sleep on channel id, with no wakeup of that channel since. */
  ghost predicate SleptAt(es: seq<Step>, i: nat, id: nat, k: nat) {
    k < |es| && es[k] == Sleep(i, id) && forall j :: k < j < |es| ==> es[j] != Wakeup(id) && !(es[j].Kill? && es[j].i == i)
  }

  ghost predicate Undisturbed(es: seq<Step>, i: nat, id: nat) {
    forall j :: 0 <= j < |es| ==> es[j] != Wakeup(id) && !(es[j].Kill? && es[j].i == i)
  }

  lemma {:induction false} SleptSince(s: System, es: seq<Step>, t: System, i: nat, id: nat)
    requires Ok(s) && Runs(s, es, t) && i < |s.procs|
    ensures i < |t.procs|
    ensures Asleep(t.procs[i], Other(id)) <==>
              (exists k: nat :: SleptAt(es, i, id, k)) || (Asleep(s.procs[i], Other(id)) && Undisturbed(es, i, id))
    decreases |es|
  {
    hide Ok, Next, Enabled;
    if es != [] {
      var rest, m := es[1..], Next(s, es[0]);
      StepOk(s, es[0]);
      AsleepIff(s, es[0], i, id);
      SleptSince(m, rest, t, i, id);
      hide Asleep;
      Shift(es, i, id);
    }
  }

  /** Sleeping in a run and in its tail. */
  lemma Shift(es: seq<Step>, i: nat, id: nat)
    requires es != []
    ensures (exists k: nat :: SleptAt(es, i, id, k)) <==>
              (exists k: nat :: SleptAt(es[1..], i, id, k)) || (es[0] == Sleep(i, id) && Undisturbed(es[1..], i, id))
    ensures Undisturbed(es, i, id) <==> es[0] != Wakeup(id) && !(es[0].Kill? && es[0].i == i) && Undisturbed(es[1..], i, id)
  {
    var rest := es[1..];
    if k: nat :| SleptAt(es, i, id, k) {
      if k > 0 {
        assert SleptAt(rest, i, id, k - 1);
      }
    }
    if k: nat :| SleptAt(rest, i, id, k) {
      assert forall j :: k + 1 < j < |es| ==> es[j] == rest[j - 1];
      assert SleptAt(es, i, id, k + 1);
    }
    if es[0] == Sleep(i, id) && Undisturbed(rest, i, id) {
      assert forall j :: 0 < j < |es| ==> es[j] == rest[j - 1];
      assert SleptAt(es, i, id, 0);
    }
    assert forall j :: 0 < j < |es| ==> es[j] == rest[j - 1];
  }

  /** In every run a process is asleep on a channel exactly if it went to sleep there and there has been neither a
      wakeup of the channel nor a kill of the process since. */
  lemma SleepersIff(nproc: nat, ncpu: nat, es: seq<Step>, t: System, i: nat, id: nat)
    requires nproc > INIT && Runs(Booted(nproc, ncpu), es, t) && i < nproc
    ensures i < |t.procs| && (Asleep(t.procs[i], Other(id)) <==> exists k: nat :: SleptAt(es, i, id, k))
  {
    BootedOk(nproc, ncpu);
    SleptSince(Booted(nproc, ncpu), es, t, i, id);
  }

  /** A sleeper is in wait on itself or on a channel it went to sleep on: nobody sleeps on nothing. */
  ghost predicate OnChannel(s: System) {
    forall i :: 0 <= i < |s.procs| && s.procs[i].state == Sleeping ==> s.procs[i].chan == Proc(i) || s.procs[i].chan.Other?
  }

  lemma OnChannelStep(s: System, e: Step)
    requires Ok(s) && OnChannel(s) && Enabled(s, e)
    ensures OnChannel(Next(s, e))
  {
    var t := Next(s, e);
    hide Ok, Next, Enabled, HasZombie;
    assert |t.procs| == |s.procs| by { SameLength(s, e); }
    forall i | 0 <= i < |t.procs| && t.procs[i].state == Sleeping
      ensures t.procs[i].chan == Proc(i) || t.procs[i].chan.Other?
    {
      LifeCycle(s, e, i);
      FieldsChange(s, e, i);
      Actors(s, e);
    }
  }

  lemma SameLength(s: System, e: Step)
    requires Enabled(s, e)
    ensures |Next(s, e).procs| == |s.procs|
  {
  }

  lemma {:induction false} RunOnChannel(s: System, es: seq<Step>, t: System)
    requires Ok(s) && OnChannel(s) && Runs(s, es, t)
    ensures OnChannel(t)
    decreases |es|
  {
    hide Ok, Next, OnChannel;
    if es != [] {
      StepOk(s, es[0]);
      OnChannelStep(s, es[0]);
      RunOnChannel(Next(s, es[0]), es[1..], t);
    }
  }

  /** In every run, whoever sleeps is in wait without a zombie child, or went to sleep on a channel that has not been
      woken since. */
  lemma NobodySleepsForNothing(nproc: nat, ncpu: nat, es: seq<Step>, t: System, i: nat)
    requires nproc > INIT && Runs(Booted(nproc, ncpu), es, t) && i < nproc && i < |t.procs| && t.procs[i].state == Sleeping
    ensures || (t.procs[i].chan == Proc(i) && !HasZombie(t.procs, i))
            || (t.procs[i].chan.Other? && exists k: nat :: SleptAt(es, i, t.procs[i].chan.id, k))
  {
    BootedOk(nproc, ncpu);
    RunOnChannel(Booted(nproc, ncpu), es, t);
    if t.procs[i].chan.Other? {
      SleepersIff(nproc, ncpu, es, t, i, t.procs[i].chan.id);
    } else {
      NoZombieMissed(nproc, ncpu, es, t, i);
    }
  }
}
