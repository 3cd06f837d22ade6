/** What every run of the process table keeps. */
module ProcessSafety {
  import opened Common
  import opened Processes

  // ---------- CPUs ----------

  lemma OnCpuAt(cpus: seq<Option<nat>>, k: nat, p: nat)
    requires k < |cpus| && cpus[k] == Some(p)
    ensures OnCpu(cpus, p)
  {
  }

  /** The same processes run, on the same CPUs. */
  lemma CpusSame(s: System, t: System)
    requires CpusOk(s) && t.cpus == s.cpus && |t.procs| == |s.procs|
    requires forall p :: 0 <= p < |s.procs| ==> (t.procs[p].state == Running <==> s.procs[p].state == Running)
    ensures CpusOk(t)
  {
    hide OnCpu;
  }

  /** Process c stops running and its CPU lets go of it. */
  lemma CpusLeft(s: System, t: System, c: nat)
    requires CpusOk(s) && t.cpus == Left(s.cpus, c) && |t.procs| == |s.procs|
    requires forall p :: 0 <= p < |s.procs| ==> (t.procs[p].state == Running <==> s.procs[p].state == Running && p != c)
    ensures CpusOk(t)
  {
    forall p: nat | p < |t.procs| && t.procs[p].state == Running
      ensures OnCpu(t.cpus, p)
    {
      assert OnCpu(s.cpus, p);
      var k: nat :| k < |s.cpus| && s.cpus[k] == Some(p);
      OnCpuAt(t.cpus, k, p);
    }
    hide OnCpu;
  }

  lemma CpusDispatch(s: System, k: nat, c: nat)
    requires CpusOk(s) && Enabled(s, Dispatch(k, c))
    ensures CpusOk(Next(s, Dispatch(k, c)))
  {
    var t := Next(s, Dispatch(k, c));
    forall p: nat | p < |t.procs| && t.procs[p].state == Running
      ensures OnCpu(t.cpus, p)
    {
      if p == c {
        OnCpuAt(t.cpus, k, p);
      } else {
        assert OnCpu(s.cpus, p);
        var m: nat :| m < |s.cpus| && s.cpus[m] == Some(p);
        OnCpuAt(t.cpus, m, p);
      }
    }
    hide OnCpu;
  }

  // ---------- steps that only move processes between sleeping, runnable and running ----------

  ghost predicate Quiet(s: System, t: System) {
    && |t.procs| == |s.procs| && t.forking == s.forking && t.nextpid == s.nextpid && t.reaped == s.reaped && t.forked == s.forked
    && forall p :: 0 <= p < |s.procs| ==> SameButAwake(s.procs[p], t.procs[p])
  }

  predicate SameButAwake(p: Process, q: Process) {
    q.pid == p.pid && q.parent == p.parent && (IsLive(q) <==> IsLive(p)) && (!IsLive(p) ==> q.state == p.state)
  }

  lemma QuietForks(s: System, t: System)
    requires ForksOk(s) && Quiet(s, t)
    ensures ForksOk(t)
  {
    hide IsLive;
    assert forall p :: 0 <= p < |s.procs| ==> (t.procs[p].state == Embryo <==> s.procs[p].state == Embryo) by {
      forall p | 0 <= p < |s.procs|
        ensures t.procs[p].state == Embryo <==> s.procs[p].state == Embryo
      {
        EmbryoSame(s.procs[p], t.procs[p]);
      }
    }
  }

  lemma EmbryoSame(p: Process, q: Process)
    requires SameButAwake(p, q)
    ensures q.state == Embryo <==> p.state == Embryo
    ensures q.state == Unused <==> p.state == Unused
    ensures q.state == Zombie <==> p.state == Zombie
  {
  }

  lemma QuietParents(s: System, t: System)
    requires ParentsOk(s) && Quiet(s, t)
    ensures ParentsOk(t)
  {
    forall p | 0 <= p < |s.procs|
      ensures (t.procs[p].state == Unused <==> s.procs[p].state == Unused) && (t.procs[p].state == Zombie <==> s.procs[p].state == Zombie)
    {
      EmbryoSame(s.procs[p], t.procs[p]);
    }
    hide IsLive;
  }

  lemma QuietPids(s: System, t: System)
    requires PidsOk(s) && Quiet(s, t)
    ensures PidsOk(t)
  {
    forall p | 0 <= p < |s.procs|
      ensures (t.procs[p].state == Unused <==> s.procs[p].state == Unused) && (IsSettled(t.procs[p]) <==> IsSettled(s.procs[p]))
    {
      EmbryoSame(s.procs[p], t.procs[p]);
    }
    hide IsSettled, IsLive;
    PresentSame(s.procs, t.procs);
    ApartSame(s, t);
    hide Present, PidsApart;
  }

  lemma PresentSame(ps: seq<Process>, qs: seq<Process>)
    requires |qs| == |ps| && forall i :: 0 <= i < |ps| ==> qs[i].pid == ps[i].pid && (IsSettled(qs[i]) <==> IsSettled(ps[i]))
    ensures forall x: nat :: Present(qs, x) <==> Present(ps, x)
  {
    hide IsSettled;
    forall x: nat
      ensures Present(qs, x) <==> Present(ps, x)
    {
      if Present(ps, x) {
        var i :| 0 <= i < |ps| && IsSettled(ps[i]) && ps[i].pid == x;
        assert IsSettled(qs[i]);
      }
      if Present(qs, x) {
        var i :| 0 <= i < |qs| && IsSettled(qs[i]) && qs[i].pid == x;
        assert IsSettled(ps[i]);
      }
    }
  }

  /** No one starts to wait and no new zombie appears. */
  lemma WaitsSame(s: System, t: System)
    requires WaitsOk(s) && |t.procs| == |s.procs|
    requires forall p :: 0 <= p < |s.procs| ==>
               && (t.procs[p].state == Sleeping ==> s.procs[p].state == Sleeping && t.procs[p].chan == s.procs[p].chan)
               && (t.procs[p].state == Zombie ==> s.procs[p].state == Zombie && t.procs[p].parent == s.procs[p].parent)
    ensures WaitsOk(t)
  {
  }

  /** Process c goes to sleep, in wait only if it has no zombie child. */
  lemma WaitsAsleep(s: System, t: System, c: nat)
    requires WaitsOk(s) && |t.procs| == |s.procs| && c < |s.procs| && t.procs[c].state == Sleeping
    requires forall p :: 0 <= p < |s.procs| && p != c ==> t.procs[p] == s.procs[p]
    requires t.procs[c].chan.Other? || (t.procs[c].chan == Proc(c) && !HasZombie(s.procs, c))
    ensures WaitsOk(t)
  {
    forall q: nat | q < |t.procs| && t.procs[c].chan == Proc(c)
      ensures !IsZombieOf(t.procs[q], c)
    {
      assert q == c || !IsZombieOf(s.procs[q], c);
    }
    hide HasZombie;
  }

  lemma IsQuiet(s: System, e: Step)
    requires Enabled(s, e) && (e.WaitSleep? || e.Yield? || e.Sleep? || e.Wakeup? || e.Kill? || e.Dispatch?)
    ensures Quiet(s, Next(s, e))
  {
    hide HasZombie, HasKids, FirstPid;
    match e
    case WaitSleep(c) =>
    case Yield(c) =>
    case Sleep(c, id) =>
    case Wakeup(id) =>
    case Kill(pid, i) => assert i < |s.procs| by { KillInTable(s, pid, i); }
    case Dispatch(k, c) =>
  }

  lemma KillInTable(s: System, pid: nat, i: nat)
    requires FirstPid(s.procs, pid, i)
    ensures i < |s.procs|
  {
  }

  lemma QuietStep(s: System, e: Step)
    requires Ok(s) && Enabled(s, e) && (e.WaitSleep? || e.Yield? || e.Sleep? || e.Wakeup? || e.Kill? || e.Dispatch?)
    ensures var t := Next(s, e); ForksOk(t) && ParentsOk(t) && PidsOk(t)
  {
    var t := Next(s, e);
    IsQuiet(s, e);
    hide Next, Quiet, ForksOk, ParentsOk, PidsOk, CpusOk, WaitsOk;
    QuietForks(s, t);
    QuietParents(s, t);
    QuietPids(s, t);
  }

  lemma WaitSleepOk(s: System, c: nat)
    requires Ok(s) && Enabled(s, WaitSleep(c))
    ensures Ok(Next(s, WaitSleep(c)))
  {
    hide CpusOk, ForksOk, ParentsOk, WaitsOk, PidsOk, PidsApart, Accounted, Present, HasZombie, HasKids;
    QuietStep(s, WaitSleep(c));
    var t := Next(s, WaitSleep(c));
    CpusLeft(s, t, c);
    WaitsAsleep(s, t, c);
  }

  lemma YieldOk(s: System, c: nat)
    requires Ok(s) && Enabled(s, Yield(c))
    ensures Ok(Next(s, Yield(c)))
  {
    hide CpusOk, ForksOk, ParentsOk, WaitsOk, PidsOk, PidsApart, Accounted, Present, HasZombie, HasKids;
    QuietStep(s, Yield(c));
    var t := Next(s, Yield(c));
    CpusLeft(s, t, c);
    WaitsSame(s, t);
  }

  lemma SleepOk(s: System, c: nat, id: nat)
    requires Ok(s) && Enabled(s, Sleep(c, id))
    ensures Ok(Next(s, Sleep(c, id)))
  {
    hide CpusOk, ForksOk, ParentsOk, WaitsOk, PidsOk, PidsApart, Accounted, Present, HasZombie, HasKids;
    QuietStep(s, Sleep(c, id));
    var t := Next(s, Sleep(c, id));
    CpusLeft(s, t, c);
    WaitsAsleep(s, t, c);
  }

  lemma WakeupOk(s: System, id: nat)
    requires Ok(s) && Enabled(s, Wakeup(id))
    ensures Ok(Next(s, Wakeup(id)))
  {
    hide CpusOk, ForksOk, ParentsOk, WaitsOk, PidsOk, PidsApart, Accounted, Present, HasZombie, HasKids;
    QuietStep(s, Wakeup(id));
    var t := Next(s, Wakeup(id));
    CpusSame(s, t);
    WaitsSame(s, t);
  }

  lemma KillOk(s: System, pid: nat, i: nat)
    requires Ok(s) && Enabled(s, Kill(pid, i))
    ensures Ok(Next(s, Kill(pid, i)))
  {
    hide CpusOk, ForksOk, ParentsOk, WaitsOk, PidsOk, PidsApart, Accounted, Present, HasZombie, HasKids;
    QuietStep(s, Kill(pid, i));
    var t := Next(s, Kill(pid, i));
    CpusSame(s, t);
    WaitsSame(s, t);
  }

  lemma DispatchOk(s: System, k: nat, c: nat)
    requires Ok(s) && Enabled(s, Dispatch(k, c))
    ensures Ok(Next(s, Dispatch(k, c)))
  {
    hide CpusOk, ForksOk, ParentsOk, WaitsOk, PidsOk, PidsApart, Accounted, Present, HasZombie, HasKids;
    QuietStep(s, Dispatch(k, c));
    CpusDispatch(s, k, c);
    WaitsSame(s, Next(s, Dispatch(k, c)));
  }

  // ---------- fork ----------

  lemma AllocOk(s: System, c: nat, np: nat)
    requires Ok(s) && Enabled(s, Alloc(c, np))
    ensures Ok(Next(s, Alloc(c, np)))
  {
    UnusedAt(s, np);
    hide CpusOk, ForksOk, ParentsOk, WaitsOk, PidsApart, Accounted, Present, FirstUnused;
    var t := Next(s, Alloc(c, np));
    CpusSame(s, t);
    WaitsSame(s, t);
    AllocForks(s, c, np);
    AllocParents(s, c, np);
    AllocPids(s, c, np);
  }

  lemma AllocForks(s: System, c: nat, np: nat)
    requires ForksOk(s) && ParentsOk(s) && Enabled(s, Alloc(c, np))
    ensures ForksOk(Next(s, Alloc(c, np)))
  {
    hide FirstUnused;
    UnusedAt(s, np);
  }

  lemma UnusedAt(s: System, np: nat)
    requires ParentsOk(s) && FirstUnused(s.procs, np)
    ensures np < |s.procs| && np != INIT && s.procs[np].state == Unused && s.procs[np].parent == None
  {
  }

  lemma AllocParents(s: System, c: nat, np: nat)
    requires ParentsOk(s) && Enabled(s, Alloc(c, np))
    ensures ParentsOk(Next(s, Alloc(c, np)))
  {
    UnusedAt(s, np);
    hide FirstUnused;
  }

  lemma AllocPids(s: System, c: nat, np: nat)
    requires PidsOk(s) && ParentsOk(s) && Enabled(s, Alloc(c, np))
    ensures PidsOk(Next(s, Alloc(c, np)))
  {
    UnusedAt(s, np);
    hide FirstUnused, Present, ParentsOk, PidsApart, Accounted;
    var t := Next(s, Alloc(c, np));
    PresentUpdate(s.procs, np, t.procs[np]);
    AccountedSame(s, t);
    AllocApart(s, c, np);
  }

  lemma AllocApart(s: System, c: nat, np: nat)
    requires PidsApart(s) && Enabled(s, Alloc(c, np))
    ensures PidsApart(Next(s, Alloc(c, np)))
  {
    assert np < |s.procs| && s.procs[np].state == Unused;
    hide FirstUnused;
  }

  /** The slots in use, and their pids, are the same or fewer. */
  lemma ApartSame(s: System, t: System)
    requires PidsApart(s) && |t.procs| == |s.procs| && t.nextpid == s.nextpid && t.reaped == s.reaped
    requires forall p :: 0 <= p < |s.procs| && t.procs[p].state != Unused ==> s.procs[p].state != Unused && t.procs[p].pid == s.procs[p].pid
    ensures PidsApart(t)
  {
  }

  /** Changing one slot that is in use neither before nor after changes no pid present. */
  lemma PresentUpdate(ps: seq<Process>, i: nat, p: Process)
    requires i < |ps| && !IsSettled(ps[i]) && !IsSettled(p)
    ensures forall x: nat :: Present(ps[i := p], x) <==> Present(ps, x)
  {
    forall x: nat
      ensures Present(ps[i := p], x) <==> Present(ps, x)
    {
      PresentAdd(ps, i, p, x);
    }
  }

  lemma PresentAdd(ps: seq<Process>, i: nat, p: Process, x: nat)
    requires i < |ps| && !IsSettled(ps[i])
    ensures Present(ps[i := p], x) <==> Present(ps, x) || (IsSettled(p) && p.pid == x)
  {
    hide IsSettled;
    var qs := ps[i := p];
    if Present(ps, x) {
      var k :| 0 <= k < |ps| && IsSettled(ps[k]) && ps[k].pid == x;
      assert IsSettled(qs[k]);
    }
    if Present(qs, x) {
      var k :| 0 <= k < |qs| && IsSettled(qs[k]) && qs[k].pid == x;
      assert k == i || IsSettled(ps[k]);
    }
    if IsSettled(p) && p.pid == x {
      assert IsSettled(qs[i]) && qs[i].pid == x;
    }
  }

  lemma EmbryoAt(s: System, c: nat)
    requires ForksOk(s) && c in s.forking
    ensures s.forking[c] < |s.procs| && s.procs[s.forking[c]].state == Embryo
  {
  }

  /** What a change to one embryo, or to what becomes of it, leaves alone. */
  lemma EmbryoChanged(s: System, t: System, i: nat, p: Process)
    requires Ok(s) && i < |s.procs| && s.procs[i].state == Embryo && t.procs == s.procs[i := p] && p.pid == s.procs[i].pid
    requires p.state == Unused || p.state == Embryo || p.state == Runnable
    requires t.cpus == s.cpus && t.nextpid == s.nextpid && t.reaped == s.reaped
    ensures CpusOk(t) && WaitsOk(t) && PidsApart(t)
  {
    hide CpusOk, ForksOk, ParentsOk, WaitsOk, PidsApart, Accounted, Present;
    CpusSame(s, t);
    WaitsSame(s, t);
    ApartSame(s, t);
  }

  lemma AccountedSame(s: System, t: System)
    requires Accounted(s) && t.reaped == s.reaped && t.forked == s.forked
    requires forall x: nat :: Present(t.procs, x) <==> Present(s.procs, x)
    ensures Accounted(t)
  {
    hide Present;
  }

  lemma AllocFailOk(s: System, c: nat)
    requires Ok(s) && Enabled(s, AllocFail(c))
    ensures Ok(Next(s, AllocFail(c)))
  {
    var t := Next(s, AllocFail(c));
    var np := s.forking[c];
    EmbryoAt(s, c);
    EmbryoChanged(s, t, np, t.procs[np]);
    AllocFailForks(s, c);
    AllocFailParents(s, c);
    PresentUpdate(s.procs, np, t.procs[np]);
    AccountedSame(s, t);
    hide CpusOk, ForksOk, ParentsOk, WaitsOk, PidsApart, Accounted, Present;
  }

  lemma AllocFailForks(s: System, c: nat)
    requires ForksOk(s) && Enabled(s, AllocFail(c))
    ensures ForksOk(Next(s, AllocFail(c)))
  {
  }

  lemma AllocFailParents(s: System, c: nat)
    requires ForksOk(s) && ParentsOk(s) && Enabled(s, AllocFail(c))
    ensures ParentsOk(Next(s, AllocFail(c)))
  {
    EmbryoAt(s, c);
    hide ForksOk;
    var t, np := Next(s, AllocFail(c)), s.forking[c];
    assert t.procs == s.procs[np := s.procs[np].(state := Unused)];
    hide Next;
  }

  lemma SetParentOk(s: System, c: nat)
    requires Ok(s) && Enabled(s, SetParent(c))
    ensures Ok(Next(s, SetParent(c)))
  {
    var t := Next(s, SetParent(c));
    var np := s.forking[c];
    EmbryoAt(s, c);
    EmbryoChanged(s, t, np, t.procs[np]);
    SetParentForks(s, c);
    SetParentParents(s, c);
    PresentUpdate(s.procs, np, t.procs[np]);
    AccountedSame(s, t);
    hide CpusOk, ForksOk, ParentsOk, WaitsOk, PidsApart, Accounted, Present;
  }

  lemma SetParentForks(s: System, c: nat)
    requires ForksOk(s) && Enabled(s, SetParent(c))
    ensures ForksOk(Next(s, SetParent(c)))
  {
  }

  lemma SetParentParents(s: System, c: nat)
    requires ForksOk(s) && ParentsOk(s) && Enabled(s, SetParent(c))
    ensures ParentsOk(Next(s, SetParent(c)))
  {
    var np := s.forking[c];
    assert s.procs[np].state == Embryo;
    hide ForksOk;
  }

  lemma LaunchOk(s: System, c: nat)
    requires Ok(s) && Enabled(s, Launch(c))
    ensures Ok(Next(s, Launch(c)))
  {
    var t := Next(s, Launch(c));
    var np := s.forking[c];
    EmbryoAt(s, c);
    EmbryoChanged(s, t, np, t.procs[np]);
    LaunchForks(s, c);
    LaunchParents(s, c);
    LaunchAccounted(s, c);
    hide CpusOk, ForksOk, ParentsOk, WaitsOk, PidsApart, Accounted, Present;
  }

  lemma LaunchForks(s: System, c: nat)
    requires ForksOk(s) && Enabled(s, Launch(c))
    ensures ForksOk(Next(s, Launch(c)))
  {
  }

  lemma LaunchParents(s: System, c: nat)
    requires ForksOk(s) && ParentsOk(s) && Enabled(s, Launch(c))
    ensures ParentsOk(Next(s, Launch(c)))
  {
    EmbryoAt(s, c);
    assert IsLive(s.procs[c]);
    hide ForksOk;
    var t, np := Next(s, Launch(c)), s.forking[c];
    assert t.procs == s.procs[np := s.procs[np].(state := Runnable)];
    hide Next;
  }

  lemma LaunchAccounted(s: System, c: nat)
    requires ForksOk(s) && Accounted(s) && Enabled(s, Launch(c))
    ensures Accounted(Next(s, Launch(c)))
  {
    EmbryoAt(s, c);
    hide ForksOk, Present;
    var t := Next(s, Launch(c));
    var np := s.forking[c];
    forall x: nat
      ensures x in t.forked <==> x in t.reaped || Present(t.procs, x)
    {
      PresentAdd(s.procs, np, t.procs[np], x);
    }
  }

  // ---------- wait ----------

  lemma ReapOk(s: System, c: nat, z: nat)
    requires Ok(s) && Enabled(s, Reap(c, z))
    ensures Ok(Next(s, Reap(c, z)))
  {
    hide CpusOk, ForksOk, ParentsOk, WaitsOk, PidsOk, PidsApart, Accounted, Present, HasZombie, HasKids;
    var t := Next(s, Reap(c, z));
    CpusSame(s, t);
    WaitsSame(s, t);
    ReapForks(s, c, z);
    ReapParents(s, c, z);
    ReapPids(s, c, z);
  }

  lemma ReapPids(s: System, c: nat, z: nat)
    requires PidsOk(s) && Enabled(s, Reap(c, z))
    ensures PidsOk(Next(s, Reap(c, z)))
  {
    ReapApart(s, c, z);
    ReapAccounted(s, c, z);
    hide PidsApart, Accounted;
  }

  lemma ReapForks(s: System, c: nat, z: nat)
    requires ForksOk(s) && Enabled(s, Reap(c, z))
    ensures ForksOk(Next(s, Reap(c, z)))
  {
    assert z < |s.procs| && s.procs[z].state == Zombie;
    hide FirstZombie;
  }

  lemma ReapParents(s: System, c: nat, z: nat)
    requires ParentsOk(s) && Enabled(s, Reap(c, z))
    ensures ParentsOk(Next(s, Reap(c, z)))
  {
    assert z < |s.procs| && s.procs[z].state == Zombie;
    hide FirstZombie;
  }

  lemma ReapApart(s: System, c: nat, z: nat)
    requires PidsApart(s) && Enabled(s, Reap(c, z))
    ensures PidsApart(Next(s, Reap(c, z)))
  {
    assert z < |s.procs| && s.procs[z].state == Zombie;
    hide FirstZombie;
  }

  lemma ReapAccounted(s: System, c: nat, z: nat)
    requires PidsOk(s) && Enabled(s, Reap(c, z))
    ensures Accounted(Next(s, Reap(c, z)))
  {
    var t := Next(s, Reap(c, z));
    assert z < |s.procs| && s.procs[z].state == Zombie;
    assert s.procs == t.procs[z := s.procs[z]];
    hide FirstZombie, Present, PidsApart;
    forall x: nat
      ensures x in t.forked <==> x in t.reaped || Present(t.procs, x)
    {
      PresentAdd(t.procs, z, s.procs[z], x);
    }
  }

  // ---------- exit ----------

  /** exit changes no pid, moves nothing into or out of use, and makes only c a zombie. */
  lemma ExitedAt(s: System, c: nat, i: nat)
    requires c < |s.procs| && i < |s.procs| && s.procs[c].state == Running
    ensures var p, q := s.procs[i], Exited(s.procs, c)[i];
            && q.pid == p.pid && q.parent == (if p.parent == Some(c) then Some(INIT) else p.parent)
            && (q.state == Unused <==> p.state == Unused) && (q.state == Embryo <==> p.state == Embryo)
            && (q.state == Running <==> p.state == Running && i != c) && (q.state == Zombie <==> p.state == Zombie || i == c)
            && (q.state == Sleeping <==> p.state == Sleeping && !ExitWakes(s.procs, c, p)) && q.chan == p.chan
            && (IsSettled(q) <==> IsSettled(p)) && (IsLive(q) <==> IsLive(p) && i != c)
  {
    assert ExitWakes(s.procs, c, Adopted(s.procs[i], c)) == ExitWakes(s.procs, c, s.procs[i]);
    hide ExitWakes;
  }

  lemma ExitForks(s: System, c: nat)
    requires ForksOk(s) && Enabled(s, Exit(c))
    ensures ForksOk(Next(s, Exit(c)))
  {
    var t := Next(s, Exit(c));
    forall i | 0 <= i < |s.procs|
      ensures t.procs[i].state == Embryo <==> s.procs[i].state == Embryo
      ensures IsLive(t.procs[i]) <==> IsLive(s.procs[i]) && i != c
      ensures s.procs[i].state == Embryo ==> t.procs[i].parent == s.procs[i].parent
    {
      ExitedAt(s, c, i);
    }
    hide Exited, IsLive;
  }

  lemma ExitParents(s: System, c: nat)
    requires ParentsOk(s) && Enabled(s, Exit(c))
    ensures ParentsOk(Next(s, Exit(c)))
  {
    var t := Next(s, Exit(c));
    forall i | 0 <= i < |s.procs|
      ensures t.procs[i].parent == if s.procs[i].parent == Some(c) then Some(INIT) else s.procs[i].parent
      ensures t.procs[i].state == Unused <==> s.procs[i].state == Unused
      ensures t.procs[i].state == Zombie <==> s.procs[i].state == Zombie || i == c
      ensures IsLive(t.procs[i]) <==> IsLive(s.procs[i]) && i != c
    {
      ExitedAt(s, c, i);
    }
    assert IsLive(s.procs[c]);
    hide Exited, IsLive;
  }

  lemma ExitWaits(s: System, c: nat)
    requires WaitsOk(s) && ParentsOk(s) && Enabled(s, Exit(c))
    ensures WaitsOk(Next(s, Exit(c)))
  {
    var t := Next(s, Exit(c));
    forall p: nat | p < |t.procs| && t.procs[p].state == Sleeping
      ensures s.procs[p].state == Sleeping && t.procs[p].chan == s.procs[p].chan
    {
      ExitedAt(s, c, p);
    }
    forall p: nat, q: nat | p < |t.procs| && q < |t.procs| && InWait(t.procs[p], p)
      ensures !IsZombieOf(t.procs[q], p)
    {
      ExitNoZombie(s, c, p, q);
    }
    hide Exited;
  }

  lemma ZombieSeen(ps: seq<Process>, c: nat, q: nat)
    requires q < |ps|
    ensures IsZombieOf(ps[q], c) ==> HasZombie(ps, c)
  {
  }

  lemma ExitNoZombie(s: System, c: nat, p: nat, q: nat)
    requires WaitsOk(s) && ParentsOk(s) && Enabled(s, Exit(c)) && p < |s.procs| && q < |s.procs|
    requires InWait(Exited(s.procs, c)[p], p)
    ensures !IsZombieOf(Exited(s.procs, c)[q], p)
  {
    ExitedAt(s, c, p);
    ExitedAt(s, c, q);
    assert !IsZombieOf(s.procs[q], p);
    ZombieSeen(s.procs, c, q);
    hide Exited;
  }

  lemma ExitOk(s: System, c: nat)
    requires Ok(s) && Enabled(s, Exit(c))
    ensures Ok(Next(s, Exit(c)))
  {
    var t := Next(s, Exit(c));
    ExitForks(s, c);
    ExitParents(s, c);
    ExitWaits(s, c);
    hide CpusOk, ForksOk, ParentsOk, WaitsOk, PidsApart, Accounted, Present;
    forall i | 0 <= i < |s.procs|
      ensures t.procs[i].pid == s.procs[i].pid && (IsSettled(t.procs[i]) <==> IsSettled(s.procs[i]))
      ensures (t.procs[i].state == Unused <==> s.procs[i].state == Unused) && (t.procs[i].state == Running <==> s.procs[i].state == Running && i != c)
    {
      ExitedAt(s, c, i);
    }
    hide Exited, IsSettled;
    CpusLeft(s, t, c);
    PresentSame(s.procs, t.procs);
    AccountedSame(s, t);
    ApartSame(s, t);
  }

  // ---------- every run ----------

  lemma StepOk(s: System, e: Step)
    requires Ok(s) && Enabled(s, e)
    ensures Ok(Next(s, e))
  {
    hide Ok, Next;
    match e
    case Alloc(c, np) => AllocOk(s, c, np);
    case AllocFail(c) => AllocFailOk(s, c);
    case SetParent(c) => SetParentOk(s, c);
    case Launch(c) => LaunchOk(s, c);
    case Exit(c) => ExitOk(s, c);
    case Reap(c, z) => ReapOk(s, c, z);
    case WaitSleep(c) => WaitSleepOk(s, c);
    case Yield(c) => YieldOk(s, c);
    case Sleep(c, id) => SleepOk(s, c, id);
    case Wakeup(id) => WakeupOk(s, id);
    case Kill(pid, i) => KillOk(s, pid, i);
    case Dispatch(k, c) => DispatchOk(s, k, c);
  }

  lemma {:induction false} RunOk(s: System, es: seq<Step>, t: System)
    requires Ok(s) && Runs(s, es, t)
    ensures Ok(t)
    decreases |es|
  {
    hide Ok, Next;
    if es != [] {
      StepOk(s, es[0]);
      RunOk(Next(s, es[0]), es[1..], t);
    }
  }

  lemma BootedOk(nproc: nat, ncpu: nat)
    requires nproc > INIT
    ensures Ok(Booted(nproc, ncpu))
  {
    var s := Booted(nproc, ncpu);
    assert IsSettled(s.procs[INIT]) && s.procs[INIT].pid == 1;
    assert forall p :: 0 <= p < nproc && p != INIT ==> s.procs[p].state == Unused;
    assert Present(s.procs, 1);
  }

  /** Whenever ptable.lock is free, a process is running exactly when one CPU, and only one, points at it. */
  lemma RunningIffOnOneCpu(nproc: nat, ncpu: nat, es: seq<Step>, t: System, p: nat)
    requires nproc > INIT && Runs(Booted(nproc, ncpu), es, t) && p < |t.procs|
    ensures t.procs[p].state == Running <==> OnCpu(t.cpus, p)
    ensures forall k, m :: 0 <= k < m < |t.cpus| ==> !(t.cpus[k] == Some(p) && t.cpus[m] == Some(p))
  {
    BootedOk(nproc, ncpu);
    RunOk(Booted(nproc, ncpu), es, t);
    hide Runs, ForksOk, ParentsOk, WaitsOk, PidsOk;
  }

  /** Every process but init, once launched, has a parent that has not exited; init never exits. */
  lemma ParentsAreLive(nproc: nat, ncpu: nat, es: seq<Step>, t: System, p: nat)
    requires nproc > INIT && Runs(Booted(nproc, ncpu), es, t) && p < |t.procs|
    ensures INIT < |t.procs| && IsLive(t.procs[INIT])
    ensures p != INIT && IsSettled(t.procs[p]) ==>
              t.procs[p].parent.Some? && t.procs[p].parent.value < |t.procs| && IsLive(t.procs[t.procs[p].parent.value])
  {
    BootedOk(nproc, ncpu);
    RunOk(Booted(nproc, ncpu), es, t);
    hide Runs, ForksOk, CpusOk, WaitsOk, PidsOk;
  }

  /** No process sleeps in wait while one of its children is a zombie. */
  lemma NoZombieMissed(nproc: nat, ncpu: nat, es: seq<Step>, t: System, p: nat)
    requires nproc > INIT && Runs(Booted(nproc, ncpu), es, t) && p < |t.procs| && InWait(t.procs[p], p)
    ensures !HasZombie(t.procs, p)
  {
    BootedOk(nproc, ncpu);
    RunOk(Booted(nproc, ncpu), es, t);
    hide Runs, ForksOk, CpusOk, ParentsOk, PidsOk;
  }

  /** wait returns each pid at most once, and a pid forked is in the table or has been returned, never both. */
  lemma EachPidReapedOnce(nproc: nat, ncpu: nat, es: seq<Step>, t: System)
    requires nproc > INIT && Runs(Booted(nproc, ncpu), es, t)
    ensures forall i, j :: 0 <= i < j < |t.reaped| ==> t.reaped[i] != t.reaped[j]
    ensures forall x: nat :: x in t.forked <==> x in t.reaped || Present(t.procs, x)
    ensures forall x: nat :: !(x in t.reaped && Present(t.procs, x))
  {
    BootedOk(nproc, ncpu);
    RunOk(Booted(nproc, ncpu), es, t);
    hide Runs, ForksOk, CpusOk, ParentsOk, WaitsOk;
    forall x: nat
      ensures !(x in t.reaped && Present(t.procs, x))
    {
    }
  }
}
