/** The process table (proc.c) as a step system: each section run under ptable.lock is one step. */
module Processes {
  import opened Common

  datatype State = Unused | Embryo | Sleeping | Runnable | Running | Zombie

  /** Sleep channels: wait sleeps on the process itself, everything else on other addresses. */
  datatype Chan = NoChan | Proc(slot: nat) | Other(id: nat)

  datatype Process = Process(state: State, pid: nat, parent: Option<nat>, chan: Chan, killed: bool)

  /** The slot userinit fills, the first of the table. */
  const INIT: nat := 0

  /** Table, per-CPU current process, next pid, forks in progress (parent to child), pids returned by wait, pids forked. */
  datatype System = System(procs: seq<Process>, cpus: seq<Option<nat>>, nextpid: nat, forking: map<nat, nat>,
                           reaped: seq<nat>, forked: set<nat>)

  predicate IsLive(p: Process) {
    p.state == Sleeping || p.state == Runnable || p.state == Running
  }

  predicate IsRunning(s: System, c: nat) {
    c < |s.procs| && s.procs[c].state == Running
  }

  // ---------- what the sections do to the table ----------

  function WakeOne(p: Process, ch: Chan): Process {
    if p.state == Sleeping && p.chan == ch then p.(state := Runnable) else p
  }

  /** wakeup1. */
  function Woken(ps: seq<Process>, ch: Chan): seq<Process> {
    seq(|ps|, i requires 0 <= i < |ps| => WakeOne(ps[i], ch))
  }

  predicate IsZombieOf(p: Process, c: nat) {
    p.parent == Some(c) && p.state == Zombie
  }

  ghost predicate HasZombie(ps: seq<Process>, c: nat) {
    exists i :: 0 <= i < |ps| && IsZombieOf(ps[i], c)
  }

  ghost predicate HasKids(ps: seq<Process>, c: nat) {
    exists i :: 0 <= i < |ps| && ps[i].parent == Some(c)
  }

  /** The first zombie child of c, as wait's scan finds it. */
  ghost predicate FirstZombie(ps: seq<Process>, c: nat, z: nat) {
    z < |ps| && IsZombieOf(ps[z], c) && forall i :: 0 <= i < z ==> !IsZombieOf(ps[i], c)
  }

  function Adopted(p: Process, c: nat): Process {
    if p.parent == Some(c) then p.(parent := Some(INIT)) else p
  }

  /** Who exit wakes: the parent in wait, and init if it inherits a zombie. */
  ghost predicate ExitWakes(ps: seq<Process>, c: nat, p: Process)
    requires c < |ps|
  {
    && p.state == Sleeping
    && ((ps[c].parent.Some? && p.chan == Proc(ps[c].parent.value)) || (HasZombie(ps, c) && p.chan == Proc(INIT)))
  }

  ghost function ExitedOne(ps: seq<Process>, c: nat, i: nat): Process
    requires c < |ps| && i < |ps|
  {
    var p := Adopted(ps[i], c);
    if i == c then p.(state := Zombie) else if ExitWakes(ps, c, p) then p.(state := Runnable) else p
  }

  /** exit: the table after the process is a zombie and its children are init's. */
  ghost function Exited(ps: seq<Process>, c: nat): seq<Process>
    requires c < |ps|
  {
    seq(|ps|, i requires 0 <= i < |ps| => ExitedOne(ps, c, i))
  }

  /** The slot wait frees. */
  function Freed(p: Process): Process {
    p.(state := Unused, pid := 0, parent := None, killed := false)
  }

  /** Giving up the CPU: the scheduler clears its current process. */
  function Left(cpus: seq<Option<nat>>, c: nat): seq<Option<nat>> {
    seq(|cpus|, k requires 0 <= k < |cpus| => if cpus[k] == Some(c) then None else cpus[k])
  }

  ghost predicate FirstUnused(ps: seq<Process>, i: nat) {
    i < |ps| && ps[i].state == Unused && forall j :: 0 <= j < i ==> ps[j].state != Unused
  }

  ghost predicate FirstPid(ps: seq<Process>, pid: nat, i: nat) {
    i < |ps| && ps[i].pid == pid && forall j :: 0 <= j < i ==> ps[j].pid != pid
  }

  function KilledOne(p: Process): Process {
    p.(killed := true, state := if p.state == Sleeping then Runnable else p.state)
  }

  // ---------- steps ----------

  datatype Step =
    | Alloc(c: nat, np: nat)
    | AllocFail(c: nat)
    | SetParent(c: nat)
    | Launch(c: nat)
    | Exit(c: nat)
    | Reap(c: nat, z: nat)
    | WaitSleep(c: nat)
    | Yield(c: nat)
    | Sleep(c: nat, id: nat)
    | Wakeup(id: nat)
    | Kill(pid: nat, i: nat)
    | Dispatch(k: nat, c: nat)

  /** A fork in progress keeps its process from exiting, waiting or forking again. */
  ghost predicate Enabled(s: System, e: Step) {
    match e
    case Alloc(c, np) => IsRunning(s, c) && c !in s.forking && FirstUnused(s.procs, np)
    case AllocFail(c) => IsRunning(s, c) && c in s.forking && s.forking[c] < |s.procs| && s.procs[s.forking[c]].parent == None
    case SetParent(c) => IsRunning(s, c) && c in s.forking && s.forking[c] < |s.procs| && s.procs[s.forking[c]].parent == None
    case Launch(c) => IsRunning(s, c) && c in s.forking && s.forking[c] < |s.procs| && s.procs[s.forking[c]].parent == Some(c)
    case Exit(c) => IsRunning(s, c) && c !in s.forking && c != INIT
    case Reap(c, z) => IsRunning(s, c) && c !in s.forking && FirstZombie(s.procs, c, z)
    case WaitSleep(c) => IsRunning(s, c) && c !in s.forking && !HasZombie(s.procs, c) && HasKids(s.procs, c) && !s.procs[c].killed
    case Yield(c) => IsRunning(s, c)
    case Sleep(c, id) => IsRunning(s, c)
    case Wakeup(id) => true
    case Kill(pid, i) => FirstPid(s.procs, pid, i)
    case Dispatch(k, c) => k < |s.cpus| && s.cpus[k] == None && c < |s.procs| && s.procs[c].state == Runnable
  }

  ghost function Next(s: System, e: Step): System
    requires Enabled(s, e)
  {
    match e
    case Alloc(c, np) =>
      s.(procs := s.procs[np := s.procs[np].(state := Embryo, pid := s.nextpid)], nextpid := s.nextpid + 1, forking := s.forking[c := np])
    case AllocFail(c) =>
      var np := s.forking[c];
      s.(procs := s.procs[np := s.procs[np].(state := Unused)], forking := s.forking - {c})
    case SetParent(c) =>
      var np := s.forking[c];
      s.(procs := s.procs[np := s.procs[np].(parent := Some(c))])
    case Launch(c) =>
      var np := s.forking[c];
      s.(procs := s.procs[np := s.procs[np].(state := Runnable)], forking := s.forking - {c}, forked := s.forked + {s.procs[np].pid})
    case Exit(c) => s.(procs := Exited(s.procs, c), cpus := Left(s.cpus, c))
    case Reap(c, z) => s.(procs := s.procs[z := Freed(s.procs[z])], reaped := s.reaped + [s.procs[z].pid])
    case WaitSleep(c) => s.(procs := s.procs[c := s.procs[c].(state := Sleeping, chan := Proc(c))], cpus := Left(s.cpus, c))
    case Yield(c) => s.(procs := s.procs[c := s.procs[c].(state := Runnable)], cpus := Left(s.cpus, c))
    case Sleep(c, id) => s.(procs := s.procs[c := s.procs[c].(state := Sleeping, chan := Other(id))], cpus := Left(s.cpus, c))
    case Wakeup(id) => s.(procs := Woken(s.procs, Other(id)))
    case Kill(pid, i) => s.(procs := s.procs[i := KilledOne(s.procs[i])])
    case Dispatch(k, c) =>
      s.(procs := s.procs[c := s.procs[c].(state := Running, chan := NoChan)], cpus := s.cpus[k := Some(c)])
  }

  ghost predicate Runs(s: System, es: seq<Step>, t: System)
    decreases |es|
  {
    if es == [] then t == s else Enabled(s, es[0]) && Runs(Next(s, es[0]), es[1..], t)
  }

  /** After userinit, with every CPU in its scheduler. */
  function Booted(nproc: nat, ncpu: nat): System
    requires nproc > INIT
  {
    System(seq(nproc, i => if i == INIT then Process(Runnable, 1, None, NoChan, false) else Process(Unused, 0, None, NoChan, false)),
           seq(ncpu, k => None), 2, map[], [], {1})
  }

  // ---------- invariants ----------

  ghost predicate OnCpu(cpus: seq<Option<nat>>, p: nat) {
    exists k :: 0 <= k < |cpus| && cpus[k] == Some(p)
  }

  /** A process runs exactly when one CPU, and only one, points at it. */
  ghost predicate CpusOk(s: System) {
    && (forall k :: 0 <= k < |s.cpus| && s.cpus[k].Some? ==> s.cpus[k].value < |s.procs| && s.procs[s.cpus[k].value].state == Running)
    && (forall p :: 0 <= p < |s.procs| && s.procs[p].state == Running ==> OnCpu(s.cpus, p))
    && (forall k, m :: 0 <= k < m < |s.cpus| && s.cpus[k].Some? ==> s.cpus[k] != s.cpus[m])
  }

  /** A fork in progress owns its embryo. */
  ghost predicate ForksOk(s: System) {
    && (forall c :: c in s.forking ==>
          && c < |s.procs| && IsLive(s.procs[c]) && s.forking[c] < |s.procs| && s.procs[s.forking[c]].state == Embryo
          && (s.procs[s.forking[c]].parent == None || s.procs[s.forking[c]].parent == Some(c)))
    && (forall c, d :: c in s.forking && d in s.forking && s.forking[c] == s.forking[d] ==> c == d)
    && (forall p :: 0 <= p < |s.procs| && s.procs[p].state == Embryo && s.procs[p].parent.Some? ==>
          s.procs[p].parent.value in s.forking && s.forking[s.procs[p].parent.value] == p)
  }

  /** init is alive; free slots have no parent; every process but init has a parent that is alive. */
  ghost predicate ParentsOk(s: System) {
    && INIT < |s.procs| && IsLive(s.procs[INIT]) && s.procs[INIT].parent == None
    && (forall p :: 0 <= p < |s.procs| && s.procs[p].state == Unused ==> s.procs[p].parent == None)
    && (forall p :: 0 <= p < |s.procs| ==> s.procs[p].parent != Some(p))
    && (forall p :: 0 <= p < |s.procs| && p != INIT && (IsLive(s.procs[p]) || s.procs[p].state == Zombie) ==>
          s.procs[p].parent.Some? && s.procs[p].parent.value < |s.procs| && IsLive(s.procs[s.procs[p].parent.value]))
  }

  predicate InWait(p: Process, i: nat) {
    p.state == Sleeping && p.chan == Proc(i)
  }

  /** Only wait sleeps on a process, on itself, and never while it has a zombie child. */
  ghost predicate WaitsOk(s: System) {
    && (forall p :: 0 <= p < |s.procs| && s.procs[p].state == Sleeping && s.procs[p].chan.Proc? ==> s.procs[p].chan == Proc(p))
    && (forall p, q :: 0 <= p < |s.procs| && 0 <= q < |s.procs| && InWait(s.procs[p], p) ==> !IsZombieOf(s.procs[q], p))
  }

  predicate IsSettled(p: Process) {
    IsLive(p) || p.state == Zombie
  }

  ghost predicate Present(ps: seq<Process>, x: nat) {
    exists i :: 0 <= i < |ps| && IsSettled(ps[i]) && ps[i].pid == x
  }

  /** Pids in use and pids reaped are all different. */
  ghost predicate PidsApart(s: System) {
    && (forall p :: 0 <= p < |s.procs| && s.procs[p].state != Unused ==> s.procs[p].pid < s.nextpid && s.procs[p].pid !in s.reaped)
    && (forall p, q :: 0 <= p < q < |s.procs| && s.procs[p].state != Unused && s.procs[q].state != Unused ==> s.procs[p].pid != s.procs[q].pid)
    && (forall i, j :: 0 <= i < j < |s.reaped| ==> s.reaped[i] != s.reaped[j])
    && (forall x :: x in s.reaped ==> x < s.nextpid)
  }

  /** The pids forked are those reaped and those of processes in the table. */
  ghost predicate Accounted(s: System) {
    forall x: nat :: x in s.forked <==> x in s.reaped || Present(s.procs, x)
  }

  ghost predicate PidsOk(s: System) {
    PidsApart(s) && Accounted(s)
  }

  ghost predicate Ok(s: System) {
    CpusOk(s) && ForksOk(s) && ParentsOk(s) && WaitsOk(s) && PidsOk(s)
  }
}
