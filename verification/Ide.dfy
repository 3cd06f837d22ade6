/** The queued, interrupt-driven disk driver (ide.c) refines the synchronous memory disk (memide.c). */
module Ide {
  import opened Common

  datatype Buf = Buf(valid: bool, dirty: bool, key: Key, data: Data)

  // ---------- the memory disk ----------

  datatype Memory = Memory(bufs: map<nat, Buf>, disk: map<Key, Data>)

  predicate NothingToDo(b: Buf) {
    b.valid && !b.dirty
  }

  /** The buffer after its transfer, given what the disk holds. */
  function Transferred(b: Buf, stored: Data): Buf {
    if b.dirty then b.(dirty := false, valid := true) else b.(data := stored, valid := true)
  }

  function Stored(b: Buf, disk: map<Key, Data>): map<Key, Data> {
    if b.dirty then disk[b.key := b.data] else disk
  }

  /** What the owner of a buffer, or one call of memide's iderw, does. */
  datatype Act = Edit(id: nat, buf: Buf) | Sync(id: nat)

  ghost predicate CanAct(m: Memory, a: Act) {
    match a
    case Edit(id, buf) => true
    case Sync(id) => id in m.bufs && m.bufs[id].key in m.disk && !NothingToDo(m.bufs[id])
  }

  ghost function Act1(m: Memory, a: Act): Memory
    requires CanAct(m, a)
  {
    match a
    case Edit(id, buf) => m.(bufs := m.bufs[id := buf])
    case Sync(id) =>
      var b := m.bufs[id];
      Memory(m.bufs[id := Transferred(b, m.disk[b.key])], Stored(b, m.disk))
  }

  ghost predicate Acts(m: Memory, acts: seq<Act>, n: Memory)
    decreases |acts|
  {
    if acts == [] then n == m else CanAct(m, acts[0]) && Acts(Act1(m, acts[0]), acts[1..], n)
  }

  // ---------- the driver ----------

  /** A started command, and whether the device is still at work or has raised its interrupt. */
  datatype Command = Write(key: Key, data: Data) | Read(key: Key)
  datatype Device = Idle | Working(cmd: Command) | Ready(cmd: Command, data: Data)

  /** idequeue, the callers asleep in iderw, and all requests in the order they arrived and were served. */
  datatype Driver = Driver(bufs: map<nat, Buf>, disk: map<Key, Data>, queue: seq<nat>, device: Device,
                           calling: set<nat>, asleep: set<nat>, arrived: seq<nat>, served: seq<nat>)

  datatype Step =
    | Touch(id: nat, buf: Buf)
    | Submit(id: nat)
    | Complete
    | Interrupt
    | Return(id: nat)

  /** idestart: a write hands its data over at once. */
  function Started(b: Buf): Device {
    Working(if b.dirty then Write(b.key, b.data) else Read(b.key))
  }

  /** Buffers are touched only by the holder of their lock, and not during its own call. */
  ghost predicate Enabled(d: Driver, e: Step) {
    match e
    case Touch(id, buf) => id !in d.calling
    case Submit(id) => id !in d.calling && id in d.bufs && d.bufs[id].key in d.disk && !NothingToDo(d.bufs[id])
    case Complete => d.device.Working? && d.device.cmd.key in d.disk
    case Interrupt => d.device.Ready? && d.queue != [] && forall id :: id in d.queue ==> id in d.bufs
    case Return(id) => id in d.calling && id !in d.asleep && id in d.bufs && NothingToDo(d.bufs[id])
  }

  /** ideintr on the buffer at the head. */
  function Finished(b: Buf, data: Data): Buf {
    b.(data := if b.dirty then b.data else data, valid := true, dirty := false)
  }

  ghost function Next(d: Driver, e: Step): Driver
    requires Enabled(d, e)
  {
    match e
    case Touch(id, buf) => d.(bufs := d.bufs[id := buf])
    case Submit(id) =>
      d.(queue := d.queue + [id], device := if d.queue == [] then Started(d.bufs[id]) else d.device,
         calling := d.calling + {id}, asleep := d.asleep + {id}, arrived := d.arrived + [id])
    case Complete =>
      match d.device.cmd {
        case Write(key, data) => d.(disk := d.disk[key := data], device := Ready(d.device.cmd, data))
        case Read(key) => d.(device := Ready(d.device.cmd, d.disk[key]))
      }
    case Interrupt =>
      var id := d.queue[0];
      d.(bufs := d.bufs[id := Finished(d.bufs[id], d.device.data)], queue := d.queue[1..],
         device := if |d.queue| > 1 then Started(d.bufs[d.queue[1]]) else Idle,
         asleep := d.asleep - {id}, served := d.served + [id])
    case Return(id) => d.(calling := d.calling - {id})
  }

  ghost predicate Runs(d: Driver, es: seq<Step>, d': Driver)
    decreases |es|
  {
    if es == [] then d' == d else Enabled(d, es[0]) && Runs(Next(d, es[0]), es[1..], d')
  }

  // ---------- what the driver keeps ----------

  predicate Distinct(q: seq<nat>) {
    forall i, j :: 0 <= i < j < |q| ==> q[i] != q[j]
  }

  function CommandOf(b: Buf): Command {
    if b.dirty then Write(b.key, b.data) else Read(b.key)
  }

  ghost predicate Ok(d: Driver) {
    && Distinct(d.queue)
    && (forall id :: id in d.queue ==> id in d.calling && id in d.bufs && d.bufs[id].key in d.disk && !NothingToDo(d.bufs[id]))
    && (d.device.Idle? <==> d.queue == [])
    && (d.queue != [] ==> d.device.cmd == CommandOf(d.bufs[d.queue[0]]))
    && (d.device.Ready? && d.device.cmd.Write? ==> d.device.cmd.key in d.disk && d.disk[d.device.cmd.key] == d.device.cmd.data)
    && d.arrived == d.served + d.queue
    && (forall id :: id in d.asleep <==> id in d.queue)
    && (forall id :: id in d.calling && id !in d.queue ==> id in d.bufs && NothingToDo(d.bufs[id]))
  }

  lemma SubmitOk(d: Driver, id: nat)
    requires Ok(d) && Enabled(d, Submit(id))
    ensures Ok(Next(d, Submit(id)))
  {
    var t := Next(d, Submit(id));
    assert forall x :: x in t.queue <==> x in d.queue || x == id;
    assert d.queue != [] ==> t.queue[0] == d.queue[0];
  }

  lemma InterruptOk(d: Driver)
    requires Ok(d) && Enabled(d, Interrupt)
    ensures Ok(Next(d, Interrupt))
  {
    var t := Next(d, Interrupt);
    var id := d.queue[0];
    assert forall x :: x in d.queue <==> x in t.queue || x == id;
    assert id !in t.queue;
    assert t.served + t.queue == d.served + d.queue;
    assert t.queue != [] ==> t.queue[0] == d.queue[1] && d.queue[1] in t.queue;
  }

  lemma StepOk(d: Driver, e: Step)
    requires Ok(d) && Enabled(d, e)
    ensures Ok(Next(d, e))
  {
    match e
    case Touch(id, buf) =>
    case Submit(id) => SubmitOk(d, id);
    case Complete =>
    case Interrupt => InterruptOk(d);
    case Return(id) =>
  }

  // ---------- refinement ----------

  /** The memory disk's view: a transfer is done once the device has completed it. */
  ghost function Abs(d: Driver): Memory {
    Memory(if d.device.Ready? && d.queue != [] && d.queue[0] in d.bufs then
             d.bufs[d.queue[0] := Transferred(d.bufs[d.queue[0]], d.device.data)]
           else d.bufs,
           d.disk)
  }

  /** What a step is to the memory disk. */
  ghost function ActsOf(d: Driver, e: Step): seq<Act> {
    match e
    case Touch(id, buf) => [Edit(id, buf)]
    case Complete => if d.queue != [] then [Sync(d.queue[0])] else []
    case _ => []
  }

  lemma CompleteRefines(d: Driver)
    requires Ok(d) && Enabled(d, Complete)
    ensures CanAct(Abs(d), Sync(d.queue[0])) && Abs(Next(d, Complete)) == Act1(Abs(d), Sync(d.queue[0]))
  {
    assert d.queue[0] in d.queue;
  }

  lemma InterruptRefines(d: Driver)
    requires Ok(d) && Enabled(d, Interrupt)
    ensures Abs(Next(d, Interrupt)) == Abs(d)
  {
    assert d.queue[0] in d.queue;
    var b := d.bufs[d.queue[0]];
    assert Finished(b, d.device.data) == Transferred(b, d.device.data);
  }

  lemma TouchRefines(d: Driver, id: nat, buf: Buf)
    requires Ok(d) && Enabled(d, Touch(id, buf))
    ensures Abs(Next(d, Touch(id, buf))).bufs == Abs(d).bufs[id := buf]
  {
    if d.queue != [] {
      assert d.queue[0] in d.queue;
    }
  }

  lemma StepRefines(d: Driver, e: Step)
    requires Ok(d) && Enabled(d, e)
    ensures Acts(Abs(d), ActsOf(d, e), Abs(Next(d, e)))
  {
    match e
    case Touch(id, buf) =>
      TouchRefines(d, id, buf);
      OneAct(Abs(d), Edit(id, buf));
    case Complete =>
      CompleteRefines(d);
      OneAct(Abs(d), Sync(d.queue[0]));
    case Interrupt => InterruptRefines(d);
    case Submit(id) => assert d.queue != [] ==> d.queue[0] in d.queue;
    case Return(id) =>
  }

  lemma OneAct(m: Memory, a: Act)
    requires CanAct(m, a)
    ensures Acts(m, [a], Act1(m, a))
  {
    assert [a][1..] == [];
    assert Acts(Act1(m, a), [], Act1(m, a));
  }

  ghost function Trace(d: Driver, es: seq<Step>): seq<Act>
    decreases |es|
  {
    if es == [] || !Enabled(d, es[0]) then [] else ActsOf(d, es[0]) + Trace(Next(d, es[0]), es[1..])
  }

  lemma {:induction false} ActsJoin(m: Memory, a: seq<Act>, n: Memory, b: seq<Act>, o: Memory)
    requires Acts(m, a, n) && Acts(n, b, o)
    ensures Acts(m, a + b, o)
    decreases |a|
  {
    if a == [] {
      assert a + b == b;
    } else {
      ActsJoin(Act1(m, a[0]), a[1..], n, b, o);
      assert (a + b)[1..] == a[1..] + b;
    }
  }

  /** The requests a trace performs, in order. */
  ghost function Syncs(acts: seq<Act>): seq<nat> {
    if acts == [] then [] else (if acts[0].Sync? then [acts[0].id] else []) + Syncs(acts[1..])
  }

  lemma {:induction false} SyncsJoin(a: seq<Act>, b: seq<Act>)
    ensures Syncs(a + b) == Syncs(a) + Syncs(b)
  {
    if a == [] {
      assert a + b == b;
    } else {
      assert (a + b)[1..] == a[1..] + b;
      SyncsJoin(a[1..], b);
    }
  }

  /** The requests the device has carried out: those served, and the head once it is ready. */
  ghost function Done(d: Driver): seq<nat> {
    d.served + if d.device.Ready? && d.queue != [] then [d.queue[0]] else []
  }

  lemma StepSyncs(d: Driver, e: Step)
    requires Ok(d) && Enabled(d, e)
    ensures Done(Next(d, e)) == Done(d) + Syncs(ActsOf(d, e))
  {
    if e.Complete? {
      assert [Sync(d.queue[0])][1..] == [];
    }
  }

  /**
   * Every run of the queued driver is a run of the memory disk: the same edits, and one synchronous iderw per request
   * the device carried out, in the order the requests arrived.
   */
  lemma {:induction false} RunRefines(d: Driver, es: seq<Step>, d': Driver)
    requires Ok(d) && Runs(d, es, d')
    ensures Ok(d') && Acts(Abs(d), Trace(d, es), Abs(d')) && Done(d') == Done(d) + Syncs(Trace(d, es))
    decreases |es|
  {
    hide Ok, Enabled, Next, Abs, ActsOf, Done, Acts, Syncs;
    if es == [] {
      NoActs(d);
    } else {
      var n := Next(d, es[0]);
      StepOk(d, es[0]);
      StepRefines(d, es[0]);
      StepSyncs(d, es[0]);
      RunRefines(n, es[1..], d');
      ActsJoin(Abs(d), ActsOf(d, es[0]), Abs(n), Trace(n, es[1..]), Abs(d'));
      SyncsJoin(ActsOf(d, es[0]), Trace(n, es[1..]));
    }
  }

  lemma NoActs(d: Driver)
    ensures Acts(Abs(d), [], Abs(d)) && Done(d) == Done(d) + Syncs([])
  {
  }

  /** What is carried out is what arrived first; callers that are awake have their buffer. */
  lemma OkMeans(d: Driver)
    requires Ok(d)
    ensures Done(d) <= d.arrived
    ensures forall id :: id in d.asleep <==> id in d.queue
    ensures forall id :: id in d.calling && id !in d.asleep ==> id in d.bufs && NothingToDo(d.bufs[id]) && id in Abs(d).bufs && Abs(d).bufs[id] == d.bufs[id]
  {
    if d.queue != [] {
      assert d.queue == [d.queue[0]] + d.queue[1..];
      assert d.queue[0] in d.queue;
    }
    assert Done(d) == d.arrived[..|Done(d)|];
  }

  function Quiet(bufs: map<nat, Buf>, disk: map<Key, Data>): Driver {
    Driver(bufs, disk, [], Idle, {}, {}, [], [])
  }

  /**
   * From an idle driver: requests are carried out in arrival order, their effect is memide's, and a caller sleeps
   * exactly while its request is queued; awake, it finds its buffer as the memory disk has left it.
   */
  lemma DriverRefinesMemoryDisk(bufs: map<nat, Buf>, disk: map<Key, Data>, es: seq<Step>, d: Driver)
    requires Runs(Quiet(bufs, disk), es, d)
    ensures Done(d) <= d.arrived && Syncs(Trace(Quiet(bufs, disk), es)) == Done(d)
    ensures Acts(Memory(bufs, disk), Trace(Quiet(bufs, disk), es), Abs(d)) && Abs(d).disk == d.disk
    ensures forall id :: id in d.calling ==> (id in d.asleep <==> id in d.queue)
    ensures forall id :: id in d.calling && id !in d.asleep ==> id in d.bufs && NothingToDo(d.bufs[id]) && Abs(d).bufs[id] == d.bufs[id]
  {
    var q := Quiet(bufs, disk);
    assert Ok(q) && Done(q) == [] && Abs(q) == Memory(bufs, disk);
    hide Ok, Runs, Trace, Quiet, Acts, Done;
    RunRefines(q, es, d);
    OkMeans(d);
  }
}
