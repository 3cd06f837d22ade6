/** Pipes (pipe.c) as a step system: each section run under the pipe's lock is one step, and sleep ends a section. */
module Pipes {
  import opened Common

  const PIPESIZE: nat := 512

  type Byte = x: int | 0 <= x < 256

  /** All bytes ever put in and taken out, the two ends, and who sleeps on nread and on nwrite. */
  datatype Pipe = Pipe(sent: seq<Byte>, got: seq<Byte>, readopen: bool, writeopen: bool, readers: set<nat>, writers: set<nat>)

  datatype Outcome = Done | Failed | Asleep

  ghost predicate Fits(p: Pipe) {
    p.got <= p.sent && |p.sent| - |p.got| <= PIPESIZE
  }

  /** How many of the n bytes still to write go in before the pipe is full. */
  function Accepts(p: Pipe, n: nat): nat
    requires Fits(p)
  {
    Min(PIPESIZE - (|p.sent| - |p.got|), n)
  }

  function WriteOutcome(p: Pipe, n: nat, killed: bool): Outcome
    requires Fits(p)
  {
    if Accepts(p, n) == n then Done else if !p.readopen || killed then Failed else Asleep
  }

  /** pipewrite from the start or from waking, with `rest` still to write. */
  function Written(p: Pipe, me: nat, rest: seq<Byte>, killed: bool): Pipe
    requires Fits(p)
  {
    var q := p.(sent := p.sent + rest[..Accepts(p, |rest|)]);
    match WriteOutcome(p, |rest|, killed)
    case Done => q.(readers := {})
    case Failed => q
    case Asleep => q.(readers := {}, writers := q.writers + {me})
  }

  function ReadOutcome(p: Pipe, killed: bool): Outcome
    requires Fits(p)
  {
    if p.got == p.sent && p.writeopen then (if killed then Failed else Asleep) else Done
  }

  /** How many bytes a read of up to n takes. */
  function Takes(p: Pipe, n: nat, killed: bool): nat
    requires Fits(p)
  {
    if ReadOutcome(p, killed).Done? then Min(n, |p.sent| - |p.got|) else 0
  }

  /** piperead from the start or from waking. */
  function AfterRead(p: Pipe, me: nat, n: nat, killed: bool): Pipe
    requires Fits(p)
  {
    match ReadOutcome(p, killed)
    case Done => p.(got := p.sent[..|p.got| + Takes(p, n, killed)], writers := {})
    case Failed => p
    case Asleep => p.(readers := p.readers + {me})
  }

  function Closed(p: Pipe, writable: bool): Pipe {
    if writable then p.(writeopen := false, readers := {}) else p.(readopen := false, writers := {})
  }

  // ---------- any interleaving of calls ----------

  /** A pipewrite call: its buffer, how much of it went in, and whether it is still running. */
  datatype Call = Call(buf: seq<Byte>, done: nat, running: bool)

  datatype Chunk = Chunk(id: nat, bytes: seq<Byte>)

  datatype System = System(pipe: Pipe, calls: map<nat, Call>, reading: map<nat, nat>, killed: set<nat>,
                           accepted: seq<Chunk>, delivered: seq<Chunk>)

  datatype Step =
    | StartWrite(id: nat, buf: seq<Byte>)
    | StartRead(id: nat, n: nat)
    | RunWrite(id: nat)
    | RunRead(id: nat)
    | Kill(id: nat)
    | Close(writable: bool)

  function Init(): System {
    System(Pipe([], [], true, true, {}, {}), map[], map[], {}, [], [])
  }

  /** An end is closed by its last reference, which a call in progress holds. */
  ghost predicate Enabled(s: System, e: Step) {
    match e
    case StartWrite(id, buf) => id !in s.calls && s.pipe.writeopen
    case StartRead(id, n) => id !in s.reading && s.pipe.readopen
    case RunWrite(id) => Fits(s.pipe) && id in s.calls && s.calls[id].running && s.calls[id].done <= |s.calls[id].buf| && id !in s.pipe.writers
    case RunRead(id) => Fits(s.pipe) && id in s.reading && id !in s.pipe.readers
    case Kill(id) => true
    case Close(writable) => if writable then forall id :: id in s.calls ==> !s.calls[id].running else s.reading == map[]
  }

  function Rest(c: Call): seq<Byte>
    requires c.done <= |c.buf|
  {
    c.buf[c.done..]
  }

  ghost function Next(s: System, e: Step): System
    requires Enabled(s, e)
  {
    match e
    case StartWrite(id, buf) => s.(calls := s.calls[id := Call(buf, 0, true)])
    case StartRead(id, n) => s.(reading := s.reading[id := n])
    case RunWrite(id) =>
      var c, dead := s.calls[id], id in s.killed;
      var m := Accepts(s.pipe, |Rest(c)|);
      s.(pipe := Written(s.pipe, id, Rest(c), dead),
         calls := s.calls[id := Call(c.buf, c.done + m, WriteOutcome(s.pipe, |Rest(c)|, dead).Asleep?)],
         accepted := s.accepted + [Chunk(id, Rest(c)[..m])])
    case RunRead(id) =>
      var dead := id in s.killed;
      var m := Takes(s.pipe, s.reading[id], dead);
      s.(pipe := AfterRead(s.pipe, id, s.reading[id], dead),
         reading := if ReadOutcome(s.pipe, dead).Asleep? then s.reading else s.reading - {id},
         delivered := s.delivered + [Chunk(id, s.pipe.sent[|s.pipe.got|..|s.pipe.got| + m])])
    case Kill(id) => s.(killed := s.killed + {id}, pipe := s.pipe.(readers := s.pipe.readers - {id}, writers := s.pipe.writers - {id}))
    case Close(writable) => s.(pipe := Closed(s.pipe, writable))
  }

  ghost predicate Runs(s: System, es: seq<Step>, t: System)
    decreases |es|
  {
    if es == [] then t == s else Enabled(s, es[0]) && Runs(Next(s, es[0]), es[1..], t)
  }

  // ---------- order and occupancy ----------

  function Flatten(cs: seq<Chunk>): seq<Byte> {
    if cs == [] then [] else Flatten(cs[..|cs| - 1]) + cs[|cs| - 1].bytes
  }

  /** The bytes of one call. */
  function Of(cs: seq<Chunk>, id: nat): seq<Byte> {
    if cs == [] then [] else Of(cs[..|cs| - 1], id) + if cs[|cs| - 1].id == id then cs[|cs| - 1].bytes else []
  }

  lemma FlattenMore(cs: seq<Chunk>, c: Chunk)
    ensures Flatten(cs + [c]) == Flatten(cs) + c.bytes
  {
    assert (cs + [c])[..|cs|] == cs;
  }

  lemma OfMore(cs: seq<Chunk>, c: Chunk, id: nat)
    ensures Of(cs + [c], id) == Of(cs, id) + if c.id == id then c.bytes else []
  {
    assert (cs + [c])[..|cs|] == cs;
  }

  ghost predicate InOrder(s: System) {
    && Fits(s.pipe)
    && Flatten(s.accepted) == s.pipe.sent && Flatten(s.delivered) == s.pipe.got
    && (forall id :: id in s.calls ==> s.calls[id].done <= |s.calls[id].buf| && Of(s.accepted, id) == s.calls[id].buf[..s.calls[id].done])
    && (forall id: nat :: id !in s.calls ==> Of(s.accepted, id) == [])
  }

  lemma WriteInOrder(s: System, id: nat)
    requires InOrder(s) && Enabled(s, RunWrite(id))
    ensures InOrder(Next(s, RunWrite(id)))
  {
    hide Flatten, Of;
    var t := Next(s, RunWrite(id));
    var c := s.calls[id];
    var chunk := Chunk(id, Rest(c)[..Accepts(s.pipe, |Rest(c)|)]);
    FlattenMore(s.accepted, chunk);
    forall j: nat
      ensures Of(t.accepted, j) == Of(s.accepted, j) + if j == id then chunk.bytes else []
    {
      OfMore(s.accepted, chunk, j);
    }
    assert c.buf[..c.done] + chunk.bytes == c.buf[..c.done + |chunk.bytes|];
  }

  lemma ReadInOrder(s: System, id: nat)
    requires InOrder(s) && Enabled(s, RunRead(id))
    ensures InOrder(Next(s, RunRead(id)))
  {
    var t := Next(s, RunRead(id));
    var m := Takes(s.pipe, s.reading[id], id in s.killed);
    var n := |s.pipe.got|;
    FlattenMore(s.delivered, Chunk(id, s.pipe.sent[n..n + m]));
    assert s.pipe.got + s.pipe.sent[n..n + m] == s.pipe.sent[..n + m];
  }

  lemma StepInOrder(s: System, e: Step)
    requires InOrder(s) && Enabled(s, e)
    ensures InOrder(Next(s, e))
  {
    match e
    case RunWrite(id) => WriteInOrder(s, id);
    case RunRead(id) => ReadInOrder(s, id);
    case _ =>
  }

  lemma {:induction false} RunInOrder(s: System, es: seq<Step>, t: System)
    requires InOrder(s) && Runs(s, es, t)
    ensures InOrder(t)
    decreases |es|
  {
    if es != [] {
      StepInOrder(s, es[0]);
      RunInOrder(Next(s, es[0]), es[1..], t);
    }
  }

  /**
   * In every interleaving of readers and writers, the bytes delivered are, in order, the first of the bytes accepted;
   * each call's accepted bytes are the first of its buffer; and at most PIPESIZE bytes are between the two ends.
   */
  lemma BytesInOrder(es: seq<Step>, t: System)
    requires Runs(Init(), es, t)
    ensures Flatten(t.delivered) <= Flatten(t.accepted) && |Flatten(t.accepted)| - |Flatten(t.delivered)| <= PIPESIZE
    ensures forall id :: id in t.calls ==> Of(t.accepted, id) <= t.calls[id].buf
  {
    RunInOrder(Init(), es, t);
  }

  // ---------- no sleeper waits on a false condition ----------

  /** Readers asleep: the pipe is empty and may still be written; writers asleep: it is full and may still be read. */
  ghost predicate Awake(p: Pipe) {
    && (p.readers != {} ==> p.got == p.sent && p.writeopen)
    && (p.writers != {} ==> |p.sent| - |p.got| == PIPESIZE && p.readopen)
  }

  /** Only calls in progress are asleep. */
  ghost predicate Sleepers(s: System) {
    && (forall id :: id in s.pipe.readers ==> id in s.reading)
    && (forall id :: id in s.pipe.writers ==> id in s.calls && s.calls[id].running)
    && (s.reading != map[] ==> s.pipe.readopen)
    && ((exists id :: id in s.calls && s.calls[id].running) ==> s.pipe.writeopen)
  }

  /** A killed writer fills an empty pipe on which readers sleep and leaves with bytes to spare: the wakeup is missed. */
  ghost predicate Strands(s: System, e: Step)
    requires Enabled(s, e)
  {
    e.RunWrite? && e.id in s.killed && s.pipe.readers != {} && |Rest(s.calls[e.id])| > PIPESIZE
  }

  lemma SleepersKept(s: System, e: Step)
    requires Sleepers(s) && Enabled(s, e)
    ensures Sleepers(Next(s, e))
  {
  }

  /** A step leaves a sleeper without a reason to sleep exactly when it is that one. */
  lemma AwakeIff(s: System, e: Step)
    requires Fits(s.pipe) && Awake(s.pipe) && Sleepers(s) && Enabled(s, e)
    ensures Awake(Next(s, e).pipe) <==> !Strands(s, e)
  {
  }

  ghost predicate RunsUnstranded(s: System, es: seq<Step>, t: System)
    decreases |es|
  {
    if es == [] then t == s else Enabled(s, es[0]) && !Strands(s, es[0]) && RunsUnstranded(Next(s, es[0]), es[1..], t)
  }

  lemma {:induction false} RunAwake(s: System, es: seq<Step>, t: System)
    requires InOrder(s) && Awake(s.pipe) && Sleepers(s) && RunsUnstranded(s, es, t)
    ensures Awake(t.pipe)
    decreases |es|
  {
    if es != [] {
      StepInOrder(s, es[0]);
      SleepersKept(s, es[0]);
      AwakeIff(s, es[0]);
      RunAwake(Next(s, es[0]), es[1..], t);
    }
  }

  /** No process that runs pipewrite in es is killed, now or in es. */
  ghost predicate WritersSpared(killed: set<nat>, es: seq<Step>) {
    && (forall j :: 0 <= j < |es| && es[j].RunWrite? ==> es[j].id !in killed)
    && (forall k, j :: 0 <= k < |es| && 0 <= j < |es| && es[k].Kill? && es[j].RunWrite? ==> es[k].id != es[j].id)
  }

  lemma {:induction false} SparedUnstranded(s: System, es: seq<Step>, t: System)
    requires Runs(s, es, t) && WritersSpared(s.killed, es)
    ensures RunsUnstranded(s, es, t)
    decreases |es|
  {
    if es != [] {
      var rest := es[1..];
      assert forall k :: 0 <= k < |rest| ==> rest[k] == es[k + 1];
      SparedUnstranded(Next(s, es[0]), rest, t);
    }
  }

  /** With no writer killed, no sleeper is ever left waiting on a false condition, and readers and writers never wait on each other. */
  lemma NoLostWakeups(es: seq<Step>, t: System)
    requires Runs(Init(), es, t) && WritersSpared({}, es)
    ensures Awake(t.pipe) && (t.pipe.readers == {} || t.pipe.writers == {})
  {
    SparedUnstranded(Init(), es, t);
    RunAwake(Init(), es, t);
  }

  function LongWrite(): (s: seq<Byte>)
    ensures |s| == PIPESIZE + 1
  {
    seq(PIPESIZE + 1, _ => 0)
  }

  function StrandingRun(): seq<Step> {
    [StartRead(0, 1), RunRead(0), StartWrite(1, LongWrite()), Kill(1), RunWrite(1)]
  }

  /** The one bad step does occur: a reader goes to sleep, a killed writer fills the pipe and leaves, and the reader sleeps on. */
  lemma KilledWriterStrands() returns (t: System)
    ensures Runs(Init(), StrandingRun(), t) && !Awake(t.pipe) && t.pipe.readers == {0} && |t.pipe.sent| == PIPESIZE
  {
    var es := StrandingRun();
    var a := Next(Init(), es[0]);
    var b := Next(a, es[1]);
    assert b.pipe.readers == {0};
    var c := Next(b, es[2]);
    var d := Next(c, es[3]);
    assert d.pipe.readers == {0} && Rest(d.calls[1]) == LongWrite();
    t := Next(d, es[4]);
    assert es[1..][1..][1..][1..][1..] == [];
    assert Runs(t, [], t);
    assert es[1..][1..][1..][1..] == [es[4]];
    assert Runs(d, [es[4]], t);
    assert es[1..][1..][1..] == [es[3], es[4]];
    assert Runs(c, [es[3], es[4]], t);
    assert es[1..][1..] == [es[2], es[3], es[4]];
    assert Runs(b, [es[2], es[3], es[4]], t);
    assert es[1..] == [es[1], es[2], es[3], es[4]];
    assert Runs(a, es[1..], t);
  }

  // ---------- what a call returns ----------

  /** The bytes the last section of piperead took. */
  function Taken(t: System): seq<Byte>
    requires |t.delivered| > 0
  {
    t.delivered[|t.delivered| - 1].bytes
  }

  /** A section of piperead for up to n bytes takes the oldest bytes in the pipe. If it ends the call it stops short of
      n only by emptying the pipe, and takes nothing only if the pipe is empty, with the write end closed or the
      reader killed. It goes to sleep, taking nothing, exactly if the pipe is empty with
      its write end open and the reader is not killed. */
  lemma ReadReturns(s: System, id: nat)
    requires Enabled(s, RunRead(id))
    ensures var t, n := Next(s, RunRead(id)), s.reading[id];
            && |t.delivered| == |s.delivered| + 1 && t.pipe.sent == s.pipe.sent
            && t.pipe.got == s.pipe.got + Taken(t) && |Taken(t)| <= n
            && (id !in t.reading && |Taken(t)| < n ==> t.pipe.got == t.pipe.sent)
            && (id !in t.reading && Taken(t) == [] && n > 0 ==> s.pipe.got == s.pipe.sent && (!s.pipe.writeopen || id in s.killed))
            && (id in t.reading <==> s.pipe.got == s.pipe.sent && s.pipe.writeopen && id !in s.killed)
            && (id in t.reading ==> Taken(t) == [] && id in t.pipe.readers)
  {
    var t := Next(s, RunRead(id));
    var m := |s.pipe.got|;
    assert s.pipe.got + s.pipe.sent[m..m + |Taken(t)|] == s.pipe.sent[..m + |Taken(t)|];
  }

  /** A section of pipewrite puts in the next bytes of the buffer, and stops short of all of them only by filling the
      pipe; then it gives up if there is no reader left or it has been killed, and sleeps otherwise. */
  lemma WriteReturns(s: System, id: nat)
    requires Enabled(s, RunWrite(id))
    ensures var t, c, d := Next(s, RunWrite(id)), s.calls[id], Next(s, RunWrite(id)).calls[id];
            && d.buf == c.buf && c.done <= d.done <= |c.buf| && t.pipe.got == s.pipe.got
            && t.pipe.sent == s.pipe.sent + c.buf[c.done..d.done]
            && (d.done < |c.buf| ==> |t.pipe.sent| - |t.pipe.got| == PIPESIZE)
            && (d.running <==> d.done < |c.buf| && s.pipe.readopen && id !in s.killed)
            && (d.running ==> id in t.pipe.writers)
  {
  }

  /** A call that is over has had its whole buffer accepted, or was killed, or lost its readers. */
  ghost predicate Finished(s: System) {
    forall id :: id in s.calls && !s.calls[id].running ==>
      s.calls[id].done == |s.calls[id].buf| || id in s.killed || !s.pipe.readopen
  }

  lemma FinishedStep(s: System, e: Step)
    requires Finished(s) && InOrder(s) && Enabled(s, e)
    ensures Finished(Next(s, e))
  {
    hide Flatten, Of;
    if e.RunWrite? {
      WriteReturns(s, e.id);
    }
  }

  lemma {:induction false} RunFinished(s: System, es: seq<Step>, t: System)
    requires Finished(s) && InOrder(s) && Runs(s, es, t)
    ensures Finished(t)
    decreases |es|
  {
    hide Finished, InOrder, Next;
    if es != [] {
      FinishedStep(s, es[0]);
      StepInOrder(s, es[0]);
      RunFinished(Next(s, es[0]), es[1..], t);
    }
  }

  /** In every run: a pipewrite that is over has put in its whole buffer, unless it was killed or the read end is closed. */
  lemma WritesFinish(es: seq<Step>, t: System, id: nat)
    requires Runs(Init(), es, t) && id in t.calls && !t.calls[id].running && id !in t.killed && t.pipe.readopen
    ensures t.calls[id].done == |t.calls[id].buf| && Of(t.accepted, id) == t.calls[id].buf
  {
    RunFinished(Init(), es, t);
    RunInOrder(Init(), es, t);
  }

  /** Once the write end is closed nobody sleeps for bytes: a read takes what is left, and at the end nothing. */
  lemma WriteEndClosed(s: System, id: nat)
    requires Enabled(s, Close(true))
    ensures var t := Next(s, Close(true));
            && !t.pipe.writeopen && t.pipe.readopen == s.pipe.readopen && t.pipe.readers == {}
            && (Fits(t.pipe) && id in t.reading ==>
                  && Enabled(t, RunRead(id)) && id !in Next(t, RunRead(id)).reading
                  && (t.pipe.got == t.pipe.sent ==> Taken(Next(t, RunRead(id))) == []))
  {
    var t := Next(s, Close(true));
    if Fits(t.pipe) && id in t.reading {
      ReadReturns(t, id);
    }
  }

  /** Once the read end is closed nobody sleeps for room: a write that does not fit is over, unfinished. */
  lemma ReadEndClosed(s: System, id: nat)
    requires Enabled(s, Close(false))
    ensures var t := Next(s, Close(false));
            && !t.pipe.readopen && t.pipe.writeopen == s.pipe.writeopen && t.pipe.writers == {}
            && (Enabled(t, RunWrite(id)) ==>
                  var u, c := Next(t, RunWrite(id)), t.calls[id];
                  && !u.calls[id].running
                  && (|c.buf| - c.done > PIPESIZE - (|t.pipe.sent| - |t.pipe.got|) ==> u.calls[id].done < |c.buf|))
  {
    var t := Next(s, Close(false));
    if Enabled(t, RunWrite(id)) {
      WriteReturns(t, id);
    }
  }
}
