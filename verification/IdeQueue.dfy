/** The driver's linked request queue (ide.c), updated in place. */
module IdeQueue {
  import opened Common
  import opened Ide

  class Node {
    var valid: bool
    var dirty: bool
    var key: Key
    var data: Data
    var qnext: Node?

    constructor (key: Key)
      ensures !valid && !dirty && this.key == key && data == [] && qnext == null
    {
      valid, dirty, this.key, data, qnext := false, false, key, [], null;
    }

    function Value(): Buf
      reads this`valid, this`dirty, this`key, this`data
    {
      Buf(valid, dirty, key, data)
    }
  }

  class Driver {
    var idequeue: Node?
    var device: Device
    var disk: map<Key, Data>
    var asleep: set<Node>
    ghost var queue: seq<Node>
    ghost const all: seq<Node>

    constructor (ghost all: seq<Node>, disk: map<Key, Data>)
      ensures idequeue == null && queue == [] && device == Idle && asleep == {} && this.all == all && this.disk == disk
      ensures Linked()
    {
      this.all, this.disk, idequeue, queue, device, asleep := all, disk, null, [], Idle, {};
    }

    /** The queue is the chain of qnext links from idequeue. */
    ghost predicate Linked()
      reads this`idequeue, this`queue, queue`qnext
    {
      && (forall i, j :: 0 <= i < j < |queue| ==> queue[i] != queue[j])
      && (if queue == [] then idequeue == null else idequeue == queue[0])
      && (forall i :: 0 <= i < |queue| - 1 ==> queue[i].qnext == queue[i + 1])
      && (queue != [] ==> queue[|queue| - 1].qnext == null)
    }

    ghost predicate Bufs(bufs: map<nat, Buf>)
      reads all`valid, all`dirty, all`key, all`data
    {
      && (forall i, j :: 0 <= i < j < |all| ==> all[i] != all[j])
      && forall i :: 0 <= i < |all| ==> i in bufs && all[i].Value() == bufs[i]
    }

    ghost predicate Waiting(ids: seq<nat>, sleepers: set<nat>)
      reads this`queue, this`asleep
    {
      && |queue| == |ids| && (forall i :: 0 <= i < |queue| ==> ids[i] < |all| && queue[i] == all[ids[i]])
      && forall i: nat :: i < |all| ==> (all[i] in asleep <==> i in sleepers)
    }

    /** The buffers in memory, numbered by `all`, are those of the step system's state d. */
    ghost predicate Shows(d: Ide.Driver)
      reads this, all`valid, all`dirty, all`key, all`data, queue`qnext
    {
      Linked() && Waiting(d.queue, d.asleep) && Bufs(d.bufs) && disk == d.disk && device == d.device
    }

    /** idestart on the abstract device. */
    method Start(b: Node)
      modifies this`device
      ensures device == Started(b.Value())
    {
      device := Working(if b.dirty then Write(b.key, b.data) else Read(b.key));
    }

    /** Following the links to the end and hooking b on. */
    method Append(b: Node)
      requires Linked() && b !in queue
      modifies this`idequeue, this`queue, queue`qnext, b`qnext
      ensures Linked() && queue == old(queue) + [b]
    {
      b.qnext := null;
      if idequeue == null {
        idequeue := b;
      } else {
        var p := idequeue;
        ghost var i := 0;
        while p.qnext != null
          invariant 0 <= i < |queue| && p == queue[i] && queue == old(queue)
          invariant Linked() && b !in queue && b.qnext == null
          invariant i + 1 < |queue| ==> p.qnext == queue[i + 1]
          decreases |queue| - i
        {
          p := p.qnext;
          i := i + 1;
        }
        p.qnext := b;
      }
      queue := queue + [b];
    }

    /** Queueing the request, started if it is alone, and going to sleep. */
    method Enqueue(b: Node, ghost id: nat, ghost ids: seq<nat>, ghost sleepers: set<nat>)
      requires Linked() && Waiting(ids, sleepers) && b !in queue && id < |all| && all[id] == b
      requires forall i, j :: 0 <= i < j < |all| ==> all[i] != all[j]
      modifies this`idequeue, this`queue, this`device, this`asleep, queue`qnext, b`qnext
      ensures Linked() && Waiting(ids + [id], sleepers + {id})
      ensures device == if ids == [] then Started(b.Value()) else old(device)
    {
      hide Started;
      Append(b);
      if idequeue == b {
        Start(b);
      }
      asleep := asleep + {b};
    }

    /** iderw until it sleeps. */
    method Submit(b: Node, ghost id: nat, ghost d: Ide.Driver)
      requires Ok(d) && Shows(d) && Enabled(d, Ide.Step.Submit(id)) && id < |all| && all[id] == b
      modifies this`idequeue, this`queue, this`device, this`asleep, queue`qnext, b`qnext
      ensures Shows(Next(d, Ide.Step.Submit(id)))
    {
      hide Ok, Started, Linked, Waiting;
      NotQueued(this, b, id, d);
      assert b.Value() == d.bufs[id];
      Enqueue(b, id, d.queue, d.asleep);
      hide Bufs;
    }

    /** The device carries out the command it was given and raises its interrupt. */
    method Complete(ghost d: Ide.Driver)
      requires Shows(d) && Enabled(d, Ide.Step.Complete)
      modifies this`device, this`disk
      ensures Shows(Next(d, Ide.Step.Complete))
    {
      match device.cmd {
        case Write(key, data) =>
          disk := disk[key := data];
          device := Ready(device.cmd, data);
        case Read(key) =>
          device := Ready(device.cmd, disk[key]);
      }
    }

    method Pop() returns (b: Node)
      requires Linked() && queue != []
      modifies this`idequeue, this`queue
      ensures Linked() && b == old(queue)[0] && queue == old(queue)[1..]
    {
      b := idequeue;
      idequeue := b.qnext;
      queue := queue[1..];
    }

    /** The transfer's last part: data read from the device, and the flags. */
    method Finish(b: Node, ghost id: nat, ghost bufs: map<nat, Buf>)
      requires device.Ready? && Bufs(bufs) && id < |all| && all[id] == b
      modifies b`valid, b`dirty, b`data
      ensures Bufs(bufs[id := Finished(bufs[id], device.data)])
    {
      if !b.dirty {
        b.data := device.data;
      }
      b.valid := true;
      b.dirty := false;
    }

    /** Taking the head off the queue and waking its caller. */
    method Dequeue(ghost d: Ide.Driver) returns (b: Node)
      requires Ok(d) && Linked() && Waiting(d.queue, d.asleep) && Bufs(d.bufs) && d.queue != []
      modifies this`idequeue, this`queue, this`asleep
      ensures d.queue[0] < |all| && b == all[d.queue[0]]
      ensures Linked() && Waiting(d.queue[1..], d.asleep - {d.queue[0]})
    {
      b := Pop();
      asleep := asleep - {b};
    }

    method StartNext(ghost ids: seq<nat>, ghost sleepers: set<nat>, ghost bufs: map<nat, Buf>)
      requires Linked() && Waiting(ids, sleepers) && Bufs(bufs)
      modifies this`device
      ensures ids == [] ==> device == Idle
      ensures ids != [] ==> ids[0] < |all| && ids[0] in bufs && device == Started(bufs[ids[0]])
    {
      if idequeue != null {
        Start(idequeue);
      } else {
        device := Idle;
      }
    }

    /** ideintr: the head request is finished and the next one started. */
    method Interrupt(ghost d: Ide.Driver)
      requires Ok(d) && Shows(d) && Enabled(d, Ide.Step.Interrupt)
      modifies this`idequeue, this`queue, this`device, this`asleep, all`valid, all`dirty, all`data
      ensures Shows(Next(d, Ide.Step.Interrupt))
    {
      hide Ok, Finished, Started, Linked, Waiting, Bufs, Next, Enabled;
      ghost var e := Next(d, Ide.Step.Interrupt);
      NextHead(d);
      var b := Dequeue(d);
      Finish(b, d.queue[0], d.bufs);
      StartNext(e.queue, e.asleep, e.bufs);
    }
  }

  /** The next request is another buffer than the one being finished. */
  lemma NextHead(d: Ide.Driver)
    requires Ok(d) && Enabled(d, Ide.Step.Interrupt)
    ensures d.queue != [] && d.device.Ready? && d.queue[0] in d.bufs
    ensures var e := Next(d, Ide.Step.Interrupt);
            && e.queue == d.queue[1..] && e.asleep == d.asleep - {d.queue[0]} && e.disk == d.disk
            && e.bufs == d.bufs[d.queue[0] := Finished(d.bufs[d.queue[0]], d.device.data)]
            && if e.queue == [] then e.device == Idle else e.queue[0] in e.bufs && e.device == Started(e.bufs[e.queue[0]])
  {
  }

  lemma NotQueued(q: Driver, b: Node, id: nat, d: Ide.Driver)
    requires Ok(d) && q.Shows(d) && id !in d.calling && id < |q.all| && q.all[id] == b
    ensures b !in q.queue
  {
    forall i | 0 <= i < |q.queue|
      ensures q.queue[i] != b
    {
      assert d.queue[i] in d.queue;
    }
  }
}
