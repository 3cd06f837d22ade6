/** log.c as it runs: the in-memory header, the loops that move blocks, and the writes they issue. */
module LogDevice {
  import opened Common
  import opened Log
  import opened GroupCommit
  import opened GroupCommitSafety

  /** Logging and installing a block's cached contents is no change to the cached home blocks. */
  lemma CommitKeepsCache(g: Geometry, l: Disk, blocks: seq<nat>, head: Block)
    requires Fits(g, l) && Loggable(g, |l|, blocks)
    ensures var x := Logged(g, l, ContentsOf(l, blocks), |blocks|)[g.start := head];
            SameHome(g, Installed(g, x, blocks, |blocks|), l)
  {
    var data := ContentsOf(l, blocks);
    var x: Disk := Logged(g, l, data, |blocks|)[g.start := head];
    forall i | 0 <= i < |blocks|
      ensures x[g.start + 1 + i] == l[blocks[i]]
    {
      assert x[g.start + 1 + i] == data[i];
    }
    InstallAll(g, x, l, blocks);
  }

  /** The header is no home block. */
  lemma HeadOnly(g: Geometry, d: Disk, h: Disk, x: Block)
    requires Fits(g, d) && SameHome(g, d, h)
    ensures SameHome(g, d[g.start := x], h)
  {
  }

  datatype EndResult = Commits | Leaves | Panics

  class LogDevice {
    const g: Geometry
    var disk: Disk                // stable storage
    var latest: Disk              // what bread returns: the buffer cache over the disk
    ghost var writes: seq<Disk>   // the disk after each bwrite so far
    var n: nat                    // log.lh.n
    const block: array<nat>       // log.lh.block
    var outstanding: nat
    var committing: bool

    ghost predicate Valid()
      reads this, block
    {
      && Fits(g, disk)
      && |latest| == |disk|
      && block.Length == LOGSIZE
      && n <= LOGSIZE
      && forall b :: InLog(g, b) ==> latest[b] == disk[b]
    }

    ghost function Blocks(): seq<nat>
      requires block.Length == LOGSIZE && n <= LOGSIZE
      reads this, block
    {
      block[..n]
    }

    /** Power-on: the cache holds nothing but what is on the disk. */
    constructor (g: Geometry, disk: Disk)
      requires Fits(g, disk)
      ensures Valid() && this.g == g && this.disk == latest == disk && fresh(block)
      ensures n == 0 && outstanding == 0 && !committing && writes == []
    {
      this.g, this.disk, this.latest := g, disk, disk;
      this.n, this.outstanding, this.committing := 0, 0, false;
      this.block := new nat[LOGSIZE];
      this.writes := [];
    }

    method Bread(b: nat) returns (x: Block)
      requires b < |latest|
      ensures x == latest[b]
    {
      x := latest[b];
    }

    method Bwrite(b: nat, x: Block)
      requires Valid() && b < |disk|
      modifies this`disk, this`latest, this`writes
      ensures Valid() && disk == old(disk)[b := x] && latest == old(latest)[b := x]
      ensures writes == old(writes) + [disk]
    {
      disk := disk[b := x];
      latest := latest[b := x];
      writes := writes + [disk];
    }

    /** install_trans: copy every logged block from its slot to its home. */
    method InstallTrans()
      requires Valid() && Loggable(g, |disk|, Blocks())
      modifies this`disk, this`latest, this`writes
      ensures Valid()
      ensures disk == Installed(g, old(disk), Blocks(), n) && latest == Installed(g, old(latest), Blocks(), n)
      ensures writes == old(writes) + InstalledTrace(g, old(disk), Blocks(), n)
    {
      var tail := 0;
      while tail < n
        invariant tail <= n && Valid()
        invariant disk == Installed(g, old(disk), Blocks(), tail) && latest == Installed(g, old(latest), Blocks(), tail)
        invariant writes == old(writes) + InstalledTrace(g, old(disk), Blocks(), tail)
      {
        var lbuf := Bread(g.start + tail + 1);
        assert IsHome(g, |disk|, Blocks()[tail]);
        Bwrite(block[tail], lbuf);
        tail := tail + 1;
      }
    }

    /** read_head: load the on-disk header. */
    method ReadHead(ghost blocks: seq<nat>)
      requires Valid() && HeadIs(g, disk, blocks)
      modifies this`n, block
      ensures Valid() && Blocks() == blocks
    {
      var buf := Bread(g.start);
      n := buf[0];
      var i := 0;
      while i < n
        invariant i <= n == |blocks| && Valid()
        invariant forall j :: 0 <= j < i ==> block[j] == blocks[j]
      {
        assert blocks[i] == buf[i + 1];
        block[i] := buf[i + 1];
        i := i + 1;
      }
    }

    /** write_head: overwrite the count and the first n entries of the header block. */
    method WriteHead()
      requires Valid()
      modifies this`disk, this`latest, this`writes
      ensures Valid() && disk == Headed(g, old(disk), Blocks()) && latest == old(latest)[g.start := disk[g.start]]
      ensures writes == old(writes) + [disk]
    {
      var hb := Bread(g.start);
      ghost var was: Block := hb;
      hb := hb[0 := n];
      var i := 0;
      while i < n
        invariant i <= n && |hb| == WORDS && hb[0] == n
        invariant forall j :: 1 <= j < WORDS ==> hb[j] == if j <= i then block[j - 1] else was[j]
      {
        hb := hb[i + 1 := block[i]];
        i := i + 1;
      }
      assert hb == WithHead(was, Blocks());
      Bwrite(g.start, hb);
    }

    /** recover_from_log: redo what the header names, then clear the header. */
    method RecoverFromLog(ghost blocks: seq<nat>)
      requires Valid() && latest == disk && HeadIs(g, disk, blocks) && Loggable(g, |disk|, blocks)
      modifies this`disk, this`latest, this`writes, this`n, block
      ensures Valid() && n == 0 && latest == disk
      ensures disk == RecoverDisk(g, old(disk), blocks, |blocks| + 1)
      ensures writes == old(writes) + RecoverTrace(g, old(disk), blocks)
    {
      ReadHead(blocks);
      InstallTrans();
      n := 0;
      WriteHead();
    }

    /** write_log: copy every logged block from the cache to its slot. */
    method WriteLog()
      requires Valid() && Loggable(g, |disk|, Blocks())
      modifies this`disk, this`latest, this`writes
      ensures Valid()
      ensures var data := ContentsOf(old(latest), Blocks());
              && disk == Logged(g, old(disk), data, n) && latest == Logged(g, old(latest), data, n)
              && writes == old(writes) + LoggedTrace(g, old(disk), data, n)
    {
      ghost var data := ContentsOf(latest, Blocks());
      var tail := 0;
      while tail < n
        invariant tail <= n && Valid()
        invariant disk == Logged(g, old(disk), data, tail) && latest == Logged(g, old(latest), data, tail)
        invariant writes == old(writes) + LoggedTrace(g, old(disk), data, tail)
      {
        assert IsHome(g, |disk|, Blocks()[tail]);
        var from := Bread(block[tail]);
        assert from == data[tail];
        Bwrite(g.start + tail + 1, from);
        tail := tail + 1;
      }
    }

    /** commit: the disk goes through exactly the writes of `CommitDisk`, so `Log.CommitIsAtomic`
        speaks of every crash inside it; the cached home blocks do not change. */
    method Commit()
      requires Valid() && Loggable(g, |disk|, Blocks())
      modifies this`disk, this`latest, this`writes, this`n
      ensures Valid() && n == 0
      ensures var blocks, data := old(Blocks()), ContentsOf(old(latest), old(Blocks()));
              if blocks == [] then disk == old(disk) && latest == old(latest) && writes == old(writes)
              else
                && writes == old(writes) + CommitTrace(g, old(disk), blocks, data)
                && disk == writes[|writes| - 1]
                && SameHome(g, latest, old(latest))
    {
      hide Installed, InstalledTrace, LoggedTrace, WithHead, SameHome;
      if n > 0 {
        ghost var l, blocks := latest, Blocks();
        WriteLog();
        WriteHead();
        CommitKeepsCache(g, l, blocks, disk[g.start]);
        InstallTrans();
        n := 0;
        ghost var was := latest;
        WriteHead();
        HeadOnly(g, was, l, disk[g.start]);
      }
    }

    /** The device is as the step system has it. */
    ghost predicate Shows(s: State)
      reads this, block
    {
      && Valid() && Blocks() == s.blocks && outstanding == s.outstanding && (committing <==> s.phase.Committing?)
      && disk == s.disk && latest == s.latest
    }

    /** log_write, guard passed: list the block unless it is already listed, and keep the caller's
        contents in the cache. Nothing reaches the disk. */
    method LogWrite(b: nat, x: Block)
      requires Valid() && IsHome(g, |disk|, b) && (n < LOGSIZE || b in Blocks())
      modifies this`n, this`latest, block
      ensures Valid() && Blocks() == Absorb(old(Blocks()), b)
      ensures latest == old(latest)[b := x]
    {
      latest := latest[b := x];
      ghost var was := Blocks();
      var i := 0;
      while i < n && block[i] != b
        invariant i <= n && b !in was[..i]
      {
        i := i + 1;
      }
      assert i == n ==> was[..i] == was;
      assert i < n ==> was[i] == b;
      block[i] := b;
      if i == n {
        n := n + 1;
        assert Blocks() == was + [b];
      } else {
        assert Blocks() == was;
      }
    }

    /** log_write's guards, for the process p inside an operation: a false result is a panic. What passes leaves
        room for any block; what is refused would, if not listed already, have no header entry or no slot. */
    method MayLog(ghost s: State, ghost p: nat) returns (ok: bool)
      requires Shows(s) && IsActive(s, p) && Budgeted(s)
      ensures ok <==> Enabled(g, s, Guard(p))
      ensures ok ==> forall b: nat :: |Absorb(Blocks(), b)| <= LOGSIZE && |Absorb(Blocks(), b)| < g.size
      ensures !ok ==> forall b: nat :: b !in Blocks() ==> |Absorb(Blocks(), b)| > LOGSIZE || |Absorb(Blocks(), b)| >= g.size
    {
      SomeActive(s.ops, p);
      if n >= LOGSIZE || n as int >= g.size as int - 1 {
        return false;
      }
      ok := outstanding >= 1;
    }

    /** One pass of begin_op's loop under the log lock: join, or report that it has to sleep. */
    method TryBegin(ghost s: State, ghost p: nat) returns (joined: bool)
      requires Shows(s) && Enabled(g, s, Try(p))
      modifies this`outstanding
      ensures Shows(DoTry(s, p)) && (joined <==> IsActive(DoTry(s, p), p))
      ensures Budgeted(s) ==> (joined <==> !s.phase.Committing? && RoomFor(s.blocks, |Inside(s.ops)| + 1))
    {
      if Budgeted(s) {
        InsideSize(s.ops);
        RoomIff(s.blocks, |Inside(s.ops)| + 1);
      }
      if committing {
        joined := false;
      } else if n + (outstanding + 1) * MAXOPBLOCKS > LOGSIZE {
        joined := false;
      } else {
        outstanding := outstanding + 1;
        joined := true;
      }
    }

    /** The locked part of end_op: the last operation out, and only it, starts the commit. In no reachable state
        does it panic. */
    method Leave(ghost s: State, ghost p: nat) returns (r: EndResult)
      requires Shows(s) && Enabled(g, s, End(p)) && Budgeted(s)
      modifies this`outstanding, this`committing
      ensures r != Panics && Shows(DoEnd(s, p))
      ensures r == Commits <==> forall q :: 0 <= q < |s.ops| && q != p ==> !s.ops[q].Active?
    {
      LastOut(s, p);
      outstanding := outstanding - 1;
      if committing {
        return Panics;
      }
      if outstanding == 0 {
        committing := true;
        return Commits;
      }
      return Leaves;
    }
  }

  /** One operation is outstanding exactly if no other process is inside one. */
  lemma LastOut(s: State, p: nat)
    requires Budgeted(s) && IsActive(s, p)
    ensures s.phase.Running?
    ensures s.outstanding == 1 <==> forall q :: 0 <= q < |s.ops| && q != p ==> !s.ops[q].Active?
  {
    SomeActive(s.ops, p);
    var ops := s.ops[p := Outside];
    SpareUpdate(s.ops, p, Outside);
    NoneLeft(ops);
    if forall q :: 0 <= q < |s.ops| && q != p ==> !s.ops[q].Active? {
      NoActives(ops);
    }
    hide Spare, Actives;
    assert forall q :: 0 <= q < |ops| ==> ops[q] == if q == p then Outside else s.ops[q];
  }
}
