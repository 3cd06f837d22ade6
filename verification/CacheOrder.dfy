/** The order of the buffers (bio.c): the cache recycles the one whose last reference was given up longest ago. */
module CacheOrder {
  import opened Common
  import opened BufferCache

  /** A run with the caches it goes through. */
  ghost predicate Chain(cs: seq<Cache>, steps: seq<Step>) {
    && |cs| == |steps| + 1
    && forall k {:trigger steps[k]} :: 0 <= k < |steps| ==>
         Keyed(cs[k]) && Enabled(cs[k], steps[k]) && cs[k + 1] == Next(cs[k], steps[k])
  }

  /** The step gives up the last reference to the buffer. */
  predicate Frees(c: Cache, step: Step, id: nat) {
    step.Put? && step.i < |c.bufs| && c.bufs[step.i].id == id && c.bufs[step.i].Refcnt() == 1
  }

  predicate FreedAt(cs: seq<Cache>, steps: seq<Step>, id: nat, k: nat)
    requires |cs| == |steps| + 1
  {
    k < |steps| && Frees(cs[k], steps[k], id)
  }

  /** Within the first n steps x was given up after y was, if y ever was. */
  ghost predicate Later(cs: seq<Cache>, steps: seq<Step>, n: nat, x: nat, y: nat)
    requires |cs| == |steps| + 1
  {
    forall k: nat :: k < n && FreedAt(cs, steps, y, k) ==> exists m: nat :: k < m < n && FreedAt(cs, steps, x, m)
  }

  predicate Never(cs: seq<Cache>, steps: seq<Step>, n: nat, x: nat)
    requires |cs| == |steps| + 1
  {
    forall k: nat :: k < n ==> !FreedAt(cs, steps, x, k)
  }

  /** Every buffer was given up after those behind it; among those that never were, higher numbers come first. */
  ghost predicate Recent(cs: seq<Cache>, steps: seq<Step>, n: nat)
    requires |cs| == |steps| + 1 && n < |cs|
  {
    forall i, j {:trigger cs[n].bufs[i], cs[n].bufs[j]} :: 0 <= i < j < |cs[n].bufs| ==>
      var x, y := cs[n].bufs[i].id, cs[n].bufs[j].id;
      x != y && Later(cs, steps, n, x, y) && (Never(cs, steps, n, x) ==> x > y)
  }

  lemma SameOrder(c: Cache, step: Step)
    requires Keyed(c) && Enabled(c, step) && !(step.Put? && c.bufs[step.i].Refcnt() == 1)
    ensures var d := Next(c, step);
            |d.bufs| == |c.bufs| && forall i :: 0 <= i < |c.bufs| ==> d.bufs[i].id == c.bufs[i].id
  {
  }

  lemma LaterKept(cs: seq<Cache>, steps: seq<Step>, n: nat, x: nat, y: nat)
    requires Chain(cs, steps) && n < |steps| && Later(cs, steps, n, x, y) && !FreedAt(cs, steps, y, n)
    ensures Later(cs, steps, n + 1, x, y)
    ensures Never(cs, steps, n + 1, x) ==> Never(cs, steps, n, x)
  {
    forall k: nat | k < n + 1 && FreedAt(cs, steps, y, k)
      ensures exists m: nat :: k < m < n + 1 && FreedAt(cs, steps, x, m)
    {
      var m: nat :| k < m < n && FreedAt(cs, steps, x, m);
    }
  }

  lemma LaterNow(cs: seq<Cache>, steps: seq<Step>, n: nat, x: nat, y: nat)
    requires Chain(cs, steps) && n < |steps| && FreedAt(cs, steps, x, n) && x != y
    ensures Later(cs, steps, n + 1, x, y) && !Never(cs, steps, n + 1, x)
  {
    assert !FreedAt(cs, steps, y, n);
  }

  lemma StepRecent(cs: seq<Cache>, steps: seq<Step>, n: nat)
    requires Chain(cs, steps) && n < |steps| && Recent(cs, steps, n)
    ensures Recent(cs, steps, n + 1)
  {
    hide Next, Later, Never, Keyed;
    var c, d, step := cs[n], cs[n + 1], steps[n];
    if step.Put? && c.bufs[step.i].Refcnt() == 1 {
      FreedRecent(cs, steps, n);
    } else {
      SameOrder(c, step);
      forall i, j | 0 <= i < j < |d.bufs|
        ensures d.bufs[i].id != d.bufs[j].id && Later(cs, steps, n + 1, d.bufs[i].id, d.bufs[j].id)
        ensures Never(cs, steps, n + 1, d.bufs[i].id) ==> d.bufs[i].id > d.bufs[j].id
      {
        assert c.bufs[i].id == d.bufs[i].id && c.bufs[j].id == d.bufs[j].id;
        LaterKept(cs, steps, n, c.bufs[i].id, c.bufs[j].id);
      }
    }
  }

  /** Where the buffers of the new order were. */
  function Before(f: nat, i: nat): nat {
    if i == 0 then f else if i <= f then i - 1 else i
  }

  lemma MovedToFront(c: Cache, f: nat)
    requires Keyed(c) && Enabled(c, Put(f)) && c.bufs[f].Refcnt() == 1
    ensures var d := Next(c, Put(f));
            && |d.bufs| == |c.bufs|
            && forall i :: 0 <= i < |c.bufs| ==> Before(f, i) < |c.bufs| && d.bufs[i].id == c.bufs[Before(f, i)].id
  {
  }

  lemma FreedRecent(cs: seq<Cache>, steps: seq<Step>, n: nat)
    requires Chain(cs, steps) && n < |steps| && Recent(cs, steps, n)
    requires steps[n].Put? && cs[n].bufs[steps[n].i].Refcnt() == 1
    ensures Recent(cs, steps, n + 1)
  {
    hide Next, Later, Never, Keyed;
    var c, d, f := cs[n], cs[n + 1], steps[n].i;
    MovedToFront(c, f);
    forall i, j | 0 <= i < j < |d.bufs|
      ensures d.bufs[i].id != d.bufs[j].id && Later(cs, steps, n + 1, d.bufs[i].id, d.bufs[j].id)
      ensures Never(cs, steps, n + 1, d.bufs[i].id) ==> d.bufs[i].id > d.bufs[j].id
    {
      var x, y := c.bufs[Before(f, i)], c.bufs[Before(f, j)];
      assert d.bufs[i].id == x.id && d.bufs[j].id == y.id;
      assert c.bufs[f].id != y.id;
      if i == 0 {
        LaterNow(cs, steps, n, x.id, y.id);
      } else {
        LaterKept(cs, steps, n, x.id, y.id);
      }
    }
  }

  lemma {:induction false} RunRecent(cs: seq<Cache>, steps: seq<Step>, n: nat)
    requires Chain(cs, steps) && n <= |steps| && exists disk :: cs[0] == Start(disk)
    ensures Recent(cs, steps, n)
  {
    if n > 0 {
      hide Recent, Chain;
      RunRecent(cs, steps, n - 1);
      assert |cs| == |steps| + 1 by {
        ChainLength(cs, steps);
      }
      StepRecent(cs, steps, n - 1);
    }
  }

  lemma ChainLength(cs: seq<Cache>, steps: seq<Step>)
    requires Chain(cs, steps)
    ensures |cs| == |steps| + 1
  {
  }

  /**
   * In every run, when bget takes a buffer for a block that is in none, the buffer is unreferenced and clean, and
   * every other such buffer was given up after it was, or has the higher number if neither ever was in use.
   */
  lemma LeastRecentlyUsed(cs: seq<Cache>, steps: seq<Step>, n: nat, u: nat)
    requires Chain(cs, steps) && n < |steps| && exists disk :: cs[0] == Start(disk)
    requires steps[n].Get? && forall b :: b in cs[n].bufs ==> b.key != steps[n].key
    requires u < |cs[n].bufs| && u != steps[n].i && cs[n].bufs[u].Refcnt() == 0 && !cs[n].bufs[u].dirty
    ensures var v := steps[n].i;
            && v < |cs[n].bufs| && cs[n].bufs[v].Refcnt() == 0 && !cs[n].bufs[v].dirty
            && Later(cs, steps, n, cs[n].bufs[u].id, cs[n].bufs[v].id)
            && (Never(cs, steps, n, cs[n].bufs[u].id) ==> cs[n].bufs[u].id > cs[n].bufs[v].id)
  {
    hide Next, Later, Never, Keyed;
    RunRecent(cs, steps, n);
    assert Enabled(cs[n], steps[n]);
    var v := steps[n].i;
    assert Free(cs[n].bufs[u]);
    assert u < v;
  }
}
