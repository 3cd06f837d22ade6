/** Directories and link counts (sysfile.c, fs.c) on values: create, link and unlink as steps on inodes. */
module Directory {

  const ROOT: nat := 1
  const DIRSIZ: nat := 14

  /** A name as the 14-byte comparison sees it. */
  type Name = n: string | |n| <= DIRSIZ witness ""

  datatype Dirent = Dirent(inum: nat, name: Name)
  datatype Kind = Free | Dir | File | Dev
  datatype Node = Node(kind: Kind, nlink: nat, entries: seq<Dirent>)

  /** The inodes, and the inodes whose link count a sys_link in progress has already raised. */
  datatype Space = Space(nodes: seq<Node>, pending: multiset<nat>)

  predicate IsLive(n: Node) {
    n.kind == Dir && n.nlink > 0
  }

  // ---------- counting the entries that name an inode ----------

  /** Entries naming i, slot 0 (".") not counted. */
  function Naming(es: seq<Dirent>, i: nat): nat {
    if |es| <= 1 then 0
    else Naming(es[..|es| - 1], i) + if es[|es| - 1].inum == i then 1 else 0
  }

  function Term(n: Node, i: nat): nat {
    if IsLive(n) then Naming(n.entries, i) else 0
  }

  /** Entries other than "." that name i from live directories. */
  function Count(nodes: seq<Node>, i: nat): nat {
    if nodes == [] then 0 else Count(nodes[..|nodes| - 1], i) + Term(nodes[|nodes| - 1], i)
  }

  lemma {:induction false} NamingUpdate(es: seq<Dirent>, k: nat, e: Dirent, i: nat)
    requires 1 <= k < |es|
    ensures Naming(es[k := e], i) == Naming(es, i) - (if es[k].inum == i then 1 else 0) + (if e.inum == i then 1 else 0)
  {
    var n := |es| - 1;
    if k == n {
      assert es[k := e][..n] == es[..n];
    } else {
      assert es[k := e][..n] == es[..n][k := e];
      NamingUpdate(es[..n], k, e, i);
    }
  }

  lemma NamingAppend(es: seq<Dirent>, e: Dirent, i: nat)
    requires |es| >= 1
    ensures Naming(es + [e], i) == Naming(es, i) + if e.inum == i then 1 else 0
  {
    assert (es + [e])[..|es|] == es;
  }

  lemma {:induction false} NamingNone(es: seq<Dirent>, i: nat)
    requires forall k :: 1 <= k < |es| ==> es[k].inum != i
    ensures Naming(es, i) == 0
  {
    if |es| > 1 {
      NamingNone(es[..|es| - 1], i);
    }
  }

  lemma {:induction false} NamingSome(es: seq<Dirent>, i: nat, k: nat)
    requires 1 <= k < |es| && es[k].inum == i
    ensures Naming(es, i) > 0
  {
    if k < |es| - 1 {
      NamingSome(es[..|es| - 1], i, k);
    }
  }

  lemma {:induction false} CountUpdate(nodes: seq<Node>, d: nat, x: Node, i: nat)
    requires d < |nodes|
    ensures Count(nodes[d := x], i) == Count(nodes, i) - Term(nodes[d], i) + Term(x, i)
  {
    var n := |nodes| - 1;
    if d == n {
      assert nodes[d := x][..n] == nodes[..n];
    } else {
      assert nodes[d := x][..n] == nodes[..n][d := x];
      CountUpdate(nodes[..n], d, x, i);
    }
  }

  lemma {:induction false} CountNone(nodes: seq<Node>, i: nat)
    requires forall d, k :: 0 <= d < |nodes| && IsLive(nodes[d]) && 1 <= k < |nodes[d].entries| ==> nodes[d].entries[k].inum != i
    ensures Count(nodes, i) == 0
  {
    if nodes != [] {
      if IsLive(nodes[|nodes| - 1]) {
        NamingNone(nodes[|nodes| - 1].entries, i);
      }
      CountNone(nodes[..|nodes| - 1], i);
    }
  }

  lemma {:induction false} CountSome(nodes: seq<Node>, i: nat, d: nat, k: nat)
    requires d < |nodes| && IsLive(nodes[d]) && 1 <= k < |nodes[d].entries| && nodes[d].entries[k].inum == i
    ensures Count(nodes, i) > 0
  {
    if d == |nodes| - 1 {
      NamingSome(nodes[d].entries, i, k);
    } else {
      CountSome(nodes[..|nodes| - 1], i, d, k);
    }
  }

  // ---------- the invariant ----------

  ghost predicate Counted(s: Space) {
    forall i :: 1 <= i < |s.nodes| ==> s.nodes[i].nlink == Count(s.nodes, i) + s.pending[i]
  }

  /** "." and ".." in slots 0 and 1, and every entry within the inode table. */
  ghost predicate DotsOk(s: Space) {
    forall d :: 0 <= d < |s.nodes| && IsLive(s.nodes[d]) ==>
      var es := s.nodes[d].entries;
      && |es| >= 2 && es[0] == Dirent(d, ".") && es[1].name == ".." && es[1].inum != 0
      && forall k :: 0 <= k < |es| ==> es[k].inum < |s.nodes|
  }

  predicate Distinct(es: seq<Dirent>) {
    forall j, k :: 0 <= j < k < |es| && es[j].inum != 0 && es[k].inum != 0 ==> es[j].name != es[k].name
  }

  ghost predicate NamesOk(s: Space) {
    forall d :: 0 <= d < |s.nodes| && IsLive(s.nodes[d]) ==> Distinct(s.nodes[d].entries)
  }

  /** Free inodes have no links, unlinked directories only their dots, and links in progress are not to directories. */
  ghost predicate KindsOk(s: Space) {
    && |s.nodes| > ROOT && s.nodes[0].kind == Free
    && (forall i :: 0 <= i < |s.nodes| && s.nodes[i].kind == Free ==> s.nodes[i].nlink == 0)
    && (forall d :: 0 <= d < |s.nodes| && s.nodes[d].kind == Dir && s.nodes[d].nlink == 0 ==> OnlyDots(s.nodes[d].entries, |s.nodes|))
    && (forall i :: i in s.pending ==> 1 <= i < |s.nodes| && (s.nodes[i].kind == File || s.nodes[i].kind == Dev))
  }

  predicate IsEmptyDir(es: seq<Dirent>) {
    forall k :: 2 <= k < |es| ==> es[k].inum == 0
  }

  predicate OnlyDots(es: seq<Dirent>, ninodes: nat) {
    |es| >= 2 && es[0].name == "." && es[1].name == ".." && es[0].inum < ninodes && es[1].inum < ninodes && IsEmptyDir(es)
  }

  predicate ParentIs(s: Space, d: nat, p: nat) {
    d < |s.nodes| && |s.nodes[d].entries| >= 2 && s.nodes[d].entries[1].inum == p
  }

  /** Directory c is entry k of p. */
  predicate Holds(s: Space, p: nat, k: nat, c: nat) {
    p < |s.nodes| && IsLive(s.nodes[p]) && 2 <= k < |s.nodes[p].entries| && s.nodes[p].entries[k].inum == c
  }

  /** Directory d is entry k of p, which its ".." names, one level up. */
  ghost predicate PlacedAt(s: Space, depth: map<nat, nat>, d: nat, p: nat, k: nat) {
    ParentIs(s, d, p) && Holds(s, p, k, d) && d in depth && p in depth && depth[d] == depth[p] + 1
  }

  ghost predicate Placed(s: Space, depth: map<nat, nat>, d: nat) {
    exists p: nat, k: nat :: PlacedAt(s, depth, d, p, k)
  }

  /** Every live directory but the root is an entry of the live directory its ".." names, one level down. */
  ghost predicate Rooted(s: Space, depth: map<nat, nat>) {
    && |s.nodes| > ROOT && IsLive(s.nodes[ROOT]) && ParentIs(s, ROOT, ROOT) && ROOT in depth && depth[ROOT] == 0
    && forall d :: 0 <= d < |s.nodes| && IsLive(s.nodes[d]) && d != ROOT ==> Placed(s, depth, d)
  }

  /** An entry naming a directory is that directory's only one. */
  ghost predicate OneParent(s: Space) {
    && (forall p: nat, k: nat, c: nat :: Holds(s, p, k, c) && c < |s.nodes| && s.nodes[c].kind == Dir ==>
          c != ROOT && ParentIs(s, c, p))
    && (forall p: nat, k: nat, k': nat, c: nat :: Holds(s, p, k, c) && Holds(s, p, k', c) && c < |s.nodes| && s.nodes[c].kind == Dir ==>
          k == k')
  }

  ghost predicate Tree(s: Space, depth: map<nat, nat>) {
    Counted(s) && DotsOk(s) && NamesOk(s) && KindsOk(s) && Rooted(s, depth) && OneParent(s)
  }

  ghost predicate IsTree(s: Space) {
    exists depth :: Tree(s, depth)
  }

  // ---------- what the invariant means ----------

  /** A directory named by an entry of a live directory is live. */
  lemma NamedIsLive(s: Space, p: nat, k: nat, c: nat)
    requires Counted(s) && Holds(s, p, k, c) && 1 <= c < |s.nodes| && s.nodes[c].kind == Dir
    ensures IsLive(s.nodes[c])
  {
    CountSome(s.nodes, c, p, k);
  }

  /** Following ".." n times. */
  function Up(s: Space, d: nat, n: nat): nat
    decreases n
  {
    if n == 0 || d >= |s.nodes| || |s.nodes[d].entries| < 2 then d else Up(s, s.nodes[d].entries[1].inum, n - 1)
  }

  /** From every live directory ".." leads to the root, in as many steps as its depth. */
  lemma {:induction false} UpToRoot(s: Space, depth: map<nat, nat>, d: nat)
    requires Rooted(s, depth) && d < |s.nodes| && IsLive(s.nodes[d])
    ensures d in depth && Up(s, d, depth[d]) == ROOT
    decreases if d in depth then depth[d] else 0
  {
    if d != ROOT {
      assert Placed(s, depth, d);
      var p: nat, k: nat :| PlacedAt(s, depth, d, p, k);
      UpToRoot(s, depth, p);
    }
  }

  // ---------- the steps ----------

  /** dirlink's slot: the first free entry, or the end. */
  function EmptySlot(es: seq<Dirent>): (k: nat)
    ensures k <= |es| && (k < |es| ==> es[k].inum == 0) && forall j :: 0 <= j < k ==> es[j].inum != 0
  {
    if es == [] then 0 else
    var k := EmptySlot(es[..|es| - 1]);
    if k < |es| - 1 || es[|es| - 1].inum == 0 then k else |es|
  }

  function Put(es: seq<Dirent>, e: Dirent): seq<Dirent> {
    var k := EmptySlot(es);
    if k < |es| then es[k := e] else es + [e]
  }

  /** Entries in use stay where they are, and a directory grows only if it has no free entry. */
  lemma PutReuses(es: seq<Dirent>, e: Dirent)
    ensures |Put(es, e)| == |es| + if exists k :: 0 <= k < |es| && es[k].inum == 0 then 0 else 1
    ensures forall k :: 0 <= k < |es| && es[k].inum != 0 ==> Put(es, e)[k] == es[k]
    ensures e in Put(es, e) && multiset(Put(es, e)) <= multiset(es) + multiset{e}
  {
    var k := EmptySlot(es);
    if k < |es| {
      assert Put(es, e)[k] == e;
    }
  }

  predicate HasName(es: seq<Dirent>, name: Name) {
    exists k :: 0 <= k < |es| && es[k].inum != 0 && es[k].name == name
  }

  function NewEntries(kind: Kind, ip: nat, dp: nat): seq<Dirent> {
    if kind == Dir then [Dirent(ip, "."), Dirent(dp, "..")] else []
  }

  /** create: a new inode ip of the given kind, entered in directory dp under `name`. */
  function Created(s: Space, dp: nat, name: Name, ip: nat, kind: Kind): Space
    requires dp < |s.nodes| && ip < |s.nodes|
  {
    var d := s.nodes[dp];
    s.(nodes := s.nodes[ip := Node(kind, 1, NewEntries(kind, ip, dp))]
                       [dp := Node(d.kind, d.nlink + (if kind == Dir then 1 else 0), Put(d.entries, Dirent(ip, name)))])
  }

  /** unlink: entry k of dp is cleared and its inode loses a link; a directory takes its ".." with it. */
  function Unlinked(s: Space, dp: nat, k: nat): Space
    requires dp < |s.nodes| && k < |s.nodes[dp].entries| && s.nodes[dp].entries[k].inum < |s.nodes|
  {
    var d, ip := s.nodes[dp], s.nodes[dp].entries[k].inum;
    var n := s.nodes[ip];
    s.(nodes := s.nodes[dp := Node(d.kind, Less(d.nlink, if n.kind == Dir then 1 else 0), d.entries[k := Dirent(0, "")])]
                       [ip := Node(n.kind, Less(n.nlink, 1), n.entries)])
  }

  function Less(n: nat, k: nat): nat {
    if n >= k then n - k else 0
  }

  /** link, first half: the target gets its link before the entry exists. */
  function LinkBegun(s: Space, i: nat): Space
    requires i < |s.nodes|
  {
    Space(s.nodes[i := s.nodes[i].(nlink := s.nodes[i].nlink + 1)], s.pending + multiset{i})
  }

  /** link, second half: the entry, or taking the link back. */
  function LinkEnded(s: Space, i: nat, dp: nat, name: Name): Space
    requires dp < |s.nodes|
  {
    Space(s.nodes[dp := s.nodes[dp].(entries := Put(s.nodes[dp].entries, Dirent(i, name)))], s.pending - multiset{i})
  }

  function LinkUndone(s: Space, i: nat): Space
    requires i < |s.nodes|
  {
    Space(s.nodes[i := s.nodes[i].(nlink := Less(s.nodes[i].nlink, 1))], s.pending - multiset{i})
  }

  /** iput of the last reference to an inode without links. */
  function Released(s: Space, i: nat): Space
    requires i < |s.nodes|
  {
    s.(nodes := s.nodes[i := Node(Free, 0, [])])
  }

  lemma NamingPut(es: seq<Dirent>, e: Dirent, i: nat)
    requires |es| >= 2 && es[0].inum != 0 && es[1].inum != 0 && i >= 1
    ensures EmptySlot(es) >= 2 && Naming(Put(es, e), i) == Naming(es, i) + if e.inum == i then 1 else 0
  {
    var k := EmptySlot(es);
    if k < |es| {
      NamingUpdate(es, k, e, i);
    } else {
      NamingAppend(es, e, i);
    }
  }

  lemma PutDistinct(es: seq<Dirent>, e: Dirent)
    requires Distinct(es) && !HasName(es, e.name)
    ensures Distinct(Put(es, e))
  {
  }

  /** What Put keeps and adds. */
  lemma PutKeeps(es: seq<Dirent>, e: Dirent)
    ensures |Put(es, e)| >= |es| && EmptySlot(es) < |Put(es, e)| && Put(es, e)[EmptySlot(es)] == e
    ensures forall k :: 0 <= k < |es| && es[k].inum != 0 ==> Put(es, e)[k] == es[k]
    ensures forall k :: 0 <= k < |Put(es, e)| && k != EmptySlot(es) ==> k < |es| && Put(es, e)[k] == es[k]
  {
  }
}
