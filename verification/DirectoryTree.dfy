/** Every sequence of create, link and unlink keeps the directories a tree with true link counts. */
module DirectoryTree {
  import opened Directory

  // ---------- create ----------

  ghost predicate CanCreate(s: Space, dp: nat, name: Name, ip: nat, kind: Kind) {
    && 1 <= dp < |s.nodes| && 1 <= ip < |s.nodes| && kind != Free
    && s.nodes[dp].kind == Dir && s.nodes[ip].kind == Free && !HasName(s.nodes[dp].entries, name)
  }

  /** A free inode is named nowhere. */
  lemma FreeUnnamed(s: Space, i: nat)
    requires Counted(s) && KindsOk(s) && 1 <= i < |s.nodes| && s.nodes[i].kind == Free
    ensures Count(s.nodes, i) == 0 && s.pending[i] == 0
    ensures forall p: nat, k: nat :: !Holds(s, p, k, i)
  {
    forall p: nat, k: nat | Holds(s, p, k, i)
      ensures false
    {
      CountSome(s.nodes, i, p, k);
    }
  }

  lemma CreateCount(s: Space, dp: nat, name: Name, ip: nat, kind: Kind, i: nat)
    requires CanCreate(s, dp, name, ip, kind) && IsLive(s.nodes[dp]) && DotsOk(s) && i >= 1
    ensures Count(Created(s, dp, name, ip, kind).nodes, i) ==
            Count(s.nodes, i) + (if i == ip then 1 else 0) + (if kind == Dir && i == dp then 1 else 0)
  {
    var n := Node(kind, 1, NewEntries(kind, ip, dp));
    var mid := s.nodes[ip := n];
    var d := s.nodes[dp];
    var d' := Node(d.kind, d.nlink + (if kind == Dir then 1 else 0), Put(d.entries, Dirent(ip, name)));
    CountUpdate(s.nodes, ip, n, i);
    CountUpdate(mid, dp, d', i);
    NamingPut(d.entries, Dirent(ip, name), i);
    if kind == Dir {
      assert n.entries[..1] == [Dirent(ip, ".")];
      assert Naming(n.entries, i) == if i == dp then 1 else 0;
    }
  }

  lemma CreateCounted(s: Space, dp: nat, name: Name, ip: nat, kind: Kind)
    requires CanCreate(s, dp, name, ip, kind) && IsLive(s.nodes[dp]) && DotsOk(s) && Counted(s) && KindsOk(s)
    ensures Counted(Created(s, dp, name, ip, kind))
  {
    var t := Created(s, dp, name, ip, kind);
    FreeUnnamed(s, ip);
    forall i | 1 <= i < |t.nodes|
      ensures t.nodes[i].nlink == Count(t.nodes, i) + t.pending[i]
    {
      CreateCount(s, dp, name, ip, kind, i);
    }
  }

  lemma CreateShapes(s: Space, dp: nat, name: Name, ip: nat, kind: Kind)
    requires CanCreate(s, dp, name, ip, kind) && IsLive(s.nodes[dp]) && DotsOk(s) && NamesOk(s) && KindsOk(s)
    ensures var t := Created(s, dp, name, ip, kind); DotsOk(t) && NamesOk(t) && KindsOk(t)
  {
    hide Put, EmptySlot, HasName;
    var t := Created(s, dp, name, ip, kind);
    var es, e := s.nodes[dp].entries, Dirent(ip, name);
    PutKeeps(es, e);
    PutDistinct(es, e);
    assert es[0].inum == dp;
    assert Distinct(NewEntries(kind, ip, dp));
  }

  /** After create, entries above slot 1 are the old ones and the new one. */
  lemma CreateHeld(s: Space, dp: nat, name: Name, ip: nat, kind: Kind, p: nat, k: nat, c: nat)
    requires CanCreate(s, dp, name, ip, kind) && IsLive(s.nodes[dp]) && c != 0 && !Holds(s, p, k, ip)
    ensures Holds(Created(s, dp, name, ip, kind), p, k, c) ==>
              if c == ip then p == dp && k == EmptySlot(s.nodes[dp].entries) else Holds(s, p, k, c)
    ensures Holds(s, p, k, c) ==> Holds(Created(s, dp, name, ip, kind), p, k, c)
  {
    PutKeeps(s.nodes[dp].entries, Dirent(ip, name));
    hide Put, EmptySlot, HasName;
  }

  lemma CreatePlaced(s: Space, depth: map<nat, nat>, dp: nat, name: Name, ip: nat, kind: Kind, d: nat)
    requires CanCreate(s, dp, name, ip, kind) && IsLive(s.nodes[dp]) && dp in depth
    requires Placed(s, depth, d) && d != ip && forall p: nat, k: nat :: !Holds(s, p, k, ip)
    requires |s.nodes[dp].entries| >= 2 && s.nodes[dp].entries[1].inum != 0
    requires !ParentIs(s, d, ip) && d != 0
    ensures Placed(Created(s, dp, name, ip, kind), depth[ip := depth[dp] + 1], d)
  {
    var t := Created(s, dp, name, ip, kind);
    var p: nat, k: nat :| PlacedAt(s, depth, d, p, k);
    CreateHeld(s, dp, name, ip, kind, p, k, d);
    PutKeeps(s.nodes[dp].entries, Dirent(ip, name));
    hide Put, EmptySlot, HasName;
    assert PlacedAt(t, depth[ip := depth[dp] + 1], d, p, k);
  }

  lemma CreatePlacesNew(s: Space, depth: map<nat, nat>, dp: nat, name: Name, ip: nat)
    requires CanCreate(s, dp, name, ip, Dir) && IsLive(s.nodes[dp]) && DotsOk(s) && dp in depth
    ensures Placed(Created(s, dp, name, ip, Dir), depth[ip := depth[dp] + 1], ip)
  {
    var es, e := s.nodes[dp].entries, Dirent(ip, name);
    PutKeeps(es, e);
    NamingPut(es, e, 1);
    hide Put, EmptySlot, HasName;
    PlacedBy(Created(s, dp, name, ip, Dir), depth[ip := depth[dp] + 1], ip, dp, EmptySlot(es));
  }

  lemma CreateRooted(s: Space, depth: map<nat, nat>, dp: nat, name: Name, ip: nat, kind: Kind)
    requires CanCreate(s, dp, name, ip, kind) && IsLive(s.nodes[dp]) && DotsOk(s) && Rooted(s, depth) && dp in depth
    requires KindsOk(s) && forall p: nat, k: nat :: !Holds(s, p, k, ip)
    ensures Rooted(Created(s, dp, name, ip, kind), depth[ip := depth[dp] + 1])
  {
    var t := Created(s, dp, name, ip, kind);
    var depth' := depth[ip := depth[dp] + 1];
    PutKeeps(s.nodes[dp].entries, Dirent(ip, name));
    assert s.nodes[dp].entries[0].inum == dp;
    hide Put, EmptySlot, HasName, Placed;
    forall d | 0 <= d < |t.nodes| && IsLive(t.nodes[d]) && d != ROOT
      ensures Placed(t, depth', d)
    {
      if d == ip {
        CreatePlacesNew(s, depth, dp, name, ip);
      } else {
        assert Placed(s, depth, d);
        ParentLive(s, depth, d);
        CreatePlaced(s, depth, dp, name, ip, kind, d);
      }
    }
  }

  lemma PlacedBy(s: Space, depth: map<nat, nat>, d: nat, p: nat, k: nat)
    requires PlacedAt(s, depth, d, p, k)
    ensures Placed(s, depth, d)
  {
  }

  lemma ParentLive(s: Space, depth: map<nat, nat>, d: nat)
    requires Placed(s, depth, d)
    ensures d < |s.nodes| && |s.nodes[d].entries| >= 2
    ensures s.nodes[d].entries[1].inum < |s.nodes| && IsLive(s.nodes[s.nodes[d].entries[1].inum])
  {
  }

  lemma CreateOneParent(s: Space, dp: nat, name: Name, ip: nat, kind: Kind)
    requires CanCreate(s, dp, name, ip, kind) && IsLive(s.nodes[dp]) && DotsOk(s) && KindsOk(s) && OneParent(s)
    requires ip != ROOT && forall p: nat, k: nat :: !Holds(s, p, k, ip)
    ensures OneParent(Created(s, dp, name, ip, kind))
  {
    var t := Created(s, dp, name, ip, kind);
    PutKeeps(s.nodes[dp].entries, Dirent(ip, name));
    hide Put, EmptySlot, HasName;
    forall p: nat, k: nat, c: nat | Holds(t, p, k, c) && c < |t.nodes| && t.nodes[c].kind == Dir
      ensures c != ROOT && ParentIs(t, c, p)
      ensures if c == ip then p == dp && k == EmptySlot(s.nodes[dp].entries) else Holds(s, p, k, c)
    {
      CreateHeld(s, dp, name, ip, kind, p, k, c);
    }
    forall p: nat, k: nat, k': nat, c: nat | Holds(t, p, k, c) && Holds(t, p, k', c) && c < |t.nodes| && t.nodes[c].kind == Dir
      ensures k == k'
    {
    }
  }

  lemma CreateKeeps(s: Space, depth: map<nat, nat>, dp: nat, name: Name, ip: nat, kind: Kind)
    requires CanCreate(s, dp, name, ip, kind) && IsLive(s.nodes[dp]) && Tree(s, depth)
    ensures dp in depth && Tree(Created(s, dp, name, ip, kind), depth[ip := depth[dp] + 1])
  {
    CreateCounted(s, dp, name, ip, kind);
    CreateShapes(s, dp, name, ip, kind);
    UpToRoot(s, depth, dp);
    FreeUnnamed(s, ip);
    CreateRooted(s, depth, dp, name, ip, kind);
    CreateOneParent(s, dp, name, ip, kind);
    hide Counted, DotsOk, NamesOk, KindsOk, Rooted, OneParent;
  }

  // ---------- unlink ----------

  /** Entry k of dp names inode ip, which unlink may remove. */
  ghost predicate CanUnlink(s: Space, dp: nat, k: nat, ip: nat) {
    && Holds(s, dp, k, ip) && 1 <= ip < |s.nodes|
    && (s.nodes[ip].kind == Dir ==> IsEmptyDir(s.nodes[ip].entries))
  }

  /** An empty directory is nobody's parent, and not its own. */
  lemma NoChildren(s: Space, depth: map<nat, nat>, dp: nat, k: nat, ip: nat, d: nat)
    requires Tree(s, depth) && CanUnlink(s, dp, k, ip) && s.nodes[ip].kind == Dir
    requires d < |s.nodes| && IsLive(s.nodes[d])
    ensures ip != ROOT && ParentIs(s, ip, dp) && ip != dp && !ParentIs(s, d, ip)
  {
    assert Holds(s, dp, k, ip);
    NamedIsLive(s, dp, k, ip);
    hide Counted, NamesOk;
    if d != ROOT {
      assert Placed(s, depth, d);
      var p: nat, j: nat :| PlacedAt(s, depth, d, p, j);
    }
    assert Placed(s, depth, ip);
    var p: nat, j: nat :| PlacedAt(s, depth, ip, p, j);
  }

  lemma FileIsNotDir(s: Space, dp: nat, k: nat, ip: nat)
    requires CanUnlink(s, dp, k, ip) && s.nodes[ip].kind != Dir
    ensures ip != dp
  {
  }

  /** The entry being removed is the only one naming a directory. */
  lemma DirCountOne(s: Space, depth: map<nat, nat>, dp: nat, k: nat, ip: nat)
    requires Tree(s, depth) && CanUnlink(s, dp, k, ip) && s.nodes[ip].kind == Dir
    ensures s.nodes[ip].nlink == 1
  {
    assert s.pending[ip] == 0 && s.nodes[ip].nlink == Count(s.nodes, ip);
    hide Counted, DotsOk, NamesOk, KindsOk, Rooted, OneParent, IsEmptyDir, ParentIs;
    var d := s.nodes[dp];
    var cleared := Node(d.kind, d.nlink, d.entries[k := Dirent(0, "")]);
    var nodes := s.nodes[dp := cleared];
    CountUpdate(s.nodes, dp, cleared, ip);
    NamingUpdate(d.entries, k, Dirent(0, ""), ip);
    forall e, j | 0 <= e < |nodes| && IsLive(nodes[e]) && 1 <= j < |nodes[e].entries|
      ensures nodes[e].entries[j].inum != ip
    {
      if (e, j) != (dp, k) {
        OnlyEntry(s, depth, dp, k, ip, e, j);
      }
    }
    CountNone(nodes, ip);
  }

  lemma SameEntry(s: Space, p: nat, k: nat, p': nat, k': nat, c: nat)
    requires OneParent(s) && c < |s.nodes| && s.nodes[c].kind == Dir
    ensures Holds(s, p, k, c) && Holds(s, p', k', c) ==> p == p' && k == k'
  {
  }

  lemma OnlyEntry(s: Space, depth: map<nat, nat>, dp: nat, k: nat, ip: nat, e: nat, j: nat)
    requires Tree(s, depth) && CanUnlink(s, dp, k, ip) && s.nodes[ip].kind == Dir
    requires e < |s.nodes| && IsLive(s.nodes[e]) && 1 <= j < |s.nodes[e].entries| && (e, j) != (dp, k)
    ensures s.nodes[e].entries[j].inum != ip
  {
    SameEntry(s, e, j, dp, k, ip);
    NoChildren(s, depth, dp, k, ip, e);
    hide Counted, NamesOk, Rooted, OneParent;
  }

  /** The entries of an empty directory other than "." name its parent only. */
  lemma EmptyNaming(s: Space, ip: nat, dp: nat, i: nat)
    requires ip < |s.nodes| && IsEmptyDir(s.nodes[ip].entries) && ParentIs(s, ip, dp) && i >= 1
    ensures Naming(s.nodes[ip].entries, i) == if i == dp then 1 else 0
  {
    EmptyNamingOf(s.nodes[ip].entries, i);
  }

  lemma {:induction false} EmptyNamingOf(es: seq<Dirent>, i: nat)
    requires |es| >= 2 && IsEmptyDir(es) && i >= 1
    ensures Naming(es, i) == if i == es[1].inum then 1 else 0
  {
    if |es| > 2 {
      EmptyNamingOf(es[..|es| - 1], i);
    } else {
      assert Naming(es[..1], i) == 0;
    }
  }

  /** The parent keeps a link when it loses a child directory: the one from its own parent. */
  lemma ParentKeepsLink(s: Space, depth: map<nat, nat>, dp: nat, k: nat, ip: nat)
    requires Tree(s, depth) && CanUnlink(s, dp, k, ip) && s.nodes[ip].kind == Dir
    ensures s.nodes[dp].nlink >= 2
  {
    NoChildren(s, depth, dp, k, ip, dp);
    NamedIsLive(s, dp, k, ip);
    var dead := Node(Dir, 0, s.nodes[ip].entries);
    var nodes := s.nodes[ip := dead];
    CountUpdate(s.nodes, ip, dead, dp);
    EmptyNaming(s, ip, dp, dp);
    if dp == ROOT {
      CountSome(nodes, dp, ROOT, 1);
    } else {
      assert Placed(s, depth, dp);
      var p: nat, j: nat :| PlacedAt(s, depth, dp, p, j);
      CountSome(nodes, dp, p, j);
    }
  }

  lemma UnlinkCount(s: Space, depth: map<nat, nat>, dp: nat, k: nat, ip: nat, i: nat)
    requires Tree(s, depth) && CanUnlink(s, dp, k, ip) && i >= 1
    ensures Count(Unlinked(s, dp, k).nodes, i) ==
            Count(s.nodes, i) - (if i == ip then 1 else 0) - (if s.nodes[ip].kind == Dir && i == dp then 1 else 0)
  {
    var d, n := s.nodes[dp], s.nodes[ip];
    var isDir := n.kind == Dir;
    if isDir {
      NoChildren(s, depth, dp, k, ip, dp);
      DirCountOne(s, depth, dp, k, ip);
      ParentKeepsLink(s, depth, dp, k, ip);
      EmptyNaming(s, ip, dp, i);
    } else {
      FileIsNotDir(s, dp, k, ip);
    }
    hide Tree, Counted, DotsOk, NamesOk, KindsOk, Rooted, OneParent;
    var d' := Node(d.kind, Less(d.nlink, if isDir then 1 else 0), d.entries[k := Dirent(0, "")]);
    CountUpdate(s.nodes, dp, d', i);
    NamingUpdate(d.entries, k, Dirent(0, ""), i);
    CountUpdate(s.nodes[dp := d'], ip, Node(n.kind, Less(n.nlink, 1), n.entries), i);
  }

  lemma UnlinkLinks(s: Space, depth: map<nat, nat>, dp: nat, k: nat, ip: nat)
    requires Tree(s, depth) && CanUnlink(s, dp, k, ip)
    ensures s.nodes[ip].nlink >= 1 && (s.nodes[ip].kind == Dir ==> ip != dp && s.nodes[dp].nlink >= 2)
  {
    CountSome(s.nodes, ip, dp, k);
    assert s.nodes[ip].nlink >= 1;
    hide Counted, DotsOk, NamesOk, KindsOk, Rooted, OneParent, Count;
    if s.nodes[ip].kind == Dir {
      NoChildren(s, depth, dp, k, ip, dp);
      ParentKeepsLink(s, depth, dp, k, ip);
    }
  }

  lemma UnlinkCounted(s: Space, depth: map<nat, nat>, dp: nat, k: nat, ip: nat)
    requires Tree(s, depth) && CanUnlink(s, dp, k, ip)
    ensures Counted(Unlinked(s, dp, k))
  {
    hide DotsOk, NamesOk, KindsOk, Rooted, OneParent, Count;
    var t := Unlinked(s, dp, k);
    UnlinkLinks(s, depth, dp, k, ip);
    forall i | 1 <= i < |t.nodes|
      ensures t.nodes[i].nlink == Count(t.nodes, i) + t.pending[i]
    {
      assert s.nodes[i].nlink == Count(s.nodes, i) + s.pending[i];
      UnlinkCount(s, depth, dp, k, ip, i);
    }
  }

  /** What an unlink leaves of each inode. */
  lemma UnlinkNode(s: Space, depth: map<nat, nat>, dp: nat, k: nat, ip: nat, d: nat)
    requires Tree(s, depth) && CanUnlink(s, dp, k, ip) && d < |s.nodes|
    ensures var m, n := s.nodes[d], Unlinked(s, dp, k).nodes[d];
            && n.kind == m.kind
            && n.entries == (if d == dp then m.entries[k := Dirent(0, "")] else m.entries)
            && (IsLive(n) <==> IsLive(m) && !(d == ip && m.kind == Dir))
  {
    if s.nodes[ip].kind == Dir {
      NoChildren(s, depth, dp, k, ip, dp);
      DirCountOne(s, depth, dp, k, ip);
      ParentKeepsLink(s, depth, dp, k, ip);
    }
    hide Tree, Counted, DotsOk, NamesOk, KindsOk, Rooted, OneParent;
  }

  lemma UnlinkDots(s: Space, depth: map<nat, nat>, dp: nat, k: nat, ip: nat)
    requires Tree(s, depth) && CanUnlink(s, dp, k, ip)
    ensures DotsOk(Unlinked(s, dp, k)) && NamesOk(Unlinked(s, dp, k))
  {
    hide Counted, KindsOk, Rooted, OneParent;
    var t := Unlinked(s, dp, k);
    assert |t.nodes| == |s.nodes|;
    forall d | 0 <= d < |t.nodes| && IsLive(t.nodes[d])
      ensures Distinct(t.nodes[d].entries)
      ensures var es := t.nodes[d].entries;
              && |es| >= 2 && es[0] == Dirent(d, ".") && es[1].name == ".." && es[1].inum != 0
              && forall j :: 0 <= j < |es| ==> es[j].inum < |t.nodes|
    {
      hide Unlinked;
      UnlinkNode(s, depth, dp, k, ip, d);
      assert Distinct(s.nodes[d].entries);
    }
    hide Unlinked, Distinct;
  }

  lemma UnlinkKinds(s: Space, depth: map<nat, nat>, dp: nat, k: nat, ip: nat)
    requires Tree(s, depth) && CanUnlink(s, dp, k, ip)
    ensures KindsOk(Unlinked(s, dp, k))
  {
    hide Counted, NamesOk, Rooted, OneParent;
    var t := Unlinked(s, dp, k);
    forall d | 0 <= d < |t.nodes| && t.nodes[d].kind == Dir && t.nodes[d].nlink == 0
      ensures OnlyDots(t.nodes[d].entries, |t.nodes|)
    {
      UnlinkNode(s, depth, dp, k, ip, d);
    }
  }

  lemma UnlinkRooted(s: Space, depth: map<nat, nat>, dp: nat, k: nat, ip: nat)
    requires Tree(s, depth) && CanUnlink(s, dp, k, ip)
    ensures Rooted(Unlinked(s, dp, k), depth)
  {
    var t := Unlinked(s, dp, k);
    forall d | 0 <= d < |t.nodes| && IsLive(t.nodes[d]) && d != ROOT
      ensures Placed(t, depth, d)
    {
      UnlinkPlaced(s, depth, dp, k, ip, d);
    }
    UnlinkNode(s, depth, dp, k, ip, ROOT);
    hide Counted, DotsOk, NamesOk, KindsOk;
  }

  lemma UnlinkPlaced(s: Space, depth: map<nat, nat>, dp: nat, k: nat, ip: nat, d: nat)
    requires Tree(s, depth) && CanUnlink(s, dp, k, ip)
    requires d < |s.nodes| && IsLive(Unlinked(s, dp, k).nodes[d]) && d != ROOT
    ensures Placed(Unlinked(s, dp, k), depth, d)
  {
    var t := Unlinked(s, dp, k);
    UnlinkNode(s, depth, dp, k, ip, d);
    assert Placed(s, depth, d);
    var p: nat, j: nat :| PlacedAt(s, depth, d, p, j);
    UnlinkNode(s, depth, dp, k, ip, p);
    hide Counted, DotsOk, NamesOk, KindsOk, Rooted, OneParent;
    PlacedBy(t, depth, d, p, j);
  }

  lemma UnlinkHeld(s: Space, depth: map<nat, nat>, dp: nat, k: nat, ip: nat, p: nat, j: nat, c: nat)
    requires Tree(s, depth) && CanUnlink(s, dp, k, ip) && c < |s.nodes|
    ensures var t := Unlinked(s, dp, k);
            Holds(t, p, j, c) && t.nodes[c].kind == Dir ==> Holds(s, p, j, c) && ParentIs(t, c, p) && c != ROOT && s.nodes[c].kind == Dir
  {
    var t := Unlinked(s, dp, k);
    if Holds(t, p, j, c) {
      UnlinkNode(s, depth, dp, k, ip, p);
    }
    UnlinkNode(s, depth, dp, k, ip, c);
    hide Counted, DotsOk, NamesOk, Rooted, Unlinked;
  }

  lemma UnlinkOneParent(s: Space, depth: map<nat, nat>, dp: nat, k: nat, ip: nat)
    requires Tree(s, depth) && CanUnlink(s, dp, k, ip)
    ensures OneParent(Unlinked(s, dp, k))
  {
    var t := Unlinked(s, dp, k);
    assert |t.nodes| == |s.nodes| && OneParent(s);
    hide Tree, Unlinked, Holds, ParentIs;
    forall p: nat, j: nat, c: nat | Holds(t, p, j, c) && c < |t.nodes| && t.nodes[c].kind == Dir
      ensures Holds(s, p, j, c) && ParentIs(t, c, p) && c != ROOT && s.nodes[c].kind == Dir
    {
      UnlinkHeld(s, depth, dp, k, ip, p, j, c);
    }
  }

  lemma UnlinkKeeps(s: Space, depth: map<nat, nat>, dp: nat, k: nat, ip: nat)
    requires Tree(s, depth) && CanUnlink(s, dp, k, ip)
    ensures Tree(Unlinked(s, dp, k), depth)
  {
    UnlinkCounted(s, depth, dp, k, ip);
    UnlinkDots(s, depth, dp, k, ip);
    UnlinkKinds(s, depth, dp, k, ip);
    UnlinkRooted(s, depth, dp, k, ip);
    UnlinkOneParent(s, depth, dp, k, ip);
    hide Counted, DotsOk, NamesOk, KindsOk, Rooted, OneParent;
  }

  // ---------- link and the last iput ----------

  /** Changing an inode that is not a directory, or freeing one that nothing names, leaves the tree alone. */
  lemma OutsideTree(s: Space, depth: map<nat, nat>, t: Space, i: nat, x: Node)
    requires Tree(s, depth) && 1 <= i < |s.nodes| && t.nodes == s.nodes[i := x]
    requires !IsLive(s.nodes[i]) && x.kind != Dir
    ensures DotsOk(t) && NamesOk(t) && Rooted(t, depth) && OneParent(t)
  {
    hide Counted, KindsOk;
    assert forall p: nat, k: nat, c: nat :: Holds(t, p, k, c) == Holds(s, p, k, c);
    forall d | 0 <= d < |t.nodes| && IsLive(t.nodes[d]) && d != ROOT
      ensures Placed(t, depth, d)
    {
      assert Placed(s, depth, d);
      var p: nat, k: nat :| PlacedAt(s, depth, d, p, k);
      PlacedBy(t, depth, d, p, k);
    }
  }

  lemma OutsideCount(s: Space, t: Space, i: nat, x: Node)
    requires i < |s.nodes| && t.nodes == s.nodes[i := x] && !IsLive(s.nodes[i]) && x.kind != Dir
    ensures forall j: nat :: Count(t.nodes, j) == Count(s.nodes, j)
  {
    forall j: nat
      ensures Count(t.nodes, j) == Count(s.nodes, j)
    {
      CountUpdate(s.nodes, i, x, j);
    }
  }

  predicate CanBegin(s: Space, i: nat) {
    1 <= i < |s.nodes| && (s.nodes[i].kind == File || s.nodes[i].kind == Dev)
  }

  lemma BeginKeeps(s: Space, depth: map<nat, nat>, i: nat)
    requires Tree(s, depth) && CanBegin(s, i)
    ensures Tree(LinkBegun(s, i), depth)
  {
    var t := LinkBegun(s, i);
    OutsideTree(s, depth, t, i, t.nodes[i]);
    OutsideCount(s, t, i, t.nodes[i]);
    hide DotsOk, NamesOk, Rooted, OneParent, Count;
  }

  lemma UndoKeeps(s: Space, depth: map<nat, nat>, i: nat)
    requires Tree(s, depth) && i in s.pending
    ensures Tree(LinkUndone(s, i), depth)
  {
    var t := LinkUndone(s, i);
    OutsideTree(s, depth, t, i, t.nodes[i]);
    OutsideCount(s, t, i, t.nodes[i]);
    hide DotsOk, NamesOk, Rooted, OneParent, Count;
  }

  predicate CanRelease(s: Space, i: nat) {
    1 <= i < |s.nodes| && s.nodes[i].nlink == 0
  }

  lemma ReleaseKeeps(s: Space, depth: map<nat, nat>, i: nat)
    requires Tree(s, depth) && CanRelease(s, i)
    ensures Tree(Released(s, i), depth)
  {
    var t := Released(s, i);
    OutsideTree(s, depth, t, i, t.nodes[i]);
    OutsideCount(s, t, i, t.nodes[i]);
    assert s.pending[i] == 0;
    hide DotsOk, NamesOk, Rooted, OneParent, Count;
  }

  ghost predicate CanEnd(s: Space, i: nat, dp: nat, name: Name) {
    i in s.pending && 1 <= dp < |s.nodes| && s.nodes[dp].kind == Dir && !HasName(s.nodes[dp].entries, name)
  }

  lemma EndCounted(s: Space, i: nat, dp: nat, name: Name)
    requires CanEnd(s, i, dp, name) && IsLive(s.nodes[dp]) && Counted(s) && DotsOk(s) && KindsOk(s)
    ensures Counted(LinkEnded(s, i, dp, name))
  {
    var t := LinkEnded(s, i, dp, name);
    var es, e := s.nodes[dp].entries, Dirent(i, name);
    assert es[0].inum == dp && es[1].inum != 0;
    forall j | 1 <= j < |t.nodes|
      ensures t.nodes[j].nlink == Count(t.nodes, j) + t.pending[j]
    {
      CountUpdate(s.nodes, dp, t.nodes[dp], j);
      NamingPut(es, e, j);
      hide Put, Naming, Count;
      assert s.nodes[j].nlink == Count(s.nodes, j) + s.pending[j];
    }
  }

  lemma EndShapes(s: Space, i: nat, dp: nat, name: Name)
    requires CanEnd(s, i, dp, name) && IsLive(s.nodes[dp]) && DotsOk(s) && NamesOk(s) && KindsOk(s)
    ensures var t := LinkEnded(s, i, dp, name); DotsOk(t) && NamesOk(t) && KindsOk(t)
  {
    hide Put, EmptySlot, HasName;
    PutKeeps(s.nodes[dp].entries, Dirent(i, name));
    PutDistinct(s.nodes[dp].entries, Dirent(i, name));
    assert s.nodes[dp].entries[0].inum == dp;
  }

  lemma EndHeld(s: Space, i: nat, dp: nat, name: Name, p: nat, k: nat, c: nat)
    requires CanEnd(s, i, dp, name) && c != 0 && c != i
    ensures Holds(LinkEnded(s, i, dp, name), p, k, c) <==> Holds(s, p, k, c)
  {
    PutKeeps(s.nodes[dp].entries, Dirent(i, name));
    hide Put, EmptySlot, HasName;
  }

  lemma EndRooted(s: Space, depth: map<nat, nat>, i: nat, dp: nat, name: Name)
    requires CanEnd(s, i, dp, name) && DotsOk(s) && KindsOk(s) && Rooted(s, depth)
    requires IsLive(s.nodes[dp])
    ensures Rooted(LinkEnded(s, i, dp, name), depth)
  {
    var t := LinkEnded(s, i, dp, name);
    PutKeeps(s.nodes[dp].entries, Dirent(i, name));
    hide Put, EmptySlot, HasName;
    forall d | 0 <= d < |t.nodes| && IsLive(t.nodes[d]) && d != ROOT
      ensures Placed(t, depth, d)
    {
      assert Placed(s, depth, d);
      var p: nat, k: nat :| PlacedAt(s, depth, d, p, k);
      EndHeld(s, i, dp, name, p, k, d);
      PlacedBy(t, depth, d, p, k);
    }
  }

  lemma EndOneParent(s: Space, i: nat, dp: nat, name: Name)
    requires CanEnd(s, i, dp, name) && DotsOk(s) && KindsOk(s) && OneParent(s)
    requires IsLive(s.nodes[dp])
    ensures OneParent(LinkEnded(s, i, dp, name))
  {
    var t := LinkEnded(s, i, dp, name);
    PutKeeps(s.nodes[dp].entries, Dirent(i, name));
    hide Put, EmptySlot, HasName;
    forall p: nat, k: nat, c: nat | Holds(t, p, k, c) && c < |t.nodes| && t.nodes[c].kind == Dir
      ensures Holds(s, p, k, c) && c != ROOT && ParentIs(t, c, p) && s.nodes[c].kind == Dir
    {
      EndHeld(s, i, dp, name, p, k, c);
    }
    hide LinkEnded, Holds, DotsOk, KindsOk;
  }

  lemma EndKeeps(s: Space, depth: map<nat, nat>, i: nat, dp: nat, name: Name)
    requires Tree(s, depth) && CanEnd(s, i, dp, name) && IsLive(s.nodes[dp])
    ensures Tree(LinkEnded(s, i, dp, name), depth)
  {
    EndCounted(s, i, dp, name);
    EndShapes(s, i, dp, name);
    EndRooted(s, depth, i, dp, name);
    EndOneParent(s, i, dp, name);
    hide Counted, DotsOk, NamesOk, KindsOk, Rooted, OneParent;
  }

  // ---------- neither create nor link checks that the parent is still linked ----------

  /** A file created in a removed directory has a link count but no entry counted for it. */
  lemma DeadParentFile(s: Space, depth: map<nat, nat>, dp: nat, name: Name, ip: nat, kind: Kind)
    requires Tree(s, depth) && CanCreate(s, dp, name, ip, kind) && !IsLive(s.nodes[dp]) && kind != Dir
    ensures !Counted(Created(s, dp, name, ip, kind))
  {
    FreeUnnamed(s, ip);
    var t := Created(s, dp, name, ip, kind);
    CountUpdate(s.nodes, ip, t.nodes[ip], ip);
    CountUpdate(s.nodes[ip := t.nodes[ip]], dp, t.nodes[dp], ip);
    hide Counted, DotsOk, NamesOk, KindsOk, Rooted, OneParent, Put;
    NotCounted(t, ip);
  }

  lemma NotCounted(s: Space, i: nat)
    requires 1 <= i < |s.nodes| && s.nodes[i].nlink != Count(s.nodes, i) + s.pending[i]
    ensures !Counted(s)
  {
  }

  /** A directory created in a removed directory revives it, with no entry leading to it. */
  lemma DeadParentDir(s: Space, depth: map<nat, nat>, dp: nat, name: Name, ip: nat, depth': map<nat, nat>)
    requires Tree(s, depth) && CanCreate(s, dp, name, ip, Dir) && !IsLive(s.nodes[dp])
    ensures !Rooted(Created(s, dp, name, ip, Dir), depth')
  {
    var t := Created(s, dp, name, ip, Dir);
    if Rooted(t, depth') {
      assert Placed(t, depth', dp);
      var p: nat, k: nat :| PlacedAt(t, depth', dp, p, k);
      assert p != dp && p != ip && Holds(s, p, k, dp);
      NamedIsLive(s, p, k, dp);
      assert false;
    }
  }

  /** create keeps the tree exactly when the parent is still linked. */
  lemma CreateKeepsIff(s: Space, dp: nat, name: Name, ip: nat, kind: Kind)
    requires IsTree(s) && CanCreate(s, dp, name, ip, kind)
    ensures IsTree(Created(s, dp, name, ip, kind)) <==> IsLive(s.nodes[dp])
  {
    var depth :| Tree(s, depth);
    var t := Created(s, dp, name, ip, kind);
    hide Counted, DotsOk, NamesOk, KindsOk, Rooted, OneParent, Created;
    if IsLive(s.nodes[dp]) {
      CreateKeeps(s, depth, dp, name, ip, kind);
    } else if kind == Dir {
      forall depth'
        ensures !Tree(t, depth')
      {
        DeadParentDir(s, depth, dp, name, ip, depth');
      }
    } else {
      DeadParentFile(s, depth, dp, name, ip, kind);
    }
  }

  /** The second half of link keeps the tree exactly when the parent is still linked. */
  lemma EndKeepsIff(s: Space, i: nat, dp: nat, name: Name)
    requires IsTree(s) && CanEnd(s, i, dp, name)
    ensures IsTree(LinkEnded(s, i, dp, name)) <==> IsLive(s.nodes[dp])
  {
    var depth :| Tree(s, depth);
    var t := LinkEnded(s, i, dp, name);
    if IsLive(s.nodes[dp]) {
      EndKeeps(s, depth, i, dp, name);
    } else {
      CountUpdate(s.nodes, dp, t.nodes[dp], i);
      assert s.nodes[i].nlink == Count(s.nodes, i) + s.pending[i];
      NotCounted(t, i);
    }
  }

  // ---------- every run ----------

  datatype Step =
    | Create(dp: nat, name: Name, ip: nat, kind: Kind)
    | Unlink(dp: nat, k: nat)
    | BeginLink(i: nat)
    | EndLink(i: nat, dp: nat, name: Name)
    | UndoLink(i: nat)
    | Release(i: nat)

  /** What the code checks, and for create and link that the parent is still linked. */
  ghost predicate Enabled(s: Space, e: Step) {
    match e
    case Create(dp, name, ip, kind) => CanCreate(s, dp, name, ip, kind) && IsLive(s.nodes[dp])
    case Unlink(dp, k) =>
      && dp < |s.nodes| && s.nodes[dp].kind == Dir && 2 <= k < |s.nodes[dp].entries| && 1 <= s.nodes[dp].entries[k].inum < |s.nodes|
      && var n := s.nodes[s.nodes[dp].entries[k].inum]; n.kind == Dir ==> IsEmptyDir(n.entries)
    case BeginLink(i) => CanBegin(s, i)
    case EndLink(i, dp, name) => CanEnd(s, i, dp, name) && IsLive(s.nodes[dp])
    case UndoLink(i) => i in s.pending && i < |s.nodes|
    case Release(i) => CanRelease(s, i)
  }

  ghost function Next(s: Space, e: Step): Space
    requires Enabled(s, e)
  {
    match e
    case Create(dp, name, ip, kind) => Created(s, dp, name, ip, kind)
    case Unlink(dp, k) => Unlinked(s, dp, k)
    case BeginLink(i) => LinkBegun(s, i)
    case EndLink(i, dp, name) => LinkEnded(s, i, dp, name)
    case UndoLink(i) => LinkUndone(s, i)
    case Release(i) => Released(s, i)
  }

  ghost predicate Runs(s: Space, es: seq<Step>, t: Space)
    decreases |es|
  {
    if es == [] then t == s else Enabled(s, es[0]) && Runs(Next(s, es[0]), es[1..], t)
  }

  /** mkfs's first image: an inode table holding only the root. */
  function RootOnly(ninodes: nat): Space
    requires ninodes > ROOT
  {
    Space([Node(Free, 0, []), Node(Dir, 1, [Dirent(ROOT, "."), Dirent(ROOT, "..")])] + seq(ninodes - 2, i => Node(Free, 0, [])), multiset{})
  }

  /** Nothing can be unlinked from a removed directory. */
  lemma UnlinkStep(s: Space, depth: map<nat, nat>, dp: nat, k: nat)
    requires Tree(s, depth) && Enabled(s, Unlink(dp, k))
    ensures IsLive(s.nodes[dp]) && CanUnlink(s, dp, k, s.nodes[dp].entries[k].inum)
  {
    hide Counted, DotsOk, NamesOk, Rooted, OneParent;
  }

  lemma StepKeeps(s: Space, e: Step)
    requires IsTree(s) && Enabled(s, e)
    ensures IsTree(Next(s, e))
  {
    var depth :| Tree(s, depth);
    hide Counted, DotsOk, NamesOk, KindsOk, Rooted, OneParent, Created, Unlinked, LinkBegun, LinkEnded, LinkUndone, Released;
    match e
    case Create(dp, name, ip, kind) => CreateKeeps(s, depth, dp, name, ip, kind);
    case Unlink(dp, k) => UnlinkStep(s, depth, dp, k); UnlinkKeeps(s, depth, dp, k, s.nodes[dp].entries[k].inum);
    case BeginLink(i) => BeginKeeps(s, depth, i);
    case EndLink(i, dp, name) => EndKeeps(s, depth, i, dp, name);
    case UndoLink(i) => UndoKeeps(s, depth, i);
    case Release(i) => ReleaseKeeps(s, depth, i);
  }

  lemma {:induction false} RunKeeps(s: Space, es: seq<Step>, t: Space)
    requires IsTree(s) && Runs(s, es, t)
    ensures IsTree(t)
    decreases |es|
  {
    if es != [] {
      StepKeeps(s, es[0]);
      RunKeeps(Next(s, es[0]), es[1..], t);
    }
  }

  lemma RootOnlyTree(ninodes: nat)
    requires ninodes > ROOT
    ensures IsTree(RootOnly(ninodes))
  {
    var s := RootOnly(ninodes);
    forall i | 1 <= i < |s.nodes|
      ensures Count(s.nodes, i) == if i == ROOT then 1 else 0
    {
      RootOnlyCount(s.nodes, i);
    }
    hide Count;
    assert Tree(s, map[ROOT := 0]);
  }

  lemma {:induction false} RootOnlyCount(nodes: seq<Node>, i: nat)
    requires |nodes| >= 2 && nodes[0] == Node(Free, 0, []) && nodes[1] == Node(Dir, 1, [Dirent(ROOT, "."), Dirent(ROOT, "..")])
    requires forall j :: 2 <= j < |nodes| ==> nodes[j] == Node(Free, 0, [])
    ensures Count(nodes, i) == if i == ROOT then 1 else 0
  {
    if |nodes| == 2 {
      assert nodes[1].entries[..1] == [Dirent(ROOT, ".")];
      assert nodes[..1][..0] == [] && Count(nodes[..1], i) == 0;
      assert Naming(nodes[1].entries, i) == if i == ROOT then 1 else 0;
    } else {
      RootOnlyCount(nodes[..|nodes| - 1], i);
    }
  }

  /**
   * After any run from a fresh image: each link count is the number of entries naming the inode, names in a
   * directory are distinct, and from every linked directory ".." leads up to the root.
   */
  lemma DirectoriesFormTree(ninodes: nat, es: seq<Step>, t: Space)
    requires ninodes > ROOT && Runs(RootOnly(ninodes), es, t)
    ensures forall i :: 1 <= i < |t.nodes| ==> t.nodes[i].nlink == Count(t.nodes, i) + t.pending[i]
    ensures forall d :: 0 <= d < |t.nodes| && IsLive(t.nodes[d]) ==>
              && Distinct(t.nodes[d].entries) && |t.nodes[d].entries| >= 2
              && t.nodes[d].entries[0] == Dirent(d, ".") && t.nodes[d].entries[1].name == ".."
              && LeadsUp(t, d) && (d != ROOT ==> NamedOnce(t, d))
  {
    RootOnlyTree(ninodes);
    RunKeeps(RootOnly(ninodes), es, t);
    var depth :| Tree(t, depth);
    forall d | 0 <= d < |t.nodes| && IsLive(t.nodes[d])
      ensures LeadsUp(t, d) && (d != ROOT ==> NamedOnce(t, d))
    {
      UpToRoot(t, depth, d);
      UpWitness(t, d, depth[d]);
      if d != ROOT {
        OnceNamed(t, depth, d);
      }
    }
    hide Rooted, OneParent, Count, Up, Runs, LeadsUp, NamedOnce;
  }

  /** One entry of one live directory names d, and it is the directory d's ".." names. */
  ghost predicate NamedOnce(s: Space, d: nat) {
    exists p: nat, k: nat :: Holds(s, p, k, d) && ParentIs(s, d, p) && forall q: nat, j: nat :: Holds(s, q, j, d) ==> q == p && j == k
  }

  lemma OnceNamed(s: Space, depth: map<nat, nat>, d: nat)
    requires Tree(s, depth) && d < |s.nodes| && IsLive(s.nodes[d]) && d != ROOT
    ensures NamedOnce(s, d)
  {
    assert Placed(s, depth, d) && OneParent(s);
    var p: nat, k: nat :| PlacedAt(s, depth, d, p, k);
    hide Counted, DotsOk, NamesOk, KindsOk, Rooted;
    assert Holds(s, p, k, d) && ParentIs(s, d, p);
  }

  ghost predicate LeadsUp(s: Space, d: nat) {
    exists n: nat :: Up(s, d, n) == ROOT
  }

  lemma UpWitness(s: Space, d: nat, n: nat)
    requires Up(s, d, n) == ROOT
    ensures LeadsUp(s, d)
  {
  }

  // ---------- an unlinked parent is reached ----------

  const MAKE_BOTH := [Create(ROOT, "a", 2, Dir), Create(ROOT, "f", 3, File)]
  const DROP_PARENT := [Unlink(ROOT, 2), BeginLink(3)]

  /** The run: a directory "a" and a file "f" are made, "a" is removed and a link to "f" is begun. */
  function Parted(ninodes: nat): (s: Space)
    requires ninodes >= 5
    ensures |s.nodes| == ninodes && s.nodes[2] == Node(Dir, 0, [Dirent(2, "."), Dirent(ROOT, "..")])
    ensures s.nodes[4].kind == Free && 3 in s.pending
  {
    var s := RootOnly(ninodes);
    Space(s.nodes[ROOT := Node(Dir, 1, [Dirent(ROOT, "."), Dirent(ROOT, ".."), Dirent(0, ""), Dirent(3, "f")])]
                 [2 := Node(Dir, 0, [Dirent(2, "."), Dirent(ROOT, "..")])][3 := Node(File, 2, [])], multiset{3})
  }

  function BothMade(ninodes: nat): Space
    requires ninodes >= 5
  {
    var s := RootOnly(ninodes);
    s.(nodes := s.nodes[ROOT := Node(Dir, 2, [Dirent(ROOT, "."), Dirent(ROOT, ".."), Dirent(2, "a"), Dirent(3, "f")])]
                       [2 := Node(Dir, 1, [Dirent(2, "."), Dirent(ROOT, "..")])][3 := Node(File, 1, [])])
  }

  lemma MakesBoth(ninodes: nat)
    requires ninodes >= 5
    ensures Runs(RootOnly(ninodes), MAKE_BOTH, BothMade(ninodes))
  {
    var s := RootOnly(ninodes);
    var m := Created(s, ROOT, "a", 2, Dir);
    assert m.nodes[ROOT] == Node(Dir, 2, [Dirent(ROOT, "."), Dirent(ROOT, ".."), Dirent(2, "a")]);
    var t := Created(m, ROOT, "f", 3, File);
    assert t.nodes[ROOT] == BothMade(ninodes).nodes[ROOT];
    assert t.nodes == BothMade(ninodes).nodes;
    assert Enabled(s, MAKE_BOTH[0]) && Enabled(m, MAKE_BOTH[1]);
    assert MAKE_BOTH[1..] == [MAKE_BOTH[1]] && MAKE_BOTH[1..][1..] == [];
    assert Runs(t, MAKE_BOTH[1..][1..], t);
  }

  lemma DropsParent(ninodes: nat)
    requires ninodes >= 5
    ensures Runs(BothMade(ninodes), DROP_PARENT, Parted(ninodes))
  {
    var s := BothMade(ninodes);
    var m := Unlinked(s, ROOT, 2);
    var t := LinkBegun(m, 3);
    assert m.nodes[ROOT].entries == [Dirent(ROOT, "."), Dirent(ROOT, ".."), Dirent(0, ""), Dirent(3, "f")];
    assert t.nodes == Parted(ninodes).nodes;
    assert Enabled(s, DROP_PARENT[0]) && Enabled(m, DROP_PARENT[1]);
    assert DROP_PARENT[1..] == [DROP_PARENT[1]] && DROP_PARENT[1..][1..] == [];
    assert Runs(t, DROP_PARENT[1..][1..], t);
  }

  lemma {:induction false} RunsJoin(s: Space, es: seq<Step>, m: Space, fs: seq<Step>, t: Space)
    requires Runs(s, es, m) && Runs(m, fs, t)
    ensures Runs(s, es + fs, t)
    decreases |es|
  {
    if es == [] {
      assert es + fs == fs;
    } else {
      RunsJoin(Next(s, es[0]), es[1..], m, fs, t);
      assert (es + fs)[1..] == es[1..] + fs;
    }
  }

  /** A reachable state in which create and the second half of link both pass the code's own tests on a
      directory that has been removed, and after either the link counts are wrong. */
  lemma DeadParentBreaks(ninodes: nat)
    requires ninodes >= 5
    ensures var t := Parted(ninodes);
            && Runs(RootOnly(ninodes), MAKE_BOTH + DROP_PARENT, t) && IsTree(t)
            && CanCreate(t, 2, "g", 4, File) && !IsTree(Created(t, 2, "g", 4, File))
            && CanEnd(t, 3, 2, "g") && !IsTree(LinkEnded(t, 3, 2, "g"))
  {
    var t := Parted(ninodes);
    hide Created, LinkEnded, IsTree, Parted, RootOnly, BothMade;
    MakesBoth(ninodes);
    DropsParent(ninodes);
    RunsJoin(RootOnly(ninodes), MAKE_BOTH, BothMade(ninodes), DROP_PARENT, t);
    RootOnlyTree(ninodes);
    RunKeeps(RootOnly(ninodes), MAKE_BOTH + DROP_PARENT, t);
    assert !HasName(t.nodes[2].entries, "g");
    CreateKeepsIff(t, 2, "g", 4, File);
    EndKeepsIff(t, 3, 2, "g");
  }
}
