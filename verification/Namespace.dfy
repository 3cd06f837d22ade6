/** Directory operations as the kernel runs them (fs.c, sysfile.c), updating inodes and entries in place. */
module Namespace {
  import opened Common
  import opened Directory
  import opened DirectoryTree

  /** Entry k is the first in use under this name. */
  predicate FoundAt(es: seq<Dirent>, name: Name, k: nat) {
    && k < |es| && es[k].inum != 0 && es[k].name == name
    && forall j :: 0 <= j < k ==> es[j].inum == 0 || es[j].name != name
  }

  lemma EmptySlotAt(es: seq<Dirent>, k: nat)
    requires k <= |es| && (k < |es| ==> es[k].inum == 0) && forall j :: 0 <= j < k ==> es[j].inum != 0
    ensures EmptySlot(es) == k
  {
  }

  lemma DotEntries(ip: nat, dp: nat)
    requires ip >= 1
    ensures Put([], Dirent(ip, ".")) == [Dirent(ip, ".")]
    ensures Put([Dirent(ip, ".")], Dirent(dp, "..")) == [Dirent(ip, "."), Dirent(dp, "..")]
  {
    EmptySlotAt([], 0);
    EmptySlotAt([Dirent(ip, ".")], 1);
  }

  /** Entries in use name inodes in the table. */
  lemma EntryInRange(s: Space, d: nat, k: nat)
    requires IsTree(s) && d < |s.nodes| && s.nodes[d].kind == Dir && k < |s.nodes[d].entries|
    ensures s.nodes[d].entries[k].inum < |s.nodes|
  {
  }

  lemma UpdateTwice(nodes: seq<Node>, i: nat, x: Node, y: Node)
    requires i < |nodes|
    ensures nodes[i := x][i := y] == nodes[i := y]
  {
  }

  lemma NoInodeZero(s: Space)
    requires IsTree(s)
    ensures |s.nodes| > 0 && s.nodes[0].kind == Free
  {
  }

  /** The names unlink refuses. */
  predicate IsDots(name: Name) {
    name == "." || name == ".."
  }

  class Namespace {
    var nodes: seq<Node>
    ghost var pending: multiset<nat>

    ghost function Abs(): Space
      reads this
    {
      Space(nodes, pending)
    }

    predicate IsDir(d: nat)
      reads this
    {
      d < |nodes| && nodes[d].kind == Dir
    }

    constructor (ninodes: nat)
      requires ninodes > ROOT
      ensures Abs() == RootOnly(ninodes) && IsTree(Abs())
    {
      nodes := RootOnly(ninodes).nodes;
      pending := multiset{};
      new;
      RootOnlyTree(ninodes);
    }

    /** dirlookup: inode 0 stands for the null result. */
    method DirLookup(dp: nat, name: Name) returns (inum: nat, k: nat)
      requires IsDir(dp)
      ensures inum == 0 ==> !HasName(nodes[dp].entries, name)
      ensures inum != 0 ==> FoundAt(nodes[dp].entries, name, k) && nodes[dp].entries[k].inum == inum
    {
      k := 0;
      var es := nodes[dp].entries;
      while k < |es|
        invariant k <= |es|
        invariant forall j :: 0 <= j < k ==> es[j].inum == 0 || es[j].name != name
      {
        if es[k].inum != 0 && es[k].name == name {
          return es[k].inum, k;
        }
        k := k + 1;
      }
      inum := 0;
    }

    /** dirlink: refuses a name in use, else takes the first free slot or grows the directory. */
    method DirLink(dp: nat, name: Name, inum: nat) returns (ok: bool)
      requires IsDir(dp)
      modifies `nodes
      ensures ok <==> !HasName(old(nodes)[dp].entries, name)
      ensures nodes == if ok then old(nodes)[dp := old(nodes)[dp].(entries := Put(old(nodes)[dp].entries, Dirent(inum, name)))]
                       else old(nodes)
    {
      var found, at := DirLookup(dp, name);
      if found != 0 {
        return false;
      }
      var es := nodes[dp].entries;
      var k := 0;
      while k < |es| && es[k].inum != 0
        invariant k <= |es| && forall j :: 0 <= j < k ==> es[j].inum != 0
      {
        k := k + 1;
      }
      EmptySlotAt(es, k);
      es := if k < |es| then es[k := Dirent(inum, name)] else es + [Dirent(inum, name)];
      nodes := nodes[dp := nodes[dp].(entries := es)];
      ok := true;
    }

    method IsDirEmpty(dp: nat) returns (r: bool)
      requires IsDir(dp)
      ensures r <==> IsEmptyDir(nodes[dp].entries)
    {
      var es := nodes[dp].entries;
      var k := 2;
      while k < |es|
        invariant 2 <= k && forall j :: 2 <= j < k && j < |es| ==> es[j].inum == 0
      {
        if es[k].inum != 0 {
          return false;
        }
        k := k + 1;
      }
      r := true;
    }

    /** ialloc: the first free inode. */
    method IAlloc() returns (ip: nat)
      requires exists i :: 1 <= i < |nodes| && nodes[i].kind == Free
      ensures 1 <= ip < |nodes| && nodes[ip].kind == Free && forall j :: 1 <= j < ip ==> nodes[j].kind != Free
    {
      ip := 1;
      while nodes[ip].kind != Free
        invariant 1 <= ip < |nodes| && forall j :: 1 <= j < ip ==> nodes[j].kind != Free
        decreases |nodes| - ip
      {
        ip := ip + 1;
      }
    }

    method MakeDots(ip: nat, dp: nat)
      requires 1 <= ip < |nodes| && nodes[ip] == Node(Dir, 1, [])
      modifies `nodes
      ensures nodes == old(nodes)[ip := Node(Dir, 1, NewEntries(Dir, ip, dp))]
    {
      DotEntries(ip, dp);
      var one := DirLink(ip, ".", ip);
      hide Put;
      var two := DirLink(ip, "..", dp);
    }

    /** The new inode and, for a directory, its dots and the link its ".." is to the parent. */
    method MakeNode(ip: nat, dp: nat, kind: Kind)
      requires IsDir(dp) && 1 <= ip < |nodes| && kind != Free && nodes[ip].kind == Free
      modifies `nodes
      ensures var d := old(nodes)[dp];
              nodes == old(nodes)[ip := Node(kind, 1, NewEntries(kind, ip, dp))][dp := d.(nlink := d.nlink + if kind == Dir then 1 else 0)]
    {
      nodes := nodes[ip := Node(kind, 1, [])];
      if kind == Dir {
        nodes := nodes[dp := nodes[dp].(nlink := nodes[dp].nlink + 1)];
        MakeDots(ip, dp);
      }
    }

    /** create of a name not in use. */
    method CreateNew(dp: nat, name: Name, kind: Kind) returns (ip: nat)
      requires IsTree(Abs()) && IsDir(dp) && kind != Free && exists i :: 1 <= i < |nodes| && nodes[i].kind == Free
      requires !HasName(nodes[dp].entries, name)
      modifies `nodes
      ensures CanCreate(old(Abs()), dp, name, ip, kind)
      ensures Abs() == Created(old(Abs()), dp, name, ip, kind)
      ensures IsTree(Abs()) <==> IsLive(old(nodes)[dp])
    {
      NoInodeZero(Abs());
      hide IsTree, HasName, Put, NewEntries;
      ip := IAlloc();
      CreateKeepsIff(Abs(), dp, name, ip, kind);
      MakeNode(ip, dp, kind);
      ghost var made := nodes;
      assert made[dp].entries == old(nodes)[dp].entries;
      var ok := DirLink(dp, name, ip);
      UpdateTwice(old(nodes)[ip := Node(kind, 1, NewEntries(kind, ip, dp))], dp, made[dp], nodes[dp]);
    }

    /** create: the inode made, or an existing file when a file was asked for. */
    method Create(dp: nat, name: Name, kind: Kind) returns (r: Option<nat>)
      requires IsTree(Abs()) && IsDir(dp) && kind != Free && exists i :: 1 <= i < |nodes| && nodes[i].kind == Free
      modifies `nodes
      ensures HasName(old(nodes)[dp].entries, name) ==>
                && nodes == old(nodes)
                && exists k: nat :: FoundAt(nodes[dp].entries, name, k) && nodes[dp].entries[k].inum < |nodes| &&
                     r == if kind == File && nodes[nodes[dp].entries[k].inum].kind == File then Some(nodes[dp].entries[k].inum) else None
      ensures !HasName(old(nodes)[dp].entries, name) ==>
                && r.Some? && CanCreate(old(Abs()), dp, name, r.value, kind)
                && Abs() == Created(old(Abs()), dp, name, r.value, kind)
                && (IsTree(Abs()) <==> IsLive(old(nodes)[dp]))
    {
      hide IsTree, CanCreate, Created;
      var found, k := DirLookup(dp, name);
      if found != 0 {
        EntryInRange(Abs(), dp, k);
        return if kind == File && nodes[found].kind == File then Some(found) else None;
      }
      var ip := CreateNew(dp, name, kind);
      r := Some(ip);
    }

    /** sys_unlink once the parent is found. */
    method Unlink(dp: nat, name: Name) returns (ok: bool, ghost k: nat)
      requires IsTree(Abs()) && IsDir(dp)
      modifies `nodes
      ensures IsTree(Abs())
      ensures ok ==> FoundAt(old(nodes)[dp].entries, name, k) && Enabled(old(Abs()), DirectoryTree.Step.Unlink(dp, k)) && Abs() == Unlinked(old(Abs()), dp, k)
      ensures !ok ==> nodes == old(nodes) && (IsDots(name) || !HasName(nodes[dp].entries, name) || BusyDir(nodes, dp, name, k))
    {
      hide IsTree, Enabled, Unlinked;
      k := 0;
      if name == "." || name == ".." {
        return false, k;
      }
      var ip, at := DirLookup(dp, name);
      if ip == 0 {
        return false, k;
      }
      k := at;
      EntryInRange(Abs(), dp, at);
      if nodes[ip].kind == Dir {
        var empty := IsDirEmpty(ip);
        if !empty {
          return false, k;
        }
      }
      UnlinkAllowed(Abs(), dp, name, at);
      StepKeeps(Abs(), DirectoryTree.Step.Unlink(dp, at));
      Remove(dp, at, ip);
      ok := true;
    }

    /** Clearing the entry and dropping the links: the entry's own, and for a directory the one its ".." was. */
    method Remove(dp: nat, at: nat, ip: nat)
      requires dp < |nodes| && ip < |nodes| && ip != dp && at < |nodes[dp].entries| && nodes[dp].entries[at].inum == ip
      requires nodes[ip].nlink >= 1 && (nodes[ip].kind == Dir ==> nodes[dp].nlink >= 1)
      modifies `nodes
      ensures Abs() == Unlinked(old(Abs()), dp, at)
    {
      var d := nodes[dp];
      nodes := nodes[dp := d.(entries := d.entries[at := Dirent(0, "")])];
      if nodes[ip].kind == Dir {
        nodes := nodes[dp := nodes[dp].(nlink := nodes[dp].nlink - 1)];
      }
      nodes := nodes[ip := nodes[ip].(nlink := nodes[ip].nlink - 1)];
    }

    /** sys_link up to the search for the new name: directories are refused. */
    method LinkBegin(i: nat) returns (ok: bool)
      requires IsTree(Abs()) && 1 <= i < |nodes| && nodes[i].kind != Free
      modifies this
      ensures IsTree(Abs()) && (ok <==> old(nodes)[i].kind != Dir)
      ensures Abs() == if ok then LinkBegun(old(Abs()), i) else old(Abs())
    {
      hide IsTree;
      if nodes[i].kind == Dir {
        return false;
      }
      BeginTree(Abs(), i);
      nodes := nodes[i := nodes[i].(nlink := nodes[i].nlink + 1)];
      pending := pending + multiset{i};
      ok := true;
    }

    /** The rest of sys_link: the entry is made, or the link taken back. */
    method LinkEnd(i: nat, dp: nat, name: Name) returns (ok: bool)
      requires IsTree(Abs()) && i in pending && i < |nodes| && IsDir(dp)
      modifies this
      ensures ok <==> !HasName(old(nodes)[dp].entries, name)
      ensures Abs() == if ok then LinkEnded(old(Abs()), i, dp, name) else LinkUndone(old(Abs()), i)
      ensures IsTree(Abs()) <==> !ok || IsLive(old(nodes)[dp])
    {
      EndTree(Abs(), i, dp, name);
      hide IsTree, HasName, Put, LinkUndone;
      ok := DirLink(dp, name, i);
      if ok {
        pending := pending - multiset{i};
      } else {
        TakeBack(i);
      }
    }

    method TakeBack(i: nat)
      requires i < |nodes| && nodes[i].nlink >= 1
      modifies this
      ensures Abs() == LinkUndone(old(Abs()), i)
    {
      nodes := nodes[i := nodes[i].(nlink := nodes[i].nlink - 1)];
      pending := pending - multiset{i};
    }
  }

  lemma BeginTree(s: Space, i: nat)
    requires IsTree(s) && CanBegin(s, i)
    ensures IsTree(LinkBegun(s, i))
  {
    StepKeeps(s, BeginLink(i));
  }

  lemma EndTree(s: Space, i: nat, dp: nat, name: Name)
    requires IsTree(s) && i in s.pending && dp < |s.nodes| && s.nodes[dp].kind == Dir
    ensures 1 <= i < |s.nodes| && s.nodes[i].nlink >= 1
    ensures HasName(s.nodes[dp].entries, name) ==> IsTree(LinkUndone(s, i))
    ensures !HasName(s.nodes[dp].entries, name) ==> (IsTree(LinkEnded(s, i, dp, name)) <==> IsLive(s.nodes[dp]))
  {
    StepKeeps(s, UndoLink(i));
    hide Put, HasName;
    if !HasName(s.nodes[dp].entries, name) {
      EndKeepsIff(s, i, dp, name);
    }
  }

  /** The name is a directory that still has entries. */
  predicate BusyDir(nodes: seq<Node>, dp: nat, name: Name, k: nat)
    requires dp < |nodes|
  {
    && FoundAt(nodes[dp].entries, name, k) && nodes[dp].entries[k].inum < |nodes|
    && var n := nodes[nodes[dp].entries[k].inum]; n.kind == Dir && !IsEmptyDir(n.entries)
  }

  /** A name other than the dots is found above slot 1, in a directory still linked, and names a linked inode. */
  lemma UnlinkAllowed(s: Space, dp: nat, name: Name, k: nat)
    requires IsTree(s) && dp < |s.nodes| && s.nodes[dp].kind == Dir && !IsDots(name) && FoundAt(s.nodes[dp].entries, name, k)
    requires s.nodes[dp].entries[k].inum < |s.nodes|
    requires var n := s.nodes[s.nodes[dp].entries[k].inum]; n.kind == Dir ==> IsEmptyDir(n.entries)
    ensures var ip := s.nodes[dp].entries[k].inum;
            && Enabled(s, DirectoryTree.Step.Unlink(dp, k))
            && ip != dp && s.nodes[ip].nlink >= 1 && (s.nodes[ip].kind == Dir ==> s.nodes[dp].nlink >= 1)
  {
    var ip := s.nodes[dp].entries[k].inum;
    var depth :| Tree(s, depth);
    assert k >= 2 && IsLive(s.nodes[dp]);
    assert CanUnlink(s, dp, k, ip);
    CountSome(s.nodes, ip, dp, k);
    if s.nodes[ip].kind == Dir {
      NoChildren(s, depth, dp, k, ip, dp);
    }
  }
}
