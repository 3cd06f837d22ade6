/** The directory tree of the image mkfs makes (mkfs.c): a root with one file per argument, padded with free entries. */
module MkfsTree {
  import opened Common
  import opened FileBlocks
  import opened FileSystem
  import opened Directory
  import opened DirectoryTree
  import opened Namespace
  import opened DirFile
  import opened Mkfs

  /** A file to put into the image: its name as given, without the leading underscore, and its bytes. */
  datatype Source = Source(name: seq<Byte>, data: seq<Byte>)

  // ---------- a root full of files ----------

  /** The root directory after the dots and one entry per name. */
  function RootEntries(names: seq<Name>): (es: seq<Dirent>)
    ensures |es| == |names| + 2 && es[0] == Dirent(ROOT, ".") && es[1] == Dirent(ROOT, "..")
    ensures forall k :: 2 <= k < |es| ==> es[k] == Dirent(k, names[k - 2])
  {
    [Dirent(ROOT, "."), Dirent(ROOT, "..")] + seq(|names|, j requires 0 <= j < |names| => Dirent(j + 2, names[j]))
  }

  function Flat(ninodes: nat, names: seq<Name>): (ns: seq<Node>)
    ensures |ns| == ninodes
    ensures forall i :: 0 <= i < ninodes ==> ns[i] == FlatNode(names, i)
  {
    seq(ninodes, i requires 0 <= i < ninodes => FlatNode(names, i))
  }

  function FlatNode(names: seq<Name>, i: nat): Node {
    if i == ROOT then Node(Dir, 1, RootEntries(names)) else if 2 <= i < |names| + 2 then Node(File, 1, []) else Node(Free, 0, [])
  }

  /** No name twice, and none that is a dot. */
  predicate GoodNames(names: seq<Name>) {
    && (forall i :: 0 <= i < |names| ==> !IsDots(names[i]))
    && forall i, j :: 0 <= i < j < |names| ==> names[i] != names[j]
  }

  lemma RootEntriesMore(names: seq<Name>)
    requires names != []
    ensures var n := |names| - 1;
            Put(RootEntries(names[..n]), Dirent(n + 2, names[n])) == RootEntries(names)
  {
    var n := |names| - 1;
    EmptySlotAt(RootEntries(names[..n]), n + 2);
    hide EmptySlot;
    assert RootEntries(names[..n]) + [Dirent(n + 2, names[n])] == RootEntries(names);
  }

  /** With one more name the nodes are those that create leaves. */
  lemma FlatMore(ninodes: nat, names: seq<Name>)
    requires names != [] && |names| + 2 <= ninodes
    ensures var n := |names| - 1; var s := Space(Flat(ninodes, names[..n]), multiset{});
            Created(s, ROOT, names[n], n + 2, File) == Space(Flat(ninodes, names), multiset{})
  {
    var n := |names| - 1;
    var s := Space(Flat(ninodes, names[..n]), multiset{});
    RootEntriesMore(names);
    hide Put, RootEntries;
    var t := Created(s, ROOT, names[n], n + 2, File);
    assert t.nodes[ROOT] == FlatNode(names, ROOT);
    assert t.nodes == Flat(ninodes, names);
  }

  lemma NotYetThere(names: seq<Name>, name: Name)
    requires GoodNames(names + [name])
    ensures !HasName(RootEntries(names), name)
  {
    var all := names + [name];
    assert all[|names|] == name && !IsDots(name);
    forall k | 0 <= k < |names| + 2
      ensures RootEntries(names)[k].name != name
    {
      if k >= 2 {
        assert all[k - 2] == names[k - 2];
      }
    }
  }

  lemma {:induction false} FlatTree(ninodes: nat, names: seq<Name>)
    requires |names| + 2 <= ninodes && GoodNames(names)
    ensures IsTree(Space(Flat(ninodes, names), multiset{}))
  {
    if names == [] {
      RootOnlyTree(ninodes);
      assert RootEntries([]) == [Dirent(ROOT, "."), Dirent(ROOT, "..")];
      assert Flat(ninodes, []) == RootOnly(ninodes).nodes;
    } else {
      var n := |names| - 1;
      var s := Space(Flat(ninodes, names[..n]), multiset{});
      hide IsTree, Created, HasName;
      FlatTree(ninodes, names[..n]);
      assert names == names[..n] + [names[n]];
      NotYetThere(names[..n], names[n]);
      CreateKeepsIff(s, ROOT, names[n], n + 2, File);
      FlatMore(ninodes, names);
    }
  }

  // ---------- padding ----------

  /** Directory d with one more entry, a free one. */
  function WithFree(s: Space, d: nat): Space
    requires d < |s.nodes|
  {
    s.(nodes := s.nodes[d := s.nodes[d].(entries := s.nodes[d].entries + [Dirent(0, "")])])
  }

  lemma FreeCounted(s: Space, d: nat)
    requires d < |s.nodes| && IsLive(s.nodes[d]) && |s.nodes[d].entries| >= 2 && Counted(s)
    ensures Counted(WithFree(s, d))
  {
    var t := WithFree(s, d);
    forall i | 1 <= i < |t.nodes|
      ensures t.nodes[i].nlink == Count(t.nodes, i) + t.pending[i]
    {
      CountUpdate(s.nodes, d, t.nodes[d], i);
      NamingAppend(s.nodes[d].entries, Dirent(0, ""), i);
    }
  }

  lemma FreeHolds(s: Space, d: nat, p: nat, k: nat, c: nat)
    requires d < |s.nodes| && c != 0
    ensures Holds(WithFree(s, d), p, k, c) <==> Holds(s, p, k, c)
  {
  }

  lemma FreeRooted(s: Space, depth: map<nat, nat>, d: nat)
    requires d < |s.nodes| && IsLive(s.nodes[d]) && |s.nodes[d].entries| >= 2 && Rooted(s, depth) && s.nodes[0].kind == Free
    ensures Rooted(WithFree(s, d), depth)
  {
    var t := WithFree(s, d);
    forall e: nat | e < |t.nodes| && IsLive(t.nodes[e]) && e != ROOT
      ensures Placed(t, depth, e)
    {
      assert Placed(s, depth, e);
      var p: nat, k: nat :| PlacedAt(s, depth, e, p, k);
      FreeHolds(s, d, p, k, e);
      PlacedBy(t, depth, e, p, k);
    }
  }

  lemma FreeOneParent(s: Space, d: nat)
    requires d < |s.nodes| && IsLive(s.nodes[d]) && |s.nodes[d].entries| >= 2 && OneParent(s) && s.nodes[0].kind == Free
    ensures OneParent(WithFree(s, d))
  {
    var t := WithFree(s, d);
    forall p: nat, k: nat, c: nat | Holds(t, p, k, c) && c < |t.nodes| && t.nodes[c].kind == Dir
      ensures Holds(s, p, k, c) && s.nodes[c].kind == Dir
    {
      FreeHolds(s, d, p, k, c);
    }
  }

  lemma FreeShapes(s: Space, d: nat)
    requires d < |s.nodes| && IsLive(s.nodes[d]) && DotsOk(s) && NamesOk(s) && KindsOk(s)
    ensures var t := WithFree(s, d); DotsOk(t) && NamesOk(t) && KindsOk(t)
  {
    hide OnlyDots;
    assert Distinct(s.nodes[d].entries);
  }

  /** A free entry more changes nothing the tree depends on. */
  lemma FreeKeeps(s: Space, d: nat)
    requires IsTree(s) && d < |s.nodes| && IsLive(s.nodes[d])
    ensures IsTree(WithFree(s, d))
  {
    var depth :| Tree(s, depth);
    assert |s.nodes[d].entries| >= 2 && s.nodes[0].kind == Free;
    hide Counted, Rooted, OneParent, DotsOk, NamesOk, KindsOk, WithFree;
    FreeCounted(s, d);
    FreeRooted(s, depth, d);
    FreeOneParent(s, d);
    FreeShapes(s, d);
    assert Tree(WithFree(s, d), depth);
  }

  function Padded(es: seq<Dirent>, k: nat): (r: seq<Dirent>)
    ensures |r| == |es| + k && r[..|es|] == es
  {
    es + seq(k, _ => Dirent(0, ""))
  }

  /** The root padded with k free entries. */
  function PadRoot(s: Space, k: nat): Space
    requires |s.nodes| > ROOT
  {
    s.(nodes := s.nodes[ROOT := s.nodes[ROOT].(entries := Padded(s.nodes[ROOT].entries, k))])
  }

  lemma PadMore(s: Space, k: nat)
    requires |s.nodes| > ROOT
    ensures PadRoot(s, 0) == s && WithFree(PadRoot(s, k), ROOT) == PadRoot(s, k + 1)
  {
    var es := s.nodes[ROOT].entries;
    assert Padded(es, 0) == es && s.nodes[ROOT := s.nodes[ROOT].(entries := es)] == s.nodes;
    assert Padded(es, k) + [Dirent(0, "")] == Padded(es, k + 1);
  }

  lemma {:induction false} PaddedTree(s: Space, k: nat)
    requires IsTree(s) && |s.nodes| > ROOT && IsLive(s.nodes[ROOT])
    ensures IsTree(PadRoot(s, k))
  {
    hide IsTree, Padded, WithFree;
    if k == 0 {
      PadMore(s, 0);
    } else {
      PaddedTree(s, k - 1);
      PadMore(s, k - 1);
      FreeKeeps(PadRoot(s, k - 1), ROOT);
    }
  }

  /** What mkfs leaves is a tree if and only if no name is given twice and none is a dot. */
  lemma PaddedFlatIff(ninodes: nat, names: seq<Name>, k: nat)
    requires |names| + 2 <= ninodes
    ensures IsTree(PadRoot(Space(Flat(ninodes, names), multiset{}), k)) <==> GoodNames(names)
  {
    var s := Space(Flat(ninodes, names), multiset{});
    var t := PadRoot(s, k);
    if GoodNames(names) {
      hide IsTree;
      FlatTree(ninodes, names);
      PaddedTree(s, k);
    } else if IsTree(t) {
      assert NamesOk(t);
      DistinctGood(names, Padded(RootEntries(names), k));
      assert false;
    }
  }

  lemma DistinctGood(names: seq<Name>, es: seq<Dirent>)
    requires |es| >= |names| + 2 && es[..|names| + 2] == RootEntries(names) && Distinct(es)
    ensures GoodNames(names)
  {
    assert forall k :: 0 <= k < |names| + 2 ==> es[k] == RootEntries(names)[k];
    forall i | 0 <= i < |names|
      ensures !IsDots(names[i])
    {
      assert es[i + 2] == Dirent(i + 2, names[i]) && es[0].name == "." && es[1].name == "..";
    }
    forall i, j | 0 <= i < j < |names|
      ensures names[i] != names[j]
    {
      assert es[i + 2] == Dirent(i + 2, names[i]) && es[j + 2] == Dirent(j + 2, names[j]);
    }
  }

  // ---------- mkfs ----------

  function NamesOf(files: seq<Source>): (names: seq<Name>)
    requires forall i :: 0 <= i < |files| ==> Readable(files[i].name, DIRSIZ)
    ensures |names| == |files| && forall i :: 0 <= i < |files| ==> names[i] == Text(files[i].name, DIRSIZ)
  {
    seq(|files|, i requires 0 <= i < |files| => Text(files[i].name, DIRSIZ))
  }

  /** Entries appended to a directory of whole entries. */
  lemma EntriesAppend(bs: seq<Byte>, e: seq<Byte>)
    requires |bs| % ENTRY == 0 && |e| == ENTRY
    ensures Entries(bs + e) == Entries(bs) + [Unpack(e)]
  {
    SplicedEntries(bs, |bs| / ENTRY, e);
    SplicedEnd(bs, e);
  }

  /** The image so far: the root with the names entered, a file for each, and free inodes. */
  ghost predicate Holding(img: Image, names: seq<Name>)
    reads img
  {
    && img.Valid() && |img.inodes| >= 2 && img.inodes[ROOT].typ == T_DIR && img.inodes[ROOT].size % ENTRY == 0
    && Nodes(img.View()) == Flat(|img.inodes|, names)
    && img.freeinode == |names| + 2
    && forall i :: img.freeinode <= i < |img.inodes| ==> img.inodes[i] == Inode(0, 0, 0, NoAddrs())
  }

  /** iappend of one entry to the root. */
  method AppendEntry(img: Image, name: seq<Byte>, inum: nat) returns (ok: bool)
    requires img.Valid() && |img.inodes| >= 2 && img.inodes[ROOT].typ == T_DIR && img.inodes[ROOT].size % ENTRY == 0
    requires Readable(name, DIRSIZ) && inum < 0x1_0000
    modifies img`blocks, img`inodes, img`freeblock, img`owner
    ensures ok ==>
              && img.Valid() && |img.inodes| == |old(img.inodes)| && img.inodes[ROOT].typ == T_DIR && img.inodes[ROOT].size % ENTRY == 0
              && OnlyFile(old(img.View()), img.View(), ROOT) && img.inodes[ROOT].size == old(img.inodes)[ROOT].size + ENTRY
              && Nodes(img.View()) ==
                   (var ns := Nodes(old(img.View()));
                    ns[ROOT := ns[ROOT].(entries := ns[ROOT].entries + [Dirent(inum, Text(name, DIRSIZ))])])
    ensures !ok ==> img.freeblock == img.size || old(img.inodes)[ROOT].size + ENTRY > MAXFILE * BSIZE
  {
    hide Image.Valid, Contents, Entries, Unpack, Nodes, Text;
    ghost var fs := img.View();
    var de := Pack(name, inum);
    ok := img.IAppend(ROOT, de);
    if ok {
      assert |Contents(img.View(), ROOT)| == |Contents(fs, ROOT)| + ENTRY;
      EntriesAppend(Contents(fs, ROOT), de);
      OnlyNode(fs, img.View(), ROOT);
      NodeAt(fs, ROOT);
    }
  }

  /** The loop that copies a file's bytes a block at a time. */
  method AppendData(img: Image, inum: nat, data: seq<Byte>) returns (ok: bool)
    requires img.Valid() && inum < |img.inodes| && img.inodes[inum].typ == T_FILE && Contents(img.View(), inum) == []
    modifies img`blocks, img`inodes, img`freeblock, img`owner
    ensures ok ==>
              && img.Valid() && |img.inodes| == |old(img.inodes)| && Contents(img.View(), inum) == data
              && (forall j: nat :: j < |img.inodes| && j != inum ==>
                    img.inodes[j] == old(img.inodes)[j] && Contents(img.View(), j) == Contents(old(img.View()), j))
              && Nodes(img.View()) == Nodes(old(img.View()))
    ensures !ok ==> img.freeblock == img.size || |data| > MAXFILE * BSIZE
  {
    hide Image.Valid, Contents, Nodes;
    ghost var fs := img.View();
    var done := 0;
    ok := true;
    while done < |data|
      invariant 0 <= done <= |data| && img.Valid() && OnlyFile(fs, img.View(), inum) && Contents(img.View(), inum) == data[..done]
      invariant img.inodes[inum].typ == T_FILE && img.inodes[inum].nlink == fs.inodes[inum].nlink
    {
      label Turn:
      var n := if |data| - done < BSIZE then |data| - done else BSIZE;
      ok := img.IAppend(inum, data[done..done + n]);
      if !ok {
        assert |Contents(old@Turn(img.View()), inum)| == done;
        return;
      }
      assert data[..done] + data[done..done + n] == data[..done + n];
      done := done + n;
    }
    assert data[..done] == data;
    OnlyNode(fs, img.View(), inum);
    NodeAt(fs, inum);
    assert Nodes(fs)[inum := Nodes(fs)[inum]] == Nodes(fs);
  }

  lemma FlatNext(ninodes: nat, names: seq<Name>, name: Name)
    requires |names| + 2 < ninodes
    ensures var ns := Flat(ninodes, names)[|names| + 2 := Node(File, 1, [])];
            ns[ROOT := ns[ROOT].(entries := ns[ROOT].entries + [Dirent(|names| + 2, name)])] == Flat(ninodes, names + [name])
  {
    assert RootEntries(names) + [Dirent(|names| + 2, name)] == RootEntries(names + [name]);
  }

  lemma AllocNode(fs: Fs, gs: Fs, i: nat)
    requires i < |fs.inodes| && gs.inodes == fs.inodes[i := Inode(T_FILE, 1, 0, NoAddrs())] && OnlyFile(fs, gs, i)
    ensures Nodes(gs) == Nodes(fs)[i := Node(File, 1, [])]
  {
    hide Contents, Entries;
    OnlyNode(fs, gs, i);
  }

  /** One turn of mkfs's loop over its arguments. */
  method AddFile(img: Image, src: Source, ghost names: seq<Name>) returns (ok: bool)
    requires Holding(img, names) && Readable(src.name, DIRSIZ) && |names| + 2 < |img.inodes| <= 0x1_0000
    modifies img`blocks, img`inodes, img`freeblock, img`freeinode, img`owner
    ensures ok ==>
              && |img.inodes| == |old(img.inodes)| && Holding(img, names + [Text(src.name, DIRSIZ)])
              && Contents(img.View(), |names| + 2) == src.data
              && forall j: nat :: 2 <= j < |names| + 2 ==> Contents(img.View(), j) == Contents(old(img.View()), j)
    ensures !ok ==> img.freeblock == img.size || ENTRY * (|names| + 3) > MAXFILE * BSIZE || |src.data| > MAXFILE * BSIZE
  {
    hide Image.Valid, Contents, Nodes, Text, Flat;
    ghost var fs := img.View();
    RootSize(fs, names);
    var inum := img.IAlloc(T_FILE);
    AllocNode(fs, img.View(), inum);
    ok := AppendEntry(img, src.name, inum);
    if ok {
      FlatNext(|img.inodes|, names, Text(src.name, DIRSIZ));
      ok := AppendData(img, inum, src.data);
    }
  }

  /** The nodes of an image with nothing in it but an empty root. */
  lemma BareNodes(fs: Fs)
    requires |fs.inodes| >= 2 && fs.inodes[ROOT] == Inode(T_DIR, 1, 0, NoAddrs())
    requires forall i :: 0 <= i < |fs.inodes| && i != ROOT ==> fs.inodes[i] == Inode(0, 0, 0, NoAddrs())
    ensures |Nodes(fs)| == |fs.inodes| && Nodes(fs)[ROOT] == Node(Dir, 1, [])
    ensures forall i :: 0 <= i < |fs.inodes| && i != ROOT ==> Nodes(fs)[i] == Node(Free, 0, [])
  {
    hide Entries;
    assert Entries([]) == [];
  }

  lemma DotsMake(ns: seq<Node>)
    requires |ns| >= 2 && ns[ROOT] == Node(Dir, 1, [])
    requires forall i :: 0 <= i < |ns| && i != ROOT ==> ns[i] == Node(Free, 0, [])
    ensures var ms := ns[ROOT := ns[ROOT].(entries := ns[ROOT].entries + [Dirent(ROOT, ".")])];
            ms[ROOT := ms[ROOT].(entries := ms[ROOT].entries + [Dirent(ROOT, "..")])] == Flat(|ns|, [])
  {
    assert [] + [Dirent(ROOT, ".")] + [Dirent(ROOT, "..")] == RootEntries([]);
  }

  /** The root directory and its dots. */
  method MakeRoot(img: Image) returns (ok: bool)
    requires img.Valid() && |img.inodes| >= 2 && img.freeinode == ROOT
    requires forall i :: 0 <= i < |img.inodes| ==> img.inodes[i] == Inode(0, 0, 0, NoAddrs())
    modifies img`blocks, img`inodes, img`freeblock, img`freeinode, img`owner
    ensures ok ==> |img.inodes| == |old(img.inodes)| && Holding(img, [])
    ensures !ok ==> img.freeblock == img.size
  {
    hide Image.Valid, Contents, Nodes, Text, Flat;
    DotNames();
    var root := img.IAlloc(T_DIR);
    BareNodes(img.View());
    DotsMake(Nodes(img.View()));
    ok := AppendEntry(img, DOT, ROOT);
    if ok {
      ok := AppendEntry(img, DOT_DOT, ROOT);
    }
  }

  function ZeroBytes(n: nat): (r: seq<Byte>)
    ensures |r| == n && forall i :: 0 <= i < n ==> r[i] == 0
  {
    seq(n, _ => 0)
  }

  lemma {:induction false} EntriesPadded(bs: seq<Byte>, k: nat)
    requires |bs| % ENTRY == 0
    ensures Entries(bs + ZeroBytes(ENTRY * k)) == Padded(Entries(bs), k)
  {
    if k == 0 {
      assert bs + ZeroBytes(0) == bs && Padded(Entries(bs), 0) == Entries(bs);
    } else {
      EntriesPadded(bs, k - 1);
      var cs, e := bs + ZeroBytes(ENTRY * (k - 1)), ZeroBytes(ENTRY);
      assert cs + e == bs + ZeroBytes(ENTRY * k);
      hide Entries, Unpack, ZeroBytes;
      EntriesAppend(cs, e);
      ZeroEntry(e);
      assert Padded(Entries(bs), k - 1) + [Dirent(0, "")] == Padded(Entries(bs), k);
    }
  }

  /** Rounding the root's size pads it with free entries. */
  lemma FinishedNodes(fs: Fs, gs: Fs)
    requires |fs.inodes| >= 2 && OnlyFile(fs, gs, ROOT) && fs.inodes[ROOT].typ == T_DIR && fs.inodes[ROOT].size % ENTRY == 0
    requires gs.inodes[ROOT].typ == T_DIR && gs.inodes[ROOT].nlink == fs.inodes[ROOT].nlink
    requires var n := Rounded(fs.inodes[ROOT].size) - fs.inodes[ROOT].size; Contents(gs, ROOT) == Contents(fs, ROOT) + seq(n, _ => 0)
    ensures Space(Nodes(gs), multiset{}) ==
            PadRoot(Space(Nodes(fs), multiset{}), (Rounded(fs.inodes[ROOT].size) - fs.inodes[ROOT].size) / ENTRY)
  {
    hide Contents, Entries;
    var n := Rounded(fs.inodes[ROOT].size) - fs.inodes[ROOT].size;
    assert n == ENTRY * (n / ENTRY) && seq(n, _ => 0) == ZeroBytes(n);
    EntriesPadded(Contents(fs, ROOT), n / ENTRY);
    OnlyNode(fs, gs, ROOT);
    NodeAt(fs, ROOT);
  }

  /** Where the entries of the root end. */
  lemma RootSize(fs: Fs, names: seq<Name>)
    requires |fs.inodes| >= 2 && fs.inodes[ROOT].typ == T_DIR && fs.inodes[ROOT].size % ENTRY == 0
    requires Nodes(fs) == Flat(|fs.inodes|, names)
    ensures fs.inodes[ROOT].size == ENTRY * (|names| + 2)
  {
    hide Contents;
    NodeAt(fs, ROOT);
    assert |EntriesOf(fs, ROOT)| == fs.inodes[ROOT].size / ENTRY;
  }

  lemma FinishedWhole(fs: Fs, gs: Fs, names: seq<Name>)
    requires |fs.inodes| >= 2 && OnlyFile(fs, gs, ROOT) && Nodes(fs) == Flat(|fs.inodes|, names)
    requires gs.inodes[ROOT].size % ENTRY == 0
    ensures Whole(gs)
  {
    hide Contents, Entries, RootEntries;
    forall i | 0 <= i < |gs.inodes| && i != ROOT
      ensures gs.inodes[i].typ != T_DIR
    {
      NodeAt(fs, i);
      assert Nodes(fs)[i] == FlatNode(names, i);
    }
  }

  predicate TooLarge(files: seq<Source>) {
    exists i :: 0 <= i < |files| && |files[i].data| > MAXFILE * BSIZE
  }

  /** mkfs: the image holds the files under their names. Its directories form a tree if and only if no name is
      given twice and none is a dot, and the kernel can start from it if and only if the root's entries do not
      end on a block boundary. `ok` is false only if every block is taken, or the root or a file is too large. */
  method Build(nmeta: nat, size: nat, ninodes: nat, files: seq<Source>) returns (ok: bool, img: Image)
    requires 0 < nmeta <= size < TWO_32 && |files| + 2 <= ninodes <= 0x1_0000
    requires forall i :: 0 <= i < |files| ==> Readable(files[i].name, DIRSIZ)
    ensures fresh(img)
    ensures ok ==>
              && |img.inodes| == ninodes && FreeAreEmpty(img.inodes) && Whole(img.View())
              && (IsTree(Space(Nodes(img.View()), multiset{})) <==> GoodNames(NamesOf(files)))
              && (FsOk(img.View(), img.owner) <==> ENTRY * (|files| + 2) % BSIZE != 0)
              && forall i :: 0 <= i < |files| ==> Contents(img.View(), i + 2) == files[i].data
    ensures !ok ==> img.freeblock == img.size == size || ENTRY * (|files| + 2) > MAXFILE * BSIZE || TooLarge(files)
  {
    hide Image.Valid, Contents, Nodes, Text, Flat, IsTree, NamesOf, GoodNames, FsOk;
    img := new Image(nmeta, size, ninodes);
    ok := MakeRoot(img);
    if !ok {
      return;
    }
    ghost var names := NamesOf(files);
    var i := 0;
    assert names[..0] == [];
    while i < |files|
      invariant 0 <= i <= |files| && fresh(img) && |img.inodes| == ninodes && Holding(img, names[..i])
      invariant forall j :: 0 <= j < i ==> Contents(img.View(), j + 2) == files[j].data
      invariant img.size == size
    {
      ok := AddFile(img, files[i], names[..i]);
      if !ok {
        return;
      }
      assert names[..i] + [names[i]] == names[..i + 1];
      i := i + 1;
    }
    assert names[..i] == names;
    ghost var fs := img.View();
    RootSize(fs, names);
    img.Finish(ROOT);
    FinishedNodes(fs, img.View());
    FinishedWhole(fs, img.View(), names);
    PaddedFlatIff(ninodes, names, (Rounded(fs.inodes[ROOT].size) - fs.inodes[ROOT].size) / ENTRY);
  }
}
