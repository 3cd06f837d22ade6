/** Directories as files (fs.c, sysfile.c): 16-byte entries read and written with readi and writei, and the
    directory operations on the bytes against the steps on inodes and entries. */
module DirFile {
  import opened Common
  import opened FileBlocks
  import opened FileSystem
  import opened Directory
  import opened DirectoryTree
  import opened Namespace

  const ENTRY: nat := 16
  const T_DIR: nat := 1
  const T_FILE: nat := 2

  // ---------- names in bytes ----------

  /** n characters can be read from p: it is long enough or ends with a NUL. */
  predicate Readable(p: seq<Byte>, n: nat) {
    |p| >= n || 0 in p
  }

  /** The string in the first n bytes of p: up to a NUL, or all n. */
  function Text(p: seq<Byte>, n: nat): (r: string)
    requires Readable(p, n)
    ensures |r| <= n
    decreases n
  {
    if n == 0 || p[0] == 0 then "" else [p[0] as char] + Text(p[1..], n - 1)
  }

  lemma TextStep(p: seq<Byte>, n: nat, i: nat)
    requires Readable(p, n) && i < n && i <= |p| && Readable(p[i..], n - i)
    ensures i < |p|
    ensures p[i] != 0 ==> Readable(p[i + 1..], n - i - 1)
    ensures Text(p[i..], n - i) == if p[i] == 0 then "" else [p[i] as char] + Text(p[i + 1..], n - i - 1)
  {
    assert p[i..][1..] == p[i + 1..];
  }

  /** strncmp: equal exactly if the strings are. */
  method StrNCmp(p: seq<Byte>, q: seq<Byte>, n: nat) returns (same: bool)
    requires Readable(p, n) && Readable(q, n)
    ensures same <==> Text(p, n) == Text(q, n)
  {
    hide Text, Readable;
    var i := 0;
    assert p[0..] == p && q[0..] == q;
    while i < n
      invariant i <= n && i <= |p| && i <= |q| && Readable(p[i..], n - i) && Readable(q[i..], n - i)
      invariant Text(p, n) == Text(q, n) <==> Text(p[i..], n - i) == Text(q[i..], n - i)
    {
      TextStep(p, n, i);
      TextStep(q, n, i);
      if p[i] == 0 || p[i] != q[i] {
        assert p[i] != 0 ==> Text(p[i..], n - i)[0] == p[i] as char;
        assert q[i] != 0 ==> Text(q[i..], n - i)[0] == q[i] as char;
        TextHeads(p[i], q[i], Text(p[i..], n - i), Text(q[i..], n - i));
        return p[i] == q[i];
      }
      TextTails(p[i], Text(p[i + 1..], n - i - 1), Text(q[i + 1..], n - i - 1));
      i := i + 1;
    }
    same := true;
  }

  lemma TextHeads(c: Byte, d: Byte, a: string, b: string)
    requires (c == 0 ==> a == "") && (c != 0 ==> a != "" && a[0] == c as char)
    requires (d == 0 ==> b == "") && (d != 0 ==> b != "" && b[0] == d as char)
    ensures (c == 0 || c != d) ==> (c == d <==> a == b)
  {
    if c != d && c != 0 && d != 0 {
      assert c as char != d as char by { assert (c as char) as int == c && (d as char) as int == d; }
    }
  }

  lemma TextTails(c: Byte, a: string, b: string)
    ensures [c as char] + a == [c as char] + b <==> a == b
  {
    if [c as char] + a == [c as char] + b {
      assert ([c as char] + a)[1..] == a && ([c as char] + b)[1..] == b;
    }
  }

  lemma ReadableBefore(p: seq<Byte>, n: nat, i: nat)
    requires 0 < i <= n && i <= |p| && Readable(p[i..], n - i)
    ensures Readable(p[i - 1..], n - i + 1)
  {
    assert p[i - 1..] == [p[i - 1]] + p[i..];
  }

  /** Strings that agree on their first i characters and from there on are equal. */
  lemma EmptyText(p: seq<Byte>, n: nat)
    requires Readable(p, n) && (n == 0 || p[0] == 0)
    ensures Text(p, n) == ""
  {
  }

  lemma {:induction false} TextPrefix(p: seq<Byte>, q: seq<Byte>, n: nat, i: nat)
    requires Readable(p, n) && Readable(q, n) && i <= n && i <= |p| && i <= |q|
    requires forall j :: 0 <= j < i ==> p[j] == q[j] != 0
    requires Readable(p[i..], n - i) && Readable(q[i..], n - i) && Text(p[i..], n - i) == Text(q[i..], n - i)
    ensures Text(p, n) == Text(q, n)
  {
    hide Text, Readable;
    if i == 0 {
      assert p[0..] == p && q[0..] == q;
    } else {
      ReadableBefore(p, n, i);
      ReadableBefore(q, n, i);
      TextStep(p, n, i - 1);
      TextStep(q, n, i - 1);
      assert p[i - 1] == q[i - 1];
      TextPrefix(p, q, n, i - 1);
    }
  }

  /** strncpy: n bytes holding the same string, padded with NULs. */
  method StrNCpy(t: seq<Byte>, n: nat) returns (s: seq<Byte>)
    requires Readable(t, n)
    ensures |s| == n && Text(s, n) == Text(t, n)
    ensures forall j, k :: 0 <= j < k < n && s[j] == 0 ==> s[k] == 0
  {
    hide Text;
    s := [];
    assert t[0..] == t;
    while |s| < n
      invariant |s| <= n && |s| <= |t| && s == t[..|s|] && Readable(t[|s|..], n - |s|)
      invariant forall j :: 0 <= j < |s| ==> s[j] != 0
      decreases n - |s|
    {
      TextStep(t, n, |s|);
      if t[|s|] == 0 {
        break;
      }
      s := s + [t[|s|]];
    }
    ghost var i := |s|;
    s := s + seq(n - |s|, _ => 0);
    if i < n {
      assert s[i..][0] == 0 && t[i..][0] == 0;
    }
    EmptyText(s[i..], n - i);
    EmptyText(t[i..], n - i);
    TextPrefix(s, t, n, i);
  }

  // ---------- entries in bytes ----------

  function Short(low: int, high: int): nat
    requires low >= 0 && high >= 0
  {
    low + 0x100 * high
  }

  /** A directory entry: a 16-bit inode number, low byte first, and a name. */
  function Unpack(bs: seq<Byte>): Dirent
    requires |bs| == ENTRY
  {
    Dirent(Short(bs[0], bs[1]), Text(bs[2..], DIRSIZ))
  }

  /** The entries of a directory's bytes; a part of an entry at the end is none. */
  function Entries(bs: seq<Byte>): (es: seq<Dirent>)
    ensures |es| == |bs| / ENTRY
  {
    seq(|bs| / ENTRY, k requires 0 <= k < |bs| / ENTRY => Unpack(bs[ENTRY * k..ENTRY * k + ENTRY]))
  }

  /** The bytes dirlink writes. */
  method Pack(name: seq<Byte>, inum: nat) returns (bs: seq<Byte>)
    requires Readable(name, DIRSIZ)
    ensures |bs| == ENTRY && Unpack(bs) == Dirent(inum % 0x1_0000, Text(name, DIRSIZ))
  {
    var n := StrNCpy(name, DIRSIZ);
    bs := [inum % 0x100, inum / 0x100 % 0x100] + n;
    assert bs[2..] == n;
    LowHigh(inum);
  }

  lemma LowHigh(v: nat)
    ensures v % 0x100 + 0x100 * (v / 0x100 % 0x100) == v % 0x1_0000
  {
    var q := v / 0x100;
    assert v == 0x1_0000 * (q / 0x100) + (0x100 * (q % 0x100) + v % 0x100);
  }

  /** A cleared entry. */
  lemma ZeroEntry(bs: seq<Byte>)
    requires |bs| == ENTRY && forall j :: 0 <= j < ENTRY ==> bs[j] == 0
    ensures Unpack(bs) == Dirent(0, "")
  {
    assert bs[0] == 0 && bs[1] == 0 && bs[2..][0] == 0;
  }

  lemma SpliceAt(bs: seq<Byte>, k: nat, e: seq<Byte>, j: nat)
    requires |bs| % ENTRY == 0 && k <= |bs| / ENTRY && |e| == ENTRY
    requires j < |bs| / ENTRY || j == k
    ensures ENTRY * k <= |bs| && ENTRY * j + ENTRY <= |Spliced(bs, ENTRY * k, e)|
    ensures Spliced(bs, ENTRY * k, e)[ENTRY * j..ENTRY * j + ENTRY] ==
            if j == k then e else bs[ENTRY * j..ENTRY * j + ENTRY]
  {
    var cs, r := Spliced(bs, ENTRY * k, e), if j == k then e else bs[ENTRY * j..ENTRY * j + ENTRY];
    forall o | 0 <= o < ENTRY
      ensures cs[ENTRY * j + o] == r[o]
    {
      assert j < k ==> ENTRY * j + o < ENTRY * k;
      assert j > k ==> ENTRY * j + o >= ENTRY * k + ENTRY;
    }
  }

  /** Writing one entry's bytes over slot k, or at the end, changes that entry and no other. */
  lemma SplicedEntries(bs: seq<Byte>, k: nat, e: seq<Byte>)
    requires |bs| % ENTRY == 0 && k <= |bs| / ENTRY && |e| == ENTRY
    ensures ENTRY * k <= |bs| && |Spliced(bs, ENTRY * k, e)| % ENTRY == 0
    ensures Entries(Spliced(bs, ENTRY * k, e)) ==
            if k < |bs| / ENTRY then Entries(bs)[k := Unpack(e)] else Entries(bs) + [Unpack(e)]
  {
    var es := if k < |bs| / ENTRY then Entries(bs)[k := Unpack(e)] else Entries(bs) + [Unpack(e)];
    var cs := Spliced(bs, ENTRY * k, e);
    assert |cs| == if k < |bs| / ENTRY then |bs| else |bs| + ENTRY;
    hide Unpack, Spliced;
    forall j | 0 <= j < |es|
      ensures Entries(cs)[j] == es[j]
    {
      SpliceAt(bs, k, e, j);
    }
  }

  // ---------- the directory operations on the bytes ----------

  /** The entries of inode d, taken as a directory. */
  ghost function EntriesOf(fs: Fs, d: nat): seq<Dirent>
    requires d < |fs.inodes|
  {
    Entries(Contents(fs, d))
  }

  lemma EntryAt(bs: seq<Byte>, off: nat)
    requires off % ENTRY == 0 && off + ENTRY <= |bs|
    ensures off / ENTRY < |Entries(bs)| && Entries(bs)[off / ENTRY] == Unpack(bs[off..off + ENTRY])
  {
    assert ENTRY * (off / ENTRY) == off;
  }

  lemma LastEntry(off: nat, size: nat)
    requires off % ENTRY == 0 && off < size
    ensures (off + ENTRY) % ENTRY == 0 && (off + ENTRY) / ENTRY == off / ENTRY + 1
    ensures size < off + ENTRY ==> size % ENTRY != 0 && size / ENTRY == off / ENTRY
  {
  }

  predicate NotAmong(es: seq<Dirent>, name: Name, n: nat) {
    forall j :: 0 <= j < n && j < |es| ==> es[j].inum == 0 || es[j].name != name
  }

  lemma NotAmongNone(es: seq<Dirent>, name: Name)
    ensures NotAmong(es, name, 0)
  {
  }

  lemma NotAmongAll(es: seq<Dirent>, name: Name)
    requires NotAmong(es, name, |es|)
    ensures !HasName(es, name)
  {
  }

  lemma NotAmongNext(es: seq<Dirent>, name: Name, k: nat)
    requires k < |es| && NotAmong(es, name, k)
    ensures if es[k].inum != 0 && es[k].name == name then FoundAt(es, name, k) && HasName(es, name) else NotAmong(es, name, k + 1)
  {
  }

  lemma MoreEntry(off: nat, size: nat)
    requires off % ENTRY == 0 && size % ENTRY == 0 && off < size
    ensures off + ENTRY <= size && off / ENTRY < size / ENTRY && (off + ENTRY) / ENTRY == off / ENTRY + 1
  {
  }

  /** One entry read with readi: all of it, or what is left of the file is shorter. */
  method ReadEntry(f: FileSystem, dp: nat, off: nat) returns (ok: bool, de: seq<Byte>)
    requires f.Valid() && dp in f.icache && off % ENTRY == 0 && off <= f.disk[dp].size
    modifies f`used, f`blocks, f`icache, f`owner, f`logged
    ensures f.OnDisk() == old(f.OnDisk()) && f.icache == old(f.icache) && f.owner == old(f.owner) && f.logged == old(f.logged)
    ensures ok <==> off + ENTRY <= f.disk[dp].size
    ensures ok ==>
              && |de| == ENTRY && off / ENTRY < |EntriesOf(f.OnDisk(), dp)|
              && Unpack(de) == EntriesOf(f.OnDisk(), dp)[off / ENTRY]
  {
    hide Owns, NoHoles, Slot, ByteAt, Contents, Unpack, Entries;
    assert f.disk[dp].size <= MAXFILE * BSIZE by { SizeBound(f.OnDisk(), dp, f.owner); }
    var r;
    r, de := f.ReadI(dp, off, ENTRY);
    ok := r == ENTRY;
    if ok {
      EntryAt(Contents(f.OnDisk(), dp), off);
    }
  }

  lemma SizeBound(fs: Fs, i: nat, owner: Owners)
    requires FsOk(fs, owner) && i < |fs.inodes|
    ensures fs.inodes[i].size <= MAXFILE * BSIZE
  {
    assert NoHoles(fs, i);
  }

  /** dirlookup: inode 0 stands for the null result, and `ok` is false for its panics. */
  method DirLookup(f: FileSystem, dp: nat, name: seq<Byte>) returns (ok: bool, inum: nat, off: nat)
    requires f.Valid() && dp in f.icache && Readable(name, DIRSIZ)
    modifies f`used, f`blocks, f`icache, f`owner, f`logged
    ensures f.OnDisk() == old(f.OnDisk()) && f.icache == old(f.icache) && f.owner == old(f.owner) && f.logged == old(f.logged)
    ensures var es := EntriesOf(f.OnDisk(), dp);
            && (ok <==> f.disk[dp].typ == T_DIR && (f.disk[dp].size % ENTRY == 0 || HasName(es, Text(name, DIRSIZ))))
            && (ok && inum == 0 ==> !HasName(es, Text(name, DIRSIZ)))
            && (ok && inum != 0 ==>
                  off % ENTRY == 0 && FoundAt(es, Text(name, DIRSIZ), off / ENTRY) && es[off / ENTRY].inum == inum)
  {
    hide Owns, NoHoles, Slot, ByteAt, Contents, Text, Entries, FsOk, NotAmong, HasName, FoundAt;
    inum, off := 0, 0;
    if f.icache[dp].typ != T_DIR {
      return false, 0, 0;
    }
    ghost var es := EntriesOf(f.OnDisk(), dp);
    assert |es| == f.disk[dp].size / ENTRY;
    assert NotAmong(es, Text(name, DIRSIZ), 0) by { NotAmongNone(es, Text(name, DIRSIZ)); }
    while off < f.icache[dp].size
      invariant f.OnDisk() == old(f.OnDisk()) && f.icache == old(f.icache) && f.owner == old(f.owner) && f.logged == old(f.logged)
      invariant off % ENTRY == 0 && off <= f.icache[dp].size
      invariant NotAmong(es, Text(name, DIRSIZ), off / ENTRY)
      decreases f.disk[dp].size - off
    {
      var de;
      ok, de := ReadEntry(f, dp, off);
      LastEntry(off, f.disk[dp].size);
      if !ok {
        NotAmongAll(es, Text(name, DIRSIZ));
        return;
      }
      NotAmongNext(es, Text(name, DIRSIZ), off / ENTRY);
      var at := Short(de[0], de[1]);
      if at != 0 {
        var same := StrNCmp(name, de[2..], DIRSIZ);
        if same {
          return true, at, off;
        }
      }
      off := off + ENTRY;
    }
    NotAmongAll(es, Text(name, DIRSIZ));
    ok := true;
  }

  // ---------- the bytes as inodes and entries ----------

  function KindOf(typ: nat): Kind {
    if typ == 0 then Free else if typ == T_DIR then Dir else if typ == T_FILE then File else Dev
  }

  ghost function NodeOf(fs: Fs, i: nat): Node
    requires i < |fs.inodes|
  {
    Node(KindOf(fs.inodes[i].typ), fs.inodes[i].nlink, if fs.inodes[i].typ == T_DIR then EntriesOf(fs, i) else [])
  }

  ghost function Nodes(fs: Fs): (ns: seq<Node>)
    ensures |ns| == |fs.inodes|
  {
    seq(|fs.inodes|, i requires 0 <= i < |fs.inodes| => NodeOf(fs, i))
  }

  /** Directories hold whole entries. */
  ghost predicate Whole(fs: Fs) {
    forall i :: 0 <= i < |fs.inodes| && fs.inodes[i].typ == T_DIR ==> fs.inodes[i].size % ENTRY == 0
  }

  /** Every inode but i, and every file but i, is as it was. */
  ghost predicate OnlyFile(fs: Fs, gs: Fs, i: nat) {
    |gs.inodes| == |fs.inodes| && forall j: nat :: j < |fs.inodes| && j != i ==>
      gs.inodes[j] == fs.inodes[j] && Contents(gs, j) == Contents(fs, j)
  }

  lemma OnlyNode(fs: Fs, gs: Fs, i: nat)
    requires OnlyFile(fs, gs, i) && i < |fs.inodes|
    ensures Nodes(gs) == Nodes(fs)[i := NodeOf(gs, i)]
  {
    hide Contents, Entries;
  }

  /** A directory of this size cannot grow: it is as large as a file gets, or needs a block and none is free. */
  ghost predicate NoRoom(f: FileSystem, size: nat)
    reads f`used
  {
    size == MAXFILE * BSIZE || (size % BSIZE == 0 && f.Full())
  }

  lemma ShortAtEnd(f: FileSystem, fs: Fs, owner: Owners, dp: nat, k: nat)
    requires FsOk(fs, owner) && dp < |fs.inodes| && fs.inodes[dp].size % ENTRY == 0 && k <= fs.inodes[dp].size / ENTRY
    requires f.Short(fs, dp, ENTRY * k / BSIZE, EndBlock(ENTRY * k, ENTRY))
    ensures k == fs.inodes[dp].size / ENTRY && NoRoom(f, fs.inodes[dp].size)
  {
    hide Owns, Slot;
    var size := fs.inodes[dp].size;
    var b := ENTRY * k / BSIZE;
    assert EndBlock(ENTRY * k, ENTRY) == b + 1;
    assert NoHoles(fs, dp);
    if b < MAXFILE {
      assert IsSlot(fs, dp, b) && SlotAt(f.View(dp), dp, b) == 0;
      assert SlotAt(fs, dp, b) == 0;
      assert size <= b * BSIZE;
    }
  }

  /** Writing entry k, or at the end, with writei: that entry changes and nothing else. */
  method WriteEntry(f: FileSystem, dp: nat, k: nat, de: seq<Byte>) returns (ok: bool)
    requires f.Valid() && dp in f.icache && f.disk[dp].typ == T_DIR && f.disk[dp].size % ENTRY == 0
    requires k <= f.disk[dp].size / ENTRY && |de| == ENTRY
    modifies f`used, f`blocks, f`disk, f`icache, f`owner, f`logged
    ensures ok ==>
              && f.Valid() && f.icache.Keys == old(f.icache).Keys && OnlyFile(old(f.OnDisk()), f.OnDisk(), dp)
              && f.disk[dp].typ == T_DIR && f.disk[dp].nlink == old(f.disk)[dp].nlink && f.disk[dp].size % ENTRY == 0
              && EntriesOf(f.OnDisk(), dp) ==
                   (var es := EntriesOf(old(f.OnDisk()), dp);
                    if k < |es| then es[k := Unpack(de)] else es + [Unpack(de)])
              && (old(f.logged) == {} ==> |f.logged| <= MAXOPBLOCKS)
    ensures !ok ==> k == old(f.disk)[dp].size / ENTRY && NoRoom(f, old(f.disk)[dp].size)
  {
    hide Owns, NoHoles, Slot, ByteAt, Unpack, Entries, FsOk, Spliced, FileSystem.Short, EndBlock, Written, FileSystem.WriteLogged, FileSystem.Full;
    ghost var fs, was := f.OnDisk(), f.owner;
    assert f.disk[dp].size <= MAXFILE * BSIZE by { SizeBound(fs, dp, f.owner); }
    var r;
    r, ok := f.WriteI(dp, de, ENTRY * k);
    if !ok {
      ShortAtEnd(f, fs, was, dp, k);
    }
    ok := ok && r == ENTRY;
    if ok {
      hide Contents;
      SplicedEntries(Contents(fs, dp), k, de);
    }
  }

  /** dirlink: refuses a name in use; otherwise the directory gains the entry in its first free slot or at
      its end. The inode number is kept to 16 bits. `ok` is false for its panics. */
  method DirLink(f: FileSystem, dp: nat, name: seq<Byte>, inum: nat) returns (ok: bool, r: int)
    requires f.Valid() && dp in f.icache && Readable(name, DIRSIZ)
    modifies f`used, f`blocks, f`disk, f`icache, f`owner, f`logged
    ensures ok ==>
              && f.Valid() && f.icache.Keys == old(f.icache).Keys && old(f.disk)[dp].typ == T_DIR
              && r == if HasName(EntriesOf(old(f.OnDisk()), dp), Text(name, DIRSIZ)) then -1 else 0
    ensures ok && r == -1 ==> f.OnDisk() == old(f.OnDisk())
    ensures ok && r == 0 ==>
              && OnlyFile(old(f.OnDisk()), f.OnDisk(), dp)
              && (Whole(old(f.OnDisk())) ==> Whole(f.OnDisk()))
              && Nodes(f.OnDisk()) ==
                   (var n := Nodes(old(f.OnDisk()))[dp];
                    Nodes(old(f.OnDisk()))[dp := n.(entries := Put(n.entries, Dirent(inum % 0x1_0000, Text(name, DIRSIZ))))])
    ensures ok && old(f.logged) == {} ==> |f.logged| <= MAXOPBLOCKS
    ensures !ok && old(f.disk)[dp].typ == T_DIR && old(f.disk)[dp].size % ENTRY == 0 ==>
              && !HasName(EntriesOf(old(f.OnDisk()), dp), Text(name, DIRSIZ)) && NoRoom(f, old(f.disk)[dp].size)
              && forall j :: 0 <= j < |EntriesOf(old(f.OnDisk()), dp)| ==> EntriesOf(old(f.OnDisk()), dp)[j].inum != 0
  {
    hide Owns, NoHoles, Slot, ByteAt, Unpack, Entries, FsOk, Contents, Text, EmptySlot, HasName, NoRoom;
    ghost var fs := f.OnDisk();
    ghost var es := EntriesOf(fs, dp);
    r := -1;
    var found, at;
    ok, found, at := DirLookup(f, dp, name);
    if !ok || found != 0 {
      FoundHas(es, Text(name, DIRSIZ), at / ENTRY);
      return;
    }
    var off := FreeEntry(f, dp);
    var de := Pack(name, inum);
    ok := WriteEntry(f, dp, off / ENTRY, de);
    r := 0;
    if ok {
      EmptySlotAt(es, off / ENTRY);
      OnlyNode(fs, f.OnDisk(), dp);
    }
  }

  lemma FoundHas(es: seq<Dirent>, name: Name, k: nat)
    ensures FoundAt(es, name, k) ==> HasName(es, name)
  {
  }

  /** dirlink's search for an empty entry. */
  method FreeEntry(f: FileSystem, dp: nat) returns (off: nat)
    requires f.Valid() && dp in f.icache && f.disk[dp].size % ENTRY == 0
    modifies f`used, f`blocks, f`icache, f`owner, f`logged
    ensures f.OnDisk() == old(f.OnDisk()) && f.icache == old(f.icache) && f.owner == old(f.owner) && f.logged == old(f.logged)
    ensures off % ENTRY == 0 && off <= f.disk[dp].size
    ensures var es := EntriesOf(f.OnDisk(), dp);
            (off < f.disk[dp].size ==> es[off / ENTRY].inum == 0) && forall j :: 0 <= j < off / ENTRY ==> es[j].inum != 0
  {
    hide Owns, NoHoles, Slot, ByteAt, Contents, Text, Entries, FsOk;
    off := 0;
    ghost var es := EntriesOf(f.OnDisk(), dp);
    while off < f.icache[dp].size
      invariant f.OnDisk() == old(f.OnDisk()) && f.icache == old(f.icache) && f.owner == old(f.owner) && f.logged == old(f.logged)
      invariant off % ENTRY == 0 && off <= f.icache[dp].size
      invariant forall j :: 0 <= j < off / ENTRY ==> es[j].inum != 0
      decreases f.disk[dp].size - off
    {
      var ok, de := ReadEntry(f, dp, off);
      if Short(de[0], de[1]) == 0 {
        break;
      }
      off := off + ENTRY;
    }
  }

  /** isdirempty, for a directory of whole entries. */
  method IsDirEmpty(f: FileSystem, dp: nat) returns (r: bool)
    requires f.Valid() && dp in f.icache && f.disk[dp].size % ENTRY == 0
    modifies f`used, f`blocks, f`icache, f`owner, f`logged
    ensures f.OnDisk() == old(f.OnDisk()) && f.icache == old(f.icache) && f.owner == old(f.owner) && f.logged == old(f.logged)
    ensures r <==> IsEmptyDir(EntriesOf(f.OnDisk(), dp))
  {
    hide Owns, NoHoles, Slot, ByteAt, Contents, Text, Entries, FsOk, Short;
    var off := 2 * ENTRY;
    ghost var es := EntriesOf(f.OnDisk(), dp);
    ghost var k := 2;
    while off < f.icache[dp].size
      invariant f.OnDisk() == old(f.OnDisk()) && f.icache == old(f.icache) && f.owner == old(f.owner) && f.logged == old(f.logged)
      invariant off % ENTRY == 0 && k == off / ENTRY && 2 <= k
      invariant forall j :: 2 <= j < k && j < |es| ==> es[j].inum == 0
      decreases f.disk[dp].size - off
    {
      MoreEntry(off, f.disk[dp].size);
      var ok, de := ReadEntry(f, dp, off);
      if Short(de[0], de[1]) != 0 {
        return false;
      }
      off, k := off + ENTRY, k + 1;
    }
    r := true;
  }

  const DOT: seq<Byte> := [46, 0]
  const DOT_DOT: seq<Byte> := [46, 46, 0]

  lemma DotNames()
    ensures Readable(DOT, DIRSIZ) && Text(DOT, DIRSIZ) == "." && Readable(DOT_DOT, DIRSIZ) && Text(DOT_DOT, DIRSIZ) == ".."
  {
    assert 0 in DOT && 0 in DOT_DOT;
    assert DOT[1..] == [0] && DOT_DOT[1..] == [46, 0] && DOT_DOT[1..][1..] == [0];
    assert Text([0], 13) == "" && Text([0], 12) == "";
    assert Text([46, 0], 13) == ".";
  }

  // ---------- unlink and create on the bytes ----------

  lemma RelinkedSame(fs: Fs, i: nat, n: nat, owner: Owners)
    requires FsOk(fs, owner) && i < |fs.inodes|
    ensures var gs := fs.(inodes := fs.inodes[i := fs.inodes[i].(nlink := n)]);
            && FsOk(gs, owner) && (forall j: nat :: j < |fs.inodes| ==> Contents(gs, j) == Contents(fs, j))
            && Nodes(gs) == Nodes(fs)[i := Nodes(fs)[i].(nlink := n)] && (Whole(fs) ==> Whole(gs))
  {
    var gs := fs.(inodes := fs.inodes[i := fs.inodes[i].(nlink := n)]);
    assert SameSlots(fs, gs) && SameBytes(fs, gs);
    hide Slot, ByteAt, Entries;
    SameSlotsOwn(fs, gs, owner, {});
    hide Owns;
    forall j: nat | j < |fs.inodes|
      ensures NoHoles(gs, j) && Contents(gs, j) == Contents(fs, j)
    {
      assert NoHoles(fs, j);
      assert forall k: nat :: k <= INDIRECT ==> IsSlot(fs, j, k);
    }
    OnlyNode(fs, gs, i);
  }

  /** A new link count, in the cache and on disk. */
  method SetLinks(f: FileSystem, i: nat, n: nat)
    requires f.Valid() && i in f.icache && (f.disk[i].typ == 0 ==> n == f.disk[i].nlink)
    modifies f`disk, f`icache, f`logged
    ensures f.Valid() && f.icache.Keys == old(f.icache).Keys && f.disk == old(f.disk)[i := old(f.disk)[i].(nlink := n)]
    ensures Nodes(f.OnDisk()) == Nodes(old(f.OnDisk()))[i := Nodes(old(f.OnDisk()))[i].(nlink := n)]
    ensures Whole(old(f.OnDisk())) ==> Whole(f.OnDisk())
    ensures forall j: nat :: j < |f.disk| ==> Contents(f.OnDisk(), j) == Contents(old(f.OnDisk()), j)
  {
    hide Owns, FsOk, Contents, Nodes, Whole;
    ghost var fs := f.OnDisk();
    RelinkedSame(fs, i, n, f.owner);
    f.icache := f.icache[i := f.icache[i].(nlink := n)];
    f.IUpdate(i);
    assert f.OnDisk() == fs.(inodes := fs.inodes[i := fs.inodes[i].(nlink := n)]);
  }

  lemma NodeAt(fs: Fs, i: nat)
    requires i < |fs.inodes|
    ensures Nodes(fs)[i] == NodeOf(fs, i)
  {
  }

  lemma RemovedNodes(ns: seq<Node>, pending: multiset<nat>, dp: nat, k: nat, ip: nat, a: seq<Node>)
    requires dp < |ns| && ip < |ns| && dp != ip && k < |ns[dp].entries| && ns[dp].entries[k].inum == ip
    requires ns[ip].nlink >= 1 && (ns[ip].kind == Dir ==> ns[dp].nlink >= 1)
    requires a == ns[dp := ns[dp].(entries := ns[dp].entries[k := Dirent(0, "")])]
    ensures Space(Dropped(a, dp, ip), pending) == Unlinked(Space(ns, pending), dp, k)
  {
  }

  /** Both link counts less, the parent's if a directory goes. */
  function Dropped(ns: seq<Node>, dp: nat, ip: nat): seq<Node>
    requires dp < |ns| && ip < |ns| && dp != ip && ns[ip].nlink >= 1 && (ns[ip].kind == Dir ==> ns[dp].nlink >= 1)
  {
    var ms := if ns[ip].kind == Dir then ns[dp := ns[dp].(nlink := ns[dp].nlink - 1)] else ns;
    ms[ip := ms[ip].(nlink := ms[ip].nlink - 1)]
  }

  method DropLinks(f: FileSystem, dp: nat, ip: nat)
    requires f.Valid() && Whole(f.OnDisk()) && dp in f.icache && ip in f.icache && dp != ip && f.disk[dp].typ == T_DIR
    requires f.disk[ip].nlink >= 1 && f.disk[ip].typ != 0 && (f.disk[ip].typ == T_DIR ==> f.disk[dp].nlink >= 1)
    modifies f`disk, f`icache, f`logged
    ensures f.Valid() && Whole(f.OnDisk())
    ensures var ns := Nodes(old(f.OnDisk()));
            && dp < |ns| && ip < |ns| && ns[ip].nlink >= 1 && (ns[ip].kind == Dir ==> ns[dp].nlink >= 1)
            && Nodes(f.OnDisk()) == Dropped(ns, dp, ip)
  {
    hide FsOk, Contents, Nodes, EntriesOf, Whole;
    NodeAt(f.OnDisk(), dp);
    NodeAt(f.OnDisk(), ip);
    if f.icache[ip].typ == T_DIR {
      SetLinks(f, dp, f.icache[dp].nlink - 1);
    }
    SetLinks(f, ip, f.icache[ip].nlink - 1);
  }

  /** The entry's bytes become zeros. */
  method ClearEntry(f: FileSystem, dp: nat, k: nat) returns (ok: bool)
    requires f.Valid() && Whole(f.OnDisk()) && dp in f.icache && f.disk[dp].typ == T_DIR
    requires k < |EntriesOf(f.OnDisk(), dp)|
    modifies f`used, f`blocks, f`disk, f`icache, f`owner, f`logged
    ensures ok ==>
              && f.Valid() && Whole(f.OnDisk()) && f.icache.Keys == old(f.icache).Keys && OnlyFile(old(f.OnDisk()), f.OnDisk(), dp)
              && f.disk[dp].typ == T_DIR && f.disk[dp].nlink == old(f.disk)[dp].nlink
              && Nodes(f.OnDisk()) ==
                   (var n := NodeOf(old(f.OnDisk()), dp); Nodes(old(f.OnDisk()))[dp := n.(entries := n.entries[k := Dirent(0, "")])])
    ensures ok
  {
    hide Owns, FsOk, Contents, Entries, Unpack, Nodes, NoRoom;
    ghost var fs := f.OnDisk();
    var zeros: seq<Byte> := seq(ENTRY, _ => 0);
    ZeroEntry(zeros);
    ok := WriteEntry(f, dp, k, zeros);
    if ok {
      OnlyNode(fs, f.OnDisk(), dp);
    }
  }

  /** sys_unlink's last section, on the bytes, is the unlink step. */
  method Remove(f: FileSystem, dp: nat, k: nat, ip: nat, ghost pending: multiset<nat>) returns (ok: bool)
    requires f.Valid() && Whole(f.OnDisk()) && dp in f.icache && ip in f.icache && dp != ip && f.disk[dp].typ == T_DIR
    requires k < |EntriesOf(f.OnDisk(), dp)| && EntriesOf(f.OnDisk(), dp)[k].inum == ip
    requires f.disk[ip].nlink >= 1 && f.disk[ip].typ != 0 && (f.disk[ip].typ == T_DIR ==> f.disk[dp].nlink >= 1)
    modifies f`used, f`blocks, f`disk, f`icache, f`owner, f`logged
    ensures ok ==>
              && f.Valid() && Whole(f.OnDisk()) && NodeOf(old(f.OnDisk()), dp) == Nodes(old(f.OnDisk()))[dp]
              && Space(Nodes(f.OnDisk()), pending) == Unlinked(Space(Nodes(old(f.OnDisk())), pending), dp, k)
    ensures ok
  {
    hide Owns, FsOk, Contents, Entries, Unpack, Nodes, Unlinked;
    ghost var ns := Nodes(f.OnDisk());
    NodeAt(f.OnDisk(), dp);
    NodeAt(f.OnDisk(), ip);
    ok := ClearEntry(f, dp, k);
    if !ok {
      return;
    }
    ghost var a := Nodes(f.OnDisk());
    DropLinks(f, dp, ip);
    RemovedNodes(ns, pending, dp, k, ip, a);
  }

  /** namecmp with "." and "..". */
  method NamesDots(name: seq<Byte>) returns (r: bool)
    requires Readable(name, DIRSIZ)
    ensures r <==> IsDots(Text(name, DIRSIZ))
  {
    DotNames();
    var one := StrNCmp(name, DOT, DIRSIZ);
    var two := StrNCmp(name, DOT_DOT, DIRSIZ);
    r := one || two;
  }

  lemma LinkedHasType(s: Space, i: nat)
    requires IsTree(s) && i < |s.nodes| && s.nodes[i].nlink >= 1
    ensures s.nodes[i].kind != Free
  {
  }

  /** sys_unlink once the parent is found, on the bytes: refused with nothing changed, or the unlink step; the
      directories stay a tree. `ok` would be false for its panics, which cannot happen. */
  method Unlink(f: FileSystem, dp: nat, name: seq<Byte>, ghost pending: multiset<nat>) returns (ok: bool, r: int, ghost k: nat)
    requires f.Valid() && Whole(f.OnDisk()) && dp in f.icache && f.disk[dp].typ == T_DIR && Readable(name, DIRSIZ)
    requires IsTree(Space(Nodes(f.OnDisk()), pending))
    modifies f`used, f`blocks, f`disk, f`icache, f`owner, f`logged
    ensures ok && f.Valid() && Whole(f.OnDisk()) && IsTree(Space(Nodes(f.OnDisk()), pending)) && (r == 0 || r == -1)
    ensures ok && r == 0 ==>
              var s := Space(Nodes(old(f.OnDisk())), pending);
              && FoundAt(s.nodes[dp].entries, Text(name, DIRSIZ), k) && Enabled(s, DirectoryTree.Step.Unlink(dp, k))
              && Space(Nodes(f.OnDisk()), pending) == Unlinked(s, dp, k)
    ensures ok && r == -1 ==>
              && f.OnDisk() == old(f.OnDisk())
              && (IsDots(Text(name, DIRSIZ)) || !HasName(Nodes(f.OnDisk())[dp].entries, Text(name, DIRSIZ))
                  || BusyDir(Nodes(f.OnDisk()), dp, Text(name, DIRSIZ), k))
  {
    hide FsOk, Contents, EntriesOf, Text, HasName, FoundAt, Nodes, Whole, Unlinked, IsTree, Enabled;
    ghost var s := Space(Nodes(f.OnDisk()), pending);
    ok, r, k := true, -1, 0;
    NodeAt(f.OnDisk(), dp);
    WholeAt(f.OnDisk(), dp);
    var dots := NamesDots(name);
    if dots {
      return;
    }
    var ip, off;
    ok, ip, off := DirLookup(f, dp, name);
    if ip == 0 {
      return;
    }
    k := off / ENTRY;
    FoundIn(s, dp, Text(name, DIRSIZ), k);
    var loaded := f.ILock(ip);
    NodeAt(f.OnDisk(), ip);
    var busy := BusyTest(f, ip);
    if busy {
      return;
    }
    UnlinkAllowed(s, dp, Text(name, DIRSIZ), k);
    StepKeeps(s, DirectoryTree.Step.Unlink(dp, k));
    LinkedHasType(s, ip);
    ok := Remove(f, dp, off / ENTRY, ip, pending);
    r := 0;
  }

  lemma WholeAt(fs: Fs, d: nat)
    requires Whole(fs) && d < |fs.inodes| && fs.inodes[d].typ == T_DIR
    ensures fs.inodes[d].size % ENTRY == 0
  {
  }

  lemma FoundIn(s: Space, dp: nat, name: Name, k: nat)
    requires IsTree(s) && dp < |s.nodes| && s.nodes[dp].kind == Dir && FoundAt(s.nodes[dp].entries, name, k)
    ensures k < |s.nodes[dp].entries| && s.nodes[dp].entries[k].inum < |s.nodes|
  {
    EntryInRange(s, dp, k);
  }

  /** unlink's test for a directory that still has entries. */
  method BusyTest(f: FileSystem, ip: nat) returns (busy: bool)
    requires f.Valid() && Whole(f.OnDisk()) && ip in f.icache
    modifies f`used, f`blocks, f`icache, f`owner, f`logged
    ensures f.OnDisk() == old(f.OnDisk()) && f.icache == old(f.icache) && f.owner == old(f.owner) && f.logged == old(f.logged)
    ensures var n := NodeOf(f.OnDisk(), ip); busy <==> n.kind == Dir && !IsEmptyDir(n.entries)
  {
    busy := false;
    if f.icache[ip].typ == T_DIR {
      var empty := IsDirEmpty(f, ip);
      busy := !empty;
    }
  }

  /** ialloc and the first update of create: a free inode becomes an empty one with one link. */
  method NewInode(f: FileSystem, typ: nat) returns (ip: nat)
    requires f.Valid() && Whole(f.OnDisk()) && typ != 0
    modifies f`disk, f`icache, f`logged
    ensures ip != 0 ==>
              && f.Valid() && Whole(f.OnDisk()) && ip < |old(f.disk)| && old(f.disk)[ip].typ == 0 && ip in f.icache
              && (forall i :: i in old(f.icache) ==> i in f.icache) && f.disk == old(f.disk)[ip := Inode(typ, 1, 0, NoAddrs())]
              && Nodes(f.OnDisk()) == Nodes(old(f.OnDisk()))[ip := Node(KindOf(typ), 1, [])]
    ensures ip == 0 ==> forall i :: 1 <= i < |old(f.disk)| ==> old(f.disk)[i].typ != 0
  {
    hide FsOk, Contents, Nodes, Entries;
    ghost var fs := f.OnDisk();
    ip := f.IAlloc(typ);
    if ip != 0 {
      ghost var gs := f.OnDisk();
      OnlyNode(fs, gs, ip);
      assert Entries([]) == [];
      assert Whole(gs);
      var loaded := f.ILock(ip);
      SetLinks(f, ip, 1);
    }
  }

  /** dirlink of a name not in use, as one update of the inodes; the inode number fits an entry. */
  method Enter(f: FileSystem, dp: nat, name: seq<Byte>, inum: nat) returns (ok: bool)
    requires f.Valid() && Whole(f.OnDisk()) && dp in f.icache && f.disk[dp].typ == T_DIR && Readable(name, DIRSIZ)
    requires !HasName(EntriesOf(f.OnDisk(), dp), Text(name, DIRSIZ)) && inum < 0x1_0000
    modifies f`used, f`blocks, f`disk, f`icache, f`owner, f`logged
    ensures ok ==>
              && f.Valid() && Whole(f.OnDisk()) && f.icache.Keys == old(f.icache).Keys && |f.disk| == |old(f.disk)|
              && (forall i :: 0 <= i < |f.disk| ==> f.disk[i].typ == old(f.disk)[i].typ)
              && Nodes(f.OnDisk()) ==
                   (var ns := Nodes(old(f.OnDisk()));
                    ns[dp := ns[dp].(entries := Put(ns[dp].entries, Dirent(inum, Text(name, DIRSIZ))))])
    ensures !ok ==> NoRoom(f, old(f.disk)[dp].size)
  {
    hide FsOk, Contents, Entries, Text, HasName, Put, NoRoom;
    WholeAt(f.OnDisk(), dp);
    ghost var fs := f.OnDisk();
    var r;
    ok, r := DirLink(f, dp, name, inum);
    if ok {
      SameKind(fs, f.OnDisk(), dp);
    }
  }

  lemma SameKind(fs: Fs, gs: Fs, d: nat)
    requires |gs.inodes| == |fs.inodes| && d < |fs.inodes| && fs.inodes[d].typ == T_DIR && Nodes(gs)[d].kind == Nodes(fs)[d].kind
    ensures gs.inodes[d].typ == T_DIR
  {
  }

  /** create's "." and "..", in an empty directory. */
  method MakeDots(f: FileSystem, ip: nat, dp: nat) returns (ok: bool)
    requires f.Valid() && Whole(f.OnDisk()) && ip in f.icache && f.disk[ip].typ == T_DIR && EntriesOf(f.OnDisk(), ip) == []
    requires 1 <= ip < 0x1_0000 && dp < 0x1_0000
    modifies f`used, f`blocks, f`disk, f`icache, f`owner, f`logged
    ensures ok ==>
              && f.Valid() && Whole(f.OnDisk()) && f.icache.Keys == old(f.icache).Keys && |f.disk| == |old(f.disk)|
              && (forall i :: 0 <= i < |f.disk| ==> f.disk[i].typ == old(f.disk)[i].typ)
              && Nodes(f.OnDisk()) == (var ns := Nodes(old(f.OnDisk())); ns[ip := ns[ip].(entries := NewEntries(Dir, ip, dp))])
    ensures !ok ==> f.Full()
  {
    hide FsOk, Contents, Entries, Text, Put, Nodes, Whole, FileSystem.Full;
    DotNames();
    DotEntries(ip, dp);
    NodeAt(f.OnDisk(), ip);
    WholeAt(f.OnDisk(), ip);
    assert |EntriesOf(f.OnDisk(), ip)| == f.disk[ip].size / ENTRY;
    ok := Enter(f, ip, DOT, ip);
    if ok {
      NodeAt(f.OnDisk(), ip);
      assert !HasName([Dirent(ip, ".")], "..");
      WholeAt(f.OnDisk(), ip);
      assert |EntriesOf(f.OnDisk(), ip)| == f.disk[ip].size / ENTRY == 1;
      ok := Enter(f, ip, DOT_DOT, dp);
    }
  }

  lemma CreatedNodes(ns: seq<Node>, pending: multiset<nat>, dp: nat, name: Name, ip: nat, kind: Kind, ms: seq<Node>)
    requires dp < |ns| && ip < |ns| && dp != ip
    requires ms == ns[ip := Node(kind, 1, NewEntries(kind, ip, dp))]
                     [dp := ns[dp].(nlink := ns[dp].nlink + if kind == Dir then 1 else 0)]
    ensures Space(ms[dp := ms[dp].(entries := Put(ms[dp].entries, Dirent(ip, name)))], pending) ==
            Created(Space(ns, pending), dp, name, ip, kind)
  {
  }

  /** The link the new ".." is to the parent, and the dots. */
  method LinkDots(f: FileSystem, dp: nat, ip: nat) returns (ok: bool)
    requires f.Valid() && Whole(f.OnDisk()) && dp in f.icache && f.disk[dp].typ == T_DIR && dp != ip && dp < 0x1_0000
    requires ip in f.icache && 1 <= ip < 0x1_0000 && f.disk[ip].typ == T_DIR && Nodes(f.OnDisk())[ip] == Node(Dir, 1, [])
    modifies f`used, f`blocks, f`disk, f`icache, f`owner, f`logged
    ensures ok ==>
              && f.Valid() && Whole(f.OnDisk()) && dp in f.icache && f.disk[dp].typ == T_DIR && |f.disk| == |old(f.disk)|
              && Nodes(f.OnDisk()) ==
                   (var ns := Nodes(old(f.OnDisk()));
                    ns[dp := ns[dp].(nlink := ns[dp].nlink + 1)][ip := Node(Dir, 1, NewEntries(Dir, ip, dp))])
    ensures !ok ==> f.Full()
  {
    hide FsOk, Contents, Entries, NewEntries, Nodes, Whole, FileSystem.Full;
    NodeAt(f.OnDisk(), dp);
    NodeAt(f.OnDisk(), ip);
    SetLinks(f, dp, f.icache[dp].nlink + 1);
    NodeAt(f.OnDisk(), ip);
    ok := MakeDots(f, ip, dp);
  }

  lemma MadeNodes(ns: seq<Node>, dp: nat, ip: nat, kind: Kind)
    requires dp < |ns| && ip < |ns| && dp != ip
    ensures var as' := ns[ip := Node(kind, 1, [])];
            var bs := as'[dp := as'[dp].(nlink := as'[dp].nlink + 1)];
            ns[ip := Node(kind, 1, NewEntries(kind, ip, dp))][dp := ns[dp].(nlink := ns[dp].nlink + if kind == Dir then 1 else 0)] ==
            if kind == Dir then bs[ip := Node(Dir, 1, NewEntries(Dir, ip, dp))] else as'
  {
  }

  /** The new inode and, for a directory, the parent's link and the dots. */
  method MakeNode(f: FileSystem, dp: nat, typ: nat) returns (ok: bool, ip: nat)
    requires f.Valid() && Whole(f.OnDisk()) && dp in f.icache && f.disk[dp].typ == T_DIR && typ != 0 && |f.disk| <= 0x1_0000
    modifies f`used, f`blocks, f`disk, f`icache, f`owner, f`logged
    ensures ok ==>
              && f.Valid() && Whole(f.OnDisk()) && dp in f.icache && f.disk[dp].typ == T_DIR
              && 1 <= ip < |old(f.disk)| == |f.disk| && ip != dp && old(f.disk)[ip].typ == 0
              && Nodes(f.OnDisk()) ==
                   (var ns, kind := Nodes(old(f.OnDisk())), KindOf(typ);
                    ns[ip := Node(kind, 1, NewEntries(kind, ip, dp))]
                      [dp := ns[dp].(nlink := ns[dp].nlink + if kind == Dir then 1 else 0)])
    ensures !ok ==> f.Full() || forall i :: 1 <= i < |old(f.disk)| ==> old(f.disk)[i].typ != 0
  {
    hide FsOk, Contents, EntriesOf, NewEntries, Nodes, Whole, FileSystem.Full;
    ghost var ns := Nodes(f.OnDisk());
    ip := NewInode(f, typ);
    ok := ip != 0;
    if ok {
      MadeNodes(ns, dp, ip, KindOf(typ));
    }
    if ok && typ == T_DIR {
      ok := LinkDots(f, dp, ip);
    }
  }

  lemma SameEntries(fs: Fs, gs: Fs, d: nat)
    requires Whole(fs) && Whole(gs) && d < |fs.inodes| == |gs.inodes| && fs.inodes[d].typ == gs.inodes[d].typ == T_DIR
    requires Nodes(gs)[d].entries == Nodes(fs)[d].entries
    ensures gs.inodes[d].size == fs.inodes[d].size
  {
    hide Contents;
    assert |NodeOf(fs, d).entries| == fs.inodes[d].size / ENTRY && |NodeOf(gs, d).entries| == gs.inodes[d].size / ENTRY;
  }

  /** create of a name not in use, on the bytes, is the create step: the tree is kept exactly if the parent
      is still linked. `ok` is false when inodes or blocks run out. */
  method CreateNew(f: FileSystem, dp: nat, name: seq<Byte>, typ: nat, ghost pending: multiset<nat>) returns (ok: bool, ip: nat)
    requires f.Valid() && Whole(f.OnDisk()) && 1 <= dp && dp in f.icache && f.disk[dp].typ == T_DIR && Readable(name, DIRSIZ)
    requires !HasName(EntriesOf(f.OnDisk(), dp), Text(name, DIRSIZ)) && typ != 0 && |f.disk| <= 0x1_0000
    modifies f`used, f`blocks, f`disk, f`icache, f`owner, f`logged
    ensures ok ==>
              var s := Space(Nodes(old(f.OnDisk())), pending);
              && f.Valid() && Whole(f.OnDisk()) && CanCreate(s, dp, Text(name, DIRSIZ), ip, KindOf(typ))
              && Space(Nodes(f.OnDisk()), pending) == Created(s, dp, Text(name, DIRSIZ), ip, KindOf(typ))
              && (IsTree(s) ==> (IsTree(Space(Nodes(f.OnDisk()), pending)) <==> IsLive(s.nodes[dp])))
    ensures !ok ==>
              f.Full() || old(f.disk)[dp].size == MAXFILE * BSIZE || forall i :: 1 <= i < |old(f.disk)| ==> old(f.disk)[i].typ != 0
  {
    hide FsOk, Contents, Entries, Text, Put, HasName, Nodes, Whole, Created, IsTree, FileSystem.Full;
    ghost var s := Space(Nodes(f.OnDisk()), pending);
    NodeAt(f.OnDisk(), dp);
    ghost var fs := f.OnDisk();
    ok, ip := MakeNode(f, dp, typ);
    if !ok {
      return;
    }
    NodeAt(fs, ip);
    NodeAt(f.OnDisk(), dp);
    ghost var ms := Nodes(f.OnDisk());
    SameEntries(fs, f.OnDisk(), dp);
    ok := Enter(f, dp, name, ip);
    CreatedNodes(s.nodes, pending, dp, Text(name, DIRSIZ), ip, KindOf(typ), ms);
    if IsTree(s) {
      CreateKeepsIff(s, dp, Text(name, DIRSIZ), ip, KindOf(typ));
    }
  }
}
