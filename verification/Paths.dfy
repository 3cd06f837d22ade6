/** Path names (fs.c skipelem, namex): splitting a path and walking the directories it names. */
module Paths {
  import opened Common
  import opened Directory
  import opened DirectoryTree
  import opened Namespace

  // ---------- the elements of a path ----------

  function WordLength(p: string): (n: nat)
    ensures n <= |p|
  {
    if p == "" || p[0] == '/' then 0 else 1 + WordLength(p[1..])
  }

  /** Names are cut to the directory's 14 bytes. */
  function Cut(w: string): Name {
    if |w| <= DIRSIZ then w else w[..DIRSIZ]
  }

  function Elements(p: string): seq<Name>
    decreases |p|
  {
    if p == "" then []
    else if p[0] == '/' then Elements(p[1..])
    else [Cut(p[..WordLength(p)])] + Elements(p[WordLength(p)..])
  }

  lemma {:induction false} WordEnds(p: string, n: nat)
    requires n <= |p| && (forall i :: 0 <= i < n ==> p[i] != '/') && (n < |p| ==> p[n] == '/')
    ensures WordLength(p) == n
  {
    if n > 0 {
      WordEnds(p[1..], n - 1);
    }
  }

  lemma {:induction false} WordIs(p: string)
    ensures forall i :: 0 <= i < WordLength(p) ==> p[i] != '/'
    ensures WordLength(p) < |p| ==> p[WordLength(p)] == '/'
  {
    if p != "" && p[0] != '/' {
      WordIs(p[1..]);
    }
  }

  /** A word of up to 14 characters is one element, itself; a longer one is cut there. */
  lemma ElementsWord(w: string)
    requires w != "" && '/' !in w
    ensures |w| <= 14 ==> Elements(w) == [w]
    ensures |w| > 14 ==> Elements(w) == [w[..14]]
  {
    WordEnds(w, |w|);
    assert w[..|w|] == w;
    assert w[0] in w;
  }

  /** What a path can have as an element. */
  predicate IsElement(name: string) {
    0 < |name| <= 14 && '/' !in name
  }

  lemma {:induction false} ElementsAre(p: string)
    ensures forall i :: 0 <= i < |Elements(p)| ==> IsElement(Elements(p)[i])
    decreases |p|
  {
    if p != "" && p[0] == '/' {
      ElementsAre(p[1..]);
    } else if p != "" {
      WordIs(p);
      var n := WordLength(p);
      assert IsElement(Cut(p[..n]));
      ElementsAre(p[n..]);
    }
  }

  /** The path that names lead along, from the root. */
  function PathOf(names: seq<Name>): string {
    "/" + if names == [] then "" else names[0] + PathOf(names[1..])
  }

  /** Splitting it gives the names back. */
  lemma {:induction false} ElementsOf(names: seq<Name>)
    requires forall i :: 0 <= i < |names| ==> IsElement(names[i])
    ensures Elements(PathOf(names)) == names
    decreases |names|
  {
    if names == [] {
      assert PathOf(names) == "" + "/" + "";
      ElementsJoin("", "");
    } else {
      var rest := PathOf(names[1..]);
      assert PathOf(names) == "" + "/" + (names[0] + rest);
      ElementsJoin("", names[0] + rest);
      assert names[0] + rest == names[0] + "/" + rest[1..];
      assert rest == "" + "/" + rest[1..];
      ElementsJoin(names[0], rest[1..]);
      ElementsJoin("", rest[1..]);
      ElementsWord(names[0]);
      ElementsOf(names[1..]);
      assert [names[0]] + names[1..] == names;
    }
  }

  /** A slash separates: with ElementsWord and the empty path, this is all that Elements does. */
  lemma {:induction false} ElementsJoin(a: string, b: string)
    ensures Elements(a + "/" + b) == Elements(a) + Elements(b)
    decreases |a|
  {
    var p := a + "/" + b;
    if a == "" {
      assert p[1..] == b;
    } else if a[0] == '/' {
      assert p[1..] == a[1..] + "/" + b;
      ElementsJoin(a[1..], b);
    } else {
      var n := WordLength(a);
      WordIs(a);
      WordEnds(p, n);
      assert p[..n] == a[..n];
      assert p[n..] == a[n..] + "/" + b;
      ElementsJoin(a[n..], b);
    }
  }

  lemma {:induction false} ElementsSkip(p: string, n: nat)
    requires n <= |p| && forall i :: 0 <= i < n ==> p[i] == '/'
    ensures Elements(p) == Elements(p[n..])
  {
    if n > 0 {
      ElementsSkip(p[1..], n - 1);
      assert p[1..][n - 1..] == p[n..];
    } else {
      assert p[0..] == p;
    }
  }

  lemma TakeWord(p: string, n: nat)
    requires 1 <= n <= |p| && (forall i :: 0 <= i < n ==> p[i] != '/') && (n < |p| ==> p[n] == '/')
    ensures Elements(p) == [Cut(p[..n])] + Elements(p[n..])
  {
    WordEnds(p, n);
  }

  predicate AllSlashes(path: string, from: nat, to: nat)
    requires to <= |path|
  {
    forall i :: from <= i < to ==> path[i] == '/'
  }

  method SkipSlashes(path: string, from: nat) returns (pos: nat)
    requires from <= |path|
    ensures from <= pos <= |path| && (pos < |path| ==> path[pos] != '/') && AllSlashes(path, from, pos)
    ensures Elements(path[from..]) == Elements(path[pos..])
  {
    pos := from;
    while pos < |path| && path[pos] == '/'
      invariant from <= pos <= |path| && forall i :: from <= i < pos ==> path[i] == '/'
    {
      pos := pos + 1;
    }
    ElementsSkip(path[from..], pos - from);
    assert path[from..][pos - from..] == path[pos..];
  }

  /** skipelem: the next element and where the one after it starts. */
  method SkipElem(path: string, from: nat) returns (found: bool, name: Name, pos: nat, ghost start: nat, ghost end: nat)
    requires from <= |path|
    ensures !found ==> AllSlashes(path, from, |path|)
    ensures found ==>
              && from <= start < end <= pos <= |path| && AllSlashes(path, from, start) && AllSlashes(path, end, pos)
              && (forall i :: start <= i < end ==> path[i] != '/') && (end < |path| ==> path[end] == '/') && (pos < |path| ==> path[pos] != '/')
              && name == path[start..if end - start <= 14 then end else start + 14]
    ensures !found ==> Elements(path[from..]) == []
    ensures from <= pos <= |path|
    ensures found ==> from < pos && Elements(path[from..]) == [name] + Elements(path[pos..])
    ensures found ==> (pos == |path| <==> Elements(path[pos..]) == [])
  {
    hide Elements;
    var s := SkipSlashes(path, from);
    start, end := s, s;
    if s == |path| {
      ElementsEmpty(path[s..]);
      return false, "", s, s, s;
    }
    pos := s;
    while pos < |path| && path[pos] != '/'
      invariant s <= pos <= |path| && forall i :: s <= i < pos ==> path[i] != '/'
    {
      pos := pos + 1;
    }
    end := pos;
    var len := pos - s;
    name := if len >= DIRSIZ then path[s..s + DIRSIZ] else path[s..pos];
    WordAt(path, s, pos);
    assert len > DIRSIZ ==> path[s..pos][..DIRSIZ] == path[s..s + DIRSIZ];
    pos := SkipSlashes(path, pos);
    found := true;
    ElementsEmpty(path[pos..]);
  }

  lemma ElementsEmpty(p: string)
    requires p == "" || p[0] != '/'
    ensures Elements(p) == [] <==> p == ""
  {
  }

  lemma WordAt(path: string, s: nat, pos: nat)
    requires s < pos <= |path| && (forall i :: s <= i < pos ==> path[i] != '/') && (pos < |path| ==> path[pos] == '/')
    ensures Elements(path[s..]) == [Cut(path[s..pos])] + Elements(path[pos..])
  {
    var rest := path[s..];
    TakeWord(rest, pos - s);
    assert rest[..pos - s] == path[s..pos] && rest[pos - s..] == path[pos..];
  }

  // ---------- walking ----------

  function Lookup(es: seq<Dirent>, name: Name): nat {
    if es == [] then 0
    else if es[0].inum != 0 && es[0].name == name then es[0].inum
    else Lookup(es[1..], name)
  }

  lemma {:induction false} LookupFound(es: seq<Dirent>, name: Name, k: nat)
    requires FoundAt(es, name, k)
    ensures Lookup(es, name) == es[k].inum
  {
    if k > 0 {
      assert es[1..][k - 1] == es[k];
      LookupFound(es[1..], name, k - 1);
    }
  }

  lemma {:induction false} LookupNone(es: seq<Dirent>, name: Name)
    requires !HasName(es, name)
    ensures Lookup(es, name) == 0
  {
    if es != [] {
      LookupNone(es[1..], name);
    }
  }

  /** The inode that a list of names leads to from inode i. */
  function Walk(nodes: seq<Node>, i: nat, names: seq<Name>): Option<nat>
    decreases |names|
  {
    if names == [] then Some(i)
    else if i >= |nodes| || nodes[i].kind != Dir then None
    else
      var next := Lookup(nodes[i].entries, names[0]);
      if next == 0 then None else Walk(nodes, next, names[1..])
  }

  lemma {:induction false} WalkJoin(nodes: seq<Node>, i: nat, a: seq<Name>, b: seq<Name>)
    ensures Walk(nodes, i, a + b) == match Walk(nodes, i, a) { case None => None case Some(m) => Walk(nodes, m, b) }
    decreases |a|
  {
    if a == [] {
      assert a + b == b;
    } else {
      assert (a + b)[1..] == a[1..] + b;
      if i < |nodes| && nodes[i].kind == Dir {
        WalkJoin(nodes, Lookup(nodes[i].entries, a[0]), a[1..], b);
      }
    }
  }

  /** Resolving a/b is resolving a and then b from there. */
  lemma PathJoin(nodes: seq<Node>, i: nat, a: string, b: string)
    ensures Walk(nodes, i, Elements(a + "/" + b)) ==
            match Walk(nodes, i, Elements(a)) { case None => None case Some(m) => Walk(nodes, m, Elements(b)) }
  {
    ElementsJoin(a, b);
    WalkJoin(nodes, i, Elements(a), Elements(b));
  }

  /** What nameiparent finds: the directory the path's last element is to be looked up in. */
  function Parent(nodes: seq<Node>, i: nat, names: seq<Name>): Option<nat> {
    if names == [] then None
    else
      match Walk(nodes, i, names[..|names| - 1])
      case None => None
      case Some(m) => if m < |nodes| && nodes[m].kind == Dir then Some(m) else None
  }

  /** nameiparent and then a lookup of the last element is namei. */
  lemma ParentThenLookup(nodes: seq<Node>, i: nat, names: seq<Name>)
    requires names != []
    ensures var last := names[|names| - 1];
            Walk(nodes, i, names) == match Parent(nodes, i, names)
                                     case None => None
                                     case Some(m) => var f := Lookup(nodes[m].entries, last); if f == 0 then None else Some(f)
  {
    hide Lookup;
    var most, last := names[..|names| - 1], names[|names| - 1];
    assert names == most + [last] && [last][1..] == [];
    WalkJoin(nodes, i, most, [last]);
  }

  function Target(nodes: seq<Node>, i: nat, names: seq<Name>, parent: bool): Option<nat> {
    if parent then Parent(nodes, i, names) else Walk(nodes, i, names)
  }

  /** namex: the inode a path names, or its parent directory and last element. */
  method NameX(ns: Namespace, cwd: nat, path: string, nameiparent: bool) returns (r: Option<nat>, name: Name)
    requires IsTree(ns.Abs()) && cwd < |ns.nodes|
    ensures var start := if path != "" && path[0] == '/' then ROOT else cwd;
            var names := Elements(path);
            r == Target(ns.nodes, start, names, nameiparent) && (nameiparent && r.Some? ==> names != [] && name == names[|names| - 1])
  {
    hide IsTree, Elements, Target, Lookup, HasName, FoundAt;
    RootExists(ns.Abs());
    var ip: nat := if path != "" && path[0] == '/' then ROOT else cwd;
    ghost var start, names := ip, Elements(path);
    assert path[0..] == path;
    var found, pos;
    ghost var at, to;
    found, name, pos, at, to := SkipElem(path, 0);
    ghost var left := names;
    while found
      invariant pos <= |path| && ip < |ns.nodes|
      invariant left == if found then [name] + Elements(path[pos..]) else []
      invariant found ==> (pos == |path| <==> Elements(path[pos..]) == [])
      invariant Target(ns.nodes, start, names, nameiparent) == Target(ns.nodes, ip, left, nameiparent)
      invariant found ==> names != [] && names[|names| - 1] == left[|left| - 1]
      decreases found, |path| - pos
    {
      Resolve(ns.nodes, ip, left, nameiparent);
      if ns.nodes[ip].kind != Dir {
        return None, name;
      }
      if nameiparent && pos == |path| {
        return Some(ip), name;
      }
      var next, k := ns.DirLookup(ip, name);
      Found(ns.nodes[ip].entries, name, next, k);
      if next == 0 {
        return None, name;
      }
      FoundInRange(ns.Abs(), ip, name, k);
      ip := next;
      assert left[1..] == Elements(path[pos..]);
      left := Elements(path[pos..]);
      found, name, pos, at, to := SkipElem(path, pos);
    }
    Resolve(ns.nodes, ip, [], nameiparent);
    if nameiparent {
      return None, name;
    }
    r := Some(ip);
  }

  lemma ParentStep(nodes: seq<Node>, i: nat, names: seq<Name>)
    requires i < |nodes| && |names| > 1
    ensures Parent(nodes, i, names) == if nodes[i].kind != Dir then None else
                                       var next := Lookup(nodes[i].entries, names[0]);
                                       if next == 0 then None else Parent(nodes, next, names[1..])
  {
    var most := names[..|names| - 1];
    assert most[1..] == names[1..][..|names| - 2];
    hide Lookup;
  }

  /** One step of the walk, for namei and nameiparent. */
  lemma Resolve(nodes: seq<Node>, i: nat, names: seq<Name>, parent: bool)
    requires i < |nodes|
    ensures names == [] ==> Target(nodes, i, names, parent) == if parent then None else Some(i)
    ensures names != [] && nodes[i].kind != Dir ==> Target(nodes, i, names, parent) == None
    ensures |names| == 1 && parent && nodes[i].kind == Dir ==> Target(nodes, i, names, parent) == Some(i)
    ensures names != [] && nodes[i].kind == Dir && !(|names| == 1 && parent) ==>
              var next := Lookup(nodes[i].entries, names[0]);
              Target(nodes, i, names, parent) == if next == 0 then None else Target(nodes, next, names[1..], parent)
  {
    hide Lookup;
    if parent && |names| > 1 {
      ParentStep(nodes, i, names);
    } else if |names| == 1 {
      assert names[..0] == [];
    }
  }

  lemma FoundInRange(s: Space, d: nat, name: Name, k: nat)
    requires IsTree(s) && d < |s.nodes| && s.nodes[d].kind == Dir && FoundAt(s.nodes[d].entries, name, k)
    ensures k < |s.nodes[d].entries| && s.nodes[d].entries[k].inum < |s.nodes|
  {
    EntryInRange(s, d, k);
  }

  lemma Found(es: seq<Dirent>, name: Name, inum: nat, k: nat)
    requires inum == 0 ==> !HasName(es, name)
    requires inum != 0 ==> FoundAt(es, name, k) && es[k].inum == inum
    ensures Lookup(es, name) == inum
  {
    if inum == 0 {
      LookupNone(es, name);
    } else {
      LookupFound(es, name, k);
    }
  }

  lemma RootExists(s: Space)
    requires IsTree(s)
    ensures ROOT < |s.nodes|
  {
  }

  /** Names in use are such as a path can have. */
  ghost predicate Pathlike(s: Space) {
    forall d, k :: 0 <= d < |s.nodes| && 0 <= k < |s.nodes[d].entries| && s.nodes[d].entries[k].inum != 0 ==>
      IsElement(s.nodes[d].entries[k].name)
  }

  /** The step enters a name that a path had as its last element. */
  predicate EntersElement(e: Step) {
    match e
    case Create(_, name, _, _) => IsElement(name)
    case EndLink(_, _, name) => IsElement(name)
    case _ => true
  }

  lemma DotElements()
    ensures IsElement(".") && IsElement("..")
  {
  }

  lemma PathlikeStep(s: Space, e: Step)
    requires Pathlike(s) && Enabled(s, e) && EntersElement(e)
    ensures Pathlike(Next(s, e))
  {
    hide Put, EmptySlot, HasName, IsElement, IsEmptyDir;
    assert IsElement(".") && IsElement("..") by { DotElements(); }
    match e
    case Create(dp, name, ip, kind) => PutKeeps(s.nodes[dp].entries, Dirent(ip, name));
    case EndLink(i, dp, name) => PutKeeps(s.nodes[dp].entries, Dirent(i, name));
    case _ =>
  }

  lemma {:induction false} PathlikeRun(s: Space, es: seq<Step>, t: Space)
    requires Pathlike(s) && Runs(s, es, t) && forall i :: 0 <= i < |es| ==> EntersElement(es[i])
    ensures Pathlike(t)
    decreases |es|
  {
    hide Pathlike, Enabled, Next;
    if es != [] {
      PathlikeStep(s, es[0]);
      PathlikeRun(Next(s, es[0]), es[1..], t);
    }
  }

  /** In every run that enters path elements as names, every linked directory has a path, as a string, at which
      namex finds it. */
  lemma DirectoryHasPath(ninodes: nat, es: seq<Step>, t: Space, d: nat) returns (path: string)
    requires ninodes > ROOT && Runs(RootOnly(ninodes), es, t) && d < |t.nodes| && IsLive(t.nodes[d])
    requires forall i :: 0 <= i < |es| ==> EntersElement(es[i])
    ensures path != "" && path[0] == '/' && Target(t.nodes, ROOT, Elements(path), false) == Some(d)
  {
    hide Pathlike, Tree, RootOnly, Runs, Elements;
    RootOnlyTree(ninodes);
    RunKeeps(RootOnly(ninodes), es, t);
    RootPathlike(ninodes);
    PathlikeRun(RootOnly(ninodes), es, t);
    var depth :| Tree(t, depth);
    var names := ReachedByPath(t, depth, d);
    hide Walk;
    ElementsOf(names);
    path := PathOf(names);
  }

  lemma RootPathlike(ninodes: nat)
    requires ninodes > ROOT
    ensures Pathlike(RootOnly(ninodes))
  {
  }

  /** Every linked directory is named by a path from the root with as many names as its depth. */
  lemma {:induction false} ReachedByPath(s: Space, depth: map<nat, nat>, d: nat) returns (names: seq<Name>)
    requires Tree(s, depth) && d < |s.nodes| && IsLive(s.nodes[d])
    ensures d in depth && |names| == depth[d] && Walk(s.nodes, ROOT, names) == Some(d)
    ensures Pathlike(s) ==> forall i :: 0 <= i < |names| ==> IsElement(names[i])
    decreases if d in depth then depth[d] else 0
  {
    if d == ROOT {
      names := [];
    } else {
      assert Placed(s, depth, d);
      var p: nat, k: nat :| PlacedAt(s, depth, d, p, k);
      var up := ReachedByPath(s, depth, p);
      var e := s.nodes[p].entries[k];
      names := up + [e.name];
      EntryFound(s, depth, p, k);
      WalkJoin(s.nodes, ROOT, up, [e.name]);
      assert [e.name][1..] == [];
    }
  }

  lemma EntryFound(s: Space, depth: map<nat, nat>, p: nat, k: nat)
    requires Tree(s, depth) && p < |s.nodes| && IsLive(s.nodes[p]) && k < |s.nodes[p].entries| && s.nodes[p].entries[k].inum != 0
    ensures Lookup(s.nodes[p].entries, s.nodes[p].entries[k].name) == s.nodes[p].entries[k].inum
  {
    var es := s.nodes[p].entries;
    assert Distinct(es);
    hide Counted, DotsOk, KindsOk, Rooted, OneParent;
    LookupFound(es, es[k].name, k);
  }
}
