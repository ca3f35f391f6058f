// Comparing two read-only trees: an explicit-stack walk that digests one file per inode,
// proved equivalent to comparing everything and the two hardlink partitions.
module TreeCompare {

  type Data = string

  type Path = seq<string>

  type Digest = Data -> Data

  datatype Kind =
    | Directory(names: set<string>)
    | Symlink(target: string)
    | Regular(inode: (nat, nat), data: Data)
    | Special(format: nat, device: nat)

  /** One directory entry; the file type is part of the mode, and `Special` keeps its own format. */
  datatype Entry = Entry(permissions: nat, uid: nat, gid: nat, mtime: int, xattrs: map<string, Data>, kind: Kind)

  type Tree = map<Path, Entry>

  predicate SameType(a: Kind, b: Kind) {
    match a
    case Directory(_) => b.Directory?
    case Symlink(_) => b.Symlink?
    case Regular(_, _) => b.Regular?
    case Special(f, _) => b.Special? && b.format == f
  }

  predicate SameMetadata(a: Entry, b: Entry) {
    SameType(a.kind, b.kind) && a.permissions == b.permissions && a.uid == b.uid && a.gid == b.gid && a.mtime == b.mtime
  }

  /** A snapshot of a file system: every entry but the root is listed by its parent, and the other way around. */
  ghost predicate WellFormed(t: Tree) {
    && [] in t
    && (forall p, n :: p in t && t[p].kind.Directory? ==> (n in t[p].kind.names <==> p + [n] in t))
    && (forall p :: p in t && p != [] ==> p[..|p| - 1] in t && t[p[..|p| - 1]].kind.Directory?)
  }

  /** Paths with one inode show one file. */
  ghost predicate Consistent(t: Tree) {
    forall p, q :: Linked(t, p, q) ==> t[p].kind.data == t[q].kind.data
  }

  /** Two paths are hardlinks of one regular file. */
  predicate Linked(t: Tree, p: Path, q: Path) {
    p in t && q in t && t[p].kind.Regular? && t[q].kind.Regular? && t[p].kind.inode == t[q].kind.inode
  }

  /** The digest does not confuse a file of one tree with a file of the other. */
  ghost predicate NoCollision(d: Digest, a: Tree, b: Tree) {
    forall p, q :: p in a && q in b && a[p].kind.Regular? && b[q].kind.Regular? && d(a[p].kind.data) == d(b[q].kind.data)
      ==> a[p].kind.data == b[q].kind.data
  }

  /** Everything about two entries except inode numbers. */
  predicate SameEntry(a: Entry, b: Entry) {
    && SameMetadata(a, b) && a.xattrs == b.xattrs
    && match a.kind
       case Directory(names) => names == b.kind.names
       case Symlink(target) => target == b.kind.target
       case Regular(_, data) => data == b.kind.data
       case Special(_, device) => device == b.kind.device
  }

  /** The naive comparison: the same paths and entries, and the same hardlink groups. */
  ghost predicate SameTrees(a: Tree, b: Tree) {
    && a.Keys == b.Keys
    && (forall p :: p in a ==> SameEntry(a[p], b[p]))
    && (forall p, q :: p in a && q in a ==> (Linked(a, p, q) <==> Linked(b, p, q)))
  }

  // ----- The walk -----

  /** `s` is `p` or an ancestor of it. */
  predicate Above(s: Path, p: Path) {
    s <= p
  }

  /** Nothing waiting on the stack has been visited, and no waiting subtree contains another. */
  ghost predicate Fresh(stack: seq<Path>, visited: set<Path>) {
    && (forall i, v :: 0 <= i < |stack| && v in visited ==> !Above(stack[i], v))
    && (forall i, j :: 0 <= i < |stack| && 0 <= j < |stack| && i != j ==> !Above(stack[i], stack[j]))
  }

  /** Every path of the tree has been visited or waits below a stack element. */
  ghost predicate Covered(t: Tree, stack: seq<Path>, visited: set<Path>) {
    forall p :: p in t ==> p in visited || exists i :: 0 <= i < |stack| && Above(stack[i], p)
  }

  function Children(p: Path, names: seq<string>): (r: seq<Path>)
    ensures |r| == |names| && forall i :: 0 <= i < |r| ==> r[i] == p + [names[i]]
  {
    seq(|names|, i requires 0 <= i < |names| => p + [names[i]])
  }

  ghost predicate Lists(names: seq<string>, all: set<string>) {
    && (forall n :: n in names <==> n in all)
    && (forall i, j :: 0 <= i < j < |names| ==> names[i] != names[j])
  }

  lemma AboveChild(s: Path, p: Path, n: string)
    ensures Above(s, p + [n]) <==> Above(s, p) || s == p + [n]
    ensures Above(p + [n], s) ==> Above(p, s)
    ensures Above(p, p + [n])
  {
  }

  /** Replacing the popped path by its children keeps the stack fresh. */
  lemma PushFresh(rest: seq<Path>, p: Path, visited: set<Path>, names: seq<string>, all: set<string>)
    requires Fresh(rest + [p], visited) && Lists(names, all)
    ensures Fresh(rest + Children(p, names), visited + {p})
  {
    var was, now := rest + [p], rest + Children(p, names);
    forall i, v | 0 <= i < |now| && v in visited + {p}
      ensures !Above(now[i], v)
    {
      assert was[|rest|] == p;
      if i < |rest| { assert was[i] == rest[i]; } else { AboveChild(v, p, names[i - |rest|]); }
    }
    forall i, j | 0 <= i < |now| && 0 <= j < |now| && i != j
      ensures !Above(now[i], now[j])
    {
      assert was[|rest|] == p;
      if i < |rest| { assert was[i] == rest[i]; }
      if j < |rest| { assert was[j] == rest[j]; }
      if i >= |rest| { AboveChild(now[j], p, names[i - |rest|]); }
      if j >= |rest| { AboveChild(now[i], p, names[j - |rest|]); }
      if i >= |rest| && j >= |rest| {
        assert now[i][|p|] == names[i - |rest|] && now[j][|p|] == names[j - |rest|];
      }
    }
  }

  lemma PopFresh(rest: seq<Path>, p: Path, visited: set<Path>)
    requires Fresh(rest + [p], visited)
    ensures Fresh(rest, visited + {p}) && p !in visited
  {
    var was := rest + [p];
    assert was[|rest|] == p;
    forall i | 0 <= i < |rest| ensures !Above(rest[i], p) { assert was[i] == rest[i]; }
    forall i, v | 0 <= i < |rest| && v in visited ensures !Above(rest[i], v) { assert was[i] == rest[i]; }
    forall i, j | 0 <= i < |rest| && 0 <= j < |rest| && i != j ensures !Above(rest[i], rest[j]) {
      assert was[i] == rest[i] && was[j] == rest[j];
    }
  }

  /** A path strictly below `p` is below one of the children of `p`. */
  lemma BelowChild(t: Tree, p: Path, q: Path)
    requires WellFormed(t) && p in t && q in t && Above(p, q) && p != q
    ensures t[p].kind.Directory? && q[|p|] in t[p].kind.names && Above(p + [q[|p|]], q)
    decreases |q|
  {
    var parent := q[..|q| - 1];
    if parent == p {
      assert q == p + [q[|p|]];
    } else {
      assert |p| < |parent| && p <= parent && parent[|p|] == q[|p|];
      BelowChild(t, p, parent);
    }
  }

  lemma PushCovered(t: Tree, rest: seq<Path>, p: Path, visited: set<Path>, names: seq<string>)
    requires WellFormed(t) && p in t && Covered(t, rest + [p], visited)
    requires if t[p].kind.Directory? then Lists(names, t[p].kind.names) else names == []
    ensures Covered(t, rest + Children(p, names), visited + {p})
  {
    var was, now := rest + [p], rest + Children(p, names);
    forall q | q in t && q !in visited + {p}
      ensures exists i :: 0 <= i < |now| && Above(now[i], q)
    {
      var i :| 0 <= i < |was| && Above(was[i], q);
      if i < |rest| {
        assert Above(now[i], q);
      } else {
        BelowChild(t, p, q);
        var j :| 0 <= j < |names| && names[j] == q[|p|];
        assert Above(now[|rest| + j], q);
      }
    }
  }

  // ----- Hardlink groups -----

  type Links = map<(nat, nat), Path>

  /** The map sends every inode visited so far to the first path seen with it. */
  ghost predicate FirstSeen(t: Tree, links: Links, visited: set<Path>) {
    && (forall p :: p in visited && p in t && t[p].kind.Regular? ==> t[p].kind.inode in links)
    && (forall k :: k in links ==> links[k] in visited && links[k] in t && t[links[k]].kind.Regular? && t[links[k]].kind.inode == k)
  }

  /** The inodes of a tree's regular files. */
  function Inodes(t: Tree): set<(nat, nat)> {
    set p | p in t && t[p].kind.Regular? :: t[p].kind.inode
  }

  /** The entries visited so far agree; regular files agree in size and lead to the same first path,
      and first paths have equal digests. */
  ghost predicate Agree(d: Digest, a: Tree, b: Tree, la: Links, lb: Links, visited: set<Path>) {
    && visited <= a.Keys && visited <= b.Keys
    && FirstSeen(a, la, visited) && FirstSeen(b, lb, visited)
    && (forall p :: p in visited ==> AgreeAt(a[p], b[p]))
    && (forall p :: p in visited && a[p].kind.Regular? ==>
          && la[a[p].kind.inode] == lb[b[p].kind.inode]
          && d(a[la[a[p].kind.inode]].kind.data) == d(b[la[a[p].kind.inode]].kind.data))
  }

  /** What is compared entry by entry: everything but the bytes of regular files. */
  predicate AgreeAt(a: Entry, b: Entry) {
    && SameMetadata(a, b) && a.xattrs == b.xattrs
    && match a.kind
       case Directory(names) => names == b.kind.names
       case Symlink(target) => target == b.kind.target
       case Regular(_, data) => |data| == |b.kind.data|
       case Special(_, device) => device == b.kind.device
  }

  /** When everything was visited and agreed, the trees are the same. */
  lemma AgreedIsSame(d: Digest, a: Tree, b: Tree, la: Links, lb: Links, visited: set<Path>)
    requires Agree(d, a, b, la, lb, visited) && visited == a.Keys == b.Keys
    requires Consistent(a) && Consistent(b) && NoCollision(d, a, b)
    ensures SameTrees(a, b)
  {
    forall p | p in a
      ensures SameEntry(a[p], b[p])
    {
      assert AgreeAt(a[p], b[p]);
      if a[p].kind.Regular? {
        var f := la[a[p].kind.inode];
        assert AgreeAt(a[f], b[f]);
        assert Linked(a, p, f) && Linked(b, p, f);
      }
    }
    forall p, q | p in a && q in a
      ensures Linked(a, p, q) <==> Linked(b, p, q)
    {
      assert AgreeAt(a[p], b[p]) && AgreeAt(a[q], b[q]);
    }
  }

  function SetDefault(links: Links, k: (nat, nat), p: Path): Links {
    if k in links then links else links[k := p]
  }

  /** An inode known in one tree is known in the other when the hardlink groups are the same. */
  lemma KnownInBoth(a: Tree, b: Tree, la: Links, lb: Links, visited: set<Path>, p: Path)
    requires FirstSeen(a, la, visited) && FirstSeen(b, lb, visited) && visited <= a.Keys && visited <= b.Keys
    requires p in a && p in b && a[p].kind.Regular? && b[p].kind.Regular? && a[p].kind.inode in la
    requires forall q :: q in a && q in b ==> (Linked(a, p, q) <==> Linked(b, p, q))
    ensures b[p].kind.inode in lb
  {
    assert Linked(a, p, la[a[p].kind.inode]);
  }

  /** In trees that are the same, both maps send the next file to the same first path. */
  lemma FirstAgrees(d: Digest, a: Tree, b: Tree, la: Links, lb: Links, visited: set<Path>, p: Path)
    requires Agree(d, a, b, la, lb, visited) && p in a && p in b && a[p].kind.Regular? && b[p].kind.Regular?
    requires SameTrees(a, b)
    ensures SetDefault(la, a[p].kind.inode, p)[a[p].kind.inode] == SetDefault(lb, b[p].kind.inode, p)[b[p].kind.inode]
  {
    if b[p].kind.inode in lb { KnownInBoth(b, a, lb, la, visited, p); }
    if a[p].kind.inode in la {
      KnownInBoth(a, b, la, lb, visited, p);
      assert Linked(a, p, la[a[p].kind.inode]);
    }
  }

  lemma VisitOther(d: Digest, a: Tree, b: Tree, la: Links, lb: Links, visited: set<Path>, p: Path)
    requires Agree(d, a, b, la, lb, visited) && p in a && p in b && AgreeAt(a[p], b[p]) && !a[p].kind.Regular?
    ensures Agree(d, a, b, la, lb, visited + {p})
  {
  }

  lemma FirstSeenStep(t: Tree, links: Links, visited: set<Path>, p: Path)
    requires FirstSeen(t, links, visited) && p in t && t[p].kind.Regular?
    ensures FirstSeen(t, SetDefault(links, t[p].kind.inode, p), visited + {p})
    ensures forall q :: q in visited && q in t && t[q].kind.Regular? ==>
              SetDefault(links, t[p].kind.inode, p)[t[q].kind.inode] == links[t[q].kind.inode]
  {
  }

  lemma VisitRegular(d: Digest, a: Tree, b: Tree, la: Links, lb: Links, visited: set<Path>, p: Path, ma: Links, mb: Links)
    requires Agree(d, a, b, la, lb, visited) && p in a && p in b && p !in visited && AgreeAt(a[p], b[p]) && a[p].kind.Regular?
    requires ma == SetDefault(la, a[p].kind.inode, p) && mb == SetDefault(lb, b[p].kind.inode, p)
    requires ma[a[p].kind.inode] == mb[b[p].kind.inode]
    requires ma[a[p].kind.inode] == p ==> d(a[p].kind.data) == d(b[p].kind.data)
    ensures Agree(d, a, b, ma, mb, visited + {p})
  {
    FirstSeenStep(a, la, visited, p);
    FirstSeenStep(b, lb, visited, p);
    var f := ma[a[p].kind.inode];
    assert f != p ==> f in visited && la[a[f].kind.inode] == f;
    forall q | q in visited + {p} && a[q].kind.Regular?
      ensures ma[a[q].kind.inode] == mb[b[q].kind.inode]
      ensures d(a[ma[a[q].kind.inode]].kind.data) == d(b[ma[a[q].kind.inode]].kind.data)
    {
      if q != p { assert AgreeAt(a[q], b[q]); }
    }
  }

  lemma RootCovers(t: Tree)
    ensures Covered(t, [[]], {})
  {
    forall p | p in t
      ensures exists i :: 0 <= i < 1 && Above([[]][i], p)
    {
      assert Above([[]][0], p);
    }
  }

  // ----- The program -----

  method ListNames(all: set<string>) returns (names: seq<string>)
    ensures Lists(names, all)
  {
    names := [];
    var rest := all;
    while rest != {}
      invariant rest <= all && Lists(names, all - rest)
      decreases |rest|
    {
      var n :| n in rest;
      names, rest := names + [n], rest - {n};
    }
  }

  /** Compare one path; `names` are the children to visit. */
  method Visit(d: Digest, a: Tree, b: Tree, p: Path, la: Links, lb: Links, ghost visited: set<Path>)
    returns (ok: bool, ma: Links, mb: Links, names: seq<string>, hashed: bool)
    requires Agree(d, a, b, la, lb, visited) && p in a && p in b && p !in visited
    ensures ok ==> Agree(d, a, b, ma, mb, visited + {p}) && AgreeAt(a[p], b[p])
    ensures ok ==> if a[p].kind.Directory? then Lists(names, a[p].kind.names) else names == []
    ensures ok ==> |ma| == |la| + if hashed then 1 else 0
    ensures !ok ==> !SameTrees(a, b)
  {
    ok, ma, mb, names, hashed := false, la, lb, [], false;
    var sa, sb := a[p], b[p];
    if !SameMetadata(sa, sb) { return; }
    if sa.xattrs != sb.xattrs { return; }
    if sa.kind.Directory? {
      if sa.kind.names != sb.kind.names { return; }
      names := ListNames(sa.kind.names);
    } else if sa.kind.Symlink? {
      if sa.kind.target != sb.kind.target { return; }
    } else if sa.kind.Regular? {
      if SameTrees(a, b) { FirstAgrees(d, a, b, la, lb, visited, p); }
      ma, mb := SetDefault(la, sa.kind.inode, p), SetDefault(lb, sb.kind.inode, p);
      if ma[sa.kind.inode] != mb[sb.kind.inode] { return; }
      if |sa.kind.data| != |sb.kind.data| { return; }
      if ma[sa.kind.inode] == p {
        if d(sa.kind.data) != d(sb.kind.data) { return; }
        hashed := true;
      }
      VisitRegular(d, a, b, la, lb, visited, p, ma, mb);
      ok := true;
      return;
    } else if sa.kind.device != sb.kind.device {
      return;
    }
    VisitOther(d, a, b, la, lb, visited, p);
    ok := true;
  }

  /** Pop one path, compare it, and push its children. */
  method Advance(d: Digest, a: Tree, b: Tree, stack: seq<Path>, la: Links, lb: Links, ghost visited: set<Path>)
    returns (ok: bool, next: seq<Path>, ma: Links, mb: Links, hashed: bool, ghost now: set<Path>)
    requires WellFormed(a) && WellFormed(b) && stack != []
    requires Walking(a, b, stack, visited) && Agree(d, a, b, la, lb, visited)
    ensures now == visited + {stack[|stack| - 1]} && |now| == |visited| + 1
    ensures stack[|stack| - 1] in a && stack[|stack| - 1] !in visited
    ensures ok ==> Walking(a, b, next, now) && Agree(d, a, b, ma, mb, now) && |ma| == |la| + if hashed then 1 else 0
    ensures !ok ==> !SameTrees(a, b)
  {
    var rest, p := stack[..|stack| - 1], stack[|stack| - 1];
    now := visited + {p};
    PopWalking(a, b, stack, rest, p, visited);
    var names;
    ok, ma, mb, names, hashed := Visit(d, a, b, p, la, lb, visited);
    next := rest + Children(p, names);
    if ok { Push(a, b, rest, p, visited, names); }
  }

  /** Succeeds exactly on trees that are the same, visiting every path once and hashing one file per inode. */
  method Compare(d: Digest, a: Tree, b: Tree) returns (ok: bool, entries: nat, files: nat)
    requires WellFormed(a) && WellFormed(b) && Consistent(a) && Consistent(b) && NoCollision(d, a, b)
    ensures ok <==> SameTrees(a, b)
    ensures ok ==> entries == |a| && files == |Inodes(a)|
  {
    var stack: seq<Path> := [[]];
    var sourceLinks: Links, resultLinks: Links := map[], map[];
    ghost var visited: set<Path> := {};
    entries, files := 0, 0;
    StartsWalking(d, a, b);
    while stack != []
      invariant Walking(a, b, stack, visited)
      invariant Agree(d, a, b, sourceLinks, resultLinks, visited)
      invariant entries == |visited| && files == |sourceLinks|
      decreases a.Keys - visited
    {
      var hashed;
      ok, stack, sourceLinks, resultLinks, hashed, visited := Advance(d, a, b, stack, sourceLinks, resultLinks, visited);
      if !ok { return false, entries, files; }
      entries, files := entries + 1, files + if hashed then 1 else 0;
    }
    AllVisited(d, a, b, sourceLinks, resultLinks, visited);
    return true, entries, files;
  }

  lemma StartsWalking(d: Digest, a: Tree, b: Tree)
    requires WellFormed(a) && WellFormed(b)
    ensures Walking(a, b, [[]], {}) && Agree(d, a, b, map[], map[], {})
  {
    RootCovers(a);
    RootCovers(b);
  }

  lemma AllVisited(d: Digest, a: Tree, b: Tree, la: Links, lb: Links, visited: set<Path>)
    requires Walking(a, b, [], visited) && Agree(d, a, b, la, lb, visited)
    requires Consistent(a) && Consistent(b) && NoCollision(d, a, b)
    ensures SameTrees(a, b) && |visited| == |a| && |la| == |Inodes(a)|
  {
    assert visited == a.Keys == b.Keys;
    assert la.Keys == Inodes(a);
    AgreedIsSame(d, a, b, la, lb, visited);
  }

  /** What the stack is for: it waits exactly for the paths of either tree that are still to be visited. */
  ghost predicate Walking(a: Tree, b: Tree, stack: seq<Path>, visited: set<Path>) {
    && Fresh(stack, visited) && Covered(a, stack, visited) && Covered(b, stack, visited)
    && forall i :: 0 <= i < |stack| ==> stack[i] in a && stack[i] in b
  }

  lemma PopWalking(a: Tree, b: Tree, stack: seq<Path>, rest: seq<Path>, p: Path, visited: set<Path>)
    requires Walking(a, b, stack, visited) && stack != []
    requires rest == stack[..|stack| - 1] && p == stack[|stack| - 1]
    ensures Walking(a, b, rest + [p], visited) && p in a && p in b && p !in visited && |visited + {p}| == |visited| + 1
  {
    assert stack == rest + [p];
    PopFresh(rest, p, visited);
  }

  lemma Push(a: Tree, b: Tree, rest: seq<Path>, p: Path, visited: set<Path>, names: seq<string>)
    requires WellFormed(a) && WellFormed(b) && Walking(a, b, rest + [p], visited) && p in a && p in b && AgreeAt(a[p], b[p])
    requires if a[p].kind.Directory? then Lists(names, a[p].kind.names) else names == []
    ensures Walking(a, b, rest + Children(p, names), visited + {p})
  {
    PushFresh(rest, p, visited, names, set n | n in names);
    PushCovered(a, rest, p, visited, names);
    PushCovered(b, rest, p, visited, names);
    ChildrenExist(a, p, names);
    ChildrenExist(b, p, names);
    assert forall i :: 0 <= i < |rest| ==> (rest + [p])[i] == rest[i];
  }

  lemma ChildrenExist(t: Tree, p: Path, names: seq<string>)
    requires WellFormed(t) && p in t
    requires if t[p].kind.Directory? then Lists(names, t[p].kind.names) else names == []
    ensures forall i :: 0 <= i < |names| ==> Children(p, names)[i] in t
  {
  }
}
