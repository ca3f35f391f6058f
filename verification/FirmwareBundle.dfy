// One firmware bundle: the directory tree, its inventory, and the verified copy into it.
module FirmwareBundle {
  import opened Options
  import opened Words
  import opened FirmwarePolicy

  const MAX_FILE := 64 * 1024 * 1024
  const MAX_TOTAL := 128 * 1024 * 1024

  /** SHA-256 is a parameter; nothing here depends on which function it is. */
  type Sha = Data -> string

  datatype Node = File(data: Data) | Dir | Link

  /** A directory tree: relative path to node. */
  type Tree = map<string, Node>

  /** `p` is one of the directories on the way to `path`. */
  predicate IsParent(p: string, path: string) {
    0 < |p| < |path| && path[|p|] == '/' && path[..|p|] == p
  }

  predicate Opens(t: Tree, path: string) {
    path in t && forall i :: 0 < i < |path| && path[i] == '/' ==> path[..i] in t && t[path[..i]].Dir?
  }

  predicate HoldsEntry(sha: Sha, t: Tree, e: Entry) {
    Opens(t, e.target) && t[e.target].File? && 0 < |t[e.target].data| <= MAX_FILE && sha(t[e.target].data) == e.sha
  }

  function SizeOf(t: Tree, path: string): nat {
    if path in t && t[path].File? then |t[path].data| else 0
  }

  function TotalSize(t: Tree, files: seq<Entry>): nat {
    if files == [] then 0 else TotalSize(t, files[..|files| - 1]) + SizeOf(t, files[|files| - 1].target)
  }

  /** Every entry of the policy is there with its digest, within the limits. */
  predicate Holds(sha: Sha, t: Tree, files: seq<Entry>) {
    (forall i :: 0 <= i < |files| ==> HoldsEntry(sha, t, files[i])) && TotalSize(t, files) <= MAX_TOTAL
  }

  predicate NoLinks(t: Tree) {
    forall p :: p in t ==> !t[p].Link?
  }

  function Targets(files: seq<Entry>): set<string> {
    if files == [] then {} else Targets(files[..|files| - 1]) + {files[|files| - 1].target}
  }

  lemma {:induction false} TargetsOf(files: seq<Entry>)
    ensures forall x :: x in Targets(files) <==> exists k :: 0 <= k < |files| && files[k].target == x
  {
    if files != [] { TargetsOf(files[..|files| - 1]); }
  }

  // ----- Reading files -----

  /** What opening a file and reading it to the end delivered. */
  datatype Source = Refused | Opened(declared: int, chunks: seq<Data>)

  function Flatten(chunks: seq<Data>): Data {
    if chunks == [] then "" else Flatten(chunks[..|chunks| - 1]) + chunks[|chunks| - 1]
  }

  lemma {:induction false} FlattenPrefix(chunks: seq<Data>, n: nat)
    requires n <= |chunks|
    ensures |Flatten(chunks[..n])| <= |Flatten(chunks)|
    decreases |chunks|
  {
    if n < |chunks| {
      FlattenPrefix(chunks[..|chunks| - 1], n);
      assert chunks[..|chunks| - 1][..n] == chunks[..n];
    } else {
      assert chunks[..n] == chunks;
    }
  }

  /** What was read has the size the file declared when it was opened, within the limit, and the expected digest. */
  predicate GoodRead(sha: Sha, r: Source, e: Entry) {
    && r.Opened? && 0 < r.declared <= MAX_FILE
    && |Flatten(r.chunks)| == r.declared && sha(Flatten(r.chunks)) == e.sha
  }

  function SizeRead(r: Source): nat {
    if r.Opened? then |Flatten(r.chunks)| else 0
  }

  function TotalRead(got: seq<Source>): nat {
    if got == [] then 0 else TotalRead(got[..|got| - 1]) + SizeRead(got[|got| - 1])
  }

  predicate AllRead(sha: Sha, got: seq<Source>, files: seq<Entry>)
    requires |got| == |files|
  {
    forall i :: 0 <= i < |files| ==> GoodRead(sha, got[i], files[i])
  }

  /** What the inventory accepts. */
  predicate Inventoried(sha: Sha, got: seq<Source>, files: seq<Entry>)
    requires |got| == |files|
  {
    Accepted(files) && AllRead(sha, got, files) && TotalRead(got) <= MAX_TOTAL
  }

  predicate EntryRead(sha: Sha, r: Source, e: Entry) {
    SafeEntry(e) && GoodRead(sha, r, e)
  }

  /** The first `n` entries are safe and read well. */
  ghost predicate EntriesTo(sha: Sha, got: seq<Source>, files: seq<Entry>, n: nat)
    requires |got| == |files| && n <= |files|
  {
    n == 0 || (EntriesTo(sha, got, files, n - 1) && EntryRead(sha, got[n - 1], files[n - 1]))
  }

  /** The first `n` targets differ. */
  ghost predicate FreshTo(files: seq<Entry>, n: nat)
    requires n <= |files|
  {
    n == 0 || (FreshTo(files, n - 1) && files[n - 1].target !in Targets(files[..n - 1]))
  }

  lemma {:induction false} EntriesToIs(sha: Sha, got: seq<Source>, files: seq<Entry>, n: nat)
    requires |got| == |files| && n <= |files| && EntriesTo(sha, got, files, n)
    ensures forall k :: 0 <= k < n ==> EntryRead(sha, got[k], files[k])
  {
    if n > 0 { EntriesToIs(sha, got, files, n - 1); }
  }

  lemma {:induction false} FreshToIs(files: seq<Entry>, n: nat)
    requires n <= |files| && FreshTo(files, n)
    ensures DistinctTargets(files[..n])
  {
    if n > 0 {
      FreshToIs(files, n - 1);
      TargetsOf(files[..n - 1]);
      forall i, j | 0 <= i < j < n
        ensures files[i].target != files[j].target
      {
        if j < n - 1 { assert files[..n - 1][i] == files[i] && files[..n - 1][j] == files[j]; } else { assert files[..n - 1][i] == files[i]; }
      }
    }
  }

  lemma TotalReadStep(got: seq<Source>, n: nat)
    requires 0 < n <= |got|
    ensures TotalRead(got[..n]) == TotalRead(got[..n - 1]) + SizeRead(got[n - 1])
  {
    assert got[..n][..n - 1] == got[..n - 1];
  }

  lemma {:induction false} TotalReadPrefix(got: seq<Source>, n: nat)
    requires n <= |got|
    ensures TotalRead(got[..n]) <= TotalRead(got)
    decreases |got| - n
  {
    if n < |got| {
      TotalReadStep(got, n + 1);
      TotalReadPrefix(got, n + 1);
    } else {
      assert got[..n] == got;
    }
  }

  /** An entry that stops the inventory rules the policy out. */
  lemma InventoryStops(sha: Sha, got: seq<Source>, files: seq<Entry>, n: nat)
    requires |got| == |files| && n < |files|
    requires !EntryRead(sha, got[n], files[n]) || files[n].target in Targets(files[..n]) || TotalRead(got[..n + 1]) > MAX_TOTAL
    ensures !Inventoried(sha, got, files)
  {
    TargetsOf(files[..n]);
    TotalReadPrefix(got, n + 1);
    if files[n].target in Targets(files[..n]) {
      var k :| 0 <= k < n && files[..n][k].target == files[n].target;
      assert files[k].target == files[n].target;
    }
  }

  lemma {:induction false} InventoryEnds(sha: Sha, got: seq<Source>, files: seq<Entry>)
    requires |got| == |files| && 1 <= |files| <= MAX_ENTRIES && TotalRead(got) <= MAX_TOTAL
    requires EntriesTo(sha, got, files, |files|) && FreshTo(files, |files|)
    ensures Inventoried(sha, got, files)
  {
    EntriesToIs(sha, got, files, |files|);
    FreshToIs(files, |files|);
    assert files[..|files|] == files;
  }

  /** Read one file to its end, hashing it; a file that changed its size meanwhile is refused. */
  method CheckEntry(sha: Sha, r: Source, e: Entry) returns (size: Option<nat>)
    ensures size.Some? <==> EntryRead(sha, r, e)
    ensures size.Some? ==> size.value == SizeRead(r)
  {
    if !SafeTarget(e.target) || !IsDigest(e.sha) { return None; }
    if r.Refused? || !(0 < r.declared <= MAX_FILE) { return None; }
    var count, hashed := 0, "";
    for i := 0 to |r.chunks|
      invariant hashed == Flatten(r.chunks[..i]) && count == |hashed|
    {
      FlattenPrefix(r.chunks, i + 1);
      assert r.chunks[..i + 1][..i] == r.chunks[..i];
      count, hashed := count + |r.chunks[i]|, hashed + r.chunks[i];
      if count > MAX_FILE { return None; }
    }
    assert r.chunks[..|r.chunks|] == r.chunks;
    if count != r.declared || sha(hashed) != e.sha { return None; }
    return Some(count);
  }

  /** Accepts exactly an accepted policy whose files were all read well, whatever happened to them meanwhile. */
  method Inventory(sha: Sha, got: seq<Source>, files: seq<Entry>) returns (total: Option<nat>)
    requires |got| == |files|
    ensures total.Some? <==> Inventoried(sha, got, files)
    ensures total.Some? ==> total.value == TotalRead(got)
  {
    if |files| == 0 || |files| > MAX_ENTRIES { return None; }
    var seen: set<string>, sum := {}, 0;
    for i := 0 to |files|
      invariant EntriesTo(sha, got, files, i) && FreshTo(files, i)
      invariant seen == Targets(files[..i]) && sum == TotalRead(got[..i]) <= MAX_TOTAL
    {
      assert files[..i + 1][..i] == files[..i];
      TotalReadStep(got, i + 1);
      var size := CheckEntry(sha, got[i], files[i]);
      if size.None? || files[i].target in seen || sum + size.value > MAX_TOTAL {
        InventoryStops(sha, got, files, i);
        return None;
      }
      seen, sum := seen + {files[i].target}, sum + size.value;
    }
    assert got[..|files|] == got;
    InventoryEnds(sha, got, files);
    return Some(sum);
  }

  // ----- Reading a tree that nobody changes -----

  function ReadOf(t: Tree, path: string): Source {
    if Opens(t, path) && t[path].File? then Opened(|t[path].data|, [t[path].data]) else Refused
  }

  function ReadsOf(t: Tree, files: seq<Entry>): (got: seq<Source>)
    ensures |got| == |files|
  {
    seq(|files|, i requires 0 <= i < |files| => ReadOf(t, files[i].target))
  }

  lemma ReadOfIs(sha: Sha, t: Tree, e: Entry)
    ensures GoodRead(sha, ReadOf(t, e.target), e) <==> HoldsEntry(sha, t, e)
    ensures HoldsEntry(sha, t, e) ==> SizeRead(ReadOf(t, e.target)) == SizeOf(t, e.target)
  {
    if Opens(t, e.target) && t[e.target].File? {
      var data := t[e.target].data;
      assert [data][..0] == [] && "" + data == data;
      assert Flatten([data]) == data;
    }
  }

  lemma {:induction false} ReadsTotal(sha: Sha, t: Tree, got: seq<Source>, files: seq<Entry>, n: nat)
    requires |got| == |files| && n <= |files|
    requires forall i :: 0 <= i < n ==> got[i] == ReadOf(t, files[i].target) && HoldsEntry(sha, t, files[i])
    ensures TotalRead(got[..n]) == TotalSize(t, files[..n])
  {
    if n > 0 {
      ReadsTotal(sha, t, got, files, n - 1);
      ReadOfIs(sha, t, files[n - 1]);
      TotalReadStep(got, n);
      assert files[..n][..n - 1] == files[..n - 1];
    }
  }

  lemma {:induction false} ReadsAreHeld(sha: Sha, t: Tree, got: seq<Source>, files: seq<Entry>)
    requires got == ReadsOf(t, files)
    ensures AllRead(sha, got, files) && TotalRead(got) <= MAX_TOTAL <==> Holds(sha, t, files)
    ensures Holds(sha, t, files) ==> TotalRead(got) == TotalSize(t, files)
  {
    forall i | 0 <= i < |files|
      ensures GoodRead(sha, got[i], files[i]) <==> HoldsEntry(sha, t, files[i])
    {
      ReadOfIs(sha, t, files[i]);
    }
    if forall i :: 0 <= i < |files| ==> HoldsEntry(sha, t, files[i]) {
      ReadsTotal(sha, t, got, files, |files|);
      assert got[..|files|] == got && files[..|files|] == files;
    }
  }

  /** The inventory of a tree accepts exactly an accepted policy that the tree holds. */
  method InventoryOf(sha: Sha, t: Tree, files: seq<Entry>) returns (total: Option<nat>)
    ensures total.Some? <==> Accepted(files) && Holds(sha, t, files)
    ensures total.Some? ==> total.value == TotalSize(t, files)
  {
    var got := ReadsOf(t, files);
    total := Inventory(sha, got, files);
    ReadsAreHeld(sha, t, got, files);
  }

  // ----- Copying -----

  /** Directories on the way to `path` are made as needed; None if something else is in the way. */
  function MakeParents(t: Tree, path: string, upTo: nat): Option<Tree>
    requires upTo <= |path|
  {
    if upTo <= 1 then Some(t)
    else
      var before := MakeParents(t, path, upTo - 1);
      if before.None? || path[upTo - 1] != '/' then before
      else if path[..upTo - 1] !in before.value then Some(before.value[path[..upTo - 1] := Dir])
      else if before.value[path[..upTo - 1]].Dir? then before
      else None
  }

  /** Exclusive creation of an empty file, with its directories. */
  function Create(t: Tree, path: string): Option<Tree> {
    var made := MakeParents(t, path, |path|);
    if made.None? || path in made.value then None else Some(made.value[path := File("")])
  }

  function Append(t: Tree, path: string, chunk: Data): Tree
    requires path in t && t[path].File?
  {
    t[path := File(t[path].data + chunk)]
  }

  lemma {:induction false} MakeParentsIs(t: Tree, path: string, upTo: nat)
    requires upTo <= |path|
    ensures var r := MakeParents(t, path, upTo);
      && (r.Some? <==> forall i :: 0 < i < upTo && path[i] == '/' && path[..i] in t ==> t[path[..i]].Dir?)
      && (r.Some? ==> forall p :: p in t ==> p in r.value && r.value[p] == t[p])
      && (r.Some? ==> forall p :: p in r.value && p !in t ==> r.value[p] == Dir && IsParent(p, path) && |p| < upTo)
      && (r.Some? ==> forall i :: 0 < i < upTo && path[i] == '/' ==> path[..i] in r.value && r.value[path[..i]] == Dir)
  {
    if upTo > 1 {
      MakeParentsIs(t, path, upTo - 1);
      forall i, j | 0 < i < j < upTo
        ensures path[..i] != path[..j]
      {
        assert |path[..i]| != |path[..j]|;
      }
    }
  }

  class Workspace {
    var tree: Tree

    constructor ()
      ensures tree == map[]
    {
      tree := map[];
    }

    /** One file: what is stored is exactly what was read and hashed, whatever the source does meanwhile. */
    method CopyFile(sha: Sha, source: Source, e: Entry, total: nat) returns (sum: Option<nat>)
      modifies this
      ensures old(NoLinks(tree)) ==> NoLinks(tree)
      ensures sum.Some? ==>
                && source.Opened? && e.target !in old(tree) && HoldsEntry(sha, tree, e)
                && tree[e.target] == File(Flatten(source.chunks)) && |Flatten(source.chunks)| == source.declared
                && sum.value == total + |Flatten(source.chunks)| <= MAX_TOTAL
                && (forall p :: p in old(tree) ==> p in tree && tree[p] == old(tree)[p])
                && (forall p :: p in tree && p !in old(tree) && p != e.target ==> tree[p] == Dir)
    {
      if source.Refused? || !(0 < source.declared <= MAX_FILE) { return None; }
      var created := Create(tree, e.target);
      if created.None? { return None; }
      MakeParentsIs(tree, e.target, |e.target|);
      tree := created.value;
      ghost var base := tree;
      var hashed, size, all := "", 0, total;
      for i := 0 to |source.chunks|
        invariant hashed == Flatten(source.chunks[..i]) && size == |hashed| && all == total + size
        invariant tree == base[e.target := File(hashed)]
        invariant i > 0 ==> size <= MAX_FILE && all <= MAX_TOTAL
      {
        var chunk := source.chunks[i];
        size, all := size + |chunk|, all + |chunk|;
        if size > MAX_FILE || all > MAX_TOTAL { return None; }
        assert source.chunks[..i + 1][..i] == source.chunks[..i];
        hashed := hashed + chunk;
        tree := Append(tree, e.target, chunk);
      }
      assert source.chunks[..|source.chunks|] == source.chunks;
      if size != source.declared || sha(hashed) != e.sha { return None; }
      return Some(all);
    }

    /** All files of a policy into an empty workspace. Success means the workspace holds the policy. */
    method CopyVerified(sha: Sha, sources: seq<Source>, files: seq<Entry>) returns (ok: bool)
      requires tree == map[] && |sources| == |files|
      modifies this
      ensures NoLinks(tree)
      ensures ok ==> Holds(sha, tree, files)
      ensures ok ==> forall i :: 0 <= i < |files| ==>
                sources[i].Opened? && tree[files[i].target] == File(Flatten(sources[i].chunks))
    {
      var total := 0;
      for i := 0 to |files|
        invariant NoLinks(tree)
        invariant forall k :: 0 <= k < i ==> HoldsEntry(sha, tree, files[k])
        invariant forall k :: 0 <= k < i ==> sources[k].Opened? && tree[files[k].target] == File(Flatten(sources[k].chunks))
        invariant total == TotalSize(tree, files[..i]) <= MAX_TOTAL
      {
        ghost var before := tree;
        var sum := CopyFile(sha, sources[i], files[i], total);
        if sum.None? { return false; }
        HeldStays(sha, before, tree, files, i);
        total := sum.value;
        assert files[..i + 1][..i] == files[..i];
      }
      assert files[..|files|] == files;
      return true;
    }
  }

  lemma {:induction false} HeldStays(sha: Sha, before: Tree, after: Tree, files: seq<Entry>, n: nat)
    requires n <= |files| && forall p :: p in before ==> p in after && after[p] == before[p]
    requires forall k :: 0 <= k < n ==> HoldsEntry(sha, before, files[k])
    ensures forall k :: 0 <= k < n ==> HoldsEntry(sha, after, files[k])
    ensures TotalSize(after, files[..n]) == TotalSize(before, files[..n])
  {
    if n > 0 {
      HeldStays(sha, before, after, files, n - 1);
      assert files[..n][..n - 1] == files[..n - 1];
    }
  }

  // ----- A policy of one small file -----

  function OneFile(sha: Sha, target: string): seq<Entry> {
    [Entry(target, sha("x"))]
  }

  lemma {:induction false} HoldsOne(sha: Sha, t: Tree, target: string)
    requires SafeTarget(target) && IsDigest(sha("x")) && Opens(t, target) && t[target] == File("x")
    ensures Accepted(OneFile(sha, target)) && Holds(sha, t, OneFile(sha, target))
  {
    var files := OneFile(sha, target);
    assert files[..0] == [] && TotalSize(t, files) == 1;
  }
}
