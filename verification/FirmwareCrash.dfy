// Provisioning as single file-system operations on a disk that forgets: whatever has not been
// synced when the machine stops may afterwards be missing or hold anything.
module FirmwareCrash {
  import opened Options
  import opened Words
  import opened FirmwarePolicy
  import opened FirmwareBundle
  import opened FirmwareStore

  // ----- What a crash leaves of one tree -----

  /** What is on the disk of one tree: contents of files, and names in their directories. */
  datatype Disk = Disk(contents: set<string>, names: set<string>)

  const NOTHING := Disk({}, {})

  function Everything(t: Tree): Disk {
    Disk(t.Keys, t.Keys)
  }

  predicate Firm(t: Tree, d: Disk, p: string)
    requires p in t
  {
    p in d.names && (t[p].File? ==> p in d.contents)
  }

  /** The node and all directories above it are on the disk. */
  ghost predicate Solid(t: Tree, d: Disk, p: string) {
    p in t && Firm(t, d, p) && forall q :: q in t && IsParent(q, p) ==> Firm(t, d, q)
  }

  /** What may be found of `t` after a crash: nodes that are not solid may be gone or changed. */
  ghost predicate Remains(t: Tree, d: Disk, left: Tree) {
    left.Keys <= t.Keys && forall p :: p in t && Solid(t, d, p) ==> p in left && left[p] == t[p]
  }

  ghost predicate AllFirm(t: Tree, d: Disk) {
    forall p :: p in t ==> Firm(t, d, p)
  }

  /** A tree survives every crash exactly when each of its nodes has been synced. */
  lemma SurvivesExactly(t: Tree, d: Disk)
    ensures AllFirm(t, d) <==> forall left :: Remains(t, d, left) ==> left == t
  {
    if AllFirm(t, d) {
      forall left | Remains(t, d, left)
        ensures left == t
      {
        assert forall p :: p in t ==> Solid(t, d, p);
      }
    } else {
      var p :| p in t && !Firm(t, d, p);
      DropIsPossible(t, d, p);
      assert p !in t - {p};
    }
  }

  /** A node that has not been synced may be gone. */
  lemma DropIsPossible(t: Tree, d: Disk, p: string)
    requires p in t && !Firm(t, d, p)
    ensures Remains(t, d, t - {p})
  {
  }

  // ----- Directories -----

  function ParentEnd(p: string, n: nat): (e: nat)
    requires n <= |p|
    ensures e <= n && (e > 0 ==> e < n && p[e] == '/')
  {
    if n == 0 then 0 else if p[n - 1] == '/' then n - 1 else ParentEnd(p, n - 1)
  }

  /** The directory that lists `p`; the root of the tree is the empty path. */
  function ParentOf(p: string): string {
    p[..ParentEnd(p, |p|)]
  }

  function Directories(t: Tree): set<string> {
    {""} + set p | p in t && t[p].Dir?
  }

  function Listed(t: Tree, directories: set<string>): set<string> {
    set p | p in t && ParentOf(p) in directories
  }

  /** Every node is listed by a directory of the tree. */
  predicate Nested(t: Tree) {
    forall p :: p in t ==> ParentOf(p) in Directories(t)
  }

  lemma CreateNests(t: Tree, path: string)
    requires Nested(t) && NoLinks(t) && Create(t, path).Some?
    ensures Nested(Create(t, path).value) && NoLinks(Create(t, path).value)
    ensures Opens(Create(t, path).value, path)
  {
    var now := Create(t, path).value;
    MakeParentsIs(t, path, |path|);
    forall p | p in now
      ensures ParentOf(p) in Directories(now)
    {
      var e := ParentEnd(p, |p|);
      if p in t {
        assert ParentOf(p) in Directories(t);
      } else if e > 0 {
        assert p == path || p == path[..|p|];
        assert path[..e] == p[..e] && path[e] == '/';
      }
    }
  }

  // ----- The operations -----

  datatype Phase =
    | Idle
    | Between(temp: string, files: seq<Entry>, next: nat, total: nat)
    | Writing(temp: string, files: seq<Entry>, next: nat, total: nat, declared: nat)
    | Checked(temp: string, files: seq<Entry>, synced: set<string>)
    | Renamed

  /** `disks` says what has been synced of each tree; `unsynced` are the published names whose rename a crash
      could still undo. */
  datatype State = State(slots: Slots, disks: map<string, Disk>, phase: Phase, unsynced: set<string>)

  datatype Step =
    | Start(files: seq<Entry>, temp: string)
    | CreateFile(declared: nat)
    | WriteChunk(chunk: Data)
    | CloseFile
    | Check
    | SyncDirectory(directory: string)
    | Rename
    | SyncStore
    | Fail(rest: Option<Tree>)
    | Crash(undone: set<string>, junk: Slots, left: map<string, Tree>)

  function TreeAt(s: State, name: string): Tree {
    if name in s.slots && s.slots[name].Bundle? then s.slots[name].tree else map[]
  }

  function DiskAt(s: State, name: string): Disk {
    if name in s.disks then s.disks[name] else NOTHING
  }

  /** When a step can happen. Bytes, sizes, failures and crashes are up to the environment. */
  ghost predicate CanStep(sha: Sha, s: State, step: Step) {
    match step
    case Start(files, temp) =>
      s.phase == Idle && Accepted(files) && IdOf(sha, files) !in s.slots && temp !in s.slots && !IsDigest(temp)
    case CreateFile(declared) =>
      && s.phase.Between? && s.phase.next < |s.phase.files| && 0 < declared <= MAX_FILE
      && Create(TreeAt(s, s.phase.temp), s.phase.files[s.phase.next].target).Some?
    case WriteChunk(chunk) =>
      && s.phase.Writing? && s.phase.next < |s.phase.files|
      && var size := SizeOf(TreeAt(s, s.phase.temp), s.phase.files[s.phase.next].target) + |chunk|;
      size <= MAX_FILE && s.phase.total + size <= MAX_TOTAL
    case CloseFile =>
      && s.phase.Writing? && s.phase.next < |s.phase.files|
      && var e, tree := s.phase.files[s.phase.next], TreeAt(s, s.phase.temp);
      e.target in tree && tree[e.target].File? && |tree[e.target].data| == s.phase.declared && sha(tree[e.target].data) == e.sha
    case Check =>
      s.phase.Between? && s.phase.next == |s.phase.files| && Holds(sha, TreeAt(s, s.phase.temp), s.phase.files)
    case SyncDirectory(directory) => s.phase.Checked? && directory in Directories(TreeAt(s, s.phase.temp))
    case Rename =>
      // All directories have been walked. A rename onto an existing name succeeds only if that is an empty directory.
      && s.phase.Checked? && Directories(TreeAt(s, s.phase.temp)) <= s.phase.synced
      && (IdOf(sha, s.phase.files) in s.slots ==> s.slots[IdOf(sha, s.phase.files)] == Bundle(map[]))
    case SyncStore => s.phase == Renamed
    case Fail(left) => s.phase != Idle
    case Crash(undone, _, left) =>
      && undone <= s.unsynced
      && forall n :: n in left ==> n in s.slots && s.slots[n].Bundle? && Remains(s.slots[n].tree, DiskAt(s, n), left[n])
  }

  function Put(s: State, name: string, tree: Tree, disk: Disk, phase: Phase): State {
    State(s.slots[name := Bundle(tree)], s.disks[name := disk], phase, s.unsynced)
  }

  /** The tree built so far gets its published name. */
  function RenameNow(sha: Sha, s: State): State
    requires s.phase.Checked?
  {
    var id, temp := IdOf(sha, s.phase.files), s.phase.temp;
    State((s.slots - {temp})[id := Bundle(TreeAt(s, temp))], s.disks[id := DiskAt(s, temp)], Renamed, s.unsynced + {id})
  }

  /** What a crash leaves of the store: unpublished names may come back with any content, an unsynced rename may
      be undone, and of a published tree remains what was on the disk. */
  function Found(s: State, undone: set<string>, junk: Slots, left: map<string, Tree>): Slots {
    (map n | n in junk && !IsDigest(n) :: junk[n])
    + (map n | n in s.slots && IsDigest(n) && n !in undone :: if n in left then Bundle(left[n]) else s.slots[n])
  }

  function OnDisk(slots: Slots): map<string, Disk> {
    map n | n in slots && slots[n].Bundle? :: Everything(slots[n].tree)
  }

  function After(sha: Sha, s: State, step: Step): State
    requires CanStep(sha, s, step)
  {
    match step
    case Start(files, temp) => Put(s, temp, map[], NOTHING, Between(temp, files, 0, 0))
    case CreateFile(declared) =>
      var p, tree, disk := s.phase, TreeAt(s, s.phase.temp), DiskAt(s, s.phase.temp);
      var path := p.files[p.next].target;
      Put(s, p.temp, Create(tree, path).value, Disk(disk.contents - {path}, disk.names * tree.Keys),
          Writing(p.temp, p.files, p.next, p.total, declared))
    case WriteChunk(chunk) =>
      var p, tree, disk := s.phase, TreeAt(s, s.phase.temp), DiskAt(s, s.phase.temp);
      var path := p.files[p.next].target;
      if path in tree && tree[path].File?
      then Put(s, p.temp, Append(tree, path, chunk), Disk(disk.contents - {path}, disk.names), p) else s
    case CloseFile =>
      var p, tree, disk := s.phase, TreeAt(s, s.phase.temp), DiskAt(s, s.phase.temp);
      var path := p.files[p.next].target;
      Put(s, p.temp, tree, Disk(disk.contents + {path}, disk.names),
          Between(p.temp, p.files, p.next + 1, p.total + SizeOf(tree, path)))
    case Check => s.(phase := Checked(s.phase.temp, s.phase.files, {}))
    case SyncDirectory(directory) =>
      var p, tree, disk := s.phase, TreeAt(s, s.phase.temp), DiskAt(s, s.phase.temp);
      Put(s, p.temp, tree, Disk(disk.contents, disk.names + Listed(tree, {directory})),
          Checked(p.temp, p.files, p.synced + {directory}))
    case Rename => RenameNow(sha, s)
    case SyncStore => s.(phase := Idle, unsynced := {})
    case Fail(left) =>
      // The temporary directory is removed, or what could not be removed stays.
      if s.phase.Renamed? then s.(phase := Idle)
      else if left.None? then s.(slots := s.slots - {s.phase.temp}, phase := Idle)
      else Put(s, s.phase.temp, left.value, NOTHING, Idle)
    case Crash(undone, junk, left) =>
      var found := Found(s, undone, junk, left);
      State(found, OnDisk(found), Idle, {})
  }

  // ----- The invariant -----

  /** The tree holds the first `next` files, of `total` bytes, in nested directories. */
  ghost predicate Filled(sha: Sha, t: Tree, files: seq<Entry>, next: nat, total: nat) {
    && Accepted(files) && next <= |files| && NoLinks(t) && Nested(t)
    && (forall k :: 0 <= k < next ==> HoldsEntry(sha, t, files[k]))
    && TotalSize(t, files[..next]) == total <= MAX_TOTAL
  }

  /** All file contents but that of `open` are on the disk. */
  ghost predicate Flushed(t: Tree, d: Disk, open: set<string>) {
    forall p :: p in t && t[p].File? && p !in open ==> p in d.contents
  }

  /** One file is being written. */
  ghost predicate Partial(t: Tree, d: Disk, path: string, total: nat, declared: nat) {
    && Opens(t, path) && t[path].File? && |t[path].data| <= MAX_FILE && total + |t[path].data| <= MAX_TOTAL
    && 0 < declared <= MAX_FILE && Flushed(t, d, {path})
  }

  /** The tree is complete and its files are on the disk; its names are, as far as their directories were synced. */
  ghost predicate Complete(sha: Sha, t: Tree, d: Disk, files: seq<Entry>, synced: set<string>) {
    && Accepted(files) && NoLinks(t) && Nested(t) && Holds(sha, t, files)
    && Flushed(t, d, {}) && d.names == Listed(t, synced)
  }

  ghost predicate PhaseInvariant(sha: Sha, s: State) {
    match s.phase
    case Idle => true
    case Renamed => true
    case Between(temp, files, next, total) =>
      && !IsDigest(temp) && Filled(sha, TreeAt(s, temp), files, next, total)
      && Flushed(TreeAt(s, temp), DiskAt(s, temp), {}) && DiskAt(s, temp).names == {}
    case Writing(temp, files, next, total, declared) =>
      && !IsDigest(temp) && Filled(sha, TreeAt(s, temp), files, next, total) && next < |files|
      && Partial(TreeAt(s, temp), DiskAt(s, temp), files[next].target, total, declared) && DiskAt(s, temp).names == {}
    case Checked(temp, files, synced) =>
      !IsDigest(temp) && Complete(sha, TreeAt(s, temp), DiskAt(s, temp), files, synced)
  }

  /** Every published tree is on the disk, down to the last name. */
  ghost predicate PublishedFirm(s: State) {
    forall id :: id in s.slots && IsDigest(id) && s.slots[id].Bundle? ==> AllFirm(s.slots[id].tree, DiskAt(s, id))
  }

  ghost predicate Invariant(sha: Sha, s: State) {
    Sound(sha, s.slots) && PublishedFirm(s) && PhaseInvariant(sha, s)
  }

  // ----- Each operation keeps it -----

  /** Writing to an unpublished tree leaves everything published alone. */
  lemma PutApart(sha: Sha, s: State, name: string, tree: Tree, disk: Disk, phase: Phase)
    requires Sound(sha, s.slots) && PublishedFirm(s) && !IsDigest(name)
    ensures var t := Put(s, name, tree, disk, phase);
      && Sound(sha, t.slots) && PublishedFirm(t) && TreeAt(t, name) == tree && DiskAt(t, name) == disk
      && Kept(s.slots, t.slots, {}) && t.slots.Keys == s.slots.Keys + {name}
  {
    TemporarySound(sha, s.slots, name, Bundle(tree));
    forall id | id in s.slots && IsDigest(id) && s.slots[id].Bundle?
      ensures AllFirm(s.slots[id].tree, DiskAt(Put(s, name, tree, disk, phase), id))
    {
      assert AllFirm(s.slots[id].tree, DiskAt(s, id));
    }
  }

  lemma NotYetCopied(files: seq<Entry>, next: nat)
    requires Accepted(files) && next < |files|
    ensures forall k :: 0 <= k < next ==> files[k].target != files[next].target
  {
  }

  lemma CreateFills(sha: Sha, t: Tree, d: Disk, files: seq<Entry>, next: nat, total: nat)
    requires Filled(sha, t, files, next, total) && next < |files| && Flushed(t, d, {})
    requires Create(t, files[next].target).Some?
    ensures var path := files[next].target; var now := Create(t, path).value;
      && Filled(sha, now, files, next, total) && Opens(now, path) && now[path] == File("")
      && Flushed(now, Disk(d.contents - {path}, d.names * t.Keys), {path})
  {
    var path := files[next].target;
    CreateNests(t, path);
    MakeParentsIs(t, path, |path|);
    HeldStays(sha, t, Create(t, path).value, files, next);
  }

  /** Writing to one file leaves what other files hold. */
  lemma {:induction false} AppendApart(sha: Sha, t: Tree, path: string, chunk: Data, files: seq<Entry>, next: nat)
    requires path in t && t[path].File? && next <= |files|
    requires forall k :: 0 <= k < next ==> HoldsEntry(sha, t, files[k]) && files[k].target != path
    ensures var now := Append(t, path, chunk);
      && (forall k :: 0 <= k < next ==> HoldsEntry(sha, now, files[k]))
      && TotalSize(now, files[..next]) == TotalSize(t, files[..next])
  {
    if next > 0 {
      AppendApart(sha, t, path, chunk, files, next - 1);
      assert files[..next][..next - 1] == files[..next - 1];
    }
  }

  lemma AppendFills(sha: Sha, t: Tree, d: Disk, files: seq<Entry>, next: nat, total: nat, declared: nat, chunk: Data)
    requires Filled(sha, t, files, next, total) && next < |files| && Partial(t, d, files[next].target, total, declared)
    requires var size := SizeOf(t, files[next].target) + |chunk|; size <= MAX_FILE && total + size <= MAX_TOTAL
    ensures var path := files[next].target; var now := Append(t, path, chunk);
      && Filled(sha, now, files, next, total)
      && Partial(now, Disk(d.contents - {path}, d.names), path, total, declared)
  {
    NotYetCopied(files, next);
    AppendApart(sha, t, files[next].target, chunk, files, next);
    var now := Append(t, files[next].target, chunk);
    assert Directories(now) == Directories(t);
  }

  lemma CloseFills(sha: Sha, t: Tree, d: Disk, files: seq<Entry>, next: nat, total: nat, declared: nat)
    requires Filled(sha, t, files, next, total) && next < |files| && Partial(t, d, files[next].target, total, declared)
    requires |t[files[next].target].data| == declared && sha(t[files[next].target].data) == files[next].sha
    ensures var path := files[next].target;
      && Filled(sha, t, files, next + 1, total + SizeOf(t, path))
      && Flushed(t, Disk(d.contents + {path}, d.names), {})
  {
    assert files[..next + 1][..next] == files[..next];
  }

  lemma SyncCompletes(sha: Sha, t: Tree, d: Disk, files: seq<Entry>, synced: set<string>, directory: string)
    requires Complete(sha, t, d, files, synced)
    ensures Complete(sha, t, Disk(d.contents, d.names + Listed(t, {directory})), files, synced + {directory})
  {
    assert Listed(t, synced) + Listed(t, {directory}) == Listed(t, synced + {directory});
  }

  /** A complete tree survives every crash exactly when all directories that list something were synced. */
  lemma SyncsDecide(sha: Sha, t: Tree, d: Disk, files: seq<Entry>, synced: set<string>)
    requires Complete(sha, t, d, files, synced)
    ensures AllFirm(t, d) <==> forall p :: p in t ==> ParentOf(p) in synced
    ensures Directories(t) <= synced ==> AllFirm(t, d)
  {
  }

  lemma RenameKeeps(sha: Sha, s: State)
    requires Digests(sha) && Invariant(sha, s) && CanStep(sha, s, Rename)
    ensures var t := After(sha, s, Rename); Invariant(sha, t) && Kept(s.slots, t.slots, {})
    ensures var t := After(sha, s, Rename); t.unsynced <= s.unsynced + (t.slots.Keys - s.slots.Keys)
  {
    var p, id, tree := s.phase, IdOf(sha, s.phase.files), TreeAt(s, s.phase.temp);
    if id in s.slots { VerifiedNonempty(sha, s.slots[id].tree, id); }
    SyncsDecide(sha, tree, DiskAt(s, p.temp), p.files, p.synced);
    TemporarySound(sha, s.slots, p.temp, Other);
    PublishSound(sha, s.slots - {p.temp}, id, p.files, tree);
    RenameFirm(sha, s);
  }

  lemma RenameFirm(sha: Sha, s: State)
    requires PublishedFirm(s) && s.phase.Checked? && AllFirm(TreeAt(s, s.phase.temp), DiskAt(s, s.phase.temp))
    ensures PublishedFirm(RenameNow(sha, s))
  {
  }

  /** A crash finds every published tree as it was, because all of it was on the disk. */
  lemma CrashKeeps(sha: Sha, s: State, undone: set<string>, junk: Slots, left: map<string, Tree>)
    requires Sound(sha, s.slots) && PublishedFirm(s) && CanStep(sha, s, Crash(undone, junk, left))
    ensures var t := After(sha, s, Crash(undone, junk, left)); Invariant(sha, t) && Kept(s.slots, t.slots, undone)
  {
    var found := Found(s, undone, junk, left);
    forall n | n in s.slots && IsDigest(n) && n !in undone
      ensures n in found && found[n] == s.slots[n]
    {
      if n in left { SurvivesExactly(s.slots[n].tree, DiskAt(s, n)); }
    }
    FoundSound(sha, s.slots, found);
  }

  lemma FoundSound(sha: Sha, before: Slots, found: Slots)
    requires Sound(sha, before) && forall n :: n in found && IsDigest(n) ==> n in before && found[n] == before[n]
    ensures Sound(sha, found)
  {
  }

  /** Every published name of `a` except `lost` is in `b`, unchanged. */
  ghost predicate Kept(a: Slots, b: Slots, lost: set<string>) {
    forall id :: id in a && IsDigest(id) && id !in lost ==> id in b && b[id] == a[id]
  }

  function Undone(step: Step): set<string> {
    if step.Crash? then step.undone else {}
  }

  lemma CopyStepKeeps(sha: Sha, s: State, step: Step)
    requires Invariant(sha, s) && CanStep(sha, s, step) && (step.CreateFile? || step.WriteChunk? || step.CloseFile?)
    ensures Invariant(sha, After(sha, s, step)) && Kept(s.slots, After(sha, s, step).slots, {})
    ensures After(sha, s, step).unsynced == s.unsynced
  {
    var p, tree, disk, t := s.phase, TreeAt(s, s.phase.temp), DiskAt(s, s.phase.temp), After(sha, s, step);
    PutApart(sha, s, p.temp, TreeAt(t, p.temp), DiskAt(t, p.temp), t.phase);
    match step
    case CreateFile(declared) => CreateFills(sha, tree, disk, p.files, p.next, p.total);
    case WriteChunk(chunk) => AppendFills(sha, tree, disk, p.files, p.next, p.total, p.declared, chunk);
    case CloseFile => CloseFills(sha, tree, disk, p.files, p.next, p.total, p.declared);
    case _ =>
  }

  lemma OtherStepKeeps(sha: Sha, s: State, step: Step)
    requires Invariant(sha, s) && CanStep(sha, s, step)
    requires step.Start? || step.Check? || step.SyncDirectory? || step.SyncStore? || step.Fail?
    ensures Invariant(sha, After(sha, s, step)) && Kept(s.slots, After(sha, s, step).slots, {})
    ensures After(sha, s, step).unsynced <= s.unsynced
  {
    match step
    case Start(files, temp) => PutApart(sha, s, temp, map[], NOTHING, Between(temp, files, 0, 0));
    case SyncDirectory(directory) =>
      var p, t := s.phase, After(sha, s, step);
      PutApart(sha, s, p.temp, TreeAt(t, p.temp), DiskAt(t, p.temp), t.phase);
      SyncCompletes(sha, TreeAt(s, p.temp), DiskAt(s, p.temp), p.files, p.synced, directory);
    case Fail(left) =>
      if !s.phase.Renamed? {
        TemporarySound(sha, s.slots, s.phase.temp, Other);
        if left.Some? { PutApart(sha, s, s.phase.temp, left.value, NOTHING, Idle); }
      }
    case _ =>
  }

  /** Each operation keeps every published bundle verified, on the disk, and exactly as it was;
      only a crash may take back a rename that was not synced. */
  lemma StepKeeps(sha: Sha, s: State, step: Step)
    requires Digests(sha) && Invariant(sha, s) && CanStep(sha, s, step)
    ensures Invariant(sha, After(sha, s, step)) && Kept(s.slots, After(sha, s, step).slots, Undone(step))
    ensures After(sha, s, step).unsynced <= s.unsynced + (After(sha, s, step).slots.Keys - s.slots.Keys)
  {
    match step
    case Rename => RenameKeeps(sha, s);
    case Crash(undone, junk, left) => CrashKeeps(sha, s, undone, junk, left);
    case CreateFile(_) => CopyStepKeeps(sha, s, step);
    case WriteChunk(_) => CopyStepKeeps(sha, s, step);
    case CloseFile => CopyStepKeeps(sha, s, step);
    case _ => OtherStepKeeps(sha, s, step);
  }

  /** The inventory after the copy never fails: the copy has established all it checks. */
  lemma CopyEstablishes(sha: Sha, s: State)
    requires Invariant(sha, s) && s.phase.Between? && s.phase.next == |s.phase.files|
    ensures CanStep(sha, s, Check)
  {
    assert s.phase.files[..s.phase.next] == s.phase.files;
  }

  // ----- Why every sync is there -----

  /** Were the tree renamed while the directory of one of its files is not synced, a crash could publish a bundle
      without that file: it holds no policy with this manifest. */
  lemma EarlyRenameCanLose(sha: Sha, s: State, e: Entry)
    requires Invariant(sha, s) && s.phase.Checked? && e in s.phase.files && ParentOf(e.target) !in s.phase.synced
    ensures var t, id, tree := RenameNow(sha, s), IdOf(sha, s.phase.files), TreeAt(s, s.phase.temp) - {e.target};
      var crash := Crash({}, map[], map[id := tree]);
      && CanStep(sha, t, crash) && (IsDigest(id) ==> id in After(sha, t, crash).slots && After(sha, t, crash).slots[id] == Bundle(tree))
      && forall files :: Accepted(files) && ManifestOf(files) == ManifestOf(s.phase.files) ==> !Holds(sha, tree, files)
  {
    var tree, id := TreeAt(s, s.phase.temp), IdOf(sha, s.phase.files);
    assert HoldsEntry(sha, tree, e);
    DropIsPossible(tree, DiskAt(s, s.phase.temp), e.target);
    forall files | Accepted(files) && ManifestOf(files) == ManifestOf(s.phase.files)
      ensures !Holds(sha, tree - {e.target}, files)
    {
      ManifestCanonical(files, s.phase.files);
      LostEntry(sha, tree - {e.target}, files, e);
    }
  }

  lemma LostEntry(sha: Sha, t: Tree, files: seq<Entry>, e: Entry)
    requires e in files && e.target !in t
    ensures !Holds(sha, t, files)
  {
    var i :| 0 <= i < |files| && files[i] == e;
    assert !HoldsEntry(sha, t, files[i]);
  }

  // ----- Runs -----

  ghost predicate Trace(sha: Sha, s: State, steps: seq<Step>)
    decreases |steps|
  {
    steps == [] || (CanStep(sha, s, steps[0]) && Trace(sha, After(sha, s, steps[0]), steps[1..]))
  }

  ghost function End(sha: Sha, s: State, steps: seq<Step>): State
    requires Trace(sha, s, steps)
    decreases |steps|
  {
    if steps == [] then s else End(sha, After(sha, s, steps[0]), steps[1..])
  }

  /** In every run with failures and crashes anywhere, published bundles stay verified and on the disk,
      and a bundle whose rename was synced is never altered or removed. */
  lemma {:induction false} RunKeeps(sha: Sha, s: State, steps: seq<Step>)
    requires Digests(sha) && Invariant(sha, s) && Trace(sha, s, steps)
    ensures Invariant(sha, End(sha, s, steps))
    ensures forall id :: id in s.slots && IsDigest(id) && id !in s.unsynced ==>
              && id in End(sha, s, steps).slots && End(sha, s, steps).slots[id] == s.slots[id]
              && id !in End(sha, s, steps).unsynced
    decreases |steps|
  {
    if steps != [] {
      StepKeeps(sha, s, steps[0]);
      RunKeeps(sha, After(sha, s, steps[0]), steps[1..]);
    }
  }

  lemma {:induction false} RunOne(sha: Sha, s: State, step: Step)
    requires CanStep(sha, s, step)
    ensures Trace(sha, s, [step]) && End(sha, s, [step]) == After(sha, s, step)
  {
    assert [step][1..] == [];
  }

  /** A published bundle is there, unchanged, after every run exactly when its rename has been synced. */
  lemma {:induction false} SurvivesEveryRun(sha: Sha, s: State, id: string)
    requires Digests(sha) && Invariant(sha, s) && id in s.slots && IsDigest(id)
    ensures id !in s.unsynced <==>
              forall steps :: Trace(sha, s, steps) ==> id in End(sha, s, steps).slots && End(sha, s, steps).slots[id] == s.slots[id]
  {
    if id in s.unsynced {
      RunOne(sha, s, Crash({id}, map[], map[]));
    } else {
      forall steps | Trace(sha, s, steps)
        ensures id in End(sha, s, steps).slots && End(sha, s, steps).slots[id] == s.slots[id]
      {
        RunKeeps(sha, s, steps);
      }
    }
  }

  // ----- A run that leaves an unsynced bundle behind -----

  function EmptyStore(): State {
    State(map[], map[], Idle, {})
  }

  function SmallPolicy(sha: Sha): seq<Entry> {
    OneFile(sha, "f")
  }

  /** Provision it, and fail in the last directory sync. */
  function FailingRun(sha: Sha): seq<Step> {
    [Start(SmallPolicy(sha), TEMPORARY), CreateFile(1), WriteChunk("x"), CloseFile, Check, SyncDirectory(""), Rename, Fail(None)]
  }

  lemma SmallPolicyIsAccepted(sha: Sha)
    requires Digests(sha)
    ensures Accepted(SmallPolicy(sha)) && Holds(sha, FULL, SmallPolicy(sha))
  {
    SafeName("f");
    HoldsOne(sha, FULL, "f");
  }

  const TEMPORARY := ".preparing-1"
  const FULL: Tree := map["f" := File("x")]

  /** The state before step `k` of the run. */
  function Stage(sha: Sha, k: nat): State {
    var files, id := SmallPolicy(sha), IdOf(sha, SmallPolicy(sha));
    match k
    case 0 => EmptyStore()
    case 1 => State(map[TEMPORARY := Bundle(map[])], map[TEMPORARY := NOTHING], Between(TEMPORARY, files, 0, 0), {})
    case 2 => State(map[TEMPORARY := Bundle(map["f" := File("")])], map[TEMPORARY := NOTHING], Writing(TEMPORARY, files, 0, 0, 1), {})
    case 3 => State(map[TEMPORARY := Bundle(FULL)], map[TEMPORARY := NOTHING], Writing(TEMPORARY, files, 0, 0, 1), {})
    case 4 => State(map[TEMPORARY := Bundle(FULL)], map[TEMPORARY := Disk({"f"}, {})], Between(TEMPORARY, files, 1, 1), {})
    case 5 => State(map[TEMPORARY := Bundle(FULL)], map[TEMPORARY := Disk({"f"}, {})], Checked(TEMPORARY, files, {}), {})
    case 6 => State(map[TEMPORARY := Bundle(FULL)], map[TEMPORARY := Disk({"f"}, {"f"})], Checked(TEMPORARY, files, {""}), {})
    case 7 => State(map[id := Bundle(FULL)], map[TEMPORARY := Disk({"f"}, {"f"}), id := Disk({"f"}, {"f"})], Renamed, {id})
    case _ => State(map[id := Bundle(FULL)], map[TEMPORARY := Disk({"f"}, {"f"}), id := Disk({"f"}, {"f"})], Idle, {id})
  }

  lemma CopyStage(sha: Sha, k: nat)
    requires Digests(sha) && k < 4
    ensures CanStep(sha, Stage(sha, k), FailingRun(sha)[k]) && After(sha, Stage(sha, k), FailingRun(sha)[k]) == Stage(sha, k + 1)
  {
    SmallPolicyIsAccepted(sha);
    var s := Stage(sha, k);
    if k == 0 {
      assert |TEMPORARY| != 64;
    } else if k == 1 {
      assert Create(map[], "f") == Some(map["f" := File("")]);
      assert DiskAt(s, TEMPORARY).contents - {"f"} == {} && DiskAt(s, TEMPORARY).names * TreeAt(s, TEMPORARY).Keys == {};
    } else if k == 2 {
      assert "" + "x" == "x" && Append(map["f" := File("")], "f", "x") == FULL;
      assert DiskAt(s, TEMPORARY).contents - {"f"} == {};
    } else {
      assert DiskAt(s, TEMPORARY).contents + {"f"} == {"f"} && s.slots[TEMPORARY := Bundle(FULL)] == s.slots;
    }
  }

  lemma PublishStage(sha: Sha, k: nat)
    requires Digests(sha) && 4 <= k < 8
    ensures CanStep(sha, Stage(sha, k), FailingRun(sha)[k]) && After(sha, Stage(sha, k), FailingRun(sha)[k]) == Stage(sha, k + 1)
  {
    SmallPolicyIsAccepted(sha);
    var s := Stage(sha, k);
    if k == 5 {
      assert ParentOf("f") == "" && Listed(FULL, {""}) == {"f"};
      assert s.phase.synced + {""} == {""} && DiskAt(s, TEMPORARY).names + {"f"} == {"f"};
      assert s.slots[TEMPORARY := Bundle(FULL)] == s.slots;
    } else if k == 6 {
      assert Directories(FULL) == {""};
      assert IsDigest(IdOf(sha, SmallPolicy(sha))) && |TEMPORARY| != 64;
      assert s.slots - {TEMPORARY} == map[];
    }
  }

  lemma {:induction false} StagesFollow(sha: Sha, k: nat)
    requires Digests(sha) && k <= 8
    ensures Trace(sha, Stage(sha, k), FailingRun(sha)[k..])
    ensures End(sha, Stage(sha, k), FailingRun(sha)[k..]) == Stage(sha, 8)
    decreases 8 - k
  {
    if k < 8 {
      if k < 4 { CopyStage(sha, k); } else { PublishStage(sha, k); }
      StagesFollow(sha, k + 1);
      assert FailingRun(sha)[k..][1..] == FailingRun(sha)[k + 1..];
    }
  }

  /** The run is possible, and ends with the bundle published and complete, but its rename not synced. */
  lemma UnsyncedIsReached(sha: Sha)
    requires Digests(sha)
    ensures Invariant(sha, EmptyStore()) && Trace(sha, EmptyStore(), FailingRun(sha))
    ensures var s, id := End(sha, EmptyStore(), FailingRun(sha)), IdOf(sha, SmallPolicy(sha));
      && s.phase == Idle && id in s.unsynced && s.slots == map[id := Bundle(FULL)]
      && Accepted(SmallPolicy(sha)) && Holds(sha, FULL, SmallPolicy(sha))
  {
    StagesFollow(sha, 0);
    SmallPolicyIsAccepted(sha);
    assert FailingRun(sha)[0..] == FailingRun(sha);
  }
}
