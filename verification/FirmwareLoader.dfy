// The early-boot loader: from the kernel command line to the firmware path,
// and its agreement with the tools that build the store.
module FirmwareLoader {
  import opened Options
  import opened Words
  import opened FirmwarePolicy
  import opened FirmwareBundle
  import opened FirmwareStore

  const PREFIX := "azurefin.boot_uuid="

  predicate IsUuid(s: string) {
    |s| == 36 && forall i :: 0 <= i < 36 ==>
      if i in {8, 13, 18, 23} then s[i] == '-' else '0' <= s[i] <= '9' || 'a' <= s[i] <= 'f'
  }

  /** The values of the boot UUID arguments, in order. */
  function UuidArguments(args: seq<string>): seq<string> {
    if args == [] then []
    else UuidArguments(args[..|args| - 1]) +
         if PREFIX <= args[|args| - 1] then [args[|args| - 1][|PREFIX|..]] else []
  }

  /** `s` contains two adjacent characters `c`. */
  predicate HasTwice(s: string, c: char) {
    exists i :: 0 <= i < |s| - 1 && s[i] == c && s[i + 1] == c
  }

  /** The loader's own idea of an acceptable target. */
  predicate LoaderTarget(s: string) {
    "qcom/" <= s && !HasTwice(s, '.') && !HasTwice(s, '/') && forall i :: 0 <= i < |s| ==> PathChar(s[i])
  }

  function WithoutDots(parts: seq<string>): seq<string> {
    if parts == [] then []
    else if parts[0] == "." then WithoutDots(parts[1..])
    else [parts[0]] + WithoutDots(parts[1..])
  }

  /** Where the kernel finds a path: `.` components name the directory they stand in. */
  function Resolve(s: string): string {
    JoinWith(WithoutDots(SplitOn(s, '/')), '/')
  }

  /** A path whose last component is empty or `.` names a directory at best. */
  predicate NamesFile(s: string) {
    var parts := SplitOn(s, '/');
    parts != [] && parts[|parts| - 1] != "" && parts[|parts| - 1] != "."
  }

  /** The checks of one line, whose target is found at `path`. */
  predicate LineOk(t: Tree, e: Entry, path: string) {
    && IsDigest(e.sha) && LoaderTarget(e.target) && NamesFile(e.target)
    && Opens(t, path) && t[path].File? && 0 < |t[path].data| <= MAX_FILE
  }

  predicate LoaderEntry(t: Tree, e: Entry) {
    LineOk(t, e, Resolve(e.target))
  }

  /** The first `n` lines pass their checks. */
  ghost predicate LinesOk(t: Tree, es: seq<Entry>, n: nat)
    requires n <= |es|
  {
    n == 0 || (LinesOk(t, es, n - 1) && LoaderEntry(t, es[n - 1]))
  }

  lemma {:induction false} LinesOkIs(t: Tree, es: seq<Entry>, n: nat)
    requires n <= |es|
    ensures LinesOk(t, es, n) <==> forall i :: 0 <= i < n ==> LoaderEntry(t, es[i])
  {
    if n > 0 { LinesOkIs(t, es, n - 1); }
  }

  lemma {:induction false} LinesPrefix(t: Tree, es: seq<Entry>, n: nat, m: nat)
    requires n <= m <= |es| && LinesOk(t, es, m)
    ensures LinesOk(t, es, n)
  {
    if n < m { LinesPrefix(t, es, n, m - 1); }
  }

  /** The manifest lines by the files they name. */
  function Resolved(es: seq<Entry>): (r: seq<Entry>)
    ensures |r| == |es|
  {
    seq(|es|, i requires 0 <= i < |es| => es[i].(target := Resolve(es[i].target)))
  }

  /** The RAM copy of the listed files. */
  function CopyOf(t: Tree, es: seq<Entry>): map<string, Data> {
    if es == [] then map[]
    else
      var e := es[|es| - 1];
      CopyOf(t, es[..|es| - 1])[e.target := if e.target in t && t[e.target].File? then t[e.target].data else ""]
  }

  lemma {:induction false} CopyOfIs(t: Tree, es: seq<Entry>)
    ensures CopyOf(t, es).Keys == Targets(es)
    ensures forall p :: p in CopyOf(t, es) && p in t && t[p].File? ==> CopyOf(t, es)[p] == t[p].data
  {
    if es != [] { CopyOfIs(t, es[..|es| - 1]); }
  }

  /** The checks made line by line before the copy is verified. */
  ghost predicate Copyable(t: Tree, es: seq<Entry>) {
    (forall i :: 0 <= i < |es| ==> LoaderEntry(t, es[i])) && TotalSize(t, Resolved(es)) <= MAX_TOTAL
  }

  /** The files the lines name have the digests the lines give. */
  ghost predicate Genuine(sha: Sha, t: Tree, rs: seq<Entry>) {
    forall i :: 0 <= i < |rs| ==> rs[i].target in t && t[rs[i].target].File? && sha(t[rs[i].target].data) == rs[i].sha
  }

  /** Everything the loader checks about one bundle. */
  ghost predicate Loadable(sha: Sha, t: Tree, es: seq<Entry>) {
    NoLinks(t) && es != [] && Copyable(t, es) && Genuine(sha, t, Resolved(es))
  }

  /** A boot file system: its store directories are real directories, or not, and what the store holds. */
  datatype BootFs = BootFs(directories: bool, slots: Slots)

  /** The loader exposes a bundle exactly in this situation. */
  ghost predicate Exposes(sha: Sha, args: seq<string>, manifest: Data, devices: map<string, BootFs>, tree: Tree) {
    && var uuids := UuidArguments(args);
    && |uuids| == 1 && IsUuid(uuids[0]) && uuids[0] in devices && devices[uuids[0]].directories
    && IsDigest(sha(manifest)) && sha(manifest) in devices[uuids[0]].slots
    && devices[uuids[0]].slots[sha(manifest)] == Bundle(tree)
    && Loadable(sha, tree, ReadManifest(manifest))
  }

  /** Every listed file is in the copy with its digest. */
  predicate AllVerified(sha: Sha, ram: map<string, Data>, rs: seq<Entry>) {
    forall i :: 0 <= i < |rs| ==> rs[i].target in ram && sha(ram[rs[i].target]) == rs[i].sha
  }

  datatype Exit = NotRequested | Failed | Exposed

  class Machine {
    var runtime: Option<map<string, Data>>   // /run/azurefin-firmware
    var firmwarePath: bool                   // the kernel's firmware path names it

    constructor ()
      ensures runtime == None && !firmwarePath
    {
      runtime, firmwarePath := None, false;
    }

    static method FindUuid(args: seq<string>) returns (ok: bool, uuid: string)
      ensures var uuids := UuidArguments(args);
        ok <==> uuids == [] || (|uuids| == 1 && IsUuid(uuids[0]))
      ensures ok ==> uuid == if UuidArguments(args) == [] then "" else UuidArguments(args)[0]
    {
      uuid := "";
      for i := 0 to |args|
        invariant if uuid == "" then UuidArguments(args[..i]) == []
                  else UuidArguments(args[..i]) == [uuid] && IsUuid(uuid)
      {
        UuidPrefix(args, i + 1);
        assert args[..i + 1][..i] == args[..i];
        if PREFIX <= args[i] {
          if uuid != "" { return false, uuid; }
          uuid := args[i][|PREFIX|..];
          if !IsUuid(uuid) { return false, uuid; }
        }
      }
      assert args[..|args|] == args;
      return true, uuid;
    }

    /** One manifest line: the file it names and what is in it, if it passes all checks. */
    static method CheckLine(t: Tree, e: Entry) returns (file: Option<(string, Data)>)
      ensures file.Some? <==> LoaderEntry(t, e)
      ensures file.Some? ==> file.value.0 == Resolve(e.target) && t[Resolve(e.target)] == File(file.value.1)
    {
      if !IsDigest(e.sha) || !LoaderTarget(e.target) { return None; }
      var found := Resolve(e.target);
      if !NamesFile(e.target) || !Opens(t, found) || !t[found].File? { return None; }
      if !(0 < |t[found].data| <= MAX_FILE) { return None; }
      return Some((found, t[found].data));
    }

    /** Check every manifest line and copy its file to RAM; `rs` are the lines by the files they name. */
    static method CopyLines(t: Tree, es: seq<Entry>, ghost rs: seq<Entry>) returns (copy: Option<map<string, Data>>)
      requires |rs| == |es| && forall i :: 0 <= i < |es| ==> rs[i].target == Resolve(es[i].target)
      ensures copy.Some? <==> LinesOk(t, es, |es|) && TotalSize(t, rs) <= MAX_TOTAL
      ensures copy.Some? ==> copy.value == CopyOf(t, rs)
    {
      var ram: map<string, Data>, total := map[], 0;
      for i := 0 to |es|
        invariant LinesOk(t, es, i)
        invariant total == TotalSize(t, rs[..i]) <= MAX_TOTAL && ram == CopyOf(t, rs[..i])
      {
        TotalPrefix(t, rs, i + 1);
        if LinesOk(t, es, |es|) { LinesPrefix(t, es, i + 1, |es|); }
        var file := CheckLine(t, es[i]);
        if file.None? { return None; }
        CopyGrows(t, rs, i);
        total := total + |file.value.1|;
        if total > MAX_TOTAL { return None; }
        ram := ram[file.value.0 := file.value.1];
      }
      assert rs[..|es|] == rs;
      return Some(ram);
    }

    /** `sha256sum -c` on the RAM copy: at least one line, and every listed file has its digest. */
    static method CheckCopy(sha: Sha, ram: map<string, Data>, rs: seq<Entry>) returns (ok: bool)
      requires ram.Keys == Targets(rs)
      ensures ok <==> rs != [] && forall i :: 0 <= i < |rs| ==> rs[i].target in ram && sha(ram[rs[i].target]) == rs[i].sha
    {
      TargetsOf(rs);
      for i := 0 to |rs|
        invariant forall k :: 0 <= k < i ==> rs[k].target in ram && sha(ram[rs[k].target]) == rs[k].sha
      {
        assert rs[i].target in ram;
        if sha(ram[rs[i].target]) != rs[i].sha { return false; }
      }
      return rs != [];
    }

    /** Copy the listed files to RAM, checking every manifest line on the way, then verify the copy. */
    static method CopyToRam(sha: Sha, t: Tree, es: seq<Entry>) returns (copy: Option<map<string, Data>>)
      requires NoLinks(t)
      ensures copy.Some? <==> Loadable(sha, t, es)
      ensures copy.Some? ==> copy.value == CopyOf(t, Resolved(es)) && AllVerified(sha, copy.value, Resolved(es))
    {
      var rs := Resolved(es);
      copy := CopyLines(t, es, rs);
      LinesOkIs(t, es, |es|);
      CopyOfIs(t, rs);
      if copy.Some? {
        var ok := CheckCopy(sha, copy.value, rs);
        CopiedIsGenuine(sha, t, es, rs, copy.value);
        if !ok { copy := None; }
      }
    }

    /** The whole loader. The firmware path is set exactly when everything was verified in RAM. */
    method Load(sha: Sha, args: seq<string>, manifest: Data, devices: map<string, BootFs>) returns (exit: Exit)
      modifies this
      ensures exit == NotRequested <==> UuidArguments(args) == []
      ensures exit == Exposed <==> old(runtime).None? && exists tree :: Exposes(sha, args, manifest, devices, tree)
      ensures exit != Exposed ==> runtime == old(runtime) && firmwarePath == old(firmwarePath)
      ensures exit == Exposed ==> firmwarePath && runtime.Some?
      ensures exit == Exposed ==> forall tree :: Exposes(sha, args, manifest, devices, tree) ==>
                runtime.value == CopyOf(tree, Resolved(ReadManifest(manifest)))
      ensures exit == Exposed ==> AllVerified(sha, runtime.value, Resolved(ReadManifest(manifest)))
    {
      var ok, uuid := FindUuid(args);
      if !ok { return Failed; }
      if uuid == "" { return NotRequested; }
      var id := sha(manifest);
      if !IsDigest(id) || uuid !in devices || !devices[uuid].directories { return Failed; }
      var slots := devices[uuid].slots;
      if id !in slots || slots[id].Other? || !NoLinks(slots[id].tree) { return Failed; }
      var copy := CopyToRam(sha, slots[id].tree, ReadManifest(manifest));
      assert forall tree :: Exposes(sha, args, manifest, devices, tree) ==> tree == slots[id].tree;
      assert copy.Some? <==> Exposes(sha, args, manifest, devices, slots[id].tree);
      if copy.None? || runtime.Some? { return Failed; }
      runtime := copy;
      firmwarePath := true;
      return Exposed;
    }
  }

  lemma {:induction false} CopyGrows(t: Tree, rs: seq<Entry>, i: nat)
    requires i < |rs| && rs[i].target in t && t[rs[i].target].File?
    ensures CopyOf(t, rs[..i + 1]) == CopyOf(t, rs[..i])[rs[i].target := t[rs[i].target].data]
    ensures TotalSize(t, rs[..i + 1]) == TotalSize(t, rs[..i]) + |t[rs[i].target].data|
  {
    assert rs[..i + 1][..i] == rs[..i] && rs[..i + 1][i] == rs[i];
  }

  /** Verifying the copy is verifying the files. */
  lemma {:induction false} CopiedIsGenuine(sha: Sha, t: Tree, es: seq<Entry>, rs: seq<Entry>, ram: map<string, Data>)
    requires |rs| == |es| && forall i :: 0 <= i < |es| ==> rs[i].target == Resolve(es[i].target) && LoaderEntry(t, es[i])
    requires ram.Keys == Targets(rs) && forall p :: p in ram && p in t && t[p].File? ==> ram[p] == t[p].data
    ensures AllVerified(sha, ram, rs) <==> Genuine(sha, t, rs)
  {
    TargetsOf(rs);
    forall i | 0 <= i < |rs|
      ensures rs[i].target in t && t[rs[i].target].File? && rs[i].target in ram && ram[rs[i].target] == t[rs[i].target].data
    {
      assert LoaderEntry(t, es[i]);
    }
  }

  lemma {:induction false} UuidPrefix(args: seq<string>, n: nat)
    requires n <= |args|
    ensures |UuidArguments(args[..n])| <= |UuidArguments(args)|
    ensures UuidArguments(args[..n]) <= UuidArguments(args)
    decreases |args|
  {
    if n < |args| {
      UuidPrefix(args[..|args| - 1], n);
      assert args[..|args| - 1][..n] == args[..n];
    } else {
      assert args[..n] == args;
    }
  }

  lemma {:induction false} TotalPrefix(t: Tree, es: seq<Entry>, n: nat)
    requires n <= |es|
    ensures TotalSize(t, es[..n]) <= TotalSize(t, es)
    decreases |es|
  {
    if n < |es| {
      TotalPrefix(t, es[..|es| - 1], n);
      assert es[..|es| - 1][..n] == es[..n];
    } else {
      assert es[..n] == es;
    }
  }

  // ----- Agreement with the tools that build the store -----

  lemma {:induction false} TotalRemove(t: Tree, es: seq<Entry>, i: nat)
    requires i < |es|
    ensures TotalSize(t, es) == TotalSize(t, es[..i] + es[i + 1..]) + SizeOf(t, es[i].target)
    decreases |es|
  {
    if i < |es| - 1 {
      var front := es[..|es| - 1];
      TotalRemove(t, front, i);
      var less := es[..i] + es[i + 1..];
      assert less[..|less| - 1] == front[..i] + front[i + 1..];
    } else {
      assert es[..i] + es[i + 1..] == es[..i];
    }
  }

  lemma RemoveLast<T>(a: seq<T>, b: seq<T>, i: nat)
    requires a != [] && multiset(a) == multiset(b) && i < |b| && b[i] == a[|a| - 1]
    ensures multiset(a[..|a| - 1]) == multiset(b[..i] + b[i + 1..])
  {
    assert a == a[..|a| - 1] + [b[i]];
    assert b == b[..i] + [b[i]] + b[i + 1..];
    assert multiset(a[..|a| - 1]) == multiset(a) - multiset{b[i]};
    assert multiset(b[..i] + b[i + 1..]) == multiset(b) - multiset{b[i]};
  }

  lemma {:induction false} TotalPermute(t: Tree, a: seq<Entry>, b: seq<Entry>)
    requires multiset(a) == multiset(b)
    ensures TotalSize(t, a) == TotalSize(t, b)
    decreases |a|
  {
    if a == [] {
      assert |multiset(b)| == 0;
    } else {
      var last := a[|a| - 1];
      assert last in multiset(b);
      var i :| 0 <= i < |b| && b[i] == last;
      TotalRemove(t, b, i);
      RemoveLast(a, b, i);
      TotalPermute(t, a[..|a| - 1], b[..i] + b[i + 1..]);
    }
  }

  lemma DuplicateCounts<T>(s: seq<T>, i: nat, j: nat)
    requires i < j < |s| && s[i] == s[j]
    ensures multiset(s)[s[i]] >= 2
  {
    assert s == s[..j] + s[j..];
    assert s[..j][i] == s[i] && s[j..][0] == s[i];
    assert s[i] in multiset(s[..j]) && s[i] in multiset(s[j..]);
  }

  /** Reading back the manifest gives the policy's entries, each exactly once. */
  lemma ManifestPermutation(files: seq<Entry>)
    requires Accepted(files)
    ensures multiset(ReadManifest(ManifestOf(files))) == multiset(files)
  {
    var es := ReadManifest(ManifestOf(files));
    ManifestReadsBack(files);
    RowsNoDuplicates(files);
    forall i, j | 0 <= i < j < |es|
      ensures es[i] != es[j]
    {
      if es[i] == es[j] {
        DuplicateCounts(Rows(es), i, j);
        CountOnce(Rows(files), Row(es[i]));
      }
    }
    forall e
      ensures multiset(es)[e] == multiset(files)[e]
    {
      CountOnce(es, e);
      CountOnce(files, e);
    }
  }

  predicate GoodParts(parts: seq<string>) {
    parts == [] || (GoodPart(parts[0]) && GoodParts(parts[1..]))
  }

  /** The parts of a safe path are proper names. */
  lemma {:induction false} SafeParts(part: string, s: string)
    requires SafeFrom(part, s)
    ensures SplitOn(s, '/') != [] && GoodPart(part + SplitOn(s, '/')[0]) && GoodParts(SplitOn(s, '/')[1..])
    decreases s
  {
    if s == "" {
      assert part + "" == part;
    } else if s[0] == '/' {
      SafeParts("", s[1..]);
      var rest := SplitOn(s[1..], '/');
      assert "" + rest[0] == rest[0] && part + "" == part && ([""] + rest)[1..] == rest;
    } else {
      SafeParts(part + [s[0]], s[1..]);
      var rest := SplitOn(s[1..], '/');
      assert part + ([s[0]] + rest[0]) == part + [s[0]] + rest[0];
      assert ([[s[0]] + rest[0]] + rest[1..])[1..] == rest[1..];
    }
  }

  lemma {:induction false} EmptyIsNotGood(parts: seq<string>)
    requires "" in parts
    ensures !GoodParts(parts)
  {
    if parts[0] != "" { EmptyIsNotGood(parts[1..]); }
  }

  lemma DoubleSlashIsUnsafe(s: string)
    requires HasTwice(s, '/')
    ensures !SafeTarget(s)
  {
    var i :| 0 <= i < |s| - 1 && s[i] == '/' && s[i + 1] == '/';
    EmptyPart(s, '/', i);
    EmptyIsNotGood(SplitOn(s, '/')[1..]);
    if SafeTarget(s) { SafeParts("", s); }
  }

  lemma {:induction false} NothingDropped(parts: seq<string>)
    requires GoodParts(parts)
    ensures WithoutDots(parts) == parts && (parts != [] ==> GoodPart(parts[|parts| - 1]))
  {
    if parts != [] { NothingDropped(parts[1..]); }
  }

  /** A safe target is found where it says. */
  lemma {:induction false} SafeResolves(s: string)
    requires SafeTarget(s)
    ensures Resolve(s) == s && NamesFile(s)
  {
    SafeParts("", s);
    JoinSplit(s, '/');
    assert "" + SplitOn(s, '/')[0] == SplitOn(s, '/')[0];
    NothingDropped(SplitOn(s, '/'));
  }

  lemma {:induction false} SafeAreResolved(es: seq<Entry>)
    requires AllSafe(es)
    ensures Resolved(es) == es
  {
    forall i | 0 <= i < |es| ensures Resolved(es)[i] == es[i] { SafeResolves(es[i].target); }
  }

  predicate Loadables(files: seq<Entry>) {
    forall i :: 0 <= i < |files| ==> "qcom/" <= files[i].target && !HasTwice(files[i].target, '.')
  }

  lemma {:induction false} LineAgrees(sha: Sha, t: Tree, files: seq<Entry>, e: Entry)
    requires AllSafe(files) && Holds(sha, t, files) && e in files
    ensures LoaderEntry(t, e) <==> "qcom/" <= e.target && !HasTwice(e.target, '.')
    ensures Resolve(e.target) == e.target && e.target in t && t[e.target].File? && sha(t[e.target].data) == e.sha
  {
    HeldMember(sha, t, files, e);
    if HasTwice(e.target, '/') { DoubleSlashIsUnsafe(e.target); }
    SafeResolves(e.target);
    SafeChars("", e.target);
  }

  /** On a bundle that holds an accepted policy, the loader agrees exactly when every target
      is under qcom/ and has no two adjacent dots. */
  lemma {:induction false} LoaderAgrees(sha: Sha, t: Tree, files: seq<Entry>)
    requires Accepted(files) && Holds(sha, t, files) && NoLinks(t)
    ensures Loadable(sha, t, ReadManifest(ManifestOf(files))) <==> Loadables(files)
  {
    var es := ReadManifest(ManifestOf(files));
    ManifestReadsBack(files);
    ManifestPermutation(files);
    TotalPermute(t, es, files);
    SafeAreResolved(es);
    forall i | 0 <= i < |es|
      ensures LoaderEntry(t, es[i]) <==> "qcom/" <= es[i].target && !HasTwice(es[i].target, '.')
      ensures es[i].target in t && t[es[i].target].File? && sha(t[es[i].target].data) == es[i].sha
    {
      LineAgrees(sha, t, files, es[i]);
    }
    assert Genuine(sha, t, es);
    if Loadable(sha, t, es) {
      forall i | 0 <= i < |files|
        ensures "qcom/" <= files[i].target && !HasTwice(files[i].target, '.')
      {
        assert files[i] in es;
      }
    }
    if Loadables(files) {
      forall i | 0 <= i < |es| ensures LoaderEntry(t, es[i]) { assert es[i] in files; }
    }
  }

  // ----- Bundles the tools publish and the loader refuses -----

  const OUTSIDE: Tree := map["f" := File("x")]
  const DOTTED_TARGET := "qcom" + ("/" + "a..b")
  const DOTTED: Tree := map["qcom" := Dir, DOTTED_TARGET := File("x")]

  lemma DottedOpens()
    ensures Opens(DOTTED, DOTTED_TARGET) && DOTTED[DOTTED_TARGET] == File("x") && HasTwice(DOTTED_TARGET, '.')
  {
    var s := DOTTED_TARGET;
    assert |s| == 9 && s[..4] == "qcom" && s[6] == '.' && s[7] == '.';
    forall i | 0 < i < |s| && s[i] == '/' ensures i == 4 { }
    assert DOTTED["qcom"] == Dir by { assert |"qcom"| != |DOTTED_TARGET|; }
  }

  /** The tools accept this policy and its tree; the loader refuses them because the target is outside qcom/. */
  lemma OutsideIsRefused(sha: Sha)
    requires Digests(sha)
    ensures var files := OneFile(sha, "f");
      Accepted(files) && Holds(sha, OUTSIDE, files) && !Loadable(sha, OUTSIDE, ReadManifest(ManifestOf(files)))
  {
    SafeName("f");
    HoldsOne(sha, OUTSIDE, "f");
    LoaderAgrees(sha, OUTSIDE, OneFile(sha, "f"));
  }

  /** Here the loader refuses because of the two adjacent dots. */
  lemma DottedIsRefused(sha: Sha)
    requires Digests(sha)
    ensures var files := OneFile(sha, DOTTED_TARGET);
      Accepted(files) && Holds(sha, DOTTED, files) && !Loadable(sha, DOTTED, ReadManifest(ManifestOf(files)))
  {
    DottedOpens();
    SafePair("qcom", "a..b");
    HoldsOne(sha, DOTTED, DOTTED_TARGET);
    LoaderAgrees(sha, DOTTED, OneFile(sha, DOTTED_TARGET));
    assert OneFile(sha, DOTTED_TARGET)[0].target == DOTTED_TARGET;
  }

  lemma HeldMember(sha: Sha, t: Tree, files: seq<Entry>, e: Entry)
    requires AllSafe(files) && Holds(sha, t, files) && e in files
    ensures SafeEntry(e) && HoldsEntry(sha, t, e)
  {
  }

  lemma {:induction false} SameTargets(a: seq<Entry>, b: seq<Entry>)
    requires forall e :: e in a ==> e in b
    ensures Targets(a) <= Targets(b)
  {
    TargetsOf(a);
    TargetsOf(b);
    forall x | x in Targets(a)
      ensures x in Targets(b)
    {
      var i :| 0 <= i < |a| && a[i].target == x;
      assert a[i] in b;
    }
  }

  lemma {:induction false} TargetMember(files: seq<Entry>, e: Entry)
    requires e in files
    ensures e.target in Targets(files)
  {
    TargetsOf(files);
  }

  lemma {:induction false} ExposedEntry(sha: Sha, t: Tree, files: seq<Entry>, ram: map<string, Data>, e: Entry)
    requires AllSafe(files) && Holds(sha, t, files) && e in files && ram.Keys == Targets(files)
    requires forall p :: p in ram && p in t && t[p].File? ==> ram[p] == t[p].data
    ensures e.target in ram && e.target in t && t[e.target] == File(ram[e.target]) && sha(ram[e.target]) == e.sha
  {
    TargetMember(files, e);
    HeldMember(sha, t, files, e);
  }

  /** `ram` is exactly the policy's map from targets to the bytes the bundle holds. */
  ghost predicate IsPolicyMap(sha: Sha, t: Tree, files: seq<Entry>, ram: map<string, Data>) {
    && ram.Keys == Targets(files)
    && forall e :: e in files ==>
         e.target in ram && e.target in t && t[e.target] == File(ram[e.target]) && sha(ram[e.target]) == e.sha
  }

  /** What is exposed for a policy: its targets and nothing else, each with the held bytes. */
  lemma {:induction false} ExposesThePolicy(sha: Sha, t: Tree, files: seq<Entry>)
    requires Accepted(files) && Holds(sha, t, files) && NoLinks(t)
    ensures IsPolicyMap(sha, t, files, CopyOf(t, Resolved(ReadManifest(ManifestOf(files)))))
  {
    var es := ReadManifest(ManifestOf(files));
    var ram := CopyOf(t, es);
    ManifestReadsBack(files);
    SafeAreResolved(es);
    CopyOfIs(t, es);
    SameTargets(es, files);
    SameTargets(files, es);
    assert ram.Keys == Targets(files);
    forall e | e in files
      ensures e.target in ram && e.target in t && t[e.target] == File(ram[e.target]) && sha(ram[e.target]) == e.sha
    {
      ExposedEntry(sha, t, files, ram, e);
    }
  }
}
