// Whole life of an installed machine: setup, guarded updates, reboots, rollbacks,
// and provisioning that may fail or crash at any point.
module FirmwareUpdates {
  import opened Options
  import opened Words
  import opened FirmwarePolicy
  import opened FirmwareBundle
  import opened FirmwareStore
  import opened FirmwareCrash
  import opened FirmwareLoader
  import opened FirmwareVersion

  /** An OS image: its policy and manifest files, its update contract, and its registry labels. */
  datatype Image = Image(files: seq<Entry>, manifest: Data, channel: string,
                         contractBundle: string, contractAbi: string,
                         labelBundle: string, labelAbi: string, version: string)

  /** `origin` is the channel a deployment follows with native signatures, if it does. */
  datatype Deployment = Deployment(image: Image, origin: Option<string>, compatible: bool)

  datatype Host = Host(store: FirmwareCrash.State, bootArgument: bool, booted: Deployment,
                       staged: Option<Deployment>, rollback: Option<Deployment>, rollbackQueued: bool, overlay: bool)

  /** The bundle check both setup and the update preflight make for an image. */
  predicate BundleChecks(sha: Sha, slots: Slots, image: Image) {
    && Accepted(image.files) && ManifestOf(image.files) == image.manifest
    && sha(image.manifest) in slots && slots[sha(image.manifest)].Bundle?
    && Holds(sha, slots[sha(image.manifest)].tree, image.files)
  }

  /** Assumed of the image a guarded update stages: it was built with its own policy and labelled with its digest. */
  predicate Honest(sha: Sha, image: Image) {
    Accepted(image.files) && ManifestOf(image.files) == image.manifest && image.labelBundle == sha(image.manifest)
  }

  datatype Event =
    | Provisioning(step: FirmwareCrash.Step)
    | Setup
    | Update(target: Image)
    | QueueRollback
    | Reboot

  /** The update preflight: status, firmware store, contract, target labels and version. */
  predicate UpdateAllowed(sha: Sha, h: Host, target: Image) {
    && h.staged.None? && !h.rollbackQueued && !h.overlay
    && h.booted.compatible && h.booted.origin == Some(h.booted.image.channel)
    && h.bootArgument && BundleChecks(sha, h.store.slots, h.booted.image)
    && sha(h.booted.image.manifest) == h.booted.image.contractBundle
    && target.labelBundle == h.booted.image.contractBundle && target.labelAbi == h.booted.image.contractAbi
    && NotOlder(h.booted.image.version, target.version)
  }

  predicate SetupAllowed(sha: Sha, h: Host) {
    h.staged.None? && !h.rollbackQueued && !h.overlay && BundleChecks(sha, h.store.slots, h.booted.image)
  }

  ghost predicate CanHappen(sha: Sha, h: Host, e: Event) {
    match e
    case Provisioning(step) => CanStep(sha, h.store, step)
    case Setup => SetupAllowed(sha, h)
    case Update(target) => UpdateAllowed(sha, h, target) && Honest(sha, target)
    case QueueRollback => h.rollback.Some?
    case Reboot => true
  }

  function Happen(sha: Sha, h: Host, e: Event): Host
    requires CanHappen(sha, h, e)
  {
    match e
    case Provisioning(step) => h.(store := FirmwareCrash.After(sha, h.store, step))
    case Setup => h.(bootArgument := true)
    case Update(target) => h.(staged := Some(Deployment(target, h.booted.origin, true)))
    case QueueRollback => h.(rollbackQueued := true)
    case Reboot =>
      if h.rollbackQueued && h.rollback.Some? then
        h.(booted := h.rollback.value, rollback := Some(h.booted), staged := None, rollbackQueued := false, overlay := false)
      else if h.staged.Some? then
        h.(booted := h.staged.value, rollback := Some(h.booted), staged := None, overlay := false)
      else h.(overlay := false)
  }

  /** The bundle an image needs is in the store, verified, and its rename was synced. */
  ghost predicate Kept(sha: Sha, s: FirmwareCrash.State, image: Image) {
    && BundleChecks(sha, s.slots, image) && NoLinks(s.slots[sha(image.manifest)].tree)
    && sha(image.manifest) !in s.unsynced
  }

  /** No two of these manifests share a digest. */
  ghost predicate CollisionFree(sha: Sha, manifests: set<Data>) {
    forall a, b :: a in manifests && b in manifests && sha(a) == sha(b) ==> a == b
  }

  /** The bundle of the booted image survives a crash: its rename has been synced. */
  predicate Durable(sha: Sha, h: Host) {
    sha(h.booted.image.manifest) !in h.store.unsynced
  }

  /** The images an event puts under protection: the one booted at setup and every one staged later, if the
      bundle that was checked survives a crash. */
  function Protected(sha: Sha, h: Host, e: Event): set<Image> {
    match e
    case Setup => if Durable(sha, h) then {h.booted.image} else {}
    case Update(target) => if Durable(sha, h) then {target} else {}
    case _ => {}
  }

  lemma HeldByEntries(sha: Sha, t: Tree, a: seq<Entry>, b: seq<Entry>)
    requires Accepted(a) && Accepted(b) && SameEntries(a, b) && Holds(sha, t, a)
    ensures Holds(sha, t, b)
  {
    RowsNoDuplicates(a);
    RowsNoDuplicates(b);
    ManifestPermutation(a);
    ManifestPermutation(b);
    ManifestCanonical(a, b);
    TotalPermute(t, a, b);
    forall i | 0 <= i < |b|
      ensures HoldsEntry(sha, t, b[i])
    {
      assert b[i] in a;
      HeldMember(sha, t, a, b[i]);
    }
  }

  /** A guarded update stages an image whose bundle is the verified one of the booted image. */
  lemma UpdateKeepsBundle(sha: Sha, h: Host, target: Image, manifests: set<Data>)
    requires UpdateAllowed(sha, h, target) && Honest(sha, target)
    requires CollisionFree(sha, manifests) && h.booted.image.manifest in manifests && target.manifest in manifests
    ensures BundleChecks(sha, h.store.slots, target) && sha(target.manifest) == sha(h.booted.image.manifest)
  {
    ManifestCanonical(h.booted.image.files, target.files);
    HeldByEntries(sha, h.store.slots[sha(target.manifest)].tree, h.booted.image.files, target.files);
  }

  lemma StoreStepKeeps(sha: Sha, s: FirmwareCrash.State, step: FirmwareCrash.Step, image: Image)
    requires Digests(sha) && FirmwareCrash.Invariant(sha, s) && CanStep(sha, s, step)
    ensures FirmwareCrash.Invariant(sha, FirmwareCrash.After(sha, s, step))
    ensures Kept(sha, s, image) ==> Kept(sha, FirmwareCrash.After(sha, s, step), image)
  {
    StepKeeps(sha, s, step);
  }

  ghost predicate Trace(sha: Sha, h: Host, events: seq<Event>, manifests: set<Data>)
    decreases |events|
  {
    events == [] || (
      && CanHappen(sha, h, events[0]) && h.booted.image.manifest in manifests
      && (events[0].Update? ==> events[0].target.manifest in manifests)
      && Trace(sha, Happen(sha, h, events[0]), events[1..], manifests))
  }

  ghost function End(sha: Sha, h: Host, events: seq<Event>, manifests: set<Data>): Host
    requires Trace(sha, h, events, manifests)
    decreases |events|
  {
    if events == [] then h else End(sha, Happen(sha, h, events[0]), events[1..], manifests)
  }

  ghost function AllProtected(sha: Sha, h: Host, events: seq<Event>, manifests: set<Data>): set<Image>
    requires Trace(sha, h, events, manifests)
    decreases |events|
  {
    if events == [] then {}
    else Protected(sha, h, events[0]) + AllProtected(sha, Happen(sha, h, events[0]), events[1..], manifests)
  }

  /** A bundle that passes the check is verified, because the store is sound. */
  lemma CheckedIsKept(sha: Sha, s: FirmwareCrash.State, image: Image)
    requires Digests(sha) && FirmwareCrash.Invariant(sha, s) && BundleChecks(sha, s.slots, image)
    requires sha(image.manifest) !in s.unsynced
    ensures Kept(sha, s, image)
  {
    assert IsDigest(sha(image.manifest));
    assert Verified(sha, s.slots[sha(image.manifest)].tree, sha(image.manifest));
  }

  /** Only provisioning touches the store. */
  lemma StoreUntouched(sha: Sha, h: Host, e: Event)
    requires CanHappen(sha, h, e) && !e.Provisioning?
    ensures Happen(sha, h, e).store == h.store
  {
  }

  lemma ProtectedIsKept(sha: Sha, h: Host, e: Event, manifests: set<Data>, image: Image)
    requires Digests(sha) && CollisionFree(sha, manifests) && FirmwareCrash.Invariant(sha, h.store)
    requires CanHappen(sha, h, e) && h.booted.image.manifest in manifests
    requires (e.Update? ==> e.target.manifest in manifests) && image in Protected(sha, h, e)
    ensures Kept(sha, h.store, image)
  {
    if e.Update? { UpdateKeepsBundle(sha, h, e.target, manifests); }
    CheckedIsKept(sha, h.store, image);
  }

  lemma EventKeeps(sha: Sha, h: Host, e: Event, manifests: set<Data>, image: Image)
    requires Digests(sha) && CollisionFree(sha, manifests) && FirmwareCrash.Invariant(sha, h.store)
    requires CanHappen(sha, h, e) && h.booted.image.manifest in manifests
    requires e.Update? ==> e.target.manifest in manifests
    ensures FirmwareCrash.Invariant(sha, Happen(sha, h, e).store)
    ensures Kept(sha, h.store, image) || image in Protected(sha, h, e) ==> Kept(sha, Happen(sha, h, e).store, image)
  {
    if image in Protected(sha, h, e) { ProtectedIsKept(sha, h, e, manifests, image); }
    if e.Provisioning? {
      StoreStepKeeps(sha, h.store, e.step, image);
      assert Happen(sha, h, e).store == FirmwareCrash.After(sha, h.store, e.step);
    } else {
      StoreUntouched(sha, h, e);
    }
  }

  /** Whatever sequence of provisioning steps, failures, crashes, updates, reboots and rollbacks follows,
      every deployment booted at setup or staged afterwards keeps a verified bundle in the store. */
  lemma {:induction false} RunKeeps(sha: Sha, h: Host, events: seq<Event>, manifests: set<Data>, image: Image)
    requires Digests(sha) && CollisionFree(sha, manifests) && FirmwareCrash.Invariant(sha, h.store)
    requires Trace(sha, h, events, manifests)
    requires Kept(sha, h.store, image) || image in AllProtected(sha, h, events, manifests)
    ensures Kept(sha, End(sha, h, events, manifests).store, image)
    decreases |events|
  {
    if events != [] {
      EventKeeps(sha, h, events[0], manifests, image);
      RunKeeps(sha, Happen(sha, h, events[0]), events[1..], manifests, image);
    }
  }

  /** The loader of a protected deployment, at the end of any run, exposes exactly its policy:
      it succeeds if and only if every target is one the loader allows. */
  lemma {:induction false} ProtectedBoots(sha: Sha, h: Host, events: seq<Event>, manifests: set<Data>, image: Image,
                       args: seq<string>, devices: map<string, BootFs>)
    requires Digests(sha) && CollisionFree(sha, manifests) && FirmwareCrash.Invariant(sha, h.store)
    requires Trace(sha, h, events, manifests) && image in AllProtected(sha, h, events, manifests)
    requires |UuidArguments(args)| == 1 && IsUuid(UuidArguments(args)[0]) && UuidArguments(args)[0] in devices
    requires devices[UuidArguments(args)[0]] == BootFs(true, End(sha, h, events, manifests).store.slots)
    ensures var id := sha(image.manifest);
      && id in End(sha, h, events, manifests).store.slots && End(sha, h, events, manifests).store.slots[id].Bundle?
      && var tree := End(sha, h, events, manifests).store.slots[id].tree;
      && (Exposes(sha, args, image.manifest, devices, tree) <==> Loadables(image.files))
      && IsPolicyMap(sha, tree, image.files, CopyOf(tree, Resolved(ReadManifest(image.manifest))))
  {
    RunKeeps(sha, h, events, manifests, image);
    var s := End(sha, h, events, manifests).store;
    var tree := s.slots[sha(image.manifest)].tree;
    LoaderAgrees(sha, tree, image.files);
    ExposesThePolicy(sha, tree, image.files);
  }

  /** A bundle that is kept stays kept, whatever happens and whoever relies on it. */
  lemma {:induction false} KeptForever(sha: Sha, h: Host, events: seq<Event>, manifests: set<Data>, image: Image)
    requires Digests(sha) && FirmwareCrash.Invariant(sha, h.store) && Trace(sha, h, events, manifests) && Kept(sha, h.store, image)
    ensures Kept(sha, End(sha, h, events, manifests).store, image)
    decreases |events|
  {
    if events != [] {
      if events[0].Provisioning? {
        StoreStepKeeps(sha, h.store, events[0].step, image);
      } else {
        StoreUntouched(sha, h, events[0]);
      }
      KeptForever(sha, Happen(sha, h, events[0]), events[1..], manifests, image);
    }
  }

  /** After a setup that passed its checks, the bundle it relied on is there at the end of every run
      exactly when its rename had been synced. */
  lemma {:induction false} SetupLasts(sha: Sha, h: Host, manifests: set<Data>)
    requires Digests(sha) && FirmwareCrash.Invariant(sha, h.store) && SetupAllowed(sha, h) && h.booted.image.manifest in manifests
    ensures Durable(sha, h) <==>
              forall events :: Trace(sha, Happen(sha, h, Setup), events, manifests) ==>
                BundleChecks(sha, End(sha, Happen(sha, h, Setup), events, manifests).store.slots, h.booted.image)
  {
    var after := Happen(sha, h, Setup);
    if Durable(sha, h) {
      CheckedIsKept(sha, h.store, h.booted.image);
      forall events | Trace(sha, after, events, manifests)
        ensures BundleChecks(sha, End(sha, after, events, manifests).store.slots, h.booted.image)
      {
        KeptForever(sha, after, events, manifests, h.booted.image);
      }
    } else {
      SetupCanLose(sha, h, manifests);
    }
  }

  /** The crash that takes the bundle away. */
  function Loss(sha: Sha, h: Host): Event {
    Provisioning(Crash({sha(h.booted.image.manifest)}, map[], map[]))
  }

  lemma {:induction false} SetupCanLose(sha: Sha, h: Host, manifests: set<Data>)
    requires Digests(sha) && SetupAllowed(sha, h) && !Durable(sha, h) && h.booted.image.manifest in manifests
    ensures var after := Happen(sha, h, Setup);
      && Trace(sha, after, [Loss(sha, h)], manifests)
      && End(sha, after, [Loss(sha, h)], manifests).bootArgument
      && !BundleChecks(sha, End(sha, after, [Loss(sha, h)], manifests).store.slots, h.booted.image)
  {
    assert [Loss(sha, h)][1..] == [];
    assert IsDigest(sha(h.booted.image.manifest));
  }

  // ----- A machine on which setup relies on an unsynced bundle -----

  /** An installed system with an empty store, whose image has a policy of one small file. */
  function FreshHost(sha: Sha): Host {
    var manifest := ManifestOf(SmallPolicy(sha));
    var image := Image(SmallPolicy(sha), manifest, "", sha(manifest), "1", sha(manifest), "1", "v0.1.0");
    Host(EmptyStore(), false, Deployment(image, Some(""), true), None, None, false, false)
  }

  function Provisionings(steps: seq<FirmwareCrash.Step>): seq<Event> {
    if steps == [] then [] else [Provisioning(steps[0])] + Provisionings(steps[1..])
  }

  /** Provisioning steps change the store as they do on their own, and nothing else. */
  lemma {:induction false} OnlyTheStore(sha: Sha, h: Host, steps: seq<FirmwareCrash.Step>, manifests: set<Data>)
    requires FirmwareCrash.Trace(sha, h.store, steps) && h.booted.image.manifest in manifests
    ensures Trace(sha, h, Provisionings(steps), manifests)
    ensures End(sha, h, Provisionings(steps), manifests) == h.(store := FirmwareCrash.End(sha, h.store, steps))
    decreases |steps|
  {
    if steps != [] {
      assert Provisionings(steps)[1..] == Provisionings(steps[1..]);
      OnlyTheStore(sha, h.(store := FirmwareCrash.After(sha, h.store, steps[0])), steps[1..], manifests);
    }
  }

  /** Such a machine exists: a provisioning that fails in its last directory sync, then a setup whose checks pass. */
  lemma {:induction false} UnsyncedSetupIsReached(sha: Sha, manifests: set<Data>)
    requires Digests(sha) && ManifestOf(SmallPolicy(sha)) in manifests
    ensures var h, events := FreshHost(sha), Provisionings(FailingRun(sha));
      && FirmwareCrash.Invariant(sha, h.store) && Trace(sha, h, events, manifests)
      && SetupAllowed(sha, End(sha, h, events, manifests)) && !Durable(sha, End(sha, h, events, manifests))
  {
    UnsyncedIsReached(sha);
    OnlyTheStore(sha, FreshHost(sha), FailingRun(sha), manifests);
  }
}
