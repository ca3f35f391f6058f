// The host side of firmware setup: the mount and host checks, the ordered installation,
// and what the checks establish for the next boot's loader and for the update preflight.
module FirmwareHost {
  import opened Options
  import opened Words
  import opened FirmwarePolicy
  import opened FirmwareBundle
  import opened FirmwareStore
  import opened FirmwareLoader

  const MIN_FREE := 512 * 1024 * 1024
  const STORE_PATHS := ["/boot", "/boot/azurefin", "/boot/azurefin/firmware"]

  datatype Mount = Mount(target: string, fstype: string, uuid: Option<string>, options: seq<string>)

  datatype Status = Status(booted: bool, staged: bool, rollbackQueued: bool, overlay: bool)

  // ----- The checks -----

  predicate MountOk(m: Mount) {
    && m.target == "/boot" && m.fstype == "ext4" && m.uuid.Some? && IsUuid(m.uuid.value)
    && "rw" in m.options && "ro" !in m.options
  }

  /** The boot file system's UUID, when it is the one the kernel arguments name. */
  function ValidateMount(mounts: seq<Mount>, args: seq<string>): Option<string> {
    if |mounts| != 1 || !MountOk(mounts[0]) then None
    else if UuidArguments(args) != [mounts[0].uuid.value] then None
    else mounts[0].uuid
  }

  predicate IsLive(a: string) {
    a == "azurefin.live=1" || a == "rd.live.image"
  }

  predicate LiveSession(args: seq<string>) {
    exists i :: 0 <= i < |args| && IsLive(args[i])
  }

  /** Setup's check: it tries the mount with the argument it would add, then looks at what is there already. */
  function ValidateHost(mounts: seq<Mount>, args: seq<string>, status: Status): Option<string> {
    if !status.booted || status.staged || status.rollbackQueued || status.overlay then None
    else if LiveSession(args) then None
    else
      var uuid := if |mounts| == 1 && mounts[0].uuid.Some? then mounts[0].uuid.value else "";
      match ValidateMount(mounts, [PREFIX + uuid])
      case None => None
      case Some(found) => if UuidArguments(args) in [[], [found]] then Some(found) else None
  }

  predicate CheckSpace(available: int) {
    available >= MIN_FREE
  }

  // ----- The boot argument -----

  predicate IsUuidArgument(a: string) {
    PREFIX <= a
  }

  function Replaced(args: seq<string>, uuid: string): seq<string> {
    if args == [] then []
    else
      var last := args[|args| - 1];
      Replaced(args[..|args| - 1], uuid) + [if IsUuidArgument(last) then PREFIX + uuid else last]
  }

  /** What the boot loader entries hold after `--replace`: the old argument replaced, or a new one at the end. */
  function SetArgument(args: seq<string>, uuid: string): seq<string> {
    if UuidArguments(args) == [] then args + [PREFIX + uuid] else Replaced(args, uuid)
  }

  /** All the other arguments, in order. */
  function Others(args: seq<string>): seq<string> {
    if args == [] then []
    else Others(args[..|args| - 1]) + if IsUuidArgument(args[|args| - 1]) then [] else [args[|args| - 1]]
  }

  lemma {:induction false} Snoc(args: seq<string>, a: string)
    ensures UuidArguments(args + [a]) == UuidArguments(args) + if IsUuidArgument(a) then [a[|PREFIX|..]] else []
    ensures Others(args + [a]) == Others(args) + if IsUuidArgument(a) then [] else [a]
  {
    assert (args + [a])[..|args|] == args;
  }

  lemma Written(uuid: string)
    ensures IsUuidArgument(PREFIX + uuid) && (PREFIX + uuid)[|PREFIX|..] == uuid
  {
  }

  lemma {:induction false} ReplacedUuids(args: seq<string>, uuid: string)
    ensures |UuidArguments(Replaced(args, uuid))| == |UuidArguments(args)| && |Replaced(args, uuid)| == |args|
    ensures forall i :: 0 <= i < |UuidArguments(args)| ==> UuidArguments(Replaced(args, uuid))[i] == uuid
  {
    if args != [] {
      var front, last := args[..|args| - 1], args[|args| - 1];
      ReplacedUuids(front, uuid);
      assert front + [last] == args;
      Snoc(front, last);
      ReplacedLast(Replaced(front, uuid), last, uuid);
    }
  }

  lemma {:induction false} ReplacedLast(before: seq<string>, last: string, uuid: string)
    ensures var now := if IsUuidArgument(last) then PREFIX + uuid else last;
      && UuidArguments(before + [now]) == UuidArguments(before) + (if IsUuidArgument(last) then [uuid] else [])
      && Others(before + [now]) == Others(before) + (if IsUuidArgument(last) then [] else [last])
  {
    Written(uuid);
    Snoc(before, if IsUuidArgument(last) then PREFIX + uuid else last);
  }

  lemma {:induction false} ReplacedOthers(args: seq<string>, uuid: string)
    ensures Others(Replaced(args, uuid)) == Others(args)
  {
    if args != [] {
      var front, last := args[..|args| - 1], args[|args| - 1];
      ReplacedOthers(front, uuid);
      assert front + [last] == args;
      Snoc(front, last);
      ReplacedLast(Replaced(front, uuid), last, uuid);
    }
  }

  lemma {:induction false} ReplacedMembers(args: seq<string>, uuid: string, a: string)
    requires a in Replaced(args, uuid) && !IsUuidArgument(a)
    ensures a in args
  {
    Written(uuid);
    if a != Replaced(args, uuid)[|Replaced(args, uuid)| - 1] { ReplacedMembers(args[..|args| - 1], uuid, a); }
  }

  /** Once the host check passed, setting the argument leaves exactly one, naming the mounted boot file system;
      every other argument stays where it was. The update preflight's mount check then passes, the next boot's
      loader looks for that file system, and setup itself would pass again and change nothing. */
  lemma {:induction false} SetArgumentAgrees(mounts: seq<Mount>, args: seq<string>, status: Status)
    requires ValidateHost(mounts, args, status).Some?
    ensures var uuid := ValidateHost(mounts, args, status).value;
      var now := SetArgument(args, uuid);
      && mounts == [mounts[0]] && mounts[0].uuid == Some(uuid)
      && UuidArguments(now) == [uuid] && IsUuid(uuid) && Others(now) == Others(args)
      && ValidateMount(mounts, now) == Some(uuid)
      && ValidateHost(mounts, now, status) == Some(uuid) && SetArgument(now, uuid) == now
  {
    var uuid := ValidateHost(mounts, args, status).value;
    var now := SetArgument(args, uuid);
    OneArgument(args, uuid);
    SettledArgument(now, uuid);
    StillInstalled(args, uuid);
    OnlyArgument(uuid);
  }

  lemma {:induction false} OneArgument(args: seq<string>, uuid: string)
    requires UuidArguments(args) == [] || UuidArguments(args) == [uuid]
    ensures UuidArguments(SetArgument(args, uuid)) == [uuid] && Others(SetArgument(args, uuid)) == Others(args)
  {
    Written(uuid);
    ReplacedUuids(args, uuid);
    ReplacedOthers(args, uuid);
    Snoc(args, PREFIX + uuid);
  }

  lemma LiveIsOther(a: string)
    requires IsLive(a)
    ensures !IsUuidArgument(a)
  {
    assert PREFIX[0] == 'a' && PREFIX[9] == 'b';
  }

  lemma StillInstalled(args: seq<string>, uuid: string)
    requires !LiveSession(args)
    ensures !LiveSession(SetArgument(args, uuid))
  {
    var now := SetArgument(args, uuid);
    Written(uuid);
    forall i | 0 <= i < |now|
      ensures !IsLive(now[i])
    {
      if IsLive(now[i]) {
        LiveIsOther(now[i]);
        if UuidArguments(args) != [] { ReplacedMembers(args, uuid, now[i]); }
      }
    }
  }

  lemma {:induction false} SettledArgument(args: seq<string>, uuid: string)
    requires forall i :: 0 <= i < |UuidArguments(args)| ==> UuidArguments(args)[i] == uuid
    ensures Replaced(args, uuid) == args
  {
    if args != [] {
      var front, last := args[..|args| - 1], args[|args| - 1];
      assert front + [last] == args;
      Snoc(front, last);
      assert forall i :: 0 <= i < |UuidArguments(front)| ==> UuidArguments(front)[i] == UuidArguments(args)[i];
      SettledArgument(front, uuid);
      if IsUuidArgument(last) {
        assert UuidArguments(args)[|UuidArguments(front)|] == uuid;
        assert last == PREFIX + last[|PREFIX|..];
      }
    }
  }

  lemma {:induction false} OnlyArgument(uuid: string)
    ensures UuidArguments([PREFIX + uuid]) == [uuid]
  {
    Written(uuid);
    Snoc([], PREFIX + uuid);
    assert [] + [PREFIX + uuid] == [PREFIX + uuid];
  }

  /** Setup may proceed exactly on an installed, settled system with one proper boot file system whose UUID the
      kernel arguments do not contradict. Trying the mount check with the new argument loses nothing. */
  lemma {:induction false} HostAccepted(mounts: seq<Mount>, args: seq<string>, status: Status, uuid: string)
    ensures ValidateHost(mounts, args, status) == Some(uuid) <==>
              && status == Status(true, false, false, false) && !LiveSession(args)
              && |mounts| == 1 && MountOk(mounts[0]) && mounts[0].uuid == Some(uuid)
              && (UuidArguments(args) == [] || UuidArguments(args) == [uuid])
  {
    if |mounts| == 1 && mounts[0].uuid.Some? { OnlyArgument(mounts[0].uuid.value); }
  }

  /** A boot UUID that is doubled, or is not that of the mounted boot file system, is never replaced. */
  lemma {:induction false} ConflictIsRefused(mounts: seq<Mount>, args: seq<string>, status: Status, uuid: string)
    requires uuid in UuidArguments(args) && (|UuidArguments(args)| > 1 || |mounts| != 1 || mounts[0].uuid != Some(uuid))
    ensures ValidateHost(mounts, args, status).None?
  {
  }

  // ----- Installation -----

  class Installation {
    const store: Store
    var arguments: seq<string>

    constructor (store: Store, arguments: seq<string>)
      ensures this.store == store && this.arguments == arguments
    {
      this.store, this.arguments := store, arguments;
    }

    /** The bundle of the image's own policy is in the store, complete and with its digests. */
    method CheckBundle(sha: Sha, files: seq<Entry>, expected: Data, trusted: string -> bool) returns (ok: bool)
      ensures ok <==>
                && Accepted(files) && ManifestOf(files) == expected && sha(expected) in store.slots
                && (forall p :: p in STORE_PATHS ==> trusted(p)) && trusted(sha(expected))
                && store.slots[sha(expected)].Bundle? && Holds(sha, store.slots[sha(expected)].tree, files)
    {
      var contents := Manifest(files);
      if contents.None? || contents.value != expected { return false; }
      var id := sha(expected);
      if !TrustedAll(trusted) || !trusted(id) || id !in store.slots || store.slots[id].Other? { return false; }
      var total := InventoryOf(sha, store.slots[id].tree, files);
      return total.Some?;
    }

    /** Provision, check, and only then set the boot argument: a failure never opts the machine into the loader. */
    method InstallStore(sha: Sha, sources: seq<Source>, files: seq<Entry>, expected: Data, uuid: string,
                        temporary: string, trusted: string -> bool) returns (ok: bool)
      requires Digests(sha) && Sound(sha, store.slots) && |sources| == |files|
      requires temporary !in store.slots && !IsDigest(temporary)
      modifies this`arguments, store
      ensures Sound(sha, store.slots)
      ensures store.slots == old(store.slots) || (
                && Accepted(files) && IdOf(sha, files) !in old(store.slots) && IdOf(sha, files) in store.slots
                && store.slots == old(store.slots)[IdOf(sha, files) := store.slots[IdOf(sha, files)]])
      ensures !ok ==> arguments == old(arguments)
      ensures ok ==>
                && arguments == SetArgument(old(arguments), uuid)
                && Accepted(files) && ManifestOf(files) == expected && sha(expected) in store.slots
                && store.slots[sha(expected)].Bundle? && Holds(sha, store.slots[sha(expected)].tree, files)
    {
      if !TrustedAll(trusted) { return false; }
      var id := store.Provision(sha, sources, files, temporary);
      if id.None? { return false; }
      ok := CheckBundle(sha, files, expected, trusted);
      if ok { arguments := SetArgument(arguments, uuid); }
    }
  }

  predicate TrustedAll(trusted: string -> bool) {
    forall p :: p in STORE_PATHS ==> trusted(p)
  }

  /** What the diagnostic and the update preflight check together. */
  predicate PreflightPasses(sha: Sha, mounts: seq<Mount>, args: seq<string>, slots: Slots, files: seq<Entry>,
                            expected: Data, available: int) {
    && ValidateMount(mounts, args).Some?
    && Accepted(files) && ManifestOf(files) == expected && sha(expected) in slots && slots[sha(expected)].Bundle?
    && Holds(sha, slots[sha(expected)].tree, files) && CheckSpace(available)
  }

  /** A setup that succeeded leaves a machine that passes the preflight exactly when the space that was used leaves
      the reserve, which the check before it guarantees for anything up to the largest bundle. The next boot exposes
      the policy exactly when the loader allows all targets. */
  lemma {:induction false} SetupThenPreflight(sha: Sha, mounts: seq<Mount>, args: seq<string>, status: Status, slots: Slots,
                           files: seq<Entry>, expected: Data, available: int, used: nat, devices: map<string, BootFs>)
    requires ValidateHost(mounts, args, status).Some? && CheckSpace(available - MAX_TOTAL)
    requires Digests(sha) && Sound(sha, slots) && Accepted(files) && ManifestOf(files) == expected
    requires sha(expected) in slots && slots[sha(expected)].Bundle? && Holds(sha, slots[sha(expected)].tree, files)
    requires var uuid := ValidateHost(mounts, args, status).value; uuid in devices && devices[uuid] == BootFs(true, slots)
    ensures var now := SetArgument(args, ValidateHost(mounts, args, status).value);
      && (PreflightPasses(sha, mounts, now, slots, files, expected, available - used) <==> CheckSpace(available - used))
      && (used <= MAX_TOTAL ==> CheckSpace(available - used))
      && (Exposes(sha, now, expected, devices, slots[sha(expected)].tree) <==> Loadables(files))
  {
    SetArgumentAgrees(mounts, args, status);
    assert IsDigest(sha(expected));
    assert Verified(sha, slots[sha(expected)].tree, sha(expected));
    LoaderAgrees(sha, slots[sha(expected)].tree, files);
  }
}
