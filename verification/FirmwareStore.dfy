// The store of published bundles, and provisioning as one call on it.
// FirmwareCrash.dfy takes the same call apart into file-system operations.
module FirmwareStore {
  import opened Options
  import opened Words
  import opened FirmwarePolicy
  import opened FirmwareBundle

  /** What a name in the store can be. */
  datatype Slot = Bundle(tree: Tree) | Other

  type Slots = map<string, Slot>

  function IdOf(sha: Sha, files: seq<Entry>): string {
    sha(ManifestOf(files))
  }

  /** The digest function yields 64 hexadecimal digits. */
  ghost predicate Digests(sha: Sha) {
    forall d :: IsDigest(sha(d))
  }

  /** The tree is the bundle `id` promises: it holds a policy whose manifest has that digest, and no links. */
  ghost predicate Verified(sha: Sha, tree: Tree, id: string) {
    NoLinks(tree) && exists files :: Accepted(files) && IdOf(sha, files) == id && Holds(sha, tree, files)
  }

  /** Every published name is a verified bundle. */
  ghost predicate Sound(sha: Sha, slots: Slots) {
    forall id :: id in slots && IsDigest(id) ==> slots[id].Bundle? && Verified(sha, slots[id].tree, id)
  }

  lemma VerifiedNonempty(sha: Sha, tree: Tree, id: string)
    requires Verified(sha, tree, id)
    ensures tree != map[]
  {
    var files :| Accepted(files) && IdOf(sha, files) == id && Holds(sha, tree, files);
    assert HoldsEntry(sha, tree, files[0]);
  }

  lemma PublishSound(sha: Sha, slots: Slots, id: string, files: seq<Entry>, tree: Tree)
    requires Sound(sha, slots) && Accepted(files) && id == IdOf(sha, files) && Holds(sha, tree, files) && NoLinks(tree)
    ensures Sound(sha, slots[id := Bundle(tree)])
  {
    assert Verified(sha, tree, id);
  }

  /** What happens to an unpublished name does not matter. */
  lemma TemporarySound(sha: Sha, slots: Slots, temp: string, slot: Slot)
    requires Sound(sha, slots) && !IsDigest(temp)
    ensures Sound(sha, slots[temp := slot]) && Sound(sha, slots - {temp})
  {
  }

  lemma TemporaryRemoved(before: Slots, temporary: string, during: Slots)
    requires temporary !in before && temporary in during
    requires during.Keys == before.Keys + {temporary} && forall n :: n in before ==> during[n] == before[n]
    ensures during - {temporary} == before
  {
  }

  class Store {
    var slots: Slots

    constructor (slots: Slots)
      ensures this.slots == slots
    {
      this.slots := slots;
    }

    /** An existing bundle is checked, never touched. */
    method CheckExisting(sha: Sha, files: seq<Entry>, id: string) returns (ok: bool)
      requires id in slots
      ensures ok <==> slots[id].Bundle? && Accepted(files) && Holds(sha, slots[id].tree, files)
    {
      if slots[id].Other? { return false; }
      var held := InventoryOf(sha, slots[id].tree, files);
      return held.Some?;
    }

    /** Build the bundle under a temporary name, then rename it; the temporary name never survives. */
    method Publish(sha: Sha, sources: seq<Source>, files: seq<Entry>, temporary: string, id: string) returns (ok: bool)
      requires temporary !in slots && temporary != id && |sources| == |files|
      modifies this
      ensures !ok ==> slots == old(slots)
      ensures ok ==> exists tree :: slots == old(slots)[id := Bundle(tree)] && NoLinks(tree) && Holds(sha, tree, files)
    {
      ghost var before := slots;
      var work := new Workspace();
      slots := slots[temporary := Bundle(work.tree)];
      ok := work.CopyVerified(sha, sources, files);
      slots := slots[temporary := Bundle(work.tree)];
      TemporaryRemoved(before, temporary, slots);
      if ok {
        var total := InventoryOf(sha, work.tree, files);
        ok := total.Some?;
      }
      if ok {
        slots := (slots - {temporary})[id := Bundle(work.tree)];
      } else {
        slots := slots - {temporary};
      }
    }

    /** Publish the bundle of a policy. On failure the store is as before; on success only the bundle is new. */
    method Provision(sha: Sha, sources: seq<Source>, files: seq<Entry>, temporary: string) returns (id: Option<string>)
      requires Digests(sha) && Sound(sha, slots) && temporary !in slots && !IsDigest(temporary) && |sources| == |files|
      modifies this
      ensures Sound(sha, slots)
      ensures id.None? ==> slots == old(slots)
      ensures id.Some? ==>
                && Accepted(files) && id.value == IdOf(sha, files) && id.value in slots && slots[id.value].Bundle?
                && Holds(sha, slots[id.value].tree, files)
                && slots == old(slots)[id.value := slots[id.value]]
                && (id.value in old(slots) ==> slots == old(slots))
    {
      var manifest := Manifest(files);
      if manifest.None? { return None; }
      var bundle := sha(manifest.value);
      if bundle in slots {
        var ok := CheckExisting(sha, files, bundle);
        if ok { assert slots == slots[bundle := slots[bundle]]; }
        return if ok then Some(bundle) else None;
      }
      ghost var before := slots;
      var ok := Publish(sha, sources, files, temporary, bundle);
      if !ok { return None; }
      ghost var tree :| slots == before[bundle := Bundle(tree)] && NoLinks(tree) && Holds(sha, tree, files);
      PublishSound(sha, before, bundle, files, tree);
      return Some(bundle);
    }
  }
}
