// The release audit of an OCI layout: a recursive walk that remembers audited layers,
// proved equivalent to auditing every occurrence of everything reachable.
module OciAudit {
  import opened Words

  type Data = string

  /** What a blob says as JSON: an image index, an image manifest, or neither. */
  datatype Document = Index(children: seq<string>) | Image(config: string, layers: seq<string>) | Broken

  /** The layout on disk, and the parts of the audit that are other tools' business. */
  datatype Layout = Layout(blobs: map<string, Data>, sha: Data -> string, parse: Data -> Document,
                           privateLabel: Data -> bool, cleanTar: Data -> bool)

  const ALGORITHM := "sha256:"

  /** The digest is well formed and its blob is present with that digest. */
  predicate BlobOk(l: Layout, digest: string) {
    && ALGORITHM <= digest && IsDigest(digest[|ALGORITHM|..]) && digest[|ALGORITHM|..] in l.blobs
    && l.sha(l.blobs[digest[|ALGORITHM|..]]) == digest[|ALGORITHM|..]
  }

  function BlobOf(l: Layout, digest: string): Data
    requires BlobOk(l, digest)
  {
    l.blobs[digest[|ALGORITHM|..]]
  }

  function Parsed(l: Layout, digest: string): Document {
    if BlobOk(l, digest) then l.parse(BlobOf(l, digest)) else Broken
  }

  predicate LayerOk(l: Layout, digest: string) {
    BlobOk(l, digest) && l.cleanTar(BlobOf(l, digest))
  }

  /** One reachable document on its own. */
  predicate NodeOk(l: Layout, digest: string) {
    match Parsed(l, digest)
    case Broken => false
    case Index(_) => true
    case Image(config, layers) =>
      && BlobOk(l, config) && !l.privateLabel(BlobOf(l, config))
      && forall i :: 0 <= i < |layers| ==> LayerOk(l, layers[i])
  }

  /** Index nesting is well founded: every index ranks above its children. */
  ghost predicate Acyclic(l: Layout, rank: string -> nat) {
    forall d, c :: Parsed(l, d).Index? && c in Parsed(l, d).children ==> rank(c) < rank(d)
  }

  /** A chain of nested indexes from `from` to `to`. */
  ghost predicate Chain(l: Layout, chain: seq<string>, from: string, to: string) {
    && chain != [] && chain[0] == from && chain[|chain| - 1] == to
    && forall i :: 0 <= i < |chain| - 1 ==> Parsed(l, chain[i]).Index? && chain[i + 1] in Parsed(l, chain[i]).children
  }

  ghost predicate Reaches(l: Layout, from: string, to: string) {
    exists chain :: Chain(l, chain, from, to)
  }

  /** Auditing every occurrence: everything reachable from the descriptor is in order. */
  ghost predicate AllReachableOk(l: Layout, from: string) {
    forall to :: Reaches(l, from, to) ==> NodeOk(l, to)
  }

  lemma ReachesSelf(l: Layout, d: string)
    ensures Reaches(l, d, d)
  {
    assert Chain(l, [d], d, d);
  }

  lemma ReachesStep(l: Layout, d: string, c: string, to: string)
    requires Parsed(l, d).Index? && c in Parsed(l, d).children && Reaches(l, c, to)
    ensures Reaches(l, d, to)
  {
    var chain :| Chain(l, chain, c, to);
    assert Chain(l, [d] + chain, d, to);
  }

  lemma ReachesSplit(l: Layout, d: string, to: string) returns (c: string)
    requires Reaches(l, d, to) && d != to
    ensures Parsed(l, d).Index? && c in Parsed(l, d).children && Reaches(l, c, to)
  {
    var chain :| Chain(l, chain, d, to);
    c := chain[1];
    assert Chain(l, chain[1..], c, to);
  }

  /** One level of the walk. */
  lemma LevelByLevel(l: Layout, d: string)
    ensures AllReachableOk(l, d) <==>
              NodeOk(l, d) && (Parsed(l, d).Index? ==> forall c :: c in Parsed(l, d).children ==> AllReachableOk(l, c))
  {
    ReachesSelf(l, d);
    if NodeOk(l, d) && (Parsed(l, d).Index? ==> forall c :: c in Parsed(l, d).children ==> AllReachableOk(l, c)) {
      forall to | Reaches(l, d, to)
        ensures NodeOk(l, to)
      {
        if to != d {
          var c := ReachesSplit(l, d, to);
          assert AllReachableOk(l, c);
        }
      }
    }
    if AllReachableOk(l, d) && Parsed(l, d).Index? {
      forall c, to | c in Parsed(l, d).children && Reaches(l, c, to)
        ensures NodeOk(l, to)
      {
        ReachesStep(l, d, c, to);
      }
    }
  }

  class Audit {
    const layout: Layout
    var checked: set<string>

    /** Everything remembered was audited and passed. */
    ghost predicate Valid()
      reads this
    {
      forall d :: d in checked ==> LayerOk(layout, d)
    }

    constructor (layout: Layout)
      ensures Valid() && this.layout == layout && checked == {}
    {
      this.layout, checked := layout, {};
    }

    /** The layers of one image; layers already audited are skipped. */
    method Layers(layers: seq<string>) returns (ok: bool)
      requires Valid()
      modifies this
      ensures Valid() && old(checked) <= checked
      ensures ok <==> forall i :: 0 <= i < |layers| ==> LayerOk(layout, layers[i])
      ensures ok ==> forall i :: 0 <= i < |layers| ==> layers[i] in checked
    {
      for i := 0 to |layers|
        invariant Valid() && old(checked) <= checked
        invariant forall k :: 0 <= k < i ==> layers[k] in checked
      {
        if layers[i] !in checked {
          if !BlobOk(layout, layers[i]) || !layout.cleanTar(BlobOf(layout, layers[i])) { return false; }
          checked := checked + {layers[i]};
        }
      }
      return true;
    }

    /** One descriptor and everything below it: the verdict is that of auditing every occurrence. */
    method Manifest(digest: string, ghost rank: string -> nat) returns (ok: bool)
      requires Valid() && Acyclic(layout, rank)
      modifies this
      ensures Valid() && old(checked) <= checked
      ensures ok <==> AllReachableOk(layout, digest)
      decreases rank(digest), 1
    {
      LevelByLevel(layout, digest);
      if !BlobOk(layout, digest) { return false; }
      match layout.parse(BlobOf(layout, digest))
      case Broken => return false;
      case Index(children) => ok := Children(digest, children, rank);
      case Image(config, layers) =>
        if !BlobOk(layout, config) || layout.privateLabel(BlobOf(layout, config)) { return false; }
        ok := Layers(layers);
    }

    method Children(digest: string, children: seq<string>, ghost rank: string -> nat) returns (ok: bool)
      requires Valid() && Acyclic(layout, rank) && Parsed(layout, digest) == Index(children)
      modifies this
      ensures Valid() && old(checked) <= checked
      ensures ok <==> forall c :: c in children ==> AllReachableOk(layout, c)
      decreases rank(digest), 0
    {
      for i := 0 to |children|
        invariant Valid() && old(checked) <= checked
        invariant forall k :: 0 <= k < i ==> AllReachableOk(layout, children[k])
      {
        assert children[i] in children;
        ok := Manifest(children[i], rank);
        if !ok { return; }
      }
      return true;
    }
  }

  /** The whole audit: a nonempty index whose every reachable document and layer is in order. */
  method AuditOci(layout: Layout, index: seq<string>, ghost rank: string -> nat) returns (ok: bool)
    requires Acyclic(layout, rank)
    ensures ok <==> index != [] && forall d :: d in index ==> AllReachableOk(layout, d)
  {
    if index == [] { return false; }
    var audit := new Audit(layout);
    for i := 0 to |index|
      invariant audit.Valid() && audit.layout == layout && fresh(audit)
      invariant forall k :: 0 <= k < i ==> AllReachableOk(layout, index[k])
    {
      ok := audit.Manifest(index[i], rank);
      if !ok { assert index[i] in index; return; }
    }
    return true;
  }

  /** What a passed audit promises about every layer of every image, however deeply nested and however often skipped. */
  lemma EveryLayerAudited(l: Layout, index: seq<string>, d: string, image: string, layer: string)
    requires forall e :: e in index ==> AllReachableOk(l, e)
    requires d in index && Reaches(l, d, image) && Parsed(l, image).Image? && layer in Parsed(l, image).layers
    ensures LayerOk(l, layer)
  {
    assert NodeOk(l, image);
  }
}
