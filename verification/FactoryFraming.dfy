// Damage to one DPP copy can make the reader fail, but never return another address.
module FactoryFraming {
  import opened Options
  import opened Bytes
  import opened FactoryLayout

  /** The two images agree on every byte outside `s`. */
  ghost predicate SameOutside(a: seq<byte>, b: seq<byte>, s: Span) {
    |a| == |b| && forall i :: 0 <= i < |a| && !Covers(s, i) ==> a[i] == b[i]
  }

  lemma SameSlice(a: seq<byte>, b: seq<byte>, s: Span, lo: nat, hi: nat)
    requires SameOutside(a, b, s) && lo <= hi <= |a|
    requires hi <= s.offset || s.offset + s.size <= lo
    ensures a[lo..hi] == b[lo..hi]
  {
    forall i | lo <= i < hi
      ensures a[i] == b[i]
    {
      assert !Covers(s, i);
    }
  }

  /** An image with the same header sector and table has the same partitions. */
  lemma SameTable(crc: Crc, a: seq<byte>, b: seq<byte>, size: nat, sector: nat, p: Partitions)
    requires |a| == |b| && Gpt(crc, a, size, sector, p) && a[sector..2 * sector] == b[sector..2 * sector]
    requires var g := Geo(a, sector); var at := g.table * sector; a[at..at + g.TableBytes()] == b[at..at + g.TableBytes()]
    ensures Gpt(crc, b, size, sector, p)
  {
    assert a[sector..sector + 8] == a[sector..2 * sector][..8];
    assert b[sector..sector + 8] == b[sector..2 * sector][..8];
    assert GoodTable(crc, b, size, sector);
    assert Table(crc, a, size, sector) == Table(crc, b, size, sector);
  }

  /** The partition table is outside both copies, so it survives any change to one of them. */
  lemma LayoutFrame(crc: Crc, a: seq<byte>, b: seq<byte>, size: nat, sector: nat, p: Partitions, copy: Copy)
    requires Layout(crc, a, size, sector, p) && SameOutside(a, b, p.Of(copy))
    ensures Layout(crc, b, size, sector, p)
  {
    LayoutSafe(crc, a, size, sector, p);
    var s, g := p.Of(copy), Geo(a, sector);
    SameSlice(a, b, s, 512, 520);
    SameSlice(a, b, s, sector, 2 * sector);
    SameSlice(a, b, s, g.table * sector, g.table * sector + g.TableBytes());
    SameTable(crc, a, b, size, sector, p);
  }

  lemma OtherCopyFrame(a: seq<byte>, b: seq<byte>, changed: Span, kept: Span)
    requires SameOutside(a, b, changed) && Disjoint(changed, kept)
    ensures Part(a, kept) == Part(b, kept)
  {
    if kept.offset < |a| {
      var hi := if |a| < kept.offset + kept.size then |a| else kept.offset + kept.size;
      SameSlice(a, b, changed, kept.offset, hi);
    }
  }

  /** Two accepted images that differ only inside one copy carry the same address. */
  lemma OneCopyCannotChangeTheAddress(crc: Crc, a: seq<byte>, b: seq<byte>, size: nat, copy: Copy,
                                      s: nat, p: Partitions, v: string, t: nat, q: Partitions, w: string)
    requires Factory(crc, a, size, s, p, v) && Factory(crc, b, size, t, q, w)
    requires SameOutside(a, b, p.Of(copy))
    ensures s == t && p == q && v == w
  {
    LayoutFrame(crc, a, b, size, s, p, copy);
    LayoutUnique(crc, b, size, s, p, t, q);
    LayoutSafe(crc, a, size, s, p);
    var kept := p.Of(if copy == Main then Backup else Main);
    OtherCopyFrame(a, b, p.Of(copy), kept);
    RecordUnique(Part(a, kept), kept.size, v, w);
  }

  /** The bytes of an accepted volume: headers, directory and payload occupy separate ranges in order. */
  lemma VolumeSafe(part: seq<byte>, length: nat, value: string)
    requires Record(part, length, value)
    ensures exists k: nat :: k < SlotCount(part) && Kinds(part, length)[k] == Bluetooth(Some(value))
              && 68 <= SecondAt(part) && SecondAt(part) + 68 <= DirectorySpan(part).offset
              && DirectorySpan(part).offset + DirectorySpan(part).size <= PayloadAt(part, length, k)
              && PayloadAt(part, length, k) + 8 <= length
  {
    var kinds := Kinds(part, length);
    var k: nat :| OneRecord(kinds, k, value);
    KindsAt(part, length, |kinds|, k);
  }

  /** No accepted image can be read for more. */
  lemma CostBound(crc: Crc, disk: seq<byte>, size: nat, sector: nat, p: Partitions, value: string)
    requires Factory(crc, disk, size, sector, p, value)
    ensures FactoryCost(disk, sector, p) <= MOST
  {
  }
}
