// What it means for a storage image to carry a factory Bluetooth address:
// a GPT with two DPP partitions, each an RWFS volume with one BT record.
// Everything here is about byte contents; FactoryReader.dfy does the reading.
module FactoryLayout {
  import opened Options
  import opened Bytes

  const SLOT := 244
  const SIGNATURE: seq<byte> := Ascii("EFI PART")
  const RWFS: seq<byte> := Ascii("RWFS")

  /** CRC-32 is a parameter: nothing here depends on which checksum it is. */
  type Crc = seq<byte> -> word

  datatype Span = Span(offset: nat, size: nat)

  /** A byte position lies inside a span. */
  predicate Covers(s: Span, i: int) {
    s.offset <= i < s.offset + s.size
  }

  predicate Disjoint(a: Span, b: Span) {
    a.offset + a.size <= b.offset || b.offset + b.size <= a.offset
  }

  // ----- Printed addresses -----

  function HexDigit(n: nat): (c: char)
    requires n < 16
  {
    "0123456789ABCDEF"[n]
  }

  function Print(mac: seq<byte>): (s: string)
    ensures |mac| > 0 ==> |s| == 3 * |mac| - 1
  {
    if mac == [] then ""
    else
      var pair := [HexDigit(mac[0] / 16), HexDigit(mac[0] % 16)];
      if |mac| == 1 then pair else pair + ":" + Print(mac[1..])
  }

  predicate IsHex(c: char) {
    '0' <= c <= '9' || 'A' <= c <= 'F'
  }

  /** Six colon-separated pairs of upper-case hexadecimal digits. */
  predicate IsAddressText(v: string) {
    |v| == 17 && forall i :: 0 <= i < 17 ==> if i % 3 == 2 then v[i] == ':' else IsHex(v[i])
  }

  /** The address check, on text that is already upper case. */
  function Address(v: string): Option<string> {
    if !IsAddressText(v) || v == "00:00:00:00:00:00" || v == "FF:FF:FF:FF:FF:FF" then None else Some(v)
  }

  // ----- RWFS volumes -----

  predicate FoldsTo(codePoint: nat, c: char) {
    || codePoint == c as nat
    || ('a' <= c <= 'z' && codePoint == c as nat - 32)
    || (c == 's' && codePoint == 0x17F)
    || (c == 'k' && codePoint == 0x212A)
  }

  /** `text` case-folds to the lower-case ASCII word `w`. */
  predicate FoldsToWord(text: seq<nat>, w: string) {
    |text| == |w| && forall i :: 0 <= i < |w| ==> FoldsTo(text[i], w[i])
  }

  predicate Live(slot: seq<byte>)
    requires |slot| == SLOT
  {
    U32(slot, 204) != 0
  }

  predicate Decodes(slot: seq<byte>)
    requires |slot| == SLOT
  {
    Text(slot[..98]).Some? && Text(slot[98..196]).Some?
  }

  predicate Named(slot: seq<byte>)
    requires |slot| == SLOT && Decodes(slot)
  {
    FoldsToWord(Text(slot[98..196]).value, "qcom") && FoldsToWord(Text(slot[..98]).value, "bt.provision")
  }

  function SecondAt(part: seq<byte>): nat
    requires 68 <= |part|
  {
    U32(part, 8)
  }

  function DirectorySpan(part: seq<byte>): Span
    requires 68 <= |part| && SecondAt(part) + 68 <= |part|
  {
    Span(U32(part, SecondAt(part) + 8), U32(part, SecondAt(part) + 12))
  }

  function DataAt(part: seq<byte>): nat
    requires 68 <= |part| && SecondAt(part) + 68 <= |part|
  {
    U32(part, SecondAt(part) + 20)
  }

  /** Both headers and the directory bounds, in a volume of `length` bytes of which `part` can be read. */
  ghost predicate Bounds(part: seq<byte>, length: nat) {
    && 68 <= |part| <= length && part[..4] == RWFS
    && var second := SecondAt(part);
    && 68 <= second && second + 68 <= |part| && part[second..second + 4] == RWFS
    && var dir := DirectorySpan(part);
    && 0 < dir.size <= SLOT * 4096 && dir.size % SLOT == 0
    && second + 68 <= dir.offset && dir.offset + dir.size <= DataAt(part) <= length
  }

  /** The directory can be read as well. */
  ghost predicate Headers(part: seq<byte>, length: nat) {
    Bounds(part, length) && DirectorySpan(part).offset + DirectorySpan(part).size <= |part|
  }

  function SlotCount(part: seq<byte>): nat
    requires 68 <= |part| && SecondAt(part) + 68 <= |part|
  {
    DirectorySpan(part).size / SLOT
  }

  ghost function Directory(part: seq<byte>, length: nat): (d: seq<byte>)
    requires Headers(part, length)
    ensures |d| == DirectorySpan(part).size
  {
    var s := DirectorySpan(part);
    part[s.offset..s.offset + s.size]
  }

  ghost function Slot(part: seq<byte>, length: nat, k: nat): (s: seq<byte>)
    requires Headers(part, length) && k < SlotCount(part)
    ensures |s| == SLOT
  {
    var at := DirectorySpan(part).offset + SLOT * k;
    part[at..at + SLOT]
  }

  lemma SlotOfDirectory(part: seq<byte>, length: nat, k: nat)
    requires Headers(part, length) && k < SlotCount(part)
    ensures SLOT * k + SLOT <= |Directory(part, length)|
    ensures Directory(part, length)[SLOT * k..SLOT * k + SLOT] == Slot(part, length, k)
  {
    var d, at := Directory(part, length), DirectorySpan(part).offset;
    assert forall i :: 0 <= i < |d| ==> d[i] == part[at + i];
  }

  /** Where the payload of a slot starts. */
  ghost function PayloadAt(part: seq<byte>, length: nat, k: nat): nat
    requires Headers(part, length) && k < SlotCount(part)
  {
    DataAt(part) + U32(Slot(part, length, k), 208)
  }

  /** The address a slot's payload spells, or None when anything about it is wrong. */
  ghost function PayloadAddress(part: seq<byte>, length: nat, k: nat): Option<string>
    requires Headers(part, length) && k < SlotCount(part)
  {
    var slot, at := Slot(part, length, k), PayloadAt(part, length, k);
    if U32(slot, 200) == 8 && 8 <= U32(slot, 196) && at + U32(slot, 196) <= length
      && at + 8 <= |part| && part[at..at + 2] == [1, 6]
    then Address(Print(part[at + 2..at + 8]))
    else None
  }

  datatype Kind = Hole | Garbled | Other | Bluetooth(address: Option<string>)

  ghost function KindOf(part: seq<byte>, length: nat, k: nat): Kind
    requires Headers(part, length) && k < SlotCount(part)
  {
    var slot := Slot(part, length, k);
    if !Live(slot) then Hole
    else if !Decodes(slot) then Garbled
    else if !Named(slot) then Other
    else Bluetooth(PayloadAddress(part, length, k))
  }

  /** What each of the first `n` slots holds. */
  ghost function KindsUpTo(part: seq<byte>, length: nat, n: nat): (kinds: seq<Kind>)
    requires Headers(part, length) && n <= SlotCount(part)
    ensures |kinds| == n
  {
    if n == 0 then [] else KindsUpTo(part, length, n - 1) + [KindOf(part, length, n - 1)]
  }

  ghost function Kinds(part: seq<byte>, length: nat): (kinds: seq<Kind>)
    requires Headers(part, length)
    ensures |kinds| == SlotCount(part)
  {
    KindsUpTo(part, length, SlotCount(part))
  }

  lemma {:induction false} KindsAt(part: seq<byte>, length: nat, n: nat, k: nat)
    requires Headers(part, length) && k < n <= SlotCount(part)
    ensures KindsUpTo(part, length, n)[k] == KindOf(part, length, k)
  {
    if k < n - 1 { KindsAt(part, length, n - 1, k); }
  }

  /** Slot `k` is the only Bluetooth record, it is well formed, and every live slot decodes. */
  predicate OneRecord(kinds: seq<Kind>, k: nat, value: string) {
    && k < |kinds| && kinds[k] == Bluetooth(Some(value))
    && forall j :: 0 <= j < |kinds| ==> kinds[j] != Garbled && (kinds[j].Bluetooth? ==> j == k)
  }

  ghost predicate Carries(kinds: seq<Kind>, value: string) {
    exists k: nat :: OneRecord(kinds, k, value)
  }

  /** The volume holds exactly one Bluetooth record, and `value` is its address. */
  ghost predicate Record(part: seq<byte>, length: nat, value: string) {
    Headers(part, length) && Carries(Kinds(part, length), value)
  }

  /** Bytes read from an acceptable volume: two headers, the directory and one payload. */
  ghost function RecordCost(part: seq<byte>): nat {
    if 68 <= |part| && SecondAt(part) + 68 <= |part| then 144 + DirectorySpan(part).size else 0
  }

  // ----- The partition table -----

  datatype Geometry = Geometry(current: nat, backup: nat, first: nat, last: nat,
                               table: nat, count: nat, entrySize: nat, checksum: nat)
  {
    function TableBytes(): nat { count * entrySize }
  }

  function GeometryOf(header: seq<byte>): Geometry
    requires 92 <= |header|
  {
    Geometry(U64(header, 24), U64(header, 32), U64(header, 40), U64(header, 48),
             U64(header, 72), U32(header, 80), U32(header, 84), U32(header, 88))
  }

  /** The header with its own checksum field cleared. */
  function Blanked(header: seq<byte>): (s: seq<byte>)
    requires 20 <= |header|
    ensures |s| == |header|
  {
    header[..16] + [0, 0, 0, 0] + header[20..]
  }

  ghost predicate Signed(disk: seq<byte>, sector: nat) {
    8 <= sector && 2 * sector <= |disk| && disk[sector..sector + 8] == SIGNATURE
  }

  predicate HeaderFields(crc: Crc, header: seq<byte>, sector: nat)
    requires |header| == sector && 92 <= sector
  {
    && 92 <= U32(header, 12) <= sector && U32(header, 8) == 0x10000
    && crc(Blanked(header[..U32(header, 12)])) == U32(header, 16)
  }

  predicate GeometryBounds(g: Geometry, sector: nat, size: nat)
    requires sector > 0
  {
    && g.current == 1 && 2 <= g.first <= g.last < g.backup < size / sector
    && 0 < g.count <= 4096 && g.entrySize >= 128 && g.entrySize % 128 == 0
    && g.TableBytes() <= 1024 * 1024 && 2 <= g.table
    && g.table * sector + g.TableBytes() <= g.first * sector
  }

  ghost predicate GoodHeader(crc: Crc, disk: seq<byte>, size: nat, sector: nat) {
    && 92 <= sector && Signed(disk, sector)
    && var header := disk[sector..2 * sector];
    && HeaderFields(crc, header, sector)
    && GeometryBounds(GeometryOf(header), sector, size)
  }

  ghost function Geo(disk: seq<byte>, sector: nat): Geometry
    requires 92 <= sector && 2 * sector <= |disk|
  {
    GeometryOf(disk[sector..2 * sector])
  }

  ghost predicate GoodTable(crc: Crc, disk: seq<byte>, size: nat, sector: nat) {
    && GoodHeader(crc, disk, size, sector)
    && var g := Geo(disk, sector);
    && var at := g.table * sector;
    && at + g.TableBytes() <= |disk|
    && crc(disk[at..at + g.TableBytes()]) == g.checksum
  }

  lemma TablePositive(g: Geometry)
    requires 0 < g.count && 0 < g.entrySize
    ensures 0 < g.TableBytes()
  {
  }

  lemma EntryFits(i: nat, count: nat, entrySize: nat)
    requires i < count
    ensures 0 <= i * entrySize && i * entrySize + entrySize <= count * entrySize
  {
    assert (i + 1) * entrySize <= count * entrySize;
  }

  function EntryOf(table: seq<byte>, g: Geometry, i: nat): (e: seq<byte>)
    requires |table| == g.TableBytes() && i < g.count
    ensures |e| == g.entrySize
  {
    EntryFits(i, g.count, g.entrySize);
    table[i * g.entrySize..i * g.entrySize + g.entrySize]
  }

  predicate Used(entry: seq<byte>)
    requires 128 <= |entry|
  {
    entry[..16] != Zeros(16)
  }

  function NameOf(entry: seq<byte>): Option<seq<nat>>
    requires 128 <= |entry|
  {
    Text(entry[56..128])
  }

  const DPP: seq<nat> := [0x44, 0x50, 0x50]
  const DPP_BACKUP: seq<nat> := DPP + [0x5F, 0x42, 0x41, 0x43, 0x4B, 0x55, 0x50]

  datatype Copy = Main | Backup

  datatype Partitions = Partitions(dpp: Span, backup: Span)
  {
    function Of(copy: Copy): Span { if copy == Main then dpp else backup }
  }

  /** What one table entry is: a DPP copy carries its extent unless that is out of range. */
  datatype EntryKind = Unused | BadName | OtherName | Found(copy: Copy, extent: Option<Span>)

  function ExtentOf(entry: seq<byte>, g: Geometry, sector: nat): Option<Span>
    requires 128 <= |entry|
  {
    var start, end := U64(entry, 32), U64(entry, 40);
    if g.first <= start <= end <= g.last then Some(Span(start * sector, (end - start + 1) * sector)) else None
  }

  function EntryKindOf(entry: seq<byte>, g: Geometry, sector: nat): EntryKind
    requires 128 <= |entry|
  {
    if !Used(entry) then Unused
    else if NameOf(entry).None? then BadName
    else if NameOf(entry).value == DPP then Found(Main, ExtentOf(entry, g, sector))
    else if NameOf(entry).value == DPP_BACKUP then Found(Backup, ExtentOf(entry, g, sector))
    else OtherName
  }

  /** What each of the first `n` table entries is. */
  ghost function EntryKinds(table: seq<byte>, g: Geometry, sector: nat, n: nat): (kinds: seq<EntryKind>)
    requires |table| == g.TableBytes() && 128 <= g.entrySize && n <= g.count
    ensures |kinds| == n
  {
    if n == 0 then []
    else EntryKinds(table, g, sector, n - 1) + [EntryKindOf(EntryOf(table, g, n - 1), g, sector)]
  }

  lemma {:induction false} EntryKindsAt(table: seq<byte>, g: Geometry, sector: nat, n: nat, k: nat)
    requires |table| == g.TableBytes() && 128 <= g.entrySize && k < n <= g.count
    ensures EntryKinds(table, g, sector, n)[k] == EntryKindOf(EntryOf(table, g, k), g, sector)
  {
    if k < n - 1 { EntryKindsAt(table, g, sector, n - 1, k); }
  }

  /** Entry `i` is the only one for this copy, and it lies in the usable range. */
  predicate OnlyCopy(kinds: seq<EntryKind>, copy: Copy, i: nat, extent: Span) {
    && i < |kinds| && kinds[i] == Found(copy, Some(extent))
    && forall j :: 0 <= j < |kinds| && kinds[j].Found? && kinds[j].copy == copy ==> j == i
  }

  ghost predicate Locates(kinds: seq<EntryKind>, copy: Copy, extent: Span) {
    exists i: nat :: OnlyCopy(kinds, copy, i, extent)
  }

  /** Every used entry has a readable name, both copies are named once, and they do not overlap. */
  ghost predicate Entries(kinds: seq<EntryKind>, p: Partitions) {
    && BadName !in kinds
    && Locates(kinds, Main, p.dpp) && Locates(kinds, Backup, p.backup)
    && Disjoint(p.dpp, p.backup)
  }

  ghost function Table(crc: Crc, disk: seq<byte>, size: nat, sector: nat): (t: seq<byte>)
    requires GoodTable(crc, disk, size, sector)
    ensures |t| == Geo(disk, sector).TableBytes()
  {
    var g := Geo(disk, sector);
    disk[g.table * sector..g.table * sector + g.TableBytes()]
  }

  ghost function TableKinds(crc: Crc, disk: seq<byte>, size: nat, sector: nat): (kinds: seq<EntryKind>)
    requires GoodTable(crc, disk, size, sector)
  {
    EntryKinds(Table(crc, disk, size, sector), Geo(disk, sector), sector, Geo(disk, sector).count)
  }

  /** The GPT at this sector size is accepted and yields exactly `p`. */
  ghost predicate Gpt(crc: Crc, disk: seq<byte>, size: nat, sector: nat, p: Partitions) {
    GoodTable(crc, disk, size, sector) && Entries(TableKinds(crc, disk, size, sector), p)
  }

  /** Sector size 512 is tried first; 4096 only if there is no signature there. */
  ghost predicate SectorSize(disk: seq<byte>, sector: nat) {
    1024 <= |disk| && if Signed(disk, 512) then sector == 512 else sector == 4096
  }

  ghost predicate Layout(crc: Crc, disk: seq<byte>, size: nat, sector: nat, p: Partitions) {
    |disk| <= size && SectorSize(disk, sector) && Gpt(crc, disk, size, sector, p)
  }

  /** Bytes read to accept the partition table. */
  ghost function GptCost(disk: seq<byte>, sector: nat): nat
    requires 92 <= sector && 2 * sector <= |disk|
  {
    (if sector == 512 then 512 else 512 + 4096) + Geo(disk, sector).TableBytes()
  }

  // ----- The whole image -----

  /** The readable bytes of a span. */
  function Part(disk: seq<byte>, s: Span): seq<byte> {
    if |disk| <= s.offset then []
    else if |disk| < s.offset + s.size then disk[s.offset..]
    else disk[s.offset..s.offset + s.size]
  }

  /** Both copies carry the address `value`. */
  ghost predicate CopiesCarry(disk: seq<byte>, p: Partitions, value: string) {
    && Record(Part(disk, p.dpp), p.dpp.size, value)
    && Record(Part(disk, p.backup), p.backup.size, value)
  }

  ghost function CopiesCost(disk: seq<byte>, p: Partitions): nat {
    RecordCost(Part(disk, p.dpp)) + RecordCost(Part(disk, p.backup))
  }

  /** The image carries the address `value`. */
  ghost predicate Factory(crc: Crc, disk: seq<byte>, size: nat, sector: nat, p: Partitions, value: string) {
    Layout(crc, disk, size, sector, p) && CopiesCarry(disk, p, value)
  }

  ghost function FactoryCost(disk: seq<byte>, sector: nat, p: Partitions): nat
    requires 92 <= sector && 2 * sector <= |disk|
  {
    GptCost(disk, sector) + CopiesCost(disk, p)
  }

  /** The cost of the largest table and two full directories, at the larger sector size. */
  const MOST := 512 + 4096 + 1024 * 1024 + 2 * (144 + SLOT * 4096)

  // ----- What an accepted image guarantees -----

  lemma RecordUnique(part: seq<byte>, length: nat, v: string, w: string)
    requires Record(part, length, v) && Record(part, length, w)
    ensures v == w
  {
    var kinds := Kinds(part, length);
    var j: nat :| OneRecord(kinds, j, v);
    var k: nat :| OneRecord(kinds, k, w);
    assert j == k;
  }

  lemma LocatesUnique(kinds: seq<EntryKind>, copy: Copy, a: Span, b: Span)
    requires Locates(kinds, copy, a) && Locates(kinds, copy, b)
    ensures a == b
  {
    var i: nat :| OnlyCopy(kinds, copy, i, a);
    var j: nat :| OnlyCopy(kinds, copy, j, b);
    assert i == j;
  }

  lemma LayoutUnique(crc: Crc, disk: seq<byte>, size: nat, s: nat, p: Partitions, t: nat, q: Partitions)
    requires Layout(crc, disk, size, s, p) && Layout(crc, disk, size, t, q)
    ensures s == t && p == q
  {
    var kinds := TableKinds(crc, disk, size, s);
    LocatesUnique(kinds, Main, p.dpp, q.dpp);
    LocatesUnique(kinds, Backup, p.backup, q.backup);
  }

  lemma OnlyLayout(crc: Crc, disk: seq<byte>, size: nat, s: nat, p: Partitions)
    requires Layout(crc, disk, size, s, p)
    ensures forall t, q :: Layout(crc, disk, size, t, q) ==> t == s && q == p
  {
    forall t, q | Layout(crc, disk, size, t, q)
      ensures t == s && q == p
    {
      LayoutUnique(crc, disk, size, s, p, t, q);
    }
  }

  /** Once both copies were read, they settle which address the image can carry. */
  lemma CopiesAgree(disk: seq<byte>, p: Partitions, v: string, w: string)
    requires Record(Part(disk, p.dpp), p.dpp.size, v) && Record(Part(disk, p.backup), p.backup.size, w)
    ensures forall u :: CopiesCarry(disk, p, u) <==> u == v == w
  {
    forall u | CopiesCarry(disk, p, u)
      ensures u == v == w
    {
      RecordUnique(Part(disk, p.dpp), p.dpp.size, u, v);
      RecordUnique(Part(disk, p.backup), p.backup.size, u, w);
    }
  }

  /** An image carries at most one address, in one place. */
  lemma FactoryUnique(crc: Crc, disk: seq<byte>, size: nat, s: nat, p: Partitions, v: string,
                      t: nat, q: Partitions, w: string)
    requires Factory(crc, disk, size, s, p, v) && Factory(crc, disk, size, t, q, w)
    ensures s == t && p == q && v == w
  {
    LayoutUnique(crc, disk, size, s, p, t, q);
    RecordUnique(Part(disk, p.dpp), p.dpp.size, v, w);
  }

  lemma Scale(a: nat, b: nat, sector: nat)
    requires a <= b
    ensures a * sector <= b * sector
  {
  }

  lemma SpanEnd(start: nat, end: nat, sector: nat)
    requires start <= end && 0 < sector
    ensures 0 < (end - start + 1) * sector
    ensures start * sector + (end - start + 1) * sector == (end + 1) * sector
  {
  }

  lemma ExtentBounds(entry: seq<byte>, g: Geometry, sector: nat)
    requires 128 <= |entry| && 0 < sector && ExtentOf(entry, g, sector).Some?
    ensures var s := ExtentOf(entry, g, sector).value;
      0 < s.size && g.first * sector <= s.offset && s.offset + s.size <= (g.last + 1) * sector
  {
    var start, end := U64(entry, 32), U64(entry, 40);
    SpanEnd(start, end, sector);
    Scale(g.first, start, sector);
    Scale(end + 1, g.last + 1, sector);
  }

  /** A located copy is nonempty and stays between the first and last usable sectors. */
  lemma {:induction false} ExtentInside(table: seq<byte>, g: Geometry, sector: nat, copy: Copy, s: Span)
    requires |table| == g.TableBytes() && 128 <= g.entrySize && 0 < sector
    requires Locates(EntryKinds(table, g, sector, g.count), copy, s)
    ensures 0 < s.size && g.first * sector <= s.offset && s.offset + s.size <= (g.last + 1) * sector
  {
    var kinds := EntryKinds(table, g, sector, g.count);
    var i: nat :| OnlyCopy(kinds, copy, i, s);
    EntryKindsAt(table, g, sector, g.count, i);
    ExtentBounds(EntryOf(table, g, i), g, sector);
  }

  lemma GeometrySpan(g: Geometry, sector: nat, size: nat)
    requires 0 < sector && GeometryBounds(g, sector, size)
    ensures 2 * sector <= g.first * sector && (g.last + 1) * sector <= g.backup * sector <= size - sector
  {
    Scale(2, g.first, sector);
    Scale(g.last + 1, g.backup, sector);
    Scale(g.backup + 1, size / sector, sector);
    assert (g.backup + 1) * sector == g.backup * sector + sector;
  }

  /** Accepted partitions are nonempty and disjoint, and clear of the header sector, the table and
      the backup header's sector, all inside the device. */
  lemma LayoutSafe(crc: Crc, disk: seq<byte>, size: nat, sector: nat, p: Partitions)
    requires Layout(crc, disk, size, sector, p)
    ensures Disjoint(p.dpp, p.backup)
    ensures forall copy :: var s, g := p.Of(copy), Geo(disk, sector);
              && 0 < s.size && 2 * sector <= s.offset && g.table * sector + g.TableBytes() <= s.offset
              && s.offset + s.size <= g.backup * sector <= size - sector
  {
    var g, table := Geo(disk, sector), Table(crc, disk, size, sector);
    GeometrySpan(g, sector, size);
    forall copy
      ensures var s := p.Of(copy); 0 < s.size && g.first * sector <= s.offset && s.offset + s.size <= (g.last + 1) * sector
    {
      ExtentInside(table, g, sector, copy, p.Of(copy));
    }
  }
}
