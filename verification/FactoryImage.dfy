// Whole factory images: a partition table and two volumes, written and read back.
module FactoryImage {
  import opened Options
  import opened Bytes
  import opened FactoryLayout
  import opened FactoryReader
  import opened FactoryEncoder

  // ----- Tables -----

  /** A table is a list of entries of one size, written one after the other. */
  function Flat(entries: seq<seq<byte>>): seq<byte> {
    if entries == [] then [] else entries[0] + Flat(entries[1..])
  }

  predicate AllSized(entries: seq<seq<byte>>, unit: nat) {
    forall i :: 0 <= i < |entries| ==> |entries[i]| == unit
  }

  lemma {:induction false} FlatSize(entries: seq<seq<byte>>, unit: nat)
    requires AllSized(entries, unit)
    ensures |Flat(entries)| == |entries| * unit
  {
    if entries != [] {
      FlatSize(entries[1..], unit);
      assert |entries| * unit == unit + |entries[1..]| * unit;
    }
  }

  lemma {:induction false} FlatAt(entries: seq<seq<byte>>, unit: nat, i: nat)
    requires AllSized(entries, unit) && i < |entries|
    ensures i * unit + unit <= |Flat(entries)| && Flat(entries)[i * unit..i * unit + unit] == entries[i]
  {
    FlatSize(entries, unit);
    EntryFits(i, |entries|, unit);
    if i > 0 {
      FlatAt(entries[1..], unit, i - 1);
      var rest := Flat(entries[1..]);
      assert i * unit == unit + (i - 1) * unit;
      assert Flat(entries)[unit + (i - 1) * unit..unit + (i - 1) * unit + unit] == rest[(i - 1) * unit..(i - 1) * unit + unit];
    }
  }

  /** A table entry the reader passes over: unused, or readable with another name. */
  predicate Quiet(entry: seq<byte>)
    requires 128 <= |entry|
  {
    !Used(entry) || (NameOf(entry).Some? && NameOf(entry).value != DPP && NameOf(entry).value != DPP_BACKUP)
  }

  predicate AllQuiet(entries: seq<seq<byte>>, unit: nat) {
    128 <= unit && forall i :: 0 <= i < |entries| ==> |entries[i]| == unit && Quiet(entries[i])
  }

  /** The free parts of an entry that names a copy: type and unique GUID, attributes, and bytes past the name. */
  datatype Mark = Mark(guid: seq<byte>, attributes: seq<byte>, extra: seq<byte>)
  {
    predicate Valid(unit: nat) {
      128 <= unit && |guid| == 32 && guid[..16] != Zeros(16) && |attributes| == 8 && |extra| == unit - 128
    }
  }

  function EntryBytes(mark: Mark, start: nat, end: nat, name: seq<nat>, unit: nat): (e: seq<byte>)
    requires mark.Valid(unit) && Plain(name)
    ensures |e| == unit
  {
    mark.guid + EncLE(start, 8) + EncLE(end, 8) + mark.attributes + EncText(name, 72) + mark.extra
  }

  lemma EntryFields(mark: Mark, start: nat, end: nat, name: seq<nat>, unit: nat)
    requires mark.Valid(unit) && Plain(name) && |name| <= 36
    requires start < 0x1_0000_0000_0000_0000 && end < 0x1_0000_0000_0000_0000
    ensures var e := EntryBytes(mark, start, end, name, unit);
      Used(e) && NameOf(e) == Some(name) && U64(e, 32) == start && U64(e, 40) == end
  {
    var e := EntryBytes(mark, start, end, name, unit);
    assert e[..16] == mark.guid[..16];
    assert e[32..40] == EncLE(start, 8) && e[40..48] == EncLE(end, 8);
    assert e[56..128] == EncText(name, 72);
    DecodeEncodeText(name, 72);
    Enc64(start);
    Enc64(end);
  }

  function NameFor(copy: Copy): seq<nat> {
    if copy == Main then DPP else DPP_BACKUP
  }

  function Other(copy: Copy): Copy {
    if copy == Main then Backup else Main
  }

  lemma KindFromFields(e: seq<byte>, at: nat, n: nat, copy: Copy, g: Geometry, sector: nat)
    requires 128 <= |e| && Used(e) && NameOf(e) == Some(NameFor(copy)) && U64(e, 32) == at && U64(e, 40) == at + n - 1
    requires 0 < n && g.first <= at && at + n - 1 <= g.last
    ensures EntryKindOf(e, g, sector) == Found(copy, Some(Span(at * sector, n * sector)))
  {
    assert |DPP| != |DPP_BACKUP|;
    assert at + n - 1 - at + 1 == n;
  }

  lemma EntryKindWritten(mark: Mark, at: nat, n: nat, copy: Copy, g: Geometry, sector: nat, unit: nat)
    requires mark.Valid(unit) && 0 < n && g.first <= at && at + n - 1 <= g.last < 0x1_0000_0000
    ensures EntryKindOf(EntryBytes(mark, at, at + n - 1, NameFor(copy), unit), g, sector)
            == Found(copy, Some(Span(at * sector, n * sector)))
  {
    EntryFields(mark, at, at + n - 1, NameFor(copy), unit);
    KindFromFields(EntryBytes(mark, at, at + n - 1, NameFor(copy), unit), at, n, copy, g, sector);
  }

  lemma QuietKind(e: seq<byte>, g: Geometry, sector: nat)
    requires 128 <= |e| && Quiet(e)
    ensures EntryKindOf(e, g, sector).Unused? || EntryKindOf(e, g, sector).OtherName?
  {
  }

  // ----- Images -----

  /** The free choices in an image. The entries of the two copies stand among quiet ones, in either order. The
      lower volume starts at sector `at1` and fills `n1` sectors, the upper one starts at `at2` and fills `n2`;
      when `swapped`, the lower one is the backup. */
  datatype Image = Image(sector: nat, boot: seq<byte>, length: nat, spare: seq<byte>, table: nat, unit: nat,
                         front: seq<seq<byte>>, mid: seq<seq<byte>>, back: seq<seq<byte>>,
                         dpp: Mark, backup: Mark, reversed: bool,
                         first: nat, last: nat, alternate: nat, gap0: seq<byte>, gap1: seq<byte>,
                         at1: nat, n1: nat, lower: Volume, gap2: seq<byte>,
                         at2: nat, n2: nat, upper: Volume, gap3: seq<byte>, swapped: bool)
  {
    function Count(): nat { |front| + 1 + |mid| + 1 + |back| }

    function TableSize(): nat { Count() * unit }

    function Size(): nat { (at2 + n2) * sector + |gap3| }

    ghost predicate TableValid() {
      && 128 <= unit && unit % 128 == 0 && AllQuiet(front, unit) && AllQuiet(mid, unit) && AllQuiet(back, unit)
      && dpp.Valid(unit) && backup.Valid(unit) && Count() <= 4096 && TableSize() <= 1024 * 1024
    }

    ghost predicate HeaderValid() {
      && (sector == 512 || sector == 4096) && |boot| == sector && (sector == 4096 ==> boot[512..520] != SIGNATURE)
      && 92 <= length <= sector && |spare| == sector - 92 && 2 <= table < 0x1_0000_0000
    }

    ghost predicate Valid() {
      && HeaderValid() && TableValid() && lower.Valid() && upper.Valid() && 0 < n1 && 0 < n2
      && 2 * sector + |gap0| == table * sector && table * sector + TableSize() + |gap1| == at1 * sector
      && lower.Size() == n1 * sector && (at1 + n1) * sector + |gap2| == at2 * sector && upper.Size() == n2 * sector
      && 2 <= first <= at1 && at2 + n2 - 1 <= last < alternate < Size() / sector
      && table * sector + TableSize() <= first * sector && Size() <= MAX_SIZE
    }

    function Lower(): Span { Span(at1 * sector, n1 * sector) }

    function Upper(): Span { Span(at2 * sector, n2 * sector) }

    function Parts(): Partitions {
      if swapped then Partitions(Upper(), Lower()) else Partitions(Lower(), Upper())
    }

    /** Whether a copy is the lower volume. */
    predicate IsLower(copy: Copy) { (copy == Main) != swapped }

    function StartOf(copy: Copy): nat { if IsLower(copy) then at1 else at2 }

    function CountOf(copy: Copy): nat { if IsLower(copy) then n1 else n2 }

    function MarkOf(copy: Copy): Mark { if copy == Main then dpp else backup }

    function FirstCopy(): Copy { if reversed then Backup else Main }
  }

  ghost function CopyEntry(m: Image, copy: Copy): (e: seq<byte>)
    requires m.TableValid() && 0 < m.n1 && 0 < m.n2
    ensures |e| == m.unit
  {
    EntryBytes(m.MarkOf(copy), m.StartOf(copy), m.StartOf(copy) + m.CountOf(copy) - 1, NameFor(copy), m.unit)
  }

  ghost function TableEntries(m: Image): (entries: seq<seq<byte>>)
    requires m.TableValid() && 0 < m.n1 && 0 < m.n2
    ensures |entries| == m.Count() && AllSized(entries, m.unit)
  {
    m.front + [CopyEntry(m, m.FirstCopy())] + m.mid + [CopyEntry(m, Other(m.FirstCopy()))] + m.back
  }

  ghost function TableBytes(m: Image): (t: seq<byte>)
    requires m.TableValid() && 0 < m.n1 && 0 < m.n2
    ensures |t| == m.TableSize()
  {
    FlatSize(TableEntries(m), m.unit);
    Flat(TableEntries(m))
  }

  ghost function GeometryFor(crc: Crc, m: Image): Geometry
    requires m.TableValid() && 0 < m.n1 && 0 < m.n2
  {
    Geometry(1, m.alternate, m.first, m.last, m.table, m.Count(), m.unit, crc(TableBytes(m)))
  }

  lemma Sizes(m: Image)
    requires m.Valid()
    ensures m.last < 0x1_0000_0000 && m.alternate < 0x1_0000_0000
    ensures m.first <= m.at1 <= m.at1 + m.n1 <= m.at2 <= m.at2 + m.n2 - 1 <= m.last
  {
    var size := m.Size();
    assert size / m.sector <= size by { if m.sector == 512 { assert size / 512 <= size; } else { assert size / 4096 <= size; } }
    if m.at2 < m.at1 + m.n1 { Scale(m.at2 + 1, m.at1 + m.n1, m.sector); }
  }

  lemma PartsDisjoint(m: Image)
    requires m.Valid()
    ensures Disjoint(m.Parts().dpp, m.Parts().backup)
  {
    Sizes(m);
    Scale(m.at1 + m.n1, m.at2, m.sector);
    assert m.at1 * m.sector + m.n1 * m.sector == (m.at1 + m.n1) * m.sector;
  }

  /** Both volumes lie in the usable sectors. */
  predicate Usable(m: Image, g: Geometry) {
    && 0 < m.n1 && 0 < m.n2 && g.first <= m.at1 && m.at1 + m.n1 - 1 <= g.last
    && g.first <= m.at2 && m.at2 + m.n2 - 1 <= g.last < 0x1_0000_0000
  }

  lemma PartsOf(m: Image, copy: Copy)
    ensures m.Parts().Of(copy) == Span(m.StartOf(copy) * m.sector, m.CountOf(copy) * m.sector)
  {
  }

  lemma CopyKind(m: Image, copy: Copy, g: Geometry)
    requires m.TableValid() && Usable(m, g)
    ensures EntryKindOf(CopyEntry(m, copy), g, m.sector) == Found(copy, Some(m.Parts().Of(copy)))
  {
    PartsOf(m, copy);
    EntryKindWritten(m.MarkOf(copy), m.StartOf(copy), m.CountOf(copy), copy, g, m.sector, m.unit);
  }

  /** Two entries that name different copies, among quiet ones. */
  lemma MarkedEntries(kinds: seq<EntryKind>, i: nat, j: nat, c: Copy, p: Partitions)
    requires i < j < |kinds| && Disjoint(p.dpp, p.backup)
    requires forall k :: 0 <= k < |kinds| ==>
               if k == i then kinds[k] == Found(c, Some(p.Of(c)))
               else if k == j then kinds[k] == Found(Other(c), Some(p.Of(Other(c))))
               else kinds[k].Unused? || kinds[k].OtherName?
    ensures Entries(kinds, p)
  {
    assert OnlyCopy(kinds, c, i, p.Of(c));
    assert OnlyCopy(kinds, Other(c), j, p.Of(Other(c)));
  }

  /** Entry `k` of the written table is the entry that was put there. */
  lemma {:induction false} WrittenEntry(m: Image, g: Geometry, t: seq<byte>, k: nat)
    requires m.TableValid() && 0 < m.n1 && 0 < m.n2 && t == TableBytes(m)
    requires g.count == m.Count() && g.entrySize == m.unit && k < g.count
    ensures |t| == g.TableBytes() && EntryOf(t, g, k) == TableEntries(m)[k]
  {
    FlatAt(TableEntries(m), m.unit, k);
  }

  /** What stands where in the table. */
  lemma EntryPlaces(m: Image, k: nat)
    requires m.TableValid() && 0 < m.n1 && 0 < m.n2 && k < m.Count()
    ensures var e, i, j := TableEntries(m)[k], |m.front|, |m.front| + 1 + |m.mid|;
      if k == i then e == CopyEntry(m, m.FirstCopy())
      else if k == j then e == CopyEntry(m, Other(m.FirstCopy()))
      else Quiet(e)
  {
    var i, j := |m.front|, |m.front| + 1 + |m.mid|;
    if k < i { assert TableEntries(m)[k] == m.front[k]; }
    else if i < k < j { assert TableEntries(m)[k] == m.mid[k - i - 1]; }
    else if j < k { assert TableEntries(m)[k] == m.back[k - j - 1]; }
  }

  /** The reader finds both copies where they were put. */
  lemma {:induction false} TableRoundTrip(crc: Crc, m: Image, t: seq<byte>, g: Geometry)
    requires m.Valid() && t == TableBytes(m) && g == GeometryFor(crc, m)
    ensures |t| == g.TableBytes() && Entries(EntryKinds(t, g, m.sector, g.count), m.Parts())
  {
    var kinds, i, j, c := EntryKinds(t, g, m.sector, g.count), |m.front|, |m.front| + 1 + |m.mid|, m.FirstCopy();
    Sizes(m);
    forall k | 0 <= k < |kinds|
      ensures if k == i then kinds[k] == Found(c, Some(m.Parts().Of(c)))
              else if k == j then kinds[k] == Found(Other(c), Some(m.Parts().Of(Other(c))))
              else kinds[k].Unused? || kinds[k].OtherName?
    {
      EntryKindsAt(t, g, m.sector, g.count, k);
      KindWritten(m, g, t, k);
    }
    PartsDisjoint(m);
    MarkedEntries(kinds, i, j, c, m.Parts());
  }

  lemma {:induction false} KindWritten(m: Image, g: Geometry, t: seq<byte>, k: nat)
    requires m.TableValid() && Usable(m, g) && t == TableBytes(m)
    requires g.count == m.Count() && g.entrySize == m.unit && k < g.count && |t| == g.TableBytes()
    ensures var kind, i, j, c := EntryKindOf(EntryOf(t, g, k), g, m.sector), |m.front|, |m.front| + 1 + |m.mid|, m.FirstCopy();
      if k == i then kind == Found(c, Some(m.Parts().Of(c)))
      else if k == j then kind == Found(Other(c), Some(m.Parts().Of(Other(c))))
      else kind.Unused? || kind.OtherName?
  {
    WrittenEntry(m, g, t, k);
    EntryPlaces(m, k);
    if k == |m.front| {
      CopyKind(m, m.FirstCopy(), g);
    } else if k == |m.front| + 1 + |m.mid| {
      CopyKind(m, Other(m.FirstCopy()), g);
    } else {
      QuietKind(TableEntries(m)[k], g, m.sector);
    }
  }

  // ----- The header -----

  function HeaderLead(length: nat): (h: seq<byte>)
    ensures |h| == 16
  {
    SIGNATURE + EncLE(0x10000, 4) + EncLE(length, 4)
  }

  function HeaderRest(g: Geometry): (h: seq<byte>)
    ensures |h| == 72
  {
    Zeros(4) + EncLE(g.current, 8) + EncLE(g.backup, 8) + EncLE(g.first, 8) + EncLE(g.last, 8) + Zeros(16)
    + (EncLE(g.table, 8) + EncLE(g.count, 4) + EncLE(g.entrySize, 4) + EncLE(g.checksum, 4))
  }

  /** The checksummed bytes, with the checksum field cleared. */
  function HeaderSummed(g: Geometry, length: nat, spare: seq<byte>): seq<byte>
    requires 92 <= length <= 92 + |spare|
  {
    HeaderLead(length) + [0, 0, 0, 0] + HeaderRest(g) + spare[..length - 92]
  }

  function HeaderBytes(crc: Crc, g: Geometry, length: nat, spare: seq<byte>): (h: seq<byte>)
    requires 92 <= length <= 92 + |spare|
    ensures |h| == 92 + |spare|
  {
    HeaderLead(length) + EncLE(crc(HeaderSummed(g, length, spare)), 4) + HeaderRest(g) + spare
  }

  ghost predicate Encodable(g: Geometry) {
    && g.current < 0x1_0000_0000 && g.backup < 0x1_0000_0000 && g.first < 0x1_0000_0000 && g.last < 0x1_0000_0000
    && g.table < 0x1_0000_0000 && g.count < 0x1_0000_0000 && g.entrySize < 0x1_0000_0000 && g.checksum < 0x1_0000_0000
  }

  lemma RestFields(g: Geometry)
    requires Encodable(g)
    ensures var h := HeaderRest(g);
      && U64(h, 4) == g.current && U64(h, 12) == g.backup && U64(h, 20) == g.first && U64(h, 28) == g.last
      && U64(h, 52) == g.table && U32(h, 60) == g.count && U32(h, 64) == g.entrySize && U32(h, 68) == g.checksum
  {
    var h := HeaderRest(g);
    assert h[4..12] == EncLE(g.current, 8) && h[12..20] == EncLE(g.backup, 8);
    assert h[20..28] == EncLE(g.first, 8) && h[28..36] == EncLE(g.last, 8);
    assert h[52..60] == EncLE(g.table, 8) && h[60..64] == EncLE(g.count, 4);
    assert h[64..68] == EncLE(g.entrySize, 4) && h[68..72] == EncLE(g.checksum, 4);
    Enc64(g.current); Enc64(g.backup); Enc64(g.first); Enc64(g.last); Enc64(g.table);
    Enc32(g.count); Enc32(g.entrySize); Enc32(g.checksum);
  }

  lemma U64In(s: seq<byte>, lo: nat, hi: nat, offset: nat)
    requires lo <= hi <= |s| && lo + offset + 8 <= hi
    ensures U64(s, lo + offset) == U64(s[lo..hi], offset)
  {
    Subslice(s, lo, hi, offset, offset + 8);
  }

  lemma GeometryRoundTrip(crc: Crc, g: Geometry, length: nat, spare: seq<byte>)
    requires 92 <= length <= 92 + |spare| && Encodable(g)
    ensures GeometryOf(HeaderBytes(crc, g, length, spare)) == g
  {
    var h := HeaderBytes(crc, g, length, spare);
    assert h[20..92] == HeaderRest(g);
    RestFields(g);
    U64In(h, 20, 92, 4); U64In(h, 20, 92, 12); U64In(h, 20, 92, 20); U64In(h, 20, 92, 28);
    U64In(h, 20, 92, 52); U32In(h, 20, 92, 60); U32In(h, 20, 92, 64); U32In(h, 20, 92, 68);
  }

  lemma WordPlaces(h: seq<byte>, a: seq<byte>, b: seq<byte>, c: seq<byte>, d: seq<byte>, rest: seq<byte>)
    requires |a| == 8 && |b| == |c| == |d| == 4 && h == a + b + c + d + rest
    ensures h[..8] == a && h[8..12] == b && h[12..16] == c && h[16..20] == d
  {
  }

  lemma HeaderRoundTrip(crc: Crc, g: Geometry, length: nat, spare: seq<byte>, sector: nat)
    requires 92 <= length <= sector == 92 + |spare| && sector < 0x1_0000_0000
    ensures var h := HeaderBytes(crc, g, length, spare); HeaderFields(crc, h, sector) && h[..8] == SIGNATURE
  {
    var h, sum := HeaderBytes(crc, g, length, spare), crc(HeaderSummed(g, length, spare));
    var a, b, c, d := SIGNATURE, EncLE(0x10000, 4), EncLE(length, 4), EncLE(sum, 4);
    assert a + b + c + d + HeaderRest(g) + spare == a + b + c + d + (HeaderRest(g) + spare);
    WordPlaces(h, a, b, c, d, HeaderRest(g) + spare);
    Enc32(0x10000); Enc32(length); Enc32(sum);
    BlankedHeader(crc, g, length, spare);
  }

  lemma BlankPlaces(lead: seq<byte>, sum: seq<byte>, rest: seq<byte>, end: seq<byte>)
    requires |lead| == 16 && |sum| == 4
    ensures Blanked(lead + sum + rest + end) == lead + [0, 0, 0, 0] + rest + end
  {
    var h := lead + sum + rest + end;
    assert h[..16] == lead && h[20..] == rest + end;
  }

  lemma BlankedHeader(crc: Crc, g: Geometry, length: nat, spare: seq<byte>)
    requires 92 <= length <= 92 + |spare|
    ensures Blanked(HeaderBytes(crc, g, length, spare)[..length]) == HeaderSummed(g, length, spare)
  {
    var sum := EncLE(crc(HeaderSummed(g, length, spare)), 4);
    BlankPlaces(HeaderLead(length), sum, HeaderRest(g), spare[..length - 92]);
    HeaderPrefix(HeaderLead(length) + sum + HeaderRest(g), spare, length);
  }

  lemma HeaderPrefix(head: seq<byte>, spare: seq<byte>, length: nat)
    requires |head| == 92 <= length <= 92 + |spare|
    ensures (head + spare)[..length] == head + spare[..length - 92]
  {
  }

  // ----- The image -----

  function Assemble(boot: seq<byte>, header: seq<byte>, gap0: seq<byte>, table: seq<byte>, gap1: seq<byte>,
                    v: seq<byte>, gap2: seq<byte>, w: seq<byte>, gap3: seq<byte>): (disk: seq<byte>)
    ensures |disk| == |boot| + |header| + |gap0| + |table| + |gap1| + |v| + |gap2| + |w| + |gap3|
  {
    boot + header + (gap0 + table) + gap1 + v + gap2 + w + gap3
  }

  ghost function Encode(crc: Crc, m: Image, mac: seq<byte>): (disk: seq<byte>)
    requires m.Valid() && |mac| == 6
    ensures |disk| == m.Size()
  {
    Lengths(m);
    Assemble(m.boot, HeaderBytes(crc, GeometryFor(crc, m), m.length, m.spare), m.gap0, TableBytes(m), m.gap1,
             EncodeVolume(m.lower, mac), m.gap2, EncodeVolume(m.upper, mac), m.gap3)
  }

  lemma SizeSum(sector: nat, table: nat, gap0: nat, size: nat, gap1: nat, at1: nat, n1: nat, gap2: nat, at2: nat, n2: nat, gap3: nat)
    requires 2 * sector + gap0 == table * sector && table * sector + size + gap1 == at1 * sector
    requires (at1 + n1) * sector + gap2 == at2 * sector
    ensures (at2 + n2) * sector + gap3 == 2 * sector + gap0 + size + gap1 + n1 * sector + gap2 + n2 * sector + gap3
  {
    assert (at1 + n1) * sector == at1 * sector + n1 * sector;
    assert (at2 + n2) * sector == at2 * sector + n2 * sector;
  }

  lemma Lengths(m: Image)
    requires m.Valid()
    ensures m.Size() == 2 * m.sector + |m.gap0| + m.TableSize() + |m.gap1| + m.n1 * m.sector + |m.gap2| + m.n2 * m.sector + |m.gap3|
  {
    SizeSum(m.sector, m.table, |m.gap0|, m.TableSize(), |m.gap1|, m.at1, m.n1, |m.gap2|, m.at2, m.n2, |m.gap3|);
  }

  lemma EightSegments(a: seq<byte>, b: seq<byte>, c: seq<byte>, d: seq<byte>,
                      e: seq<byte>, f: seq<byte>, g: seq<byte>, h: seq<byte>)
    ensures var s, n2, n4, n6 := a + b + c + d + e + f + g + h, |a| + |b|, |a| + |b| + |c| + |d|,
                                 |a| + |b| + |c| + |d| + |e| + |f|;
      && |s| == n6 + |g| + |h|
      && s[..|a|] == a && s[|a|..n2] == b && s[n2..n2 + |c|] == c && s[n4..n4 + |e|] == e && s[n6..n6 + |g|] == g
  {
  }

  /** The segments, addressed by sector: `e` starts at sector `p` and fills `n`, `g` starts at `q` and fills `k`. */
  lemma SectorSegments(a: seq<byte>, b: seq<byte>, c: seq<byte>, d: seq<byte>,
                       e: seq<byte>, f: seq<byte>, g: seq<byte>, h: seq<byte>,
                       s: seq<byte>, sector: nat, p: nat, n: nat, q: nat, k: nat)
    requires s == a + b + c + d + e + f + g + h && |a| == |b| == sector
    requires 2 * sector + |c| + |d| == p * sector && |e| == n * sector
    requires (p + n) * sector + |f| == q * sector && |g| == k * sector
    ensures s[..sector] == a && s[sector..2 * sector] == b && s[2 * sector..2 * sector + |c|] == c
    ensures Part(s, Span(p * sector, n * sector)) == e && Part(s, Span(q * sector, k * sector)) == g
  {
    assert (p + n) * sector == p * sector + n * sector;
    EightSegments(a, b, c, d, e, f, g, h);
  }

  lemma SegmentTail(s: seq<byte>, lo: nat, hi: nat, head: seq<byte>, rest: seq<byte>)
    requires lo <= hi <= |s| && s[lo..hi] == head + rest
    ensures lo + |head| <= hi && s[lo + |head|..hi] == rest
  {
    assert s[lo + |head|..hi] == s[lo..hi][|head|..];
  }

  /** What an image assembled from these pieces shows at their places. */
  lemma Assembled(disk: seq<byte>, boot: seq<byte>, header: seq<byte>, gap0: seq<byte>, table: seq<byte>, gap1: seq<byte>,
                  v: seq<byte>, gap2: seq<byte>, w: seq<byte>, gap3: seq<byte>,
                  sector: nat, t: nat, p: nat, n: nat, q: nat, k: nat)
    requires disk == Assemble(boot, header, gap0, table, gap1, v, gap2, w, gap3) && |boot| == |header| == sector
    requires 2 * sector + |gap0| == t && t + |table| + |gap1| == p * sector && |v| == n * sector
    requires (p + n) * sector + |gap2| == q * sector && |w| == k * sector
    ensures 2 * sector <= |disk| && t + |table| <= |disk| && disk[..sector] == boot && disk[sector..2 * sector] == header
    ensures disk[t..t + |table|] == table
    ensures Part(disk, Span(p * sector, n * sector)) == v && Part(disk, Span(q * sector, k * sector)) == w
  {
    SectorSegments(boot, header, gap0 + table, gap1, v, gap2, w, gap3, disk, sector, p, n, q, k);
    SegmentTail(disk, 2 * sector, 2 * sector + |gap0 + table|, gap0, table);
  }

  /** The encoded image, in the terms the reader looks at it. */
  ghost predicate Laid(crc: Crc, m: Image, disk: seq<byte>, table: seq<byte>, g: Geometry)
    requires 92 <= m.length <= m.sector == 92 + |m.spare|
  {
    && |disk| == m.Size() && 2 * m.sector <= |disk| && m.table * m.sector + |table| <= |disk| && |m.boot| == m.sector
    && disk[..m.sector] == m.boot && disk[m.sector..2 * m.sector] == HeaderBytes(crc, g, m.length, m.spare)
    && disk[m.table * m.sector..m.table * m.sector + |table|] == table
  }

  lemma ImageSegments(crc: Crc, m: Image, mac: seq<byte>, disk: seq<byte>, header: seq<byte>, table: seq<byte>)
    requires m.Valid() && |mac| == 6 && disk == Encode(crc, m, mac) && table == TableBytes(m)
    requires header == HeaderBytes(crc, GeometryFor(crc, m), m.length, m.spare)
    ensures Laid(crc, m, disk, table, GeometryFor(crc, m))
  {
    Assembled(disk, m.boot, header, m.gap0, table, m.gap1, EncodeVolume(m.lower, mac), m.gap2, EncodeVolume(m.upper, mac), m.gap3,
              m.sector, m.table * m.sector, m.at1, m.n1, m.at2, m.n2);
  }

  lemma VolumeParts(crc: Crc, m: Image, mac: seq<byte>, disk: seq<byte>)
    requires m.Valid() && |mac| == 6 && disk == Encode(crc, m, mac)
    ensures Part(disk, m.Lower()) == EncodeVolume(m.lower, mac) && Part(disk, m.Upper()) == EncodeVolume(m.upper, mac)
  {
    Assembled(disk, m.boot, HeaderBytes(crc, GeometryFor(crc, m), m.length, m.spare), m.gap0, TableBytes(m), m.gap1,
              EncodeVolume(m.lower, mac), m.gap2, EncodeVolume(m.upper, mac), m.gap3,
              m.sector, m.table * m.sector, m.at1, m.n1, m.at2, m.n2);
  }

  lemma {:induction false} LaidHeader(crc: Crc, m: Image, disk: seq<byte>, table: seq<byte>, g: Geometry)
    requires m.HeaderValid() && Laid(crc, m, disk, table, g) && Encodable(g)
    requires GeometryBounds(g, m.sector, m.Size())
    ensures GoodHeader(crc, disk, m.Size(), m.sector) && Geo(disk, m.sector) == g
  {
    HeaderRoundTrip(crc, g, m.length, m.spare, m.sector);
    GeometryRoundTrip(crc, g, m.length, m.spare);
    Subslice(disk, m.sector, 2 * m.sector, 0, 8);
  }

  lemma BoundsRoundTrip(crc: Crc, m: Image, g: Geometry)
    requires m.Valid() && g == GeometryFor(crc, m)
    ensures GeometryBounds(g, m.sector, m.Size()) && Encodable(g) && g.table == m.table
  {
    Sizes(m);
    UnitBound(m.Count(), m.unit);
  }

  lemma UnitBound(count: nat, unit: nat)
    requires 0 < count && count * unit <= 1024 * 1024
    ensures unit <= 1024 * 1024
  {
    assert count * unit >= unit;
  }

  lemma {:induction false} GoodTableIntro(crc: Crc, disk: seq<byte>, size: nat, sector: nat, table: seq<byte>, g: Geometry)
    requires GoodHeader(crc, disk, size, sector) && Geo(disk, sector) == g && |table| == g.TableBytes()
    requires g.table * sector + |table| <= |disk| && disk[g.table * sector..g.table * sector + |table|] == table
    requires crc(table) == g.checksum
    ensures GoodTable(crc, disk, size, sector) && Table(crc, disk, size, sector) == table
  {
  }

  lemma LaidTable(crc: Crc, m: Image, disk: seq<byte>, table: seq<byte>, g: Geometry)
    requires m.HeaderValid() && Laid(crc, m, disk, table, g) && Encodable(g) && GeometryBounds(g, m.sector, m.Size())
    requires g.table == m.table && |table| == g.TableBytes() && crc(table) == g.checksum
    ensures GoodTable(crc, disk, m.Size(), m.sector) && Geo(disk, m.sector) == g && Table(crc, disk, m.Size(), m.sector) == table
  {
    LaidHeader(crc, m, disk, table, g);
    GoodTableIntro(crc, disk, m.Size(), m.sector, table, g);
  }

  lemma LayoutRoundTrip(crc: Crc, m: Image, disk: seq<byte>, table: seq<byte>, g: Geometry)
    requires m.Valid() && table == TableBytes(m) && g == GeometryFor(crc, m) && Laid(crc, m, disk, table, g)
    ensures Gpt(crc, disk, m.Size(), m.sector, m.Parts())
  {
    BoundsRoundTrip(crc, m, g);
    TableRoundTrip(crc, m, table, g);
    LaidTable(crc, m, disk, table, g);
  }

  lemma SectorRoundTrip(crc: Crc, m: Image, disk: seq<byte>, table: seq<byte>, g: Geometry)
    requires m.HeaderValid() && Laid(crc, m, disk, table, g)
    ensures SectorSize(disk, m.sector)
  {
    HeaderRoundTrip(crc, g, m.length, m.spare, m.sector);
    Subslice(disk, m.sector, 2 * m.sector, 0, 8);
    if m.sector == 4096 {
      assert disk[..m.sector][512..520] == disk[512..520];
    }
  }

  lemma {:induction false} CopyRoundTrip(disk: seq<byte>, s: Span, v: Volume, mac: seq<byte>)
    requires v.Valid() && |mac| == 6 && mac != NO_ADDRESS && mac != BROADCAST
    requires Part(disk, s) == EncodeVolume(v, mac) && |EncodeVolume(v, mac)| == s.size
    ensures Record(Part(disk, s), s.size, Print(mac))
  {
    VolumeRoundTrip(v, mac);
  }

  /** An image the writer produces is accepted, with the partitions and the address that were written. */
  lemma {:induction false} ImageRoundTrip(crc: Crc, m: Image, mac: seq<byte>)
    requires m.Valid() && |mac| == 6 && mac != NO_ADDRESS && mac != BROADCAST
    ensures Factory(crc, Encode(crc, m, mac), m.Size(), m.sector, m.Parts(), Print(mac))
  {
    var disk, g := Encode(crc, m, mac), GeometryFor(crc, m);
    ImageSegments(crc, m, mac, disk, HeaderBytes(crc, g, m.length, m.spare), TableBytes(m));
    VolumeParts(crc, m, mac, disk);
    CopyRoundTrip(disk, m.Lower(), m.lower, mac);
    CopyRoundTrip(disk, m.Upper(), m.upper, mac);
    LayoutRoundTrip(crc, m, disk, TableBytes(m), g);
    SectorRoundTrip(crc, m, disk, TableBytes(m), g);
  }

  /** What reading the image costs, in the writer's terms. */
  function ImageCost(m: Image): nat {
    (if m.sector == 512 then 512 else 4608) + m.TableSize()
    + 144 + m.lower.DirectorySize() + 144 + m.upper.DirectorySize()
  }

  lemma CostOfImage(crc: Crc, m: Image, mac: seq<byte>)
    requires m.Valid() && |mac| == 6
    ensures |Encode(crc, m, mac)| >= 2 * m.sector
    ensures FactoryCost(Encode(crc, m, mac), m.sector, m.Parts()) == ImageCost(m)
  {
    var disk, g := Encode(crc, m, mac), GeometryFor(crc, m);
    ImageSegments(crc, m, mac, disk, HeaderBytes(crc, g, m.length, m.spare), TableBytes(m));
    VolumeParts(crc, m, mac, disk);
    BoundsRoundTrip(crc, m, g);
    LaidHeader(crc, m, disk, TableBytes(m), g);
    CopyCost(m.lower, mac);
    CopyCost(m.upper, mac);
  }

  lemma CopyCost(v: Volume, mac: seq<byte>)
    requires v.Valid() && |mac| == 6
    ensures RecordCost(EncodeVolume(v, mac)) == 144 + v.DirectorySize()
  {
    VolumeHeaders(v, mac);
  }

  /** Reading a written image returns the printed address exactly when the read budget suffices. */
  method ReadBack(crc: Crc, disk: seq<byte>, mac: seq<byte>, ghost m: Image) returns (r: Result<string>)
    requires m.Valid() && |mac| == 6 && mac != NO_ADDRESS && mac != BROADCAST && disk == Encode(crc, m, mac)
    ensures r == Ok(Print(mac)) <==> ImageCost(m) <= BUDGET
    ensures r.Ok? ==> r.value == Print(mac)
  {
    var reader := new Reader(disk, |disk|);
    ghost var sector, p;
    r, sector, p := reader.ReadFactory(crc);
    ImageRoundTrip(crc, m, mac);
    CostOfImage(crc, m, mac);
    assert Factory(crc, reader.Disk(), reader.size, m.sector, m.Parts(), Print(mac));
    assert FactoryCost(reader.Disk(), m.sector, m.Parts()) == ImageCost(m);
    if r.Ok? {
      FactoryUnique(crc, disk, |disk|, sector, p, r.value, m.sector, m.Parts(), Print(mac));
    }
  }

  // ----- Two images -----

  /** A volume around a record spelled in mixed case, with `before` in front of it and `gap` behind the directory. */
  function PlainVolume(before: seq<byte>, gap: seq<byte>): Volume {
    Volume([], [], before, [66, 84, 46, 80, 114, 111, 118, 105, 115, 105, 111, 110], [81, 67, 79, 77], [], gap, [], [], [])
  }

  lemma PlainVolumeIsValid(before: seq<byte>, gap: seq<byte>)
    requires PassedRun(before) && |before| + SLOT <= SLOT * 4096 && |gap| < 0x10_0000
    ensures PlainVolume(before, gap).Valid()
  {
    assert FoldsToWord(PlainVolume(before, gap).name, "bt.provision");
    assert FoldsToWord(PlainVolume(before, gap).vendor, "qcom");
  }

  function PlainMark(unit: nat): Mark {
    Mark([1] + Zeros(31), Zeros(8), if unit < 128 then [] else Zeros(unit - 128))
  }

  lemma PlainMarkIsValid(unit: nat)
    requires 128 <= unit
    ensures PlainMark(unit).Valid(unit)
  {
    assert PlainMark(unit).guid[..16][0] == 1;
  }

  /** A small image that meets every condition of the writer. */
  ghost function Fixture(): Image {
    var v := PlainVolume([], Zeros(124));
    Image(512, Zeros(512), 92, Zeros(420), 2, 128, [], [], [], PlainMark(128), PlainMark(128), false,
          3, 4, 5, [], Zeros(256), 3, 1, v, [], 4, 1, v, Zeros(512), false)
  }

  lemma FixtureIsValid()
    ensures Fixture().Valid() && ImageCost(Fixture()) <= BUDGET
  {
    PlainMarkIsValid(128);
    PlainVolumeIsValid([], Zeros(124));
  }

  lemma {:induction false} ZeroValue(n: nat)
    ensures LE(Zeros(n)) == 0
  {
    if n > 0 {
      assert Zeros(n)[1..] == Zeros(n - 1);
      ZeroValue(n - 1);
    }
  }

  lemma HolesPass(n: nat)
    requires n % SLOT == 0
    ensures PassedRun(Zeros(n))
  {
    forall k: nat | SLOT * k + SLOT <= n
      ensures Passed(SlotIn(Zeros(n), k))
    {
      var slot := SlotIn(Zeros(n), k);
      assert forall i :: 0 <= i < SLOT ==> slot[i] == Zeros(n)[SLOT * k + i];
      assert slot[204..208] == Zeros(4);
      ZeroValue(4);
    }
  }

  function Unused(unit: nat, n: nat): (entries: seq<seq<byte>>)
    ensures |entries| == n && forall i :: 0 <= i < n ==> entries[i] == Zeros(unit)
  {
    seq(n, _ => Zeros(unit))
  }

  lemma UnusedAreQuiet(unit: nat, n: nat)
    requires 128 <= unit
    ensures AllQuiet(Unused(unit, n), unit)
  {
    assert Zeros(unit)[..16] == Zeros(16);
  }

  /** An image with the largest table and two full directories. */
  ghost function Oversized(): Image {
    var v := PlainVolume(Zeros(SLOT * 4095), Zeros(3952));
    Image(4096, Zeros(4096), 92, Zeros(4004), 2, 256, Unused(256, 4094), [], [], PlainMark(256), PlainMark(256), false,
          258, 747, 748, [], [], 258, 245, v, [], 503, 245, v, Zeros(4096), false)
  }

  /** It is acceptable in every respect, but costs as much as any accepted image can: more than the budget. */
  lemma BudgetCanRunOut()
    ensures Oversized().Valid() && ImageCost(Oversized()) == MOST > BUDGET
  {
    PlainMarkIsValid(256);
    HolesPass(SLOT * 4095);
    PlainVolumeIsValid(Zeros(SLOT * 4095), Zeros(3952));
    UnusedAreQuiet(256, 4094);
    assert Zeros(4096)[512..520][0] == 0 && SIGNATURE[0] != 0;
  }
}
