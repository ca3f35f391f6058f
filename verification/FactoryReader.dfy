// The bounded reader and the parsing methods built on it.
module FactoryReader {
  import opened Options
  import opened Bytes
  import opened FactoryLayout

  const BUDGET := 2 * 1024 * 1024
  const MAX_SIZE := 128 * 1024 * 1024

  datatype Error =
    | UnsupportedSize | OutOfBounds | BudgetExceeded | ShortRead
    | InvalidGpt | InvalidTable | InvalidPartition | NoGpt | NotUtf16
    | InvalidRwfs | InvalidRecord | InvalidAddress | NotOneRecord | CopiesDisagree

  datatype Result<+T> = Ok(value: T) | Err(error: Error)

  /** The requests a reader has issued, newest first. */
  datatype Trace = Nothing | Issued(span: Span, earlier: Trace)

  ghost function Spent(trace: Trace): nat {
    if trace.Nothing? then 0 else Spent(trace.earlier) + trace.span.size
  }

  ghost predicate Within(s: Span, lo: nat, hi: nat) {
    lo <= s.offset && s.offset + s.size <= hi
  }

  /** `trace` extends `before` by requests that all lie between `lo` and `hi`. */
  ghost predicate Since(trace: Trace, before: Trace, lo: nat, hi: nat) {
    trace == before || (trace.Issued? && Within(trace.span, lo, hi) && Since(trace.earlier, before, lo, hi))
  }

  lemma {:induction false} SinceChain(c: Trace, b: Trace, a: Trace, lo: nat, hi: nat)
    requires Since(c, b, lo, hi) && Since(b, a, lo, hi)
    ensures Since(c, a, lo, hi)
  {
    if c != b { SinceChain(c.earlier, b, a, lo, hi); }
  }

  /** What one positional read of the device returns: it stops at the end of the data. */
  function Pread(data: seq<byte>, n: nat, offset: nat): seq<byte> {
    Part(data, Span(offset, n))
  }

  lemma PreadComplete(data: seq<byte>, size: nat, n: nat, offset: nat)
    requires 0 < n && offset + n <= size
    ensures var disk := if |data| <= size then data else data[..size];
      && (|Pread(data, n, offset)| == n <==> offset + n <= |disk|)
      && (offset + n <= |disk| ==> Pread(data, n, offset) == disk[offset..offset + n])
  {
  }

  lemma Subslice(s: seq<byte>, a: nat, b: nat, c: nat, d: nat)
    requires a <= b <= |s| && c <= d && a + d <= b
    ensures s[a..b][c..d] == s[a + c..a + d]
  {
    forall i | 0 <= i < d - c
      ensures s[a..b][c..d][i] == s[a + c..a + d][i]
    {
    }
  }

  /** What a payload in bounds spells. */
  lemma PayloadRead(part: seq<byte>, length: nat, k: nat, position: nat)
    requires Headers(part, length) && k < SlotCount(part) && position == PayloadAt(part, length, k)
    requires U32(Slot(part, length, k), 200) == 8 <= U32(Slot(part, length, k), 196) <= length - position
    requires position + 8 <= |part|
    ensures var payload := part[position..position + 8];
      PayloadAddress(part, length, k) == if payload[..2] == [1, 6] then Address(Print(payload[2..])) else None
  {
    Subslice(part, position, position + 8, 0, 2);
    Subslice(part, position, position + 8, 2, 8);
  }

  /** The first `i` slots were scanned and `matches` are the addresses they carry. */
  ghost predicate Scanned(kinds: seq<Kind>, i: nat, matches: seq<string>) {
    && i <= |kinds|
    && (forall j :: 0 <= j < i ==> kinds[j] != Garbled && kinds[j] != Bluetooth(None))
    && match |matches| {
      case 0 => forall j :: 0 <= j < i ==> !kinds[j].Bluetooth?
      case 1 => exists k: nat :: k < i && OneRecord(kinds[..i], k, matches[0])
      case _ => exists j, k :: 0 <= j < k < i && kinds[j].Bluetooth? && kinds[k].Bluetooth?
    }
  }

  lemma ScanMatch(kinds: seq<Kind>, i: nat, matches: seq<string>, value: string)
    requires i < |kinds| && Scanned(kinds, i, matches) && kinds[i] == Bluetooth(Some(value))
    ensures Scanned(kinds, i + 1, matches + [value])
  {
    if |matches| == 0 {
      assert OneRecord(kinds[..i + 1], i, (matches + [value])[0]);
    } else if |matches| == 1 {
      var k: nat :| k < i && OneRecord(kinds[..i], k, matches[0]);
      assert kinds[k].Bluetooth? && kinds[i].Bluetooth?;
    }
  }

  lemma ScanSkip(kinds: seq<Kind>, i: nat, matches: seq<string>)
    requires i < |kinds| && Scanned(kinds, i, matches) && (kinds[i].Hole? || kinds[i].Other?)
    ensures Scanned(kinds, i + 1, matches)
  {
    if |matches| == 1 {
      var k: nat :| k < i && OneRecord(kinds[..i], k, matches[0]);
      assert OneRecord(kinds[..i + 1], k, matches[0]);
    }
  }

  /** A slot that stops the scan rules out every record. */
  lemma ScanStuck(kinds: seq<Kind>, i: nat, matches: seq<string>, value: string)
    requires i < |kinds| && Scanned(kinds, i, matches)
    requires kinds[i] == Garbled || kinds[i] == Bluetooth(None) || (kinds[i].Bluetooth? && matches != [])
    ensures !Carries(kinds, value)
  {
    if |matches| == 1 {
      var m: nat :| m < i && OneRecord(kinds[..i], m, matches[0]);
      assert kinds[m].Bluetooth?;
    }
  }

  /** A scan that ends has found the record, if there is one. */
  lemma ScanEnd(kinds: seq<Kind>, matches: seq<string>, value: string)
    requires Scanned(kinds, |kinds|, matches)
    ensures Carries(kinds, value) <==> matches == [value]
  {
    assert kinds[..|kinds|] == kinds;
    if |matches| == 1 {
      var m: nat :| m < |kinds| && OneRecord(kinds, m, matches[0]);
      assert kinds[m].Bluetooth?;
    }
  }

  /** The first `i` table entries were scanned and `found` holds the copies they name. */
  ghost predicate Seen(kinds: seq<EntryKind>, i: nat, found: map<Copy, Span>) {
    && i <= |kinds|
    && BadName !in kinds[..i]
    && forall c :: if c in found then Locates(kinds[..i], c, found[c])
                   else forall j :: 0 <= j < i ==> !(kinds[j].Found? && kinds[j].copy == c)
  }

  lemma SeenFound(kinds: seq<EntryKind>, i: nat, found: map<Copy, Span>, copy: Copy, extent: Span)
    requires i < |kinds| && Seen(kinds, i, found) && copy !in found && kinds[i] == Found(copy, Some(extent))
    ensures Seen(kinds, i + 1, found[copy := extent])
  {
    assert kinds[..i + 1] == kinds[..i] + [kinds[i]];
    assert OnlyCopy(kinds[..i + 1], copy, i, extent);
    forall c | c in found
      ensures Locates(kinds[..i + 1], c, found[c])
    {
      var j: nat :| OnlyCopy(kinds[..i], c, j, found[c]);
      assert OnlyCopy(kinds[..i + 1], c, j, found[c]);
    }
  }

  lemma SeenOther(kinds: seq<EntryKind>, i: nat, found: map<Copy, Span>)
    requires i < |kinds| && Seen(kinds, i, found) && (kinds[i].Unused? || kinds[i].OtherName?)
    ensures Seen(kinds, i + 1, found)
  {
    assert kinds[..i + 1] == kinds[..i] + [kinds[i]];
    forall c | c in found
      ensures Locates(kinds[..i + 1], c, found[c])
    {
      var j: nat :| OnlyCopy(kinds[..i], c, j, found[c]);
      assert OnlyCopy(kinds[..i + 1], c, j, found[c]);
    }
  }

  /** An entry that stops the scan rules out every acceptable table. */
  lemma SeenStuck(kinds: seq<EntryKind>, i: nat, found: map<Copy, Span>, p: Partitions)
    requires i < |kinds| && Seen(kinds, i, found)
    requires kinds[i].BadName? || (kinds[i].Found? && (kinds[i].extent.None? || kinds[i].copy in found))
    ensures !Entries(kinds, p)
  {
    if Entries(kinds, p) {
      assert kinds[i] in kinds;
      var c := kinds[i].copy;
      assert Locates(kinds, c, p.Of(c));
      var k: nat :| OnlyCopy(kinds, c, k, p.Of(c));
      assert false;
    }
  }

  /** What a completed scan decides. */
  lemma SeenAll(kinds: seq<EntryKind>, found: map<Copy, Span>, p: Partitions)
    requires Seen(kinds, |kinds|, found)
    ensures Entries(kinds, p) <==>
              found == map[Main := p.dpp, Backup := p.backup] && Disjoint(p.dpp, p.backup)
  {
    assert kinds[..|kinds|] == kinds;
    forall c, extent
      ensures Locates(kinds, c, extent) <==> c in found && found[c] == extent
    {
      if c in found {
        var j: nat :| OnlyCopy(kinds, c, j, found[c]);
      }
    }
    if Entries(kinds, p) {
      assert forall c :: c in found;
      assert found == map[Main := p.dpp, Backup := p.backup];
    }
  }

  class Reader {
    const data: seq<byte>
    const size: nat
    var remaining: nat
    ghost var trace: Trace

    /** Every byte asked for is paid for, and no request leaves the device. */
    ghost predicate Valid()
      reads this
    {
      && 0 < size <= MAX_SIZE
      && remaining + Spent(trace) == BUDGET
      && Since(trace, Nothing, 0, size)
    }

    /** The bytes that can be read at all. */
    ghost function Disk(): (d: seq<byte>)
      ensures |d| <= size
    {
      if |data| <= size then data else data[..size]
    }

    constructor (data: seq<byte>, size: nat)
      requires 0 < size <= MAX_SIZE
      ensures Valid() && trace == Nothing && remaining == BUDGET
      ensures this.data == data && this.size == size
    {
      this.data, this.size, remaining, trace := data, size, BUDGET, Nothing;
    }

    static method Open(data: seq<byte>, size: int) returns (r: Result<Reader>)
      ensures r.Ok? <==> 0 < size <= MAX_SIZE
      ensures r.Ok? ==> fresh(r.value) && r.value.Valid() && r.value.remaining == BUDGET && r.value.trace == Nothing
      ensures r.Ok? ==> r.value.data == data && r.value.size == size
    {
      if !(0 < size <= MAX_SIZE) {
        return Err(UnsupportedSize);
      }
      var reader := new Reader(data, size);
      return Ok(reader);
    }

    method Read(offset: int, n: int) returns (r: Result<seq<byte>>)
      requires Valid()
      modifies this
      ensures Valid()
      ensures !(0 <= offset && 0 <= n && offset + n <= size) || n > old(remaining) ==>
                r.Err? && trace == old(trace) && remaining == old(remaining)
      ensures 0 <= offset && 0 <= n && offset + n <= size && n <= old(remaining) ==>
                trace == Issued(Span(offset, n), old(trace)) && remaining == old(remaining) - n
      ensures r.Ok? ==> 0 <= offset && 0 <= n && offset + n <= size && |r.value| == n
      ensures 0 < n && 0 <= offset ==>
                (r.Ok? <==> offset + n <= |Disk()| && n <= old(remaining))
      ensures r.Ok? && 0 < n ==> r.value == Disk()[offset..offset + n]
    {
      if !(0 <= offset <= size) || !(0 <= n <= size - offset) {
        return Err(OutOfBounds);
      }
      if n > remaining {
        return Err(BudgetExceeded);
      }
      remaining := remaining - n;
      trace := Issued(Span(offset, n), trace);
      if n > 0 { PreadComplete(data, size, n, offset); }
      var bytes := Pread(data, n, offset);
      if |bytes| != n {
        return Err(ShortRead);
      }
      return Ok(bytes);
    }

    /** Read inside one partition, of which `Part(Disk(), s)` can be read. */
    method ReadWithin(s: Span, offset: int, n: int) returns (r: Result<seq<byte>>)
      requires Valid() && 0 < n
      modifies this
      ensures Valid() && Since(trace, old(trace), s.offset, s.offset + s.size)
      ensures r.Ok? <==> 0 <= offset && offset + n <= |Part(Disk(), s)| && n <= old(remaining)
      ensures r.Ok? ==> r.value == Part(Disk(), s)[offset..offset + n] && remaining == old(remaining) - n
    {
      if !(0 <= offset <= s.size) || !(0 <= n <= s.size - offset) {
        return Err(OutOfBounds);
      }
      r := Read(s.offset + offset, n);
    }

    /** Both RWFS headers: where the directory is, its size, and where the data starts. */
    method ReadHeaders(s: Span) returns (r: Result<(nat, nat, nat)>)
      requires Valid()
      modifies this
      ensures Valid() && Since(trace, old(trace), s.offset, s.offset + s.size)
      ensures r.Ok? <==> Bounds(Part(Disk(), s), s.size) && 136 <= old(remaining)
      ensures r.Ok? ==> remaining == old(remaining) - 136
      ensures r.Ok? ==> Span(r.value.0, r.value.1) == DirectorySpan(Part(Disk(), s)) && r.value.2 == DataAt(Part(Disk(), s))
    {
      ghost var part := Part(Disk(), s);
      var header := ReadWithin(s, 0, 68);
      if header.Err? { return Err(header.error); }
      assert header.value[..4] == part[..4];
      if header.value[..4] != RWFS { return Err(InvalidRwfs); }
      assert header.value[8..12] == part[8..12];
      var secondAt := U32(header.value, 8);
      if secondAt < 68 { return Err(InvalidRwfs); }
      ghost var first := trace;
      var second := ReadWithin(s, secondAt, 68);
      SinceChain(trace, first, old(trace), s.offset, s.offset + s.size);
      if second.Err? { return Err(second.error); }
      Subslice(part, secondAt, secondAt + 68, 0, 4);
      if second.value[..4] != RWFS { return Err(InvalidRwfs); }
      Subslice(part, secondAt, secondAt + 68, 8, 12);
      Subslice(part, secondAt, secondAt + 68, 12, 16);
      Subslice(part, secondAt, secondAt + 68, 20, 24);
      var table, size, start := U32(second.value, 8), U32(second.value, 12), U32(second.value, 20);
      if !(0 < size <= SLOT * 4096) || size % SLOT != 0 || table < secondAt + 68 || !(table + size <= start <= s.size) {
        return Err(InvalidRwfs);
      }
      return Ok((table, size, start));
    }

    /** Both headers and the directory. */
    method ReadDirectory(s: Span) returns (r: Result<(nat, seq<byte>)>)
      requires Valid()
      modifies this
      ensures Valid() && Since(trace, old(trace), s.offset, s.offset + s.size)
      ensures var part := Part(Disk(), s);
        && (r.Ok? <==> Headers(part, s.size) && 136 + DirectorySpan(part).size <= old(remaining))
        && (r.Ok? ==>
            && remaining == old(remaining) - (136 + DirectorySpan(part).size)
            && r.value == (DataAt(part), Directory(part, s.size)))
    {
      var headers := ReadHeaders(s);
      if headers.Err? { return Err(headers.error); }
      ghost var next := trace;
      var entries := ReadWithin(s, headers.value.0, headers.value.1);
      SinceChain(trace, next, old(trace), s.offset, s.offset + s.size);
      if entries.Err? { return Err(entries.error); }
      return Ok((headers.value.2, entries.value));
    }

    /** The address of one matching slot. */
    method ReadPayload(s: Span, start: nat, slot: seq<byte>, ghost k: nat) returns (r: Result<string>)
      requires Valid() && |slot| == SLOT
      requires Headers(Part(Disk(), s), s.size) && k < SlotCount(Part(Disk(), s))
      requires slot == Slot(Part(Disk(), s), s.size, k) && start == DataAt(Part(Disk(), s))
      modifies this
      ensures Valid() && Since(trace, old(trace), s.offset, s.offset + s.size)
      ensures r.Ok? <==> PayloadAddress(Part(Disk(), s), s.size, k).Some? && 8 <= old(remaining)
      ensures r.Ok? ==> PayloadAddress(Part(Disk(), s), s.size, k) == Some(r.value) && remaining == old(remaining) - 8
    {
      ghost var part := Part(Disk(), s);
      var region, size := U32(slot, 196), U32(slot, 200);
      var position := start + U32(slot, 208);
      if size != 8 || !(size <= region <= s.size - position) {
        return Err(InvalidRecord);
      }
      var payload := ReadWithin(s, position, size);
      if payload.Err? { return Err(payload.error); }
      PayloadRead(part, s.size, k, position);
      if payload.value[..2] != [1, 6] { return Err(InvalidRecord); }
      var value := Address(Print(payload.value[2..]));
      if value.None? { return Err(InvalidAddress); }
      return Ok(value.value);
    }

    /** Directory slot `k`: None unless it is a live Bluetooth record. */
    method ReadSlot(s: Span, start: nat, entries: seq<byte>, k: nat, ghost part: seq<byte>, ghost kinds: seq<Kind>)
      returns (r: Result<Option<string>>)
      requires Valid() && part == Part(Disk(), s) && Headers(part, s.size) && start == DataAt(part)
      requires entries == Directory(part, s.size) && kinds == Kinds(part, s.size) && k < |kinds|
      modifies this
      ensures Valid() && Since(trace, old(trace), s.offset, s.offset + s.size)
      ensures r.Err? ==> kinds[k] == Garbled || kinds[k] == Bluetooth(None) || (kinds[k].Bluetooth? && old(remaining) < 8)
      ensures r.Ok? && r.value.None? ==> (kinds[k].Hole? || kinds[k].Other?) && remaining == old(remaining)
      ensures r.Ok? && r.value.Some? ==> kinds[k] == Bluetooth(r.value) && remaining == old(remaining) - 8
    {
      SlotOfDirectory(part, s.size, k);
      KindsAt(part, s.size, |kinds|, k);
      var slot := entries[SLOT * k..SLOT * k + SLOT];
      if !Live(slot) { return Ok(None); }
      var name := Text(slot[..98]);
      if name.None? { return Err(NotUtf16); }
      var vendor := Text(slot[98..196]);
      if vendor.None? { return Err(NotUtf16); }
      if !(FoldsToWord(vendor.value, "qcom") && FoldsToWord(name.value, "bt.provision")) { return Ok(None); }
      var value := ReadPayload(s, start, slot, k);
      if value.Err? { return Err(value.error); }
      return Ok(Some(value.value));
    }

    /** All directory slots: succeeds exactly when they hold one record. */
    method ReadSlots(s: Span, start: nat, entries: seq<byte>, ghost part: seq<byte>, ghost kinds: seq<Kind>)
      returns (r: Result<string>)
      requires Valid() && part == Part(Disk(), s) && Headers(part, s.size) && start == DataAt(part)
      requires entries == Directory(part, s.size) && kinds == Kinds(part, s.size)
      modifies this
      ensures Valid() && Since(trace, old(trace), s.offset, s.offset + s.size)
      ensures r.Ok? ==> Carries(kinds, r.value) && remaining + 8 == old(remaining)
      ensures r.Err? ==> old(remaining) < 8 || forall v :: !Carries(kinds, v)
    {
      var matches: seq<string> := [];
      var i := 0;
      while i < |entries| / SLOT
        invariant 0 <= i <= |kinds|
        invariant Valid() && Since(trace, old(trace), s.offset, s.offset + s.size)
        invariant remaining + 8 * |matches| == old(remaining)
        invariant Scanned(kinds, i, matches)
      {
        ghost var before := trace;
        var value := ReadSlot(s, start, entries, i, part, kinds);
        SinceChain(trace, before, old(trace), s.offset, s.offset + s.size);
        if value.Err? {
          forall v | 8 <= old(remaining)
            ensures !Carries(kinds, v)
          {
            ScanStuck(kinds, i, matches, v);
          }
          return Err(value.error);
        }
        if value.value.Some? {
          ScanMatch(kinds, i, matches, value.value.value);
          matches := matches + [value.value.value];
        } else {
          ScanSkip(kinds, i, matches);
        }
        i := i + 1;
      }
      forall v
        ensures Carries(kinds, v) <==> matches == [v]
      {
        ScanEnd(kinds, matches, v);
      }
      if |matches| != 1 { return Err(NotOneRecord); }
      return Ok(matches[0]);
    }

    /** Succeeds exactly on a volume with one well-formed record, and spends exactly its cost. */
    method ReadRecord(s: Span) returns (r: Result<string>)
      requires Valid()
      modifies this
      ensures Valid() && Since(trace, old(trace), s.offset, s.offset + s.size)
      ensures var part := Part(Disk(), s);
        && (r.Ok? ==> Record(part, s.size, r.value) && remaining + RecordCost(part) == old(remaining))
        && (forall value :: Record(part, s.size, value) && RecordCost(part) <= old(remaining) ==> r.Ok?)
    {
      var directory := ReadDirectory(s);
      if directory.Err? { return Err(directory.error); }
      ghost var part, before := Part(Disk(), s), trace;
      r := ReadSlots(s, directory.value.0, directory.value.1, part, Kinds(part, s.size));
      SinceChain(trace, before, old(trace), s.offset, s.offset + s.size);
    }

    /** The table entries: succeeds exactly when they name both copies properly. */
    static method ScanTable(table: seq<byte>, g: Geometry, sector: nat) returns (r: Result<Partitions>)
      requires |table| == g.TableBytes() && 128 <= g.entrySize && 0 < sector
      ensures forall p :: r == Ok(p) <==> Entries(EntryKinds(table, g, sector, g.count), p)
    {
      ghost var kinds := EntryKinds(table, g, sector, g.count);
      var found: map<Copy, Span> := map[];
      var i := 0;
      while i < g.count
        invariant 0 <= i <= g.count
        invariant Seen(kinds, i, found)
        invariant forall c :: c in found ==> 0 < found[c].size
      {
        EntryKindsAt(table, g, sector, g.count, i);
        var kind := EntryKindOf(EntryOf(table, g, i), g, sector);
        if kind.BadName? || (kind.Found? && (kind.copy in found || kind.extent.None?)) {
          forall p ensures !Entries(kinds, p) { SeenStuck(kinds, i, found, p); }
          return Err(if kind.BadName? then NotUtf16 else InvalidPartition);
        }
        if kind.Found? {
          ExtentBounds(EntryOf(table, g, i), g, sector);
          SeenFound(kinds, i, found, kind.copy, kind.extent.value);
          found := found[kind.copy := kind.extent.value];
        } else {
          SeenOther(kinds, i, found);
        }
        i := i + 1;
      }
      forall p
        ensures Entries(kinds, p) <==> found == map[Main := p.dpp, Backup := p.backup] && Disjoint(p.dpp, p.backup)
      {
        SeenAll(kinds, found, p);
      }
      if !(Main in found && Backup in found) { return Err(InvalidPartition); }
      assert found == map[Main := found[Main], Backup := found[Backup]];
      var (low, high) := if found[Main].offset <= found[Backup].offset then (found[Main], found[Backup])
                         else (found[Backup], found[Main]);
      if low.offset + low.size > high.offset { return Err(InvalidPartition); }
      return Ok(Partitions(found[Main], found[Backup]));
    }

    /** The checked geometry and table bytes of the GPT whose signed header was read. */
    method ReadTable(crc: Crc, sector: nat, header: seq<byte>) returns (r: Result<(Geometry, seq<byte>)>)
      requires Valid() && 512 <= sector && Signed(Disk(), sector) && header == Disk()[sector..2 * sector]
      modifies this
      ensures Valid()
      ensures r.Ok? <==> GoodTable(crc, Disk(), size, sector) && Geo(Disk(), sector).TableBytes() <= old(remaining)
      ensures r.Ok? ==> r.value == (Geo(Disk(), sector), Table(crc, Disk(), size, sector))
      ensures r.Ok? ==> remaining + Geo(Disk(), sector).TableBytes() == old(remaining)
    {
      if !HeaderFields(crc, header, sector) { return Err(InvalidGpt); }
      var g := GeometryOf(header);
      if !GeometryBounds(g, sector, size) { return Err(InvalidGpt); }
      TablePositive(g);
      var table := Read(g.table * sector, g.count * g.entrySize);
      if table.Err? { return Err(table.error); }
      if crc(table.value) != g.checksum { return Err(InvalidTable); }
      return Ok((g, table.value));
    }

    /** Find the partition table, trying 512-byte sectors before 4096-byte ones. */
    method DppPartitions(crc: Crc) returns (r: Result<Partitions>, ghost sector: nat)
      requires Valid()
      modifies this
      ensures Valid()
      ensures r.Ok? ==> Layout(crc, Disk(), size, sector, r.value) && remaining + GptCost(Disk(), sector) == old(remaining)
      ensures forall s: nat, p :: Layout(crc, Disk(), size, s, p) && GptCost(Disk(), s) <= old(remaining) ==> r.Ok?
    {
      var sectors := [512, 4096];
      var k := 0;
      while k < |sectors|
        invariant 0 <= k <= 2
        invariant Valid()
        invariant k == 0 ==> remaining == old(remaining)
        invariant k == 1 ==> remaining + 512 == old(remaining) && 1024 <= |Disk()| && !Signed(Disk(), 512)
        invariant k == 2 ==> 1024 <= |Disk()| && !Signed(Disk(), 512) && !Signed(Disk(), 4096)
      {
        var width := sectors[k];
        sector := width;
        var header := Read(width, width);
        if header.Err? { return Err(header.error), sector; }
        assert header.value[..8] == Disk()[sector..sector + 8];
        if header.value[..8] == SIGNATURE {
          var table := ReadTable(crc, width, header.value);
          if table.Err? { return Err(table.error), sector; }
          r := ScanTable(table.value.1, table.value.0, width);
          return r, sector;
        }
        k := k + 1;
      }
      return Err(NoGpt), 0;
    }

    /** Both copies, which must agree. */
    method ReadCopies(p: Partitions) returns (r: Result<string>)
      requires Valid()
      modifies this
      ensures Valid()
      ensures r.Ok? ==> CopiesCarry(Disk(), p, r.value) && remaining + CopiesCost(Disk(), p) == old(remaining)
      ensures forall v :: CopiesCarry(Disk(), p, v) && CopiesCost(Disk(), p) <= old(remaining) ==> r.Ok?
    {
      var first := ReadRecord(p.dpp);
      if first.Err? { return first; }
      var second := ReadRecord(p.backup);
      if second.Err? { return second; }
      CopiesAgree(Disk(), p, first.value, second.value);
      return if first.value != second.value then Err(CopiesDisagree) else first;
    }

    /** The address both copies agree on: succeeds exactly on images that carry one, within the budget. */
    method ReadFactory(crc: Crc) returns (r: Result<string>, ghost sector: nat, ghost p: Partitions)
      requires Valid()
      modifies this
      ensures Valid()
      ensures r.Ok? ==> Factory(crc, Disk(), size, sector, p, r.value)
      ensures r.Ok? ==> remaining + FactoryCost(Disk(), sector, p) == old(remaining)
      ensures forall s: nat, q, v ::
                Factory(crc, Disk(), size, s, q, v) && FactoryCost(Disk(), s, q) <= old(remaining) ==> r.Ok?
    {
      p := Partitions(Span(0, 0), Span(0, 0));
      var partitions;
      partitions, sector := DppPartitions(crc);
      if partitions.Err? { return Err(partitions.error), sector, p; }
      p := partitions.value;
      OnlyLayout(crc, Disk(), size, sector, p);
      r := ReadCopies(partitions.value);
    }
  }
}
