// A writer of factory images, and the proof that the reader gets back what it wrote.
module FactoryEncoder {
  import opened Options
  import opened Bytes
  import opened FactoryLayout
  import opened FactoryReader

  // ----- Printed addresses -----

  lemma {:induction false} PrintAt(mac: seq<byte>, i: nat)
    requires i < |mac|
    ensures Print(mac)[3 * i] == HexDigit(mac[i] / 16) && Print(mac)[3 * i + 1] == HexDigit(mac[i] % 16)
    ensures i + 1 < |mac| ==> Print(mac)[3 * i + 2] == ':'
  {
    if i > 0 { PrintAt(mac[1..], i - 1); }
  }

  lemma HexDigits(n: nat)
    requires n < 16
    ensures IsHex(HexDigit(n))
    ensures HexDigit(n) as int == if n < 10 then 48 + n else 55 + n
  {
  }

  /** The printed form determines the bytes. */
  lemma {:induction false} PrintInjective(a: seq<byte>, b: seq<byte>)
    requires |a| == |b| && Print(a) == Print(b)
    ensures a == b
  {
    forall i | 0 <= i < |a|
      ensures a[i] == b[i]
    {
      PrintAt(a, i); HexDigits(a[i] / 16); HexDigits(a[i] % 16);
      PrintAt(b, i); HexDigits(b[i] / 16); HexDigits(b[i] % 16);
      assert a[i] / 16 == b[i] / 16 && a[i] % 16 == b[i] % 16;
    }
  }

  const NO_ADDRESS: seq<byte> := [0, 0, 0, 0, 0, 0]
  const BROADCAST: seq<byte> := [255, 255, 255, 255, 255, 255]

  lemma {:induction false} PrintUniform(mac: seq<byte>, b: byte, c: char)
    requires |mac| == 6 && forall i :: 0 <= i < 6 ==> mac[i] == b
    requires HexDigit(b / 16) == c == HexDigit(b % 16)
    ensures Print(mac) == [c, c, ':', c, c, ':', c, c, ':', c, c, ':', c, c, ':', c, c]
  {
    forall j | 0 <= j < 17
      ensures Print(mac)[j] == if j % 3 == 2 then ':' else c
    {
      PrintAt(mac, j / 3);
      assert j == 3 * (j / 3) + j % 3;
    }
  }

  lemma {:induction false} PrintIsText(mac: seq<byte>)
    requires |mac| == 6
    ensures IsAddressText(Print(mac))
  {
    forall j | 0 <= j < 17
      ensures if j % 3 == 2 then Print(mac)[j] == ':' else IsHex(Print(mac)[j])
    {
      PrintAt(mac, j / 3);
      HexDigits(mac[j / 3] / 16);
      HexDigits(mac[j / 3] % 16);
      assert j == 3 * (j / 3) + j % 3;
    }
  }

  /** Six bytes print to an acceptable address unless they are all zero or all ones. */
  lemma {:induction false} AddressOfPrint(mac: seq<byte>)
    requires |mac| == 6
    ensures Address(Print(mac)) == if mac == NO_ADDRESS || mac == BROADCAST then None else Some(Print(mac))
  {
    PrintIsText(mac);
    PrintUniform(NO_ADDRESS, 0, '0');
    PrintUniform(BROADCAST, 255, 'F');
    if Print(mac) == Print(NO_ADDRESS) { PrintInjective(mac, NO_ADDRESS); }
    if Print(mac) == Print(BROADCAST) { PrintInjective(mac, BROADCAST); }
  }

  // ----- RWFS volumes -----

  /** A slot the reader passes over: a hole, or a readable record of another name. */
  predicate Passed(slot: seq<byte>)
    requires |slot| == SLOT
  {
    !Live(slot) || (Decodes(slot) && !Named(slot))
  }

  function SlotIn(run: seq<byte>, k: nat): (s: seq<byte>)
    requires SLOT * k + SLOT <= |run|
    ensures |s| == SLOT
  {
    run[SLOT * k..SLOT * k + SLOT]
  }

  /** A run of directory slots the reader passes over. */
  ghost predicate PassedRun(run: seq<byte>) {
    |run| % SLOT == 0 && forall k: nat :: SLOT * k + SLOT <= |run| ==> Passed(SlotIn(run, k))
  }

  /** The free choices in a volume: where the second header, the directory and the data start, other slots
      around the record, its spelling, where the payload lies in the data, and filler bytes. */
  datatype Volume = Volume(pad: seq<byte>, skip: seq<byte>, before: seq<byte>, name: seq<nat>, vendor: seq<nat>,
                           after: seq<byte>, gap: seq<byte>, lead: seq<byte>, tail: seq<byte>, rest: seq<byte>)
  {
    ghost predicate Valid() {
      && PassedRun(before) && PassedRun(after) && |before| + SLOT + |after| <= SLOT * 4096
      && Plain(name) && FoldsToWord(name, "bt.provision") && Plain(vendor) && FoldsToWord(vendor, "qcom")
      && |pad| + |skip| + |gap| + |lead| + |tail| < 0x1000_0000
    }

    function Second(): nat { 68 + |pad| }

    function DirectoryStart(): nat { Second() + 68 + |skip| }

    function DirectorySize(): nat { |before| + SLOT + |after| }

    function Start(): nat { DirectoryStart() + DirectorySize() + |gap| }

    function Payload(): nat { Start() + |lead| }

    function Size(): nat { Payload() + 8 + |tail| + |rest| }
  }

  ghost function SlotBytes(v: Volume): (s: seq<byte>)
    requires v.Valid()
    ensures |s| == SLOT
  {
    EncText(v.name, 98) + EncText(v.vendor, 98)
    + (EncLE(8 + |v.tail|, 4) + EncLE(8, 4) + EncLE(1, 4) + EncLE(|v.lead|, 4) + Zeros(32))
  }

  function FirstHeader(v: Volume): (h: seq<byte>)
    ensures |h| == 68
  {
    RWFS + Zeros(4) + EncLE(v.Second(), 4) + Zeros(56)
  }

  function SecondHeader(v: Volume): (h: seq<byte>)
    ensures |h| == 68
  {
    RWFS + Zeros(4) + EncLE(v.DirectoryStart(), 4) + EncLE(v.DirectorySize(), 4) + Zeros(4) + EncLE(v.Start(), 4) + Zeros(44)
  }

  ghost function DirectoryBytes(v: Volume): (d: seq<byte>)
    requires v.Valid()
    ensures |d| == v.DirectorySize()
  {
    v.before + SlotBytes(v) + v.after
  }

  ghost function EncodeVolume(v: Volume, mac: seq<byte>): (part: seq<byte>)
    requires v.Valid() && |mac| == 6
    ensures |part| == v.Size()
  {
    (FirstHeader(v) + v.pad) + (SecondHeader(v) + v.skip) + (DirectoryBytes(v) + v.gap + v.lead)
    + ([1, 6] + mac) + (v.tail + v.rest)
  }

  lemma SlotFields(v: Volume)
    requires v.Valid()
    ensures var s := SlotBytes(v);
      && U32(s, 196) == 8 + |v.tail| && U32(s, 200) == 8 && U32(s, 208) == |v.lead|
      && Live(s) && Decodes(s) && Named(s)
  {
    var s := SlotBytes(v);
    assert s[..98] == EncText(v.name, 98) && s[98..196] == EncText(v.vendor, 98);
    DecodeEncodeText(v.name, 98);
    DecodeEncodeText(v.vendor, 98);
    assert s[196..200] == EncLE(8 + |v.tail|, 4);
    assert s[200..204] == EncLE(8, 4);
    assert s[204..208] == EncLE(1, 4);
    assert s[208..212] == EncLE(|v.lead|, 4);
    Enc32(8 + |v.tail|); Enc32(8); Enc32(1); Enc32(|v.lead|);
  }

  lemma U32In(s: seq<byte>, lo: nat, hi: nat, offset: nat)
    requires lo <= hi <= |s| && lo + offset + 4 <= hi
    ensures U32(s, lo + offset) == U32(s[lo..hi], offset)
  {
    Subslice(s, lo, hi, offset, offset + 4);
  }

  lemma FirstHeaderFields(v: Volume)
    requires v.Valid()
    ensures FirstHeader(v)[..4] == RWFS && U32(FirstHeader(v), 8) == v.Second()
  {
    assert FirstHeader(v)[8..12] == EncLE(v.Second(), 4);
    Enc32(v.Second());
  }

  lemma SecondHeaderFields(v: Volume)
    requires v.Valid()
    ensures var h := SecondHeader(v);
      h[..4] == RWFS && U32(h, 8) == v.DirectoryStart() && U32(h, 12) == v.DirectorySize() && U32(h, 20) == v.Start()
  {
    var h := SecondHeader(v);
    assert h[8..12] == EncLE(v.DirectoryStart(), 4);
    assert h[12..16] == EncLE(v.DirectorySize(), 4);
    assert h[20..24] == EncLE(v.Start(), 4);
    Enc32(v.DirectoryStart()); Enc32(v.DirectorySize()); Enc32(v.Start());
  }

  lemma Segments(a: seq<byte>, b: seq<byte>, c: seq<byte>, d: seq<byte>, e: seq<byte>)
    ensures var whole, n2, n3 := a + b + c + d + e, |a| + |b|, |a| + |b| + |c|;
      whole[..|a|] == a && whole[|a|..n2] == b && whole[n2..n3] == c && whole[n3..n3 + |d|] == d
  {
  }

  /** The beginning of a segment of `s`. */
  lemma SegmentHead(s: seq<byte>, lo: nat, hi: nat, head: seq<byte>, rest: seq<byte>)
    requires lo <= hi <= |s| && s[lo..hi] == head + rest
    ensures lo + |head| <= hi && s[lo..lo + |head|] == head
  {
    assert s[lo..lo + |head|] == s[lo..hi][..|head|];
  }

  /** Where the five parts of a volume are that matter. */
  lemma PartsInOrder(part: seq<byte>, a: seq<byte>, pad: seq<byte>, b: seq<byte>, skip: seq<byte>, c: seq<byte>,
                     gap: seq<byte>, lead: seq<byte>, d: seq<byte>, end: seq<byte>)
    requires part == (a + pad) + (b + skip) + (c + gap + lead) + d + end
    ensures var n1 := |a| + |pad|; var n2 := n1 + |b| + |skip|; var n3 := n2 + |c| + |gap| + |lead|;
      && |part| == n3 + |d| + |end| && part[0..|a|] == a && part[n1..n1 + |b|] == b && part[n2..n2 + |c|] == c
      && part[n3..n3 + |d|] == d
  {
    var n1 := |a| + |pad|;
    var n2 := n1 + |b| + |skip|;
    Segments(a + pad, b + skip, c + gap + lead, d, end);
    assert part[0..n1] == part[..n1];
    SegmentHead(part, 0, n1, a, pad);
    SegmentHead(part, n1, n2, b, skip);
    assert c + gap + lead == c + (gap + lead);
    SegmentHead(part, n2, n2 + |c| + |gap| + |lead|, c, gap + lead);
  }

  lemma VolumeSegments(v: Volume, mac: seq<byte>)
    requires v.Valid() && |mac| == 6
    ensures var part := EncodeVolume(v, mac);
      && part[0..68] == FirstHeader(v) && part[v.Second()..v.Second() + 68] == SecondHeader(v)
      && part[v.DirectoryStart()..v.DirectoryStart() + v.DirectorySize()] == DirectoryBytes(v)
      && part[v.Payload()..v.Payload() + 8] == [1, 6] + mac
  {
    PartsInOrder(EncodeVolume(v, mac), FirstHeader(v), v.pad, SecondHeader(v), v.skip, DirectoryBytes(v), v.gap, v.lead,
                 [1, 6] + mac, v.tail + v.rest);
  }

  lemma HeaderAt(part: seq<byte>, lo: nat, offset: nat)
    requires lo + 68 <= |part| && offset + 4 <= 68
    ensures U32(part, lo + offset) == U32(part[lo..lo + 68], offset)
    ensures part[lo..lo + 4] == part[lo..lo + 68][..4]
  {
    Subslice(part, lo, lo + 68, offset, offset + 4);
    Subslice(part, lo, lo + 68, 0, 4);
  }

  /** The reader finds what the two headers say. */
  lemma HeadersRead(part: seq<byte>, first: seq<byte>, second: seq<byte>, at: nat, directory: Span, data: nat)
    requires 68 <= at && at + 68 <= |part| && part[0..68] == first && part[at..at + 68] == second
    requires first[..4] == RWFS && U32(first, 8) == at && second[..4] == RWFS
    requires U32(second, 8) == directory.offset && U32(second, 12) == directory.size && U32(second, 20) == data
    ensures part[..4] == RWFS && SecondAt(part) == at && part[at..at + 4] == RWFS
    ensures DirectorySpan(part) == directory && DataAt(part) == data
  {
    HeaderAt(part, 0, 8);
    assert part[..4] == part[0..4];
    HeaderAt(part, at, 8);
    HeaderAt(part, at, 12);
    HeaderAt(part, at, 20);
  }

  lemma VolumeFields(v: Volume, mac: seq<byte>)
    requires v.Valid() && |mac| == 6
    ensures var part := EncodeVolume(v, mac);
      && part[..4] == RWFS && SecondAt(part) == v.Second() && part[v.Second()..v.Second() + 4] == RWFS
      && DirectorySpan(part) == Span(v.DirectoryStart(), v.DirectorySize()) && DataAt(part) == v.Start()
  {
    VolumeSegments(v, mac);
    FirstHeaderFields(v);
    SecondHeaderFields(v);
    HeadersRead(EncodeVolume(v, mac), FirstHeader(v), SecondHeader(v), v.Second(),
                Span(v.DirectoryStart(), v.DirectorySize()), v.Start());
  }

  lemma DirectorySizes(v: Volume)
    requires v.Valid()
    ensures 0 < v.DirectorySize() <= SLOT * 4096 && v.DirectorySize() % SLOT == 0
  {
  }

  lemma VolumeHeaders(v: Volume, mac: seq<byte>)
    requires v.Valid() && |mac| == 6
    ensures var part := EncodeVolume(v, mac);
      && Headers(part, |part|) && DirectorySpan(part) == Span(v.DirectoryStart(), v.DirectorySize())
      && DataAt(part) == v.Start() && Directory(part, |part|) == DirectoryBytes(v)
  {
    VolumeFields(v, mac);
    VolumeSegments(v, mac);
    DirectorySizes(v);
  }

  /** Slot `k` of a run that starts `at` bytes into the directory. */
  lemma SlotInRun(directory: seq<byte>, at: nat, run: seq<byte>, k: nat)
    requires at % SLOT == 0 && at + |run| <= |directory| && directory[at..at + |run|] == run
    requires at <= SLOT * k && SLOT * k + SLOT <= at + |run|
    ensures SlotIn(directory, k) == SlotIn(run, k - at / SLOT)
  {
    assert SLOT * (k - at / SLOT) == SLOT * k - at;
    Subslice(directory, at, at + |run|, SLOT * k - at, SLOT * k - at + SLOT);
  }

  lemma VolumeSlots(v: Volume, k: nat)
    requires v.Valid() && SLOT * k + SLOT <= v.DirectorySize()
    ensures var slot := SlotIn(DirectoryBytes(v), k);
      if k == |v.before| / SLOT then slot == SlotBytes(v) else Passed(slot)
  {
    var d := DirectoryBytes(v);
    if k < |v.before| / SLOT {
      SlotInRun(d, 0, v.before, k);
    } else if k > |v.before| / SLOT {
      assert d[|v.before| + SLOT..|v.before| + SLOT + |v.after|] == v.after;
      SlotInRun(d, |v.before| + SLOT, v.after, k);
    }
  }

  lemma PayloadParts(part: seq<byte>, at: nat, mac: seq<byte>)
    requires at + 8 <= |part| && part[at..at + 8] == [1, 6] + mac && |mac| == 6
    ensures part[at..at + 2] == [1, 6] && part[at + 2..at + 8] == mac
  {
    assert part[at..at + 2] == part[at..at + 8][..2];
    assert part[at + 2..at + 8] == part[at..at + 8][2..];
  }

  /** The payload a slot points at, given where it was written. */
  lemma {:induction false} PayloadWritten(part: seq<byte>, k: nat, slot: seq<byte>, at: nat, tail: nat, mac: seq<byte>)
    requires Headers(part, |part|) && k < SlotCount(part) && slot == Slot(part, |part|, k)
    requires U32(slot, 200) == 8 && U32(slot, 196) == 8 + tail && DataAt(part) + U32(slot, 208) == at
    requires at + 8 + tail <= |part| && part[at..at + 2] == [1, 6] && part[at + 2..at + 8] == mac
    ensures PayloadAddress(part, |part|, k) == Address(Print(mac))
  {
    assert PayloadAt(part, |part|, k) == at;
  }

  lemma {:induction false} PayloadFound(part: seq<byte>, k: nat, slot: seq<byte>, at: nat, tail: nat, mac: seq<byte>)
    requires Headers(part, |part|) && k < SlotCount(part) && slot == Slot(part, |part|, k)
    requires U32(slot, 200) == 8 && U32(slot, 196) == 8 + tail && DataAt(part) + U32(slot, 208) == at
    requires at + 8 + tail <= |part| && part[at..at + 8] == [1, 6] + mac && |mac| == 6
    ensures PayloadAddress(part, |part|, k) == Address(Print(mac))
  {
    PayloadParts(part, at, mac);
    PayloadWritten(part, k, slot, at, tail, mac);
  }

  /** The reader finds exactly the record that was written. */
  lemma {:induction false} VolumeRoundTrip(v: Volume, mac: seq<byte>)
    requires v.Valid() && |mac| == 6 && mac != NO_ADDRESS && mac != BROADCAST
    ensures var part := EncodeVolume(v, mac); Record(part, |part|, Print(mac))
  {
    var part, n := EncodeVolume(v, mac), |v.before| / SLOT;
    VolumeHeaders(v, mac);
    VolumeSegments(v, mac);
    var kinds := Kinds(part, |part|);
    forall k | 0 <= k < |kinds|
      ensures if k == n then kinds[k] == Bluetooth(Some(Print(mac))) else kinds[k].Hole? || kinds[k].Other?
    {
      KindsAt(part, |part|, |kinds|, k);
      SlotOfDirectory(part, |part|, k);
      VolumeSlots(v, k);
      if k == n {
        SlotFields(v);
        AddressOfPrint(mac);
        PayloadFound(part, k, SlotBytes(v), v.Payload(), |v.tail|, mac);
      }
    }
    assert OneRecord(kinds, n, Print(mac));
  }
}
