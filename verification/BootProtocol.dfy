/** The record the loader leaves for the kernel, and the memory map it points to: what the
    loader writes, field by field, and what the kernel reads back. */
module BootProtocol {
  import opened Bytes
  import opened DiskBytes
  import opened PageTables
  import opened KernelImage

  // ---- memory types ---------------------------------------------------------------------------

  const LOADER_DATA := 2
  const BOOT_SERVICES_CODE := 3
  const BOOT_SERVICES_DATA := 4
  const CONVENTIONAL := 7
  const UNUSABLE := 8
  const ACPI_RECLAIM := 9
  const ACPI_NVS := 10
  const USABLE := 1
  const MMAP_CAP := 2560
  const MAP_ENTRY := 24
  const LOW_PAGES := 16

  /** The firmware's memory type in the kernel's numbering: boot-services and conventional memory
      usable (1), ACPI tables to reclaim (3), ACPI NVS (4), bad memory (5), the rest reserved (2). */
  function OurType(kind: nat): (r: nat)
    ensures r == 1 <==> kind in {3, 4, 7}
    ensures r == 3 <==> kind == 9
    ensures r == 4 <==> kind == 10
    ensures r == 5 <==> kind == 8
    ensures r == 2 <==> kind !in {3, 4, 7, 8, 9, 10}
  {
    if kind == CONVENTIONAL || kind == BOOT_SERVICES_CODE || kind == BOOT_SERVICES_DATA then USABLE
    else if kind == ACPI_RECLAIM then 3
    else if kind == ACPI_NVS then 4
    else if kind == UNUSABLE then 5
    else 2
  }

  datatype Descriptor = Descriptor(kind: nat, first: nat, pages: nat)

  predicate Within(d: Descriptor, page: nat) { d.first <= page < d.first + d.pages }

  /** Firmware maps describe physical addresses of at most 52 bits. */
  predicate Sane(d: Descriptor) { d.first + d.pages <= 0x100_0000_0000 }

  // ---- the map's entries ------------------------------------------------------------------------

  /** One entry of the kernel's memory map: base, length, type, attributes. */
  function EntryBytes(d: Descriptor): (r: seq<byte>)
    ensures |r| == MAP_ENTRY
  {
    Le(d.first * PAGE, 8) + Le(d.pages * PAGE, 8) + Le(OurType(d.kind), 4) + Le(0, 4)
  }

  lemma FourParts(e: seq<byte>, a: seq<byte>, b: seq<byte>, c: seq<byte>, d: seq<byte>)
    requires |a| == |b| == 8 && |c| == |d| == 4 && e == a + b + c + d
    ensures e[0..8] == a && e[8..16] == b && e[16..20] == c && e[20..24] == d
  {
  }

  lemma EntryFields(d: Descriptor)
    requires Sane(d)
    ensures Get(EntryBytes(d), 0, 8) == d.first * PAGE && Get(EntryBytes(d), 8, 8) == d.pages * PAGE
    ensures Get(EntryBytes(d), 16, 4) == OurType(d.kind) && Get(EntryBytes(d), 20, 4) == 0
  {
    hide Le, UnLe, Pow256, OurType;
    Widths();
    var e := EntryBytes(d);
    FourParts(e, Le(d.first * PAGE, 8), Le(d.pages * PAGE, 8), Le(OurType(d.kind), 4), Le(0, 4));
    LeRoundTrip(d.first * PAGE, 8);
    LeRoundTrip(d.pages * PAGE, 8);
    LeRoundTrip(OurType(d.kind), 4);
    LeRoundTrip(0, 4);
  }

  /** The map lies at `at`, entry by entry. */
  ghost predicate MapAt(m: seq<byte>, at: nat, memmap: seq<Descriptor>) {
    forall i | 0 <= i < |memmap| :: Has(m, at + MAP_ENTRY * i, EntryBytes(memmap[i]))
  }

  lemma MapNext(m: seq<byte>, at: nat, memmap: seq<Descriptor>, n: nat)
    requires n < |memmap| && MapAt(m, at, memmap[..n]) && at + MAP_ENTRY * n + MAP_ENTRY <= |m|
    ensures MapAt(Splice(m, at + MAP_ENTRY * n, EntryBytes(memmap[n])), at, memmap[..n + 1])
  {
    hide EntryBytes, Splice;
    var m' := Splice(m, at + MAP_ENTRY * n, EntryBytes(memmap[n]));
    forall i | 0 <= i < n + 1
      ensures Has(m', at + MAP_ENTRY * i, EntryBytes(memmap[..n + 1][i]))
    {
      if i < n {
        assert memmap[..n][i] == memmap[i];
        HasElsewhere(m, at + MAP_ENTRY * i, EntryBytes(memmap[i]), at + MAP_ENTRY * n, EntryBytes(memmap[n]));
      }
    }
  }

  // ---- the record's fields -----------------------------------------------------------------------

  const MAGIC := 0x4F52_504B_4E49_4C45
  const VERSION := 5
  const RECORD := 0x130
  const SMALLEST := 0x50

  /** What does not change once the record is begun: version, size, and where the map is. */
  ghost predicate RecordAt(m: seq<byte>, bp: nat) {
    && Has(m, bp + 0x08, Le(VERSION, 4)) && Has(m, bp + 0x0C, Le(RECORD, 4))
    && Has(m, bp + 0x18, Le(bp + PAGE, 8)) && Has(m, bp + 0x20, Le(MAP_ENTRY, 4))
  }

  ghost predicate MagicAt(m: seq<byte>, bp: nat) { Has(m, bp, Le(MAGIC, 8)) }

  ghost predicate CountAt(m: seq<byte>, bp: nat, n: nat) { Has(m, bp + 0x14, Le(n, 4)) }

  /** Only the count and the first `n` entries of the map have changed. */
  ghost predicate OnlyMap(a: seq<byte>, b: seq<byte>, bp: nat, n: nat) {
    |a| == |b| && forall k | 0 <= k < |a| && !(bp + 0x14 <= k < bp + 0x18)
                             && !(bp + PAGE <= k < bp + PAGE + MAP_ENTRY * n) :: b[k] == a[k]
  }

  lemma HasOnlyMap(a: seq<byte>, b: seq<byte>, bp: nat, n: nat, off: nat, blob: seq<byte>)
    requires OnlyMap(a, b, bp, n) && Has(a, off, blob)
    requires off + |blob| <= bp + 0x14 || (bp + 0x18 <= off && off + |blob| <= bp + PAGE)
    ensures Has(b, off, blob)
  {
    assert b[off..off + |blob|] == a[off..off + |blob|];
  }

  lemma RecordOnlyMap(a: seq<byte>, b: seq<byte>, bp: nat, n: nat)
    requires OnlyMap(a, b, bp, n)
    ensures RecordAt(a, bp) ==> RecordAt(b, bp)
    ensures MagicAt(a, bp) ==> MagicAt(b, bp)
  {
    hide Has, OnlyMap, Le;
    if RecordAt(a, bp) {
      HasOnlyMap(a, b, bp, n, bp + 0x08, Le(VERSION, 4));
      HasOnlyMap(a, b, bp, n, bp + 0x0C, Le(RECORD, 4));
      HasOnlyMap(a, b, bp, n, bp + 0x18, Le(bp + PAGE, 8));
      HasOnlyMap(a, b, bp, n, bp + 0x20, Le(MAP_ENTRY, 4));
    }
    if MagicAt(a, bp) { HasOnlyMap(a, b, bp, n, bp, Le(MAGIC, 8)); }
  }

  // ---- the translation loop -------------------------------------------------------------------------

  lemma CountedOnly(was: seq<byte>, mid: seq<byte>, bp: nat, n: nat, count: seq<byte>)
    requires bp + PAGE <= |mid| && |count| == 4 && SameOutside(was, mid, bp + PAGE, bp + PAGE + MAP_ENTRY * n)
    ensures OnlyMap(was, Splice(mid, bp + 0x14, count), bp, n) && Has(Splice(mid, bp + 0x14, count), bp + 0x14, count)
  {
  }

  lemma MapElsewhere(m: seq<byte>, m': seq<byte>, at: nat, memmap: seq<Descriptor>, off: nat, data: seq<byte>)
    requires MapAt(m, at, memmap) && off + |data| <= at && off + |data| <= |m| && m' == Splice(m, off, data)
    ensures MapAt(m', at, memmap)
  {
    hide EntryBytes, Has;
    forall i | 0 <= i < |memmap|
      ensures Has(m', at + MAP_ENTRY * i, EntryBytes(memmap[i]))
    {
      HasElsewhere(m, at + MAP_ENTRY * i, EntryBytes(memmap[i]), off, data);
    }
  }

  lemma MapThenCount(was: seq<byte>, mid: seq<byte>, now: seq<byte>, bp: nat, memmap: seq<Descriptor>)
    requires bp + PAGE <= |mid| && MapAt(mid, bp + PAGE, memmap) && now == Splice(mid, bp + 0x14, Le(|memmap|, 4))
    requires SameOutside(was, mid, bp + PAGE, bp + PAGE + MAP_ENTRY * |memmap|)
    ensures MapAt(now, bp + PAGE, memmap) && CountAt(now, bp, |memmap|) && OnlyMap(was, now, bp, |memmap|)
  {
    hide MapAt, Has, OnlyMap, SameOutside, Le;
    CountedOnly(was, mid, bp, |memmap|, Le(|memmap|, 4));
    MapElsewhere(mid, now, bp + PAGE, memmap, bp + 0x14, Le(|memmap|, 4));
  }

  /** Refuse a map that does not fit; otherwise write every entry, then their number. */
  method TranslateMap(mem: array<byte>, bp: nat, firmware: seq<Descriptor>) returns (done: bool)
    requires bp + PAGE + MAP_ENTRY * MMAP_CAP <= mem.Length
    modifies mem
    ensures done <==> |firmware| <= MMAP_CAP
    ensures !done ==> mem[..] == old(mem[..])
    ensures done ==> MapAt(mem[..], bp + PAGE, firmware) && CountAt(mem[..], bp, |firmware|)
    ensures done ==> OnlyMap(old(mem[..]), mem[..], bp, |firmware|)
  {
    hide EntryBytes, Splice, SameOutside, CountAt, OnlyMap;
    if |firmware| > MMAP_CAP { return false; }
    ghost var was := mem[..];
    var at := bp + PAGE;
    ghost var end := at + MAP_ENTRY * |firmware|;
    SameOutsideSelf(was, at, end);
    for i := 0 to |firmware|
      invariant MapAt(mem[..], at, firmware[..i]) && SameOutside(was, mem[..], at, end)
    {
      ghost var before := mem[..];
      Poke(mem, at + MAP_ENTRY * i, EntryBytes(firmware[i]));
      MapNext(before, at, firmware, i);
      SplicedOutside(before, at + MAP_ENTRY * i, EntryBytes(firmware[i]));
      SameOutsideWider(before, mem[..], at + MAP_ENTRY * i, at + MAP_ENTRY * i + MAP_ENTRY, at, end);
      SameOutsideTrans(was, before, mem[..], at, end);
    }
    assert firmware[..|firmware|] == firmware;
    ghost var mid := mem[..];
    Poke(mem, bp + 0x14, Le(|firmware|, 4));
    MapThenCount(was, mid, mem[..], bp, firmware);
    done := true;
  }

  // ---- what the kernel reads -------------------------------------------------------------------------

  datatype KernelEntry = KernelEntry(base: nat, length: nat, kind: nat)

  function Field(m: seq<byte>, off: nat, k: nat): (r: nat) { if off + k <= |m| then Get(m, off, k) else 0 }

  /** The record is accepted; a null pointer to it never is. */
  predicate Captured(m: seq<byte>, bp: nat) {
    && bp != 0
    && Field(m, bp, 8) == MAGIC && 1 <= Field(m, bp + 0x08, 4) <= VERSION && Field(m, bp + 0x0C, 4) >= SMALLEST
    && Field(m, bp + 0x14, 4) != 0 && Field(m, bp + 0x20, 4) >= MAP_ENTRY
  }

  function MapCount(m: seq<byte>, bp: nat): (r: nat) { if Captured(m, bp) then Field(m, bp + 0x14, 4) else 0 }

  /** Entry `i`, found by count, address and stride as the record gives them. */
  function MapEntry(m: seq<byte>, bp: nat, i: nat): (r: Option<KernelEntry>) {
    if i >= MapCount(m, bp) then None
    else
      var at := Field(m, bp + 0x18, 8) + i * Field(m, bp + 0x20, 4);
      Some(KernelEntry(Field(m, at, 8), Field(m, at + 8, 8), Field(m, at + 16, 4)))
  }

  function AsEntry(d: Descriptor): (r: KernelEntry) { KernelEntry(d.first * PAGE, d.pages * PAGE, OurType(d.kind)) }

  lemma FieldReads(m: seq<byte>, off: nat, n: nat, k: nat)
    requires Has(m, off, Le(n, k)) && n < Pow256(k)
    ensures Field(m, off, k) == n
  {
    hide Le, UnLe, Pow256;
    LeRoundTrip(n, k);
  }

  lemma EntryReads(m: seq<byte>, at: nat, d: Descriptor)
    requires Has(m, at, EntryBytes(d)) && Sane(d)
    ensures KernelEntry(Field(m, at, 8), Field(m, at + 8, 8), Field(m, at + 16, 4)) == AsEntry(d)
  {
    hide EntryBytes, Get, OurType;
    EntryFields(d);
    GetInside(m, EntryBytes(d), at, 0, 8);
    GetInside(m, EntryBytes(d), at, 8, 8);
    GetInside(m, EntryBytes(d), at, 16, 4);
  }

  lemma RecordReads(m: seq<byte>, bp: nat, n: nat)
    requires RecordAt(m, bp) && MagicAt(m, bp) && CountAt(m, bp, n) && n <= MMAP_CAP && bp + PAGE < 0x1_0000_0000_0000_0000
    ensures Captured(m, bp) <==> n > 0 && bp != 0
    ensures Field(m, bp + 0x14, 4) == n && Field(m, bp + 0x18, 8) == bp + PAGE && Field(m, bp + 0x20, 4) == MAP_ENTRY
  {
    hide Has, Le, Field, Pow256;
    Widths();
    FieldReads(m, bp, MAGIC, 8);
    FieldReads(m, bp + 0x08, VERSION, 4);
    FieldReads(m, bp + 0x0C, RECORD, 4);
    FieldReads(m, bp + 0x14, n, 4);
    FieldReads(m, bp + 0x18, bp + PAGE, 8);
    FieldReads(m, bp + 0x20, MAP_ENTRY, 4);
  }

  /** From the record alone the kernel reads exactly the map that was translated: every
      entry of it, in order, and nothing after the last. A record at address 0 it refuses. */
  lemma KernelReadsMap(m: seq<byte>, bp: nat, memmap: seq<Descriptor>, i: nat)
    requires RecordAt(m, bp) && MagicAt(m, bp) && CountAt(m, bp, |memmap|) && MapAt(m, bp + PAGE, memmap)
    requires 0 < |memmap| <= MMAP_CAP && bp + PAGE < 0x1_0000_0000_0000_0000
    requires forall d | 0 <= d < |memmap| :: Sane(memmap[d])
    ensures Captured(m, bp) <==> bp != 0
    ensures MapCount(m, bp) == if bp != 0 then |memmap| else 0
    ensures MapEntry(m, bp, i) == if bp != 0 && i < |memmap| then Some(AsEntry(memmap[i])) else None
  {
    hide RecordAt, MagicAt, CountAt, Captured, Field, EntryBytes, Has, AsEntry, Sane;
    RecordReads(m, bp, |memmap|);
    if bp != 0 && i < |memmap| {
      assert i * MAP_ENTRY == MAP_ENTRY * i;
      EntryReads(m, bp + PAGE + MAP_ENTRY * i, memmap[i]);
    }
  }
}
