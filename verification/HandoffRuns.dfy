/** Two runs of the handoff, on a small machine with a one-segment kernel: one that enters
    the kernel, and one whose retry meets a map one descriptor longer. */
module HandoffRuns {
  import opened Bytes
  import opened DiskBytes
  import opened PageTables
  import opened KernelImage
  import opened BootProtocol
  import opened Handoff

  // ---- runs grow one step at a time -----------------------------------------------------------

  lemma {:induction false} Longer(s: Machine, run: seq<Action>, a: Action)
    requires Legal(s, run) && Can(After(s, run), a)
    ensures Legal(s, run + [a]) && After(s, run + [a]) == Do(After(s, run), a)
    decreases |run|
  {
    hide Can, Do;
    if run == [] {
      assert (run + [a])[1..] == [] && (run + [a])[0] == a;
    } else {
      Longer(Do(s, run[0]), run[1..], a);
      assert (run + [a])[1..] == run[1..] + [a] && (run + [a])[0] == run[0];
    }
  }

  lemma ReachedStep(s: Machine, a: Action)
    requires Reached(s) && Can(s, a)
    ensures Reached(Do(s, a))
  {
    hide Can, Do, Start;
    var start, run :| Start(start) && Legal(start, run) && After(start, run) == s;
    Longer(start, run, a);
  }

  // ---- memory the loader's writes can lead to ----------------------------------------------------

  /** Write `blob` and keep to a wider range. */
  lemma WriteInside(m: seq<byte>, off: nat, blob: seq<byte>, lo: nat, hi: nat) returns (m': seq<byte>)
    requires lo <= off && off + |blob| <= hi && off + |blob| <= |m|
    ensures m' == Splice(m, off, blob) && SameOutside(m, m', lo, hi) && Has(m', off, blob)
  {
    m' := Splice(m, off, blob);
  }

  lemma CanRecord(m: seq<byte>, bp: nat, hi: nat) returns (m': seq<byte>)
    requires bp + PAGE <= hi && bp + PAGE <= |m|
    ensures RecordAt(m', bp) && SameOutside(m, m', bp, hi)
  {
    hide Le, Has, Splice, SameOutside;
    var a := WriteInside(m, bp + 0x08, Le(VERSION, 4), bp, hi);
    var b := WriteInside(a, bp + 0x0C, Le(RECORD, 4), bp, hi);
    HasElsewhere(a, bp + 0x08, Le(VERSION, 4), bp + 0x0C, Le(RECORD, 4));
    var c := WriteInside(b, bp + 0x18, Le(bp + PAGE, 8), bp, hi);
    HasElsewhere(b, bp + 0x08, Le(VERSION, 4), bp + 0x18, Le(bp + PAGE, 8));
    HasElsewhere(b, bp + 0x0C, Le(RECORD, 4), bp + 0x18, Le(bp + PAGE, 8));
    m' := WriteInside(c, bp + 0x20, Le(MAP_ENTRY, 4), bp, hi);
    HasElsewhere(c, bp + 0x08, Le(VERSION, 4), bp + 0x20, Le(MAP_ENTRY, 4));
    HasElsewhere(c, bp + 0x0C, Le(RECORD, 4), bp + 0x20, Le(MAP_ENTRY, 4));
    HasElsewhere(c, bp + 0x18, Le(bp + PAGE, 8), bp + 0x20, Le(MAP_ENTRY, 4));
    SameOutsideTrans(m, a, b, bp, hi);
    SameOutsideTrans(m, b, c, bp, hi);
    SameOutsideTrans(m, c, m', bp, hi);
  }

  lemma {:induction false} CanPlace(m: seq<byte>, file: seq<byte>, segs: seq<Segment>, n: nat, lo: nat, hi: nat)
    returns (m': seq<byte>)
    requires WellLinked(segs, |file|) && n <= |segs| && hi <= |m|
    requires forall i | 0 <= i < |segs| && Loads(segs[i]) :: lo <= Phys(segs[i]) && Phys(segs[i]) + segs[i].memsz <= hi
    ensures ImageAt(m', file, segs, n) && SameOutside(m, m', lo, hi)
  {
    hide Phys, Contents, SameOutside, Splice;
    if n == 0 {
      m' := m;
      SameOutsideSelf(m, lo, hi);
    } else {
      m' := CanPlace(m, file, segs, n - 1, lo, hi);
      if Loads(segs[n - 1]) {
        var before := m';
        OutsideLength(m, before, lo, hi);
        PhysOf(segs, |file|, n - 1);
        PlacedNext(before, file, segs, n - 1);
        m' := WriteInside(before, Phys(segs[n - 1]), Contents(file, segs[n - 1]), lo, hi);
        SameOutsideTrans(m, before, m', lo, hi);
      }
    }
  }

  lemma OutsideLength(a: seq<byte>, b: seq<byte>, lo: nat, hi: nat)
    requires SameOutside(a, b, lo, hi)
    ensures |a| == |b|
  {
  }

  /** The words laid so far, the rest of the block as it was. */
  lemma {:induction false} CanTables(m: seq<byte>, blk: nat, n: nat, hi: nat) returns (m': seq<byte>)
    requires Placed(blk) && n <= WORDS && blk + 8 * WORDS <= hi <= |m|
    ensures TablesAt(m', blk, Tables(blk)[..n]) && SameOutside(m, m', blk, hi)
    decreases n
  {
    hide Le, SameOutside, Splice;
    if n == 0 {
      m' := m;
      SameOutsideSelf(m, blk, hi);
    } else {
      var before := CanTables(m, blk, n - 1, hi);
      OutsideLength(m, before, blk, hi);
      var v := Tables(blk)[n - 1];
      m' := WriteInside(before, blk + 8 * (n - 1), Le(v, 8), blk, hi);
      WordSmall(blk, n - 1);
      TablesNext(before, m', blk, Tables(blk)[..n - 1], v);
      assert Tables(blk)[..n] == Tables(blk)[..n - 1] + [v];
      SameOutsideTrans(m, before, m', blk, hi);
    }
  }

  lemma WordSmall(blk: nat, j: nat)
    requires Placed(blk) && j < WORDS
    ensures Word(blk, j) < 0x1_0000_0000_0000_0000
  {
  }

  lemma TablesNext(m: seq<byte>, m': seq<byte>, blk: nat, w: seq<nat>, v: nat)
    requires TablesAt(m, blk, w) && v < 0x1_0000_0000_0000_0000 && blk + 8 * |w| + 8 <= |m|
    requires m' == Splice(m, blk + 8 * |w|, Le(v, 8))
    ensures TablesAt(m', blk, w + [v])
  {
    hide Le, Has, Splice;
    var all := w + [v];
    forall j | 0 <= j < |all|
      ensures Has(m', blk + 8 * j, Le(all[j], 8))
    {
      WordAfter(m, m', blk, w, v, j);
    }
  }

  lemma WordAfter(m: seq<byte>, m': seq<byte>, blk: nat, w: seq<nat>, v: nat, j: nat)
    requires TablesAt(m, blk, w) && blk + 8 * |w| + 8 <= |m| && m' == Splice(m, blk + 8 * |w|, Le(v, 8)) && j <= |w|
    ensures Has(m', blk + 8 * j, Le((w + [v])[j], 8))
  {
    hide Le, Has, Splice;
    if j < |w| {
      HasElsewhere(m, blk + 8 * j, Le(w[j], 8), blk + 8 * |w|, Le(v, 8));
    } else {
      HasWritten(m, blk + 8 * |w|, Le(v, 8));
    }
  }

  lemma HasWritten(m: seq<byte>, off: nat, blob: seq<byte>)
    requires off + |blob| <= |m|
    ensures Has(Splice(m, off, blob), off, blob)
  {
  }

  lemma {:induction false} CanEntries(m: seq<byte>, at: nat, memmap: seq<Descriptor>, n: nat) returns (m': seq<byte>)
    requires n <= |memmap| && at + MAP_ENTRY * |memmap| <= |m|
    ensures MapAt(m', at, memmap[..n]) && SameOutside(m, m', at, at + MAP_ENTRY * |memmap|)
  {
    hide EntryBytes, SameOutside, Splice;
    if n == 0 {
      m' := m;
      SameOutsideSelf(m, at, at + MAP_ENTRY * |memmap|);
    } else {
      var before := CanEntries(m, at, memmap, n - 1);
      OutsideLength(m, before, at, at + MAP_ENTRY * |memmap|);
      m' := WriteInside(before, at + MAP_ENTRY * (n - 1), EntryBytes(memmap[n - 1]), at, at + MAP_ENTRY * |memmap|);
      MapNext(before, at, memmap, n - 1);
      SameOutsideTrans(m, before, m', at, at + MAP_ENTRY * |memmap|);
    }
  }

  lemma CanTranslate(m: seq<byte>, bp: nat, memmap: seq<Descriptor>) returns (m': seq<byte>)
    requires bp + PAGE + MAP_ENTRY * |memmap| <= |m|
    ensures MapAt(m', bp + PAGE, memmap) && CountAt(m', bp, |memmap|) && OnlyMap(m, m', bp, |memmap|)
  {
    hide MapAt, CountAt, OnlyMap, SameOutside, Splice, Le;
    var mid := CanEntries(m, bp + PAGE, memmap, |memmap|);
    assert memmap[..|memmap|] == memmap;
    OutsideLength(m, mid, bp + PAGE, bp + PAGE + MAP_ENTRY * |memmap|);
    m' := Splice(mid, bp + 0x14, Le(|memmap|, 4));
    MapThenCount(m, mid, m', bp, memmap);
  }

  // ---- a kernel of one segment ---------------------------------------------------------------------

  const LOAD_AT := 0x2_0000

  function ElfParts(): (r: seq<seq<byte>>) {
    [[0x7F, 0x45, 0x4C, 0x46] + Zeros(20), Le(HIGH + LOAD_AT, 8), Le(64, 8), Zeros(16), Le(1, 2), Zeros(6),
     Le(PT_LOAD, 4) + Zeros(4), Le(0, 8), Le(HIGH + LOAD_AT, 8), Zeros(8), Le(1, 8), Le(2, 8), Zeros(8)]
  }

  /** One header that loads one byte and clears another, 128 KiB above the kernel base. */
  function TinyElf(): (r: seq<byte>) { Flatten(ElfParts()) }

  /** Offsets follow from the lengths of the parts before. */
  lemma ThirteenOffsets(p: seq<seq<byte>>)
    requires |p| == 13 && |p[0]| == 24 && |p[1]| == 8 && |p[2]| == 8 && |p[3]| == 16 && |p[4]| == 2 && |p[5]| == 6
    requires |p[6]| == 8 && |p[7]| == 8 && |p[8]| == 8 && |p[9]| == 8 && |p[10]| == 8 && |p[11]| == 8 && |p[12]| == 8
    ensures TotalLength(p[..2]) == 32 && TotalLength(p[..4]) == 56 && TotalLength(p[..6]) == 64
    ensures TotalLength(p[..7]) == 72 && TotalLength(p[..8]) == 80 && TotalLength(p[..10]) == 96
    ensures TotalLength(p[..11]) == 104 && |Flatten(p)| == 120
  {
    hide TotalLength, Flatten;
    NoneBefore(p);
    TotalSnoc(p, 0); TotalSnoc(p, 1); TotalSnoc(p, 2); TotalSnoc(p, 3); TotalSnoc(p, 4); TotalSnoc(p, 5);
    TotalSnoc(p, 6); TotalSnoc(p, 7); TotalSnoc(p, 8); TotalSnoc(p, 9); TotalSnoc(p, 10); TotalSnoc(p, 11);
    TotalSnoc(p, 12);
    assert p[..13] == p;
    FlattenLength(p);
  }

  lemma ElfOffsets()
    ensures var p := ElfParts();
            && |p| == 13 && TotalLength(p[..2]) == 32 && TotalLength(p[..4]) == 56 && TotalLength(p[..6]) == 64
            && TotalLength(p[..7]) == 72 && TotalLength(p[..8]) == 80 && TotalLength(p[..10]) == 96 && TotalLength(p[..11]) == 104
            && |TinyElf()| == 120
  {
    hide TotalLength, Flatten, Le;
    ThirteenOffsets(ElfParts());
  }

  lemma ElfFields()
    ensures |TinyElf()| == 120 && IsElf(TinyElf())
    ensures Phoff(TinyElf()) == 64 && Phnum(TinyElf()) == 1
    ensures Get(TinyElf(), 64, 4) == PT_LOAD && Get(TinyElf(), 72, 8) == 0 && Get(TinyElf(), 80, 8) == HIGH + LOAD_AT
    ensures Get(TinyElf(), 96, 8) == 1 && Get(TinyElf(), 104, 8) == 2
  {
    hide Le, Flatten, TotalLength, Get, UnLe, Pow256;
    var p, f := ElfParts(), TinyElf();
    ElfOffsets();
    Widths();
    FieldAt(p, 2, 32, 64, 8);
    FieldAt(p, 4, 56, 1, 2);
    FieldAt(p, 7, 72, 0, 8);
    FieldAt(p, 8, 80, HIGH + LOAD_AT, 8);
    FieldAt(p, 10, 96, 1, 8);
    FieldAt(p, 11, 104, 2, 8);
    ElfEnds();
  }

  lemma ElfEnds()
    ensures |TinyElf()| == 120 && TinyElf()[..4] == [0x7F, 0x45, 0x4C, 0x46] && Get(TinyElf(), 64, 4) == PT_LOAD
  {
    hide Le, Flatten, TotalLength, UnLe, Pow256;
    var p, f := ElfParts(), TinyElf();
    ElfOffsets();
    PartAt(p, 0);
    NoneBefore(p);
    HasWithin(f, 0, p[0], 0, 4);
    assert p[0][0..4] == [0x7F, 0x45, 0x4C, 0x46] && f[..4] == f[0..4];
    PartAt(p, 6);
    HasWithin(f, 64, p[6], 0, 4);
    assert p[6][0..4] == Le(PT_LOAD, 4);
    Widths();
    LeRoundTrip(PT_LOAD, 4);
  }

  lemma NoneBefore(p: seq<seq<byte>>)
    ensures TotalLength(p[..0]) == 0
  {
  }

  /** It is a kernel the loader takes, and one page at its address holds it. */
  lemma ElfIsGood()
    ensures Good(TinyElf()) && IsElf(TinyElf()) && Covers(Segments(TinyElf()), LOAD_AT, 1)
  {
    hide TinyElf, Get, Flatten;
    ElfFields();
    var file := TinyElf();
    assert HeadersInside(file);
    var segs := Segments(file);
    assert |segs| == 1 && segs[0] == HeaderAt(file, 0) == Segment(PT_LOAD, 0, HIGH + LOAD_AT, 1, 2);
    assert Loads(segs[0]) && Phys(segs[0]) == LOAD_AT;
  }

  // ---- a small machine ---------------------------------------------------------------------------------

  const MEMORY := 64 * PAGE
  const STRIDE := 48

  function Regions(): (r: seq<Region>) { [Region(16, LOW_PAGES), Region(32, 1), Region(40, TABLE_PAGES), Region(50, 1)] }

  /** The firmware's map once the first `k` regions have been granted. */
  function MapAfter(k: nat): (r: seq<Descriptor>)
    ensures |r| == 4
  {
    seq(4, i requires 0 <= i < 4 =>
      Descriptor(if i < k then LOADER_DATA else CONVENTIONAL, Regions()[i].first, Regions()[i].pages))
  }

  lemma MapKeepsContract(k: nat, r: seq<Region>)
    requires k <= 4 && r == Regions()[..k]
    ensures Contract(MapAfter(k), r)
    ensures k < 4 ==> forall page | In(Regions()[k], page) :: Typed(MapAfter(k), page, CONVENTIONAL)
  {
    var m := MapAfter(k);
    forall i, page | 0 <= i < |r| && In(r[i], page)
      ensures Typed(m, page, LOADER_DATA)
    {
      assert Within(m[i], page) && m[i].kind == LOADER_DATA;
    }
    if k < 4 {
      forall page | In(Regions()[k], page)
        ensures Typed(m, page, CONVENTIONAL)
      {
        assert Within(m[k], page) && m[k].kind == CONVENTIONAL;
      }
    }
  }

  lemma GrantNext(s: Machine, k: nat)
    requires k < 4 && s.taken == Regions()[..k] && s.memmap == MapAfter(k) && s.key == k && |s.mem| == MEMORY
    ensures Grant(s, Regions()[k], MapAfter(k + 1), k + 1)
  {
    hide Contract;
    MapKeepsContract(k, s.taken);
    assert Regions()[..k + 1] == s.taken + [Regions()[k]];
    MapKeepsContract(k + 1, s.taken + [Regions()[k]]);
  }

  /** Where the run stands once `k` regions have been granted. */
  ghost predicate At(s: Machine, phase: Phase, k: nat) {
    && k <= 4 && Reached(s) && s.phase == phase && s.taken == Regions()[..k] && s.memmap == MapAfter(k) && s.key == k
    && |s.mem| == MEMORY && s.stride == STRIDE && s.file == TinyElf()
  }

  lemma LowRun() returns (s: Machine)
    ensures At(s, HaveLow, 1) && s.rounds == 0
  {
    hide Contract, TinyElf, RecordAt, SameOutside, Grant, MapAfter, Le;
    var m := Zeros(MEMORY);
    s := Machine(TinyElf(), STRIDE, Begin, m, MapAfter(0), 0, [], 0, 0, 0, [], 0);
    MapKeepsContract(0, []);
    assert Legal(s, []) && After(s, []) == s && Start(s);
    GrantNext(s, 0);
    var r := Regions()[0];
    var m' := CanRecord(m, r.first * PAGE, (r.first + r.pages) * PAGE);
    OutsideLength(m, m', r.first * PAGE, (r.first + r.pages) * PAGE);
    var a := TakeLow(r, MapAfter(1), 1, m');
    ReachedStep(s, a);
    s := Do(s, a);
    assert s.taken == Regions()[..1];
  }

  lemma ImageRun(s: Machine) returns (t: Machine)
    requires At(s, HaveLow, 1) && s.rounds == 0
    ensures At(t, HaveImage, 2) && t.rounds == 0
  {
    hide Contract, TinyElf, SameOutside, Grant, MapAfter, Reached, ImageAt, WellLinked, Segments, Covers, IsElf, HeadersInside;
    ElfIsGood();
    GrantNext(s, 1);
    var r := Regions()[1];
    var lo, hi := r.first * PAGE, (r.first + r.pages) * PAGE;
    var segs := Segments(s.file);
    CoversInside(segs, lo, 1);
    var m' := CanPlace(s.mem, s.file, segs, |segs|, lo, hi);
    OutsideLength(s.mem, m', lo, hi);
    var a := TakeImage(r, MapAfter(2), 2, m');
    ReachedStep(s, a);
    t := Do(s, a);
    assert t.taken == Regions()[..2];
  }

  lemma CoversInside(segs: seq<Segment>, base: nat, pages: nat)
    requires Covers(segs, base, pages)
    ensures forall i | 0 <= i < |segs| && Loads(segs[i]) ::
              base <= Phys(segs[i]) && Phys(segs[i]) + segs[i].memsz <= base + pages * PAGE
  {
  }

  lemma TablesRun(s: Machine) returns (t: Machine)
    requires At(s, HaveImage, 2) && s.rounds == 0
    ensures At(t, HaveTables, 3) && t.rounds == 0
  {
    hide Contract, TinyElf, SameOutside, Grant, MapAfter, Reached, TablesAt, Word;
    GrantNext(s, 2);
    var r := Regions()[2];
    var blk, hi := r.first * PAGE, (r.first + r.pages) * PAGE;
    var m' := CanTables(s.mem, blk, WORDS, hi);
    assert Tables(blk)[..WORDS] == Tables(blk);
    OutsideLength(s.mem, m', blk, hi);
    var a := TakeTables(r, MapAfter(3), 3, m');
    ReachedStep(s, a);
    t := Do(s, a);
    assert t.taken == Regions()[..3];
  }

  lemma BufferRun(s: Machine) returns (t: Machine)
    requires At(s, HaveTables, 3) && s.rounds == 0
    ensures At(t, HaveBuffer, 4) && t.rounds == 0 && t.room == t.capacity == 12 * STRIDE
  {
    hide Contract, TinyElf, SameOutside, Grant, MapAfter, Reached, MagicAt, Le;
    var bp := Bp(s);
    var m' := WriteInside(s.mem, bp, Le(MAGIC, 8), bp, bp + 8);
    OutsideLength(s.mem, m', bp, bp + 8);
    MagicIs(m', bp);
    ReachedStep(s, Seal(m'));
    t := Do(s, Seal(m'));
    ReachedStep(t, Probe);
    t := Do(t, Probe);
    GrantNext(t, 3);
    var a := TakeBuffer(Regions()[3], MapAfter(4), 4);
    ReachedStep(t, a);
    t := Do(t, a);
    assert t.taken == Regions()[..4];
  }

  lemma MagicIs(m: seq<byte>, bp: nat)
    requires Has(m, bp, Le(MAGIC, 8))
    ensures MagicAt(m, bp)
  {
  }

  lemma TranslatedRun(s: Machine) returns (t: Machine)
    requires At(s, HaveBuffer, 4) && s.rounds == 0 && s.room == s.capacity == 12 * STRIDE
    ensures At(t, Translated, 4) && t.rounds == 1 && t.copy == MapAfter(4) && t.copyKey == 4
    ensures t.room == 4 * STRIDE && t.capacity == 12 * STRIDE
  {
    hide Contract, TinyElf, SameOutside, Grant, MapAfter, Reached, MapAt, CountAt, OnlyMap;
    SameOutsideSelf(s.mem, s.taken[3].first * PAGE, (s.taken[3].first + s.taken[3].pages) * PAGE);
    ReachedStep(s, ReadMap(s.mem));
    t := Do(s, ReadMap(s.mem));
    var m' := CanTranslate(t.mem, Bp(t), t.copy);
    OnlyMapLength(t.mem, m', Bp(t), |t.copy|);
    ReachedStep(t, Translate(m'));
    t := Do(t, Translate(m'));
  }

  lemma OnlyMapLength(a: seq<byte>, b: seq<byte>, bp: nat, n: nat)
    requires OnlyMap(a, b, bp, n)
    ensures |a| == |b|
  {
  }

  lemma ToTranslated() returns (s: Machine)
    ensures At(s, Translated, 4) && s.rounds == 1 && s.copy == MapAfter(4) && s.copyKey == 4
    ensures s.room == 4 * STRIDE && s.capacity == 12 * STRIDE
  {
    hide At;
    s := LowRun();
    s := ImageRun(s);
    s := TablesRun(s);
    s := BufferRun(s);
    s := TranslatedRun(s);
  }

  /** The kernel can be entered, with a record it accepts. */
  lemma KernelIsEntered() returns (s: Machine)
    ensures Reached(s) && s.phase == Entered && |s.memmap| == 4 && Captured(s.mem, Bp(s))
  {
    hide Reached, TinyElf, Captured;
    s := ToTranslated();
    ReachedStep(s, Exit);
    s := Do(s, Exit);
    MapIsExact(s, 0);
  }

  /** A retry that fails: the firmware added one descriptor before the exit; the buffer
      has room for it, and the loader stops all the same. */
  lemma RetryDies() returns (s: Machine, t: Machine)
    ensures Reached(s) && s.phase == HaveBuffer && s.rounds == 1 && |s.memmap| == |s.copy| + 1
    ensures |s.memmap| * s.stride <= s.capacity
    ensures Reached(t) && t == Do(s, ReadMap(s.mem)) && t.phase == Dead
  {
    hide Reached, TinyElf;
    s := ToTranslated();
    OneMore();
    var a := Firmware(MapAfter(4) + [Descriptor(0, 60, 1)], 5, s.mem);
    assert s.taken == Regions();
    ReachedStep(s, a);
    s := Do(s, a);
    ReachedStep(s, Exit);
    s := Do(s, Exit);
    SameOutsideSelf(s.mem, s.taken[3].first * PAGE, (s.taken[3].first + s.taken[3].pages) * PAGE);
    ReachedStep(s, ReadMap(s.mem));
    t := Do(s, ReadMap(s.mem));
  }

  lemma OneMore()
    ensures Contract(MapAfter(4) + [Descriptor(0, 60, 1)], Regions())
  {
    var m := MapAfter(4) + [Descriptor(0, 60, 1)];
    MapKeepsContract(4, Regions()[..4]);
    forall i, page | 0 <= i < |Regions()| && In(Regions()[i], page)
      ensures Typed(m, page, LOADER_DATA)
    {
      assert Within(m[i], page) && m[i].kind == LOADER_DATA;
    }
  }
}
