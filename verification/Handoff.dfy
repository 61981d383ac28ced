/** From the first allocation to the jump into the kernel. The firmware is a state machine
    of its own: between any two steps of the loader it may change its memory map, which
    changes the map key, and any memory the loader does not own. A run is any sequence of
    enabled actions, so what is proved of reached states holds for every such firmware.
    Allocation, GetMemoryMap and ExitBootServices follow sections 7.2 and 7.4.6 of the
    UEFI Specification. */
module Handoff {
  import opened Bytes
  import opened DiskBytes
  import opened PageTables
  import opened KernelImage
  import opened BootProtocol

  // ---- the machine ---------------------------------------------------------------------------------

  datatype Region = Region(first: nat, pages: nat)

  predicate In(r: Region, page: nat) { r.first <= page < r.first + r.pages }

  predicate ApartRegions(a: Region, b: Region) { a.first + a.pages <= b.first || b.first + b.pages <= a.first }

  datatype Phase = Begin | HaveLow | HaveImage | HaveTables | Sealed | Probed | HaveBuffer | HaveMap | Translated | Entered | Dead

  /** `taken` lists what the loader allocated: low structures, image, tables, map buffer.
      `room` is the size the loader passes to GetMemoryMap, in bytes. */
  datatype Machine = Machine(
    file: seq<byte>, stride: nat,
    phase: Phase, mem: seq<byte>, memmap: seq<Descriptor>, key: nat, taken: seq<Region>,
    room: nat, capacity: nat, rounds: nat, copy: seq<Descriptor>, copyKey: nat)

  datatype Action =
    | Firmware(memmap: seq<Descriptor>, key: nat, mem: seq<byte>)
    | TakeLow(r: Region, memmap: seq<Descriptor>, key: nat, mem: seq<byte>)
    | TakeImage(r: Region, memmap: seq<Descriptor>, key: nat, mem: seq<byte>)
    | TakeTables(r: Region, memmap: seq<Descriptor>, key: nat, mem: seq<byte>)
    | Fill(mem: seq<byte>)
    | Seal(mem: seq<byte>)
    | Probe
    | TakeBuffer(r: Region, memmap: seq<Descriptor>, key: nat)
    | ReadMap(mem: seq<byte>)
    | Translate(mem: seq<byte>)
    | Exit
    | Die

  ghost predicate Typed(memmap: seq<Descriptor>, page: nat, kind: nat) {
    exists d | 0 <= d < |memmap| :: Within(memmap[d], page) && memmap[d].kind == kind
  }

  ghost predicate DisjointMap(memmap: seq<Descriptor>) {
    forall i, j, page | 0 <= i < |memmap| && 0 <= j < |memmap| && Within(memmap[i], page) && Within(memmap[j], page) :: i == j
  }

  /** What the firmware guarantees of its map: no page described twice, and every page the
      loader holds described as loader data. */
  ghost predicate Contract(memmap: seq<Descriptor>, taken: seq<Region>) {
    && (forall d | 0 <= d < |memmap| :: Sane(memmap[d]))
    && DisjointMap(memmap)
    && (forall i, page | 0 <= i < |taken| && In(taken[i], page) :: Typed(memmap, page, LOADER_DATA))
  }

  /** Allocation hands out conventional memory only, and renews the key. */
  ghost predicate Grant(s: Machine, r: Region, memmap: seq<Descriptor>, key: nat) {
    && r.pages > 0 && (r.first + r.pages) * PAGE <= |s.mem|
    && (forall page | In(r, page) :: Typed(s.memmap, page, CONVENTIONAL))
    && Contract(memmap, s.taken + [r]) && key > s.key
  }

  /** Memory of the region is untouched. */
  ghost predicate Kept(a: seq<byte>, b: seq<byte>, r: Region) {
    |a| == |b| && forall k | r.first * PAGE <= k < (r.first + r.pages) * PAGE && k < |a| :: b[k] == a[k]
  }

  ghost predicate Good(file: seq<byte>) { HeadersInside(file) && WellLinked(Segments(file), |file|) }

  ghost predicate Imaged(m: seq<byte>, file: seq<byte>)
    requires Good(file)
  {
    ImageAt(m, file, Segments(file), |Segments(file)|)
  }

  /** The address of the record, where the low structures start. */
  function Bp(s: Machine): (r: nat) { if s.taken == [] then 0 else s.taken[0].first * PAGE }

  /** `Fill` stands for the fields about disks, display and trust; the magic comes last. */
  ghost predicate Can(s: Machine, a: Action) {
    match a
    case Firmware(memmap, key, mem) =>
      && s.phase != Entered && Contract(memmap, s.taken) && key >= s.key && (memmap != s.memmap ==> key > s.key)
      && |mem| == |s.mem| && forall i | 0 <= i < |s.taken| :: Kept(s.mem, mem, s.taken[i])
    case TakeLow(r, memmap, key, mem) =>
      && s.phase == Begin && Grant(s, r, memmap, key)
      && r.pages == LOW_PAGES && (r.first + r.pages) * PAGE <= GIB
      && SameOutside(s.mem, mem, r.first * PAGE, (r.first + r.pages) * PAGE) && RecordAt(mem, r.first * PAGE)
    case TakeImage(r, memmap, key, mem) =>
      && s.phase == HaveLow && Good(s.file) && IsElf(s.file) && Grant(s, r, memmap, key)
      && Covers(Segments(s.file), r.first * PAGE, r.pages)
      && SameOutside(s.mem, mem, r.first * PAGE, (r.first + r.pages) * PAGE) && Imaged(mem, s.file)
    case TakeTables(r, memmap, key, mem) =>
      && s.phase == HaveImage && Grant(s, r, memmap, key) && r.pages == TABLE_PAGES && Placed(r.first * PAGE)
      && SameOutside(s.mem, mem, r.first * PAGE, (r.first + r.pages) * PAGE)
      && TablesAt(mem, r.first * PAGE, Tables(r.first * PAGE))
    case Fill(mem) =>
      s.phase in {HaveLow, HaveImage, HaveTables} && SameOutside(s.mem, mem, Bp(s) + 0x24, Bp(s) + RECORD)
    case Seal(mem) => s.phase == HaveTables && SameOutside(s.mem, mem, Bp(s), Bp(s) + 8) && MagicAt(mem, Bp(s))
    case Probe => s.phase == Sealed
    case TakeBuffer(r, memmap, key) => s.phase == Probed && Grant(s, r, memmap, key) && r.pages * PAGE >= s.room
    case ReadMap(mem) =>
      && s.phase == HaveBuffer && |s.taken| == 4
      && SameOutside(s.mem, mem, s.taken[3].first * PAGE, (s.taken[3].first + s.taken[3].pages) * PAGE)
    case Translate(mem) =>
      && s.phase == HaveMap && |s.taken| == 4
      && (|s.copy| <= MMAP_CAP ==>
            && OnlyMap(s.mem, mem, Bp(s), |s.copy|) && CountAt(mem, Bp(s), |s.copy|) && MapAt(mem, Bp(s) + PAGE, s.copy))
    case Exit => s.phase == Translated
    case Die => s.phase in {Begin, HaveLow, HaveImage, Probed}
  }

  function Do(s: Machine, a: Action): Machine
  {
    match a
    case Firmware(memmap, key, mem) => s.(memmap := memmap, key := key, mem := mem)
    case TakeLow(r, memmap, key, mem) =>
      s.(phase := HaveLow, memmap := memmap, key := key, mem := mem, taken := s.taken + [r])
    case TakeImage(r, memmap, key, mem) =>
      s.(phase := HaveImage, memmap := memmap, key := key, mem := mem, taken := s.taken + [r])
    case TakeTables(r, memmap, key, mem) =>
      s.(phase := HaveTables, memmap := memmap, key := key, mem := mem, taken := s.taken + [r])
    case Fill(mem) => s.(mem := mem)
    case Seal(mem) => s.(phase := Sealed, mem := mem)
    case Probe => s.(phase := Probed, room := (|s.memmap| + 8) * s.stride)
    case TakeBuffer(r, memmap, key) =>
      s.(phase := HaveBuffer, memmap := memmap, key := key, taken := s.taken + [r], capacity := s.room)
    case ReadMap(mem) =>
      if |s.memmap| * s.stride > s.room then s.(phase := Dead)
      else s.(phase := HaveMap, mem := mem, copy := s.memmap, copyKey := s.key,
              room := |s.memmap| * s.stride, rounds := s.rounds + 1)
    case Translate(mem) =>
      if |s.copy| > MMAP_CAP then s.(phase := Dead) else s.(phase := Translated, mem := mem)
    case Exit => s.(phase := if s.copyKey == s.key then Entered else HaveBuffer)
    case Die => s.(phase := Dead)
  }

  ghost predicate Start(s: Machine) {
    s.phase == Begin && s.taken == [] && Contract(s.memmap, []) && s.rounds == 0 && s.stride >= 40
  }

  ghost predicate Legal(s: Machine, run: seq<Action>)
    decreases |run|
  {
    run == [] || (Can(s, run[0]) && Legal(Do(s, run[0]), run[1..]))
  }

  ghost function After(s: Machine, run: seq<Action>): Machine
    requires Legal(s, run)
    decreases |run|
  {
    if run == [] then s else After(Do(s, run[0]), run[1..])
  }

  // ---- what every step keeps -------------------------------------------------------------------------

  function Stage(p: Phase): nat {
    match p
    case Begin => 0
    case HaveLow => 1
    case HaveImage => 2
    case HaveTables => 3
    case Sealed => 3
    case Probed => 3
    case _ => 4
  }

  ghost predicate RegionsOk(s: Machine) {
    && |s.taken| == Stage(s.phase)
    && (forall i | 0 <= i < |s.taken| ::
          s.taken[i].pages > 0 && (s.taken[i].first + s.taken[i].pages) * PAGE <= |s.mem|)
    && (forall i, j | 0 <= i < j < |s.taken| :: ApartRegions(s.taken[i], s.taken[j]))
    && (|s.taken| >= 1 ==> s.taken[0].pages == LOW_PAGES && (s.taken[0].first + LOW_PAGES) * PAGE <= GIB)
  }

  ghost predicate ImageOk(s: Machine) {
    |s.taken| >= 2 ==>
      Good(s.file) && IsElf(s.file) && Covers(Segments(s.file), s.taken[1].first * PAGE, s.taken[1].pages)
      && Imaged(s.mem, s.file)
  }

  ghost predicate TablesOk(s: Machine) {
    |s.taken| >= 3 ==>
      && s.taken[2].pages == TABLE_PAGES && Placed(s.taken[2].first * PAGE)
      && TablesAt(s.mem, s.taken[2].first * PAGE, Tables(s.taken[2].first * PAGE))
  }

  ghost predicate RecordOk(s: Machine) {
    && (|s.taken| >= 1 ==> RecordAt(s.mem, Bp(s)))
    && (s.phase in {Sealed, Probed, HaveBuffer, HaveMap, Translated, Entered} ==> MagicAt(s.mem, Bp(s)))
  }

  ghost predicate CopyOk(s: Machine) {
    && (s.phase in {HaveMap, Translated, Entered} ==>
          && s.copyKey <= s.key && (s.copyKey == s.key ==> s.copy == s.memmap))
    && (s.phase in {Translated, Entered} ==>
          |s.copy| <= MMAP_CAP && |s.taken| == 4 && CountAt(s.mem, Bp(s), |s.copy|) && MapAt(s.mem, Bp(s) + PAGE, s.copy))
    && (s.phase == Entered ==> s.copyKey == s.key)
  }

  ghost predicate RoomOk(s: Machine) {
    && (s.phase in {HaveBuffer, HaveMap, Translated, Entered} && s.rounds == 0 ==>
          s.room == s.capacity && s.phase == HaveBuffer)
    && (s.phase in {HaveBuffer, HaveMap, Translated, Entered} && s.rounds > 0 ==>
          s.room == |s.copy| * s.stride <= s.capacity)
    && (Stage(s.phase) < 4 ==> s.rounds == 0)
    && (s.phase == HaveBuffer && s.rounds == 0 ==> s.room >= 8 * s.stride)
    && (s.phase == Probed ==> s.room >= 8 * s.stride)
  }

  ghost predicate Inv(s: Machine) {
    s.phase != Dead ==>
      Contract(s.memmap, s.taken) && RegionsOk(s) && ImageOk(s) && TablesOk(s) && RecordOk(s) && CopyOk(s) && RoomOk(s)
  }

  /** What the firmware grants is none of what it granted before. */
  lemma GrantIsFresh(s: Machine, r: Region, memmap: seq<Descriptor>, key: nat, i: nat)
    requires Contract(s.memmap, s.taken) && Grant(s, r, memmap, key) && i < |s.taken| && s.taken[i].pages > 0
    ensures ApartRegions(s.taken[i], r)
  {
    var t := s.taken[i];
    var page := if t.first < r.first then r.first else t.first;
    if !ApartRegions(t, r) {
      assert In(r, page) && In(t, page);
      SharedPage(s.memmap, page);
    }
  }

  lemma SharedPage(memmap: seq<Descriptor>, page: nat)
    requires DisjointMap(memmap) && Typed(memmap, page, LOADER_DATA)
    ensures !Typed(memmap, page, CONVENTIONAL)
  {
  }

  lemma ApartIsKept(a: seq<byte>, b: seq<byte>, r: Region, t: Region)
    requires SameOutside(a, b, r.first * PAGE, (r.first + r.pages) * PAGE) && ApartRegions(r, t)
    ensures Kept(a, b, t)
  {
  }

  lemma HasKept(a: seq<byte>, b: seq<byte>, r: Region, off: nat, blob: seq<byte>)
    requires Kept(a, b, r) && Has(a, off, blob) && r.first * PAGE <= off && off + |blob| <= (r.first + r.pages) * PAGE
    ensures Has(b, off, blob)
  {
    assert b[off..off + |blob|] == a[off..off + |blob|];
  }

  lemma ImageKept(a: seq<byte>, b: seq<byte>, r: Region, file: seq<byte>)
    requires Good(file) && Imaged(a, file) && Kept(a, b, r) && Covers(Segments(file), r.first * PAGE, r.pages)
    ensures Imaged(b, file)
  {
    hide Kept, Has, Phys, Contents, Segments;
    var segs := Segments(file);
    forall i | 0 <= i < |segs| && Loads(segs[i])
      ensures Has(b, Phys(segs[i]), Contents(file, segs[i]))
    {
      PhysOf(segs, |file|, i);
      HasKept(a, b, r, Phys(segs[i]), Contents(file, segs[i]));
    }
  }

  lemma TablesKept(a: seq<byte>, b: seq<byte>, r: Region, w: seq<nat>)
    requires TablesAt(a, r.first * PAGE, w) && Kept(a, b, r) && 8 * |w| <= r.pages * PAGE
    ensures TablesAt(b, r.first * PAGE, w)
  {
    hide Has, Le;
    var blk := r.first * PAGE;
    forall j | 0 <= j < |w|
      ensures Has(b, blk + 8 * j, Le(w[j], 8))
    {
      HasKept(a, b, r, blk + 8 * j, Le(w[j], 8));
    }
  }

  lemma MapKept(a: seq<byte>, b: seq<byte>, r: Region, memmap: seq<Descriptor>)
    requires MapAt(a, r.first * PAGE + PAGE, memmap) && Kept(a, b, r) && r.pages == LOW_PAGES && |memmap| <= MMAP_CAP
    ensures MapAt(b, r.first * PAGE + PAGE, memmap)
  {
    hide Has, EntryBytes, Kept;
    var at := r.first * PAGE + PAGE;
    forall i | 0 <= i < |memmap|
      ensures Has(b, at + MAP_ENTRY * i, EntryBytes(memmap[i]))
    {
      HasKept(a, b, r, at + MAP_ENTRY * i, EntryBytes(memmap[i]));
    }
  }

  /** Memory that is kept keeps the record in it. */
  lemma RecordKept(a: seq<byte>, b: seq<byte>, r: Region, n: nat)
    requires Kept(a, b, r) && r.pages == LOW_PAGES
    ensures RecordAt(a, r.first * PAGE) ==> RecordAt(b, r.first * PAGE)
    ensures MagicAt(a, r.first * PAGE) ==> MagicAt(b, r.first * PAGE)
    ensures CountAt(a, r.first * PAGE, n) ==> CountAt(b, r.first * PAGE, n)
  {
    hide Has, Kept, Le;
    var bp := r.first * PAGE;
    if RecordAt(a, bp) {
      HasKept(a, b, r, bp + 0x08, Le(VERSION, 4));
      HasKept(a, b, r, bp + 0x0C, Le(RECORD, 4));
      HasKept(a, b, r, bp + 0x18, Le(bp + PAGE, 8));
      HasKept(a, b, r, bp + 0x20, Le(MAP_ENTRY, 4));
    }
    if MagicAt(a, bp) { HasKept(a, b, r, bp, Le(MAGIC, 8)); }
    if CountAt(a, bp, n) { HasKept(a, b, r, bp + 0x14, Le(n, 4)); }
  }

  lemma HasOutside(a: seq<byte>, b: seq<byte>, lo: nat, hi: nat, off: nat, blob: seq<byte>)
    requires SameOutside(a, b, lo, hi) && Has(a, off, blob) && (off + |blob| <= lo || hi <= off)
    ensures Has(b, off, blob)
  {
    assert b[off..off + |blob|] == a[off..off + |blob|];
  }

  /** Filling in other fields, or the magic, leaves these fields alone. */
  lemma RecordBeside(a: seq<byte>, b: seq<byte>, bp: nat, lo: nat, hi: nat)
    requires SameOutside(a, b, lo, hi) && RecordAt(a, bp) && (hi <= bp + 8 || bp + 0x24 <= lo)
    ensures RecordAt(b, bp)
  {
    hide Has, SameOutside, Le;
    HasOutside(a, b, lo, hi, bp + 0x08, Le(VERSION, 4));
    HasOutside(a, b, lo, hi, bp + 0x0C, Le(RECORD, 4));
    HasOutside(a, b, lo, hi, bp + 0x18, Le(bp + PAGE, 8));
    HasOutside(a, b, lo, hi, bp + 0x20, Le(MAP_ENTRY, 4));
  }

  lemma InsideIsKept(a: seq<byte>, b: seq<byte>, lo: nat, hi: nat, r: Region, t: Region)
    requires SameOutside(a, b, lo, hi) && r.first * PAGE <= lo && hi <= (r.first + r.pages) * PAGE && ApartRegions(r, t)
    ensures Kept(a, b, t)
  {
  }

  lemma OnlyMapIsKept(a: seq<byte>, b: seq<byte>, r: Region, n: nat, t: Region)
    requires OnlyMap(a, b, r.first * PAGE, n) && n <= MMAP_CAP && r.pages == LOW_PAGES && ApartRegions(r, t)
    ensures Kept(a, b, t)
  {
  }

  ghost predicate Taking(a: Action) { a.TakeLow? || a.TakeImage? || a.TakeTables? || a.TakeBuffer? }

  lemma TakenApart(s: Machine, a: Action, i: nat)
    requires Contract(s.memmap, s.taken) && RegionsOk(s) && Can(s, a) && Taking(a) && i < |s.taken|
    ensures ApartRegions(s.taken[i], a.r)
  {
    hide Contract, Grant, TablesAt, Covers, WellLinked, Imaged, SameOutside;
    GrantIsFresh(s, a.r, a.memmap, a.key, i);
  }

  lemma SameIsKept(a: seq<byte>, r: Region)
    ensures Kept(a, a, r)
  {
  }

  ghost predicate WritesRecord(a: Action) { a.Fill? || a.Seal? || a.Translate? }

  /** A step writes at most one region the loader holds: the buffer when the map is read, the
      low structures when the record or the map in them is filled in. */
  lemma StepKeeps(s: Machine, a: Action, i: nat)
    requires Contract(s.memmap, s.taken) && RegionsOk(s) && Can(s, a) && i < |s.taken|
    requires !(a.ReadMap? && i == 3) && !(WritesRecord(a) && i == 0)
    ensures Kept(s.mem, Do(s, a).mem, s.taken[i])
  {
    hide Contract, Grant, TablesAt, Covers, WellLinked, Imaged, SameOutside, Kept, MapAt, Good, Segments, RecordAt, MagicAt,
         CountAt, OnlyMap;
    SameIsKept(s.mem, s.taken[i]);
    if Taking(a) {
      TakenApart(s, a, i);
      if !a.TakeBuffer? { ApartIsKept(s.mem, a.mem, a.r, s.taken[i]); }
    } else if a.ReadMap? {
      ApartIsKept(s.mem, a.mem, s.taken[3], s.taken[i]);
    } else if a.Fill? {
      InsideIsKept(s.mem, a.mem, Bp(s) + 0x24, Bp(s) + RECORD, s.taken[0], s.taken[i]);
    } else if a.Seal? {
      InsideIsKept(s.mem, a.mem, Bp(s), Bp(s) + 8, s.taken[0], s.taken[i]);
    } else if a.Translate? {
      if |s.copy| <= MMAP_CAP { OnlyMapIsKept(s.mem, a.mem, s.taken[0], |s.copy|, s.taken[i]); }
    }
  }

  lemma StepContract(s: Machine, a: Action)
    requires Contract(s.memmap, s.taken) && Can(s, a)
    ensures Contract(Do(s, a).memmap, Do(s, a).taken)
  {
    hide Contract, TablesAt, Covers, WellLinked, Imaged, SameOutside, Kept, MapAt, Good, Segments, RecordAt, MagicAt, CountAt;
  }

  lemma SameLength(s: Machine, a: Action)
    requires Can(s, a)
    ensures |Do(s, a).mem| == |s.mem|
  {
    hide Contract, TablesAt, Covers, WellLinked, Imaged, Kept, MapAt, Good, Segments, Grant, RecordAt, MagicAt, CountAt;
  }

  lemma StepRegions(s: Machine, a: Action)
    requires Contract(s.memmap, s.taken) && RegionsOk(s) && Can(s, a) && s.phase != Dead && Do(s, a).phase != Dead
    ensures RegionsOk(Do(s, a))
  {
    hide Contract, TablesAt, Covers, WellLinked, Imaged, SameOutside, Kept, MapAt, Good, Segments, ApartRegions, RecordAt, MagicAt, CountAt, OnlyMap;
    SameLength(s, a);
    if Taking(a) {
      forall i | 0 <= i < |s.taken|
        ensures ApartRegions(s.taken[i], a.r)
      {
        TakenApart(s, a, i);
      }
    }
  }

  lemma StepImage(s: Machine, a: Action)
    requires Contract(s.memmap, s.taken) && RegionsOk(s) && ImageOk(s) && Can(s, a) && s.phase != Dead
    ensures ImageOk(Do(s, a))
  {
    hide Contract, Grant, TablesAt, Covers, WellLinked, Imaged, SameOutside, Kept, MapAt, Good, Segments, IsElf, RecordAt, MagicAt, CountAt, OnlyMap;
    if |s.taken| >= 2 {
      StepKeeps(s, a, 1);
      ImageKept(s.mem, Do(s, a).mem, s.taken[1], s.file);
    }
  }

  lemma StepTables(s: Machine, a: Action)
    requires Contract(s.memmap, s.taken) && RegionsOk(s) && TablesOk(s) && Can(s, a) && s.phase != Dead
    ensures TablesOk(Do(s, a))
  {
    hide Contract, Grant, TablesAt, Covers, WellLinked, Imaged, SameOutside, Kept, MapAt, Good, Segments, Word, RecordAt, MagicAt, CountAt, OnlyMap;
    if |s.taken| >= 3 {
      StepKeeps(s, a, 2);
      TablesKept(s.mem, Do(s, a).mem, s.taken[2], Tables(s.taken[2].first * PAGE));
    }
  }

  lemma StepCopy(s: Machine, a: Action)
    requires Contract(s.memmap, s.taken) && RegionsOk(s) && CopyOk(s) && Can(s, a) && s.phase != Dead
    requires Do(s, a).phase != Dead
    ensures CopyOk(Do(s, a))
  {
    hide Contract, Grant, TablesAt, Covers, WellLinked, Imaged, SameOutside, Kept, MapAt, Good, Segments, RecordAt, MagicAt, CountAt;
    if s.phase == Translated {
      StepKeeps(s, a, 0);
      MapKept(s.mem, Do(s, a).mem, s.taken[0], s.copy);
      RecordKept(s.mem, Do(s, a).mem, s.taken[0], |s.copy|);
    }
  }

  lemma StepRecord(s: Machine, a: Action)
    requires Contract(s.memmap, s.taken) && RegionsOk(s) && RecordOk(s) && Can(s, a) && s.phase != Dead
    requires Do(s, a).phase != Dead
    ensures RecordOk(Do(s, a))
  {
    hide Contract, Grant, TablesAt, Covers, WellLinked, Imaged, SameOutside, Kept, MapAt, Good, Segments, RecordAt, MagicAt,
         CountAt, OnlyMap;
    if s.taken != [] {
      assert Bp(Do(s, a)) == Bp(s);
      if a.Fill? {
        RecordBeside(s.mem, a.mem, Bp(s), Bp(s) + 0x24, Bp(s) + RECORD);
      } else if a.Seal? {
        RecordBeside(s.mem, a.mem, Bp(s), Bp(s), Bp(s) + 8);
      } else if a.Translate? {
        RecordOnlyMap(s.mem, a.mem, Bp(s), |s.copy|);
      } else {
        StepKeeps(s, a, 0);
        RecordKept(s.mem, Do(s, a).mem, s.taken[0], 0);
      }
    }
  }

  lemma StepRoom(s: Machine, a: Action)
    requires RoomOk(s) && Can(s, a) && s.phase != Dead && Do(s, a).phase != Dead
    ensures RoomOk(Do(s, a))
  {
    hide Contract, Grant, TablesAt, Covers, WellLinked, Imaged, SameOutside, Kept, MapAt, Good, Segments, RecordAt, MagicAt, CountAt;
    assert (|s.memmap| + 8) * s.stride >= 8 * s.stride;
  }

  lemma Step(s: Machine, a: Action)
    requires Inv(s) && Can(s, a)
    ensures Inv(Do(s, a))
  {
    hide Contract, RegionsOk, ImageOk, TablesOk, RecordOk, CopyOk, RoomOk, Can;
    if s.phase == Dead {
      DeadStays(s, a);
    } else if Do(s, a).phase != Dead {
      StepContract(s, a);
      StepRegions(s, a);
      StepImage(s, a);
      StepTables(s, a);
      StepRecord(s, a);
      StepCopy(s, a);
      StepRoom(s, a);
    }
  }

  lemma DeadStays(s: Machine, a: Action)
    requires Can(s, a) && s.phase == Dead
    ensures Do(s, a).phase == Dead
  {
  }

  lemma {:induction false} RunKeeps(s: Machine, run: seq<Action>)
    requires Inv(s) && Legal(s, run)
    ensures Inv(After(s, run))
    decreases |run|
  {
    hide Inv, Do, Can;
    if run == [] {
    } else {
      Step(s, run[0]);
      RunKeeps(Do(s, run[0]), run[1..]);
    }
  }

  ghost predicate Reached(s: Machine) {
    exists start, run :: Start(start) && Legal(start, run) && After(start, run) == s
  }

  lemma ReachedInv(s: Machine)
    requires Reached(s)
    ensures Inv(s)
  {
    hide Contract, Legal, After;
    var start, run :| Start(start) && Legal(start, run) && After(start, run) == s;
    assert Inv(start);
    RunKeeps(start, run);
  }

  // ---- what the kernel is entered with --------------------------------------------------------------

  /** The kernel accepts the record it is handed, and reads from it, by its count, address and
      stride, the firmware's map at exit: every entry, in order, and nothing else. Only a record
      the firmware placed at address 0 is refused, and then nothing is read. */
  lemma MapIsExact(s: Machine, i: nat)
    requires Reached(s) && s.phase == Entered
    ensures Captured(s.mem, Bp(s)) <==> Bp(s) != 0
    ensures |s.memmap| <= MMAP_CAP && MapCount(s.mem, Bp(s)) == if Bp(s) != 0 then |s.memmap| else 0
    ensures MapEntry(s.mem, Bp(s), i) == if Bp(s) != 0 && i < |s.memmap| then Some(AsEntry(s.memmap[i])) else None
  {
    hide TablesAt, Covers, WellLinked, Imaged, MapAt, Segments, Reached, RecordAt, MagicAt, CountAt, Captured, MapEntry;
    ReachedInv(s);
    SomethingMapped(s);
    KernelReadsMap(s.mem, Bp(s), s.memmap, i);
  }

  /** What the loader holds is described, so the map is not empty. */
  lemma SomethingMapped(s: Machine)
    requires Contract(s.memmap, s.taken) && s.taken != [] && s.taken[0].pages > 0
    ensures s.memmap != []
  {
    assert In(s.taken[0], s.taken[0].first);
    assert Typed(s.memmap, s.taken[0].first, LOADER_DATA);
  }

  predicate Spans(e: KernelEntry, page: nat) { e.base <= page * PAGE < e.base + e.length }

  /** Every page the loader allocated is in an entry the kernel reads, and never in one the
      kernel would treat as free. */
  lemma OwnedIsNeverUsable(s: Machine, i: nat, page: nat)
    requires Reached(s) && s.phase == Entered && i < |s.taken| && In(s.taken[i], page)
    ensures Bp(s) != 0 ==>
              exists d: nat :: MapEntry(s.mem, Bp(s), d).Some? && Spans(MapEntry(s.mem, Bp(s), d).value, page)
    ensures forall d: nat | MapEntry(s.mem, Bp(s), d).Some? && Spans(MapEntry(s.mem, Bp(s), d).value, page) ::
              MapEntry(s.mem, Bp(s), d).value.kind != USABLE
  {
    hide TablesAt, Covers, WellLinked, Imaged, MapAt, Segments, Reached, MapEntry, MapCount, Captured, RecordOk, CopyOk, RoomOk;
    ReachedInv(s);
    assert Typed(s.memmap, page, LOADER_DATA);
    var k :| 0 <= k < |s.memmap| && Within(s.memmap[k], page) && s.memmap[k].kind == LOADER_DATA;
    MapIsExact(s, k);
    SpansWithin(s.memmap[k], page);
    forall d: nat | MapEntry(s.mem, Bp(s), d).Some? && Spans(MapEntry(s.mem, Bp(s), d).value, page)
      ensures MapEntry(s.mem, Bp(s), d).value.kind != USABLE
    {
      MapIsExact(s, d);
      SpansWithin(s.memmap[d], page);
    }
  }

  lemma SpansWithin(d: Descriptor, page: nat)
    ensures Spans(AsEntry(d), page) <==> Within(d, page)
  {
  }

  /** Through the new tables the kernel finds its own bytes at its linked addresses. */
  lemma ImageIsIntact(s: Machine, i: nat, k: nat)
    requires Reached(s) && s.phase == Entered
    requires HeadersInside(s.file) && i < Phnum(s.file)
    requires Loads(HeaderAt(s.file, i)) && k < HeaderAt(s.file, i).memsz
    ensures |s.taken| == 4
    ensures var h := HeaderAt(s.file, i); h.offset + h.filesz <= |s.file| && HIGH <= h.vaddr
    ensures var h := HeaderAt(s.file, i); var at := h.vaddr - HIGH + k;
            && Walk(s.mem, s.taken[2].first * PAGE, h.vaddr + k) == Some(at) && at < |s.mem|
            && s.mem[at] == if k < h.filesz then s.file[h.offset + k] else 0
  {
    hide TablesAt, Walk, Reached, Inv, Good, Imaged, Placed, HeaderAt, Word;
    ReachedInv(s);
    EnteredWith(s);
    SegmentBytes(s.mem, s.taken[2].first * PAGE, s.file, i, k);
  }

  /** What the invariant says of image and tables at entry. */
  lemma EnteredWith(s: Machine)
    requires Inv(s) && s.phase == Entered
    ensures |s.taken| == 4 && Good(s.file) && Imaged(s.mem, s.file)
    ensures Placed(s.taken[2].first * PAGE) && TablesAt(s.mem, s.taken[2].first * PAGE, Tables(s.taken[2].first * PAGE))
    ensures (s.taken[0].first + LOW_PAGES) * PAGE <= GIB && (s.taken[0].first + LOW_PAGES) * PAGE <= |s.mem|
  {
    hide Contract, RecordOk, CopyOk, RoomOk, TablesAt, Covers, Good, Imaged, Placed, Word;
  }

  lemma SegmentBytes(m: seq<byte>, cr3: nat, file: seq<byte>, i: nat, k: nat)
    requires Good(file) && Imaged(m, file) && Placed(cr3) && TablesAt(m, cr3, Tables(cr3))
    requires i < Phnum(file) && Loads(HeaderAt(file, i)) && k < HeaderAt(file, i).memsz
    ensures var h := HeaderAt(file, i); h.offset + h.filesz <= |file| && HIGH <= h.vaddr
    ensures var h := HeaderAt(file, i); var at := h.vaddr - HIGH + k;
            && Walk(m, cr3, h.vaddr + k) == Some(at) && at < |m|
            && m[at] == if k < h.filesz then file[h.offset + k] else 0
  {
    hide TablesAt, AllLinked, WellLinked, Walk, HeaderAt, Phys, ImageAt, Placed, Word;
    var segs := Segments(file);
    LinkedAll(segs, |file|);
    assert segs[i] == HeaderAt(file, i);
    PhysOf(segs, |file|, i);
    KernelReads(m, cr3, file, segs, i, k);
  }

  /** The boot protocol and the map can be read through the kernel's window, and every
      other canonical address is mapped as intended. */
  lemma ProtocolIsReachable(s: Machine, k: nat, va: nat)
    requires Reached(s) && s.phase == Entered && k < LOW_PAGES * PAGE && Canonical(va)
    ensures |s.taken| == 4 && Walk(s.mem, s.taken[2].first * PAGE, va) == Mapped(va)
    ensures var at := s.taken[0].first * PAGE + k;
            Walk(s.mem, s.taken[2].first * PAGE, HIGH + at) == Some(at) && at < |s.mem|
  {
    hide TablesAt, Walk, Reached, Word, Inv, Good, Imaged;
    ReachedInv(s);
    EnteredWith(s);
    WalkIsMapped(s.mem, s.taken[2].first * PAGE, va);
    WalkIsMapped(s.mem, s.taken[2].first * PAGE, HIGH + s.taken[0].first * PAGE + k);
  }

  /** The kernel's pages, its tables and the low structures never share a page. */
  lemma AllocationsApart(s: Machine, i: nat, j: nat)
    requires Reached(s) && s.phase != Dead && i < j < |s.taken|
    ensures ApartRegions(s.taken[i], s.taken[j])
  {
    hide TablesAt, Covers, WellLinked, Imaged, MapAt, Segments, Reached, Contract;
    ReachedInv(s);
  }

  /** A map that outgrew the room stops the loader; nothing is handed over. */
  lemma GrowthStops(s: Machine, mem: seq<byte>)
    requires Reached(s) && Can(s, ReadMap(mem))
    ensures Do(s, ReadMap(mem)).phase == Dead <==> |s.memmap| * s.stride > s.room
    ensures s.rounds == 0 ==> s.room == s.capacity
    ensures s.rounds > 0 ==> s.room == |s.copy| * s.stride
  {
    hide SameOutside, Reached, Contract, RegionsOk, ImageOk, TablesOk, RecordOk, CopyOk;
    ReachedInv(s);
  }

  /** On a retry the size passed is that of the last map read, not of the buffer, so the
      slack of eight descriptors is gone: one entry more than last time stops the loader. */
  lemma RetryHasNoSlack(s: Machine, mem: seq<byte>)
    requires Reached(s) && Can(s, ReadMap(mem)) && s.rounds > 0 && s.stride > 0
    ensures Do(s, ReadMap(mem)).phase == HaveMap <==> |s.memmap| <= |s.copy|
  {
    hide *;
    GrowthStops(s, mem);
    ReadEnds(s, mem);
    if |s.memmap| <= |s.copy| {
      Scaled(|s.memmap|, |s.copy|, s.stride);
    } else {
      Exceeds(|s.copy|, |s.memmap|, s.stride);
    }
  }

  lemma ReadEnds(s: Machine, mem: seq<byte>)
    requires Can(s, ReadMap(mem))
    ensures Do(s, ReadMap(mem)).phase == Dead || Do(s, ReadMap(mem)).phase == HaveMap
  {
    hide SameOutside;
  }

  lemma Scaled(a: nat, b: nat, k: nat)
    requires a <= b
    ensures a * k <= b * k
  {
  }

  lemma Exceeds(a: nat, b: nat, k: nat)
    requires a < b && k > 0
    ensures a * k < b * k
  {
  }

  // ---- no change goes unnoticed --------------------------------------------------------------------

  lemma KeyStep(s: Machine, a: Action)
    requires Can(s, a)
    ensures Do(s, a).key >= s.key && (Do(s, a).key == s.key ==> Do(s, a).memmap == s.memmap)
  {
    hide Contract, TablesAt, Covers, WellLinked, Imaged, SameOutside, Kept, MapAt, Good, Segments, RecordAt, MagicAt, CountAt;
  }

  lemma {:induction false} KeyGrows(s: Machine, run: seq<Action>)
    requires Legal(s, run)
    ensures After(s, run).key >= s.key
    decreases |run|
  {
    hide Can, Do;
    if run == [] {
    } else {
      KeyStep(s, run[0]);
      KeyGrows(Do(s, run[0]), run[1..]);
    }
  }

  lemma {:induction false} LegalPrefix(s: Machine, run: seq<Action>, k: nat)
    requires Legal(s, run) && k <= |run|
    ensures Legal(s, run[..k]) && Legal(After(s, run[..k]), run[k..])
    ensures After(After(s, run[..k]), run[k..]) == After(s, run)
    decreases |run|
  {
    hide Can, Do;
    if k == 0 {
      assert run[..0] == [] && run[0..] == run;
    } else {
      LegalPrefix(Do(s, run[0]), run[1..], k - 1);
      assert run[..k][1..] == run[1..][..k - 1] && run[k..] == run[1..][k - 1..] && run[..k][0] == run[0];
    }
  }

  /** A key that is the same at the end was the same throughout, and so was the map. */
  lemma {:induction false} UnchangedUnderKey(s: Machine, run: seq<Action>, k: nat)
    requires Legal(s, run) && k <= |run| && After(s, run).key == s.key
    ensures Legal(s, run[..k]) && After(s, run[..k]).key == s.key && After(s, run[..k]).memmap == s.memmap
    decreases k
  {
    hide Can, Do;
    LegalPrefix(s, run, k);
    if k == 0 {
      assert run[..0] == [];
    } else {
      KeyStep(s, run[0]);
      KeyGrows(Do(s, run[0]), run[1..]);
      UnchangedUnderKey(Do(s, run[0]), run[1..], k - 1);
      assert run[..k][1..] == run[1..][..k - 1] && run[..k][0] == run[0];
    }
  }

  /** From the read whose key opened the way into the kernel to the jump itself, whatever
      the firmware did in between, its map never changed. */
  lemma NothingMissed(s: Machine, mem: seq<byte>, run: seq<Action>, k: nat)
    requires Reached(s) && Can(s, ReadMap(mem)) && Do(s, ReadMap(mem)).phase == HaveMap
    requires Legal(Do(s, ReadMap(mem)), run) && After(Do(s, ReadMap(mem)), run).phase == Entered && k <= |run|
    requires forall a | a in run :: !a.ReadMap?
    ensures var t := Do(s, ReadMap(mem));
            && Legal(t, run[..k]) && After(t, run[..k]).memmap == s.memmap
            && After(t, run).memmap == s.memmap
  {
    hide Can, Reached, Legal, After, Inv;
    var t := Do(s, ReadMap(mem));
    ReachedInv(s);
    Step(s, ReadMap(mem));
    RunKeeps(t, run);
    CopyKeyStays(t, run);
    EnteredKey(After(t, run));
    UnchangedUnderKey(t, run, k);
    UnchangedUnderKey(t, run, |run|);
    assert run[..|run|] == run;
  }

  lemma EnteredKey(s: Machine)
    requires Inv(s) && s.phase == Entered
    ensures s.copyKey == s.key
  {
    hide Contract, RegionsOk, ImageOk, TablesOk, RecordOk, RoomOk;
  }

  lemma {:induction false} CopyKeyStays(s: Machine, run: seq<Action>)
    requires Legal(s, run) && forall a | a in run :: !a.ReadMap?
    ensures After(s, run).copyKey == s.copyKey
    decreases |run|
  {
    hide Can;
    if run == [] {
    } else {
      assert run[0] in run;
      CopyKeyStays(Do(s, run[0]), run[1..]);
    }
  }
}
