/** Placing the embedded kernel: two passes over its program headers, both keyed off the
    virtual address, because the linker script's physical addresses overlap. */
module KernelImage {
  import opened Bytes
  import opened DiskBytes
  import opened PageTables

  const TWO64 := 0x1_0000_0000_0000_0000
  const PT_LOAD := 1
  const PHDR := 56

  datatype Segment = Segment(kind: nat, offset: nat, vaddr: nat, filesz: nat, memsz: nat)

  function Phoff(file: seq<byte>): nat requires |file| >= 64 { Get(file, 32, 8) }

  function Phnum(file: seq<byte>): nat requires |file| >= 64 { Get(file, 56, 2) }

  function EntryPoint(file: seq<byte>): nat requires |file| >= 64 { Get(file, 24, 8) }

  /** The program headers lie inside the blob: the code reads them without a check. */
  predicate HeadersInside(file: seq<byte>) {
    |file| >= 64 && Phoff(file) + PHDR * Phnum(file) <= |file|
  }

  predicate IsElf(file: seq<byte>) { |file| >= 64 && file[..4] == [0x7F, 0x45, 0x4C, 0x46] }

  function HeaderAt(file: seq<byte>, i: nat): (r: Segment)
    requires HeadersInside(file) && i < Phnum(file)
  {
    var at := Phoff(file) + PHDR * i;
    assert at + PHDR <= |file| by { assert PHDR * i + PHDR <= PHDR * Phnum(file); }
    Segment(Get(file, at, 4), Get(file, at + 8, 8), Get(file, at + 16, 8), Get(file, at + 32, 8), Get(file, at + 40, 8))
  }

  function Segments(file: seq<byte>): (r: seq<Segment>)
    requires HeadersInside(file)
    ensures |r| == Phnum(file)
  {
    seq(Phnum(file), i requires 0 <= i < Phnum(file) => HeaderAt(file, i))
  }

  predicate Loads(s: Segment) { s.kind == PT_LOAD && s.memsz != 0 }

  /** The 64-bit subtraction of the kernel's virtual base. */
  function Phys(s: Segment): (r: nat) { (s.vaddr - HIGH) % TWO64 }

  /** A segment as a linker makes it: inside the first GiB above the kernel base, its
      file part inside the blob and no longer than its memory. */
  predicate Linked(s: Segment, length: nat) {
    && HIGH <= s.vaddr && s.vaddr - HIGH + s.memsz <= GIB
    && s.filesz <= s.memsz && s.offset + s.filesz <= length
  }

  predicate Apart(a: Segment, b: Segment) { Phys(a) + a.memsz <= Phys(b) || Phys(b) + b.memsz <= Phys(a) }

  ghost predicate AllLinked(segs: seq<Segment>, length: nat) {
    forall i | 0 <= i < |segs| && Loads(segs[i]) :: Linked(segs[i], length)
  }

  ghost predicate WellLinked(segs: seq<Segment>, length: nat) {
    && AllLinked(segs, length)
    && (forall i, j | 0 <= i < j < |segs| && Loads(segs[i]) && Loads(segs[j]) :: Apart(segs[i], segs[j]))
  }

  lemma LinkedAll(segs: seq<Segment>, length: nat)
    requires WellLinked(segs, length)
    ensures AllLinked(segs, length)
  {
  }

  /** What a segment holds once loaded: its file bytes, then zeros. */
  function Contents(file: seq<byte>, s: Segment): (r: seq<byte>)
    requires s.filesz <= s.memsz && s.offset + s.filesz <= |file|
    ensures |r| == s.memsz
  {
    file[s.offset..s.offset + s.filesz] + Zeros(s.memsz - s.filesz)
  }

  /** The first `n` program headers' segments are in place. */
  ghost predicate ImageAt(m: seq<byte>, file: seq<byte>, segs: seq<Segment>, n: nat)
    requires WellLinked(segs, |file|) && n <= |segs|
  {
    forall i | 0 <= i < n && Loads(segs[i]) :: Has(m, Phys(segs[i]), Contents(file, segs[i]))
  }

  lemma PhysOf(segs: seq<Segment>, length: nat, i: nat)
    requires AllLinked(segs, length) && i < |segs| && Loads(segs[i])
    ensures Linked(segs[i], length) && Phys(segs[i]) == segs[i].vaddr - HIGH
    ensures Phys(segs[i]) + segs[i].memsz <= GIB
    ensures (Phys(segs[i]) + segs[i].memsz) % TWO64 == Phys(segs[i]) + segs[i].memsz
  {
    Small(segs[i].vaddr - HIGH);
    Small(Phys(segs[i]) + segs[i].memsz);
  }

  lemma Small(n: int)
    requires 0 <= n <= GIB
    ensures n % TWO64 == n
  {
  }

  // ---- pass 1: the span -----------------------------------------------------------------------

  /** `lo..hi` is the smallest range holding every loaded segment among the first `n`. */
  ghost predicate Spans(segs: seq<Segment>, n: nat, lo: nat, hi: nat)
    requires n <= |segs|
  {
    && (forall i | 0 <= i < n && Loads(segs[i]) :: lo <= Phys(segs[i]) && Phys(segs[i]) + segs[i].memsz <= hi)
    && (hi > 0 ==> exists i | 0 <= i < n :: Loads(segs[i]) && Phys(segs[i]) == lo)
    && (hi > 0 ==> exists i | 0 <= i < n :: Loads(segs[i]) && Phys(segs[i]) + segs[i].memsz == hi)
    && (hi == 0 ==> lo == TWO64 - 1)
  }

  method FindSpan(segs: seq<Segment>, ghost length: nat) returns (lo: nat, hi: nat)
    requires AllLinked(segs, length)
    ensures Spans(segs, |segs|, lo, hi)
    ensures hi == 0 <==> forall i | 0 <= i < |segs| :: !Loads(segs[i])
    ensures hi > 0 ==> lo < hi <= GIB
  {
    hide Phys, AllLinked;
    lo, hi := TWO64 - 1, 0;
    for i := 0 to |segs|
      invariant Spans(segs, i, lo, hi)
      invariant hi > 0 ==> lo < hi <= GIB
    {
      if Loads(segs[i]) {
        var p := Phys(segs[i]);
        PhysOf(segs, length, i);
        if p < lo { lo := p; }
        var end := (p + segs[i].memsz) % TWO64;
        if end > hi { hi := end; }
      }
    }
  }

  // ---- pass 2: the bytes ------------------------------------------------------------------------

  lemma TwoParts(m: seq<byte>, m1: seq<byte>, off: nat, a: seq<byte>, b: seq<byte>)
    requires off + |a| + |b| <= |m| && m1 == Splice(m, off, a)
    ensures Splice(m1, off + |a|, b) == Splice(m, off, a + b)
  {
  }

  method PlaceSegment(mem: array<byte>, file: seq<byte>, s: Segment)
    requires Loads(s) && Linked(s, |file|) && Phys(s) + s.memsz <= mem.Length
    modifies mem
    ensures mem[..] == Splice(old(mem[..]), Phys(s), Contents(file, s))
  {
    hide Phys, Splice;
    ghost var was := mem[..];
    var dst := Phys(s);
    Poke(mem, dst, file[s.offset..s.offset + s.filesz]);
    if s.memsz > s.filesz {
      ghost var half := mem[..];
      Poke(mem, dst + s.filesz, Zeros(s.memsz - s.filesz));
      TwoParts(was, half, dst, file[s.offset..s.offset + s.filesz], Zeros(s.memsz - s.filesz));
    } else {
      assert Contents(file, s) == file[s.offset..s.offset + s.filesz];
    }
  }

  lemma PlacedNext(m: seq<byte>, file: seq<byte>, segs: seq<Segment>, n: nat)
    requires WellLinked(segs, |file|) && n < |segs| && ImageAt(m, file, segs, n) && Loads(segs[n])
    requires Phys(segs[n]) + segs[n].memsz <= |m|
    ensures ImageAt(Splice(m, Phys(segs[n]), Contents(file, segs[n])), file, segs, n + 1)
  {
    hide Contents, Phys, Splice;
    var m' := Splice(m, Phys(segs[n]), Contents(file, segs[n]));
    forall i | 0 <= i < n + 1 && Loads(segs[i])
      ensures Has(m', Phys(segs[i]), Contents(file, segs[i]))
    {
      if i < n {
        assert Apart(segs[i], segs[n]);
        HasElsewhere(m, Phys(segs[i]), Contents(file, segs[i]), Phys(segs[n]), Contents(file, segs[n]));
      }
    }
  }

  /** Memory with the first `n` segments laid over it in table order. */
  function Overlaid(m: seq<byte>, file: seq<byte>, segs: seq<Segment>, n: nat): (r: seq<byte>)
    requires AllLinked(segs, |file|) && InMemory(segs, |m|) && n <= |segs|
    ensures |r| == |m|
  {
    if n == 0 then m
    else
      var r, s := Overlaid(m, file, segs, n - 1), segs[n - 1];
      if Loads(s) then Splice(r, Phys(s), Contents(file, s)) else r
  }

  /** Where segments overlap, the last of them in the table wins. */
  lemma {:induction false} LastWins(m: seq<byte>, file: seq<byte>, segs: seq<Segment>, n: nat, i: nat, k: nat)
    requires AllLinked(segs, |file|) && InMemory(segs, |m|) && i < n <= |segs|
    requires Loads(segs[i]) && k < segs[i].memsz
    requires forall j | i < j < n && Loads(segs[j]) ::
               !(Phys(segs[j]) <= Phys(segs[i]) + k < Phys(segs[j]) + segs[j].memsz)
    ensures Phys(segs[i]) + k < |m| && Linked(segs[i], |file|)
    ensures Overlaid(m, file, segs, n)[Phys(segs[i]) + k] == Contents(file, segs[i])[k]
  {
    hide Contents, Phys;
    if n == i + 1 {
    } else {
      LastWins(m, file, segs, n - 1, i, k);
    }
  }

  /** Segments that lie apart are all in place in the end. */
  lemma {:induction false} OverlaidApart(m: seq<byte>, file: seq<byte>, segs: seq<Segment>, n: nat)
    requires WellLinked(segs, |file|) && InMemory(segs, |m|) && n <= |segs|
    ensures ImageAt(Overlaid(m, file, segs, n), file, segs, n)
  {
    hide Contents, Phys, Splice;
    if n == 0 {
    } else {
      OverlaidApart(m, file, segs, n - 1);
      if Loads(segs[n - 1]) {
        PlacedNext(Overlaid(m, file, segs, n - 1), file, segs, n - 1);
      }
    }
  }

  method PlaceImage(mem: array<byte>, file: seq<byte>, segs: seq<Segment>, ghost lo: nat, ghost hi: nat)
    requires AllLinked(segs, |file|) && Spans(segs, |segs|, lo, hi) && hi <= mem.Length
    modifies mem
    ensures InMemory(segs, |old(mem[..])|) && mem[..] == Overlaid(old(mem[..]), file, segs, |segs|)
    ensures SameOutside(old(mem[..]), mem[..], lo, hi)
    ensures WellLinked(segs, |file|) ==> ImageAt(mem[..], file, segs, |segs|)
  {
    hide AllLinked, WellLinked, Phys, Contents, SameOutside, Splice, ImageAt;
    ghost var was := mem[..];
    SameOutsideSelf(was, lo, hi);
    for i := 0 to |segs|
      invariant mem[..] == Overlaid(was, file, segs, i)
      invariant SameOutside(was, mem[..], lo, hi)
    {
      if Loads(segs[i]) {
        ghost var before := mem[..];
        PhysOf(segs, |file|, i);
        PlaceSegment(mem, file, segs[i]);
        SplicedOutside(before, Phys(segs[i]), Contents(file, segs[i]));
        SameOutsideWider(before, mem[..], Phys(segs[i]), Phys(segs[i]) + segs[i].memsz, lo, hi);
        SameOutsideTrans(was, before, mem[..], lo, hi);
      }
    }
    if WellLinked(segs, |file|) { OverlaidApart(was, file, segs, |segs|); }
  }

  datatype Loaded = Loaded(entry: nat, base: nat, pages: nat)

  ghost predicate AnyLoads(segs: seq<Segment>) { exists i | 0 <= i < |segs| :: Loads(segs[i]) }

  /** The pages asked for are exactly those that hold loaded bytes at either end. */
  ghost predicate Covers(segs: seq<Segment>, base: nat, pages: nat) {
    && base % PAGE == 0 && pages > 0 && base + pages * PAGE <= GIB
    && (forall i | 0 <= i < |segs| && Loads(segs[i]) ::
          base <= Phys(segs[i]) && Phys(segs[i]) + segs[i].memsz <= base + pages * PAGE)
    && (exists i | 0 <= i < |segs| :: Loads(segs[i]) && Phys(segs[i]) < base + PAGE)
    && (exists i | 0 <= i < |segs| ::
          Loads(segs[i]) && Phys(segs[i]) + segs[i].memsz > base + pages * PAGE - PAGE)
  }

  lemma Rounded(segs: seq<Segment>, lo: nat, hi: nat)
    requires Spans(segs, |segs|, lo, hi) && lo < hi <= GIB
    ensures Covers(segs, lo / PAGE * PAGE, (hi - lo / PAGE * PAGE + PAGE - 1) / PAGE)
    ensures lo / PAGE * PAGE <= lo && hi <= lo / PAGE * PAGE + (hi - lo / PAGE * PAGE + PAGE - 1) / PAGE * PAGE
  {
    var base := lo / PAGE * PAGE;
    var pages := (hi - base + PAGE - 1) / PAGE;
    RoundUp(hi - base);
    UnderGib(lo / PAGE, pages, hi);
    var i :| 0 <= i < |segs| && Loads(segs[i]) && Phys(segs[i]) == lo;
    var j :| 0 <= j < |segs| && Loads(segs[j]) && Phys(segs[j]) + segs[j].memsz == hi;
  }

  lemma RoundUp(n: nat)
    requires n > 0
    ensures n <= (n + PAGE - 1) / PAGE * PAGE < n + PAGE
  {
  }

  lemma UnderGib(first: nat, pages: nat, hi: nat)
    requires hi <= GIB && first * PAGE + pages * PAGE < hi + PAGE
    ensures first * PAGE + pages * PAGE <= GIB
  {
    assert (first + pages) * PAGE < GIB + PAGE;
  }

  lemma SameOutsideWider(a: seq<byte>, b: seq<byte>, lo: nat, hi: nat, lo': nat, hi': nat)
    requires SameOutside(a, b, lo, hi) && lo' <= lo && hi <= hi'
    ensures SameOutside(a, b, lo', hi')
  {
  }

  /** The range the firmware grants is memory. */
  ghost predicate InMemory(segs: seq<Segment>, size: nat) {
    forall i | 0 <= i < |segs| && Loads(segs[i]) :: Phys(segs[i]) + segs[i].memsz <= size
  }

  lemma SpanInMemory(segs: seq<Segment>, lo: nat, hi: nat, size: nat)
    requires Spans(segs, |segs|, lo, hi) && InMemory(segs, size)
    ensures hi <= size
  {
  }

  /** Loading stops for a blob that is not ELF, for one with nothing to load, and when the
      firmware refuses the range; otherwise the segments lie over memory in table order,
      every byte of them in place if they are apart, and nothing outside the reserved pages
      has changed. `granted` is the firmware's answer. */
  method LoadKernel(mem: array<byte>, file: seq<byte>, granted: bool) returns (r: Option<Loaded>)
    requires HeadersInside(file) && AllLinked(Segments(file), |file|)
    requires granted ==> InMemory(Segments(file), mem.Length)
    modifies mem
    ensures r.Some? <==> IsElf(file) && AnyLoads(Segments(file)) && granted
    ensures r.None? ==> mem[..] == old(mem[..])
    ensures r.Some? ==> r.value.entry == EntryPoint(file) && Covers(Segments(file), r.value.base, r.value.pages)
    ensures r.Some? ==> InMemory(Segments(file), |old(mem[..])|)
                        && mem[..] == Overlaid(old(mem[..]), file, Segments(file), |Segments(file)|)
    ensures r.Some? && WellLinked(Segments(file), |file|) ==> ImageAt(mem[..], file, Segments(file), |Segments(file)|)
    ensures r.Some? ==> SameOutside(old(mem[..]), mem[..], r.value.base, r.value.base + r.value.pages * PAGE)
  {
    hide AllLinked, WellLinked, ImageAt, Spans, Covers, Segments, SameOutside, Loads, InMemory, Overlaid;
    ghost var was := mem[..];
    if file[0] != 0x7F || file[1] != 0x45 || file[2] != 0x4C || file[3] != 0x46 { return None; }
    var segs := Segments(file);
    var lo, hi := FindSpan(segs, |file|);
    if hi == 0 { return None; }
    var base := lo / PAGE * PAGE;
    var pages := (hi - base + 0xFFF) / 0x1000;
    if !granted { return None; }
    Rounded(segs, lo, hi);
    SpanInMemory(segs, lo, hi, mem.Length);
    PlaceImage(mem, file, segs, lo, hi);
    SameOutsideWider(was, mem[..], lo, hi, base, base + pages * PAGE);
    r := Some(Loaded(EntryPoint(file), base, pages));
  }

  /** Read through the tables, the image is what the file says. */
  lemma KernelReads(m: seq<byte>, cr3: nat, file: seq<byte>, segs: seq<Segment>, i: nat, k: nat)
    requires WellLinked(segs, |file|) && ImageAt(m, file, segs, |segs|) && i < |segs| && Loads(segs[i]) && k < segs[i].memsz
    requires Placed(cr3) && TablesAt(m, cr3, Tables(cr3))
    ensures Walk(m, cr3, segs[i].vaddr + k) == Some(Phys(segs[i]) + k) && Phys(segs[i]) + k < |m|
    ensures m[Phys(segs[i]) + k] == if k < segs[i].filesz then file[segs[i].offset + k] else 0
  {
    hide TablesAt, Walk, WellLinked, Contents;
    ImageByte(m, file, segs, i, k);
    assert segs[i].vaddr - HIGH + segs[i].memsz <= GIB && HIGH <= segs[i].vaddr;
    WalkIsMapped(m, cr3, segs[i].vaddr + k);
  }

  lemma ImageByte(m: seq<byte>, file: seq<byte>, segs: seq<Segment>, i: nat, k: nat)
    requires WellLinked(segs, |file|) && ImageAt(m, file, segs, |segs|) && i < |segs| && Loads(segs[i]) && k < segs[i].memsz
    ensures Linked(segs[i], |file|) && Phys(segs[i]) + k < |m|
    ensures m[Phys(segs[i]) + k] == if k < segs[i].filesz then file[segs[i].offset + k] else 0
  {
    var p, c := Phys(segs[i]), Contents(file, segs[i]);
    assert Has(m, p, c);
    assert m[p + k] == m[p..p + |c|][k];
  }
}
