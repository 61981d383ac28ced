/** The page tables the UEFI loader builds, and the processor's four-level walk over
    them (section 4.5 of the Intel SDM, Volume 3A). */
module PageTables {
  import opened Bytes
  import opened DiskBytes

  const PAGE := 0x1000
  const MIB2 := 0x20_0000
  const GIB := 0x4000_0000
  const GIB512 := 0x80_0000_0000
  const HIGH := 0xFFFF_FFFF_8000_0000
  const TABLE_PAGES := 7
  const WORDS := 3584

  // ---- the walk ---------------------------------------------------------------------------

  function Entry(m: seq<byte>, table: nat, i: nat): (r: nat) {
    if table + 8 * i + 8 <= |m| then Get(m, table + 8 * i, 8) else 0
  }

  /** Open, writable, and the kernel's alone: good for its loads and its stores. */
  predicate Open(e: nat) { e % 8 == 3 }

  predicate Large(e: nat) { e / 0x80 % 2 == 1 }

  /** Bits 12 to 51 of an entry. */
  function Frame(e: nat): (r: nat) { e / PAGE % 0x100_0000_0000 * PAGE }

  function WalkLast(m: seq<byte>, table: nat, va: nat): (r: Option<nat>) {
    var e := Entry(m, table, va / PAGE % 512);
    if !Open(e) then None else Some(Frame(e) + va % PAGE)
  }

  function WalkDirectory(m: seq<byte>, table: nat, va: nat): (r: Option<nat>) {
    var e := Entry(m, table, va / MIB2 % 512);
    if !Open(e) then None
    else if Large(e) then Some(Frame(e) / MIB2 * MIB2 + va % MIB2)
    else WalkLast(m, Frame(e), va)
  }

  function WalkPointers(m: seq<byte>, table: nat, va: nat): (r: Option<nat>) {
    var e := Entry(m, table, va / GIB % 512);
    if !Open(e) then None
    else if Large(e) then Some(Frame(e) / GIB * GIB + va % GIB)
    else WalkDirectory(m, Frame(e), va)
  }

  function Walk(m: seq<byte>, cr3: nat, va: nat): (r: Option<nat>) {
    var e := Entry(m, cr3, va / GIB512 % 512);
    if !Open(e) then None else WalkPointers(m, Frame(e), va)
  }

  predicate Canonical(va: nat) {
    va < 0x8000_0000_0000 || 0xFFFF_8000_0000_0000 <= va < 0x1_0000_0000_0000_0000
  }

  /** What the loader means to map. */
  function Mapped(va: nat): (r: Option<nat>) {
    if va < 4 * GIB then Some(va)
    else if HIGH <= va < HIGH + GIB then Some(va - HIGH)
    else None
  }

  // ---- the tables ---------------------------------------------------------------------------

  /** Word `j` of the seven pages at `blk`. Addresses are page aligned, so setting the
      flag bits adds them. */
  function Word(blk: nat, j: nat): (r: nat) {
    if j == 0 then blk + 0x1003
    else if j == 511 then blk + 0x2003
    else if 512 <= j < 516 then blk + 0x3003 + PAGE * (j - 512)
    else if j == 1534 then blk + 0x3003
    else if j >= 1536 then (j - 1536) * MIB2 + 0x83
    else 0
  }

  /** The first `n` words are in place at `blk`. */
  ghost predicate TablesAt(m: seq<byte>, blk: nat, w: seq<nat>) {
    blk + 8 * |w| <= |m| && forall j | 0 <= j < |w| :: Has(m, blk + 8 * j, Le(w[j], 8)) && w[j] < 0x1_0000_0000_0000_0000
  }

  ghost function Tables(blk: nat): (r: seq<nat>) { seq(WORDS, j requires 0 <= j => Word(blk, j)) }

  predicate Placed(blk: nat) { blk % PAGE == 0 && blk + TABLE_PAGES * PAGE <= 4 * GIB }

  lemma WordOf(m: seq<byte>, blk: nat, w: seq<nat>, page: nat, i: nat)
    requires TablesAt(m, blk, w) && i < 512 && 512 * page + i < |w|
    ensures Entry(m, blk + PAGE * page, i) == w[512 * page + i]
  {
    hide Le, UnLe, Pow256;
    var j := 512 * page + i;
    assert Has(m, blk + 8 * j, Le(w[j], 8));
    Widths();
    LeRoundTrip(w[j], 8);
  }

  lemma FrameOfPage(blk: nat, page: nat)
    requires Placed(blk) && page < TABLE_PAGES
    ensures Frame(blk + PAGE * page + 3) == blk + PAGE * page && Open(blk + PAGE * page + 3)
    ensures !Large(blk + PAGE * page + 3)
  {
    var q := blk / PAGE + page;
    var e := PAGE * q + 3;
    assert blk + PAGE * page == PAGE * q;
    assert !Large(e) by {
      assert e == 0x80 * (32 * q) + 3;
      Shifted(32 * q);
    }
    assert Open(e) by { Eighths(0x200 * q, e); }
    assert Frame(e) == PAGE * q by { assert e / PAGE == q; }
  }

  lemma LeafFlags(q: nat)
    ensures Open(PAGE * q + 0x83) && Large(PAGE * q + 0x83)
  {
    var a := 32 * q + 1;
    assert PAGE * q + 0x83 == 0x80 * a + 3;
    assert Large(0x80 * a + 3) by {
      Shifted(a);
      OddNumber(16 * q, a);
    }
    assert Open(0x80 * a + 3) by { Eighths(0x10 * a, 0x80 * a + 3); }
  }

  lemma OddNumber(b: nat, n: nat)
    requires n == 2 * b + 1
    ensures n % 2 == 1
  {
  }

  lemma Eighths(b: nat, n: nat)
    requires n == 8 * b + 3
    ensures n % 8 == 3
  {
  }

  lemma Shifted(a: nat)
    ensures (0x80 * a + 3) / 0x80 == a
  {
  }

  lemma LeafFrame(q: nat)
    requires q < 0x100_0000_0000
    ensures Frame(PAGE * q + 0x83) == PAGE * q
  {
    assert (PAGE * q + 0x83) / PAGE == q;
  }

  lemma FrameOfLeaf(n: nat)
    requires n < 2048
    ensures var e := n * MIB2 + 0x83; Open(e) && Large(e) && Frame(e) / MIB2 * MIB2 == n * MIB2
  {
    hide Open, Large, Frame;
    var q := n * 512;
    assert n * MIB2 + 0x83 == PAGE * q + 0x83;
    LeafFlags(q);
    LeafFrame(q);
  }

  /** A directory of the identity map leads to the right large page. */
  lemma DirectoryMaps(m: seq<byte>, blk: nat, k: nat, va: nat)
    requires Placed(blk) && TablesAt(m, blk, Tables(blk)) && k < 4
    ensures WalkDirectory(m, blk + PAGE * (3 + k), va) == Some(k * GIB + va % GIB)
  {
    hide TablesAt, Entry, Frame, Open, Large, WalkLast;
    var i := va / MIB2 % 512;
    WordOf(m, blk, Tables(blk), 3 + k, i);
    FrameOfLeaf(512 * k + i);
    SplitGib(va);
  }

  lemma SplitGib(va: nat)
    ensures va % GIB == va / MIB2 % 512 * MIB2 + va % MIB2
  {
  }

  lemma LowPointers(m: seq<byte>, blk: nat, va: nat)
    requires Placed(blk) && TablesAt(m, blk, Tables(blk)) && va < GIB512
    ensures WalkPointers(m, blk + PAGE, va) == Mapped(va)
  {
    hide TablesAt, Entry, WalkDirectory, Frame, Open, Large;
    var k := va / GIB;
    WordOf(m, blk, Tables(blk), 1, k);
    if k < 4 {
      FrameOfPage(blk, 3 + k);
      DirectoryMaps(m, blk, k, va);
    } else {
      Absent();
    }
  }

  lemma Absent()
    ensures !Open(0)
  {
  }

  /** Index 510 of the upper table is the kernel's GiB. */
  lemma HighIndex(va: nat, q: nat, r: nat)
    requires va == q * GIB + r && r < GIB
    requires 0x1_0000_0000_0000_0000 - GIB512 <= va < 0x1_0000_0000_0000_0000
    ensures q % 512 == 510 <==> HIGH <= va < HIGH + GIB
    ensures q % 512 == 510 ==> r == va - HIGH
  {
    var top := 0x1_0000_0000_0000_0000 / GIB - 512;
    assert top <= q < top + 512;
    assert q % 512 == q - top by { Offset512(q - top, top / 512); }
  }

  lemma Offset512(i: nat, n: nat)
    requires i < 512
    ensures (512 * n + i) % 512 == i
  {
  }

  lemma HighPointers(m: seq<byte>, blk: nat, va: nat)
    requires Placed(blk) && TablesAt(m, blk, Tables(blk))
    requires 0x1_0000_0000_0000_0000 - GIB512 <= va < 0x1_0000_0000_0000_0000
    ensures WalkPointers(m, blk + 2 * PAGE, va) == Mapped(va)
  {
    hide TablesAt, Entry, WalkDirectory, Frame, Open, Large;
    var k := va / GIB % 512;
    HighIndex(va, va / GIB, va % GIB);
    WordOf(m, blk, Tables(blk), 2, k);
    if k == 510 {
      FrameOfPage(blk, 3);
      DirectoryMaps(m, blk, 0, va);
    } else {
      Absent();
    }
  }

  /** Every canonical address: the first 4 GiB are mapped to themselves, the GiB at the
      kernel base to physical 0, and nothing else is mapped. */
  lemma WalkIsMapped(m: seq<byte>, blk: nat, va: nat)
    requires Placed(blk) && TablesAt(m, blk, Tables(blk)) && Canonical(va)
    ensures Walk(m, blk, va) == Mapped(va)
  {
    hide TablesAt, Entry, WalkPointers, Frame, Open, Large;
    var k := va / GIB512 % 512;
    WordOf(m, blk, Tables(blk), 0, k);
    if k == 0 {
      FrameOfPage(blk, 1);
      LowPointers(m, blk, va);
    } else if k == 511 {
      FrameOfPage(blk, 2);
      HighPointers(m, blk, va);
    } else {
      Absent();
    }
  }

  // ---- building them in memory ------------------------------------------------------------------

  ghost predicate SameOutside(a: seq<byte>, b: seq<byte>, lo: nat, hi: nat) {
    |a| == |b| && forall k | 0 <= k < |a| && !(lo <= k < hi) :: b[k] == a[k]
  }

  lemma SameOutsideTrans(a: seq<byte>, b: seq<byte>, c: seq<byte>, lo: nat, hi: nat)
    requires SameOutside(a, b, lo, hi) && SameOutside(b, c, lo, hi)
    ensures SameOutside(a, c, lo, hi)
  {
  }

  lemma StoreKeepsOne(m: seq<byte>, blk: nat, w: seq<nat>, j: nat, v: nat, i: nat)
    requires TablesAt(m, blk, w) && j < |w| && i < |w|
    ensures Has(Splice(m, blk + 8 * j, Le(v, 8)), blk + 8 * i, Le(w[j := v][i], 8))
  {
    hide Le, Splice;
    if i != j { HasElsewhere(m, blk + 8 * i, Le(w[i], 8), blk + 8 * j, Le(v, 8)); }
  }

  lemma StoreKeeps(m: seq<byte>, blk: nat, w: seq<nat>, j: nat, v: nat)
    requires TablesAt(m, blk, w) && j < |w| && v < 0x1_0000_0000_0000_0000
    ensures TablesAt(Splice(m, blk + 8 * j, Le(v, 8)), blk, w[j := v])
  {
    hide Le, Splice, Has;
    forall i | 0 <= i < |w|
      ensures Has(Splice(m, blk + 8 * j, Le(v, 8)), blk + 8 * i, Le(w[j := v][i], 8))
    {
      StoreKeepsOne(m, blk, w, j, v, i);
    }
  }

  /** One table word. */
  method Store(mem: array<byte>, blk: nat, ghost w: seq<nat>, j: nat, v: nat)
    requires TablesAt(mem[..], blk, w) && j < |w| && v < 0x1_0000_0000_0000_0000
    modifies mem
    ensures TablesAt(mem[..], blk, w[j := v])
    ensures SameOutside(old(mem[..]), mem[..], blk, blk + 8 * |w|)
  {
    hide TablesAt;
    ghost var was := mem[..];
    InBounds(was, blk, w);
    Poke(mem, blk + 8 * j, Le(v, 8));
    StoreKeeps(was, blk, w, j, v);
  }

  lemma InBounds(m: seq<byte>, blk: nat, w: seq<nat>)
    requires TablesAt(m, blk, w)
    ensures blk + 8 * |w| <= |m|
  {
  }

  lemma {:induction false} ZeroWord(k: nat)
    ensures Le(0, k) == Zeros(k)
  {
    if k == 0 {
    } else {
      ZeroWord(k - 1);
    }
  }

  lemma ClearedTables(m: seq<byte>, blk: nat)
    requires Has(m, blk, Zeros(8 * WORDS))
    ensures TablesAt(m, blk, seq(WORDS, _ => 0))
  {
    ZeroWord(8);
    forall j | 0 <= j < WORDS
      ensures Has(m, blk + 8 * j, Le(0, 8))
    {
      HasWithin(m, blk, Zeros(8 * WORDS), 8 * j, 8);
      assert Zeros(8 * WORDS)[8 * j..8 * j + 8] == Zeros(8);
    }
  }

  /** The words whose addresses the first `n` rounds of the directory loop filled. */
  ghost predicate Filled(w: seq<nat>, n: nat) {
    && |w| == WORDS && n <= 2048
    && (forall j | 0 <= j < 1536 :: w[j] == 0)
    && (forall j | 1536 <= j < WORDS :: w[j] == if j < 1536 + n then (j - 1536) * MIB2 + 0x83 else 0)
  }

  method FillDirectories(mem: array<byte>, blk: nat, ghost w: seq<nat>) returns (ghost w': seq<nat>)
    requires TablesAt(mem[..], blk, w) && Filled(w, 0)
    modifies mem
    ensures TablesAt(mem[..], blk, w') && Filled(w', 2048)
    ensures SameOutside(old(mem[..]), mem[..], blk, blk + 8 * WORDS)
  {
    hide TablesAt, SameOutside;
    w' := w;
    ghost var was := mem[..];
    SameOutsideSelf(was, blk, blk + 8 * WORDS);
    for k := 0 to 4
      invariant TablesAt(mem[..], blk, w') && Filled(w', 512 * k)
      invariant SameOutside(was, mem[..], blk, blk + 8 * WORDS)
    {
      for i := 0 to 512
        invariant TablesAt(mem[..], blk, w') && Filled(w', 512 * k + i)
        invariant SameOutside(was, mem[..], blk, blk + 8 * WORDS)
      {
        ghost var before := mem[..];
        Store(mem, blk, w', 1536 + 512 * k + i, k * GIB + i * MIB2 + 0x83);
        SameOutsideTrans(was, before, mem[..], blk, blk + 8 * WORDS);
        w' := w'[1536 + 512 * k + i := k * GIB + i * MIB2 + 0x83];
      }
    }
  }

  lemma SameOutsideSelf(a: seq<byte>, lo: nat, hi: nat)
    ensures SameOutside(a, a, lo, hi)
  {
  }

  method FillPointers(mem: array<byte>, blk: nat, ghost w: seq<nat>) returns (ghost w': seq<nat>)
    requires Placed(blk) && TablesAt(mem[..], blk, w) && Filled(w, 2048)
    modifies mem
    ensures TablesAt(mem[..], blk, w') && |w'| == WORDS
    ensures forall j | 0 <= j < WORDS :: w'[j] == Word(blk, j)
    ensures SameOutside(old(mem[..]), mem[..], blk, blk + 8 * WORDS)
  {
    hide TablesAt, SameOutside;
    ghost var was := mem[..];
    ghost var before := was;
    Store(mem, blk, w, 0, blk + 0x1003);
    w' := w[0 := blk + 0x1003];
    for k := 0 to 4
      invariant TablesAt(mem[..], blk, w') && |w'| == WORDS
      invariant forall j | 0 <= j < WORDS ::
                  w'[j] == if j == 0 || 512 <= j < 512 + k || j >= 1536 then Word(blk, j) else 0
      invariant SameOutside(was, mem[..], blk, blk + 8 * WORDS)
    {
      before := mem[..];
      Store(mem, blk, w', 512 + k, blk + 0x3000 + PAGE * k + 3);
      SameOutsideTrans(was, before, mem[..], blk, blk + 8 * WORDS);
      w' := w'[512 + k := blk + 0x3000 + PAGE * k + 3];
    }
    before := mem[..];
    Store(mem, blk, w', 511, blk + 0x2003);
    SameOutsideTrans(was, before, mem[..], blk, blk + 8 * WORDS);
    w' := w'[511 := blk + 0x2003];
    before := mem[..];
    Store(mem, blk, w', 1534, blk + 0x3003);
    SameOutsideTrans(was, before, mem[..], blk, blk + 8 * WORDS);
    w' := w'[1534 := blk + 0x3003];
  }

  /** Seven pages at `blk` become the tables; no other byte of memory changes, and the
      walk from `blk` finds exactly what is meant to be mapped. */
  method BuildPageTables(mem: array<byte>, blk: nat)
    requires Placed(blk) && blk + TABLE_PAGES * PAGE <= mem.Length
    modifies mem
    ensures TablesAt(mem[..], blk, Tables(blk))
    ensures SameOutside(old(mem[..]), mem[..], blk, blk + TABLE_PAGES * PAGE)
    ensures forall va | Canonical(va) :: Walk(mem[..], blk, va) == Mapped(va)
  {
    hide TablesAt, SameOutside, Walk, Mapped, Canonical, Word;
    ghost var was := mem[..];
    Poke(mem, blk, Zeros(8 * WORDS));
    SplicedOutside(was, blk, Zeros(8 * WORDS));
    ClearedTables(mem[..], blk);
    ghost var before := mem[..];
    ghost var w := FillDirectories(mem, blk, seq(WORDS, _ => 0));
    SameOutsideTrans(was, before, mem[..], blk, blk + 8 * WORDS);
    before := mem[..];
    w := FillPointers(mem, blk, w);
    SameOutsideTrans(was, before, mem[..], blk, blk + 8 * WORDS);
    assert w == Tables(blk);
    forall va | Canonical(va)
      ensures Walk(mem[..], blk, va) == Mapped(va)
    {
      WalkIsMapped(mem[..], blk, va);
    }
  }

  lemma SplicedOutside(m: seq<byte>, off: nat, data: seq<byte>)
    requires off + |data| <= |m|
    ensures SameOutside(m, Splice(m, off, data), off, off + |data|)
  {
  }
}
