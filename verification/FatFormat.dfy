/** The on-disk format of the volume: geometry, the FAT split into chains, the data
    area, and the boot and information sectors. */
module FatFormat {
  import opened Bytes
  import opened DiskBytes
  import opened FatTree
  import FatBoot
  import FatSizing

  const SECTOR := 512
  const RESERVED := 32
  const SEC_PER_CLUS := 2
  const EOC := 0x0FFF_FFFF

  /** The volume's fixed shape. */
  datatype Geometry = Geometry(sectors: nat, hidden: nat, fatSectors: nat, clusters: nat)

  function DataStart(g: Geometry): (r: nat) { (RESERVED + FatSizing.NUM_FATS * g.fatSectors) * SECTOR }

  function ClusterOffset(g: Geometry, c: nat): (r: nat)
    requires c >= 2
  {
    DataStart(g) + (c - 2) * SEC_PER_CLUS * SECTOR
  }

  /** The FAT has room for its entries and everything lies inside the volume. */
  ghost predicate GeometryOk(g: Geometry) {
    && g.sectors <= 0x80_0000 && g.hidden < 0x1_0000_0000
    && g.clusters >= FatSizing.MIN_FAT32_CLUSTERS
    && FatSizing.RoomFor(g.fatSectors, g.clusters)
    && FatSizing.Fits(g.sectors, RESERVED, SEC_PER_CLUS, g.fatSectors, g.clusters)
  }

  // ---- the FAT -------------------------------------------------------------------------

  ghost predicate ChainInFat(fat: seq<nat>, first: nat, n: nat) {
    && n >= 1 && 2 <= first && first + n <= |fat|
    && (forall c | first <= c < first + n - 1 :: fat[c] == c + 1)
    && fat[first + n - 1] == EOC
  }

  ghost predicate Covered(chains: map<nat, nat>, c: nat) {
    exists a :: a in chains && a <= c < a + chains[a]
  }

  /** `chains` (first cluster to length) splits [2, next): every chain is intact,
      none overlap, none is missing, and what lies beyond is free. */
  ghost predicate FatOk(fat: seq<nat>, next: nat, chains: map<nat, nat>) {
    && 2 <= next <= |fat| && fat[0] == 0x0FFF_FFF8 && fat[1] == EOC
    && (forall a | a in chains :: ChainInFat(fat, a, chains[a]) && a + chains[a] <= next)
    && (forall a, b | a in chains && b in chains && a < b :: a + chains[a] <= b)
    && (forall c | 2 <= c < next :: Covered(chains, c))
    && (forall c | next <= c < |fat| :: fat[c] == 0)
  }

  lemma AllocCovers(chains: map<nat, nat>, next: nat, n: nat, c: nat)
    requires next !in chains && 2 <= c < next + n && (c < next ==> Covered(chains, c))
    ensures Covered(chains[next := n], c)
  {
    var chains' := chains[next := n];
    if c < next {
      var a :| a in chains && a <= c < a + chains[a];
      assert a in chains' && chains'[a] == chains[a];
    } else {
      assert next in chains' && chains'[next] == n;
    }
  }

  /** Taking the next `n` clusters keeps the split. */
  lemma AllocKeeps(fat: seq<nat>, next: nat, chains: map<nat, nat>, fat': seq<nat>, n: nat)
    requires FatOk(fat, next, chains) && n >= 1 && next + n <= |fat| == |fat'|
    requires ChainInFat(fat', next, n)
    requires forall c | 0 <= c < |fat| && !(next <= c < next + n) :: fat'[c] == fat[c]
    ensures FatOk(fat', next + n, chains[next := n])
  {
    var chains' := chains[next := n];
    forall a | a in chains' ensures ChainInFat(fat', a, chains'[a]) && a + chains'[a] <= next + n {
      if a != next { assert ChainInFat(fat, a, chains[a]); }
    }
    assert next !in chains;
    forall c | 2 <= c < next + n ensures Covered(chains', c) {
      AllocCovers(chains, next, n, c);
    }
  }

  // ---- the data area ----------------------------------------------------------------------

  function Written(content: map<nat, seq<byte>>, a: nat): (r: seq<byte>) {
    if a in content then content[a] else []
  }

  /** The bytes of a chain are what was written to it, then zeros. */
  ghost predicate ChainHolds(img: seq<byte>, g: Geometry, a: nat, n: nat, data: seq<byte>) {
    && a >= 2 && |data| <= n * CLUSTER && ClusterOffset(g, a + n) <= |img|
    && img[ClusterOffset(g, a)..ClusterOffset(g, a + n)] == data + Zeros(n * CLUSTER - |data|)
  }

  ghost predicate DataOk(img: seq<byte>, g: Geometry, next: nat, chains: map<nat, nat>,
                         content: map<nat, seq<byte>>) {
    && next >= 2 && ClusterOffset(g, next) <= |img|
    && content.Keys <= chains.Keys
    && (forall a | a in chains :: ChainHolds(img, g, a, chains[a], Written(content, a)))
    && (forall k | ClusterOffset(g, next) <= k < |img| :: img[k] == 0)
  }

  /** A write into one chain leaves every other chain as it was. */
  lemma HoldsElsewhere(img: seq<byte>, g: Geometry, a: nat, n: nat, data: seq<byte>,
                       b: nat, m: nat, blob: seq<byte>)
    requires ChainHolds(img, g, a, n, data)
    requires b >= 2 && |blob| <= m * CLUSTER && ClusterOffset(g, b + m) <= |img|
    requires a + n <= b || b + m <= a
    ensures ChainHolds(Splice(img, ClusterOffset(g, b), blob), g, a, n, data)
  {
    var img' := Splice(img, ClusterOffset(g, b), blob);
    var lo, hi := ClusterOffset(g, a), ClusterOffset(g, a + n);
    assert forall k | lo <= k < hi :: img'[k] == img[k];
    assert img'[lo..hi] == img[lo..hi];
  }

  /** The chain written to holds the new data, if it held nothing before. */
  lemma HoldsHere(img: seq<byte>, g: Geometry, a: nat, n: nat, blob: seq<byte>)
    requires ChainHolds(img, g, a, n, []) && |blob| <= n * CLUSTER
    ensures ChainHolds(Splice(img, ClusterOffset(g, a), blob), g, a, n, blob)
  {
    var img' := Splice(img, ClusterOffset(g, a), blob);
    var lo, hi := ClusterOffset(g, a), ClusterOffset(g, a + n);
    assert img'[lo..lo + |blob|] == blob;
    var before := [] + Zeros(n * CLUSTER - 0);
    forall k | lo + |blob| <= k < hi ensures img'[k] == 0 {
      assert img[lo..hi][k - lo] == before[k - lo];
    }
    assert img'[lo + |blob|..hi] == Zeros(n * CLUSTER - |blob|);
    assert img'[lo..hi] == img'[lo..lo + |blob|] + img'[lo + |blob|..hi];
  }

  lemma WriteKeeps(img: seq<byte>, g: Geometry, fat: seq<nat>, next: nat, chains: map<nat, nat>,
                   content: map<nat, seq<byte>>, a: nat, blob: seq<byte>)
    requires FatOk(fat, next, chains) && DataOk(img, g, next, chains, content)
    requires a in chains && a !in content && |blob| <= chains[a] * CLUSTER
    ensures a >= 2 && ClusterOffset(g, a) + |blob| <= |img|
    ensures DataOk(Splice(img, ClusterOffset(g, a), blob), g, next, chains, content[a := blob])
  {
    assert ChainHolds(img, g, a, chains[a], Written(content, a));
    assert ChainInFat(fat, a, chains[a]) && a + chains[a] <= next;
    var img', content' := Splice(img, ClusterOffset(g, a), blob), content[a := blob];
    forall b | b in chains ensures ChainHolds(img', g, b, chains[b], Written(content', b)) {
      assert ChainHolds(img, g, b, chains[b], Written(content, b));
      if b == a {
        HoldsHere(img, g, a, chains[a], blob);
      } else {
        assert Written(content', b) == Written(content, b);
        HoldsElsewhere(img, g, b, chains[b], Written(content, b), a, chains[a], blob);
      }
    }
  }

  /** A write at chain `a` leaves the bytes of clusters `c .. c + m` it reaches as they were. */
  ghost predicate SameWhereWritten(img: seq<byte>, g: Geometry, a: nat, blob: seq<byte>, c: nat, m: nat)
    requires a >= 2 && c >= 2 && ClusterOffset(g, c + m) <= |img|
  {
    var at := ClusterOffset(g, a);
    forall k | ClusterOffset(g, c) <= k < ClusterOffset(g, c + m) && at <= k < at + |blob| :: img[k] == blob[k - at]
  }

  /** What a write at chain `a` that its clusters cannot hold has done to the image: the
      chain keeps what fits, the rest lies behind it, and another chain still holds what it
      held exactly when the bytes written over it are its own. */
  ghost predicate Overwritten(was: seq<byte>, img: seq<byte>, g: Geometry, chains: map<nat, nat>,
                              content: map<nat, seq<byte>>, a: nat, blob: seq<byte>) {
    && a in chains && a >= 2 && chains[a] * CLUSTER <= |blob|
    && ChainHolds(img, g, a, chains[a], blob[..chains[a] * CLUSTER])
    && Has(img, ClusterOffset(g, a + chains[a]), blob[chains[a] * CLUSTER..])
    && forall c | c in chains && c != a ::
         && ChainHolds(was, g, c, chains[c], Written(content, c))
         && (ChainHolds(img, g, c, chains[c], Written(content, c)) <==> SameWhereWritten(was, g, a, blob, c, chains[c]))
  }

  /** Nothing stops a write at the end of its chain. */
  lemma OverlongWrite(img: seq<byte>, g: Geometry, next: nat, chains: map<nat, nat>,
                      content: map<nat, seq<byte>>, a: nat, blob: seq<byte>)
    requires DataOk(img, g, next, chains, content) && a in chains && a >= 2
    requires chains[a] * CLUSTER <= |blob| && ClusterOffset(g, a) + |blob| <= |img|
    ensures Overwritten(img, Splice(img, ClusterOffset(g, a), blob), g, chains, content, a, blob)
  {
    hide SameWhereWritten, Written, Splice, Has, ClusterOffset;
    OverlongHere(img, g, a, chains[a], blob);
    forall c | c in chains && c != a
      ensures ChainHolds(img, g, c, chains[c], Written(content, c))
      ensures ChainHolds(Splice(img, ClusterOffset(g, a), blob), g, c, chains[c], Written(content, c)) <==>
              SameWhereWritten(img, g, a, blob, c, chains[c])
    {
      OverlongElsewhere(img, g, a, blob, c, chains[c], Written(content, c));
    }
  }

  lemma OverlongHere(img: seq<byte>, g: Geometry, a: nat, n: nat, blob: seq<byte>)
    requires a >= 2 && n * CLUSTER <= |blob| && ClusterOffset(g, a) + |blob| <= |img|
    ensures var img' := Splice(img, ClusterOffset(g, a), blob);
            ChainHolds(img', g, a, n, blob[..n * CLUSTER]) && Has(img', ClusterOffset(g, a + n), blob[n * CLUSTER..])
  {
    hide Splice, Has;
    SpillParts(img, ClusterOffset(g, a), blob, n * CLUSTER);
  }

  lemma OverlongElsewhere(img: seq<byte>, g: Geometry, a: nat, blob: seq<byte>, c: nat, m: nat, data: seq<byte>)
    requires a >= 2 && ClusterOffset(g, a) + |blob| <= |img| && ChainHolds(img, g, c, m, data)
    ensures ChainHolds(Splice(img, ClusterOffset(g, a), blob), g, c, m, data) <==>
            SameWhereWritten(img, g, a, blob, c, m)
  {
    SameSpan(img, ClusterOffset(g, a), blob, ClusterOffset(g, c), ClusterOffset(g, c + m));
  }

  lemma SpillParts(img: seq<byte>, at: nat, blob: seq<byte>, n: nat)
    requires at + |blob| <= |img| && n <= |blob|
    ensures var img' := Splice(img, at, blob);
            img'[at..at + n] == blob[..n] && img'[at..at + n] == blob[..n] + Zeros(0) && Has(img', at + n, blob[n..])
  {
    var img' := Splice(img, at, blob);
    assert img'[at..at + |blob|] == blob;
  }

  lemma SameSpan(img: seq<byte>, at: nat, blob: seq<byte>, lo: nat, hi: nat)
    requires at + |blob| <= |img| && lo <= hi <= |img|
    ensures Splice(img, at, blob)[lo..hi] == img[lo..hi] <==>
            forall k | lo <= k < hi && at <= k < at + |blob| :: img[k] == blob[k - at]
  {
    var img' := Splice(img, at, blob);
    if img'[lo..hi] == img[lo..hi] {
      forall k | lo <= k < hi && at <= k < at + |blob| ensures img[k] == blob[k - at] {
        assert img'[lo..hi][k - lo] == img[lo..hi][k - lo];
      }
    } else {
      var i :| 0 <= i < hi - lo && img'[lo..hi][i] != img[lo..hi][i];
      assert img'[lo + i] != img[lo + i];
    }
  }

  lemma NextIsFresh(img: seq<byte>, g: Geometry, fat: seq<nat>, next: nat, chains: map<nat, nat>,
                    content: map<nat, seq<byte>>)
    requires FatOk(fat, next, chains) && DataOk(img, g, next, chains, content)
    ensures 2 <= next <= |fat| && next !in chains && next !in content
  {
    assert forall a | a in chains :: a < next;
  }

  /** A chain just taken from the free area holds nothing but zeros. */
  lemma AllocKeepsData(img: seq<byte>, g: Geometry, next: nat, chains: map<nat, nat>,
                       content: map<nat, seq<byte>>, n: nat)
    requires DataOk(img, g, next, chains, content) && next !in chains
    requires n >= 1 && ClusterOffset(g, next + n) <= |img|
    ensures DataOk(img, g, next + n, chains[next := n], content)
  {
    var chains' := chains[next := n];
    var lo, hi := ClusterOffset(g, next), ClusterOffset(g, next + n);
    assert img[lo..hi] == [] + Zeros(n * CLUSTER - 0);
    forall b | b in chains' ensures ChainHolds(img, g, b, chains'[b], Written(content, b)) {
      if b != next { assert ChainHolds(img, g, b, chains[b], Written(content, b)); }
    }
  }

  // ---- the finished volume -----------------------------------------------------------------

  const OEM: seq<byte> := [0x45, 0x4D, 0x42, 0x4C, 0x49, 0x4E, 0x4B, 0x20]
  const FAT32_TAG: seq<byte> := [0x46, 0x41, 0x54, 0x33, 0x32, 0x20, 0x20, 0x20]

  function BootMiddle(g: Geometry): (r: seq<byte>)
    ensures |r| == 19
  {
    Le(0, 2) + Le(0, 2) + [0xF8] + Le(0, 2) + Le(63, 2) + Le(255, 2) + Le(g.hidden, 4) + Le(g.sectors, 4)
  }

  function BootTail(): (r: seq<byte>)
    ensures |r| == 464
  {
    var numbers: seq<byte> := Le(1, 2) + Le(6, 2) + Zeros(12) + [0x80, 0, 0x29] + Le(0x0EB7_B0D7, 4);
    numbers + LABEL + FAT32_TAG + Zeros(420) + [0x55, 0xAA]
  }

  /** The BIOS parameter block, as the packing format lays it out: the fields a
      reader needs each on their own, the others grouped between them. */
  function BootParts(g: Geometry): (r: seq<seq<byte>>)
    ensures |r| == 10
  {
    [ [0xEB, 0x58, 0x90] + OEM,                                              // 0
      Le(SECTOR, 2), [SEC_PER_CLUS], Le(RESERVED, 2), [FatSizing.NUM_FATS],  // 11, 13, 14, 16
      BootMiddle(g),                                                         // 17
      Le(g.fatSectors, 4), Zeros(4), Le(2, 4),                               // 36, 40, 44
      BootTail() ]                                                           // 48
  }

  function BootSector(g: Geometry): (r: seq<byte>) { Flatten(BootParts(g)) }

  function FsInfoParts(free: nat, next: nat): (r: seq<seq<byte>>) {
    [ Le(0x4161_5252, 4) + Zeros(480), Le(0x6141_7272, 4), Le(free, 4), Le(next, 4), Zeros(12) + Le(0xAA55_0000, 4) ]
  }

  function FsInfo(free: nat, next: nat): (r: seq<byte>) { Flatten(FsInfoParts(free, next)) }

  function FatStart(g: Geometry, copy: nat): (r: nat) { (RESERVED + copy * g.fatSectors) * SECTOR }

  /** Boot sector and FSInfo, and the backups of both at sectors 6 and 7. */
  predicate HeaderIn(img: seq<byte>, boot: seq<byte>, info: seq<byte>) {
    Has(img, 0, boot) && Has(img, SECTOR, info) && Has(img, 6 * SECTOR, boot) && Has(img, 7 * SECTOR, info)
  }

  /** Both FAT copies, the boot sector and FSInfo are in place, twice over. */
  ghost predicate Finished(img: seq<byte>, g: Geometry, fat: seq<nat>, next: nat) {
    && next <= g.clusters + 2
    && HeaderIn(img, BootSector(g), FsInfo(g.clusters + 2 - next, next))
    && Has(img, FatStart(g, 0), RawFat(fat)) && Has(img, FatStart(g, 1), RawFat(fat))
  }

  /** Where each part of the boot sector starts. */
  lemma BootOffsets(g: Geometry)
    ensures var p := BootParts(g);
            && |p| == 10 && TotalLength(p[..1]) == 11 && TotalLength(p[..2]) == 13 && TotalLength(p[..3]) == 14
            && TotalLength(p[..4]) == 16 && TotalLength(p[..6]) == 36 && TotalLength(p[..8]) == 44
            && |BootSector(g)| == 512
  {
    var p := BootParts(g);
    hide Le, BootMiddle, BootTail, Flatten, TotalLength;
    assert |p[0]| == 11 && |p[5]| == 19 && |p[7]| == 4 && |p[9]| == 464;
    BootTotals(p);
  }

  /** A reader of the boot sector gets the writer's geometry. */
  lemma BootFields(g: Geometry)
    requires g.fatSectors < 0x1_0000_0000
    ensures var bs := BootSector(g);
            && |bs| == 512 && Get(bs, 11, 2) == SECTOR && bs[13] == SEC_PER_CLUS && Get(bs, 14, 2) == RESERVED
            && bs[16] == FatSizing.NUM_FATS && Get(bs, 36, 4) == g.fatSectors && Get(bs, 44, 4) == 2
  {
    hide BootMiddle, BootTail, TotalLength, UnLe;
    var p := BootParts(g);
    BootOffsets(g);
    Widths();
    FieldAt(p, 1, 11, SECTOR, 2);
    PartAt(p, 2);
    FieldAt(p, 3, 14, RESERVED, 2);
    PartAt(p, 4);
    FieldAt(p, 6, 36, g.fatSectors, 4);
    FieldAt(p, 8, 44, 2, 4);
    assert Flatten(p)[13..14][0] == SEC_PER_CLUS && Flatten(p)[16..17][0] == FatSizing.NUM_FATS;
  }

  lemma FsInfoFields(free: nat, next: nat)
    requires free < 0x1_0000_0000 && next < 0x1_0000_0000
    ensures |FsInfo(free, next)| == 512
    ensures Get(FsInfo(free, next), 488, 4) == free && Get(FsInfo(free, next), 492, 4) == next
  {
    var p := FsInfoParts(free, next);
    assert p[..0] == [] && p[..5] == p && |p[0]| == 484 && |p[4]| == 16;
    TotalSnoc(p, 0); TotalSnoc(p, 1); TotalSnoc(p, 2); TotalSnoc(p, 3); TotalSnoc(p, 4);
    FlattenLength(p);
    Widths();
    FieldAt(p, 2, 488, free, 4);
    FieldAt(p, 3, 492, next, 4);
  }

  function BootValues(g: Geometry): (r: FatBoot.Values) {
    FatBoot.Values(2, 32, 63, 255, g.hidden, g.sectors, g.fatSectors, 0x0EB7_B0D7, LABEL)
  }

  lemma BootSectorIs(g: Geometry)
    requires GeometryOk(g)
    ensures FatBoot.BootIs(BootSector(g), BootValues(g))
  {
    hide Le, UnLe, Flatten, FatBoot.BootIs, FatBoot.MiddleIs, FatBoot.TailIs;
    var v := BootValues(g);
    assert FatBoot.OEM_TEXT == OEM && FatBoot.TYPE_TEXT == FAT32_TAG;
    FatBoot.MiddleFields(BootMiddle(g), v);
    FatBoot.TailFields(BootTail(), v);
    FatBoot.PartsAreBoot(BootParts(g), v);
  }

  lemma FsInfoIs(free: nat, next: nat)
    requires free < 0x1_0000_0000 && next < 0x1_0000_0000
    ensures FatBoot.InfoIs(FsInfo(free, next), free, next)
  {
    hide Le, UnLe, Flatten, TotalLength;
    var p, fs := FsInfoParts(free, next), FsInfo(free, next);
    FsInfoFields(free, next);
    FsInfoTotals(free, next);
    PartAt(p, 0);
    PartAt(p, 1);
    PartAt(p, 4);
    Signatures();
    assert fs[0..4] == fs[0..484][..4] && fs[510..512] == fs[496..512][14..];
    assert p[0][..4] == Le(0x4161_5252, 4) && p[4][14..] == Le(0xAA55_0000, 4)[2..];
  }

  lemma FsInfoTotals(free: nat, next: nat)
    ensures var p := FsInfoParts(free, next);
            TotalLength(p[..0]) == 0 && TotalLength(p[..1]) == 484 && TotalLength(p[..4]) == 496 && |p[0]| == 484 && |p[4]| == 16
  {
    var p := FsInfoParts(free, next);
    hide Le, Flatten;
    assert p[..0] == [] && |p[0]| == 484 && |p[4]| == 16;
    TotalSnoc(p, 0); TotalSnoc(p, 1); TotalSnoc(p, 2); TotalSnoc(p, 3);
  }

  lemma Signatures()
    ensures Le(0x4161_5252, 4) == [0x52, 0x52, 0x61, 0x41] && Le(0x6141_7272, 4) == [0x72, 0x72, 0x41, 0x61]
    ensures Le(0xAA55_0000, 4) == [0, 0, 0x55, 0xAA]
  {
    assert Le(0x4161, 2) == [0x61, 0x41] && Le(0x6141, 2) == [0x41, 0x61] && Le(0xAA55, 2) == [0x55, 0xAA];
  }

  /** The finished image opens with a FAT32 boot sector that gives this volume's size, start
      and FAT, the information sector behind it, and a backup of each. */
  lemma FinishedIsFat32(img: seq<byte>, g: Geometry, fat: seq<nat>, next: nat)
    requires GeometryOk(g) && Finished(img, g, fat, next)
    ensures FatBoot.HeaderIs(img, BootValues(g), g.clusters + 2 - next, next)
    ensures |img| >= 8 * 512 && img[7 * 512..8 * 512] == img[512..1024]
  {
    hide BootSector, FsInfo, RawFat, FatBoot.BootIs, FatBoot.InfoIs;
    BootSectorIs(g);
    BootOffsets(g);
    FsInfoIs(g.clusters + 2 - next, next);
    FsInfoFields(g.clusters + 2 - next, next);
  }

  // ---- the free count ------------------------------------------------------------------------

  function CountFree(fat: seq<nat>): (r: nat) {
    if fat == [] then 0 else CountFree(fat[..|fat| - 1]) + if fat[|fat| - 1] == 0 then 1 else 0
  }

  lemma {:induction false} CountFreeIs(fat: seq<nat>, n: nat)
    requires n <= |fat|
    requires forall c | 0 <= c < n :: fat[c] != 0
    requires forall c | n <= c < |fat| :: fat[c] == 0
    ensures CountFree(fat) == |fat| - n
    decreases |fat|
  {
    if fat == [] {
    } else {
      var m := |fat| - 1;
      CountFreeIs(fat[..m], if n <= m then n else m);
    }
  }

  /** The free count written to FSInfo is the number of zero entries in the FAT. */
  lemma FreeCountIsExact(fat: seq<nat>, next: nat, chains: map<nat, nat>)
    requires FatOk(fat, next, chains)
    ensures CountFree(fat) == |fat| - next && forall c | 0 <= c < next :: fat[c] != 0
  {
    forall c | 0 <= c < next ensures fat[c] != 0 {
      if c >= 2 {
        assert Covered(chains, c);
        var a :| a in chains && a <= c < a + chains[a];
        assert ChainInFat(fat, a, chains[a]);
      }
    }
    CountFreeIs(fat, next);
  }

  /** In the finished image, the free count a reader finds is the number of zero
      entries in the FAT, and the hint behind it is the first of them. */
  lemma FreeCountWritten(img: seq<byte>, g: Geometry, fat: seq<nat>, next: nat, chains: map<nat, nat>)
    requires FatOk(fat, next, chains) && |fat| == g.clusters + 2 < 0x1_0000_0000 && Finished(img, g, fat, next)
    ensures |img| >= SECTOR + 496
    ensures Get(img, SECTOR + 488, 4) == CountFree(fat) && Get(img, SECTOR + 492, 4) == next
    ensures next < |fat| ==> fat[next] == 0 && forall c | 0 <= c < next :: fat[c] != 0
  {
    hide BootSector, FsInfo, RawFat, CountFree, ChainInFat;
    FreeCountIsExact(fat, next, chains);
    FsInfoFields(g.clusters + 2 - next, next);
    GetWithin(img, SECTOR, FsInfo(g.clusters + 2 - next, next), 488, 4);
    GetWithin(img, SECTOR, FsInfo(g.clusters + 2 - next, next), 492, 4);
  }

  lemma GetWithin(img: seq<byte>, at: nat, part: seq<byte>, off: nat, n: nat)
    requires Has(img, at, part) && off + n <= |part|
    ensures at + off + n <= |img| && Get(img, at + off, n) == Get(part, off, n)
  {
    HasWithin(img, at, part, off, n);
    assert at + (off + n) == at + off + n;
  }

  // ---- header writes stay out of the data area --------------------------------------------------

  lemma DataElsewhere(img: seq<byte>, g: Geometry, next: nat, chains: map<nat, nat>,
                      content: map<nat, seq<byte>>, at: nat, data: seq<byte>)
    requires DataOk(img, g, next, chains, content) && at + |data| <= DataStart(g)
    ensures at + |data| <= |img|
    ensures DataOk(Splice(img, at, data), g, next, chains, content)
  {
    var img' := Splice(img, at, data);
    forall a | a in chains ensures ChainHolds(img', g, a, chains[a], Written(content, a)) {
      assert ChainHolds(img, g, a, chains[a], Written(content, a));
      var lo, hi := ClusterOffset(g, a), ClusterOffset(g, a + chains[a]);
      assert forall k | lo <= k < hi :: img'[k] == img[k];
      assert img'[lo..hi] == img[lo..hi];
    }
  }

  lemma FinishedIs(img: seq<byte>, g: Geometry, fat: seq<nat>, next: nat)
    requires next <= g.clusters + 2 && HeaderIn(img, BootSector(g), FsInfo(g.clusters + 2 - next, next))
    requires Has(img, FatStart(g, 0), RawFat(fat)) && Has(img, FatStart(g, 1), RawFat(fat))
    ensures Finished(img, g, fat, next)
  {
  }

  lemma KeepsHeader(img: seq<byte>, img': seq<byte>, boot: seq<byte>, info: seq<byte>, at: nat, data: seq<byte>)
    requires |boot| == |info| == SECTOR && at >= 8 * SECTOR && at + |data| <= |img|
    requires img' == Splice(img, at, data)
    requires HeaderIn(img, boot, info)
    ensures HeaderIn(img', boot, info)
  {
    HasElsewhere(img, 0, boot, at, data);
    HasElsewhere(img, SECTOR, info, at, data);
    HasElsewhere(img, 6 * SECTOR, boot, at, data);
    HasElsewhere(img, 7 * SECTOR, info, at, data);
  }
}
