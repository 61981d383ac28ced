/** The EFI system partition: a FAT32 volume built to hold /EFI/BOOT/BOOTX64.EFI and nothing
    else, and read back through boot sector, FAT and directories. */
module UefiDisk {
  import opened Bytes
  import opened DiskBytes
  import opened FatNames
  import opened FatReader
  import FatBoot
  import FatSizing

  const SECTOR := 512
  const RESERVED := 32
  const EOC := 0x0FFF_FFFF

  // ---- directory records --------------------------------------------------------------

  const EFI_NAME: seq<byte> := [0x45, 0x46, 0x49, 32, 32, 32, 32, 32, 32, 32, 32]
  const BOOT_NAME: seq<byte> := [0x42, 0x4F, 0x4F, 0x54, 32, 32, 32, 32, 32, 32, 32]
  const LOADER_NAME: seq<byte> := [0x42, 0x4F, 0x4F, 0x54, 0x58, 0x36, 0x34, 32, 0x45, 0x46, 0x49]
  const DOT_NAME: seq<byte> := [32, 32, 32, 32, 32, 32, 32, 32, 32, 32, 32]
  const DOTDOT_NAME: seq<byte> := [32, 32, 32, 32, 32, 32, 32, 32, 0x2E, 32, 32]

  function FatName(up: Upper, name: string): (r: Option<seq<byte>>)
    ensures r.Some? ==> |r.value| == 11
  {
    var s := LJust(Uppercase(up, Stem(name)), 8) + LJust(Uppercase(up, Ext(name)), 3);
    if |Stem(name)| > 8 || |Ext(name)| > 3 || |s| != 11 || !AllAscii(s) then None else Some(Ascii(s))
  }

  /** Writer and reader put every 8.3 name into the same eleven bytes. */
  lemma NamesAgree(up: Upper, name: string)
    requires UpperOk(up) && Fits83(name) && name != "." && name != ".."
    ensures AllAscii(ShortEntryName(name))
    ensures FatName(up, name) == Some(Ascii(ShortEntryName(name))) == ShortName(up, name)
  {
    FittingNameShape(name);
    var a, b := Stem(name), Ext(name);
    UppercaseFixed(up, a);
    UppercaseFixed(up, b);
    WholeNameFixed(up, name);
    assert LJust(a, 8)[..8] == LJust(a, 8) && LJust(b, 3)[..3] == LJust(b, 3);
  }

  lemma WholeNameFixed(up: Upper, name: string)
    requires UpperOk(up) && Fits83(name) && name != "." && name != ".."
    ensures Uppercase(up, name) == name
  {
    var d := FirstDot(name);
    forall i | 0 <= i < |name| ensures ShortOk(name[i]) || name[i] == '.' {
      if i < d { assert name[i] == Stem(name)[i]; }
      else if i > d { assert name[i] == Ext(name)[i - d - 1]; }
    }
    UppercaseFixed(up, name);
  }

  /** The eleven bytes of each name on the loader's path. */
  lemma PathNames(up: Upper)
    requires UpperOk(up)
    ensures ShortName(up, "EFI") == Some(EFI_NAME) == FatName(up, "EFI")
    ensures ShortName(up, "BOOT") == Some(BOOT_NAME) == FatName(up, "BOOT")
    ensures ShortName(up, "BOOTX64.EFI") == Some(LOADER_NAME) == FatName(up, "BOOTX64.EFI")
  {
    EfiNameIs(up);
    BootNameIs(up);
    LoaderNameIs(up);
  }

  lemma EfiNameIs(up: Upper)
    requires UpperOk(up)
    ensures ShortName(up, "EFI") == Some(EFI_NAME) == FatName(up, "EFI")
  {
    hide ShortName, FatName, UpperOk;
    NameIs(up, "EFI", "EFI", "", EFI_NAME);
  }

  lemma BootNameIs(up: Upper)
    requires UpperOk(up)
    ensures ShortName(up, "BOOT") == Some(BOOT_NAME) == FatName(up, "BOOT")
  {
    hide ShortName, FatName, UpperOk;
    NameIs(up, "BOOT", "BOOT", "", BOOT_NAME);
  }

  lemma LoaderNameIs(up: Upper)
    requires UpperOk(up)
    ensures ShortName(up, "BOOTX64.EFI") == Some(LOADER_NAME) == FatName(up, "BOOTX64.EFI")
  {
    hide ShortName, FatName, UpperOk;
    assert "BOOTX64" + "." + "EFI" == "BOOTX64.EFI";
    NameIs(up, "BOOTX64.EFI", "BOOTX64", "EFI", LOADER_NAME);
  }

  lemma NameIs(up: Upper, name: string, stem: string, ext: string, eleven: seq<byte>)
    requires UpperOk(up) && '.' !in stem && '.' !in ext && AllShortOk(stem) && AllShortOk(ext)
    requires 1 <= |stem| <= 8 && |ext| <= 3 && |eleven| == 11
    requires name == if ext == "" then stem else stem + "." + ext
    requires forall i | 0 <= i < 8 :: eleven[i] == if i < |stem| then stem[i] as int else 32
    requires forall i | 8 <= i < 11 :: eleven[i] == if i - 8 < |ext| then ext[i - 8] as int else 32
    ensures ShortName(up, name) == Some(eleven) == FatName(up, name)
  {
    StemOfDotted(stem, ext);
    assert Fits83(name);
    NamesAgree(up, name);
    hide Fits83, ShortName, FatName, UpperOk, Stem, Ext, AllShortOk;
    PaddedIs(stem, ext, eleven);
  }

  lemma PaddedIs(stem: string, ext: string, eleven: seq<byte>)
    requires |stem| <= 8 && |ext| <= 3 && |eleven| == 11 && AllAscii(LJust(stem, 8) + LJust(ext, 3))
    requires forall i | 0 <= i < 8 :: eleven[i] == if i < |stem| then stem[i] as int else 32
    requires forall i | 8 <= i < 11 :: eleven[i] == if i - 8 < |ext| then ext[i - 8] as int else 32
    ensures Ascii(LJust(stem, 8) + LJust(ext, 3)) == eleven
  {
    var s := LJust(stem, 8) + LJust(ext, 3);
    forall i | 0 <= i < 11 ensures Ascii(s)[i] == eleven[i] {
      if i < 8 {
        assert s[i] == LJust(stem, 8)[i];
        assert i < |stem| ==> LJust(stem, 8)[..|stem|][i] == stem[i];
      } else {
        assert s[i] == LJust(ext, 3)[i - 8];
        assert i - 8 < |ext| ==> LJust(ext, 3)[..|ext|][i - 8] == ext[i - 8];
      }
    }
  }

  /** A leading dot leaves the stem empty, so the dot entries of this volume carry
      names no reader takes for `.` and `..`. */
  lemma DotEntriesAreBlank(up: Upper)
    requires UpperOk(up)
    ensures FatName(up, ".") == Some(DOT_NAME) && DOT_NAME[0] != 0x2E
    ensures FatName(up, "..") == Some(DOTDOT_NAME) && DOTDOT_NAME[0] != 0x2E
  {
    assert Stem(".") == "" && Ext(".") == "" && Stem("..") == "";
    assert Ext("..") == ".";
    assert Uppercase(up, "") == "";
    UppercaseFixed(up, ".");
    assert Ascii(LJust("", 8) + LJust("", 3)) == DOT_NAME;
    assert Ascii(LJust("", 8) + LJust(".", 3)) == DOTDOT_NAME;
  }

  function Record(name: seq<byte>, attr: byte, cluster: nat, size: nat): (r: seq<byte>)
    requires |name| == 11
    ensures |r| == 32 && r[..11] == name && r[11] == attr
  {
    FlattenSix(name, [attr], Zeros(8), Le(cluster / 0x1_0000, 2), Zeros(4), Le(cluster % 0x1_0000, 2) + Le(size, 4));
    Flatten([name, [attr], Zeros(8), Le(cluster / 0x1_0000, 2), Zeros(4), Le(cluster % 0x1_0000, 2) + Le(size, 4)])
  }

  lemma RecordLayout(a: seq<byte>, b: seq<byte>, c: seq<byte>, d: seq<byte>, e: seq<byte>, f: seq<byte>)
    requires |a| == 11 && |b| == 1 && |c| == 8 && |d| == 2 && |e| == 4 && |f| == 6
    ensures var r := Flatten([a, b, c, d, e, f]);
            |r| == 32 && r[20..22] == d && r[26..28] == f[..2] && r[28..32] == f[2..]
  {
    FlattenSix(a, b, c, d, e, f);
  }

  lemma RecordFields(name: seq<byte>, attr: byte, cluster: nat, size: nat)
    requires |name| == 11 && cluster < 0x1_0000_0000 && size < 0x1_0000_0000
    ensures EntryCluster(Record(name, attr, cluster, size)) == cluster
    ensures EntrySize(Record(name, attr, cluster, size)) == size
  {
    var hi, low := Le(cluster / 0x1_0000, 2), Le(cluster % 0x1_0000, 2);
    RecordLayout(name, [attr], Zeros(8), hi, Zeros(4), low + Le(size, 4));
    Widths();
    LeRoundTrip(cluster / 0x1_0000, 2);
    LeRoundTrip(cluster % 0x1_0000, 2);
    LeRoundTrip(size, 4);
    assert (low + Le(size, 4))[..2] == low && (low + Le(size, 4))[2..] == Le(size, 4);
  }

  // ---- the FAT ---------------------------------------------------------------------------

  function FileClusters(n: nat): (r: nat)
    ensures r >= 1 && r * SECTOR >= n
  {
    Max(1, (n + SECTOR - 1) / SECTOR)
  }

  /** Root, /EFI and /EFI/BOOT take one cluster each, then the loader's chain. */
  function FatEntry(c: nat, files: nat): (r: nat) {
    if c == 0 then 0x0FFF_FFF8
    else if c <= 4 then EOC
    else if c < 5 + files - 1 then c + 1
    else if c == 5 + files - 1 then EOC
    else 0
  }

  function FatTable(entries: nat, files: nat): (r: seq<nat>)
    ensures |r| == entries && forall c | 0 <= c < entries :: r[c] == FatEntry(c, files)
  {
    seq(entries, c requires 0 <= c < entries => FatEntry(c, files))
  }

  method BuildFat(entries: nat, files: nat) returns (fat: seq<nat>)
    requires files >= 1 && 5 + files <= entries
    ensures fat == FatTable(entries, files)
  {
    fat := [0x0FFF_FFF8, EOC, EOC, EOC, EOC] + seq(entries - 5, _ => 0);
    for i := 0 to files
      invariant |fat| == entries
      invariant forall c | 0 <= c < entries ::
                  fat[c] == if c == 0 then 0x0FFF_FFF8 else if c <= 4 then EOC
                            else if c < 5 + i then FatEntry(c, files) else 0
    {
      fat := fat[5 + i := if i == files - 1 then EOC else 5 + i + 1];
    }
  }

  // ---- the partition ------------------------------------------------------------------------

  /** Sectors per FAT, clusters, and how many the loader takes. */
  datatype Esp = Esp(sectors: nat, spf: nat, clusters: nat, blob: seq<byte>)

  ghost predicate EspOk(e: Esp) {
    && e.clusters >= FatSizing.MIN_FAT32_CLUSTERS && e.sectors < 0x80_0000
    && FatSizing.RoomFor(e.spf, e.clusters) && FatSizing.Fits(e.sectors, RESERVED, 1, e.spf, e.clusters)
    && 5 + FileClusters(|e.blob|) - 1 <= e.clusters + 1
  }

  function DataStart(e: Esp): (r: nat) { (RESERVED + FatSizing.NUM_FATS * e.spf) * SECTOR }

  function ClusterOff(e: Esp, c: nat): (r: nat)
    requires c >= 2
  {
    DataStart(e) + (c - 2) * SECTOR
  }

  const OEM: seq<byte> := [0x45, 0x4D, 0x42, 0x4C, 0x49, 0x4E, 0x4B, 0x20]
  const LABEL: seq<byte> := [0x45, 0x4D, 0x42, 0x4C, 0x49, 0x4E, 0x4B, 0x45, 0x46, 0x49, 32]
  const FAT32_TAG: seq<byte> := [0x46, 0x41, 0x54, 0x33, 0x32, 0x20, 0x20, 0x20]

  function BootMiddle(e: Esp): (r: seq<byte>)
    ensures |r| == 19
  {
    Le(0, 2) + Le(0, 2) + [0xF8] + Le(0, 2) + Le(32, 2) + Le(8, 2) + Le(0, 4) + Le(e.sectors, 4)
  }

  function BootTail(): (r: seq<byte>)
    ensures |r| == 464
  {
    var numbers: seq<byte> := Le(1, 2) + Le(6, 2) + Zeros(12) + [0x80, 0, 0x29] + Le(0x454D_424B, 4);
    numbers + LABEL + FAT32_TAG + Zeros(420) + [0x55, 0xAA]
  }

  function BootParts(e: Esp): (r: seq<seq<byte>>)
    ensures |r| == 10
  {
    [ [0xEB, 0x58, 0x90] + OEM, Le(SECTOR, 2), [1], Le(RESERVED, 2), [FatSizing.NUM_FATS],
      BootMiddle(e), Le(e.spf, 4), Zeros(4), Le(2, 4), BootTail() ]
  }

  function BootSector(e: Esp): (r: seq<byte>) { Flatten(BootParts(e)) }

  function FsInfoHead(): (r: seq<byte>)
    ensures |r| == 488
  {
    [0x52, 0x52, 0x61, 0x41] + Zeros(480) + [0x72, 0x72, 0x41, 0x61]
  }

  /** Counts unknown: the firmware may recompute them. */
  function FsInfo(): (r: seq<byte>)
    ensures |r| == 512
  {
    FsInfoHead() + Le(0xFFFF_FFFF, 4) + Le(0xFFFF_FFFF, 4) + Zeros(14) + [0x55, 0xAA]
  }

  lemma BootOffsets(e: Esp)
    ensures var p := BootParts(e);
            && TotalLength(p[..1]) == 11 && TotalLength(p[..2]) == 13 && TotalLength(p[..3]) == 14
            && TotalLength(p[..4]) == 16 && TotalLength(p[..6]) == 36 && TotalLength(p[..8]) == 44
            && |BootSector(e)| == 512
  {
    var p := BootParts(e);
    hide Le, BootMiddle, BootTail, Flatten, TotalLength;
    assert |p[0]| == 11 && |p[5]| == 19 && |p[7]| == 4 && |p[9]| == 464;
    BootTotals(p);
  }

  lemma BootFields(e: Esp)
    requires e.spf < 0x1_0000_0000
    ensures var bs := BootSector(e);
            && |bs| == 512 && Get(bs, 11, 2) == SECTOR && bs[13] == 1 && Get(bs, 14, 2) == RESERVED
            && bs[16] == FatSizing.NUM_FATS && Get(bs, 36, 4) == e.spf && Get(bs, 44, 4) == 2
  {
    hide BootMiddle, BootTail, TotalLength, UnLe;
    var p := BootParts(e);
    BootOffsets(e);
    Widths();
    FieldAt(p, 1, 11, SECTOR, 2);
    PartAt(p, 2);
    FieldAt(p, 3, 14, RESERVED, 2);
    PartAt(p, 4);
    FieldAt(p, 6, 36, e.spf, 4);
    FieldAt(p, 8, 44, 2, 4);
    assert Flatten(p)[13..14][0] == 1 && Flatten(p)[16..17][0] == FatSizing.NUM_FATS;
  }

  function RootRecords(): (r: seq<seq<byte>>) { [Record(EFI_NAME, 0x10, 3, 0)] }

  function EfiRecords(): (r: seq<seq<byte>>) {
    [Record(DOT_NAME, 0x10, 3, 0), Record(DOTDOT_NAME, 0x10, 0, 0), Record(BOOT_NAME, 0x10, 4, 0)]
  }

  function BootRecords(size: nat): (r: seq<seq<byte>>) {
    [Record(DOT_NAME, 0x10, 4, 0), Record(DOTDOT_NAME, 0x10, 3, 0), Record(LOADER_NAME, 0x20, 5, size)]
  }

  /** Everything a reader of the loader's path needs is in place. */
  ghost predicate EspHolds(img: seq<byte>, e: Esp) {
    && |img| == e.sectors * SECTOR
    && Has(img, 0, BootSector(e)) && Has(img, SECTOR, FsInfo()) && Has(img, 6 * SECTOR, BootSector(e))
    && Has(img, RESERVED * SECTOR, RawFat(FatTable(e.spf * 128, FileClusters(|e.blob|))))
    && Has(img, ClusterOff(e, 2), Flatten(RootRecords()))
    && Has(img, ClusterOff(e, 3), Flatten(EfiRecords()))
    && Has(img, ClusterOff(e, 4), Flatten(BootRecords(|e.blob|)))
    && Has(img, ClusterOff(e, 5), e.blob)
  }

  datatype EspResult = EspImage(bytes: seq<byte>) | TooFewClusters | LoaderTooBig

  /** The sizes that keep the writes inside the image and apart from each other. */
  lemma EspSizes(e: Esp)
    requires EspOk(e)
    ensures |BootSector(e)| == SECTOR && |FsInfo()| == SECTOR
    ensures |RawFat(FatTable(e.spf * 128, FileClusters(|e.blob|)))| == e.spf * SECTOR
    ensures 5 + FileClusters(|e.blob|) <= e.spf * 128
    ensures |Flatten(RootRecords())| <= SECTOR && |Flatten(EfiRecords())| <= SECTOR
    ensures |Flatten(BootRecords(|e.blob|))| <= SECTOR
    ensures DataStart(e) <= ClusterOff(e, 5) + |e.blob| <= e.sectors * SECTOR
  {
    BootOffsets(e);
    ThreeRecords(Record(DOT_NAME, 0x10, 3, 0), Record(DOTDOT_NAME, 0x10, 0, 0), Record(BOOT_NAME, 0x10, 4, 0));
    ThreeRecords(Record(DOT_NAME, 0x10, 4, 0), Record(DOTDOT_NAME, 0x10, 3, 0), Record(LOADER_NAME, 0x20, 5, |e.blob|));
    OneRecord(Record(EFI_NAME, 0x10, 3, 0));
  }

  lemma OneRecord(a: seq<byte>)
    ensures Flatten([a]) == a
  {
    assert [a] == [a] + [];
    FlattenOne(a, []);
  }

  lemma ThreeRecords(a: seq<byte>, b: seq<byte>, c: seq<byte>)
    ensures Flatten([a, b, c]) == a + b + c
  {
    assert [a, b, c] == [a] + [b, c] && [b, c] == [b] + [c];
    FlattenOne(a, [b, c]);
    FlattenOne(b, [c]);
    OneRecord(c);
  }

  /** Lay out the partition in place. */
  method LayOut(e: Esp) returns (img: array<byte>)
    requires EspOk(e)
    ensures fresh(img) && EspHolds(img[..], e)
    ensures Has(img[..], (RESERVED + e.spf) * SECTOR, RawFat(FatTable(e.spf * 128, FileClusters(|e.blob|))))
  {
    hide EspOk, DataStart, ClusterOff, FatTable, RawFat, BootSector, FsInfo, RootRecords, EfiRecords, BootRecords;
    hide Flatten, Has, Holding, EspHolds, FileClusters;
    EspSizes(e);
    var fat := BuildFat(e.spf * 128, FileClusters(|e.blob|));
    img := new byte[e.sectors * SECTOR](_ => 0);
    ghost var ws := LayHeader(img, e, RawFat(fat));
    ws := LayData(img, e, ws);
    FromWrites(img[..], e, ws, ClusterOff(e, 5) + |e.blob|);
  }

  method LayHeader(img: array<byte>, e: Esp, raw: seq<byte>) returns (ghost ws: seq<Write>)
    requires img.Length >= DataStart(e) && |BootSector(e)| == |FsInfo()| == SECTOR && |raw| == e.spf * SECTOR
    modifies img
    ensures Holding(img[..], ws, DataStart(e))
    ensures ws == [Write(0, BootSector(e)), Write(SECTOR, FsInfo()), Write(6 * SECTOR, BootSector(e)),
                   Write(RESERVED * SECTOR, raw), Write((RESERVED + e.spf) * SECTOR, raw)]
  {
    hide BootSector, FsInfo, Holding;
    HoldingNothing(img[..]);
    ws := PokeNext(img, 0, BootSector(e), [], 0);
    ws := PokeNext(img, SECTOR, FsInfo(), ws, SECTOR);
    ws := PokeNext(img, 6 * SECTOR, BootSector(e), ws, 2 * SECTOR);
    ws := PokeNext(img, RESERVED * SECTOR, raw, ws, 7 * SECTOR);
    ws := PokeNext(img, (RESERVED + e.spf) * SECTOR, raw, ws, RESERVED * SECTOR + |raw|);
  }

  method LayData(img: array<byte>, e: Esp, ghost ws: seq<Write>) returns (ghost ws': seq<Write>)
    requires Holding(img[..], ws, DataStart(e)) && ClusterOff(e, 5) + |e.blob| <= img.Length
    requires |Flatten(RootRecords())| <= SECTOR && |Flatten(EfiRecords())| <= SECTOR
    requires |Flatten(BootRecords(|e.blob|))| <= SECTOR
    modifies img
    ensures ws' == ws + [Write(ClusterOff(e, 2), Flatten(RootRecords()))] + [Write(ClusterOff(e, 3), Flatten(EfiRecords()))]
                      + [Write(ClusterOff(e, 4), Flatten(BootRecords(|e.blob|)))] + [Write(ClusterOff(e, 5), e.blob)]
    ensures Holding(img[..], ws', ClusterOff(e, 5) + |e.blob|)
  {
    hide RootRecords, EfiRecords, BootRecords, Flatten, Holding;
    var root, efi, boot := Flatten(RootRecords()), Flatten(EfiRecords()), Flatten(BootRecords(|e.blob|));
    ws' := PokeNext(img, ClusterOff(e, 2), root, ws, DataStart(e));
    ws' := PokeNext(img, ClusterOff(e, 3), efi, ws', ClusterOff(e, 2) + |root|);
    ws' := PokeNext(img, ClusterOff(e, 4), boot, ws', ClusterOff(e, 3) + |efi|);
    ws' := PokeNext(img, ClusterOff(e, 5), e.blob, ws', ClusterOff(e, 4) + |boot|);
  }

  lemma FromWrites(img: seq<byte>, e: Esp, ws: seq<Write>, limit: nat)
    requires Holding(img, ws, limit) && |ws| == 9 && |img| == e.sectors * SECTOR
    requires ws[0] == Write(0, BootSector(e)) && ws[1] == Write(SECTOR, FsInfo()) && ws[2] == Write(6 * SECTOR, BootSector(e))
    requires ws[3] == Write(RESERVED * SECTOR, RawFat(FatTable(e.spf * 128, FileClusters(|e.blob|))))
    requires ws[4] == Write((RESERVED + e.spf) * SECTOR, RawFat(FatTable(e.spf * 128, FileClusters(|e.blob|))))
    requires ws[5] == Write(ClusterOff(e, 2), Flatten(RootRecords()))
    requires ws[6] == Write(ClusterOff(e, 3), Flatten(EfiRecords()))
    requires ws[7] == Write(ClusterOff(e, 4), Flatten(BootRecords(|e.blob|)))
    requires ws[8] == Write(ClusterOff(e, 5), e.blob)
    ensures EspHolds(img, e)
    ensures Has(img, (RESERVED + e.spf) * SECTOR, RawFat(FatTable(e.spf * 128, FileClusters(|e.blob|))))
  {
    hide FatTable, RawFat, BootSector, FsInfo, RootRecords, EfiRecords, BootRecords, Flatten, Has, ClusterOff, Holding;
    HoldingAt(img, ws, limit, 0); HoldingAt(img, ws, limit, 1); HoldingAt(img, ws, limit, 2);
    HoldingAt(img, ws, limit, 3); HoldingAt(img, ws, limit, 4);
    HoldingAt(img, ws, limit, 5); HoldingAt(img, ws, limit, 6);
    HoldingAt(img, ws, limit, 7); HoldingAt(img, ws, limit, 8);
  }

  // ---- the headers --------------------------------------------------------------------------

  function BootValues(e: Esp): (r: FatBoot.Values) {
    FatBoot.Values(1, 32, 32, 8, 0, e.sectors, e.spf, 0x454D_424B, LABEL)
  }

  lemma BootSectorIs(e: Esp)
    requires EspOk(e)
    ensures FatBoot.BootIs(BootSector(e), BootValues(e))
  {
    hide Le, UnLe, Flatten, FatBoot.BootIs, FatBoot.MiddleIs, FatBoot.TailIs;
    var v := BootValues(e);
    assert FatBoot.OEM_TEXT == OEM && FatBoot.TYPE_TEXT == FAT32_TAG;
    FatBoot.MiddleFields(BootMiddle(e), v);
    FatBoot.TailFields(BootTail(), v);
    FatBoot.PartsAreBoot(BootParts(e), v);
  }

  lemma FsInfoIs()
    ensures FatBoot.InfoIs(FsInfo(), 0xFFFF_FFFF, 0xFFFF_FFFF)
  {
    hide Le, UnLe;
    var fs := FsInfo();
    assert fs[488..492] == Le(0xFFFF_FFFF, 4) == fs[492..496];
    Widths();
    LeRoundTrip(0xFFFF_FFFF, 4);
  }

  /** The partition opens with a FAT32 boot sector for its size and FAT, an information sector
      that counts nothing, and the backup boot sector. */
  lemma EspIsFat32(img: seq<byte>, e: Esp)
    requires EspOk(e) && EspHolds(img, e)
    ensures FatBoot.HeaderIs(img, BootValues(e), 0xFFFF_FFFF, 0xFFFF_FFFF)
  {
    hide BootSector, FsInfo, RawFat, RootRecords, EfiRecords, BootRecords, Flatten, FatBoot.BootIs, FatBoot.InfoIs;
    BootSectorIs(e);
    BootOffsets(e);
    FsInfoIs();
  }

  /** A directory record as it lies at `at`. */
  predicate RecordAt(img: seq<byte>, at: nat, name: seq<byte>, attr: byte, cluster: nat, size: nat) {
    && at + 32 <= |img| && img[at..at + 11] == name && img[at + 11] == attr
    && Get(img, at + 20, 2) * 0x1_0000 + Get(img, at + 26, 2) == cluster && Get(img, at + 28, 4) == size
  }

  lemma RecordLies(img: seq<byte>, at: nat, name: seq<byte>, attr: byte, cluster: nat, size: nat)
    requires |name| == 11 && cluster < 0x1_0000_0000 && size < 0x1_0000_0000
    requires Has(img, at, Record(name, attr, cluster, size))
    ensures RecordAt(img, at, name, attr, cluster, size)
  {
    hide Record, Flatten, Get;
    var r := Record(name, attr, cluster, size);
    RecordFields(name, attr, cluster, size);
    assert img[at..at + 11] == img[at..at + 32][..11] && img[at + 11] == img[at..at + 32][11];
    GetInside(img, r, at, 20, 2);
    GetInside(img, r, at, 26, 2);
    GetInside(img, r, at, 28, 4);
  }

  lemma ThreeLie(img: seq<byte>, at: nat, a: seq<byte>, b: seq<byte>, c: seq<byte>)
    requires |a| == |b| == |c| == 32 && Has(img, at, Flatten([a, b, c]))
    ensures Has(img, at, a) && Has(img, at + 32, b) && Has(img, at + 64, c)
  {
    hide Has;
    ThreeRecords(a, b, c);
    HasSplit(img, at, a + b, c);
    HasSplit(img, at, a, b);
  }

  lemma DirectoryLies(img: seq<byte>, at: nat, here: nat, above: nat, name: seq<byte>, attr: byte, cluster: nat, size: nat)
    requires |name| == 11 && here < 0x100 && above < 0x100 && cluster < 0x100 && size < 0x1_0000_0000
    requires Has(img, at, Flatten([Record(DOT_NAME, 0x10, here, 0), Record(DOTDOT_NAME, 0x10, above, 0),
                                   Record(name, attr, cluster, size)]))
    ensures RecordAt(img, at, DOT_NAME, 0x10, here, 0) && RecordAt(img, at + 32, DOTDOT_NAME, 0x10, above, 0)
    ensures RecordAt(img, at + 64, name, attr, cluster, size)
  {
    hide Has, Flatten, RecordAt;
    var dot, dotdot, own := Record(DOT_NAME, 0x10, here, 0), Record(DOTDOT_NAME, 0x10, above, 0), Record(name, attr, cluster, size);
    hide Record;
    ThreeLie(img, at, dot, dotdot, own);
    RecordLies(img, at, DOT_NAME, 0x10, here, 0);
    RecordLies(img, at + 32, DOTDOT_NAME, 0x10, above, 0);
    RecordLies(img, at + 64, name, attr, cluster, size);
  }

  /** The three directories, record by record: a directory carries 0x10 and the loader 0x20, a
      dot entry leads to the directory it lies in or to the one above, and the root counts as 0. */
  lemma EspDirectories(img: seq<byte>, e: Esp)
    requires EspOk(e) && EspHolds(img, e)
    ensures RecordAt(img, ClusterOff(e, 2), EFI_NAME, 0x10, 3, 0)
    ensures RecordAt(img, ClusterOff(e, 3), DOT_NAME, 0x10, 3, 0)
    ensures RecordAt(img, ClusterOff(e, 3) + 32, DOTDOT_NAME, 0x10, 0, 0)
    ensures RecordAt(img, ClusterOff(e, 3) + 64, BOOT_NAME, 0x10, 4, 0)
    ensures RecordAt(img, ClusterOff(e, 4), DOT_NAME, 0x10, 4, 0)
    ensures RecordAt(img, ClusterOff(e, 4) + 32, DOTDOT_NAME, 0x10, 3, 0)
    ensures RecordAt(img, ClusterOff(e, 4) + 64, LOADER_NAME, 0x20, 5, |e.blob|)
  {
    hide EspHolds, EspOk, Has, ClusterOff, Flatten, Record, RecordAt;
    HoldsRecords(img, e);
    BlobBound(e);
    OneRecord(Record(EFI_NAME, 0x10, 3, 0));
    RecordLies(img, ClusterOff(e, 2), EFI_NAME, 0x10, 3, 0);
    DirectoryLies(img, ClusterOff(e, 3), 3, 0, BOOT_NAME, 0x10, 4, 0);
    DirectoryLies(img, ClusterOff(e, 4), 4, 3, LOADER_NAME, 0x20, 5, |e.blob|);
  }

  // ---- reading the loader back ------------------------------------------------------------

  function EspLayout(base: nat, e: Esp): (r: Layout) {
    Layout(base + RESERVED * SECTOR, base + DataStart(e), SECTOR, 2)
  }

  lemma BootParses(base: nat, e: Esp)
    requires e.spf < 0x1_0000_0000
    ensures |BootSector(e)| == 512 && ParseBootSector(base, BootSector(e)) == Some(EspLayout(base, e))
  {
    hide BootSector, ParseBootSector, Get;
    BootFields(e);
    ParsedFields(base, BootSector(e), SECTOR, 1, RESERVED, FatSizing.NUM_FATS, e.spf, 2);
  }

  lemma NextFrom(disk: seq<byte>, base: nat, e: Esp, c: nat, raw: seq<byte>, v: nat)
    requires ReadAt(disk, base + RESERVED * SECTOR + 4 * c, 4) == raw && |raw| == 4
    requires UnLe(raw) == v < 0x1000_0000
    ensures NextCluster(disk, EspLayout(base, e), c) == Some(v)
  {
    hide UnLe, ReadAt, Pow256;
    assert EspLayout(base, e).fatOff + c * 4 == base + RESERVED * SECTOR + 4 * c;
  }

  lemma EntryReads(disk: seq<byte>, base: nat, img: seq<byte>, e: Esp, raw: seq<byte>, c: nat, v: nat)
    requires Has(disk, base, img) && Has(img, RESERVED * SECTOR, raw) && 4 * c + 4 <= |raw|
    requires UnLe(raw[4 * c..4 * c + 4]) == v < 0x1000_0000
    ensures NextCluster(disk, EspLayout(base, e), c) == Some(v)
  {
    hide Has, ReadAt, NextCluster, UnLe, EspLayout;
    var word := raw[4 * c..4 * c + 4];
    WordReads(disk, base, img, RESERVED * SECTOR, raw, 4 * c);
    NextFrom(disk, base, e, c, word, v);
  }

  lemma ReadsEntry(disk: seq<byte>, base: nat, img: seq<byte>, e: Esp, c: nat)
    requires EspOk(e) && EspHolds(img, e) && Has(disk, base, img)
    requires c < 5 + FileClusters(|e.blob|)
    ensures NextCluster(disk, EspLayout(base, e), c) == Some(FatEntry(c, FileClusters(|e.blob|)))
  {
    EspSizes(e);
    var files := FileClusters(|e.blob|);
    var fat := FatTable(e.spf * 128, files);
    assert fat[c] == FatEntry(c, files) < 0x1000_0000;
    hide FatTable, RawFat, BootSector, RootRecords, EfiRecords, BootRecords, Flatten, Has, NextCluster, FileClusters, FatEntry;
    RawFatAt(fat, c);
    EntryReads(disk, base, img, e, RawFat(fat), c, fat[c]);
  }

  /** Directories are chains of one cluster; the loader's chain has its own length. */
  lemma ReadsContiguous(disk: seq<byte>, base: nat, img: seq<byte>, e: Esp, first: nat, n: nat)
    requires EspOk(e) && EspHolds(img, e) && Has(disk, base, img)
    requires (2 <= first <= 4 && n == 1) || (first == 5 && n == FileClusters(|e.blob|))
    ensures ContiguousInFat(disk, EspLayout(base, e), first, n)
  {
    hide EspHolds, Has, NextCluster, FileClusters;
    forall c | first <= c < first + n - 1 ensures NextCluster(disk, EspLayout(base, e), c) == Some(c + 1) {
      ReadsEntry(disk, base, img, e, c);
    }
    ReadsEntry(disk, base, img, e, first + n - 1);
  }

  /** What lies at the start of a chain is what the reader gets first. */
  lemma ReadsPrefix(disk: seq<byte>, base: nat, img: seq<byte>, e: Esp, first: nat, n: nat, blob: seq<byte>)
    requires EspOk(e) && EspHolds(img, e) && Has(disk, base, img)
    requires (2 <= first <= 4 && n == 1) || (first == 5 && n == FileClusters(|e.blob|))
    requires Has(img, ClusterOff(e, first), blob) && |blob| <= n * SECTOR
    ensures ChainBytes(disk, EspLayout(base, e), first).Some?
    ensures blob <= ChainBytes(disk, EspLayout(base, e), first).value
  {
    hide *;
    ReadsContiguous(disk, base, img, e, first, n);
    ChainExtent(img, e, base, first, n);
    PrefixOfChain(disk, base, img, EspLayout(base, e), first, n, ClusterOff(e, first), ClusterOff(e, first + n), blob);
  }

  lemma ChainExtent(img: seq<byte>, e: Esp, base: nat, first: nat, n: nat)
    requires EspOk(e) && EspHolds(img, e)
    requires (2 <= first <= 4 && n == 1) || (first == 5 && n == FileClusters(|e.blob|))
    ensures ClusterOff(e, first) + n * SECTOR == ClusterOff(e, first + n) <= |img|
    ensures Offset(EspLayout(base, e), first) == base + ClusterOff(e, first)
    ensures Offset(EspLayout(base, e), first + n) == base + ClusterOff(e, first + n)
  {
    hide FatTable, RawFat, BootSector, RootRecords, EfiRecords, BootRecords, Flatten, Has, FileClusters;
  }

  lemma PrefixOfChain(disk: seq<byte>, base: nat, img: seq<byte>, y: Layout, first: nat, n: nat, lo: nat, hi: nat, blob: seq<byte>)
    requires ContiguousInFat(disk, y, first, n) && Has(disk, base, img) && Has(img, lo, blob)
    requires first >= 2 && Offset(y, first) == base + lo && Offset(y, first + n) == base + hi
    requires lo + |blob| <= hi <= |img|
    ensures ChainBytes(disk, y, first).Some? && blob <= ChainBytes(disk, y, first).value
  {
    hide ContiguousInFat, ChainBytes, Offset;
    ContiguousBytes(disk, y, first, n);
    HasWithin(disk, base, img, lo, |blob|);
    assert disk[base + lo..base + hi][..|blob|] == disk[base + lo..base + lo + |blob|];
  }

  /** If the records of a directory's prefix hold a match, the scan finds it. */
  lemma {:induction false} ScanFinds(d: seq<byte>, o: nat, recs: seq<seq<byte>>, target: seq<byte>)
    requires Records(recs) && FirstMatch(recs, target).At?
    requires o + 32 * |recs| <= |d| && d[o..o + 32 * |recs|] == Flatten(recs)
    ensures Scan(d, o, Some(target)) == FirstMatch(recs, target)
    decreases recs
  {
    FirstSlice(d, o, recs);
    hide Flatten, Slice;
    if Judge(recs[0], Some(target)).Take? {
    } else {
      ScanFinds(d, o + 32, recs[1..], target);
    }
  }

  lemma FirstSlice(d: seq<byte>, o: nat, recs: seq<seq<byte>>)
    requires recs != [] && Records(recs)
    requires o + 32 * |recs| <= |d| && d[o..o + 32 * |recs|] == Flatten(recs)
    ensures Slice(d, o, o + 32) == recs[0]
    ensures d[o + 32..o + 32 + 32 * |recs[1..]|] == Flatten(recs[1..])
  {
    var all := d[o..o + 32 * |recs|];
    assert Slice(d, o, o + 32) == all[..32];
    assert d[o + 32..o + 32 + 32 * |recs[1..]|] == all[32..];
  }

  lemma MatchLast(a: seq<byte>, b: seq<byte>, c: seq<byte>, target: seq<byte>)
    requires forall r | r in [a, b, c] :: |r| == 32 && r[0] != 0 && r[0] != 0xE5 && r[11] % 16 != 15
    requires a[..11] != target && b[..11] != target && c[..11] == target
    ensures Records([a, b, c]) && FirstMatch([a, b, c], target) == At(c)
  {
    var recs := [a, b, c];
    assert a in recs && b in recs && c in recs;
    assert recs[1..] == [b, c] && [b, c][1..] == [c];
    assert FirstMatch([c], target) == At(c);
    assert FirstMatch([b, c], target) == At(c);
  }

  /** One directory on the way: the component is found and leads to `next`. */
  lemma OneStep(disk: seq<byte>, y: Layout, cluster: nat, size: Option<nat>, recs: seq<seq<byte>>, own: seq<byte>,
                target: seq<byte>, rest: seq<Option<seq<byte>>>)
    requires Records(recs) && FirstMatch(recs, target) == At(own) && |own| == 32
    requires ChainBytes(disk, y, cluster).Some? && Flatten(recs) <= ChainBytes(disk, y, cluster).value
    requires |Flatten(recs)| == 32 * |recs|
    ensures Resolve(disk, y, cluster, size, [Some(target)] + rest) ==
            Resolve(disk, y, EntryCluster(own), Some(EntrySize(own)), rest)
  {
    hide ChainBytes, FirstMatch, Flatten, EntryCluster, EntrySize;
    var d := ChainBytes(disk, y, cluster).value;
    assert d[0..0 + 32 * |recs|] == Flatten(recs);
    ScanFinds(d, 0, recs, target);
    assert ([Some(target)] + rest)[1..] == rest;
  }

  lemma RecordBytes(name: seq<byte>, attr: byte, cluster: nat, size: nat)
    requires |name| == 11
    ensures Record(name, attr, cluster, size)[0] == name[0]
  {
    assert Record(name, attr, cluster, size)[0] == Record(name, attr, cluster, size)[..11][0];
  }

  /** A directory's records hold exactly one match, which leads to `cluster`. */
  ghost predicate LeadsTo(recs: seq<seq<byte>>, target: seq<byte>, cluster: nat, size: nat) {
    && Records(recs) && |Flatten(recs)| == 32 * |recs| <= SECTOR
    && FirstMatch(recs, target).At?
    && EntryCluster(FirstMatch(recs, target).entry) == cluster && EntrySize(FirstMatch(recs, target).entry) == size
  }

  lemma RootLeads()
    ensures LeadsTo(RootRecords(), EFI_NAME, 3, 0)
  {
    var own := Record(EFI_NAME, 0x10, 3, 0);
    RecordBytes(EFI_NAME, 0x10, 3, 0);
    RecordFields(EFI_NAME, 0x10, 3, 0);
    OneRecord(own);
    hide Record, EntryCluster, EntrySize;
  }

  lemma ThreeLead(a: seq<byte>, b: seq<byte>, c: seq<byte>, target: seq<byte>)
    requires |a| == 32 && |b| == 32 && |c| == 32 && |target| == 11
    requires a[0] == 32 && b[0] == 32 && c[..11] == target && target[0] !in {0, 32, 0xE5}
    requires a[11] == 0x10 && b[11] == 0x10 && (c[11] == 0x10 || c[11] == 0x20)
    ensures LeadsTo([a, b, c], target, EntryCluster(c), EntrySize(c))
  {
    ThreeRecords(a, b, c);
    assert c[0] == c[..11][0] && a[0] == a[..11][0] && b[0] == b[..11][0];
    hide EntryCluster, EntrySize, FirstMatch;
    MatchLast(a, b, c, target);
  }

  lemma EfiLeads()
    ensures LeadsTo(EfiRecords(), BOOT_NAME, 4, 0)
  {
    RecordBytes(DOT_NAME, 0x10, 3, 0);
    RecordBytes(DOTDOT_NAME, 0x10, 0, 0);
    RecordFields(BOOT_NAME, 0x10, 4, 0);
    hide Record, LeadsTo, EntryCluster, EntrySize;
    ThreeLead(Record(DOT_NAME, 0x10, 3, 0), Record(DOTDOT_NAME, 0x10, 0, 0), Record(BOOT_NAME, 0x10, 4, 0), BOOT_NAME);
  }

  lemma BootLeads(n: nat)
    requires n < 0x1_0000_0000
    ensures LeadsTo(BootRecords(n), LOADER_NAME, 5, n)
  {
    RecordBytes(DOT_NAME, 0x10, 4, 0);
    RecordBytes(DOTDOT_NAME, 0x10, 3, 0);
    RecordFields(LOADER_NAME, 0x20, 5, n);
    hide Record, LeadsTo, EntryCluster, EntrySize;
    ThreeLead(Record(DOT_NAME, 0x10, 4, 0), Record(DOTDOT_NAME, 0x10, 3, 0), Record(LOADER_NAME, 0x20, 5, n), LOADER_NAME);
  }

  /** One component of the path, resolved in a directory of this partition. */
  lemma DirStep(disk: seq<byte>, base: nat, img: seq<byte>, e: Esp, dir: nat, size: Option<nat>,
                recs: seq<seq<byte>>, target: seq<byte>, cluster: nat, n: nat, rest: seq<Option<seq<byte>>>)
    requires EspOk(e) && EspHolds(img, e) && Has(disk, base, img)
    requires 2 <= dir <= 4 && Has(img, ClusterOff(e, dir), Flatten(recs)) && LeadsTo(recs, target, cluster, n)
    ensures Resolve(disk, EspLayout(base, e), dir, size, [Some(target)] + rest) ==
            Resolve(disk, EspLayout(base, e), cluster, Some(n), rest)
  {
    hide EspOk, EspHolds, Has, ClusterOff, Flatten, FirstMatch, Resolve, EspLayout, ChainBytes, EntryCluster, EntrySize;
    ReadsPrefix(disk, base, img, e, dir, 1, Flatten(recs));
    OneStep(disk, EspLayout(base, e), dir, size, recs, FirstMatch(recs, target).entry, target, rest);
  }

  lemma HoldsRecords(img: seq<byte>, e: Esp)
    requires EspHolds(img, e)
    ensures Has(img, ClusterOff(e, 2), Flatten(RootRecords()))
    ensures Has(img, ClusterOff(e, 3), Flatten(EfiRecords()))
    ensures Has(img, ClusterOff(e, 4), Flatten(BootRecords(|e.blob|)))
    ensures Has(img, ClusterOff(e, 5), e.blob) && Has(img, 0, BootSector(e))
  {
  }

  lemma FinishLoader(disk: seq<byte>, base: nat, img: seq<byte>, e: Esp)
    requires EspOk(e) && EspHolds(img, e) && Has(disk, base, img)
    ensures Resolve(disk, EspLayout(base, e), 5, Some(|e.blob|), []) == Contents(e.blob)
  {
    HoldsRecords(img, e);
    hide EspHolds, EspOk, Has, EspLayout, ChainBytes, ClusterOff;
    if |e.blob| > 0 {
      ReadsPrefix(disk, base, img, e, 5, FileClusters(|e.blob|), e.blob);
    }
  }

  /** `/EFI/BOOT/BOOTX64.EFI`, as the reader looks for it. */
  function LoaderPath(): (r: seq<Option<seq<byte>>>) {
    [Some(EFI_NAME), Some(BOOT_NAME), Some(LOADER_NAME)]
  }

  const LOADER_PATH: string := "/EFI/BOOT/BOOTX64.EFI"

  /** These are the bytes the reader compares the components of that path with. */
  lemma LoaderPathIs(up: Upper)
    requires UpperOk(up)
    ensures Components(LOADER_PATH, "") == ["EFI", "BOOT", "BOOTX64.EFI"]
    ensures Targets(up, Components(LOADER_PATH, "")) == LoaderPath()
  {
    hide ShortName, FatName, UpperOk, Targets, Components;
    LoaderComponents();
    PathNames(up);
    var targets := Targets(up, Components(LOADER_PATH, ""));
    assert targets[0] == Some(EFI_NAME) && targets[1] == Some(BOOT_NAME) && targets[2] == Some(LOADER_NAME);
  }

  lemma LoaderComponents()
    ensures Components(LOADER_PATH, "") == ["EFI", "BOOT", "BOOTX64.EFI"]
  {
    hide Components;
    var parts: seq<string> := ["EFI", "BOOT", "BOOTX64.EFI"];
    assert parts[1..] == ["BOOT", "BOOTX64.EFI"] && parts[1..][1..] == ["BOOTX64.EFI"] && parts[1..][1..][1..] == [];
    assert JoinPath(parts[1..][1..]) == "/" + "BOOTX64.EFI" + "";
    assert JoinPath(parts) == LOADER_PATH;
    SplitJoined(parts);
  }

  /** The system partition, wherever it lies, gives the loader back byte for byte. */
  lemma LoaderReadsBack(disk: seq<byte>, base: nat, img: seq<byte>, e: Esp)
    requires EspOk(e) && EspHolds(img, e) && Has(disk, base, img)
    ensures ReadVolume(disk, base, LoaderPath()) == Contents(e.blob)
  {
    hide EspHolds, EspOk, Has, EspLayout, BootSector, ParseBootSector, Resolve, ReadAt;
    hide LeadsTo, RootRecords, EfiRecords, BootRecords, Flatten, ClusterOff;
    HoldsRecords(img, e);
    LayoutReads(disk, base, img, e);
    var y, two, one := EspLayout(base, e), [Some(BOOT_NAME), Some(LOADER_NAME)], [Some(LOADER_NAME)];
    assert LoaderPath() == [Some(EFI_NAME)] + two && two == [Some(BOOT_NAME)] + one && one == [Some(LOADER_NAME)] + [];
    RootLeads();
    EfiLeads();
    BlobBound(e);
    BootLeads(|e.blob|);
    DirStep(disk, base, img, e, 2, None, RootRecords(), EFI_NAME, 3, 0, two);
    DirStep(disk, base, img, e, 3, Some(0), EfiRecords(), BOOT_NAME, 4, 0, one);
    DirStep(disk, base, img, e, 4, Some(0), BootRecords(|e.blob|), LOADER_NAME, 5, |e.blob|, []);
    FinishLoader(disk, base, img, e);
    RootIsTwo(base, e);
  }

  lemma LayoutReads(disk: seq<byte>, base: nat, img: seq<byte>, e: Esp)
    requires EspOk(e) && Has(img, 0, BootSector(e)) && Has(disk, base, img)
    ensures ParseBootSector(base, ReadAt(disk, base, 512)) == Some(EspLayout(base, e))
  {
    hide *;
    SizesFit(e);
    BootParses(base, e);
    HeadReads(disk, base, img, BootSector(e));
  }

  lemma SizesFit(e: Esp)
    requires EspOk(e)
    ensures e.spf < 0x1_0000_0000
  {
  }

  lemma HeadReads(disk: seq<byte>, base: nat, img: seq<byte>, boot: seq<byte>)
    requires Has(img, 0, boot) && Has(disk, base, img) && |boot| == 512
    ensures ReadAt(disk, base, 512) == boot
  {
    HasWithin(disk, base, img, 0, 512);
  }

  lemma BlobBound(e: Esp)
    requires EspOk(e)
    ensures |e.blob| < 0x1_0000_0000
  {
    EspSizes(e);
  }

  lemma RootIsTwo(base: nat, e: Esp)
    ensures EspLayout(base, e).root == 2
  {
  }

  function EspClusters(sectors: nat): (r: int) {
    FatSizing.Leftover(sectors, RESERVED, 1, FatSizing.SolvedFat(sectors, RESERVED, 1))
  }

  /** Build the system partition, or say why it cannot hold this loader. */
  method BuildEsp(sectors: nat, blob: seq<byte>) returns (r: EspResult, ghost e: Esp)
    requires sectors < 0x80_0000
    ensures r.EspImage? ==> e.blob == blob && e.sectors == sectors && EspOk(e) && EspHolds(r.bytes, e)
    ensures r.TooFewClusters? <==> EspClusters(sectors) < FatSizing.MIN_FAT32_CLUSTERS
    ensures r.LoaderTooBig? <==> EspClusters(sectors) >= FatSizing.MIN_FAT32_CLUSTERS &&
                                 5 + FileClusters(|blob|) - 1 > EspClusters(sectors) + 1
  {
    var spf, clusters, corrections := FatSizing.SolveBySectors(sectors, RESERVED, 1);
    e := Esp(sectors, spf, Max(0, clusters), blob);
    if clusters < FatSizing.MIN_FAT32_CLUSTERS { return TooFewClusters, e; }
    if 5 + FileClusters(|blob|) - 1 > clusters + 1 { return LoaderTooBig, e; }
    var img := LayOut(Esp(sectors, spf, clusters, blob));
    return EspImage(img[..]), e;
  }
}
