/** The GPT disk around the system partition, and the whole way back: from the GPT
    header to the loader's bytes. Identifiers and the checksum are arguments. */
module GptDisk {
  import opened Bytes
  import opened DiskBytes
  import opened FatReader
  import opened UefiDisk
  import opened FatNames

  const ESP_SECTORS := 131072          // 64 MiB
  const FIRST_LBA := 2048
  const GPT_ENTRIES := 128
  const GPT_ENTRY_SZ := 128
  const ENTRY_SECTORS := 32
  const ESP_TYPE: seq<byte> := [0xC1, 0x2A, 0x73, 0x28, 0xF8, 0x1F, 0x11, 0xD2, 0xBA, 0x4B, 0x00, 0xA0, 0xC9, 0x3E, 0xC9, 0x3B]
  const DATA_TYPE: seq<byte> := [0x0F, 0xC6, 0x3D, 0xAF, 0x84, 0x83, 0x47, 0x72, 0x8E, 0x79, 0x3D, 0x69, 0xD8, 0x47, 0x7D, 0xE4]

  type Guid = g: seq<byte> | |g| == 16 witness Zeros(16)

  /** Mixed endian: three little-endian fields, then eight bytes as they are. */
  function OnDiskGuid(u: Guid): (r: Guid)
    ensures r[8..] == u[8..]
  {
    [u[3], u[2], u[1], u[0], u[5], u[4], u[7], u[6]] + u[8..]
  }

  lemma GuidInvolution(u: Guid)
    ensures OnDiskGuid(OnDiskGuid(u)) == u
  {
    var r := OnDiskGuid(OnDiskGuid(u));
    assert r[8..] == u[8..];
    assert forall i | 0 <= i < 8 :: r[i] == u[i];
    assert forall i | 8 <= i < 16 :: r[i] == r[8..][i - 8] && u[i] == u[8..][i - 8];
  }

  /** What the build does not determine itself. */
  datatype Ids = Ids(disk: Guid, esp: Guid, root: Guid)
  type Word = n: nat | n < 0x1_0000_0000
  type Checksum = seq<byte> -> Word

  // ---- the tables ----------------------------------------------------------------------

  function Utf16Le(s: string): (r: seq<byte>)
    requires forall i | 0 <= i < |s| :: s[i] < 128 as char
  {
    if s == "" then [] else [s[0] as int, 0] + Utf16Le(s[1..])
  }

  function NameField(s: string): (r: seq<byte>)
    requires forall i | 0 <= i < |s| :: s[i] < 128 as char
    ensures |r| == 72
  {
    (Utf16Le(s) + Zeros(72))[..72]
  }

  function EntryParts(kind: Guid, id: Guid, first: nat, last: nat, name: seq<byte>): (r: seq<seq<byte>>) {
    [OnDiskGuid(kind), OnDiskGuid(id), Le(first, 8), Le(last, 8) + Le(0, 8), name]
  }

  function PartitionEntry(kind: Guid, id: Guid, first: nat, last: nat, name: seq<byte>): (r: seq<byte>) {
    Flatten(EntryParts(kind, id, first, last, name))
  }

  lemma EntryFields(kind: Guid, id: Guid, first: nat, last: nat, name: seq<byte>)
    requires |name| == 72 && first < Pow256(8)
    ensures var e := PartitionEntry(kind, id, first, last, name);
            |e| == 128 && e[..16] == OnDiskGuid(kind) && e[16..32] == OnDiskGuid(id) && Get(e, 32, 8) == first
  {
    var p := EntryParts(kind, id, first, last, name);
    hide OnDiskGuid, Le;
    assert p[..0] == [] && p[..5] == p;
    TotalSnoc(p, 0); TotalSnoc(p, 1); TotalSnoc(p, 2); TotalSnoc(p, 3); TotalSnoc(p, 4);
    FlattenLength(p);
    PartAt(p, 0);
    PartAt(p, 1);
    FieldAt(p, 2, 32, first, 8);
  }

  function RootSectors(root: Option<seq<byte>>): (r: nat)
    ensures root.Some? ==> |root.value| <= r * 512
  {
    match root case None => 0 case Some(b) => (|b| + 511) / 512
  }

  function TotalSectors(root: Option<seq<byte>>): (r: nat) {
    FIRST_LBA + ESP_SECTORS + RootSectors(root) + 2048
  }

  function FirstEntry(ids: Ids): (r: seq<byte>) {
    PartitionEntry(ESP_TYPE, ids.esp, FIRST_LBA, FIRST_LBA + ESP_SECTORS - 1, NameField("EFI System"))
  }

  function SecondEntry(ids: Ids, root: Option<seq<byte>>): (r: seq<byte>) {
    var start := FIRST_LBA + ESP_SECTORS;
    if root.None? then Zeros(GPT_ENTRY_SZ)
    else PartitionEntry(DATA_TYPE, ids.root, start, Max(0, start + RootSectors(root) - 1), NameField("EMBKFS root"))
  }

  function EntryArray(ids: Ids, root: Option<seq<byte>>): (r: seq<byte>) {
    FirstEntry(ids) + SecondEntry(ids, root) + Zeros((GPT_ENTRIES - 2) * GPT_ENTRY_SZ)
  }

  lemma FirstEntryShape(ids: Ids)
    ensures |FirstEntry(ids)| == GPT_ENTRY_SZ
    ensures FirstEntry(ids)[..16] == OnDiskGuid(ESP_TYPE) && FirstEntry(ids)[16..32] == OnDiskGuid(ids.esp)
    ensures Get(FirstEntry(ids), 32, 8) == FIRST_LBA
  {
    Widths();
    hide PartitionEntry, NameField, UnLe, OnDiskGuid;
    EntryFields(ESP_TYPE, ids.esp, FIRST_LBA, FIRST_LBA + ESP_SECTORS - 1, NameField("EFI System"));
  }

  lemma SecondEntrySize(ids: Ids, root: Option<seq<byte>>)
    ensures |SecondEntry(ids, root)| == GPT_ENTRY_SZ
  {
    Widths();
    hide PartitionEntry, NameField, UnLe, OnDiskGuid, RootSectors;
    if root.Some? {
      var start := FIRST_LBA + ESP_SECTORS;
      EntryFields(DATA_TYPE, ids.root, start, Max(0, start + RootSectors(root) - 1), NameField("EMBKFS root"));
    }
  }

  lemma ArrayShape(ids: Ids, root: Option<seq<byte>>)
    ensures |FirstEntry(ids)| == GPT_ENTRY_SZ && |EntryArray(ids, root)| == ENTRY_SECTORS * 512
    ensures EntryArray(ids, root)[..GPT_ENTRY_SZ] == FirstEntry(ids)
  {
    hide FirstEntry, SecondEntry;
    FirstEntryShape(ids);
    SecondEntrySize(ids, root);
  }

  function HeaderParts(my: nat, alt: nat, entriesLba: nat, lastUsable: nat, id: Guid, headerSum: nat, arraySum: nat)
    : (r: seq<seq<byte>>)
  {
    [ GPT_MAGIC, Le(0x1_0000, 4) + Le(92, 4) + Le(headerSum, 4) + Le(0, 4),
      Le(my, 8) + Le(alt, 8) + Le(2 + ENTRY_SECTORS, 8) + Le(lastUsable, 8), OnDiskGuid(id),
      Le(entriesLba, 8), Le(GPT_ENTRIES, 4), Le(GPT_ENTRY_SZ, 4), Le(arraySum, 4) + Zeros(420) ]
  }

  /** The checksum covers the 92 header bytes with its own field still zero. */
  function Header(my: nat, alt: nat, entriesLba: nat, lastUsable: nat, id: Guid, crc: Checksum, ents: seq<byte>)
    : (r: seq<byte>)
  {
    var blank := Flatten(HeaderParts(my, alt, entriesLba, lastUsable, id, 0, crc(ents)));
    Flatten(HeaderParts(my, alt, entriesLba, lastUsable, id, crc(Slice(blank, 0, 92)), crc(ents)))
  }

  lemma HeaderFields(my: nat, alt: nat, entriesLba: nat, lastUsable: nat, id: Guid, headerSum: nat, arraySum: nat)
    requires entriesLba < Pow256(8)
    ensures var h := Flatten(HeaderParts(my, alt, entriesLba, lastUsable, id, headerSum, arraySum));
            && |h| == 512 && h[..8] == GPT_MAGIC && Get(h, 72, 8) == entriesLba
            && Get(h, 80, 4) == GPT_ENTRIES && Get(h, 84, 4) == GPT_ENTRY_SZ
  {
    var p := HeaderParts(my, alt, entriesLba, lastUsable, id, headerSum, arraySum);
    HeaderOffsets(my, alt, entriesLba, lastUsable, id, headerSum, arraySum);
    hide HeaderParts, TotalLength, UnLe, Flatten;
    Widths();
    PartAt(p, 0);
    FieldAt(p, 4, 72, entriesLba, 8);
    FieldAt(p, 5, 80, GPT_ENTRIES, 4);
    FieldAt(p, 6, 84, GPT_ENTRY_SZ, 4);
  }

  lemma HeaderOffsets(my: nat, alt: nat, entriesLba: nat, lastUsable: nat, id: Guid, headerSum: nat, arraySum: nat)
    ensures var p := HeaderParts(my, alt, entriesLba, lastUsable, id, headerSum, arraySum);
            && |p| == 8 && p[0] == GPT_MAGIC && p[4] == Le(entriesLba, 8) && p[5] == Le(GPT_ENTRIES, 4) && p[6] == Le(GPT_ENTRY_SZ, 4)
            && TotalLength(p[..0]) == 0 && TotalLength(p[..4]) == 72 && TotalLength(p[..5]) == 80 && TotalLength(p[..6]) == 84
            && |Flatten(p)| == 512
  {
    var p := HeaderParts(my, alt, entriesLba, lastUsable, id, headerSum, arraySum);
    hide Le, OnDiskGuid;
    assert p[..0] == [] && p[..8] == p;
    assert |p[1]| == 16 && |p[2]| == 32 && |p[7]| == 424;
    TotalSnoc(p, 0); TotalSnoc(p, 1); TotalSnoc(p, 2); TotalSnoc(p, 3);
    TotalSnoc(p, 4); TotalSnoc(p, 5); TotalSnoc(p, 6); TotalSnoc(p, 7);
    FlattenLength(p);
  }

  function MbrTail(span: nat): (r: seq<byte>)
    ensures |r| == 66
  {
    [0, 0, 2, 0, 0xEE, 0xFF, 0xFF, 0xFF] + Le(1, 4) + Le(span, 4) + Zeros(48) + [0x55, 0xAA]
  }

  function ProtectiveMbr(total: nat): (r: seq<byte>)
    ensures |r| == 512
  {
    Zeros(446) + MbrTail(if 0 < total <= 0x1_0000_0000 then total - 1 else 0xFFFF_FFFF)
  }

  // ---- the disk ---------------------------------------------------------------------------

  function BackupEntriesLba(root: Option<seq<byte>>): (r: nat) { TotalSectors(root) - 1 - ENTRY_SECTORS }

  function PrimaryHeader(ids: Ids, crc: Checksum, root: Option<seq<byte>>): (r: seq<byte>) {
    Header(1, TotalSectors(root) - 1, 2, BackupEntriesLba(root) - 1, ids.disk, crc, EntryArray(ids, root))
  }

  function BackupHeader(ids: Ids, crc: Checksum, root: Option<seq<byte>>): (r: seq<byte>) {
    Header(TotalSectors(root) - 1, 1, BackupEntriesLba(root), BackupEntriesLba(root) - 1, ids.disk, crc, EntryArray(ids, root))
  }

  /** Where each piece of the disk goes, in rising order and without overlap. */
  function Pieces(ids: Ids, crc: Checksum, esp: seq<byte>, root: Option<seq<byte>>): (r: seq<Write>)
    ensures |r| == 7
  {
    var total, backup := TotalSectors(root), BackupEntriesLba(root);
    [ Write(0, ProtectiveMbr(total)), Write(512, PrimaryHeader(ids, crc, root)), Write(1024, EntryArray(ids, root)),
      Write(FIRST_LBA * 512, esp),
      Write((FIRST_LBA + ESP_SECTORS) * 512, match root case None => [] case Some(b) => b),
      Write(backup * 512, EntryArray(ids, root)), Write((total - 1) * 512, BackupHeader(ids, crc, root)) ]
  }

  ghost predicate Ordered(ws: seq<Write>, size: nat) {
    && (forall i | 0 <= i < |ws| - 1 :: ws[i].off + |ws[i].blob| <= ws[i + 1].off)
    && (forall i | 0 <= i < |ws| :: ws[i].off + |ws[i].blob| <= size)
  }

  /** Primary tables, partitions and backup tables are pairwise disjoint and inside. */
  lemma PiecesOrdered(ids: Ids, crc: Checksum, esp: seq<byte>, root: Option<seq<byte>>)
    requires |esp| == ESP_SECTORS * 512
    ensures Ordered(Pieces(ids, crc, esp, root), TotalSectors(root) * 512)
  {
    hide PrimaryHeader, BackupHeader, EntryArray, ProtectiveMbr, Ordered;
    PieceSizes(ids, crc, root);
    ConsecutiveIsOrdered(Pieces(ids, crc, esp, root), TotalSectors(root) * 512);
  }

  lemma PieceSizes(ids: Ids, crc: Checksum, root: Option<seq<byte>>)
    ensures |PrimaryHeader(ids, crc, root)| == 512 && |BackupHeader(ids, crc, root)| == 512
    ensures |EntryArray(ids, root)| == ENTRY_SECTORS * 512
  {
    hide PrimaryHeader, BackupHeader, EntryArray;
    ArrayShape(ids, root);
    PrimarySize(ids, crc, root);
    BackupSize(ids, crc, root);
  }

  lemma PrimarySize(ids: Ids, crc: Checksum, root: Option<seq<byte>>)
    ensures |PrimaryHeader(ids, crc, root)| == 512
  {
    hide Header, EntryArray;
    HeaderSize(1, TotalSectors(root) - 1, 2, BackupEntriesLba(root) - 1, ids.disk, crc, EntryArray(ids, root));
  }

  lemma BackupSize(ids: Ids, crc: Checksum, root: Option<seq<byte>>)
    ensures |BackupHeader(ids, crc, root)| == 512
  {
    hide Header, EntryArray;
    HeaderSize(TotalSectors(root) - 1, 1, BackupEntriesLba(root), BackupEntriesLba(root) - 1, ids.disk, crc, EntryArray(ids, root));
  }

  lemma ConsecutiveIsOrdered(ws: seq<Write>, size: nat)
    requires |ws| == 7
    requires ws[0].off + |ws[0].blob| <= ws[1].off && ws[1].off + |ws[1].blob| <= ws[2].off
    requires ws[2].off + |ws[2].blob| <= ws[3].off && ws[3].off + |ws[3].blob| <= ws[4].off
    requires ws[4].off + |ws[4].blob| <= ws[5].off && ws[5].off + |ws[5].blob| <= ws[6].off
    requires ws[6].off + |ws[6].blob| <= size
    ensures Ordered(ws, size)
  {
  }

  lemma HeaderSize(my: nat, alt: nat, lba: nat, last: nat, id: Guid, crc: Checksum, ents: seq<byte>)
    ensures |Header(my, alt, lba, last, id, crc, ents)| == 512
  {
    var blank := Flatten(HeaderParts(my, alt, lba, last, id, 0, crc(ents)));
    HeaderOffsets(my, alt, lba, last, id, crc(Slice(blank, 0, 92)), crc(ents));
  }

  /** Write pieces that lie in rising order into a buffer. */
  method PlacePieces(img: array<byte>, pieces: seq<Write>)
    requires Ordered(pieces, img.Length)
    modifies img
    ensures Holding(img[..], pieces, img.Length)
  {
    hide Holding, Has;
    HoldingNothing(img[..]);
    ghost var done: seq<Write> := [];
    ghost var limit: nat := 0;
    assert pieces[..0] == [];
    for i := 0 to |pieces|
      invariant done == pieces[..i] && Holding(img[..], done, limit) && limit <= img.Length
      invariant i < |pieces| ==> limit <= pieces[i].off
    {
      done := PokeNext(img, pieces[i].off, pieces[i].blob, done, limit);
      limit := pieces[i].off + |pieces[i].blob|;
      assert pieces[..i + 1] == pieces[..i] + [pieces[i]];
    }
    assert pieces[..|pieces|] == pieces;
    HoldingWider(img[..], done, limit, img.Length);
  }

  lemma HoldingWider(img: seq<byte>, ws: seq<Write>, limit: nat, wider: nat)
    requires Holding(img, ws, limit) && limit <= wider
    ensures Holding(img, ws, wider)
  {
  }

  method GptImage(ids: Ids, crc: Checksum, esp: seq<byte>, root: Option<seq<byte>>) returns (disk: seq<byte>)
    requires |esp| == ESP_SECTORS * 512
    ensures |disk| == TotalSectors(root) * 512
    ensures Holding(disk, Pieces(ids, crc, esp, root), |disk|)
  {
    PiecesOrdered(ids, crc, esp, root);
    hide Ordered, Pieces, Holding, TotalSectors;
    var img := new byte[TotalSectors(root) * 512](_ => 0);
    PlacePieces(img, Pieces(ids, crc, esp, root));
    disk := img[..];
  }

  // ---- and back -----------------------------------------------------------------------------

  lemma EspTypeIsUsed()
    ensures OnDiskGuid(ESP_TYPE) != Zeros(16)
  {
    assert OnDiskGuid(ESP_TYPE)[0] == 0x28;
  }

  /** The reader finds the system partition where the writer put it. */
  lemma FindsPartition(disk: seq<byte>, ids: Ids, crc: Checksum, root: Option<seq<byte>>)
    requires Has(disk, 512, PrimaryHeader(ids, crc, root)) && Has(disk, 1024, EntryArray(ids, root))
    ensures FirstPartition(disk) == Some(FIRST_LBA)
  {
    hide Header, EntryArray, FirstEntry, OnDiskGuid, Get, Has, FirstPartition;
    var ents := EntryArray(ids, root);
    ArrayShape(ids, root);
    FirstEntryShape(ids);
    Widths();
    HeaderReads(disk, 1, TotalSectors(root) - 1, 2, BackupEntriesLba(root) - 1, ids.disk, crc, ents);
    EspTypeIsUsed();
    FirstEntryUsed(ents, FirstEntry(ids));
    TablesLead(disk, ents, FIRST_LBA);
  }

  lemma TablesLead(disk: seq<byte>, ents: seq<byte>, lba: nat)
    requires Has(disk, 1024, ents) && |ents| == ENTRY_SECTORS * 512
    requires FirstUsed(ents, 0, GPT_ENTRIES, GPT_ENTRY_SZ) == Some(lba)
    requires var hdr := ReadAt(disk, 512, 92);
             && |hdr| == 92 && Slice(hdr, 0, 8) == GPT_MAGIC && Get(hdr, 72, 8) == 2
             && Get(hdr, 80, 4) == GPT_ENTRIES && Get(hdr, 84, 4) == GPT_ENTRY_SZ
    ensures FirstPartition(disk) == Some(lba)
  {
    hide Get, FirstUsed;
    assert ReadAt(disk, 1024, ENTRY_SECTORS * 512) == ents;
    assert 2 * 512 == 1024 && GPT_ENTRIES * GPT_ENTRY_SZ == ENTRY_SECTORS * 512;
  }

  lemma FirstEntryUsed(ents: seq<byte>, e: seq<byte>)
    requires |ents| == ENTRY_SECTORS * 512 && |e| == GPT_ENTRY_SZ && ents[..GPT_ENTRY_SZ] == e
    requires e[..16] != Zeros(16)
    ensures FirstUsed(ents, 0, GPT_ENTRIES, GPT_ENTRY_SZ) == Some(Get(e, 32, 8))
  {
    assert GptEntry(ents, 0, GPT_ENTRY_SZ) == e;
    assert Slice(e, 0, 16) == e[..16];
  }

  lemma HeaderReads(disk: seq<byte>, my: nat, alt: nat, lba: nat, last: nat, id: Guid, crc: Checksum, ents: seq<byte>)
    requires lba < Pow256(8) && Has(disk, 512, Header(my, alt, lba, last, id, crc, ents))
    ensures var hdr := ReadAt(disk, 512, 92);
            && |hdr| == 92 && Slice(hdr, 0, 8) == GPT_MAGIC && Get(hdr, 72, 8) == lba
            && Get(hdr, 80, 4) == GPT_ENTRIES && Get(hdr, 84, 4) == GPT_ENTRY_SZ
  {
    var blank := Flatten(HeaderParts(my, alt, lba, last, id, 0, crc(ents)));
    HeaderFields(my, alt, lba, last, id, crc(Slice(blank, 0, 92)), crc(ents));
    var h := Header(my, alt, lba, last, id, crc, ents);
    hide *;
    HeaderSectorReads(disk, h, lba);
  }

  lemma HeaderSectorReads(disk: seq<byte>, h: seq<byte>, lba: nat)
    requires |h| == 512 && Has(disk, 512, h) && h[..8] == GPT_MAGIC && Get(h, 72, 8) == lba
    requires Get(h, 80, 4) == GPT_ENTRIES && Get(h, 84, 4) == GPT_ENTRY_SZ
    ensures var hdr := ReadAt(disk, 512, 92);
            && |hdr| == 92 && Slice(hdr, 0, 8) == GPT_MAGIC && Get(hdr, 72, 8) == lba
            && Get(hdr, 80, 4) == GPT_ENTRIES && Get(hdr, 84, 4) == GPT_ENTRY_SZ
  {
    hide Get;
    HasWithin(disk, 512, h, 0, 92);
    var hdr := ReadAt(disk, 512, 92);
    assert hdr == h[0..92];
    GetInside(h, hdr, 0, 72, 8);
    GetInside(h, hdr, 0, 80, 4);
    GetInside(h, hdr, 0, 84, 4);
  }

  predicate IsEspEntry(disk: seq<byte>, at: nat, ids: Ids) {
    && at + 32 <= |disk|
    && OnDiskGuid(disk[at..at + 16]) == ESP_TYPE && OnDiskGuid(disk[at + 16..at + 32]) == ids.esp
  }

  /** Undoing the mixed byte order gives the type and the identifier back: the first
      entry, in both tables, is the EFI system partition with the id it was given. */
  lemma GuidsReadBack(disk: seq<byte>, ids: Ids, crc: Checksum, esp: seq<byte>, root: Option<seq<byte>>, backup: bool)
    requires Holding(disk, Pieces(ids, crc, esp, root), |disk|)
    ensures IsEspEntry(disk, if backup then BackupEntriesLba(root) * 512 else 1024, ids)
  {
    hide *;
    BothTables(disk, ids, crc, esp, root);
    TableGuids(disk, if backup then BackupEntriesLba(root) * 512 else 1024, ids, root);
  }

  lemma BothTables(disk: seq<byte>, ids: Ids, crc: Checksum, esp: seq<byte>, root: Option<seq<byte>>)
    requires Holding(disk, Pieces(ids, crc, esp, root), |disk|)
    ensures Has(disk, 1024, EntryArray(ids, root)) && Has(disk, BackupEntriesLba(root) * 512, EntryArray(ids, root))
  {
    hide Holding, EntryArray, Has, PrimaryHeader, BackupHeader, ProtectiveMbr, TotalSectors, BackupEntriesLba;
    var ws := Pieces(ids, crc, esp, root);
    assert ws[2] == Write(1024, EntryArray(ids, root));
    assert ws[5] == Write(BackupEntriesLba(root) * 512, EntryArray(ids, root));
    hide Pieces;
    HoldingAt(disk, ws, |disk|, 2);
    HoldingAt(disk, ws, |disk|, 5);
  }

  lemma TableGuids(disk: seq<byte>, at: nat, ids: Ids, root: Option<seq<byte>>)
    requires Has(disk, at, EntryArray(ids, root))
    ensures IsEspEntry(disk, at, ids)
  {
    hide EntryArray, FirstEntry, OnDiskGuid, Has;
    var ents := EntryArray(ids, root);
    ArrayShape(ids, root);
    FirstEntryShape(ids);
    HasWithin(disk, at, ents, 0, 16);
    HasWithin(disk, at, ents, 16, 16);
    assert ents[0..16] == ents[..GPT_ENTRY_SZ][..16] && ents[16..32] == ents[..GPT_ENTRY_SZ][16..32];
    GuidInvolution(ESP_TYPE);
    GuidInvolution(ids.esp);
  }

  /** From the first sector to the loader: the disk reads back what was put in. */
  lemma DiskRoundTrip(disk: seq<byte>, ids: Ids, crc: Checksum, esp: seq<byte>, root: Option<seq<byte>>, e: Esp)
    requires Holding(disk, Pieces(ids, crc, esp, root), |disk|)
    requires EspOk(e) && EspHolds(esp, e)
    ensures ReadDisk(disk, LoaderPath()) == Contents(e.blob)
  {
    hide ProtectiveMbr, BackupHeader, TotalSectors, BackupEntriesLba;
    var ws := Pieces(ids, crc, esp, root);
    hide Holding, EspOk, EspHolds, Has, FirstPartition, ReadVolume, PrimaryHeader, EntryArray;
    HoldingAt(disk, ws, |disk|, 1);
    HoldingAt(disk, ws, |disk|, 2);
    HoldingAt(disk, ws, |disk|, 3);
    FindsPartition(disk, ids, crc, root);
    LoaderReadsBack(disk, FIRST_LBA * 512, esp, e);
  }

  /** The whole build: a stick that gives the loader back under its path, whatever
      root payload travels with it, or the reason the loader does not fit. */
  method MakeDisk(ids: Ids, crc: Checksum, efi: seq<byte>, root: Option<seq<byte>>)
    returns (disk: Option<seq<byte>>)
    ensures disk.Some? ==> |disk.value| == TotalSectors(root) * 512
    ensures disk.Some? ==> forall up: Upper | UpperOk(up) ::
              ReadDisk(disk.value, Targets(up, Components(LOADER_PATH, ""))) == Contents(efi)
    ensures disk.Some? && root.Some? ==> Has(disk.value, (FIRST_LBA + ESP_SECTORS) * 512, root.value)
    ensures disk.None? <==> FileClusters(|efi|) > 128989
  {
    hide EspOk, EspHolds, ReadDisk, Holding, Pieces, Has, TotalSectors;
    var r, e := BuildEsp(ESP_SECTORS, efi);
    EspCapacity();
    if !r.EspImage? { return None; }
    EspIsWhole(r.bytes, e);
    var img := GptImage(ids, crc, r.bytes, root);
    DiskRoundTrip(img, ids, crc, r.bytes, root, e);
    RootIsThere(img, ids, crc, r.bytes, root);
    forall up: Upper | UpperOk(up)
      ensures ReadDisk(img, Targets(up, Components(LOADER_PATH, ""))) == Contents(efi)
    {
      LoaderPathIs(up);
    }
    return Some(img);
  }

  /** A 64 MiB system partition always has FAT32's cluster count. */
  lemma EspCapacity()
    ensures EspClusters(ESP_SECTORS) == 128992
  {
  }

  lemma EspIsWhole(img: seq<byte>, e: Esp)
    requires EspHolds(img, e)
    ensures |img| == e.sectors * 512
  {
  }

  lemma RootIsThere(disk: seq<byte>, ids: Ids, crc: Checksum, esp: seq<byte>, root: Option<seq<byte>>)
    requires Holding(disk, Pieces(ids, crc, esp, root), |disk|)
    ensures root.Some? ==> Has(disk, (FIRST_LBA + ESP_SECTORS) * 512, root.value)
  {
    hide Holding, EntryArray, Has, PrimaryHeader, BackupHeader, ProtectiveMbr, TotalSectors, BackupEntriesLba;
    var ws := Pieces(ids, crc, esp, root);
    assert root.Some? ==> ws[4] == Write((FIRST_LBA + ESP_SECTORS) * 512, root.value);
    hide Pieces;
    HoldingAt(disk, ws, |disk|, 4);
  }
}
