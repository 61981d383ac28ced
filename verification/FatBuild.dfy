/** Building the whole boot partition, and what the result gives back to any reader of
    the format, wherever it lies on a disk. */
module FatBuild {
  import opened Bytes
  import opened DiskBytes
  import opened FatNames
  import opened FatReader
  import opened FatTree
  import opened FatFormat
  import opened FatPlan
  import opened FatWriter
  import opened FatRoundTrip
  import opened FatListing
  import FatSizing

  datatype Built = Image(bytes: seq<byte>) | TooSmall | VolumeFull | NamesExhausted

  /** The clusters a volume of this many sectors ends up with. */
  function VolumeClusters(sectors: nat): (r: int) {
    FatSizing.Leftover(sectors, RESERVED, SEC_PER_CLUS, FatSizing.SolvedFat(sectors, RESERVED, SEC_PER_CLUS))
  }

  /** Build the whole boot partition: it succeeds exactly when the volume is FAT32
      by cluster count and the tree fits, and what it builds reads back, file by file and
      directory by directory. */
  method BuildBootPartition(up: Upper, entries: seq<Entry>, sectors: nat, hidden: nat) returns (r: Built)
    requires TreeOk(up, entries, true) && sectors <= 0x80_0000 && hidden < 0x1_0000_0000
    ensures r.Image? ==> |r.bytes| == sectors * SECTOR && ReadsAs(up, r.bytes, entries)
    ensures r.Image? && UpperOk(up) ==> ListsAs(up, r.bytes, entries)
    ensures r.TooSmall? <==> VolumeClusters(sectors) < FatSizing.MIN_FAT32_CLUSTERS
    ensures r.Image? ==> TotalClusters(entries) <= VolumeClusters(sectors)
    ensures r.VolumeFull? ==> TotalClusters(entries) > VolumeClusters(sectors)
    ensures r.NamesExhausted? ==> Crowded(entries)
  {
    hide FatOk, DataOk, Finished, DirLaid, TreeOk, ReadsAs, ListsAs, UpperOk, Has, DirBytes, OwnSum, BelowSum, Crowded, Extends;
    var fatSectors, clusters, corrections := FatSizing.SolveByBytes(sectors, RESERVED, SEC_PER_CLUS);
    if clusters < FatSizing.MIN_FAT32_CLUSTERS { return TooSmall; }
    var v := new Fat32(Geometry(sectors, hidden, fatSectors, clusters));
    var root := v.Alloc(DirBytes(entries));
    if root.None? { return VolumeFull; }
    assert root.value == 2 && Reserved(entries, 2, v.log);
    var status, plans := v.AddDir(up, entries, 2, None);
    if status.Full? { return VolumeFull; }
    if status.NoShortName? { return NamesExhausted; }
    v.HeaderSizes();
    v.Finish();
    var image := v.img[..];
    HasItself(image);
    FinishedReadsAs(up, image, v.g, v.fat, v.next, v.log, entries, plans);
    if UpperOk(up) { FinishedListsAs(up, image, v.g, v.fat, v.next, v.log, entries, plans); }
    return Image(image);
  }

  lemma HasItself(image: seq<byte>)
    ensures Has(image, 0, image)
  {
  }

  lemma FinishedReadsAs(up: Upper, image: seq<byte>, g: Geometry, fat: seq<nat>, next: nat, l: Log,
                        entries: seq<Entry>, plans: seq<Plan>)
    requires OnDisk(image, 0, image, g, fat, next, l) && DirLaid(up, entries, 2, None, plans, l) && TreeOk(up, entries, true)
    ensures ReadsAs(up, image, entries)
  {
    hide GeometryOk, FatOk, DataOk, Finished, DirLaid, TreeOk, TargetsOk, Lookup, ReadVolume, Has;
    forall disk: seq<byte>, base: nat, targets: seq<Option<seq<byte>>>
      | Has(disk, base, image) && targets != [] && TargetsOk(targets) && Lookup(up, entries, true, targets).Plain?
      ensures ReadVolume(disk, base, targets) == Lookup(up, entries, true, targets).outcome
    {
      VolumeRoundTrip(up, disk, base, image, g, fat, next, l, entries, plans, targets);
    }
  }

  lemma FinishedListsAs(up: Upper, image: seq<byte>, g: Geometry, fat: seq<nat>, next: nat, l: Log,
                        entries: seq<Entry>, plans: seq<Plan>)
    requires UpperOk(up)
    requires OnDisk(image, 0, image, g, fat, next, l) && DirLaid(up, entries, 2, None, plans, l) && TreeOk(up, entries, true)
    ensures ListsAs(up, image, entries)
  {
    hide GeometryOk, FatOk, DataOk, Finished, DirLaid, TreeOk, VolumeShows, Has, UpperOk, Listable;
    forall disk: seq<byte>, base: nat, at: seq<nat> | Has(disk, base, image) && Listable(up, entries, at)
      ensures VolumeShows(up, disk, base, entries, at)
    {
      VolumeLists(up, disk, base, image, g, fat, next, l, entries, plans, at);
    }
  }
}
