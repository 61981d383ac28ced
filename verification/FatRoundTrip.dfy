/** Writer and reader undo each other: every path lookup in the bytes of a finished
    volume answers what the directory tree itself answers. */
module FatRoundTrip {
  import opened Bytes
  import opened FatNames
  import opened LongNames
  import opened FatReader
  import opened FatTree
  import opened DiskBytes
  import opened FatFormat
  import opened FatPlan
  import FatSizing

  /** A finished volume lying at `base` of some disk. */
  ghost predicate OnDisk(disk: seq<byte>, base: nat, img: seq<byte>, g: Geometry, fat: seq<nat>, next: nat, l: Log) {
    && GeometryOk(g) && |fat| == g.clusters + 2 && |img| == g.sectors * SECTOR
    && FatOk(fat, next, l.chains) && DataOk(img, g, next, l.chains, l.content)
    && Finished(img, g, fat, next) && Has(disk, base, img)
  }

  function VolumeLayout(base: nat, g: Geometry): (r: Layout) {
    Layout(base + FatStart(g, 0), base + DataStart(g), CLUSTER, 2)
  }

  lemma BootParses(base: nat, g: Geometry)
    requires g.fatSectors < 0x1_0000_0000
    ensures |BootSector(g)| == 512 && ParseBootSector(base, BootSector(g)) == Some(VolumeLayout(base, g))
  {
    hide BootSector, BootParts, Get, ParseBootSector;
    BootFields(g);
    ParsedFields(base, BootSector(g), SECTOR, SEC_PER_CLUS, RESERVED, FatSizing.NUM_FATS, g.fatSectors, 2);
    assert RESERVED * SECTOR == FatStart(g, 0) && SEC_PER_CLUS * SECTOR == CLUSTER;
  }

  /** The reader takes the writer's geometry from the boot sector. */
  lemma ReadsLayout(disk: seq<byte>, base: nat, img: seq<byte>, g: Geometry, fat: seq<nat>, next: nat, l: Log)
    requires OnDisk(disk, base, img, g, fat, next, l)
    ensures ParseBootSector(base, ReadAt(disk, base, 512)) == Some(VolumeLayout(base, g))
  {
    hide FatOk, DataOk, BootSector, FsInfo, ParseBootSector, VolumeLayout, RawFat;
    BootParses(base, g);
    HasWithin(disk, base, img, 0, 512);
  }

  /** The FAT entry the reader unpacks is the one the writer packed. */
  lemma EntryReads(disk: seq<byte>, base: nat, img: seq<byte>, g: Geometry, raw: seq<byte>, c: nat, v: nat)
    requires Has(disk, base, img) && Has(img, FatStart(g, 0), raw) && 4 * c + 4 <= |raw|
    requires UnLe(raw[4 * c..4 * c + 4]) == v < 0x1000_0000
    ensures NextCluster(disk, VolumeLayout(base, g), c) == Some(v)
  {
    hide *;
    var word := raw[4 * c..4 * c + 4];
    WordReads(disk, base, img, FatStart(g, 0), raw, 4 * c);
    NextFrom(disk, base, g, c, word, v);
  }

  lemma NextFrom(disk: seq<byte>, base: nat, g: Geometry, c: nat, raw: seq<byte>, v: nat)
    requires ReadAt(disk, base + FatStart(g, 0) + 4 * c, 4) == raw && |raw| == 4
    requires UnLe(raw) == v < 0x1000_0000
    ensures NextCluster(disk, VolumeLayout(base, g), c) == Some(v)
  {
    hide UnLe, ReadAt, FatStart, Pow256;
    assert VolumeLayout(base, g).fatOff + c * 4 == base + FatStart(g, 0) + 4 * c;
  }

  lemma ReadsEntry(disk: seq<byte>, base: nat, img: seq<byte>, g: Geometry, fat: seq<nat>, next: nat, l: Log, c: nat)
    requires OnDisk(disk, base, img, g, fat, next, l) && c < |fat| && fat[c] < 0x1000_0000
    ensures NextCluster(disk, VolumeLayout(base, g), c) == Some(fat[c])
  {
    hide FatOk, DataOk, HeaderIn, Has, NextCluster, GeometryOk;
    RawFatAt(fat, c);
    EntryReads(disk, base, img, g, RawFat(fat), c, fat[c]);
  }

  lemma ReadsContiguous(disk: seq<byte>, base: nat, img: seq<byte>, g: Geometry, fat: seq<nat>, next: nat, l: Log, a: nat)
    requires OnDisk(disk, base, img, g, fat, next, l) && a in l.chains
    ensures ContiguousInFat(disk, VolumeLayout(base, g), a, l.chains[a])
  {
    hide DataOk, Finished, Has, NextCluster;
    var n := l.chains[a];
    assert ChainInFat(fat, a, n) && a + n <= next;
    forall c | a <= c < a + n - 1 ensures NextCluster(disk, VolumeLayout(base, g), c) == Some(c + 1) {
      ReadsEntry(disk, base, img, g, fat, next, l, c);
    }
    ReadsEntry(disk, base, img, g, fat, next, l, a + n - 1);
  }

  /** Following a chain yields what was written to it, padded with zeros. */
  lemma ReadsChain(disk: seq<byte>, base: nat, img: seq<byte>, g: Geometry, fat: seq<nat>, next: nat, l: Log, a: nat)
    requires OnDisk(disk, base, img, g, fat, next, l) && a in l.chains && a in l.content
    ensures |l.content[a]| <= l.chains[a] * CLUSTER
    ensures ChainBytes(disk, VolumeLayout(base, g), a) ==
            Some(l.content[a] + Zeros(l.chains[a] * CLUSTER - |l.content[a]|))
  {
    hide FatOk, Finished, ContiguousInFat, ChainBytes, Has;
    ReadsContiguous(disk, base, img, g, fat, next, l, a);
    assert ChainHolds(img, g, a, l.chains[a], Written(l.content, a));
    SliceReads(disk, base, img, g, a, l.chains[a], l.content[a]);
  }

  lemma SliceReads(disk: seq<byte>, base: nat, img: seq<byte>, g: Geometry, a: nat, n: nat, data: seq<byte>)
    requires Has(disk, base, img) && ChainHolds(img, g, a, n, data)
    requires ContiguousInFat(disk, VolumeLayout(base, g), a, n)
    ensures ChainBytes(disk, VolumeLayout(base, g), a) == Some(data + Zeros(n * CLUSTER - |data|))
  {
    var y := VolumeLayout(base, g);
    var lo, hi := ClusterOffset(g, a), ClusterOffset(g, a + n);
    assert Offset(y, a) == base + lo && Offset(y, a + n) == base + hi;
    HasWithin(disk, base, img, lo, hi - lo);
    hide ContiguousInFat, ChainBytes;
    ContiguousBytes(disk, y, a, n);
  }

  // ---- scanning a directory ------------------------------------------------------------------

  lemma {:induction false} FirstMatchAppend(a: seq<seq<byte>>, b: seq<seq<byte>>, target: seq<byte>)
    requires Records(a) && Sized(b)
    ensures Sized(a + b)
    ensures FirstMatch(a + b, target) == if FirstMatch(a, target).At? then FirstMatch(a, target) else FirstMatch(b, target)
  {
    if a == [] {
      assert a + b == b;
    } else {
      FirstMatchAppend(a[1..], b, target);
      assert (a + b)[0] == a[0] && (a + b)[1..] == a[1..] + b;
    }
  }

  /** Long-name records are stepped over. */
  lemma {:induction false} LongPartSkipped(recs: seq<seq<byte>>, sum: byte, target: seq<byte>)
    requires forall i | 0 <= i < |recs| :: LongShape(recs[i], sum)
    ensures Records(recs) && FirstMatch(recs, target) == NotThere
  {
    if recs == [] {
    } else {
      LongPartSkipped(recs[1..], sum, target);
      assert LongShape(recs[0], sum);
    }
  }

  lemma FirstMatchOne(rec: seq<byte>, target: seq<byte>)
    requires |rec| == 32 && rec[0] != 0 && rec[0] != 0xE5 && rec[11] % 16 != 15
    ensures Records([rec])
    ensures FirstMatch([rec], target) == if rec[..11] == target then At(rec) else NotThere
  {
    assert FirstMatch([rec][1..], target) == NotThere;
  }

  function OwnRecord(e: Entry, short: string, first: nat): (r: seq<byte>)
    requires ShortShape(short)
    ensures |r| == 32 && r[..11] == Eleven(short) && (r[11] == 0x10 || r[11] == 0x20)
    ensures r[0] == Eleven(short)[0]
  {
    var r := Dirent(Eleven(short), KindOf(e.node), first, SizeField(e.node));
    assert r[0] == r[..11][0];
    r
  }

  /** An entry's records match its own short name and nothing else. */
  lemma EntryMatch(e: Entry, short: string, first: nat, target: seq<byte>)
    requires NameOk(e.name) && ShortShape(short)
    ensures Records(EntryRecords(e, short, first))
    ensures FirstMatch(EntryRecords(e, short, first), target) ==
            if Eleven(short) == target then At(OwnRecord(e, short, first)) else NotThere
  {
    hide *;
    var longs, own := LongPart(e.name, short), OwnRecord(e, short, first);
    EntryRecordsAre(e, short, first);
    LongPartSkipped(longs, ChecksumFrom(0, Eleven(short)), target);
    FirstMatchOne(own, target);
    FirstMatchAppend(longs, [own], target);
    RecordsAppend(longs, [own]);
  }

  lemma EntryRecordsAre(e: Entry, short: string, first: nat)
    requires NameOk(e.name) && ShortShape(short)
    ensures EntryRecords(e, short, first) == LongPart(e.name, short) + [OwnRecord(e, short, first)]
    ensures forall i | 0 <= i < |LongPart(e.name, short)| ::
              LongShape(LongPart(e.name, short)[i], ChecksumFrom(0, Eleven(short)))
    ensures forall rec | Records([rec]) :: Sized([rec])
  {
    if !Fits83(e.name) { LongEntriesShape(e.name, Eleven(short)); }
  }

  lemma RecordsAppend(a: seq<seq<byte>>, b: seq<seq<byte>>)
    requires Records(a) && Records(b)
    ensures Records(a + b)
  {
  }

  lemma {:induction false} BodyMatch(es: seq<Entry>, ss: seq<string>, fs: seq<nat>, target: seq<byte>)
    requires Named(es, ss) && |fs| == |es|
    ensures Records(Body(es, ss, fs))
    ensures FirstMatch(Body(es, ss, fs), target) ==
            match FirstIndex(ss, target)
            case None => NotThere
            case Some(k) => At(OwnRecord(es[k], ss[k], fs[k]))
    decreases |es|
  {
    if es == [] {
    } else {
      hide Body, EntryRecords, FirstMatch, Records, Dirent;
      var n := |es| - 1;
      BodySnoc(es, ss, fs, n);
      BodyMatch(es[..n], ss[..n], fs[..n], target);
      EntryMatch(es[n], ss[n], fs[n], target);
      var a, b := Body(es[..n], ss[..n], fs[..n]), EntryRecords(es[n], ss[n], fs[n]);
      FirstMatchAppend(a, b, target);
      RecordsAppend(a, b);
      ShapeIsAscii(ss[n]);
    }
  }

  /** A target no heading record can match outside the root. */
  ghost predicate TargetsOk(targets: seq<Option<seq<byte>>>) {
    forall i | 0 <= i < |targets| :: targets[i].Some? ==> |targets[i].value| == 11 && targets[i].value[0] != 0x2E
  }

  lemma LabelMatch(target: seq<byte>)
    ensures Records(Heading(2, None))
    ensures FirstMatch(Heading(2, None), target) ==
            if target == LABEL then At(Dirent(LABEL, ATTR_VOLUME, 0, 0)) else NotThere
  {
    var rec := Dirent(LABEL, ATTR_VOLUME, 0, 0);
    assert rec[0] == rec[..11][0] == LABEL[0];
    FirstMatchOne(rec, target);
  }

  lemma DotsMatch(cluster: nat, parent: nat, target: seq<byte>)
    requires |target| == 11 && target[0] != 0x2E
    ensures Records(Heading(cluster, Some(parent)))
    ensures FirstMatch(Heading(cluster, Some(parent)), target) == NotThere
  {
    var one, two := Dirent(DOT, ATTR_DIR, cluster, 0), Dirent(DOTDOT, ATTR_DIR, parent, 0);
    assert one[0] == one[..11][0] == 0x2E && two[0] == two[..11][0] == 0x2E;
    assert DOT != target && DOTDOT != target;
    FirstMatchOne(one, target);
    FirstMatchOne(two, target);
    FirstMatchAppend([one], [two], target);
    assert [one] + [two] == [one, two];
    RecordsAppend([one], [two]);
  }

  /** What scanning a laid directory finds for an 11-byte target. */
  function Hit(up: Upper, entries: seq<Entry>, root: bool, firsts: seq<nat>, target: seq<byte>): (r: Found)
    requires ShortsOf(up, entries).Some? && Named(entries, ShortsOf(up, entries).value)
    requires |firsts| == |entries|
  {
    if root && target == LABEL then At(Dirent(LABEL, ATTR_VOLUME, 0, 0))
    else
      match FirstIndex(ShortsOf(up, entries).value, target)
      case None => NotThere
      case Some(k) => At(OwnRecord(entries[k], ShortsOf(up, entries).value[k], firsts[k]))
  }

  lemma RecordsMatch(up: Upper, entries: seq<Entry>, cluster: nat, parent: Option<nat>, firsts: seq<nat>, target: seq<byte>)
    requires ShortsOf(up, entries).Some? && Named(entries, ShortsOf(up, entries).value)
    requires |firsts| == |entries| && |target| == 11 && target[0] != 0x2E
    ensures var recs := DirRecords(up, entries, cluster, parent, firsts);
            && Records(recs) && recs != [] && FirstMatch(recs, target) == Hit(up, entries, parent.None?, firsts, target)
  {
    var body := Body(entries, ShortsOf(up, entries).value, firsts);
    BodyMatch(entries, ShortsOf(up, entries).value, firsts, target);
    match parent {
      case None => LabelMatch(target);
      case Some(p) => DotsMatch(cluster, p, target);
    }
    hide Body, Dirent;
    FirstMatchAppend(Heading(cluster, parent), body, target);
    RecordsAppend(Heading(cluster, parent), body);
  }

  lemma ScanPadded(recs: seq<seq<byte>>, target: seq<byte>, total: nat)
    requires Records(recs) && |Flatten(recs)| == 32 * |recs| <= total
    ensures Scan(Flatten(recs) + Zeros(total - |Flatten(recs)|), 0, Some(target)) == FirstMatch(recs, target)
  {
    hide Flatten, FirstMatch, Scan;
    var blob := Flatten(recs);
    var d := blob + Zeros(total - |blob|);
    assert d[0..0 + 32 * |recs|] == blob;
    ScanRecords(d, 0, recs, target);
  }

  /** A directory that has been laid and read back scans as its records. */
  lemma ScanLaid(up: Upper, entries: seq<Entry>, cluster: nat, parent: Option<nat>, firsts: seq<nat>,
                 target: seq<byte>, total: nat)
    requires ShortsOf(up, entries).Some? && Named(entries, ShortsOf(up, entries).value)
    requires |firsts| == |entries| && |target| == 11 && target[0] != 0x2E
    requires |Flatten(DirRecords(up, entries, cluster, parent, firsts))| ==
             32 * |DirRecords(up, entries, cluster, parent, firsts)| <= total
    ensures var blob := Flatten(DirRecords(up, entries, cluster, parent, firsts));
            Scan(blob + Zeros(total - |blob|), 0, Some(target)) == Hit(up, entries, parent.None?, firsts, target)
  {
    hide DirRecords, Hit, Flatten, FirstMatch, Scan, Records, ShortsOf, Named;
    RecordsMatch(up, entries, cluster, parent, firsts, target);
    ScanPadded(DirRecords(up, entries, cluster, parent, firsts), target, total);
  }

  // ---- a directory that outgrows its chain ------------------------------------------------------

  lemma {:induction false} RecordStarts(recs: seq<seq<byte>>, i: nat)
    requires Records(recs) && i < |recs|
    ensures 32 * i < |Flatten(recs)| && Flatten(recs)[32 * i] == recs[i][0] != 0
  {
    if i == 0 {
    } else {
      RecordStarts(recs[1..], i - 1);
    }
  }

  /** When the names ask for more than was reserved, the records run on into the
      clusters behind the chain: the chain that starts there, a subdirectory still to
      be written or a file, no longer holds what it held unless those bytes happen to
      agree; if it was still empty they never do, and behind the last chain free clusters stop
      being zero. Chains the write does not reach are untouched. */
  lemma OverrunSpoils(up: Upper, img: seq<byte>, g: Geometry, fat: seq<nat>, next: nat, l: Log,
                      entries: seq<Entry>, cluster: nat, parent: Option<nat>, firsts: seq<nat>)
    requires FatOk(fat, next, l.chains) && DataOk(img, g, next, l.chains, l.content) && Reserved(entries, cluster, l)
    requires ShortsOf(up, entries).Some? && Named(entries, ShortsOf(up, entries).value) && |firsts| == |entries|
    requires !RoomOk(entries, parent.None?)
    requires cluster >= 2
    requires ClusterOffset(g, cluster) + |Flatten(DirRecords(up, entries, cluster, parent, firsts))| <= |img|
    ensures var blob, n := Flatten(DirRecords(up, entries, cluster, parent, firsts)), l.chains[cluster];
            var img', behind := Splice(img, ClusterOffset(g, cluster), blob), cluster + n;
            && |blob| > n * CLUSTER
            && Overwritten(img, img', g, l.chains, l.content, cluster, blob)
            && (behind in l.chains && behind !in l.content ==> !ChainHolds(img', g, behind, l.chains[behind], []))
            && (behind == next ==> img'[ClusterOffset(g, next)] != 0)
            && (forall c | c in l.chains && (c < cluster || ClusterOffset(g, c) >= ClusterOffset(g, cluster) + |blob|) ::
                  ChainHolds(img', g, c, l.chains[c], Written(l.content, c)))
  {
    hide *;
    var blob, n := Flatten(DirRecords(up, entries, cluster, parent, firsts)), ReservedLength(entries, cluster, l);
    OverrunLength(up, entries, cluster, parent, firsts, n);
    OverlongWrite(img, g, next, l.chains, l.content, cluster, blob);
    HoldsAfter(img, Splice(img, ClusterOffset(g, cluster), blob), g, l, cluster, blob);
    SpillShows(img, g, cluster, n, blob, next);
    if cluster + n in l.chains && cluster + n !in l.content {
      EmptyIsSpoilt(img, g, fat, next, l, cluster, n, blob);
    }
    forall c | c in l.chains && (c < cluster || ClusterOffset(g, c) >= ClusterOffset(g, cluster) + |blob|)
      ensures ChainHolds(Splice(img, ClusterOffset(g, cluster), blob), g, c, l.chains[c], Written(l.content, c))
    {
      NotReached(img, g, fat, next, l, cluster, blob, c);
    }
  }

  lemma HoldsAfter(was: seq<byte>, img: seq<byte>, g: Geometry, l: Log, a: nat, blob: seq<byte>)
    requires Overwritten(was, img, g, l.chains, l.content, a, blob)
    ensures a >= 2 && forall c | c in l.chains && c != a ::
              && c >= 2 && ClusterOffset(g, c + l.chains[c]) <= |was|
              && ChainHolds(was, g, c, l.chains[c], Written(l.content, c))
              && (ChainHolds(img, g, c, l.chains[c], Written(l.content, c)) <==>
                  SameWhereWritten(was, g, a, blob, c, l.chains[c]))
  {
  }

  function ReservedLength(entries: seq<Entry>, cluster: nat, l: Log): (n: nat)
    requires Reserved(entries, cluster, l)
    ensures cluster in l.chains && n == l.chains[cluster] == Clusters(DirBytes(entries))
  {
    l.chains[cluster]
  }

  lemma OverrunLength(up: Upper, entries: seq<Entry>, cluster: nat, parent: Option<nat>, firsts: seq<nat>, n: nat)
    requires ShortsOf(up, entries).Some? && Named(entries, ShortsOf(up, entries).value) && |firsts| == |entries|
    requires !RoomOk(entries, parent.None?) && n == Clusters(DirBytes(entries))
    ensures var blob := Flatten(DirRecords(up, entries, cluster, parent, firsts));
            |blob| > n * CLUSTER && blob[n * CLUSTER] != 0
  {
    hide Flatten, DirRecords, RoomOk, EndMarked, ShortsOf, Named, Hit, FirstMatch, Clusters, DirBytes, Records;
    DirRecordsFit(up, entries, cluster, parent, firsts);
    RecordsMatch(up, entries, cluster, parent, firsts, LABEL);
    RecordStarts(DirRecords(up, entries, cluster, parent, firsts), 32 * n);
  }

  lemma SpillShows(img: seq<byte>, g: Geometry, a: nat, n: nat, blob: seq<byte>, next: nat)
    requires a >= 2 && |blob| > n * CLUSTER && blob[n * CLUSTER] != 0 && ClusterOffset(g, a) + |blob| <= |img|
    ensures ClusterOffset(g, a + n) < |img|
    ensures a + n == next ==> Splice(img, ClusterOffset(g, a), blob)[ClusterOffset(g, next)] != 0
  {
  }

  lemma EmptyIsSpoilt(img: seq<byte>, g: Geometry, fat: seq<nat>, next: nat, l: Log, a: nat, n: nat, blob: seq<byte>)
    requires FatOk(fat, next, l.chains)
    requires a >= 2 && |blob| > n * CLUSTER && blob[n * CLUSTER] != 0 && ClusterOffset(g, a) + |blob| <= |img|
    requires a + n in l.chains
    ensures !ChainHolds(Splice(img, ClusterOffset(g, a), blob), g, a + n, l.chains[a + n], [])
  {
    hide ChainHolds, Covered;
    var img', lo := Splice(img, ClusterOffset(g, a), blob), ClusterOffset(g, a + n);
    assert ChainInFat(fat, a + n, l.chains[a + n]);
    assert img'[lo] == blob[n * CLUSTER];
    EmptyStartsZero(img', g, a + n, l.chains[a + n]);
  }

  lemma EmptyStartsZero(img: seq<byte>, g: Geometry, a: nat, n: nat)
    requires n >= 1 && a >= 2 && ClusterOffset(g, a) < |img| && img[ClusterOffset(g, a)] != 0
    ensures !ChainHolds(img, g, a, n, [])
  {
    if ClusterOffset(g, a + n) <= |img| {
      var span := img[ClusterOffset(g, a)..ClusterOffset(g, a + n)];
      assert span[0] != 0 && ([] + Zeros(n * CLUSTER))[0] == 0;
    }
  }

  lemma NotReached(img: seq<byte>, g: Geometry, fat: seq<nat>, next: nat, l: Log, a: nat, blob: seq<byte>, c: nat)
    requires FatOk(fat, next, l.chains) && a in l.chains && a >= 2 && ClusterOffset(g, a) + |blob| <= |img|
    requires c in l.chains && (c < a || ClusterOffset(g, c) >= ClusterOffset(g, a) + |blob|)
    requires ChainHolds(img, g, c, l.chains[c], Written(l.content, c))
    requires ChainHolds(Splice(img, ClusterOffset(g, a), blob), g, c, l.chains[c], Written(l.content, c)) <==>
             SameWhereWritten(img, g, a, blob, c, l.chains[c])
    ensures ChainHolds(Splice(img, ClusterOffset(g, a), blob), g, c, l.chains[c], Written(l.content, c))
  {
    hide Splice, Written;
    assert c < a ==> c + l.chains[c] <= a;
  }

  // ---- the round trip ---------------------------------------------------------------------------

  lemma HeadingFirst(cluster: nat, parent: Option<nat>)
    ensures Heading(cluster, parent) != []
    ensures var rec := Heading(cluster, parent)[0];
            |rec| == 32 && rec[0] != 0 && rec[0] != 0xE5 && rec[11] % 16 != 15
  {
    var a, b := Dirent(LABEL, ATTR_VOLUME, 0, 0), Dirent(DOT, ATTR_DIR, cluster, 0);
    assert a[0] == a[..11][0] && b[0] == b[..11][0];
  }

  /** A component that is not ASCII makes the reader fail at the first record. */
  lemma ScanFault(up: Upper, entries: seq<Entry>, cluster: nat, parent: Option<nat>, firsts: seq<nat>, rest: seq<byte>)
    requires ShortsOf(up, entries).Some? && Named(entries, ShortsOf(up, entries).value)
    requires |firsts| == |entries|
    ensures Scan(Flatten(DirRecords(up, entries, cluster, parent, firsts)) + rest, 0, None) == Bad
  {
    hide *;
    var recs := DirRecords(up, entries, cluster, parent, firsts);
    HeadingFirst(cluster, parent);
    HeadingLeads(up, entries, cluster, parent, firsts);
    FlattenOne(recs[0], recs[1..]);
    assert [recs[0]] + recs[1..] == recs;
    assert recs[0] + Flatten(recs[1..]) + rest == recs[0] + (Flatten(recs[1..]) + rest);
    FirstRecordFaults(recs[0], Flatten(recs[1..]) + rest);
  }

  lemma HeadingLeads(up: Upper, entries: seq<Entry>, cluster: nat, parent: Option<nat>, firsts: seq<nat>)
    requires ShortsOf(up, entries).Some? && Named(entries, ShortsOf(up, entries).value)
    requires |firsts| == |entries|
    ensures Heading(cluster, parent) <= DirRecords(up, entries, cluster, parent, firsts)
  {
  }

  lemma FirstRecordFaults(rec: seq<byte>, rest: seq<byte>)
    requires |rec| == 32 && rec[0] != 0 && rec[0] != 0xE5 && rec[11] % 16 != 15
    ensures Scan(rec + rest, 0, None) == Bad
  {
    assert Slice(rec + rest, 0, 32) == rec;
  }

  /** Chains lie inside the volume, so every field fits its 32 bits. */
  lemma ChainBounds(disk: seq<byte>, base: nat, img: seq<byte>, g: Geometry, fat: seq<nat>, next: nat, l: Log, a: nat)
    requires OnDisk(disk, base, img, g, fat, next, l) && a in l.chains
    ensures a < 0x1_0000_0000 && |Written(l.content, a)| < 0x1_0000_0000
  {
    hide Finished, Has;
    assert ChainInFat(fat, a, l.chains[a]) && a + l.chains[a] <= next;
    assert ChainHolds(img, g, a, l.chains[a], Written(l.content, a));
  }

  /** The record of entry `k` gives back where it starts and how long it is. */
  lemma OwnFields(disk: seq<byte>, base: nat, img: seq<byte>, g: Geometry, fat: seq<nat>, next: nat, l: Log,
                  e: Entry, short: string, first: nat)
    requires OnDisk(disk, base, img, g, fat, next, l) && ShortShape(short)
    requires e.node.File? ==> Placed(e.node, first, l)
    requires e.node.Dir? ==> first in l.chains
    ensures EntryCluster(OwnRecord(e, short, first)) == first
    ensures EntrySize(OwnRecord(e, short, first)) == SizeField(e.node)
  {
    hide OnDisk, Dirent, EntryCluster, EntrySize;
    if first in l.chains { ChainBounds(disk, base, img, g, fat, next, l, first); }
    DirentFields(Eleven(short), KindOf(e.node), first, SizeField(e.node));
  }

  /** Cluster 0 is no chain: nothing is found below it. */
  lemma BelowZero(disk: seq<byte>, y: Layout, size: Option<nat>, targets: seq<Option<seq<byte>>>)
    requires targets != []
    ensures Resolve(disk, y, 0, size, targets) == Missing
  {
    assert ChainBytes(disk, y, 0) == Some([]);
  }

  /** At the end of a path: a file's own bytes, or nothing for anything empty. */
  lemma FinishFile(disk: seq<byte>, base: nat, img: seq<byte>, g: Geometry, fat: seq<nat>, next: nat, l: Log,
                   data: seq<byte>, first: nat)
    requires OnDisk(disk, base, img, g, fat, next, l) && Placed(File(data), first, l)
    ensures Finish(disk, VolumeLayout(base, g), first, Some(|data|)) == Contents(data)
  {
    if data != [] {
      hide OnDisk, ChainBytes;
      ReadsChain(disk, base, img, g, fat, next, l, first);
      var d := data + Zeros(l.chains[first] * CLUSTER - |data|);
      assert d[0..|data|] == data;
    }
  }

  /** What the reader does with one path component in a laid directory. */
  lemma DirStep(up: Upper, disk: seq<byte>, base: nat, img: seq<byte>, g: Geometry, fat: seq<nat>, next: nat, l: Log,
                entries: seq<Entry>, cluster: nat, parent: Option<nat>, firsts: seq<nat>,
                size: Option<nat>, targets: seq<Option<seq<byte>>>)
    requires OnDisk(disk, base, img, g, fat, next, l) && SelfLaid(up, entries, cluster, parent, firsts, l)
    requires RoomOk(entries, parent.None?) && targets != [] && TargetsOk(targets)
    ensures Resolve(disk, VolumeLayout(base, g), cluster, size, targets) ==
            if targets[0].None? then Fault
            else
              match Hit(up, entries, parent.None?, firsts, targets[0].value)
              case NotThere => Missing
              case Bad => Fault
              case At(e) =>
                if |e| < 32 then Fault
                else Resolve(disk, VolumeLayout(base, g), EntryCluster(e), Some(EntrySize(e)), targets[1..])
  {
    hide *;
    SelfFacts(up, entries, cluster, parent, firsts, l);
    ReadsChain(disk, base, img, g, fat, next, l, cluster);
    DirRecordsFit(up, entries, cluster, parent, firsts);
    var blob, total := l.content[cluster], l.chains[cluster] * CLUSTER;
    var d := blob + Zeros(total - |blob|);
    ResolveUnfold(disk, VolumeLayout(base, g), cluster, size, targets, d);
    if targets[0].None? {
      ScanFault(up, entries, cluster, parent, firsts, Zeros(total - |blob|));
    } else {
      FirstTarget(targets);
      ScanLaid(up, entries, cluster, parent, firsts, targets[0].value, total);
    }
  }

  lemma SelfFacts(up: Upper, entries: seq<Entry>, cluster: nat, parent: Option<nat>, firsts: seq<nat>, l: Log)
    requires SelfLaid(up, entries, cluster, parent, firsts, l)
    ensures |firsts| == |entries| && ShortsOf(up, entries).Some? && Named(entries, ShortsOf(up, entries).value)
    ensures cluster in l.chains && cluster in l.content && l.chains[cluster] == Clusters(DirBytes(entries))
    ensures l.content[cluster] == Flatten(DirRecords(up, entries, cluster, parent, firsts))
  {
  }

  lemma FirstTarget(targets: seq<Option<seq<byte>>>)
    requires TargetsOk(targets) && targets != [] && targets[0].Some?
    ensures |targets[0].value| == 11 && targets[0].value[0] != 0x2E
  {
  }

  lemma ResolveUnfold(disk: seq<byte>, y: Layout, cluster: nat, size: Option<nat>,
                      targets: seq<Option<seq<byte>>>, d: seq<byte>)
    requires targets != [] && ChainBytes(disk, y, cluster) == Some(d)
    ensures Resolve(disk, y, cluster, size, targets) ==
            match Scan(d, 0, targets[0])
            case NotThere => Missing
            case Bad => Fault
            case At(e) =>
              if |e| < 32 then Fault
              else Resolve(disk, y, EntryCluster(e), Some(EntrySize(e)), targets[1..])
  {
  }

  /** Reading any path below a laid directory answers what the tree answers. */
  lemma {:induction false} ReadsDir(up: Upper, disk: seq<byte>, base: nat, img: seq<byte>, g: Geometry, fat: seq<nat>,
                                    next: nat, l: Log, entries: seq<Entry>, cluster: nat, parent: Option<nat>,
                                    plans: seq<Plan>, size: Option<nat>, targets: seq<Option<seq<byte>>>)
    requires OnDisk(disk, base, img, g, fat, next, l) && DirLaid(up, entries, cluster, parent, plans, l)
    requires TreeOk(up, entries, parent.None?) && targets != [] && TargetsOk(targets)
    requires Lookup(up, entries, parent.None?, targets).Plain?
    ensures Resolve(disk, VolumeLayout(base, g), cluster, size, targets) ==
            Lookup(up, entries, parent.None?, targets).outcome
    decreases targets
  {
    hide *;
    var y, firsts := VolumeLayout(base, g), Firsts(plans);
    LaidFacts(up, entries, cluster, parent, plans, l);
    LookupCases(up, entries, parent.None?, firsts, targets);
    DirStep(up, disk, base, img, g, fat, next, l, entries, cluster, parent, firsts, size, targets);
    if targets[0].Some? {
      var target, shorts := targets[0].value, ShortsOf(up, entries).value;
      if parent.None? && target == LABEL {
        DirentFields(LABEL, ATTR_VOLUME, 0, 0);
        AfterEmpty(disk, y, 0, targets[1..]);
      } else if FirstIndex(shorts, target).Some? {
        var k := FirstIndex(shorts, target).value;
        SubdirReserved(up, entries, cluster, parent, plans, l, k);
        OwnFields(disk, base, img, g, fat, next, l, entries[k], shorts[k], firsts[k]);
        if entries[k].node.Dir? && |targets| > 1 {
          SubtreeFacts(up, entries, parent.None?, k);
          RestInDir(up, entries[k].node, targets[1..]);
          TargetsTail(targets);
          ReadsDir(up, disk, base, img, g, fat, next, l, entries[k].node.entries, firsts[k], ParentOf(cluster, parent),
                   plans[k].kids, Some(0), targets[1..]);
        } else {
          AtLeaf(up, disk, base, img, g, fat, next, l, entries[k].node, firsts[k], targets[1..]);
        }
      }
    }
  }

  /** What is left of a lookup once entry `node` has been found. */
  function Rest(up: Upper, node: Node, targets: seq<Option<seq<byte>>>): (r: Answer) {
    match node
    case File(data) =>
      if targets == [] then Plain(Contents(data)) else if data == [] then Plain(Missing) else Inside
    case Dir(es) =>
      if targets == [] then Plain(Contents([])) else Lookup(up, es, false, targets)
  }

  lemma LookupCases(up: Upper, entries: seq<Entry>, root: bool, firsts: seq<nat>, targets: seq<Option<seq<byte>>>)
    requires targets != [] && ShortsOf(up, entries).Some? && Named(entries, ShortsOf(up, entries).value)
    requires |firsts| == |entries|
    ensures var a, shorts := Lookup(up, entries, root, targets), ShortsOf(up, entries).value;
            if targets[0].None? then a == Plain(Fault)
            else if root && targets[0].value == LABEL then
              && a == Plain(if |targets| == 1 then Contents([]) else Missing)
              && Hit(up, entries, root, firsts, targets[0].value) == At(Dirent(LABEL, ATTR_VOLUME, 0, 0))
            else
              match FirstIndex(shorts, targets[0].value)
              case None => a == Plain(Missing) && Hit(up, entries, root, firsts, targets[0].value) == NotThere
              case Some(k) =>
                && a == Rest(up, entries[k].node, targets[1..])
                && Hit(up, entries, root, firsts, targets[0].value) == At(OwnRecord(entries[k], shorts[k], firsts[k]))
  {
  }

  lemma RestInDir(up: Upper, node: Node, targets: seq<Option<seq<byte>>>)
    requires node.Dir? && targets != []
    ensures Rest(up, node, targets) == Lookup(up, node.entries, false, targets) && SizeField(node) == 0
  {
  }

  lemma TargetsTail(targets: seq<Option<seq<byte>>>)
    requires TargetsOk(targets) && targets != []
    ensures TargetsOk(targets[1..])
  {
  }

  lemma LaidFacts(up: Upper, entries: seq<Entry>, cluster: nat, parent: Option<nat>, plans: seq<Plan>, l: Log)
    requires DirLaid(up, entries, cluster, parent, plans, l) && TreeOk(up, entries, parent.None?)
    ensures RoomOk(entries, parent.None?) && |plans| == |entries| && SelfLaid(up, entries, cluster, parent, Firsts(plans), l)
    ensures ShortsOf(up, entries).Some? && Named(entries, ShortsOf(up, entries).value)
    ensures ParentOf(cluster, parent).Some?
  {
  }

  /** The path ends here, or goes on below something that has no entries. */
  lemma AtLeaf(up: Upper, disk: seq<byte>, base: nat, img: seq<byte>, g: Geometry, fat: seq<nat>, next: nat, l: Log,
               node: Node, first: nat, targets: seq<Option<seq<byte>>>)
    requires OnDisk(disk, base, img, g, fat, next, l)
    requires node.File? ==> Placed(node, first, l)
    requires node.Dir? ==> targets == []
    requires Rest(up, node, targets).Plain?
    ensures Resolve(disk, VolumeLayout(base, g), first, Some(SizeField(node)), targets) == Rest(up, node, targets).outcome
  {
    hide OnDisk;
    var y := VolumeLayout(base, g);
    AfterEmpty(disk, y, first, targets);
    if node.File? && targets == [] {
      FinishFile(disk, base, img, g, fat, next, l, node.data, first);
      ResolveEnd(disk, y, first, Some(|node.data|), targets);
    }
  }

  lemma ResolveEnd(disk: seq<byte>, y: Layout, cluster: nat, size: Option<nat>, targets: seq<Option<seq<byte>>>)
    requires targets == []
    ensures Resolve(disk, y, cluster, size, targets) == Finish(disk, y, cluster, size)
  {
  }

  lemma AfterEmpty(disk: seq<byte>, y: Layout, cluster: nat, targets: seq<Option<seq<byte>>>)
    ensures targets == [] ==> Resolve(disk, y, cluster, Some(0), targets) == Contents([])
    ensures targets != [] && cluster == 0 ==> Resolve(disk, y, cluster, Some(0), targets) == Missing
  {
    if targets != [] && cluster == 0 { BelowZero(disk, y, Some(0), targets); }
  }

  lemma SubdirReserved(up: Upper, entries: seq<Entry>, cluster: nat, parent: Option<nat>, plans: seq<Plan>, l: Log, k: nat)
    requires DirLaid(up, entries, cluster, parent, plans, l) && k < |entries|
    ensures ShortShape(ShortsOf(up, entries).value[k])
    ensures entries[k].node.File? ==> Placed(entries[k].node, plans[k].first, l)
    ensures entries[k].node.Dir? ==>
              && plans[k].first in l.chains
              && DirLaid(up, entries[k].node.entries, plans[k].first, ParentOf(cluster, parent), plans[k].kids, l)
  {
  }

  /** Every path lookup in a finished volume answers what the tree answers. */
  lemma VolumeRoundTrip(up: Upper, disk: seq<byte>, base: nat, img: seq<byte>, g: Geometry, fat: seq<nat>, next: nat,
                        l: Log, entries: seq<Entry>, plans: seq<Plan>, targets: seq<Option<seq<byte>>>)
    requires OnDisk(disk, base, img, g, fat, next, l) && DirLaid(up, entries, 2, None, plans, l)
    requires TreeOk(up, entries, true) && targets != [] && TargetsOk(targets)
    requires Lookup(up, entries, true, targets).Plain?
    ensures ReadVolume(disk, base, targets) == Lookup(up, entries, true, targets).outcome
  {
    hide OnDisk, DirLaid, TreeOk, TargetsOk, Lookup, Resolve, ParseBootSector;
    ReadsLayout(disk, base, img, g, fat, next, l);
    ReadsDir(up, disk, base, img, g, fat, next, l, entries, 2, None, plans, None, targets);
  }

  /** An image from which any disk that contains it, at any offset, reads back as
      the tree: every path, whether it leads to a file, a directory or nowhere. */
  ghost predicate ReadsAs(up: Upper, image: seq<byte>, entries: seq<Entry>) {
    forall disk: seq<byte>, base: nat, targets: seq<Option<seq<byte>>> ::
      Has(disk, base, image) && targets != [] && TargetsOk(targets) && Lookup(up, entries, true, targets).Plain? ==>
        ReadVolume(disk, base, targets) == Lookup(up, entries, true, targets).outcome
  }

  // ---- in terms of names -------------------------------------------------------------------------

  /** What the reader compares a path component with never looks like a dot entry. */
  lemma ShortNameIsTarget(up: Upper, parts: seq<string>)
    ensures TargetsOk(Targets(up, parts))
  {
    forall i | 0 <= i < |parts| && ShortName(up, parts[i]).Some?
      ensures ShortName(up, parts[i]).value[0] != 0x2E
    {
      var stem := Stem(Uppercase(up, parts[i]));
      var padded := LJust(stem, 8);
      assert stem != "" ==> padded[..|stem|][0] == stem[0] && stem[0] in stem;
      assert padded[..8][0] == padded[0];
    }
  }

  /** An 8.3 name, given as a path component, is looked for under its own record. */
  lemma FittingComponent(up: Upper, name: string)
    requires UpperOk(up) && Fits83(name) && name != "." && name != ".."
    ensures ShortShape(ShortEntryName(name)) && ShortName(up, name) == Some(Eleven(ShortEntryName(name)))
  {
    FittingNameShape(name);
    FittingChars(name);
    UppercaseFixed(up, name);
    var a, b := LJust(Stem(name), 8), LJust(Ext(name), 3);
    assert a[..8] == a && b[..3] == b;
    ShapeIsAscii(ShortEntryName(name));
  }

  lemma FittingChars(name: string)
    requires Fits83(name) && name != "." && name != ".."
    ensures forall i | 0 <= i < |name| :: ShortOk(name[i]) || name[i] == '.'
  {
    var d := FirstDot(name);
    forall i | 0 <= i < |name| ensures ShortOk(name[i]) || name[i] == '.' {
      if i < d { assert name[i] == Stem(name)[i]; }
      else if i > d { assert name[i] == Ext(name)[i - d - 1]; }
    }
  }

  /** The node a list of indices leads to. */
  function NodeAt(entries: seq<Entry>, at: seq<nat>): (r: Option<Node>)
    decreases at
  {
    if at == [] || at[0] >= |entries| then None
    else if |at| == 1 then Some(entries[at[0]].node)
    else
      match entries[at[0]].node
      case File(_) => None
      case Dir(es) => NodeAt(es, at[1..])
  }

  function NamesAt(entries: seq<Entry>, at: seq<nat>): (r: seq<string>)
    requires NodeAt(entries, at).Some?
    ensures |r| == |at|
    decreases at
  {
    if |at| == 1 then [entries[at[0]].name]
    else [entries[at[0]].name] + NamesAt(entries[at[0]].node.entries, at[1..])
  }

  /** No entry before `k` has the short name of entry `k`. */
  ghost predicate FirstOfItsName(up: Upper, entries: seq<Entry>, k: nat)
    requires ShortsOf(up, entries).Some? && k < |entries|
  {
    forall i | 0 <= i < k :: ShortsOf(up, entries).value[i] != ShortEntryName(entries[k].name)
  }

  /** Every name on the way is an 8.3 name, and the first in its directory with that
      short name; in the root it is not the volume label. */
  ghost predicate Unambiguous(up: Upper, entries: seq<Entry>, root: bool, at: seq<nat>)
    requires NodeAt(entries, at).Some?
    decreases at
  {
    && Fits83(entries[at[0]].name) && ListedName(entries[at[0]].name)
    && ShortsOf(up, entries).Some? && FirstOfItsName(up, entries, at[0])
    && (root ==> !Matches(ShortEntryName(entries[at[0]].name), LABEL))
    && (|at| > 1 ==> Unambiguous(up, entries[at[0]].node.entries, false, at[1..]))
  }

  lemma OwnShort(up: Upper, entries: seq<Entry>, k: nat)
    requires ShortsOf(up, entries).Some? && k < |entries| && Fits83(entries[k].name)
    ensures ShortsOf(up, entries).value[k] == ShortEntryName(entries[k].name)
  {
    ShortNamesForm(up, Names(entries), {}, k);
  }

  /** Looking an 8.3 name up finds its own entry exactly when no earlier one has the
      short name; otherwise it finds the first that does. */
  lemma FoundAtOwnIndex(up: Upper, entries: seq<Entry>, k: nat)
    requires ShortsOf(up, entries).Some?
    requires k < |entries| && Fits83(entries[k].name) && ListedName(entries[k].name)
    ensures ShortShape(ShortEntryName(entries[k].name))
    ensures var found := FirstIndex(ShortsOf(up, entries).value, Eleven(ShortEntryName(entries[k].name)));
            && found.Some? && found.value <= k
            && ShortsOf(up, entries).value[found.value] == ShortEntryName(entries[k].name)
            && (found.value == k <==> FirstOfItsName(up, entries, k))
  {
    hide ShortsOf, Fits83, ShortEntryName, FirstIndex, ListedName, Ascii;
    OwnShort(up, entries, k);
    OwnShape(entries[k].name);
    var shorts, short := ShortsOf(up, entries).value, ShortEntryName(entries[k].name);
    var target := Eleven(short);
    ElevenMatches(short);
    forall i | 0 <= i < |shorts| ensures Matches(shorts[i], target) <==> shorts[i] == short {
      if Matches(shorts[i], target) { AsciiInjective(shorts[i], short); }
    }
  }

  lemma OwnShape(name: string)
    requires Fits83(name) && ListedName(name)
    ensures ShortShape(ShortEntryName(name))
  {
    FittingNameShape(name);
  }

  lemma AsciiInjective(a: string, b: string)
    requires AllAscii(a) && AllAscii(b) && Ascii(a) == Ascii(b)
    ensures a == b
  {
    assert forall i | 0 <= i < |a| :: Ascii(a)[i] == a[i] as int && Ascii(b)[i] == b[i] as int;
  }

  /** A file reached by unambiguous 8.3 names is found under exactly those names. */
  lemma {:induction false} FileIsFound(up: Upper, entries: seq<Entry>, root: bool, at: seq<nat>)
    requires UpperOk(up) && NodeAt(entries, at).Some? && NodeAt(entries, at).value.File?
    requires Unambiguous(up, entries, root, at)
    ensures Lookup(up, entries, root, Targets(up, NamesAt(entries, at))) ==
            Plain(Contents(NodeAt(entries, at).value.data))
    decreases at
  {
    hide *;
    PathStep(up, entries, root, at);
    var k, targets := at[0], Targets(up, NamesAt(entries, at));
    var node, short := entries[k].node, ShortEntryName(entries[k].name);
    FittingComponent(up, entries[k].name);
    FoundAtOwnIndex(up, entries, k);
    ElevenMatches(short);
    LookupFound(up, entries, root, targets, k);
    if |at| > 1 {
      FileIsFound(up, node.entries, false, at[1..]);
      RestInDir(up, node, targets[1..]);
    } else {
      RestAtFile(up, node, targets[1..]);
    }
  }

  /** One step along the path, in the tree and in the names alike. */
  lemma PathStep(up: Upper, entries: seq<Entry>, root: bool, at: seq<nat>)
    requires NodeAt(entries, at).Some? && Unambiguous(up, entries, root, at)
    ensures at != [] && at[0] < |entries|
    ensures var e := entries[at[0]];
            && Fits83(e.name) && ListedName(e.name) && e.name != "." && e.name != ".."
            && ShortsOf(up, entries).Some? && FirstOfItsName(up, entries, at[0])
            && (root ==> !Matches(ShortEntryName(e.name), LABEL))
            && Targets(up, NamesAt(entries, at))[0] == ShortName(up, e.name)
            && (|at| == 1 ==> NodeAt(entries, at) == Some(e.node))
            && (|at| > 1 ==>
                  && e.node.Dir? && NodeAt(e.node.entries, at[1..]) == NodeAt(entries, at)
                  && Unambiguous(up, e.node.entries, false, at[1..])
                  && Targets(up, NamesAt(entries, at))[1..] == Targets(up, NamesAt(e.node.entries, at[1..])))
  {
    hide ShortName, Fits83, ShortEntryName, ShortsOf, FirstOfItsName, Matches;
    if |at| > 1 {
      var es := entries[at[0]].node.entries;
      assert NamesAt(entries, at)[1..] == NamesAt(es, at[1..]);
      assert Targets(up, NamesAt(entries, at))[1..] == Targets(up, NamesAt(es, at[1..]));
    }
  }

  lemma RestAtFile(up: Upper, node: Node, targets: seq<Option<seq<byte>>>)
    requires node.File? && targets == []
    ensures Rest(up, node, targets) == Plain(Contents(node.data))
  {
  }

  lemma ElevenMatches(short: string)
    requires ShortShape(short)
    ensures Matches(short, Eleven(short))
  {
  }

  lemma LookupFound(up: Upper, entries: seq<Entry>, root: bool, targets: seq<Option<seq<byte>>>, k: nat)
    requires targets != [] && targets[0].Some? && !(root && targets[0].value == LABEL)
    requires ShortsOf(up, entries).Some? && FirstIndex(ShortsOf(up, entries).value, targets[0].value) == Some(k)
    ensures k < |entries| && Lookup(up, entries, root, targets) == Rest(up, entries[k].node, targets[1..])
  {
    hide ShortsOf, FirstIndex;
  }

  /** Names on an unambiguous way are components a path can be joined from. */
  lemma {:induction false} NamesAreComponents(up: Upper, entries: seq<Entry>, root: bool, at: seq<nat>)
    requires NodeAt(entries, at).Some? && Unambiguous(up, entries, root, at)
    ensures forall i | 0 <= i < |at| :: IsComponent(NamesAt(entries, at)[i])
    decreases at
  {
    hide Fits83, ShortsOf, FirstOfItsName, Matches, ShortEntryName, IsComponent;
    FittingIsComponent(entries[at[0]].name);
    if |at| == 1 {
    } else {
      NamesAreComponents(up, entries[at[0]].node.entries, false, at[1..]);
    }
  }

  lemma FittingIsComponent(name: string)
    requires Fits83(name) && ListedName(name)
    ensures IsComponent(name)
  {
    FittingChars(name);
  }

  /** Each file's bytes come back, exactly, from its path in the built volume. */
  lemma EveryFileReadsBack(up: Upper, image: seq<byte>, entries: seq<Entry>, disk: seq<byte>, base: nat, at: seq<nat>)
    requires UpperOk(up) && ReadsAs(up, image, entries) && Has(disk, base, image)
    requires NodeAt(entries, at).Some? && NodeAt(entries, at).value.File?
    requires Unambiguous(up, entries, true, at)
    ensures ReadVolume(disk, base, Targets(up, Components(JoinPath(NamesAt(entries, at)), ""))) ==
            Contents(NodeAt(entries, at).value.data)
  {
    hide Lookup, Unambiguous, TargetsOk, Has, ReadVolume, UpperOk, Components, JoinPath, IsComponent;
    FileIsFound(up, entries, true, at);
    ShortNameIsTarget(up, NamesAt(entries, at));
    NamesAreComponents(up, entries, true, at);
    SplitJoined(NamesAt(entries, at));
  }

  /** A file whose short name an earlier entry has: the lookup answers for that one. */
  lemma ShadowedFile(up: Upper, entries: seq<Entry>, k: nat, targets: seq<Option<seq<byte>>>) returns (i: nat)
    requires UpperOk(up) && ShortsOf(up, entries).Some? && k < |entries|
    requires Fits83(entries[k].name) && ListedName(entries[k].name) && !FirstOfItsName(up, entries, k)
    requires targets != [] && targets[0] == ShortName(up, entries[k].name)
    ensures i < k && ShortsOf(up, entries).value[i] == ShortEntryName(entries[k].name)
    ensures Lookup(up, entries, false, targets) == Rest(up, entries[i].node, targets[1..])
  {
    hide *;
    ListedIsNoDot(entries[k].name);
    FittingComponent(up, entries[k].name);
    FoundAtOwnIndex(up, entries, k);
    i := FirstIndex(ShortsOf(up, entries).value, Eleven(ShortEntryName(entries[k].name))).value;
    LookupFound(up, entries, false, targets, i);
  }

  lemma ListedIsNoDot(name: string)
    requires ListedName(name)
    ensures name != "." && name != ".."
  {
  }
}
