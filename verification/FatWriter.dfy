/** The FAT32 volume writer: a bump allocator over the FAT, contiguous chains, and
    a recursive directory writer, all updating one image in place. */
module FatWriter {
  import opened Bytes
  import opened DiskBytes
  import opened FatNames
  import opened LongNames
  import opened FatTree
  import opened FatFormat
  import opened FatPlan

  datatype Status = Done | Full | NoShortName

  // ---- the writer ---------------------------------------------------------------------------

  class Fat32 {
    const g: Geometry
    var fat: seq<nat>
    var next: nat
    const img: array<byte>
    ghost var log: Log

    ghost predicate Valid()
      reads this, img
    {
      && GeometryOk(g) && |fat| == g.clusters + 2 && img.Length == g.sectors * SECTOR
      && FatOk(fat, next, log.chains)
      && DataOk(img[..], g, next, log.chains, log.content)
    }

    constructor (g: Geometry)
      requires GeometryOk(g)
      ensures Valid() && this.g == g && fresh(img)
      ensures next == 2 && log == Log(map[], map[])
    {
      this.g := g;
      fat := [0x0FFF_FFF8, EOC] + seq(g.clusters, _ => 0);
      next := 2;
      img := new byte[g.sectors * SECTOR](_ => 0);
      log := Log(map[], map[]);
    }

    /** Chain `n` clusters from `first`, the last one ending the chain. */
    method Link(first: nat, n: nat)
      requires 2 <= first && n >= 1 && first + n <= |fat|
      modifies this`fat
      ensures |fat| == old(|fat|) && ChainInFat(fat, first, n)
      ensures forall k | 0 <= k < |fat| && !(first <= k < first + n) :: fat[k] == old(fat)[k]
    {
      for c := first to first + n
        invariant |fat| == |old(fat)|
        invariant forall k | 0 <= k < |fat| :: fat[k] == if first <= k < c then k + 1 else old(fat)[k]
      {
        fat := fat[c := c + 1];
      }
      fat := fat[first + n - 1 := EOC];
    }

    /** Link the next free clusters into a chain; `None` when they run out. */
    method Alloc(nbytes: nat) returns (first: Option<nat>)
      requires Valid()
      modifies this`fat, this`next, this`log
      ensures Valid()
      ensures first.None? <==> old(next) + Clusters(nbytes) > g.clusters + 2
      ensures first.None? ==> next == old(next) && fat == old(fat) && log == old(log)
      ensures first.Some? ==> first.value == old(next) && next == old(next) + Clusters(nbytes)
      ensures first.Some? ==> log == old(log).(chains := old(log).chains[first.value := Clusters(nbytes)])
      ensures first.Some? ==> first.value !in old(log).chains && first.value !in old(log).content
    {
      hide FatOk, DataOk, Clusters;
      var n := Clusters(nbytes);
      var start := next;
      NextIsFresh(img[..], g, fat, next, log.chains, log.content);
      if start + n > g.clusters + 2 { return None; }
      Link(start, n);
      AllocKeeps(old(fat), start, log.chains, fat, n);
      AllocKeepsData(img[..], g, start, log.chains, log.content, n);
      next := start + n;
      log := log.(chains := log.chains[start := n]);
      return Some(start);
    }

    /** The slice assignment at a chain's first byte. What fits the chain is what the chain
        then holds; what does not runs on into the clusters behind it. */
    method WriteChain(first: nat, data: seq<byte>)
      requires Valid() && first in log.chains && first !in log.content
      requires |data| <= log.chains[first] * CLUSTER || (first >= 2 && ClusterOffset(g, first) + |data| <= img.Length)
      modifies img, this`log
      ensures first >= 2 && ClusterOffset(g, first) + |data| <= |old(img[..])|
      ensures img[..] == Splice(old(img[..]), ClusterOffset(g, first), data)
      ensures |data| <= old(log).chains[first] * CLUSTER ==>
                Valid() && log == old(log).(content := old(log).content[first := data])
      ensures |data| > old(log).chains[first] * CLUSTER ==>
                log == old(log) && Overwritten(old(img[..]), img[..], g, log.chains, log.content, first, data)
    {
      hide FatOk, DataOk, Overwritten;
      ghost var fits := |data| <= log.chains[first] * CLUSTER;
      if fits {
        WriteKeeps(img[..], g, fat, next, log.chains, log.content, first, data);
      } else {
        OverlongWrite(img[..], g, next, log.chains, log.content, first, data);
      }
      Poke(img, ClusterOffset(g, first), data);
      if fits { log := log.(content := log.content[first := data]); }
    }

    /** The loop body for one listed name: reserve a subdirectory's chain, or
        allocate and write a file. */
    method PlaceEntry(node: Node) returns (first: Option<nat>)
      requires Valid()
      modifies this`fat, this`next, this`log, img
      ensures Valid() && Extends(old(log), log, {})
      ensures first.None? <==> old(next) + OwnClusters(node) > g.clusters + 2
      ensures first.Some? ==> next == old(next) + OwnClusters(node)
      ensures first.Some? ==> Placed(node, first.value, log)
      ensures first.Some? && OwnClusters(node) > 0 ==> first.value == old(next)
    {
      ghost var l := log;
      match node
      case Dir(es) =>
        first := Alloc(DirBytes(es));
        if first.Some? { AllocExtends(l, first.value, Clusters(DirBytes(es))); }
      case File(data) =>
        if data == [] { return Some(0); }
        first := Alloc(|data|);
        if first.None? { return; }
        AllocExtends(l, first.value, Clusters(|data|));
        ghost var m := log;
        WriteChain(first.value, data);
        WriteExtends(m, first.value, data);
        ExtendsTrans(l, m, log, {}, {first.value}, {});
    }

    /** One turn of the listing loop: name the entry, place it, describe it. */
    method PlaceNext(up: Upper, entries: seq<Entry>, i: nat, ghost shorts: seq<string>, taken: set<string>,
                     firsts: seq<nat>, recs: seq<seq<byte>>, ghost lo: nat)
      returns (r: Status, ghost shorts': seq<string>, taken': set<string>, firsts': seq<nat>, recs': seq<seq<byte>>)
      requires Valid() && i < |entries| && NameOk(entries[i].name) && lo <= next
      requires Listed(up, entries, i, shorts, taken, firsts, recs)
      requires AllPlaced(entries[..i], firsts, log, lo)
      modifies this`fat, this`next, this`log, img
      ensures Valid() && Extends(old(log), log, {})
      ensures r.NoShortName? ==> i >= LAST_TRY
      ensures r.Full? ==> old(next) + OwnClusters(entries[i].node) > g.clusters + 2
      ensures r.Done? ==> next == old(next) + OwnClusters(entries[i].node)
      ensures r.Done? ==> Listed(up, entries, i + 1, shorts', taken', firsts', recs')
      ensures r.Done? ==> AllPlaced(entries[..i + 1], firsts', log, lo)
    {
      var node := entries[i].node;
      shorts', firsts', recs' := shorts, firsts, recs;
      var short, longs;
      short, taken', longs := NameEntry(up, entries[i].name, taken);
      if short.None? { return NoShortName, shorts, taken, firsts, recs; }
      assert forall a | a in log.chains :: a < next;
      var first := PlaceEntry(node);
      if first.None? { return Full, shorts, taken, firsts, recs; }
      AllPlacedStep(entries, i, firsts, old(log), log, lo, old(next), first.value);
      ListedStep(up, entries, i, shorts, taken, firsts, recs, short.value, first.value);
      recs' := recs + (longs + [Dirent(Eleven(short.value), KindOf(node), first.value, SizeField(node))]);
      r, shorts', firsts' := Done, shorts + [short.value], firsts + [first.value];
    }

    /** The listing loop of a directory. */
    method PlaceEntries(up: Upper, entries: seq<Entry>)
      returns (r: Status, firsts: seq<nat>, recs: seq<seq<byte>>)
      requires Valid() && forall i | 0 <= i < |entries| :: NameOk(entries[i].name)
      modifies this`fat, this`next, this`log, img
      ensures Valid() && Extends(old(log), log, {})
      ensures r.Done? ==> next == old(next) + OwnSum(entries)
      ensures r.Full? ==> old(next) + OwnSum(entries) > g.clusters + 2
      ensures r.NoShortName? ==> |entries| > LAST_TRY
      ensures r.Done? ==> ShortsOf(up, entries).Some? && Named(entries, ShortsOf(up, entries).value)
      ensures r.Done? ==> |firsts| == |entries| && AllPlaced(entries, firsts, log, old(next))
      ensures r.Done? ==> recs == Body(entries, ShortsOf(up, entries).value, firsts)
    {
      hide *;
      var taken: set<string>, i := {}, 0;
      ghost var shorts: seq<string> := [];
      firsts, recs := [], [];
      ListedAtStart(up, entries, log, next);
      assert entries[0..] == entries;
      while i < |entries|
        invariant i <= |entries|
        invariant Valid() && Extends(old(log), log, {})
        invariant Listed(up, entries, i, shorts, taken, firsts, recs)
        invariant next >= old(next) && next + OwnSum(entries[i..]) == old(next) + OwnSum(entries)
        invariant AllPlaced(entries[..i], firsts, log, old(next))
      {
        OwnSumStep(entries, i);
        ghost var l := log;
        r, shorts, taken, firsts, recs := PlaceNext(up, entries, i, shorts, taken, firsts, recs, old(next));
        ExtendsTrans(old(log), l, log, {}, {}, {});
        if !r.Done? { return; }
        i := i + 1;
      }
      ListedAtEnd(up, entries, shorts, taken, firsts, recs);
      assert entries[..i] == entries;
      r := Done;
    }

    /** Write the directory whose chain starts at `cluster` and everything under it. */
    method AddDir(up: Upper, entries: seq<Entry>, cluster: nat, parent: Option<nat>)
      returns (r: Status, ghost plans: seq<Plan>)
      requires Valid() && TreeOk(up, entries, parent.None?) && Reserved(entries, cluster, log)
      modifies this`fat, this`next, this`log, img
      ensures Valid() && Extends(old(log), log, {cluster})
      ensures r.Done? ==> next == old(next) + OwnSum(entries) + BelowSum(entries)
      ensures r.Full? ==> old(next) + OwnSum(entries) + BelowSum(entries) > g.clusters + 2
      ensures r.NoShortName? ==> Crowded(entries)
      ensures r.Done? ==> DirLaid(up, entries, cluster, parent, plans, log)
      decreases entries, 1
    {
      hide *;
      plans := [];
      ChainsBelowNext();
      TreeFacts(up, entries, parent.None?);
      var firsts, recs;
      r, firsts, recs := PlaceEntries(up, entries);
      ghost var l1 := log;
      WidenOpen(old(log), l1, cluster);
      if !r.Done? { return; }
      ReservedStays(entries, cluster, old(log), l1);
      WriteLays(up, entries, cluster, parent, firsts, l1);
      var blob := Flatten(Heading(cluster, parent) + recs);
      WriteRecords(up, entries, cluster, parent, firsts, blob);
      ghost var l2 := log;
      AllPlacedWrite(entries, firsts, l1, l2, old(next), cluster);
      r, plans := Descend(up, entries, firsts, cluster, parent, old(next));
      LogsCompose(old(log), l1, l2, log, cluster, old(next), entries, firsts);
      if r.Done? { AssembleLaid(up, entries, cluster, parent, firsts, plans, l2, log); }
    }

    lemma ChainsBelowNext()
      requires Valid()
      ensures forall a | a in log.chains :: a < next
    {
    }

    /** Fill the chain reserved for a directory. */
    method WriteRecords(up: Upper, entries: seq<Entry>, cluster: nat, parent: Option<nat>, ghost firsts: seq<nat>, blob: seq<byte>)
      requires Valid() && Reserved(entries, cluster, log) && RoomOk(entries, parent.None?)
      requires ShortsOf(up, entries).Some? && Named(entries, ShortsOf(up, entries).value)
      requires |firsts| == |entries| && blob == Flatten(DirRecords(up, entries, cluster, parent, firsts))
      modifies img, this`log
      ensures Valid() && Extends(old(log), log, {cluster})
      ensures SelfLaid(up, entries, cluster, parent, firsts, log)
    {
      hide FatOk, DataOk, SelfLaid, DirRecords, Overwritten, Splice, ClusterOffset, Flatten, GeometryOk, RoomOk, Extends;
      WriteLays(up, entries, cluster, parent, firsts, log);
      WriteExtends(log, cluster, blob);
      WriteChain(cluster, blob);
    }

    /** The loop over the subdirectories reserved while listing. */
    method Descend(up: Upper, entries: seq<Entry>, firsts: seq<nat>, cluster: nat, parent: Option<nat>, ghost lo: nat)
      returns (r: Status, ghost plans: seq<Plan>)
      requires Valid() && TreeOk(up, entries, parent.None?) && AllPlaced(entries, firsts, log, lo)
      modifies this`fat, this`next, this`log, img
      ensures Valid() && Extends(old(log), log, DirFirsts(entries, firsts))
      ensures r.Done? ==> next == old(next) + BelowSum(entries)
      ensures r.Full? ==> old(next) + BelowSum(entries) > g.clusters + 2
      ensures r.NoShortName? ==> Crowded(entries)
      ensures r.Done? ==> Descended(up, entries, firsts, |entries|, cluster, parent, plans, log)
      decreases entries, 0
    {
      hide *;
      r, plans := Done, [];
      DescendedAtStart(up, entries, firsts, cluster, parent, log, lo);
      assert entries[0..] == entries && entries[|entries|..] == [];
      var i := 0;
      while i < |entries|
        invariant i <= |entries| && r.Done?
        invariant Valid() && Extends(old(log), log, DirFirsts(entries, firsts))
        invariant Descended(up, entries, firsts, i, cluster, parent, plans, log)
        invariant next + BelowSum(entries[i..]) == old(next) + BelowSum(entries)
        decreases |entries| - i
      {
        OwnSumStep(entries, i);
        ghost var l, kids: seq<Plan> := log, [];
        if entries[i].node.File? {
          DescendedSkip(up, entries, firsts, i, cluster, parent, plans, log);
        } else {
          SubtreeFacts(up, entries, parent.None?, i);
          ReservedNow(up, entries, firsts, i, cluster, parent, plans, log);
          r, kids := AddDir(up, entries[i].node.entries, firsts[i], ParentOf(cluster, parent));
          ExtendsTrans(old(log), l, log, DirFirsts(entries, firsts), {firsts[i]}, DirFirsts(entries, firsts));
          if !r.Done? { return; }
          DescendedStep(up, entries, firsts, i, cluster, parent, plans, kids, l, log, lo, old(log));
        }
        plans, i := plans + [Plan(firsts[i], kids)], i + 1;
      }
    }

    /** Write into the area before the first cluster. */
    method PokeHeader(off: nat, data: seq<byte>)
      requires Valid() && off + |data| <= DataStart(g)
      modifies img
      ensures Valid() && off + |data| <= img.Length
      ensures img[..] == Splice(old(img[..]), off, data) && Has(img[..], off, data)
    {
      DataElsewhere(img[..], g, next, log.chains, log.content, off, data);
      Poke(img, off, data);
    }

    /** Boot sector, FSInfo, the backups of both, and both FATs. */
    method Finish()
      requires Valid()
      modifies img
      ensures Valid() && Finished(img[..], g, fat, next)
    {
      hide *;
      HeaderSizes();
      var boot, info, raw := BootSector(g), FsInfo(g.clusters + 2 - next, next), RawFat(fat);
      FinishHeader(boot, info);
      ghost var head := img[..];
      PokeHeader(FatStart(g, 0), raw);
      ghost var one := img[..];
      KeepsHeader(head, one, boot, info, FatStart(g, 0), raw);
      PokeHeader(FatStart(g, 1), raw);
      KeepsHeader(one, img[..], boot, info, FatStart(g, 1), raw);
      HasElsewhere(one, FatStart(g, 0), raw, FatStart(g, 1), raw);
      FinishedIs(img[..], g, fat, next);
    }

    method FinishHeader(boot: seq<byte>, info: seq<byte>)
      requires Valid() && |boot| == |info| == SECTOR && 8 * SECTOR <= DataStart(g)
      modifies img
      ensures Valid() && HeaderIn(img[..], boot, info)
    {
      hide FatOk, DataOk, GeometryOk;
      PokeHeader(0, boot);
      ghost var one := img[..];
      PokeHeader(SECTOR, info);
      HasElsewhere(one, 0, boot, SECTOR, info);
      ghost var two := img[..];
      PokeHeader(6 * SECTOR, boot);
      HasElsewhere(two, 0, boot, 6 * SECTOR, boot);
      HasElsewhere(two, SECTOR, info, 6 * SECTOR, boot);
      ghost var three := img[..];
      PokeHeader(7 * SECTOR, info);
      HasElsewhere(three, 0, boot, 7 * SECTOR, info);
      HasElsewhere(three, SECTOR, info, 7 * SECTOR, info);
      HasElsewhere(three, 6 * SECTOR, boot, 7 * SECTOR, info);
    }

    lemma HeaderSizes()
      requires Valid()
      ensures |BootSector(g)| == SECTOR && next <= g.clusters + 2
      ensures |FsInfo(g.clusters + 2 - next, next)| == SECTOR
      ensures 8 * SECTOR <= DataStart(g) && FatStart(g, 0) >= 8 * SECTOR && FatStart(g, 0) + |RawFat(fat)| <= FatStart(g, 1)
      ensures FatStart(g, 1) + |RawFat(fat)| <= DataStart(g)
    {
      hide BootSector, FsInfo, BootParts, DataOk;
      BootOffsets(g);
      FsInfoFields(g.clusters + 2 - next, next);
    }
  }
}
