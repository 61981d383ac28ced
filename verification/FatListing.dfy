/** Listing a directory with its long names: a reader of the format that collects the
    long-name records in front of each record, and what it finds on a finished volume. */
module FatListing {
  import opened Bytes
  import opened DiskBytes
  import opened FatNames
  import opened LongNames
  import opened FatReader
  import opened FatTree
  import opened FatFormat
  import opened FatPlan
  import opened FatRoundTrip

  // ---- the reader --------------------------------------------------------------------------

  /** What a directory shows: the eleven bytes of a record, the long name before it, and its
      attributes, first cluster and size. */
  datatype Item = Item(short: seq<byte>, long: Option<string>, attributes: byte, cluster: nat, size: nat)

  /** A directory's items, and the cluster they were found at. */
  datatype Listing = Listing(cluster: nat, items: seq<Item>)

  /** The records up to the end mark, or to the end of the chain. */
  function Cells(d: seq<byte>): (r: seq<seq<byte>>)
    ensures Sized(r)
  {
    if |d| < 32 || d[0] == 0 then [] else [d[..32]] + Cells(d[32..])
  }

  /** Long-name records belong to a record if each of them carries its checksum. */
  predicate BelongTo(longs: seq<seq<byte>>, short11: seq<byte>)
    requires Sized(longs)
  {
    longs != [] && forall i | 0 <= i < |longs| :: longs[i][13] == ChecksumFrom(0, short11)
  }

  function Items(recs: seq<seq<byte>>, longs: seq<seq<byte>>): (r: seq<Item>)
    requires Sized(recs) && Sized(longs)
    decreases recs
  {
    if recs == [] then []
    else
      var rec := recs[0];
      if rec[0] == 0xE5 then Items(recs[1..], [])
      else if rec[11] == ATTR_LFN then Items(recs[1..], longs + [rec])
      else
        var long := if BelongTo(longs, rec[..11]) then Some(ReadLongName(longs)) else None;
        [Item(rec[..11], long, rec[11], EntryCluster(rec), EntrySize(rec))] + Items(recs[1..], [])
  }

  /** Follow a path as the file reader does, then list the directory it ends in. */
  function ListAt(disk: seq<byte>, y: Layout, cluster: nat, targets: seq<Option<seq<byte>>>): (r: Option<Listing>)
    decreases targets
  {
    match ChainBytes(disk, y, cluster)
    case None => None
    case Some(d) =>
      if targets == [] then Some(Listing(cluster, Items(Cells(d), [])))
      else
        match Scan(d, 0, targets[0])
        case NotThere => None
        case Bad => None
        case At(e) => if |e| < 32 then None else ListAt(disk, y, EntryCluster(e), targets[1..])
  }

  function ListVolume(disk: seq<byte>, base: nat, targets: seq<Option<seq<byte>>>): (r: Option<Listing>) {
    match ParseBootSector(base, ReadAt(disk, base, 512))
    case None => None
    case Some(y) => ListAt(disk, y, y.root, targets)
  }

  // ---- what it should find --------------------------------------------------------------------

  /** An entry shows its long name unless its name is its own 8.3 name; 0x10 marks a directory
      and 0x20 a file, which also shows its length. */
  function ItemOf(e: Entry, short: string, first: nat): (r: Item)
    requires ShortShape(short)
  {
    var long := if Fits83(e.name) then None else Some(e.name);
    match e.node
    case Dir(_) => Item(Eleven(short), long, 0x10, first, 0)
    case File(data) => Item(Eleven(short), long, 0x20, first, |data|)
  }

  function ItemsOf(es: seq<Entry>, ss: seq<string>, fs: seq<nat>): (r: seq<Item>)
    requires Named(es, ss) && |fs| == |es|
    ensures |r| == |es| && forall i | 0 <= i < |r| :: r[i] == ItemOf(es[i], ss[i], fs[i])
  {
    seq(|es|, i requires 0 <= i < |es| => ItemOf(es[i], ss[i], fs[i]))
  }

  /** The root begins with the volume label, 0x08; any other directory with itself and the one
      above it. */
  function HeadingItems(here: nat, above: Option<nat>): (r: seq<Item>) {
    match above
    case None => [Item(LABEL, None, 0x08, 0, 0)]
    case Some(p) => [Item(DOT, None, 0x10, here, 0), Item(DOTDOT, None, 0x10, p, 0)]
  }

  /** Everything a directory of the tree shows when it lies at `here`, below `above`, with its
      entries starting at `fs`. */
  function Shown(up: Upper, es: seq<Entry>, here: nat, above: Option<nat>, fs: seq<nat>): (r: Option<seq<Item>>) {
    match ShortsOf(up, es)
    case None => None
    case Some(ss) => if Named(es, ss) && |fs| == |es| then Some(HeadingItems(here, above) + ItemsOf(es, ss, fs)) else None
  }

  /** The listing of a directory of the tree: its own cluster and the one above in the heading,
      every entry under its names with its kind, and where a file starts, its bytes. */
  ghost predicate Shows(up: Upper, disk: seq<byte>, y: Layout, list: Listing, es: seq<Entry>, above: Option<nat>) {
    exists fs: seq<nat> ::
      && Shown(up, es, list.cluster, above, fs) == Some(list.items) && |fs| == |es|
      && forall k | 0 <= k < |es| && es[k].node.File? ::
           && Finish(disk, y, fs[k], Some(|es[k].node.data|)) == Contents(es[k].node.data)
           && (es[k].node.data == [] ==> fs[k] == 0)
  }

  /** Names as an operating system hands them out: without a NUL. */
  predicate NulFree(es: seq<Entry>) { forall i | 0 <= i < |es| :: '\0' !in es[i].name }

  // ---- records ---------------------------------------------------------------------------------

  lemma {:induction false} CellsOfRecords(recs: seq<seq<byte>>, pad: nat)
    requires Records(recs)
    ensures Cells(Flatten(recs) + Zeros(pad)) == recs
    decreases recs
  {
    var d := Flatten(recs) + Zeros(pad);
    if recs == [] {
      assert d == Zeros(pad);
    } else {
      var rec, rest := recs[0], Flatten(recs[1..]) + Zeros(pad);
      assert |rec| == 32 && rec[0] != 0;
      assert d == rec + rest;
      assert d[..32] == rec && d[32..] == rest && d[0] == rec[0];
      CellsOfRecords(recs[1..], pad);
    }
  }

  lemma {:induction false} ItemsPastLong(part: seq<seq<byte>>, sum: byte, rest: seq<seq<byte>>, longs: seq<seq<byte>>)
    requires (forall i | 0 <= i < |part| :: LongShape(part[i], sum)) && Sized(rest) && Sized(longs)
    ensures Sized(part) && Sized(part + rest) && Sized(longs + part)
    ensures Items(part + rest, longs) == Items(rest, longs + part)
    decreases part
  {
    hide ReadLongName, BelongTo, EntryCluster, EntrySize;
    if part == [] {
      assert part + rest == rest && longs + part == longs;
    } else {
      var all := part + rest;
      assert LongShape(part[0], sum) && all[0] == part[0] && all[1..] == part[1..] + rest;
      ItemsPastLong(part[1..], sum, rest, longs + [part[0]]);
      assert longs + [part[0]] + part[1..] == longs + part;
    }
  }

  /** A record of its own ends the long name in front of it. */
  lemma ItemsOwn(rec: seq<byte>, rest: seq<seq<byte>>, longs: seq<seq<byte>>)
    requires |rec| == 32 && rec[0] != 0xE5 && rec[11] != ATTR_LFN && Sized(rest) && Sized(longs)
    ensures Sized([rec] + rest)
    ensures Items([rec] + rest, longs) ==
            [Item(rec[..11], if BelongTo(longs, rec[..11]) then Some(ReadLongName(longs)) else None,
                  rec[11], EntryCluster(rec), EntrySize(rec))] + Items(rest, [])
  {
    hide ReadLongName, BelongTo, EntryCluster, EntrySize;
    assert ([rec] + rest)[1..] == rest;
  }

  /** The long records of a name belong to its short name and spell the name. */
  lemma LongPartSpells(name: string, short: string)
    requires NameOk(name) && ShortShape(short) && '\0' !in name
    ensures Sized(LongPart(name, short))
    ensures Fits83(name) ==> LongPart(name, short) == []
    ensures !Fits83(name) ==>
              BelongTo(LongPart(name, short), Eleven(short)) && ReadLongName(LongPart(name, short)) == name
  {
    hide LongEntries, ReadLongName, Fits83, ShortShape;
    if !Fits83(name) {
      LongEntriesShape(name, Eleven(short));
      LongNameRoundTrip(name, Eleven(short));
      assert forall i | 0 <= i < LongCount(name) :: LongShape(LongEntries(name, Eleven(short))[i], ChecksumFrom(0, Eleven(short)));
    }
  }

  /** The fields of an entry's own record fit their places. */
  predicate FieldsFit(e: Entry, first: nat) { first < 0x1_0000_0000 && SizeField(e.node) < 0x1_0000_0000 }

  /** One entry's records show one item. */
  lemma ItemsOfEntry(e: Entry, short: string, first: nat, rest: seq<seq<byte>>)
    requires NameOk(e.name) && ShortShape(short) && '\0' !in e.name && Sized(rest) && FieldsFit(e, first)
    ensures Sized(EntryRecords(e, short, first) + rest)
    ensures Items(EntryRecords(e, short, first) + rest, []) == [ItemOf(e, short, first)] + Items(rest, [])
  {
    hide *;
    var longs, own := LongPart(e.name, short), OwnRecord(e, short, first);
    EntryRecordsAre(e, short, first);
    LongPartSpells(e.name, short);
    OwnIsPlain(e, short, first);
    SizedFront(own, rest);
    assert longs + [own] + rest == longs + ([own] + rest) && [] + longs == longs;
    ItemsPastLong(longs, ChecksumFrom(0, Eleven(short)), [own] + rest, []);
    ItemsOwn(own, rest, longs);
    NoneBelongs(Eleven(short));
    ItemIs(e, short, first);
  }

  lemma OwnIsPlain(e: Entry, short: string, first: nat)
    requires ShortShape(short)
    ensures var own := OwnRecord(e, short, first); own[0] != 0xE5 && own[11] != ATTR_LFN
  {
    ShapeIsAscii(short);
  }

  lemma SizedFront(rec: seq<byte>, rest: seq<seq<byte>>)
    requires |rec| == 32 && Sized(rest)
    ensures Sized([rec] + rest) && Sized([])
  {
  }

  lemma NoneBelongs(short11: seq<byte>)
    ensures Sized([]) && !BelongTo([], short11)
  {
  }

  lemma ItemIs(e: Entry, short: string, first: nat)
    requires ShortShape(short) && FieldsFit(e, first)
    ensures var own := OwnRecord(e, short, first);
            ItemOf(e, short, first) ==
            Item(Eleven(short), if Fits83(e.name) then None else Some(e.name), own[11], EntryCluster(own), EntrySize(own))
  {
    hide EntryCluster, EntrySize, Fits83, ShortShape;
    DirentFields(Eleven(short), KindOf(e.node), first, SizeField(e.node));
  }

  ghost predicate AllFit(es: seq<Entry>, fs: seq<nat>)
    requires |fs| == |es|
  {
    forall i | 0 <= i < |es| :: FieldsFit(es[i], fs[i])
  }

  /** The records of all entries show all of them, in order. */
  lemma {:induction false} ItemsOfBody(es: seq<Entry>, ss: seq<string>, fs: seq<nat>, rest: seq<seq<byte>>)
    requires Named(es, ss) && |fs| == |es| && NulFree(es) && AllFit(es, fs) && Sized(rest)
    ensures Sized(Body(es, ss, fs) + rest)
    ensures Items(Body(es, ss, fs) + rest, []) == ItemsOf(es, ss, fs) + Items(rest, [])
    decreases |es|
  {
    if es == [] {
      assert Body(es, ss, fs) + rest == rest && ItemsOf(es, ss, fs) + Items(rest, []) == Items(rest, []);
    } else {
      hide *;
      var n := |es| - 1;
      BodySnoc(es, ss, fs, n);
      ItemsSnoc(es, ss, fs, n);
      LastIs(es, ss, fs, n);
      var entry, front := EntryRecords(es[n], ss[n], fs[n]), Body(es[..n], ss[..n], fs[..n]);
      ItemsOfEntry(es[n], ss[n], fs[n], rest);
      ItemsOfBody(es[..n], ss[..n], fs[..n], entry + rest);
      Regroup(front, entry, rest);
      Regroup(ItemsOf(es[..n], ss[..n], fs[..n]), [ItemOf(es[n], ss[n], fs[n])], Items(rest, []));
    }
  }

  lemma Regroup<T>(a: seq<T>, b: seq<T>, c: seq<T>)
    ensures a + b + c == a + (b + c)
  {
  }

  lemma LastIs(es: seq<Entry>, ss: seq<string>, fs: seq<nat>, n: nat)
    requires Named(es, ss) && |es| == |fs| == n + 1 && NulFree(es) && AllFit(es, fs)
    ensures |ss| == n + 1 && NameOk(es[n].name) && ShortShape(ss[n]) && '\0' !in es[n].name && FieldsFit(es[n], fs[n])
    ensures NulFree(es[..n]) && AllFit(es[..n], fs[..n])
  {
  }

  lemma ItemsSnoc(es: seq<Entry>, ss: seq<string>, fs: seq<nat>, n: nat)
    requires Named(es, ss) && |es| == |fs| == n + 1
    ensures Named(es[..n], ss[..n]) && ShortShape(ss[n])
    ensures ItemsOf(es, ss, fs) == ItemsOf(es[..n], ss[..n], fs[..n]) + [ItemOf(es[n], ss[n], fs[n])]
  {
    hide ItemOf;
  }

  lemma ItemsOfHeading(cluster: nat, parent: Option<nat>, rest: seq<seq<byte>>)
    requires Sized(rest) && cluster < 0x1_0000_0000 && (parent.Some? ==> parent.value < 0x1_0000_0000)
    ensures Sized(Heading(cluster, parent) + rest)
    ensures Items(Heading(cluster, parent) + rest, []) == HeadingItems(cluster, parent) + Items(rest, [])
  {
    hide Items, ReadLongName;
    match parent {
      case None =>
        PlainRecord(LABEL, ATTR_VOLUME, 0, rest);
      case Some(p) =>
        var a, b := Dirent(DOT, ATTR_DIR, cluster, 0), Dirent(DOTDOT, ATTR_DIR, p, 0);
        PlainRecord(DOTDOT, ATTR_DIR, p, rest);
        PlainRecord(DOT, ATTR_DIR, cluster, [b] + rest);
        assert [a, b] + rest == [a] + ([b] + rest);
    }
  }

  lemma PlainRecord(short11: seq<byte>, attr: byte, cluster: nat, rest: seq<seq<byte>>)
    requires |short11| == 11 && short11[0] != 0xE5 && attr != ATTR_LFN && Sized(rest) && cluster < 0x1_0000_0000
    ensures Sized([Dirent(short11, attr, cluster, 0)] + rest)
    ensures Items([Dirent(short11, attr, cluster, 0)] + rest, []) ==
            [Item(short11, None, attr, cluster, 0)] + Items(rest, [])
  {
    hide Items, ReadLongName, EntryCluster, EntrySize;
    var rec := Dirent(short11, attr, cluster, 0);
    assert rec[0] == rec[..11][0];
    DirentFields(short11, attr, cluster, 0);
    ItemsOwn(rec, rest, []);
  }

  /** What is laid starts and ends within the fields. */
  lemma LaidFits(disk: seq<byte>, base: nat, img: seq<byte>, g: Geometry, fat: seq<nat>, next: nat, l: Log,
                 up: Upper, entries: seq<Entry>, cluster: nat, parent: Option<nat>, plans: seq<Plan>)
    requires OnDisk(disk, base, img, g, fat, next, l) && DirLaid(up, entries, cluster, parent, plans, l)
    ensures |plans| == |entries| && |Firsts(plans)| == |entries| && AllFit(entries, Firsts(plans))
    ensures cluster in l.chains && cluster < 0x1_0000_0000
  {
    hide OnDisk;
    ChainBounds(disk, base, img, g, fat, next, l, cluster);
    forall i | 0 <= i < |entries| ensures FieldsFit(entries[i], Firsts(plans)[i]) {
      var first := plans[i].first;
      if entries[i].node.Dir? {
        assert DirLaid(up, entries[i].node.entries, first, ParentOf(cluster, parent), plans[i].kids, l);
      } else {
        assert Placed(entries[i].node, first, l);
      }
      if first in l.chains { ChainBounds(disk, base, img, g, fat, next, l, first); }
    }
  }

  /** A laid directory, read from the disk, shows every entry under its long name. */
  lemma DirectoryLists(up: Upper, disk: seq<byte>, base: nat, img: seq<byte>, g: Geometry, fat: seq<nat>, next: nat,
                       l: Log, entries: seq<Entry>, cluster: nat, parent: Option<nat>, plans: seq<Plan>)
    requires OnDisk(disk, base, img, g, fat, next, l) && DirLaid(up, entries, cluster, parent, plans, l)
    requires NulFree(entries) && (parent.Some? ==> parent.value < 0x1_0000_0000)
    ensures var list := ListAt(disk, VolumeLayout(base, g), cluster, []);
            && list.Some? && list.value.cluster == cluster
            && Shows(up, disk, VolumeLayout(base, g), list.value, entries, parent)
  {
    hide *;
    var firsts, y := Firsts(plans), VolumeLayout(base, g);
    LaidFits(disk, base, img, g, fat, next, l, up, entries, cluster, parent, plans);
    LaidSelf(up, entries, cluster, parent, plans, l);
    SelfFacts(up, entries, cluster, parent, firsts, l);
    ReadsChain(disk, base, img, g, fat, next, l, cluster);
    var recs, blob := DirRecords(up, entries, cluster, parent, firsts), l.content[cluster];
    RecordsLive(up, entries, cluster, parent, firsts);
    CellsOfRecords(recs, l.chains[cluster] * CLUSTER - |blob|);
    ItemsOfAll(up, entries, cluster, parent, firsts);
    ListEnd(disk, y, cluster, blob + Zeros(l.chains[cluster] * CLUSTER - |blob|));
    FilesFinish(up, disk, base, img, g, fat, next, l, entries, cluster, parent, plans);
    ShowsWith(up, disk, y, ListAt(disk, y, cluster, []).value, entries, parent, firsts);
  }

  lemma LaidSelf(up: Upper, entries: seq<Entry>, cluster: nat, parent: Option<nat>, plans: seq<Plan>, l: Log)
    requires DirLaid(up, entries, cluster, parent, plans, l)
    ensures SelfLaid(up, entries, cluster, parent, Firsts(plans), l)
  {
  }

  lemma ShowsWith(up: Upper, disk: seq<byte>, y: Layout, list: Listing, es: seq<Entry>, above: Option<nat>, fs: seq<nat>)
    requires Shown(up, es, list.cluster, above, fs) == Some(list.items) && |fs| == |es|
    requires forall k | 0 <= k < |es| && es[k].node.File? ::
               && Finish(disk, y, fs[k], Some(|es[k].node.data|)) == Contents(es[k].node.data)
               && (es[k].node.data == [] ==> fs[k] == 0)
    ensures Shows(up, disk, y, list, es, above)
  {
    hide Shown, Finish;
  }

  lemma FilesFinish(up: Upper, disk: seq<byte>, base: nat, img: seq<byte>, g: Geometry, fat: seq<nat>, next: nat,
                    l: Log, entries: seq<Entry>, cluster: nat, parent: Option<nat>, plans: seq<Plan>)
    requires OnDisk(disk, base, img, g, fat, next, l) && DirLaid(up, entries, cluster, parent, plans, l)
    ensures |Firsts(plans)| == |entries|
    ensures forall k | 0 <= k < |entries| && entries[k].node.File? ::
              var data, first := entries[k].node.data, Firsts(plans)[k];
              && Finish(disk, VolumeLayout(base, g), first, Some(|data|)) == Contents(data)
              && (data == [] ==> first == 0)
  {
    hide OnDisk, Finish, SelfLaid;
    forall k | 0 <= k < |entries| && entries[k].node.File?
      ensures var data, first := entries[k].node.data, Firsts(plans)[k];
              && Finish(disk, VolumeLayout(base, g), first, Some(|data|)) == Contents(data)
              && (data == [] ==> first == 0)
    {
      assert Placed(entries[k].node, plans[k].first, l);
      FinishFile(disk, base, img, g, fat, next, l, entries[k].node.data, plans[k].first);
    }
  }

  lemma RecordsLive(up: Upper, entries: seq<Entry>, cluster: nat, parent: Option<nat>, firsts: seq<nat>)
    requires ShortsOf(up, entries).Some? && Named(entries, ShortsOf(up, entries).value) && |firsts| == |entries|
    ensures Records(DirRecords(up, entries, cluster, parent, firsts))
  {
    hide DirRecords, FirstMatch, Hit;
    RecordsMatch(up, entries, cluster, parent, firsts, LABEL);
  }

  lemma ListEnd(disk: seq<byte>, y: Layout, cluster: nat, d: seq<byte>)
    requires ChainBytes(disk, y, cluster) == Some(d)
    ensures ListAt(disk, y, cluster, []) == Some(Listing(cluster, Items(Cells(d), [])))
  {
  }

  lemma ItemsOfAll(up: Upper, entries: seq<Entry>, cluster: nat, parent: Option<nat>, firsts: seq<nat>)
    requires ShortsOf(up, entries).Some? && Named(entries, ShortsOf(up, entries).value) && |firsts| == |entries|
    requires NulFree(entries) && AllFit(entries, firsts)
    requires cluster < 0x1_0000_0000 && (parent.Some? ==> parent.value < 0x1_0000_0000)
    ensures Sized(DirRecords(up, entries, cluster, parent, firsts))
    ensures Some(Items(DirRecords(up, entries, cluster, parent, firsts), [])) ==
            Shown(up, entries, cluster, parent, firsts)
  {
    hide Items, Heading, Body, HeadingItems, ItemsOf, ShortsOf, Named, NulFree, AllFit;
    var ss := ShortsOf(up, entries).value;
    var head, body := Heading(cluster, parent), Body(entries, ss, firsts);
    assert Items([], []) == [] by { NothingShown(); }
    ItemsOfBody(entries, ss, firsts, []);
    assert body + [] == body && ItemsOf(entries, ss, firsts) + [] == ItemsOf(entries, ss, firsts);
    ItemsOfHeading(cluster, parent, body);
  }

  lemma NothingShown()
    ensures Sized([]) && Items([], []) == []
  {
  }

  // ---- along a path ------------------------------------------------------------------------------

  /** The directory a list of indices leads to; the empty list stays where it is. */
  function DirAt(entries: seq<Entry>, at: seq<nat>): (r: Option<seq<Entry>>) {
    if at == [] then Some(entries)
    else
      match NodeAt(entries, at)
      case None => None
      case Some(File(_)) => None
      case Some(Dir(es)) => Some(es)
  }

  function NamesTo(entries: seq<Entry>, at: seq<nat>): (r: seq<string>)
    requires DirAt(entries, at).Some?
  {
    if at == [] then [] else NamesAt(entries, at)
  }

  ghost predicate Clear(up: Upper, entries: seq<Entry>, root: bool, at: seq<nat>)
    requires DirAt(entries, at).Some?
  {
    at == [] || Unambiguous(up, entries, root, at)
  }

  /** One step along such a path. */
  lemma ClearStep(up: Upper, entries: seq<Entry>, root: bool, at: seq<nat>)
    requires DirAt(entries, at).Some? && Clear(up, entries, root, at) && at != []
    ensures at[0] < |entries| && entries[at[0]].node.Dir?
    ensures var e, es := entries[at[0]], entries[at[0]].node.entries;
            && Fits83(e.name) && ListedName(e.name) && e.name != "." && e.name != ".."
            && ShortsOf(up, entries).Some? && FirstOfItsName(up, entries, at[0])
            && (root ==> !Matches(ShortEntryName(e.name), LABEL))
            && DirAt(es, at[1..]) == DirAt(entries, at) && Clear(up, es, false, at[1..])
            && Targets(up, NamesTo(entries, at)) == [ShortName(up, e.name)] + Targets(up, NamesTo(es, at[1..]))
  {
    hide ShortName, Fits83, ShortEntryName, ShortsOf, FirstOfItsName, Matches;
    PathStep(up, entries, root, at);
    var all, es := Targets(up, NamesTo(entries, at)), entries[at[0]].node.entries;
    assert all == [all[0]] + all[1..];
    if |at| == 1 { assert at[1..] == [] && all[1..] == Targets(up, NamesTo(es, [])); }
  }

  /** The reader steps from a laid directory into the chain of the entry it is sent to. */
  lemma StepsInto(up: Upper, disk: seq<byte>, base: nat, img: seq<byte>, g: Geometry, fat: seq<nat>, next: nat, l: Log,
                  entries: seq<Entry>, cluster: nat, parent: Option<nat>, plans: seq<Plan>, k: nat,
                  targets: seq<Option<seq<byte>>>, rest: seq<Option<seq<byte>>>)
    requires UpperOk(up) && OnDisk(disk, base, img, g, fat, next, l) && DirLaid(up, entries, cluster, parent, plans, l)
    requires TreeOk(up, entries, parent.None?) && k < |entries| && entries[k].node.Dir?
    requires Fits83(entries[k].name) && ListedName(entries[k].name) && entries[k].name != "." && entries[k].name != ".."
    requires ShortsOf(up, entries).Some? && FirstOfItsName(up, entries, k)
    requires parent.None? ==> !Matches(ShortEntryName(entries[k].name), LABEL)
    requires targets == [ShortName(up, entries[k].name)] + rest
    ensures k < |plans| && ListAt(disk, VolumeLayout(base, g), cluster, targets) ==
                           ListAt(disk, VolumeLayout(base, g), plans[k].first, rest)
  {
    hide *;
    var firsts, shorts := Firsts(plans), ShortsOf(up, entries).value;
    LaidFacts(up, entries, cluster, parent, plans, l);
    SelfFacts(up, entries, cluster, parent, firsts, l);
    FittingComponent(up, entries[k].name);
    FoundAtOwnIndex(up, entries, k);
    var target := Eleven(ShortEntryName(entries[k].name));
    ElevenMatches(ShortEntryName(entries[k].name));
    ReadsChain(disk, base, img, g, fat, next, l, cluster);
    DirRecordsFit(up, entries, cluster, parent, firsts);
    var blob, total := l.content[cluster], l.chains[cluster] * CLUSTER;
    TargetSafe(ShortEntryName(entries[k].name));
    ScanLaid(up, entries, cluster, parent, firsts, target, total);
    HitOwn(up, entries, parent.None?, firsts, target, k);
    SubdirReserved(up, entries, cluster, parent, plans, l, k);
    FirstsAt(plans, k);
    OwnFields(disk, base, img, g, fat, next, l, entries[k], shorts[k], firsts[k]);
    ListStep(disk, VolumeLayout(base, g), cluster, blob + Zeros(total - |blob|), target, rest,
             OwnRecord(entries[k], shorts[k], firsts[k]));
  }

  lemma TargetSafe(short: string)
    requires ShortShape(short)
    ensures |Eleven(short)| == 11 && Eleven(short)[0] != 0x2E
  {
  }

  lemma FirstsAt(plans: seq<Plan>, k: nat)
    requires k < |plans|
    ensures |Firsts(plans)| == |plans| && Firsts(plans)[k] == plans[k].first
  {
  }

  lemma HitOwn(up: Upper, entries: seq<Entry>, root: bool, firsts: seq<nat>, target: seq<byte>, k: nat)
    requires ShortsOf(up, entries).Some? && Named(entries, ShortsOf(up, entries).value) && |firsts| == |entries|
    requires !(root && target == LABEL) && FirstIndex(ShortsOf(up, entries).value, target) == Some(k)
    ensures k < |entries| && ShortShape(ShortsOf(up, entries).value[k])
    ensures Hit(up, entries, root, firsts, target) == At(OwnRecord(entries[k], ShortsOf(up, entries).value[k], firsts[k]))
  {
    hide ShortsOf, FirstIndex;
  }

  lemma ListStep(disk: seq<byte>, y: Layout, cluster: nat, d: seq<byte>, target: seq<byte>,
                 rest: seq<Option<seq<byte>>>, e: seq<byte>)
    requires ChainBytes(disk, y, cluster) == Some(d) && Scan(d, 0, Some(target)) == At(e) && |e| == 32
    ensures ListAt(disk, y, cluster, [Some(target)] + rest) == ListAt(disk, y, EntryCluster(e), rest)
  {
    hide ChainBytes, Scan, Items, Cells;
    assert ([Some(target)] + rest)[1..] == rest;
  }

  /** The way to the directory above is as clear as the whole way. */
  lemma {:induction false} WayAbove(up: Upper, entries: seq<Entry>, root: bool, at: seq<nat>)
    requires at != [] && DirAt(entries, at).Some? && Clear(up, entries, root, at)
    ensures DirAt(entries, at[..|at| - 1]).Some? && Clear(up, entries, root, at[..|at| - 1])
    decreases at
  {
    hide *;
    var less := at[..|at| - 1];
    if |at| == 1 {
      assert less == [];
      ClearHere(up, entries, root);
    } else {
      ClearStep(up, entries, root, at);
      WayAbove(up, entries[at[0]].node.entries, false, at[1..]);
      assert less[1..] == at[1..][..|at[1..]| - 1];
      ClearBack(up, entries, root, at, less);
    }
  }

  lemma ClearHere(up: Upper, entries: seq<Entry>, root: bool)
    ensures DirAt(entries, []).Some? && Clear(up, entries, root, [])
  {
  }

  lemma ClearBack(up: Upper, entries: seq<Entry>, root: bool, at: seq<nat>, less: seq<nat>)
    requires less != [] && at != [] && less[0] == at[0] < |entries| && entries[at[0]].node.Dir?
    requires DirAt(entries, at).Some? && Clear(up, entries, root, at)
    requires DirAt(entries[at[0]].node.entries, less[1..]).Some?
    requires Clear(up, entries[at[0]].node.entries, false, less[1..])
    ensures DirAt(entries, less).Some? && Clear(up, entries, root, less)
  {
    hide Fits83, ShortsOf, FirstOfItsName, Matches, ShortEntryName, ListedName;
  }

  /** Where the directory above the one at the end of `at` lies; directly under the root that is
      0, by rule. */
  function AboveAt(up: Upper, disk: seq<byte>, y: Layout, entries: seq<Entry>, cluster: nat, parent: Option<nat>,
                   at: seq<nat>): (r: Option<nat>)
  {
    if at == [] then parent
    else if |at| == 1 && parent.None? then Some(0)
    else if DirAt(entries, at[..|at| - 1]).None? then None
    else
      match ListAt(disk, y, cluster, Targets(up, NamesTo(entries, at[..|at| - 1])))
      case None => None
      case Some(list) => Some(list.cluster)
  }

  /** Every directory that a path of first-of-their-name 8.3 components leads to shows its
      entries, each under its long name, below the directory the path leads through. */
  lemma {:induction false} PathLists(up: Upper, disk: seq<byte>, base: nat, img: seq<byte>, g: Geometry, fat: seq<nat>,
                                     next: nat, l: Log, entries: seq<Entry>, cluster: nat, parent: Option<nat>,
                                     plans: seq<Plan>, at: seq<nat>)
    requires UpperOk(up) && OnDisk(disk, base, img, g, fat, next, l) && DirLaid(up, entries, cluster, parent, plans, l)
    requires TreeOk(up, entries, parent.None?) && DirAt(entries, at).Some? && Clear(up, entries, parent.None?, at)
    requires NulFree(DirAt(entries, at).value) && (parent.Some? ==> parent.value < 0x1_0000_0000)
    ensures var y := VolumeLayout(base, g);
            var list := ListAt(disk, y, cluster, Targets(up, NamesTo(entries, at)));
            && list.Some?
            && (at == [] ==> list.value.cluster == cluster)
            && Shows(up, disk, y, list.value, DirAt(entries, at).value,
                     AboveAt(up, disk, y, entries, cluster, parent, at))
    decreases at
  {
    hide *;
    LaidFacts(up, entries, cluster, parent, plans, l);
    LaidFits(disk, base, img, g, fat, next, l, up, entries, cluster, parent, plans);
    if at == [] {
      HereIs(up, disk, VolumeLayout(base, g), entries, cluster, parent, at);
      DirectoryLists(up, disk, base, img, g, fat, next, l, entries, cluster, parent, plans);
    } else {
      WayAbove(up, entries, parent.None?, at);
      ClearStep(up, entries, parent.None?, at);
      var y, k, es := VolumeLayout(base, g), at[0], entries[at[0]].node.entries;
      StepsInto(up, disk, base, img, g, fat, next, l, entries, cluster, parent, plans, k,
                Targets(up, NamesTo(entries, at)), Targets(up, NamesTo(es, at[1..])));
      SubtreeFacts(up, entries, parent.None?, k);
      SubdirReserved(up, entries, cluster, parent, plans, l, k);
      ParentSmall(cluster, parent);
      PathLists(up, disk, base, img, g, fat, next, l, es, plans[k].first, ParentOf(cluster, parent), plans[k].kids, at[1..]);
      SameAbove(up, disk, base, img, g, fat, next, l, entries, cluster, parent, plans, at, k, es);
    }
  }

  lemma ParentSmall(cluster: nat, parent: Option<nat>)
    requires cluster < 0x1_0000_0000
    ensures ParentOf(cluster, parent).Some? && ParentOf(cluster, parent).value < 0x1_0000_0000
  {
  }

  /** Seen from the directory itself or from one further up, the one above is the same. */
  lemma SameAbove(up: Upper, disk: seq<byte>, base: nat, img: seq<byte>, g: Geometry, fat: seq<nat>, next: nat, l: Log,
                  entries: seq<Entry>, cluster: nat, parent: Option<nat>, plans: seq<Plan>, at: seq<nat>,
                  k: nat, es: seq<Entry>)
    requires UpperOk(up) && OnDisk(disk, base, img, g, fat, next, l) && DirLaid(up, entries, cluster, parent, plans, l)
    requires TreeOk(up, entries, parent.None?) && DirAt(entries, at).Some? && Clear(up, entries, parent.None?, at)
    requires at != [] && at[0] == k < |entries| == |plans| && entries[k].node == Dir(es)
    ensures AboveAt(up, disk, VolumeLayout(base, g), entries, cluster, parent, at) ==
            AboveAt(up, disk, VolumeLayout(base, g), es, plans[k].first, ParentOf(cluster, parent), at[1..])
  {
    hide *;
    var y, less := VolumeLayout(base, g), at[..|at| - 1];
    if |at| == 1 {
      assert at[1..] == [];
      AboveHere(up, disk, y, entries, es, cluster, parent, plans[k].first, at);
      LaidFacts(up, entries, cluster, parent, plans, l);
      LaidSelf(up, entries, cluster, parent, plans, l);
      SelfFacts(up, entries, cluster, parent, Firsts(plans), l);
      ReadsChain(disk, base, img, g, fat, next, l, cluster);
      ListEnd(disk, y, cluster, l.content[cluster] + Zeros(l.chains[cluster] * CLUSTER - |l.content[cluster]|));
    } else {
      WayAbove(up, entries, parent.None?, at);
      ClearStep(up, entries, parent.None?, less);
      assert less[1..] == at[1..][..|at[1..]| - 1];
      StepsInto(up, disk, base, img, g, fat, next, l, entries, cluster, parent, plans, k,
                Targets(up, NamesTo(entries, less)), Targets(up, NamesTo(es, less[1..])));
      ParentOfSome(cluster, parent);
      AboveDeeper(up, disk, y, entries, es, cluster, parent, plans[k].first, ParentOf(cluster, parent), at);
    }
  }

  lemma ParentOfSome(cluster: nat, parent: Option<nat>)
    ensures ParentOf(cluster, parent).Some?
  {
  }

  lemma AboveHere(up: Upper, disk: seq<byte>, y: Layout, entries: seq<Entry>, es: seq<Entry>, cluster: nat,
                  parent: Option<nat>, first: nat, at: seq<nat>)
    requires |at| == 1
    ensures ListAt(disk, y, cluster, []).Some? && ListAt(disk, y, cluster, []).value.cluster == cluster ==>
              AboveAt(up, disk, y, entries, cluster, parent, at) ==
              AboveAt(up, disk, y, es, first, ParentOf(cluster, parent), [])
  {
    hide ListAt;
    assert at[..0] == [] && Targets(up, NamesTo(entries, [])) == [];
  }

  lemma AboveDeeper(up: Upper, disk: seq<byte>, y: Layout, entries: seq<Entry>, es: seq<Entry>, cluster: nat,
                    parent: Option<nat>, first: nat, above: Option<nat>, at: seq<nat>)
    requires |at| > 1 && above.Some? && DirAt(entries, at[..|at| - 1]).Some?
    requires DirAt(es, at[1..][..|at[1..]| - 1]).Some?
    requires ListAt(disk, y, cluster, Targets(up, NamesTo(entries, at[..|at| - 1]))) ==
             ListAt(disk, y, first, Targets(up, NamesTo(es, at[1..][..|at[1..]| - 1])))
    ensures AboveAt(up, disk, y, entries, cluster, parent, at) == AboveAt(up, disk, y, es, first, above, at[1..])
  {
    hide ListAt, NamesTo, Targets, DirAt;
  }

  lemma HereIs(up: Upper, disk: seq<byte>, y: Layout, entries: seq<Entry>, cluster: nat, parent: Option<nat>, at: seq<nat>)
    requires at == []
    ensures DirAt(entries, at) == Some(entries) && Targets(up, NamesTo(entries, at)) == []
    ensures AboveAt(up, disk, y, entries, cluster, parent, at) == parent
  {
  }

  ghost predicate Listable(up: Upper, entries: seq<Entry>, at: seq<nat>) {
    DirAt(entries, at).Some? && Clear(up, entries, true, at) && NulFree(DirAt(entries, at).value)
  }

  /** The volume at `base` lists the directory at the end of `at` as the tree has it. */
  ghost predicate VolumeShows(up: Upper, disk: seq<byte>, base: nat, entries: seq<Entry>, at: seq<nat>)
    requires Listable(up, entries, at)
  {
    var list, y := ListVolume(disk, base, Targets(up, NamesTo(entries, at))), ParseBootSector(base, ReadAt(disk, base, 512));
    && list.Some? && y.Some?
    && Shows(up, disk, y.value, list.value, DirAt(entries, at).value,
             AboveAt(up, disk, y.value, entries, y.value.root, None, at))
  }

  /** An image from which any disk that contains it lists every such directory. */
  ghost predicate ListsAs(up: Upper, image: seq<byte>, entries: seq<Entry>) {
    forall disk: seq<byte>, base: nat, at: seq<nat> | Has(disk, base, image) && Listable(up, entries, at) ::
      VolumeShows(up, disk, base, entries, at)
  }

  lemma VolumeLists(up: Upper, disk: seq<byte>, base: nat, img: seq<byte>, g: Geometry, fat: seq<nat>, next: nat,
                    l: Log, entries: seq<Entry>, plans: seq<Plan>, at: seq<nat>)
    requires UpperOk(up) && OnDisk(disk, base, img, g, fat, next, l) && DirLaid(up, entries, 2, None, plans, l)
    requires TreeOk(up, entries, true) && Listable(up, entries, at)
    ensures VolumeShows(up, disk, base, entries, at)
  {
    hide OnDisk, DirLaid, TreeOk, UpperOk, ListAt, ParseBootSector, Shows, Targets, NamesTo, DirAt, Clear, NulFree, AboveAt;
    ReadsLayout(disk, base, img, g, fat, next, l);
    PathLists(up, disk, base, img, g, fat, next, l, entries, 2, None, plans, at);
  }
}
