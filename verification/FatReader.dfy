/** The independent reader: find the first GPT partition, take the geometry from
    its boot sector, and follow directory records and FAT chains to a file. Each
    loop of the original is a method proved equal to the function beside it;
    `Fault` stands for the exception the original would raise. */
module FatReader {
  import opened Bytes
  import opened DiskBytes
  import opened FatNames

  datatype Outcome = Missing | Contents(data: seq<byte>) | Fault

  /** `f.seek(off); f.read(n)`: short at the end of the file. */
  function ReadAt(disk: seq<byte>, off: nat, n: nat): (r: seq<byte>)
    ensures off + n <= |disk| ==> r == disk[off..off + n]
  {
    Slice(disk, off, off + n)
  }

  // ---- FAT chains -------------------------------------------------------------------

  datatype Layout = Layout(fatOff: nat, data: nat, clusterSize: nat, root: nat)

  const END_OF_CHAIN := 0x0FFF_FFF8

  predicate IsCluster(c: nat) { 2 <= c < END_OF_CHAIN }

  ghost function AllClusters(): set<nat> { set c: nat | 2 <= c < END_OF_CHAIN && IsCluster(c) }

  function NextCluster(disk: seq<byte>, l: Layout, c: nat): (r: Option<nat>)
    ensures r.Some? ==> r.value < 0x1000_0000
  {
    var raw := ReadAt(disk, l.fatOff + c * 4, 4);
    if |raw| < 4 then None else Some(UnLe(raw) % 0x1000_0000)
  }

  /** The clusters visited from `c` on; a cluster met twice ends the walk. */
  function Chain(disk: seq<byte>, l: Layout, c: nat, seen: set<nat>): (r: Option<seq<nat>>)
    ensures r.Some? ==> forall i | 0 <= i < |r.value| :: IsCluster(r.value[i])
    decreases AllClusters() - seen
  {
    if !IsCluster(c) || c in seen then Some([])
    else
      match NextCluster(disk, l, c)
      case None => None
      case Some(n) =>
        assert c in AllClusters() - seen && c !in AllClusters() - (seen + {c});
        match Chain(disk, l, n, seen + {c})
        case None => None
        case Some(rest) => Some([c] + rest)
  }

  function Offset(l: Layout, c: nat): (r: nat)
    requires c >= 2
  {
    l.data + (c - 2) * l.clusterSize
  }

  function ReadCluster(disk: seq<byte>, l: Layout, c: nat): (r: seq<byte>)
    requires c >= 2
  {
    ReadAt(disk, Offset(l, c), l.clusterSize)
  }

  function Gather(disk: seq<byte>, l: Layout, cs: seq<nat>): (r: seq<byte>)
    requires forall i | 0 <= i < |cs| :: cs[i] >= 2
  {
    if cs == [] then []
    else ReadCluster(disk, l, cs[0]) + Gather(disk, l, cs[1..])
  }

  function ChainBytes(disk: seq<byte>, l: Layout, start: nat): (r: Option<seq<byte>>)
  {
    match Chain(disk, l, start, {})
    case None => None
    case Some(cs) => Some(Gather(disk, l, cs))
  }

  lemma {:induction false} GatherSnoc(disk: seq<byte>, l: Layout, cs: seq<nat>, c: nat)
    requires forall i | 0 <= i < |cs| :: cs[i] >= 2
    requires c >= 2
    ensures Gather(disk, l, cs + [c]) == Gather(disk, l, cs) + ReadCluster(disk, l, c)
  {
    if cs == [] {
      assert (cs + [c])[1..] == [];
      assert Gather(disk, l, (cs + [c])[1..]) == [];
    } else {
      GatherSnoc(disk, l, cs[1..], c);
      assert (cs + [c])[1..] == cs[1..] + [c];
    }
  }

  function Prepend(a: seq<nat>, r: Option<seq<nat>>): (p: Option<seq<nat>>)
    ensures a == [] ==> p == r
  {
    match r
    case None => None
    case Some(rest) => assert [] + rest == rest; Some(a + rest)
  }

  lemma ChainStep(disk: seq<byte>, l: Layout, c: nat, seen: set<nat>, done: seq<nat>)
    requires IsCluster(c) && c !in seen
    ensures AllClusters() - (seen + {c}) < AllClusters() - seen
    ensures var next := NextCluster(disk, l, c);
            Prepend(done, Chain(disk, l, c, seen)) ==
            if next.None? then None else Prepend(done + [c], Chain(disk, l, next.value, seen + {c}))
  {
    assert c in AllClusters() - seen && c !in AllClusters() - (seen + {c});
    var next := NextCluster(disk, l, c);
    if next.Some? {
      var rest := Chain(disk, l, next.value, seen + {c});
      assert rest.Some? ==> done + ([c] + rest.value) == done + [c] + rest.value;
    }
  }

  /** The cluster walk and the reads it interleaves. */
  method ReadChain(disk: seq<byte>, l: Layout, start: nat) returns (r: Option<seq<byte>>)
    ensures r == ChainBytes(disk, l, start)
  {
    var c: nat, seen: set<nat>, out: seq<byte> := start, {}, [];
    ghost var done: seq<nat> := [];
    while IsCluster(c) && c !in seen
      invariant forall i | 0 <= i < |done| :: done[i] >= 2
      invariant out == Gather(disk, l, done)
      invariant Chain(disk, l, start, {}) == Prepend(done, Chain(disk, l, c, seen))
      decreases AllClusters() - seen
    {
      ChainStep(disk, l, c, seen, done);
      out := out + ReadCluster(disk, l, c);
      GatherSnoc(disk, l, done, c);
      var next := NextCluster(disk, l, c);
      if next.None? { return None; }
      done := done + [c];
      c, seen := next.value, seen + {c};
    }
    assert Chain(disk, l, c, seen) == Some([]) && done + [] == done;
    return Some(out);
  }

  // ---- directories ----------------------------------------------------------------------

  datatype Found = NotThere | At(entry: seq<byte>) | Bad

  /** One step of the scan over a directory, for the record starting at `o`. */
  datatype Verdict = Stop | Skip | Take | Crash

  function Judge(e: seq<byte>, target: Option<seq<byte>>): (r: Verdict)
    requires e != []
  {
    if e[0] == 0 then Stop
    else if e[0] == 0xE5 then Skip
    else if |e| < 12 then Crash
    else if e[11] % 16 == 15 then Skip
    else if target.None? then Crash
    else if e[..11] == target.value then Take
    else Skip
  }

  function Scan(d: seq<byte>, o: nat, target: Option<seq<byte>>): (r: Found)
    decreases |d| - o
  {
    if o >= |d| then NotThere
    else
      var e := Slice(d, o, o + 32);
      match Judge(e, target)
      case Stop => NotThere
      case Crash => Bad
      case Take => At(e)
      case Skip => Scan(d, o + 32, target)
  }

  method ScanDirectory(d: seq<byte>, target: Option<seq<byte>>) returns (r: Found)
    ensures r == Scan(d, 0, target)
  {
    var o := 0;
    while o < |d|
      invariant Scan(d, 0, target) == Scan(d, o, target)
      decreases |d| - o
    {
      var e := Slice(d, o, o + 32);
      match Judge(e, target)
      case Stop => return NotThere;
      case Crash => return Bad;
      case Take => return At(e);
      case Skip => o := o + 32;
    }
    return NotThere;
  }

  function EntryCluster(e: seq<byte>): (r: nat)
    requires |e| >= 32
  {
    Get(e, 20, 2) * 0x1_0000 + Get(e, 26, 2)
  }

  function EntrySize(e: seq<byte>): (r: nat)
    requires |e| >= 32
  {
    Get(e, 28, 4)
  }

  // ---- paths ------------------------------------------------------------------------------

  predicate AllAscii(s: string) {
    forall i | 0 <= i < |s| :: s[i] < 128 as char
  }

  function Ascii(s: string): (r: seq<byte>)
    requires AllAscii(s)
    ensures |r| == |s| && forall i | 0 <= i < |s| :: r[i] == s[i] as int
  {
    seq(|s|, i requires 0 <= i < |s| => s[i] as int)
  }

  /** The 11 bytes a path component is compared with. */
  function ShortName(up: Upper, component: string): (r: Option<seq<byte>>)
    ensures r.Some? ==> |r.value| == 11
  {
    var u := Uppercase(up, component);
    var s := LJust(Stem(u), 8)[..8] + LJust(Ext(u), 3)[..3];
    if AllAscii(s) then Some(Ascii(s)) else None
  }

  /** `[p for p in path.split("/") if p]` */
  function Components(path: string, current: string): (r: seq<string>)
    decreases |path|
  {
    if path == "" then (if current == "" then [] else [current])
    else if path[0] == '/' then (if current == "" then [] else [current]) + Components(path[1..], "")
    else Components(path[1..], current + [path[0]])
  }

  /** A path spelt out: a slash before every component. */
  function JoinPath(parts: seq<string>): (r: string) {
    if parts == [] then "" else "/" + parts[0] + JoinPath(parts[1..])
  }

  predicate IsComponent(part: string) { part != "" && '/' !in part }

  lemma {:induction false} ComponentRun(part: string, rest: string, current: string)
    requires '/' !in part
    ensures Components(part + rest, current) == Components(rest, current + part)
    decreases part
  {
    if part == "" {
      assert part + rest == rest && current + part == current;
    } else {
      var path := part + rest;
      assert path[0] == part[0] && part[0] in part && path[1..] == part[1..] + rest;
      ComponentRun(part[1..], rest, current + [part[0]]);
      assert current + [part[0]] + part[1..] == current + part;
    }
  }

  /** Splitting a path gives back the components it was joined from. */
  lemma {:induction false} SplitJoined(parts: seq<string>)
    requires forall i | 0 <= i < |parts| :: IsComponent(parts[i])
    ensures Components(JoinPath(parts), "") == parts
  {
    if parts == [] {
    } else {
      SplitJoined(parts[1..]);
      SplitOne(parts[0], JoinPath(parts[1..]));
      assert parts == [parts[0]] + parts[1..];
    }
  }

  lemma SplitOne(part: string, rest: string)
    requires IsComponent(part) && (rest == "" || rest[0] == '/')
    ensures Components("/" + part + rest, "") == [part] + Components(rest, "")
  {
    var path := "/" + part + rest;
    assert path[1..] == part + rest && "" + part == part;
    ComponentRun(part, rest, "");
    hide IsComponent;
    assert rest == "" ==> Components(rest, part) == [part];
  }

  function Targets(up: Upper, parts: seq<string>): (r: seq<Option<seq<byte>>>)
    ensures |r| == |parts|
    ensures forall i | 0 <= i < |r| :: r[i] == ShortName(up, parts[i])
  {
    seq(|parts|, i requires 0 <= i < |parts| => ShortName(up, parts[i]))
  }

  function Finish(disk: seq<byte>, l: Layout, cluster: nat, size: Option<nat>): (r: Outcome)
  {
    match size
    case None => Missing
    case Some(n) =>
      if n == 0 then Contents([])
      else
        match ChainBytes(disk, l, cluster)
        case None => Fault
        case Some(d) => Contents(Slice(d, 0, n))
  }

  /** From directory `cluster`, resolve the remaining path components. */
  function Resolve(disk: seq<byte>, l: Layout, cluster: nat, size: Option<nat>,
                   targets: seq<Option<seq<byte>>>): (r: Outcome)
    decreases |targets|
  {
    if targets == [] then Finish(disk, l, cluster, size)
    else
      match ChainBytes(disk, l, cluster)
      case None => Fault
      case Some(d) =>
        match Scan(d, 0, targets[0])
        case NotThere => Missing
        case Bad => Fault
        case At(e) =>
          if |e| < 32 then Fault
          else Resolve(disk, l, EntryCluster(e), Some(EntrySize(e)), targets[1..])
  }

  /** The layout a boot sector at `base` describes. */
  function ParseBootSector(base: nat, bs: seq<byte>): (r: Option<Layout>)
  {
    if |bs| < 48 then None
    else
      var bps, spc, rsv, nfat, spf := Get(bs, 11, 2), bs[13], Get(bs, 14, 2), bs[16], Get(bs, 36, 4);
      Some(Layout(base + rsv * bps, base + (rsv + nfat * spf) * bps, spc * bps, Get(bs, 44, 4)))
  }

  lemma ParsedFields(base: nat, bs: seq<byte>, bps: nat, spc: nat, rsv: nat, nfat: nat, spf: nat, root: nat)
    requires |bs| >= 48 && Get(bs, 11, 2) == bps && bs[13] == spc && Get(bs, 14, 2) == rsv && bs[16] == nfat
    requires Get(bs, 36, 4) == spf && Get(bs, 44, 4) == root
    ensures ParseBootSector(base, bs) == Some(Layout(base + rsv * bps, base + (rsv + nfat * spf) * bps, spc * bps, root))
  {
    hide Get;
  }

  function ReadVolume(disk: seq<byte>, base: nat, targets: seq<Option<seq<byte>>>): (r: Outcome)
  {
    match ParseBootSector(base, ReadAt(disk, base, 512))
    case None => Fault
    case Some(l) => Resolve(disk, l, l.root, None, targets)
  }

  method ReadVolumeFile(up: Upper, disk: seq<byte>, base: nat, path: string) returns (r: Outcome)
    ensures r == ReadVolume(disk, base, Targets(up, Components(path, "")))
  {
    hide ParseBootSector, ReadAt, Components, ShortName, ChainBytes, EntryCluster, EntrySize, Slice;
    var layout := ParseBootSector(base, ReadAt(disk, base, 512));
    if layout.None? { return Fault; }
    var l := layout.value;
    var cluster, size, parts := l.root, None, Components(path, "");
    ghost var targets := Targets(up, parts);
    for i := 0 to |parts|
      invariant ReadVolume(disk, base, targets) == Resolve(disk, l, cluster, size, targets[i..])
    {
      assert targets[i..][0] == ShortName(up, parts[i]) && targets[i..][1..] == targets[i + 1..];
      var d := ReadChain(disk, l, cluster);
      if d.None? { return Fault; }
      var found := ScanDirectory(d.value, ShortName(up, parts[i]));
      if found.Bad? { return Fault; }
      if found.NotThere? { return Missing; }
      if |found.entry| < 32 { return Fault; }
      cluster, size := EntryCluster(found.entry), Some(EntrySize(found.entry));
    }
    if size.None? { return Missing; }
    if size.value == 0 { return Contents([]); }
    var d := ReadChain(disk, l, cluster);
    if d.None? { return Fault; }
    return Contents(Slice(d.value, 0, size.value));
  }

  // ---- the partition table -------------------------------------------------------------------

  const GPT_MAGIC: seq<byte> := [0x45, 0x46, 0x49, 0x20, 0x50, 0x41, 0x52, 0x54]

  function GptEntry(ents: seq<byte>, i: nat, esz: nat): (r: seq<byte>) {
    Slice(ents, i * esz, (i + 1) * esz)
  }

  /** The first LBA of the first entry from `i` on whose type is not all zero. */
  function FirstUsed(ents: seq<byte>, i: nat, n: nat, esz: nat): (r: Option<nat>)
    decreases n - i
  {
    if i >= n then None
    else
      var e := GptEntry(ents, i, esz);
      if Slice(e, 0, 16) != Zeros(16) then
        if |e| < 40 then None else Some(Get(e, 32, 8))
      else FirstUsed(ents, i + 1, n, esz)
  }

  function FirstPartition(disk: seq<byte>): (r: Option<nat>)
  {
    var hdr := ReadAt(disk, 512, 92);
    if Slice(hdr, 0, 8) != GPT_MAGIC || |hdr| < 88 then None
    else
      var lba, n, esz := Get(hdr, 72, 8), Get(hdr, 80, 4), Get(hdr, 84, 4);
      FirstUsed(ReadAt(disk, lba * 512, n * esz), 0, n, esz)
  }

  method FirstPartitionLba(disk: seq<byte>) returns (r: Option<nat>)
    ensures r == FirstPartition(disk)
  {
    var hdr := ReadAt(disk, 512, 92);
    if Slice(hdr, 0, 8) != GPT_MAGIC || |hdr| < 88 { return None; }
    var lba, n, esz := Get(hdr, 72, 8), Get(hdr, 80, 4), Get(hdr, 84, 4);
    var ents := ReadAt(disk, lba * 512, n * esz);
    for i := 0 to n
      invariant FirstPartition(disk) == FirstUsed(ents, i, n, esz)
    {
      var e := GptEntry(ents, i, esz);
      if Slice(e, 0, 16) != Zeros(16) {
        if |e| < 40 { return None; }
        return Some(Get(e, 32, 8));
      }
    }
    return None;
  }

  function ReadDisk(disk: seq<byte>, targets: seq<Option<seq<byte>>>): (r: Outcome)
  {
    match FirstPartition(disk)
    case None => Fault
    case Some(lba) => ReadVolume(disk, lba * 512, targets)
  }

  method ReadFile(up: Upper, disk: seq<byte>, path: string) returns (r: Outcome)
    ensures r == ReadDisk(disk, Targets(up, Components(path, "")))
  {
    var lba := FirstPartitionLba(disk);
    if lba.None? { return Fault; }
    r := ReadVolumeFile(up, disk, lba.value * 512, path);
  }

  // ---- what a contiguous chain reads as ---------------------------------------------------------

  /** In the FAT bytes, clusters `first .. first + n` point each at the next and the
      last one ends the chain. */
  ghost predicate ContiguousInFat(disk: seq<byte>, l: Layout, first: nat, n: nat) {
    && n >= 1 && 2 <= first && first + n < END_OF_CHAIN
    && (forall c | first <= c < first + n - 1 :: NextCluster(disk, l, c) == Some(c + 1))
    && NextCluster(disk, l, first + n - 1).Some?
    && NextCluster(disk, l, first + n - 1).value >= END_OF_CHAIN
  }

  function Range(lo: nat, n: nat): (r: seq<nat>)
    ensures |r| == n && forall i | 0 <= i < n :: r[i] == lo + i
    decreases n
  {
    if n == 0 then [] else [lo] + Range(lo + 1, n - 1)
  }

  lemma {:induction false} ContiguousChain(disk: seq<byte>, l: Layout, first: nat, n: nat, seen: set<nat>)
    requires ContiguousInFat(disk, l, first, n)
    requires forall c | c in seen :: c < first
    ensures Chain(disk, l, first, seen) == Some(Range(first, n))
    decreases n
  {
    hide NextCluster;
    var next := NextCluster(disk, l, first).value;
    if n > 1 {
      assert next == first + 1;
      ContiguousChain(disk, l, first + 1, n - 1, seen + {first});
    } else {
      assert Chain(disk, l, next, seen + {first}) == Some([]);
    }
  }

  lemma OffsetStep(l: Layout, c: nat)
    requires c >= 2
    ensures Offset(l, c + 1) == Offset(l, c) + l.clusterSize
  {
    assert (c + 1 - 2) * l.clusterSize == (c - 2) * l.clusterSize + l.clusterSize;
  }

  lemma {:induction false} OffsetMonotone(l: Layout, c: nat, n: nat)
    requires c >= 2
    ensures Offset(l, c) <= Offset(l, c + n)
    decreases n
  {
    if n == 0 {
    } else {
      OffsetMonotone(l, c, n - 1);
      OffsetStep(l, c + n - 1);
    }
  }

  lemma {:induction false} GatherRange(disk: seq<byte>, l: Layout, first: nat, n: nat)
    requires first >= 2 && Offset(l, first + n) <= |disk|
    ensures Offset(l, first) <= Offset(l, first + n)
    ensures Gather(disk, l, Range(first, n)) == disk[Offset(l, first)..Offset(l, first + n)]
    decreases n
  {
    if n == 0 {
    } else {
      var lo, mid, hi := Offset(l, first), Offset(l, first + 1), Offset(l, first + n);
      OffsetStep(l, first);
      OffsetMonotone(l, first + 1, n - 1);
      GatherRange(disk, l, first + 1, n - 1);
      assert Range(first, n)[1..] == Range(first + 1, n - 1);
      assert disk[lo..mid] + disk[mid..hi] == disk[lo..hi];
    }
  }

  /** A contiguous chain reads as one slice of the disk. */
  lemma ContiguousBytes(disk: seq<byte>, l: Layout, first: nat, n: nat)
    requires ContiguousInFat(disk, l, first, n)
    requires Offset(l, first + n) <= |disk|
    ensures Offset(l, first) <= Offset(l, first + n)
    ensures ChainBytes(disk, l, first) == Some(disk[Offset(l, first)..Offset(l, first + n)])
  {
    ContiguousChain(disk, l, first, n, {});
    GatherRange(disk, l, first, n);
  }

  // ---- what any chain reads as --------------------------------------------------------------------

  /** The 28-bit link of a cluster, where the FAT has it. */
  predicate LinkIs(disk: seq<byte>, l: Layout, c: nat, next: nat) {
    l.fatOff + 4 * c + 4 <= |disk| && Get(disk, l.fatOff + 4 * c, 4) % 0x1000_0000 == next
  }

  /** Different clusters, wherever they lie, each linked to the one after it; the last one's link
      ends the chain or leads back into it. */
  ghost predicate Linked(disk: seq<byte>, l: Layout, cs: seq<nat>, end: nat) {
    && cs != [] && (forall i | 0 <= i < |cs| :: 2 <= cs[i] < 0x0FFF_FFF8)
    && (forall i, j | 0 <= i < j < |cs| :: cs[i] != cs[j])
    && (forall i | 0 <= i < |cs| - 1 :: LinkIs(disk, l, cs[i], cs[i + 1]))
    && LinkIs(disk, l, cs[|cs| - 1], end) && (2 <= end < 0x0FFF_FFF8 ==> end in cs)
  }

  lemma LinkReads(disk: seq<byte>, l: Layout, c: nat, next: nat)
    requires LinkIs(disk, l, c, next)
    ensures NextCluster(disk, l, c) == Some(next)
  {
    hide UnLe;
    assert l.fatOff + c * 4 == l.fatOff + 4 * c;
  }

  lemma {:induction false} LinkedChain(disk: seq<byte>, l: Layout, cs: seq<nat>, end: nat, k: nat, seen: set<nat>)
    requires Linked(disk, l, cs, end) && k < |cs| && seen == set i | 0 <= i < k :: cs[i]
    ensures Chain(disk, l, cs[k], seen) == Some(cs[k..])
    decreases |cs| - k
  {
    hide NextCluster, LinkIs;
    var more := seen + {cs[k]};
    assert cs[k] !in seen;
    if k == |cs| - 1 {
      LinkReads(disk, l, cs[k], end);
      AllSeen(cs, k, seen, more);
      assert Chain(disk, l, end, more) == Some([]);
      assert cs[k..] == [cs[k]] + [];
    } else {
      LinkReads(disk, l, cs[k], cs[k + 1]);
      assert more == set i | 0 <= i < k + 1 :: cs[i];
      LinkedChain(disk, l, cs, end, k + 1, more);
      assert cs[k..] == [cs[k]] + cs[k + 1..];
    }
  }

  lemma AllSeen(cs: seq<nat>, k: nat, seen: set<nat>, more: set<nat>)
    requires k == |cs| - 1 && (seen == set i | 0 <= i < k :: cs[i]) && more == seen + {cs[k]}
    ensures forall c | c in cs :: c in more
  {
  }

  /** Where the data of a cluster starts: cluster 2 is the first. */
  function DataAt(l: Layout, c: nat): (r: int) { l.data + (c - 2) * l.clusterSize }

  predicate ClustersInside(disk: seq<byte>, l: Layout, cs: seq<nat>) {
    forall i | 0 <= i < |cs| :: cs[i] >= 2 && 0 <= DataAt(l, cs[i]) && DataAt(l, cs[i]) + l.clusterSize <= |disk|
  }

  function ClusterParts(disk: seq<byte>, l: Layout, cs: seq<nat>): (r: seq<seq<byte>>)
    requires ClustersInside(disk, l, cs)
    ensures |r| == |cs|
    ensures forall i | 0 <= i < |cs| :: r[i] == disk[DataAt(l, cs[i])..DataAt(l, cs[i]) + l.clusterSize]
  {
    seq(|cs|, i requires 0 <= i < |cs| => disk[DataAt(l, cs[i])..DataAt(l, cs[i]) + l.clusterSize])
  }

  lemma ClusterReads(disk: seq<byte>, l: Layout, c: nat)
    requires c >= 2 && 0 <= DataAt(l, c) && DataAt(l, c) + l.clusterSize <= |disk|
    ensures ReadCluster(disk, l, c) == disk[DataAt(l, c)..DataAt(l, c) + l.clusterSize]
  {
  }

  lemma {:induction false} GatherParts(disk: seq<byte>, l: Layout, cs: seq<nat>)
    requires ClustersInside(disk, l, cs)
    ensures Gather(disk, l, cs) == Flatten(ClusterParts(disk, l, cs))
    decreases cs
  {
    hide DataAt, ReadCluster;
    if cs == [] {
    } else {
      ClusterReads(disk, l, cs[0]);
      GatherParts(disk, l, cs[1..]);
      assert ClusterParts(disk, l, cs)[1..] == ClusterParts(disk, l, cs[1..]);
    }
  }

  /** Following any chain, contiguous or not, gives its clusters' bytes one after the other. */
  lemma LinkedBytes(disk: seq<byte>, l: Layout, cs: seq<nat>, end: nat)
    requires Linked(disk, l, cs, end) && ClustersInside(disk, l, cs)
    ensures ChainBytes(disk, l, cs[0]) == Some(Flatten(ClusterParts(disk, l, cs)))
  {
    hide Gather, ClusterParts, DataAt;
    LinkedChain(disk, l, cs, end, 0, {});
    assert cs[0..] == cs;
    GatherParts(disk, l, cs);
  }

  // ---- what a list of records scans as ------------------------------------------------------------

  ghost predicate Records(recs: seq<seq<byte>>) {
    forall i | 0 <= i < |recs| :: |recs[i]| == 32 && recs[i][0] != 0
  }

  /** The scan on records instead of bytes. */
  function FirstMatch(recs: seq<seq<byte>>, target: seq<byte>): (r: Found)
    requires forall i | 0 <= i < |recs| :: |recs[i]| == 32
    ensures r.At? ==> |r.entry| == 32
  {
    if recs == [] then NotThere
    else
      var verdict := Judge(recs[0], Some(target));
      if verdict.Take? then At(recs[0])
      else if verdict.Stop? then NotThere
      else FirstMatch(recs[1..], target)
  }

  /** A directory that holds `recs`, and then ends or goes on with a zero, scans as `recs` do. */
  lemma {:induction false} ScanRecords(d: seq<byte>, o: nat, recs: seq<seq<byte>>, target: seq<byte>)
    requires Records(recs)
    requires o + 32 * |recs| <= |d| && (o + 32 * |recs| < |d| ==> d[o + 32 * |recs|] == 0)
    requires d[o..o + 32 * |recs|] == Flatten(recs)
    ensures Scan(d, o, Some(target)) == FirstMatch(recs, target)
    decreases recs
  {
    var e := Slice(d, o, o + 32);
    if recs == [] {
      assert o < |d| ==> e[0] == d[o];
    } else {
      var all := d[o..o + 32 * |recs|];
      assert e == all[..32] == recs[0];
      assert d[o + 32..o + 32 + 32 * |recs[1..]|] == all[32..] == Flatten(recs[1..]);
      ScanRecords(d, o + 32, recs[1..], target);
    }
  }

  /** A word of something that lies inside a volume is read where it lies. */
  lemma WordReads(disk: seq<byte>, base: nat, img: seq<byte>, at: nat, raw: seq<byte>, off: nat)
    requires Has(disk, base, img) && Has(img, at, raw) && off + 4 <= |raw|
    ensures ReadAt(disk, base + at + off, 4) == raw[off..off + 4]
  {
    HasWithin(img, at, raw, off, 4);
    HasWithin(disk, base, img, at + off, 4);
    assert base + (at + off) == base + at + off;
  }
}
