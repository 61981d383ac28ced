/** What goes onto the volume: a directory tree, the 32-byte records that describe
    it, the space it takes, and the answer a path lookup should give. */
module FatTree {
  import opened Bytes
  import opened FatNames
  import opened LongNames
  import opened FatReader

  datatype Node = File(data: seq<byte>) | Dir(entries: seq<Entry>)
  /** One item of a directory listing, in the order the writer visits them. */
  datatype Entry = Entry(name: string, node: Node)

  const CLUSTER := 1024
  const ATTR_VOLUME: byte := 0x08
  const ATTR_DIR: byte := 0x10
  const ATTR_ARCHIVE: byte := 0x20
  const FIXED_DATE := 0x5C21          // 2026-01-01
  const LABEL: seq<byte> := [0x45, 0x4D, 0x42, 0x4C, 0x49, 0x4E, 0x4B, 0x42, 0x4F, 0x4F, 0x54]
  const DOT: seq<byte> := [0x2E, 32, 32, 32, 32, 32, 32, 32, 32, 32, 32]
  const DOTDOT: seq<byte> := [0x2E, 0x2E, 32, 32, 32, 32, 32, 32, 32, 32, 32]

  // ---- one record ------------------------------------------------------------------

  function Dirent(short11: seq<byte>, attr: byte, cluster: nat, size: nat): (r: seq<byte>)
    requires |short11| == 11
    ensures |r| == 32 && r[..11] == short11 && r[11] == attr
  {
    var mid := Le(0, 2) + Le(FIXED_DATE, 2) + Le(FIXED_DATE, 2);
    var hi, lo := Le(cluster / 0x1_0000, 2), Le(cluster % 0x1_0000, 2) + Le(size, 4);
    var stamp := Le(0, 2) + Le(FIXED_DATE, 2);
    FlattenSix(short11, [attr, 0, 0], mid, hi, stamp, lo);
    Flatten([short11, [attr, 0, 0], mid, hi, stamp, lo])
  }

  lemma SixLayout(a: seq<byte>, b: seq<byte>, c: seq<byte>, d: seq<byte>, e: seq<byte>, f: seq<byte>)
    requires |a| == 11 && |b| == 3 && |c| == 6 && |d| == 2 && |e| == 4 && |f| == 6
    ensures var r := Flatten([a, b, c, d, e, f]);
            |r| == 32 && r[20..22] == d && r[26..28] == f[..2] && r[28..32] == f[2..]
  {
    FlattenSix(a, b, c, d, e, f);
  }

  /** The reader's fields of a record are the writer's arguments. */
  lemma DirentFields(short11: seq<byte>, attr: byte, cluster: nat, size: nat)
    requires |short11| == 11 && cluster < 0x1_0000_0000 && size < 0x1_0000_0000
    ensures EntryCluster(Dirent(short11, attr, cluster, size)) == cluster
    ensures EntrySize(Dirent(short11, attr, cluster, size)) == size
  {
    var mid := Le(0, 2) + Le(FIXED_DATE, 2) + Le(FIXED_DATE, 2);
    var hi, low, stamp := Le(cluster / 0x1_0000, 2), Le(cluster % 0x1_0000, 2), Le(0, 2) + Le(FIXED_DATE, 2);
    SixLayout(short11, [attr, 0, 0], mid, hi, stamp, low + Le(size, 4));
    Widths();
    LeRoundTrip(cluster / 0x1_0000, 2);
    LeRoundTrip(cluster % 0x1_0000, 2);
    LeRoundTrip(size, 4);
    assert (low + Le(size, 4))[..2] == low && (low + Le(size, 4))[2..] == Le(size, 4);
  }

  /** Every byte of a record: name, attributes, no creation time, the fixed date as creation,
      access and change date, and the cluster in two halves around them. */
  lemma DirentBytes(short11: seq<byte>, attr: byte, cluster: nat, size: nat)
    requires |short11| == 11 && cluster < 0x1_0000_0000 && size < 0x1_0000_0000
    ensures var r := Dirent(short11, attr, cluster, size);
            && r[..11] == short11 && r[11] == attr && r[12..16] == [0, 0, 0, 0] && r[16..20] == [0x21, 0x5C, 0x21, 0x5C]
            && r[20..22] == Le(cluster / 0x1_0000, 2) && r[22..26] == [0, 0, 0x21, 0x5C]
            && r[26..28] == Le(cluster % 0x1_0000, 2) && r[28..32] == Le(size, 4)
  {
    hide Flatten;
    var mid := Le(0, 2) + Le(FIXED_DATE, 2) + Le(FIXED_DATE, 2);
    var hi, lo := Le(cluster / 0x1_0000, 2), Le(cluster % 0x1_0000, 2) + Le(size, 4);
    var stamp := Le(0, 2) + Le(FIXED_DATE, 2);
    SixBytes(short11, [attr, 0, 0], mid, hi, stamp, lo);
    DateBytes();
    hide Le;
    TimesAre(Dirent(short11, attr, cluster, size), attr, mid);
  }

  lemma TimesAre(r: seq<byte>, attr: byte, mid: seq<byte>)
    requires |r| == 32 && r[11..14] == [attr, 0, 0] && r[14..20] == mid && mid == [0, 0] + [0x21, 0x5C] + [0x21, 0x5C]
    ensures r[11] == attr && r[12..16] == [0, 0, 0, 0] && r[16..20] == [0x21, 0x5C, 0x21, 0x5C]
  {
    assert r[11] == r[11..14][0];
    assert r[12..16] == r[11..14][1..] + r[14..20][..2] && r[16..20] == r[14..20][2..];
  }

  lemma DateBytes()
    ensures Le(FIXED_DATE, 2) == [0x21, 0x5C] && Le(0, 2) == [0, 0]
  {
    assert Le(0x5C, 1) == [0x5C] && Le(0, 1) == [0];
  }

  lemma SixBytes(a: seq<byte>, b: seq<byte>, c: seq<byte>, d: seq<byte>, e: seq<byte>, f: seq<byte>)
    requires |a| == 11 && |b| == 3 && |c| == 6 && |d| == 2 && |e| == 4 && |f| == 6
    ensures var r := Flatten([a, b, c, d, e, f]);
            && |r| == 32 && r[..11] == a && r[11..14] == b && r[14..20] == c && r[20..22] == d && r[22..26] == e
            && r[26..28] == f[..2] && r[28..32] == f[2..]
  {
    FlattenSix(a, b, c, d, e, f);
  }

  // ---- the records of a directory ------------------------------------------------------

  function Names(entries: seq<Entry>): (r: seq<string>)
    ensures |r| == |entries| && forall i | 0 <= i < |r| :: r[i] == entries[i].name
  {
    seq(|entries|, i requires 0 <= i < |entries| => entries[i].name)
  }

  predicate NameOk(name: string) { ListedName(name) && NameFits(name) }

  lemma ShapeIsAscii(short: string)
    requires ShortShape(short)
    ensures AllAscii(short) && |Ascii(short)| == 11
    ensures Ascii(short)[0] != 0 && Ascii(short)[0] != 0xE5 && Ascii(short)[0] != 0x2E
  {
  }

  /** The 11 bytes of a well-formed short name. */
  function Eleven(short: string): (r: seq<byte>)
    requires ShortShape(short)
    ensures |r| == 11 && r[0] != 0 && r[0] != 0xE5 && r[0] != 0x2E
  {
    ShapeIsAscii(short);
    Ascii(short)
  }

  function SizeField(node: Node): (r: nat) {
    match node case File(data) => |data| case Dir(_) => 0
  }

  function KindOf(node: Node): (r: byte) {
    match node case File(_) => ATTR_ARCHIVE case Dir(_) => ATTR_DIR
  }

  function LongPart(name: string, short: string): (r: seq<seq<byte>>)
    requires NameOk(name) && ShortShape(short)
    ensures |r| == if Fits83(name) then 0 else LongCount(name)
  {
    if Fits83(name) then [] else LongEntries(name, Eleven(short))
  }

  /** The records of one entry: its long name, if it needs one, then its own. */
  function EntryRecords(e: Entry, short: string, first: nat): (r: seq<seq<byte>>)
    requires NameOk(e.name) && ShortShape(short)
  {
    LongPart(e.name, short) + [Dirent(Eleven(short), KindOf(e.node), first, SizeField(e.node))]
  }

  predicate Named(entries: seq<Entry>, shorts: seq<string>) {
    |entries| == |shorts| && forall i | 0 <= i < |entries| :: NameOk(entries[i].name) && ShortShape(shorts[i])
  }

  function Body(entries: seq<Entry>, shorts: seq<string>, firsts: seq<nat>): (r: seq<seq<byte>>)
    requires Named(entries, shorts) && |firsts| == |entries|
  {
    if entries == [] then []
    else
      var n := |entries| - 1;
      Body(entries[..n], shorts[..n], firsts[..n]) + EntryRecords(entries[n], shorts[n], firsts[n])
  }

  function HeadingSize(root: bool): (r: nat) { if root then 1 else 2 }

  /** A label in the root; `.` and `..` anywhere else. */
  function Heading(cluster: nat, parent: Option<nat>): (r: seq<seq<byte>>)
    ensures |r| == HeadingSize(parent.None?)
  {
    match parent
    case None => [Dirent(LABEL, ATTR_VOLUME, 0, 0)]
    case Some(p) => [Dirent(DOT, ATTR_DIR, cluster, 0), Dirent(DOTDOT, ATTR_DIR, p, 0)]
  }

  // ---- space ------------------------------------------------------------------------------

  function Clusters(nbytes: nat): (r: nat)
    ensures r >= 1 && r * CLUSTER >= nbytes
  {
    Max(1, (nbytes + CLUSTER - 1) / CLUSTER)
  }

  /** The writer's bound on a directory's records: it counts characters, not units. */
  function SlotsBound(entries: seq<Entry>): (r: nat) {
    if entries == [] then 0
    else 1 + (if Fits83(entries[0].name) then 0 else (|entries[0].name| + 13) / 13) + SlotsBound(entries[1..])
  }

  function DirBytes(entries: seq<Entry>): (r: nat) { (3 + SlotsBound(entries)) * 32 }

  /** The records a directory really takes. */
  function Slots(entries: seq<Entry>): (r: nat) {
    if entries == [] then 0
    else 1 + (if Fits83(entries[0].name) then 0 else LongCount(entries[0].name)) + Slots(entries[1..])
  }

  /** What heading and records take, and what the writer reserves for them. */
  function RecordBytes(entries: seq<Entry>, root: bool): (r: nat) { (HeadingSize(root) + Slots(entries)) * 32 }

  function ReservedBytes(entries: seq<Entry>): (r: nat) { Clusters(DirBytes(entries)) * CLUSTER }

  /** The records fit the chain; and they fit with an end mark behind them. */
  predicate RoomOk(entries: seq<Entry>, root: bool) { RecordBytes(entries, root) <= ReservedBytes(entries) }

  predicate EndMarked(entries: seq<Entry>, root: bool) { RecordBytes(entries, root) < ReservedBytes(entries) }

  /** With names from the basic plane the bound always holds. */
  lemma {:induction false} BmpSlots(entries: seq<Entry>)
    requires forall i | 0 <= i < |entries| :: Bmp(entries[i].name)
    ensures Slots(entries) == SlotsBound(entries)
  {
    if entries == [] {
    } else {
      BmpUnits(entries[0].name);
      BmpSlots(entries[1..]);
    }
  }

  lemma BmpRoom(entries: seq<Entry>, root: bool)
    requires forall i | 0 <= i < |entries| :: Bmp(entries[i].name)
    ensures EndMarked(entries, root)
  {
    BmpSlots(entries);
  }

  // ---- names beyond the basic plane ---------------------------------------------------------

  /** A name of 127 equal characters, each of them a surrogate pair. */
  function Repeated(c: char, n: nat): (r: string)
    ensures |r| == n && forall i | 0 <= i < n :: r[i] == c
  {
    seq(n, _ => c)
  }

  lemma {:induction false} AstralUnits(c: char, n: nat)
    requires c as int >= 0x1_0000
    ensures |Units(Repeated(c, n))| == 2 * n
  {
    if n == 0 {
    } else {
      AstralUnits(c, n - 1);
      assert Repeated(c, n)[1..] == Repeated(c, n - 1);
    }
  }

  predicate Astral(name: string) { |name| == 127 && |Units(name)| == 254 && !Fits83(name) && NameOk(name) }

  lemma RepeatedIsAstral(c: char)
    requires c as int >= 0x1_0000
    ensures Astral(Repeated(c, 127))
  {
    var name := Repeated(c, 127);
    AstralUnits(c, 127);
    assert '.' !in name;
    assert |Stem(name)| == 127;
  }

  lemma AstralSlots(e: Entry, rest: seq<Entry>)
    requires Astral(e.name)
    ensures Slots([e] + rest) == 21 + Slots(rest) && SlotsBound([e] + rest) == 11 + SlotsBound(rest)
  {
    hide Fits83, Units, NameOk;
    assert ([e] + rest)[1..] == rest;
  }

  function AstralNames(): (r: seq<string>) {
    [Repeated('\U{1F600}', 127), Repeated('\U{1F601}', 127), Repeated('\U{1F602}', 127)]
  }

  /** The bound counts characters where the records count units. Three files whose
      names lie beyond the basic plane need 2080 bytes in a subdirectory, where 2048
      are reserved; in the root they fill the 2048 without an end mark. */
  lemma AstralNamesOverrun(entries: seq<Entry>)
    requires Names(entries) == AstralNames()
    ensures Distinct(AstralNames()) && forall i | 0 <= i < |AstralNames()| :: NameOk(AstralNames()[i])
    ensures ReservedBytes(entries) == 2048
    ensures RecordBytes(entries, false) == 2080 && !RoomOk(entries, false)
    ensures RecordBytes(entries, true) == 2048 && RoomOk(entries, true) && !EndMarked(entries, true)
  {
    hide *;
    RepeatedIsAstral('\U{1F600}');
    RepeatedIsAstral('\U{1F601}');
    RepeatedIsAstral('\U{1F602}');
    AstralAreNames();
    AstralSums(entries, AstralNames());
    RoomOfThree(entries);
  }

  lemma AstralSums(entries: seq<Entry>, names: seq<string>)
    requires |names| == 3 && Names(entries) == names && forall i | 0 <= i < 3 :: Astral(names[i])
    ensures Slots(entries) == 63 && SlotsBound(entries) == 33
  {
    hide Astral, Slots, SlotsBound;
    var a, b, c := entries[0], entries[1], entries[2];
    assert a.name == names[0] && b.name == names[1] && c.name == names[2];
    NoSlots();
    AstralSlots(c, []);
    AstralSlots(b, [c]);
    AstralSlots(a, [b, c]);
    assert [a] + [b, c] == entries && [b] + [c] == [b, c] && [c] + [] == [c];
  }

  lemma NoSlots()
    ensures Slots([]) == 0 == SlotsBound([])
  {
  }

  lemma RoomOfThree(entries: seq<Entry>)
    requires Slots(entries) == 63 && SlotsBound(entries) == 33
    ensures ReservedBytes(entries) == 2048
    ensures RecordBytes(entries, false) == 2080 && !RoomOk(entries, false)
    ensures RecordBytes(entries, true) == 2048 && RoomOk(entries, true) && !EndMarked(entries, true)
  {
    hide Slots, SlotsBound;
  }

  lemma AstralAreNames()
    requires Astral(Repeated('\U{1F600}', 127)) && Astral(Repeated('\U{1F601}', 127)) && Astral(Repeated('\U{1F602}', 127))
    ensures |AstralNames()| == 3 && forall i | 0 <= i < 3 :: Astral(AstralNames()[i])
    ensures Distinct(AstralNames()) && forall i | 0 <= i < 3 :: NameOk(AstralNames()[i])
  {
    hide Units, Fits83;
    forall i, j | 0 <= i < j < 3 ensures AstralNames()[i] != AstralNames()[j] {
      assert AstralNames()[i][0] != AstralNames()[j][0];
    }
    forall i | 0 <= i < 3 ensures NameOk(AstralNames()[i]) {
      assert Astral(AstralNames()[i]);
    }
  }

  /** The cluster count of an entry's own chain; an empty file has none. */
  function OwnClusters(node: Node): (r: nat) {
    match node
    case File(data) => if data == [] then 0 else Clusters(|data|)
    case Dir(es) => Clusters(DirBytes(es))
  }

  function OwnSum(entries: seq<Entry>): (r: nat) {
    if entries == [] then 0 else OwnClusters(entries[0].node) + OwnSum(entries[1..])
  }

  /** Clusters taken below a node, its own chain not counted. */
  function Below(node: Node): (r: nat)
    decreases node, 1
  {
    match node
    case File(_) => 0
    case Dir(es) => OwnSum(es) + BelowSum(es)
  }

  function BelowSum(entries: seq<Entry>): (r: nat)
    decreases entries, 0
  {
    if entries == [] then 0 else Below(entries[0].node) + BelowSum(entries[1..])
  }

  /** Everything the volume must hold for this tree, the root's chain included. */
  function TotalClusters(entries: seq<Entry>): (r: nat) {
    Clusters(DirBytes(entries)) + OwnSum(entries) + BelowSum(entries)
  }

  // ---- trees the operating system and the format can hand over ------------------------------

  ghost predicate TreeOk(up: Upper, entries: seq<Entry>, root: bool)
    decreases entries
  {
    && RoomOk(entries, root)
    && (forall i | 0 <= i < |entries| :: NameOk(entries[i].name))
    && (forall i | 0 <= i < |entries| ::
          entries[i].node.Dir? ==> TreeOk(up, entries[i].node.entries, false))
  }

  function ShortsOf(up: Upper, entries: seq<Entry>): (r: Option<seq<string>>)
    ensures r.Some? ==> |r.value| == |entries|
  {
    ShortNames(up, Names(entries), {})
  }

  // ---- what a lookup should answer -------------------------------------------------------------

  /** `Inside` is a path that goes on below a non-empty file: the reader then takes
      the file's bytes for a directory, and nothing is claimed. */
  datatype Answer = Plain(outcome: Outcome) | Inside

  function Matches(short: string, target: seq<byte>): (r: bool) {
    AllAscii(short) && Ascii(short) == target
  }

  function FirstIndex(shorts: seq<string>, target: seq<byte>): (r: Option<nat>)
    ensures r.Some? ==> r.value < |shorts| && Matches(shorts[r.value], target)
    ensures r.Some? ==> forall i | 0 <= i < r.value :: !Matches(shorts[i], target)
    ensures r.None? ==> forall i | 0 <= i < |shorts| :: !Matches(shorts[i], target)
  {
    if shorts == [] then None
    else
      var n := |shorts| - 1;
      var r := FirstIndex(shorts[..n], target);
      if r.Some? then r else if Matches(shorts[n], target) then Some(n) else None
  }

  /** Look a path up in the tree itself, by short names, without any bytes. */
  function Lookup(up: Upper, entries: seq<Entry>, root: bool, targets: seq<Option<seq<byte>>>): (r: Answer)
    requires targets != []
    decreases targets
  {
    if targets[0].None? then Plain(Fault)
    else
      var target, last := targets[0].value, |targets| == 1;
      if root && target == LABEL then Plain(if last then Contents([]) else Missing)
      else if ShortsOf(up, entries).None? then Plain(Missing)
      else
        match FirstIndex(ShortsOf(up, entries).value, target)
        case None => Plain(Missing)
        case Some(k) =>
          match entries[k].node
          case File(data) =>
            if last then Plain(Contents(data)) else if data == [] then Plain(Missing) else Inside
          case Dir(es) =>
            if last then Plain(Contents([])) else Lookup(up, es, false, targets[1..])
  }
}
