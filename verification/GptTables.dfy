/** The disk's partition tables, judged as section 5.3 of the UEFI specification words them:
    two headers that check, place and name each other, and two copies of one entry array. */
module GptTables {
  import opened Bytes
  import opened DiskBytes
  import opened FatReader
  import opened FatNames
  import opened GptDisk

  // ---- what a header and an entry must say ------------------------------------------------

  /** The header's own checksum is taken with its field blank. */
  predicate SelfChecked(h: seq<byte>, crc: Checksum) {
    |h| >= 92 && Get(h, 16, 4) == crc(h[0..16] + [0, 0, 0, 0] + h[20..92])
  }

  /** A header in sector `my`: version 1.0, 92 bytes, its twin at `alt`, the usable sectors from
      34 to `last`, and 128 entries of 128 bytes from `table` on. */
  predicate HeaderSays(h: seq<byte>, my: nat, alt: nat, table: nat, last: nat, id: Guid) {
    && |h| == 512 && h[0..8] == [0x45, 0x46, 0x49, 0x20, 0x50, 0x41, 0x52, 0x54]
    && Get(h, 8, 4) == 0x0001_0000 && Get(h, 12, 4) == 92 && Get(h, 20, 4) == 0
    && Get(h, 24, 8) == my && Get(h, 32, 8) == alt && Get(h, 40, 8) == 34 && Get(h, 48, 8) == last
    && OnDiskGuid(h[56..72]) == id && Get(h, 72, 8) == table && Get(h, 80, 4) == 128 && Get(h, 84, 4) == 128
  }

  /** Such a header lies in its sector and its checksums are right for the disk. */
  predicate HeaderValid(disk: seq<byte>, crc: Checksum, my: nat, alt: nat, table: nat, last: nat, id: Guid) {
    && (my + 1) * 512 <= |disk| && (table + 32) * 512 <= |disk|
    && var h := disk[my * 512..my * 512 + 512];
       && HeaderSays(h, my, alt, table, last, id) && SelfChecked(h, crc)
       && Get(h, 88, 4) == crc(disk[table * 512..table * 512 + 32 * 512])
  }

  /** The name field: two bytes a character, low byte first, and zeros to its end. */
  predicate NameSays(field: seq<byte>, name: string) {
    && |field| == 72 && 2 * |name| <= 72
    && (forall i | 0 <= i < |name| :: field[2 * i] == name[i] as int && field[2 * i + 1] == 0)
    && (forall k | 2 * |name| <= k < 72 :: field[k] == 0)
  }

  /** An entry: type and id in mixed byte order, first and last sector, no attributes, a name. */
  predicate EntrySays(e: seq<byte>, kind: Guid, id: Guid, first: nat, last: nat, name: string) {
    && |e| == 128 && OnDiskGuid(e[0..16]) == kind && OnDiskGuid(e[16..32]) == id
    && Get(e, 32, 8) == first && Get(e, 40, 8) == last && Get(e, 48, 8) == 0 && NameSays(e[56..128], name)
  }

  /** The array at sector `table`: the system partition, the root if there is one, and nothing else. */
  predicate TableValid(disk: seq<byte>, table: nat, ids: Ids, root: Option<seq<byte>>) {
    && table * 512 + 32 * 512 <= |disk|
    && var t := disk[table * 512..table * 512 + 32 * 512];
       && EntrySays(t[0..128], ESP_TYPE, ids.esp, 2048, 2048 + 131072 - 1, "EFI System")
       && (root.Some? ==> EntrySays(t[128..256], DATA_TYPE, ids.root, 2048 + 131072,
                                    2048 + 131072 + RootSectors(root) - 1, "EMBKFS root"))
       && (root.None? ==> t[128..256] == Zeros(128))
       && t[256..] == Zeros(126 * 128)
  }

  /** One protective partition of type EE, from sector 1 over the disk as far as 32 bits reach. */
  predicate MbrValid(disk: seq<byte>, total: nat) {
    && |disk| >= 512 && disk[450] == 0xEE && Get(disk, 454, 4) == 1
    && Get(disk, 458, 4) == (if total - 1 < 0xFFFF_FFFF then total - 1 else 0xFFFF_FFFF)
    && disk[462..510] == Zeros(48) && disk[510] == 0x55 && disk[511] == 0xAA
  }

  // ---- fields side by side ------------------------------------------------------------------

  lemma TwoFields(s: seq<byte>, w: nat, a: nat, b: nat, rest: seq<byte>)
    requires s == Le(a, w) + Le(b, w) + rest && a < Pow256(w) && b < Pow256(w)
    ensures Get(s, 0, w) == a && Get(s, w, w) == b
  {
    hide Le, UnLe, Pow256;
    assert s[0..w] == Le(a, w) && s[w..w + w] == Le(b, w);
    LeRoundTrip(a, w);
    LeRoundTrip(b, w);
  }

  lemma FourSlices(s: seq<byte>, w: nat, a: seq<byte>, b: seq<byte>, c: seq<byte>, d: seq<byte>)
    requires |a| == |b| == |c| == |d| == w && s == a + b + c + d
    ensures s[0..w] == a && s[w..w + w] == b && s[w + w..w + w + w] == c && s[w + w + w..w + w + w + w] == d
  {
  }

  lemma FourFields(s: seq<byte>, w: nat, a: nat, b: nat, c: nat, d: nat)
    requires s == Le(a, w) + Le(b, w) + Le(c, w) + Le(d, w)
    requires a < Pow256(w) && b < Pow256(w) && c < Pow256(w) && d < Pow256(w)
    ensures Get(s, 0, w) == a && Get(s, w, w) == b && Get(s, w + w, w) == c && Get(s, w + w + w, w) == d
  {
    LeRoundTrip(a, w);
    LeRoundTrip(b, w);
    LeRoundTrip(c, w);
    LeRoundTrip(d, w);
    hide *;
    FourSlices(s, w, Le(a, w), Le(b, w), Le(c, w), Le(d, w));
    GetIs(s, 0, w);
    GetIs(s, w, w);
    GetIs(s, w + w, w);
    GetIs(s, w + w + w, w);
  }

  // ---- headers -----------------------------------------------------------------------------

  /** What stands behind the header's checksum field. */
  function Behind(my: nat, alt: nat, table: nat, last: nat, id: Guid, sum: nat): (r: seq<byte>) {
    Le(0, 4) + Flatten(HeaderParts(my, alt, table, last, id, 0, sum)[2..])
  }

  /** Only the checksum field depends on the header's checksum. */
  lemma HeaderSplits(my: nat, alt: nat, table: nat, last: nat, id: Guid, own: nat, sum: nat)
    ensures Flatten(HeaderParts(my, alt, table, last, id, own, sum))
         == GPT_MAGIC + (Le(0x1_0000, 4) + Le(92, 4)) + Le(own, 4) + Behind(my, alt, table, last, id, sum)
  {
    hide Le, OnDiskGuid;
    var p := HeaderParts(my, alt, table, last, id, own, sum);
    assert p[2..] == HeaderParts(my, alt, table, last, id, 0, sum)[2..];
    assert p == [p[0]] + ([p[1]] + p[2..]);
    FlattenOne(p[0], [p[1]] + p[2..]);
    FlattenOne(p[1], p[2..]);
  }

  lemma Checks(h: seq<byte>, blank: seq<byte>, front: seq<byte>, own: nat, rest: seq<byte>, crc: Checksum)
    requires |front| == 16 && |rest| >= 72 && own < 0x1_0000_0000
    requires h == front + Le(own, 4) + rest && blank == front + Le(0, 4) + rest && own == crc(Slice(blank, 0, 92))
    ensures SelfChecked(h, crc)
  {
    Widths();
    assert Le(0, 4) == [0, 0, 0, 0] by { assert Le(0, 2) == [0, 0]; }
    hide Le, UnLe;
    LeRoundTrip(own, 4);
    assert h[16..20] == Le(own, 4) && Slice(blank, 0, 92) == h[0..16] + [0, 0, 0, 0] + h[20..92];
  }

  lemma OwnSum(my: nat, alt: nat, table: nat, last: nat, id: Guid, crc: Checksum, ents: seq<byte>)
    ensures SelfChecked(Header(my, alt, table, last, id, crc, ents), crc)
  {
    hide HeaderParts, Flatten, Le, SelfChecked, Behind;
    var sum: nat := crc(ents);
    var blank := Flatten(HeaderParts(my, alt, table, last, id, 0, sum));
    var own: nat := crc(Slice(blank, 0, 92));
    var front := GPT_MAGIC + (Le(0x1_0000, 4) + Le(92, 4));
    HeaderSplits(my, alt, table, last, id, own, sum);
    HeaderSplits(my, alt, table, last, id, 0, sum);
    HeaderOffsets(my, alt, table, last, id, 0, sum);
    Checks(Header(my, alt, table, last, id, crc, ents), blank, front, own, Behind(my, alt, table, last, id, sum), crc);
  }

  lemma HeaderStarts(my: nat, alt: nat, table: nat, last: nat, id: Guid, own: nat, sum: nat)
    ensures var p := HeaderParts(my, alt, table, last, id, own, sum);
            && |p[1]| == 16 && |p[2]| == 32 && |p[7]| == 424
            && TotalLength(p[..1]) == 8 && TotalLength(p[..2]) == 24 && TotalLength(p[..3]) == 56 && TotalLength(p[..7]) == 88
  {
    var p := HeaderParts(my, alt, table, last, id, own, sum);
    hide Le, OnDiskGuid;
    assert p[..0] == [] && |p[1]| == 16 && |p[2]| == 32 && |p[7]| == 424;
    TotalSnoc(p, 0); TotalSnoc(p, 1); TotalSnoc(p, 2); TotalSnoc(p, 3);
    TotalSnoc(p, 4); TotalSnoc(p, 5); TotalSnoc(p, 6);
  }

  lemma PlacesAre(my: nat, alt: nat, table: nat, last: nat, id: Guid, own: nat, sum: nat)
    requires my < Pow256(8) && alt < Pow256(8) && last < Pow256(8) && own < 0x1_0000_0000
    ensures var h := Flatten(HeaderParts(my, alt, table, last, id, own, sum));
            && |h| == 512 && Get(h, 8, 4) == 0x1_0000 && Get(h, 12, 4) == 92 && Get(h, 20, 4) == 0
            && Get(h, 24, 8) == my && Get(h, 32, 8) == alt && Get(h, 40, 8) == 34 && Get(h, 48, 8) == last
  {
    hide Le, UnLe, Flatten, TotalLength, OnDiskGuid, Get;
    var p := HeaderParts(my, alt, table, last, id, own, sum);
    var h := Flatten(p);
    Widths();
    HeaderOffsets(my, alt, table, last, id, own, sum);
    HeaderStarts(my, alt, table, last, id, own, sum);
    PartAt(p, 1);
    PartAt(p, 2);
    FourFields(p[1], 4, 0x1_0000, 92, own, 0);
    FourFields(p[2], 8, my, alt, 34, last);
    GetInside(h, p[1], 8, 0, 4); GetInside(h, p[1], 8, 4, 4); GetInside(h, p[1], 8, 12, 4);
    GetInside(h, p[2], 24, 0, 8); GetInside(h, p[2], 24, 8, 8); GetInside(h, p[2], 24, 16, 8); GetInside(h, p[2], 24, 24, 8);
  }

  lemma IdAndSum(my: nat, alt: nat, table: nat, last: nat, id: Guid, own: nat, sum: nat)
    requires sum < 0x1_0000_0000
    ensures var h := Flatten(HeaderParts(my, alt, table, last, id, own, sum));
            |h| == 512 && h[56..72] == OnDiskGuid(id) && Get(h, 88, 4) == sum
  {
    hide Le, UnLe, Flatten, TotalLength, OnDiskGuid, Get;
    var p := HeaderParts(my, alt, table, last, id, own, sum);
    var h := Flatten(p);
    Widths();
    HeaderOffsets(my, alt, table, last, id, own, sum);
    HeaderStarts(my, alt, table, last, id, own, sum);
    PartAt(p, 3);
    PartAt(p, 7);
    assert Get(p[7], 0, 4) == sum by {
      assert p[7][0..4] == Le(sum, 4);
      LeRoundTrip(sum, 4);
      GetIs(p[7], 0, 4);
    }
    GetInside(h, p[7], 88, 0, 4);
  }

  lemma GetIs(s: seq<byte>, off: nat, k: nat)
    requires off + k <= |s|
    ensures Get(s, off, k) == UnLe(s[off..off + k])
  {
  }

  lemma HeaderIs(my: nat, alt: nat, table: nat, last: nat, id: Guid, crc: Checksum, ents: seq<byte>)
    requires my < Pow256(8) && alt < Pow256(8) && last < Pow256(8) && table < Pow256(8)
    ensures var h := Header(my, alt, table, last, id, crc, ents);
            HeaderSays(h, my, alt, table, last, id) && SelfChecked(h, crc) && Get(h, 88, 4) == crc(ents)
  {
    hide HeaderParts, Flatten, SelfChecked, Get, OnDiskGuid;
    OwnSum(my, alt, table, last, id, crc, ents);
    var sum: nat := crc(ents);
    var own: nat := crc(Slice(Flatten(HeaderParts(my, alt, table, last, id, 0, sum)), 0, 92));
    PlacesAre(my, alt, table, last, id, own, sum);
    IdAndSum(my, alt, table, last, id, own, sum);
    HeaderFields(my, alt, table, last, id, own, sum);
    GuidInvolution(id);
    var h := Header(my, alt, table, last, id, crc, ents);
    assert h[0..8] == h[..8];
  }

  lemma HeaderStands(disk: seq<byte>, my: nat, alt: nat, table: nat, last: nat, id: Guid, crc: Checksum, ents: seq<byte>)
    requires my < Pow256(8) && alt < Pow256(8) && last < Pow256(8) && table < Pow256(8)
    requires Has(disk, my * 512, Header(my, alt, table, last, id, crc, ents)) && Has(disk, table * 512, ents) && |ents| == 32 * 512
    ensures HeaderValid(disk, crc, my, alt, table, last, id)
  {
    hide Header, HeaderSays, SelfChecked, Get;
    HeaderSize(my, alt, table, last, id, crc, ents);
    HeaderIs(my, alt, table, last, id, crc, ents);
  }

  // ---- entries -----------------------------------------------------------------------------

  lemma {:induction false} Utf16At(s: string, i: nat)
    requires (forall j | 0 <= j < |s| :: s[j] < 128 as char) && i < |s|
    ensures |Utf16Le(s)| == 2 * |s| && Utf16Le(s)[2 * i] == s[i] as int && Utf16Le(s)[2 * i + 1] == 0
  {
    if |s| > 1 { Utf16At(s[1..], if i == 0 then 0 else i - 1); }
  }

  lemma NameIs(s: string)
    requires (forall j | 0 <= j < |s| :: s[j] < 128 as char) && 0 < |s| <= 36
    ensures NameSays(NameField(s), s)
  {
    hide Utf16Le;
    forall i | 0 <= i < |s|
      ensures |Utf16Le(s)| == 2 * |s| && NameField(s)[2 * i] == s[i] as int && NameField(s)[2 * i + 1] == 0
    {
      Utf16At(s, i);
    }
    Utf16At(s, 0);
  }

  lemma EntryIs(kind: Guid, id: Guid, first: nat, last: nat, name: seq<byte>, text: string)
    requires |name| == 72 && first < Pow256(8) && last < Pow256(8) && NameSays(name, text)
    ensures EntrySays(PartitionEntry(kind, id, first, last, name), kind, id, first, last, text)
  {
    hide Le, UnLe, Flatten, TotalLength, OnDiskGuid, Get, NameSays;
    var p, e := EntryParts(kind, id, first, last, name), PartitionEntry(kind, id, first, last, name);
    EntryFields(kind, id, first, last, name);
    EntryStarts(p);
    Widths();
    PartAt(p, 3);
    PartAt(p, 4);
    assert p[3] == Le(last, 8) + Le(0, 8) + [];
    TwoFields(p[3], 8, last, 0, []);
    GetInside(e, p[3], 40, 0, 8);
    GetInside(e, p[3], 40, 8, 8);
    GuidInvolution(kind);
    GuidInvolution(id);
    assert e[0..16] == e[..16];
  }

  lemma EntryStarts(p: seq<seq<byte>>)
    requires |p| == 5 && |p[0]| == |p[1]| == |p[3]| == 16 && |p[2]| == 8
    ensures TotalLength(p[..3]) == 40 && TotalLength(p[..4]) == 56
  {
    assert p[..0] == [];
    TotalSnoc(p, 0); TotalSnoc(p, 1); TotalSnoc(p, 2); TotalSnoc(p, 3);
  }

  lemma TableStands(disk: seq<byte>, table: nat, ids: Ids, root: Option<seq<byte>>)
    requires Has(disk, table * 512, EntryArray(ids, root)) && TotalSectors(root) < Pow256(8)
    ensures TableValid(disk, table, ids, root)
  {
    Widths();
    hide PartitionEntry, NameField, EntrySays, NameSays, OnDiskGuid, RootSectors, Pow256;
    NameIs("EFI System");
    NameIs("EMBKFS root");
    var t := EntryArray(ids, root);
    FirstEntryShape(ids);
    SecondEntrySize(ids, root);
    EntryIs(ESP_TYPE, ids.esp, 2048, 2048 + 131072 - 1, NameField("EFI System"), "EFI System");
    if root.Some? {
      var last := 2048 + 131072 + RootSectors(root) - 1;
      EntryIs(DATA_TYPE, ids.root, 2048 + 131072, last, NameField("EMBKFS root"), "EMBKFS root");
    }
    assert t[0..128] == FirstEntry(ids) && t[128..256] == SecondEntry(ids, root) && t[256..] == Zeros(126 * 128);
  }

  // ---- the disk ------------------------------------------------------------------------------

  lemma MbrIs(disk: seq<byte>, total: nat)
    requires total > 0 && Has(disk, 0, ProtectiveMbr(total))
    ensures MbrValid(disk, total)
  {
    var span := if total - 1 < 0xFFFF_FFFF then total - 1 else 0xFFFF_FFFF;
    var m := ProtectiveMbr(total);
    hide Le, UnLe;
    assert m == Zeros(446) + MbrTail(span);
    assert m[454..458] == Le(1, 4) && m[458..462] == Le(span, 4);
    Widths();
    LeRoundTrip(1, 4);
    LeRoundTrip(span, 4);
    GetInside(disk, m, 0, 454, 4);
    GetInside(disk, m, 0, 458, 4);
    assert forall k | 0 <= k < 512 :: disk[k] == disk[0..512][k];
    assert disk[462..510] == m[462..510] == Zeros(48);
  }

  /** Either header checks itself and its own copy of the array and names the other, both copies
      list the same partitions, and these lie one behind the other in the usable sectors. */
  predicate GptValid(disk: seq<byte>, crc: Checksum, total: nat, ids: Ids, root: Option<seq<byte>>) {
    && total >= 2048 + 131072 + RootSectors(root) + 34 && MbrValid(disk, total)
    && HeaderValid(disk, crc, 1, total - 1, 2, total - 34, ids.disk)
    && HeaderValid(disk, crc, total - 1, 1, total - 33, total - 34, ids.disk)
    && TableValid(disk, 2, ids, root) && TableValid(disk, total - 33, ids, root)
  }

  lemma AllStand(disk: seq<byte>, ids: Ids, crc: Checksum, total: nat, ents: seq<byte>, root: Option<seq<byte>>)
    requires Pow256(8) > total == TotalSectors(root) && ents == EntryArray(ids, root) && |ents| == 32 * 512
    requires Has(disk, 0, ProtectiveMbr(total)) && Has(disk, 2 * 512, ents) && Has(disk, (total - 33) * 512, ents)
    requires Has(disk, 1 * 512, Header(1, total - 1, 2, total - 34, ids.disk, crc, ents))
    requires Has(disk, (total - 1) * 512, Header(total - 1, 1, total - 33, total - 34, ids.disk, crc, ents))
    ensures GptValid(disk, crc, total, ids, root)
  {
    hide Header, EntryArray, ProtectiveMbr, RootSectors, HeaderValid, TableValid, MbrValid, Has, Pow256;
    HeaderStands(disk, 1, total - 1, 2, total - 34, ids.disk, crc, ents);
    HeaderStands(disk, total - 1, 1, total - 33, total - 34, ids.disk, crc, ents);
    MbrIs(disk, total);
    TableStands(disk, 2, ids, root);
    TableStands(disk, total - 33, ids, root);
  }

  /** The finished disk is a valid GPT disk. */
  lemma TablesAreValid(disk: seq<byte>, ids: Ids, crc: Checksum, esp: seq<byte>, root: Option<seq<byte>>)
    requires Holding(disk, Pieces(ids, crc, esp, root), |disk|) && TotalSectors(root) < 0x1_0000_0000_0000_0000
    ensures GptValid(disk, crc, 2048 + 131072 + RootSectors(root) + 2048, ids, root)
  {
    hide *;
    PiecesStand(disk, ids, crc, esp, root);
    ArrayIs(ids, root);
    WideEnough();
    AllStand(disk, ids, crc, TotalSectors(root), EntryArray(ids, root), root);
  }

  lemma WideEnough()
    ensures Pow256(8) == 0x1_0000_0000_0000_0000
  {
    Widths();
  }

  lemma ArrayIs(ids: Ids, root: Option<seq<byte>>)
    ensures |EntryArray(ids, root)| == 32 * 512
  {
    ArrayShape(ids, root);
  }

  lemma PiecesStand(disk: seq<byte>, ids: Ids, crc: Checksum, esp: seq<byte>, root: Option<seq<byte>>)
    requires Holding(disk, Pieces(ids, crc, esp, root), |disk|)
    ensures var total, ents := TotalSectors(root), EntryArray(ids, root);
            && total == 2048 + 131072 + RootSectors(root) + 2048 && Has(disk, 0, ProtectiveMbr(total))
            && Has(disk, 1 * 512, Header(1, total - 1, 2, total - 34, ids.disk, crc, ents))
            && Has(disk, (total - 1) * 512, Header(total - 1, 1, total - 33, total - 34, ids.disk, crc, ents))
            && Has(disk, 2 * 512, ents) && Has(disk, (total - 33) * 512, ents)
  {
    hide Holding, EntryArray, Has, Header, ProtectiveMbr, RootSectors;
    var ws := Pieces(ids, crc, esp, root);
    HoldingAt(disk, ws, |disk|, 0);
    HoldingAt(disk, ws, |disk|, 1);
    HoldingAt(disk, ws, |disk|, 6);
    BothTables(disk, ids, crc, esp, root);
  }
}
