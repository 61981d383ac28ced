/** Signing a PE image in place: what the Authenticode hash covers, and what the signer
    does to the file around it. The hash function and the PKCS#7 construction enter as one
    function from the hashed bytes to the signature blob. */
module Authenticode {
  import opened Bytes
  import opened DiskBytes

  // ---- where things are in a PE32+ image ------------------------------------------------

  datatype Offsets = Offsets(count: nat, checksum: nat, headers: nat, slot: nat, table: nat)

  function Fits(data: seq<byte>, off: nat, k: nat): (r: Option<nat>) {
    if off + k <= |data| then Some(Get(data, off, k)) else None
  }

  /** `None` is every way the original refuses or raises. */
  function Locate(data: seq<byte>): (r: Option<Offsets>) {
    if Slice(data, 0, 2) != [0x4D, 0x5A] then None else
    var pe := Fits(data, 0x3C, 4);
    if pe.None? || Slice(data, pe.value, pe.value + 4) != [0x50, 0x45, 0, 0] then None else
    var opt := pe.value + 24;
    var magic := Fits(data, opt, 2);
    var count := Fits(data, pe.value + 6, 2);
    var headers := Fits(data, opt + 60, 4);
    var directories := Fits(data, opt + 108, 4);
    var optional := Fits(data, pe.value + 20, 2);
    if magic != Some(0x20B) || count.None? || headers.None? || directories.None? || optional.None? then None
    else if directories.value <= 4 then None
    else Some(Offsets(count.value, opt + 64, headers.value, opt + 144, opt + optional.value))
  }

  // ---- the sections, in file order -------------------------------------------------------

  datatype Section = Section(at: nat, size: nat)

  predicate Leq(a: Section, b: Section) { a.at < b.at || (a.at == b.at && a.size <= b.size) }

  predicate InOrder(s: seq<Section>) { forall i, j | 0 <= i < j < |s| :: Leq(s[i], s[j]) }

  function Insert(x: Section, s: seq<Section>): (r: seq<Section>) {
    if s == [] then [x] else if Leq(x, s[0]) then [x] + s else [s[0]] + Insert(x, s[1..])
  }

  function SortSections(s: seq<Section>): (r: seq<Section>) {
    if s == [] then [] else Insert(s[0], SortSections(s[1..]))
  }

  lemma {:induction false} InsertKeeps(x: Section, s: seq<Section>)
    ensures multiset(Insert(x, s)) == multiset(s) + multiset{x}
  {
    if s == [] || Leq(x, s[0]) {
    } else {
      InsertKeeps(x, s[1..]);
      assert s == [s[0]] + s[1..];
    }
  }

  lemma Prepended(x: Section, s: seq<Section>)
    requires InOrder(s) && forall y | y in s :: Leq(x, y)
    ensures InOrder([x] + s)
  {
  }

  lemma {:induction false} InsertSorted(x: Section, s: seq<Section>)
    requires InOrder(s)
    ensures InOrder(Insert(x, s))
  {
    if s == [] {
    } else {
      assert s == [s[0]] + s[1..];
      if Leq(x, s[0]) {
        Prepended(x, s);
      } else {
        InsertSorted(x, s[1..]);
        var r := Insert(x, s[1..]);
        InsertKeeps(x, s[1..]);
        forall y | y in r
          ensures Leq(s[0], y)
        {
          assert y in multiset(r);
        }
        Prepended(s[0], r);
      }
    }
  }

  /** Sorting keeps exactly the sections there are and puts them in file order. */
  lemma {:induction false} SortedSections(s: seq<Section>)
    ensures InOrder(SortSections(s)) && multiset(SortSections(s)) == multiset(s)
  {
    if s == [] {
    } else {
      SortedSections(s[1..]);
      InsertSorted(s[0], SortSections(s[1..]));
      InsertKeeps(s[0], SortSections(s[1..]));
      assert s == [s[0]] + s[1..];
    }
  }

  /** What is read of the section table, up to the offset in its last row, lies in the file. */
  predicate TableInside(data: seq<byte>, o: Offsets) {
    o.count == 0 || o.table + 40 * (o.count - 1) + 24 <= |data|
  }

  function Row(data: seq<byte>, o: Offsets, i: nat): (r: Section)
    requires TableInside(data, o) && i < o.count
  {
    var e := o.table + 40 * i;
    assert 40 * i <= 40 * (o.count - 1);
    Section(Get(data, e + 20, 4), Get(data, e + 16, 4))
  }

  /** The non-empty sections among the first `n` rows. */
  function Rows(data: seq<byte>, o: Offsets, n: nat): (r: seq<Section>)
    requires TableInside(data, o) && n <= o.count
  {
    if n == 0 then []
    else if Row(data, o, n - 1).size == 0 then Rows(data, o, n - 1)
    else Rows(data, o, n - 1) + [Row(data, o, n - 1)]
  }

  function Sections(data: seq<byte>, o: Offsets): (r: seq<Section>)
    requires TableInside(data, o)
  {
    SortSections(Rows(data, o, o.count))
  }

  function SectionBytes(data: seq<byte>, s: seq<Section>): (r: seq<byte>) {
    if s == [] then [] else Slice(data, s[0].at, s[0].at + s[0].size) + SectionBytes(data, s[1..])
  }

  function Sizes(s: seq<Section>): (r: nat) { if s == [] then 0 else s[0].size + Sizes(s[1..]) }

  // ---- what is hashed -------------------------------------------------------------------------

  /** A slice whose end may be negative, which counts from the end of the data. */
  function SliceTo(data: seq<byte>, from: nat, end: int): (r: seq<byte>) {
    Slice(data, from, if end >= 0 then end else if end + |data| >= 0 then end + |data| else 0)
  }

  predicate SlotInside(data: seq<byte>, o: Offsets) { o.slot + 8 <= |data| }

  function CertSize(data: seq<byte>, o: Offsets): (r: nat)
    requires SlotInside(data, o)
  {
    Get(data, o.slot + 4, 4)
  }

  function CertAt(data: seq<byte>, o: Offsets): (r: nat)
    requires SlotInside(data, o)
  {
    Get(data, o.slot, 4)
  }

  function HeaderBytes(data: seq<byte>, o: Offsets): (r: seq<byte>) {
    Slice(data, 0, o.checksum) + Slice(data, o.checksum + 4, o.slot) + Slice(data, o.slot + 8, o.headers)
  }

  function Tail(data: seq<byte>, hashed: nat, certSize: nat): (r: seq<byte>) {
    if |data| > hashed then SliceTo(data, hashed, |data| - certSize) else []
  }

  predicate Hashable(data: seq<byte>, o: Offsets) { TableInside(data, o) && SlotInside(data, o) }

  function Hashed(data: seq<byte>, o: Offsets): (r: seq<byte>)
    requires Hashable(data, o)
  {
    Front(data, o) + Tail(data, o.headers + Sizes(Sections(data, o)), CertSize(data, o))
  }

  function Front(data: seq<byte>, o: Offsets): (r: seq<byte>)
    requires TableInside(data, o)
  {
    HeaderBytes(data, o) + SectionBytes(data, Sections(data, o))
  }

  lemma {:induction false} SectionBytesSnoc(data: seq<byte>, s: seq<Section>, x: Section)
    ensures SectionBytes(data, s + [x]) == SectionBytes(data, s) + Slice(data, x.at, x.at + x.size)
    ensures Sizes(s + [x]) == Sizes(s) + x.size
  {
    hide Slice;
    if s == [] {
      assert (s + [x])[1..] == [];
    } else {
      SectionBytesSnoc(data, s[1..], x);
      assert (s + [x])[1..] == s[1..] + [x] && (s + [x])[0] == s[0];
    }
  }

  // ---- what that covers, from the section table alone ---------------------------------------------

  /** Offset and size of the raw data of row `i`, where PE puts them. */
  function RawAt(data: seq<byte>, o: Offsets, i: nat): (r: nat)
    requires TableInside(data, o) && i < o.count
  {
    assert 40 * i <= 40 * (o.count - 1);
    Get(data, o.table + 40 * i + 20, 4)
  }

  function RawSize(data: seq<byte>, o: Offsets, i: nat): (r: nat)
    requires TableInside(data, o) && i < o.count
  {
    assert 40 * i <= 40 * (o.count - 1);
    Get(data, o.table + 40 * i + 16, 4)
  }

  /** The sizes of those of the first `n` rows that come before (at, size) in file order. */
  function BytesBefore(data: seq<byte>, o: Offsets, at: nat, size: nat, n: nat): (r: nat)
    requires TableInside(data, o) && n <= o.count
  {
    if n == 0 then 0
    else
      var a, z := RawAt(data, o, n - 1), RawSize(data, o, n - 1);
      BytesBefore(data, o, at, size, n - 1) + if a < at || (a == at && z < size) then z else 0
  }

  function AllBytes(data: seq<byte>, o: Offsets, n: nat): (r: nat)
    requires TableInside(data, o) && n <= o.count
  {
    if n == 0 then 0 else AllBytes(data, o, n - 1) + RawSize(data, o, n - 1)
  }

  /** Headers around the two fields left out, and sections, lie in the file. */
  predicate Laid(data: seq<byte>, o: Offsets)
    requires TableInside(data, o)
  {
    && o.checksum + 4 <= o.slot && o.slot + 8 <= o.headers <= |data|
    && forall i | 0 <= i < o.count && RawSize(data, o, i) > 0 :: RawAt(data, o, i) + RawSize(data, o, i) <= |data|
  }

  /** No two sections share a byte, and each starts where those before it, or the headers, end. */
  predicate Gapless(data: seq<byte>, o: Offsets)
    requires TableInside(data, o)
  {
    && (forall i | 0 <= i < o.count && RawSize(data, o, i) > 0 ::
          RawAt(data, o, i) == o.headers + BytesBefore(data, o, RawAt(data, o, i), RawSize(data, o, i), o.count))
    && (forall i, j | 0 <= i < j < o.count && RawSize(data, o, i) > 0 && RawSize(data, o, j) > 0 ::
          RawAt(data, o, i) != RawAt(data, o, j))
  }

  /** The raw data of row `i` stands behind the headers and the rows before it in file order. */
  predicate FedRow(data: seq<byte>, o: Offsets, fed: seq<byte>, i: nat)
    requires TableInside(data, o) && Laid(data, o) && i < o.count
  {
    var at, size := RawAt(data, o, i), RawSize(data, o, i);
    size > 0 ==> Has(fed, o.headers - 12 + BytesBefore(data, o, at, size, o.count), data[at..at + size])
  }

  /** Everything a hash over the image must cover: headers without the two fields, every
      section, and what follows them up to a certificate table at the end. */
  predicate CoversImage(data: seq<byte>, o: Offsets, fed: seq<byte>)
    requires Hashable(data, o) && Laid(data, o)
  {
    var all, cert := AllBytes(data, o, o.count), Get(data, o.slot + 4, 4);
    && Has(fed, 0, data[..o.checksum] + data[o.checksum + 4..o.slot] + data[o.slot + 8..o.headers])
    && (forall i | 0 <= i < o.count :: FedRow(data, o, fed, i))
    && |fed| >= o.headers - 12 + all
    && (o.headers + all + cert <= |data| ==>
          fed[o.headers - 12 + all..] == data[o.headers + all..|data| - cert])
    && (Gapless(data, o) && o.headers + all + cert <= |data| ==>
          fed == data[..o.checksum] + data[o.checksum + 4..o.slot] + data[o.slot + 8..|data| - cert])
  }

  predicate Below(a: Section, b: Section) { a.at < b.at || (a.at == b.at && a.size < b.size) }

  function BelowSum(s: seq<Section>, x: Section): (r: nat) {
    if s == [] then 0 else (if Below(s[0], x) then s[0].size else 0) + BelowSum(s[1..], x)
  }

  lemma {:induction false} SumsSnoc(s: seq<Section>, y: Section, x: Section)
    ensures BelowSum(s + [y], x) == BelowSum(s, x) + if Below(y, x) then y.size else 0
    ensures Sizes(s + [y]) == Sizes(s) + y.size
  {
    if s == [] {
      assert (s + [y])[1..] == [];
    } else {
      SumsSnoc(s[1..], y, x);
      assert (s + [y])[1..] == s[1..] + [y] && (s + [y])[0] == s[0];
    }
  }

  lemma {:induction false} SumsInsert(y: Section, s: seq<Section>, x: Section)
    ensures BelowSum(Insert(y, s), x) == BelowSum(s, x) + if Below(y, x) then y.size else 0
    ensures Sizes(Insert(y, s)) == Sizes(s) + y.size
  {
    if s == [] || Leq(y, s[0]) {
      assert ([y] + s)[1..] == s;
    } else {
      SumsInsert(y, s[1..], x);
      assert ([s[0]] + Insert(y, s[1..]))[1..] == Insert(y, s[1..]);
    }
  }

  /** Sorting moves no bytes from before a section to behind it. */
  lemma {:induction false} SumsSort(s: seq<Section>, x: Section)
    ensures BelowSum(SortSections(s), x) == BelowSum(s, x) && Sizes(SortSections(s)) == Sizes(s)
  {
    if s == [] {
    } else {
      SumsSort(s[1..], x);
      SumsInsert(s[0], SortSections(s[1..]), x);
    }
  }

  lemma {:induction false} SumsOfRows(data: seq<byte>, o: Offsets, n: nat, x: Section)
    requires TableInside(data, o) && n <= o.count
    ensures BelowSum(Rows(data, o, n), x) == BytesBefore(data, o, x.at, x.size, n)
    ensures Sizes(Rows(data, o, n)) == AllBytes(data, o, n)
  {
    hide Get;
    if n == 0 {
    } else {
      SumsOfRows(data, o, n - 1, x);
      SumsSnoc(Rows(data, o, n - 1), Row(data, o, n - 1), x);
    }
  }

  lemma {:induction false} NoneBelow(s: seq<Section>, x: Section)
    requires forall i | 0 <= i < |s| :: Leq(x, s[i])
    ensures BelowSum(s, x) == 0
  {
    if s == [] {
    } else {
      assert Leq(x, s[0]);
      NoneBelow(s[1..], x);
    }
  }

  /** In file order, what lies below a section is what stands before the first copy of it. */
  lemma {:induction false} BelowIsBefore(s: seq<Section>, p: nat) returns (q: nat)
    requires InOrder(s) && p < |s|
    ensures q <= p && s[q] == s[p] && BelowSum(s, s[p]) == Sizes(s[..q])
    decreases s
  {
    if Below(s[0], s[p]) {
      q := BelowIsBefore(s[1..], p - 1);
      q := q + 1;
      assert s[..q][1..] == s[1..][..q - 1];
    } else {
      q := 0;
      assert p > 0 ==> Leq(s[0], s[p]);
      NoneBelow(s, s[p]);
    }
  }

  ghost predicate AllInside(data: seq<byte>, s: seq<Section>) {
    forall i | 0 <= i < |s| :: s[i].at + s[i].size <= |data|
  }

  lemma SectionSplit(data: seq<byte>, s: seq<Section>)
    requires AllInside(data, s) && s != []
    ensures s[0].at + s[0].size <= |data| && AllInside(data, s[1..])
    ensures SectionBytes(data, s) == data[s[0].at..s[0].at + s[0].size] + SectionBytes(data, s[1..])
  {
  }

  lemma SizesSplit(s: seq<Section>, q: nat)
    requires 0 < q <= |s|
    ensures Sizes(s[..q]) == s[0].size + Sizes(s[1..][..q - 1])
  {
    assert s[..q][1..] == s[1..][..q - 1];
  }

  lemma {:induction false} SectionStands(data: seq<byte>, s: seq<Section>, q: nat)
    requires AllInside(data, s) && q < |s|
    ensures s[q].at + s[q].size <= |data|
    ensures Has(SectionBytes(data, s), Sizes(s[..q]), data[s[q].at..s[q].at + s[q].size])
    decreases s
  {
    hide Has, SectionBytes, AllInside;
    SectionSplit(data, s);
    var first, rest := data[s[0].at..s[0].at + s[0].size], SectionBytes(data, s[1..]);
    if q == 0 {
      HasFirst(first, rest);
    } else {
      SectionStands(data, s[1..], q - 1);
      SizesSplit(s, q);
      hide Sizes;
      HasBehind(first, rest, Sizes(s[1..][..q - 1]), data[s[q].at..s[q].at + s[q].size]);
    }
  }

  lemma {:induction false} SectionLength(data: seq<byte>, s: seq<Section>)
    requires AllInside(data, s)
    ensures |SectionBytes(data, s)| == Sizes(s)
  {
    if s == [] {
    } else {
      SectionLength(data, s[1..]);
    }
  }

  lemma HasFirst(front: seq<byte>, back: seq<byte>)
    ensures Has(front + back, 0, front)
  {
  }

  lemma HasBehind(front: seq<byte>, back: seq<byte>, off: nat, blob: seq<byte>)
    requires Has(back, off, blob)
    ensures Has(front + back, |front| + off, blob)
  {
    assert (front + back)[|front| + off..|front| + off + |blob|] == back[off..off + |blob|];
  }

  lemma HasBefore(front: seq<byte>, back: seq<byte>, off: nat, blob: seq<byte>)
    requires Has(front, off, blob)
    ensures Has(front + back, off, blob)
  {
    assert (front + back)[off..off + |blob|] == front[off..off + |blob|];
  }

  /** Sections that follow one another are one slice of the file. */
  lemma {:induction false} TiledBytes(data: seq<byte>, s: seq<Section>, from: nat)
    requires forall p | 0 <= p < |s| :: s[p].at == from + Sizes(s[..p])
    requires from + Sizes(s) <= |data|
    ensures SectionBytes(data, s) == data[from..from + Sizes(s)]
    decreases s
  {
    if s == [] {
    } else {
      hide Slice;
      var rest, mid := s[1..], from + s[0].size;
      assert s[..0] == [] && s[0].at == from;
      forall p | 0 <= p < |rest| ensures rest[p].at == mid + Sizes(rest[..p]) {
        TiledNext(s, from, p);
      }
      TiledBytes(data, rest, mid);
      TwoSlices(data, from, mid, mid + Sizes(rest));
    }
  }

  lemma TiledNext(s: seq<Section>, from: nat, p: nat)
    requires p + 1 < |s| && s[p + 1].at == from + Sizes(s[..p + 1])
    ensures s[1..][p].at == from + s[0].size + Sizes(s[1..][..p])
  {
    assert s[..p + 1][1..] == s[1..][..p];
  }

  lemma TwoSlices(data: seq<byte>, a: nat, b: nat, c: nat)
    requires a <= b <= c <= |data|
    ensures data[a..b] + data[b..c] == data[a..c]
  {
  }

  /** The rows and the sorted sections are the same sections. */
  lemma {:induction false} RowListed(data: seq<byte>, o: Offsets, n: nat, i: nat)
    requires TableInside(data, o) && i < n <= o.count && RawSize(data, o, i) > 0
    ensures Section(RawAt(data, o, i), RawSize(data, o, i)) in Rows(data, o, n)
  {
    hide Get;
    if n == i + 1 {
    } else {
      RowListed(data, o, n - 1, i);
    }
  }

  lemma {:induction false} ListedRow(data: seq<byte>, o: Offsets, n: nat, x: Section) returns (i: nat)
    requires TableInside(data, o) && n <= o.count && x in Rows(data, o, n)
    ensures i < n && x == Section(RawAt(data, o, i), RawSize(data, o, i)) && x.size > 0
  {
    hide Get;
    if n > 0 && x in Rows(data, o, n - 1) {
      i := ListedRow(data, o, n - 1, x);
    } else {
      i := n - 1;
    }
  }

  lemma InSorted(data: seq<byte>, o: Offsets, x: Section)
    requires TableInside(data, o)
    ensures x in Sections(data, o) <==> x in Rows(data, o, o.count)
  {
    hide Rows;
    var rows := Rows(data, o, o.count);
    SortedSections(rows);
    assert x in rows <==> x in multiset(rows);
    assert x in SortSections(rows) <==> x in multiset(SortSections(rows));
  }

  lemma SectionsLie(data: seq<byte>, o: Offsets)
    requires TableInside(data, o) && Laid(data, o)
    ensures AllInside(data, Sections(data, o))
  {
    hide Sections, Rows, RawAt, RawSize;
    var s := Sections(data, o);
    forall k | 0 <= k < |s| ensures s[k].at + s[k].size <= |data| {
      InSorted(data, o, s[k]);
      var i := ListedRow(data, o, o.count, s[k]);
    }
  }

  lemma SectionSums(data: seq<byte>, o: Offsets, x: Section)
    requires TableInside(data, o)
    ensures BelowSum(Sections(data, o), x) == BytesBefore(data, o, x.at, x.size, o.count)
    ensures Sizes(Sections(data, o)) == AllBytes(data, o, o.count)
  {
    hide Rows, SortSections, BelowSum, Sizes;
    SumsSort(Rows(data, o, o.count), x);
    SumsOfRows(data, o, o.count, x);
  }

  lemma SectionsInOrder(data: seq<byte>, o: Offsets)
    requires TableInside(data, o)
    ensures InOrder(Sections(data, o))
  {
    SortedSections(Rows(data, o, o.count));
  }

  /** Every row's bytes stand among the section bytes, behind those of the rows before it. */
  lemma RowStands(data: seq<byte>, o: Offsets, i: nat)
    requires TableInside(data, o) && Laid(data, o) && i < o.count && RawSize(data, o, i) > 0
    ensures var at, size := RawAt(data, o, i), RawSize(data, o, i);
            && at + size <= |data|
            && Has(SectionBytes(data, Sections(data, o)), BytesBefore(data, o, at, size, o.count), data[at..at + size])
  {
    hide Sections, Rows, SectionBytes, BelowSum, Sizes, InOrder, Has, RawAt, RawSize, BytesBefore, AllInside;
    var s, x := Sections(data, o), Section(RawAt(data, o, i), RawSize(data, o, i));
    RowListed(data, o, o.count, i);
    InSorted(data, o, x);
    var p :| 0 <= p < |s| && s[p] == x;
    SectionsInOrder(data, o);
    var q := BelowIsBefore(s, p);
    SectionsLie(data, o);
    SectionStands(data, s, q);
    SectionSums(data, o, x);
  }

  lemma {:induction false} RowsDiffer(data: seq<byte>, o: Offsets, n: nat)
    requires TableInside(data, o) && n <= o.count && Gapless(data, o)
    ensures forall a, b | 0 <= a < b < |Rows(data, o, n)| :: Rows(data, o, n)[a] != Rows(data, o, n)[b]
  {
    hide RawAt, RawSize, BytesBefore;
    if n == 0 {
    } else {
      RowsDiffer(data, o, n - 1);
      RowIs(data, o, n - 1);
      var x := Row(data, o, n - 1);
      if x in Rows(data, o, n - 1) && x.size > 0 {
        var i := ListedRow(data, o, n - 1, x);
      }
    }
  }

  lemma RowIs(data: seq<byte>, o: Offsets, i: nat)
    requires TableInside(data, o) && i < o.count
    ensures Row(data, o, i) == Section(RawAt(data, o, i), RawSize(data, o, i))
  {
  }

  lemma {:induction false} CountedOnce(s: seq<Section>, x: Section)
    requires forall a, b | 0 <= a < b < |s| :: s[a] != s[b]
    ensures multiset(s)[x] <= 1
  {
    if s == [] {
    } else {
      assert s == [s[0]] + s[1..];
      CountedOnce(s[1..], x);
      if x == s[0] {
        assert x !in s[1..];
        assert multiset(s[1..])[x] == 0;
      }
    }
  }

  lemma CountedTwice(s: seq<Section>, q: nat, p: nat)
    requires q < p < |s| && s[q] == s[p]
    ensures multiset(s)[s[p]] >= 2
  {
    assert s == s[..p] + [s[p]] + s[p + 1..];
    assert s[p] in s[..p] by { assert s[..p][q] == s[p]; }
    assert multiset(s[..p])[s[p]] >= 1;
  }

  lemma SectionsTile(data: seq<byte>, o: Offsets, p: nat)
    requires TableInside(data, o) && Gapless(data, o) && p < |Sections(data, o)|
    ensures Sections(data, o)[p].at == o.headers + Sizes(Sections(data, o)[..p])
  {
    hide Rows, BelowSum, Sizes, InOrder, RawAt, RawSize, BytesBefore, SortSections;
    var s, rows := Sections(data, o), Rows(data, o, o.count);
    SectionsInOrder(data, o);
    var q := BelowIsBefore(s, p);
    if q < p {
      CountedTwice(s, q, p);
      SortedSections(rows);
      RowsDiffer(data, o, o.count);
      CountedOnce(rows, s[p]);
    }
    SectionSums(data, o, s[p]);
    InSorted(data, o, s[p]);
    var i := ListedRow(data, o, o.count, s[p]);
  }

  lemma HeaderIs(data: seq<byte>, o: Offsets)
    requires TableInside(data, o) && Laid(data, o)
    ensures HeaderBytes(data, o) == data[..o.checksum] + data[o.checksum + 4..o.slot] + data[o.slot + 8..o.headers]
    ensures |HeaderBytes(data, o)| == o.headers - 12
  {
  }

  lemma TailIs(data: seq<byte>, hashed: nat, cert: nat)
    requires hashed + cert <= |data|
    ensures Tail(data, hashed, cert) == data[hashed..|data| - cert]
  {
  }

  lemma RowIsFed(data: seq<byte>, o: Offsets, tail: seq<byte>, i: nat)
    requires TableInside(data, o) && Laid(data, o) && i < o.count
    ensures FedRow(data, o, Front(data, o) + tail, i)
  {
    hide Sections, SectionBytes, HeaderBytes, Has, RawAt, RawSize, BytesBefore;
    HeaderIs(data, o);
    var at, size := RawAt(data, o, i), RawSize(data, o, i);
    if size > 0 {
      RowStands(data, o, i);
      var before := BytesBefore(data, o, at, size, o.count);
      HasBehind(HeaderBytes(data, o), SectionBytes(data, Sections(data, o)), before, data[at..at + size]);
      HasBefore(Front(data, o), tail, o.headers - 12 + before, data[at..at + size]);
    }
  }

  lemma FrontLength(data: seq<byte>, o: Offsets)
    requires TableInside(data, o) && Laid(data, o)
    ensures |Front(data, o)| == o.headers - 12 + AllBytes(data, o, o.count)
    ensures Sizes(Sections(data, o)) == AllBytes(data, o, o.count)
    ensures Has(Front(data, o), 0, data[..o.checksum] + data[o.checksum + 4..o.slot] + data[o.slot + 8..o.headers])
  {
    hide Sections, SectionBytes, HeaderBytes, RawAt, RawSize, AllBytes, Sizes;
    HeaderIs(data, o);
    SectionsLie(data, o);
    SectionLength(data, Sections(data, o));
    SectionSums(data, o, Section(0, 0));
    var h := HeaderBytes(data, o);
    assert (h + SectionBytes(data, Sections(data, o)))[0..|h|] == h;
  }

  lemma GaplessFront(data: seq<byte>, o: Offsets)
    requires TableInside(data, o) && Laid(data, o) && Gapless(data, o)
    requires o.headers + AllBytes(data, o, o.count) <= |data|
    ensures Front(data, o) == data[..o.checksum] + data[o.checksum + 4..o.slot]
                              + data[o.slot + 8..o.headers + AllBytes(data, o, o.count)]
  {
    hide Sections, SectionBytes, HeaderBytes, RawAt, RawSize, AllBytes, Sizes, Gapless, Laid;
    LaidIs(data, o);
    HeaderIs(data, o);
    FrontLength(data, o);
    var s := Sections(data, o);
    forall p | 0 <= p < |s| ensures s[p].at == o.headers + Sizes(s[..p]) {
      SectionsTile(data, o, p);
    }
    TiledBytes(data, s, o.headers);
    TwoSlices(data, o.slot + 8, o.headers, o.headers + AllBytes(data, o, o.count));
    Regrouped(data[..o.checksum] + data[o.checksum + 4..o.slot], data[o.slot + 8..o.headers], SectionBytes(data, s));
  }

  lemma LaidIs(data: seq<byte>, o: Offsets)
    requires TableInside(data, o) && Laid(data, o)
    ensures o.checksum + 4 <= o.slot && o.slot + 8 <= o.headers <= |data|
  {
  }

  lemma Regrouped(a: seq<byte>, b: seq<byte>, c: seq<byte>)
    ensures a + b + c == a + (b + c)
  {
  }

  /** What is hashed covers the image. */
  lemma HashCovers(data: seq<byte>, o: Offsets)
    requires Hashable(data, o) && Laid(data, o)
    ensures CoversImage(data, o, Hashed(data, o))
  {
    hide Front, Tail, Sections, RawAt, RawSize, AllBytes, BytesBefore, Sizes, Gapless, Laid, FedRow, Has, Get;
    LaidIs(data, o);
    FrontLength(data, o);
    var front, all, cert := Front(data, o), AllBytes(data, o, o.count), CertSize(data, o);
    var tail := Tail(data, o.headers + all, cert);
    var head := data[..o.checksum] + data[o.checksum + 4..o.slot] + data[o.slot + 8..o.headers];
    HasBefore(front, tail, 0, head);
    forall i | 0 <= i < o.count ensures FedRow(data, o, front + tail, i) {
      RowIsFed(data, o, tail, i);
    }
    if o.headers + all + cert <= |data| {
      TailIs(data, o.headers + all, cert);
      Behind(front, tail);
      if Gapless(data, o) { GaplessFed(data, o, all, cert); }
    }
  }

  lemma GaplessFed(data: seq<byte>, o: Offsets, all: nat, cert: nat)
    requires TableInside(data, o) && Laid(data, o) && Gapless(data, o) && all == AllBytes(data, o, o.count)
    requires o.headers + all + cert <= |data|
    ensures o.checksum + 4 <= o.slot && o.slot + 8 <= o.headers
    ensures Front(data, o) + data[o.headers + all..|data| - cert] ==
            data[..o.checksum] + data[o.checksum + 4..o.slot] + data[o.slot + 8..|data| - cert]
  {
    hide *;
    LaidIs(data, o);
    GaplessFront(data, o);
    var two := data[..o.checksum] + data[o.checksum + 4..o.slot];
    Regrouped(two, data[o.slot + 8..o.headers + all], data[o.headers + all..|data| - cert]);
    TwoSlices(data, o.slot + 8, o.headers + all, |data| - cert);
  }

  lemma Behind(front: seq<byte>, tail: seq<byte>)
    ensures (front + tail)[|front|..] == tail
  {
  }

  method CollectRows(data: seq<byte>, o: Offsets) returns (rows: seq<Section>)
    requires TableInside(data, o)
    ensures rows == Rows(data, o, o.count)
  {
    rows := [];
    for i := 0 to o.count
      invariant rows == Rows(data, o, i)
    {
      var row := Row(data, o, i);
      if row.size != 0 { rows := rows + [row]; }
    }
  }

  /** The bytes fed to the hash, in the order they are fed. */
  method FeedHash(data: seq<byte>, o: Offsets) returns (fed: seq<byte>)
    requires Hashable(data, o)
    ensures fed == Hashed(data, o)
    ensures Laid(data, o) ==> CoversImage(data, o, fed)
  {
    hide Slice, SectionBytes, Sizes, Laid, CoversImage;
    fed := Slice(data, 0, o.checksum);
    fed := fed + Slice(data, o.checksum + 4, o.slot);
    fed := fed + Slice(data, o.slot + 8, o.headers);
    var rows := CollectRows(data, o);
    var sections := SortSections(rows);
    var hashed := o.headers;
    EmptySections(data);
    for i := 0 to |sections|
      invariant fed == HeaderBytes(data, o) + SectionBytes(data, sections[..i])
      invariant hashed == o.headers + Sizes(sections[..i])
    {
      SectionBytesSnoc(data, sections[..i], sections[i]);
      assert sections[..i + 1] == sections[..i] + [sections[i]];
      fed := fed + Slice(data, sections[i].at, sections[i].at + sections[i].size);
      hashed := hashed + sections[i].size;
    }
    assert sections[..|sections|] == sections;
    if |data| > hashed { fed := fed + SliceTo(data, hashed, |data| - CertSize(data, o)); }
    if Laid(data, o) { HashCovers(data, o); }
  }

  lemma EmptySections(data: seq<byte>)
    ensures SectionBytes(data, []) == [] && Sizes([]) == 0
  {
  }

  // ---- signing ---------------------------------------------------------------------------------

  const TWO32 := 0x1_0000_0000

  function Pad8(n: nat): (r: seq<byte>)
    ensures (n + |r|) % 8 == 0 && |r| < 8
  {
    Zeros((8 - n % 8) % 8)
  }

  predicate HasTable(data: seq<byte>, o: Offsets)
    requires SlotInside(data, o)
  {
    CertSize(data, o) != 0 && CertAt(data, o) != 0 && CertAt(data, o) + CertSize(data, o) <= |data|
  }

  /** A directory entry that names no table inside the file is left as it is. */
  predicate Stale(data: seq<byte>, o: Offsets)
    requires SlotInside(data, o)
  {
    CertSize(data, o) != 0 && !HasTable(data, o)
  }

  function Slot(at: nat, size: nat): (r: seq<byte>)
    ensures |r| == 8
  {
    Le(at, 4) + Le(size, 4)
  }

  function Cut(data: seq<byte>, at: nat, size: nat): (r: seq<byte>)
    requires at + size <= |data|
  {
    data[..at] + data[at + size..]
  }

  /** The image the signer hashes: any old table taken out, padded to eight bytes. */
  function Unsigned(data: seq<byte>, o: Offsets): (r: Option<seq<byte>>)
    ensures r.Some? ==> |r.value| >= o.slot + 8 && |r.value| % 8 == 0
  {
    if !SlotInside(data, o) then None
    else if !HasTable(data, o) then Some(data + Pad8(|data|))
    else
      var cut := Cut(data, CertAt(data, o), CertSize(data, o));
      if o.slot + 8 > |cut| then None else Some(Splice(cut, o.slot, Slot(0, 0)) + Pad8(|cut|))
  }

  lemma StillMultiple(n: nat)
    requires n % 8 == 0
    ensures (8 + n) % 8 == 0
  {
  }

  function WinCert(p7: seq<byte>): (r: seq<byte>)
    ensures |r| >= 8 && |r| % 8 == 0 && |r| == 8 + |p7| + |Pad8(|p7|)|
  {
    var body := p7 + Pad8(|p7|);
    StillMultiple(|body|);
    Le(8 + |body|, 4) + Le(0x0200, 2) + Le(0x0002, 2) + body
  }

  function WithTable(clean: seq<byte>, o: Offsets, cert: seq<byte>): (r: seq<byte>)
    requires SlotInside(clean, o)
    ensures |r| == |clean| + |cert|
  {
    Splice(clean + cert, o.slot, Slot(|clean|, |cert|))
  }

  /** The whole file after signing; `None` where the original refuses or raises. */
  function Sign(data: seq<byte>, p7: seq<byte> -> seq<byte>): (r: Option<seq<byte>>) {
    var o := Locate(data);
    if o.None? then None else
    var clean := Unsigned(data, o.value);
    if clean.None? || !Hashable(clean.value, o.value) then None else
    var cert := WinCert(p7(Hashed(clean.value, o.value)));
    if |clean.value| >= TWO32 || |cert| >= TWO32 then None else Some(WithTable(clean.value, o.value, cert))
  }

  /** Drop any old table, clear its directory entry, pad. */
  method StripAndPad(image: seq<byte>, o: Offsets) returns (r: Option<seq<byte>>)
    ensures r == Unsigned(image, o)
  {
    hide Splice, Slot;
    var data := image;
    if o.slot + 8 > |data| { return None; }
    var at, size := Get(data, o.slot, 4), Get(data, o.slot + 4, 4);
    if size != 0 && at != 0 && at + size <= |data| {
      data := data[..at] + data[at + size..];
      if o.slot + 8 > |data| { return None; }
      data := Splice(data, o.slot, Slot(0, 0));
    }
    r := Some(data + Pad8(|data|));
  }

  /** The edits, one after the other, on one growing buffer. */
  method SignImage(image: seq<byte>, p7: seq<byte> -> seq<byte>) returns (r: Option<seq<byte>>)
    ensures r == Sign(image, p7)
  {
    hide Splice, Hashed, Slot, Unsigned, Locate, WinCert;
    var located := Locate(image);
    if located.None? { return None; }
    var o := located.value;
    var stripped := StripAndPad(image, o);
    if stripped.None? { return None; }
    var data := stripped.value;
    if !Hashable(data, o) { return None; }
    var fed := FeedHash(data, o);
    var cert := WinCert(p7(fed));
    if |data| >= TWO32 || |cert| >= TWO32 { return None; }
    var end := |data|;
    data := data + cert;
    r := Some(Splice(data, o.slot, Slot(end, |cert|)));
  }

  // ---- well-formed images ------------------------------------------------------------------------

  /** Where the part that is not certificate table ends. */
  function Limit(data: seq<byte>, o: Offsets): (r: nat)
    requires SlotInside(data, o)
  {
    if HasTable(data, o) then CertAt(data, o) else |data|
  }

  ghost predicate Inside(s: seq<Section>, from: nat, end: nat) {
    forall i | 0 <= i < |s| :: from <= s[i].at && s[i].at + s[i].size <= end
  }

  /** The headers hold the directory slot and the section table, and the sections lie after
      them and before any certificate table. */
  ghost predicate WellFormed(data: seq<byte>, o: Offsets) {
    && Locate(data) == Some(o) && SlotInside(data, o) && TableInside(data, o)
    && o.slot + 8 <= o.table && o.table + 40 * o.count <= o.headers <= Limit(data, o)
    && Inside(Rows(data, o, o.count), o.headers, Limit(data, o))
  }

  /** Two files agree up to `limit`, apart from the directory slot. */
  ghost predicate Same(a: seq<byte>, b: seq<byte>, o: Offsets, limit: nat) {
    limit <= |a| && limit <= |b| && forall k | 0 <= k < limit && !(o.slot <= k < o.slot + 8) :: a[k] == b[k]
  }

  lemma SameSlice(a: seq<byte>, b: seq<byte>, o: Offsets, limit: nat, i: nat, j: nat)
    requires Same(a, b, o, limit) && i <= j <= limit && (j <= o.slot || o.slot + 8 <= i)
    ensures a[i..j] == b[i..j] && Slice(a, i, j) == Slice(b, i, j)
  {
  }

  lemma SameField(a: seq<byte>, b: seq<byte>, o: Offsets, limit: nat, i: nat, k: nat)
    requires Same(a, b, o, limit) && i + k <= limit && (i + k <= o.slot || o.slot + 8 <= i)
    ensures Get(a, i, k) == Get(b, i, k) && Fits(a, i, k) == Fits(b, i, k)
  {
    SameSlice(a, b, o, limit, i, i + k);
  }

  lemma LocateSame(a: seq<byte>, b: seq<byte>, o: Offsets, limit: nat)
    requires Locate(a) == Some(o) && Same(a, b, o, limit) && o.slot <= limit
    ensures Locate(b) == Some(o)
  {
    hide Same, Slice;
    var pe := o.slot - 168;
    SameSlice(a, b, o, limit, 0, 2);
    SameField(a, b, o, limit, 0x3C, 4);
    SameSlice(a, b, o, limit, pe, pe + 4);
    SameField(a, b, o, limit, pe + 24, 2);
    SameField(a, b, o, limit, pe + 6, 2);
    SameField(a, b, o, limit, pe + 84, 4);
    SameField(a, b, o, limit, pe + 132, 4);
    SameField(a, b, o, limit, pe + 20, 2);
  }

  /** The checksum lies before the slot. */
  lemma LocateShape(a: seq<byte>, o: Offsets)
    requires Locate(a) == Some(o)
    ensures o.checksum + 80 == o.slot
  {
  }

  lemma {:induction false} RowsSame(a: seq<byte>, b: seq<byte>, o: Offsets, limit: nat, n: nat)
    requires Same(a, b, o, limit) && o.slot + 8 <= o.table && o.table + 40 * o.count <= limit && n <= o.count
    requires TableInside(a, o) && TableInside(b, o)
    ensures Rows(a, o, n) == Rows(b, o, n)
  {
    hide Same, Get;
    if n == 0 {
    } else {
      var e := o.table + 40 * (n - 1);
      SameField(a, b, o, limit, e + 20, 4);
      SameField(a, b, o, limit, e + 16, 4);
      RowsSame(a, b, o, limit, n - 1);
    }
  }

  lemma {:induction false} SectionBytesSame(a: seq<byte>, b: seq<byte>, o: Offsets, limit: nat, s: seq<Section>)
    requires Same(a, b, o, limit) && o.slot + 8 <= o.headers && Inside(s, o.headers, limit)
    ensures SectionBytes(a, s) == SectionBytes(b, s)
  {
    hide Same, Slice;
    if s == [] {
    } else {
      assert o.headers <= s[0].at && s[0].at + s[0].size <= limit;
      SameSlice(a, b, o, limit, s[0].at, s[0].at + s[0].size);
      SectionBytesSame(a, b, o, limit, s[1..]);
    }
  }

  lemma SortedInside(s: seq<Section>, from: nat, end: nat)
    requires Inside(s, from, end)
    ensures Inside(SortSections(s), from, end)
  {
    SortedSections(s);
    var r := SortSections(s);
    forall i | 0 <= i < |r|
      ensures from <= r[i].at && r[i].at + r[i].size <= end
    {
      assert r[i] in multiset(r);
      assert r[i] in s;
    }
  }

  /** Files that agree hash alike up to their tails. */
  lemma FrontSame(a: seq<byte>, b: seq<byte>, o: Offsets, limit: nat)
    requires Locate(a) == Some(o) && Same(a, b, o, limit) && Hashable(a, o) && Hashable(b, o)
    requires o.slot + 8 <= o.table && o.table + 40 * o.count <= o.headers <= limit
    requires Inside(Rows(a, o, o.count), o.headers, limit)
    ensures Sections(a, o) == Sections(b, o) && Front(a, o) == Front(b, o)
  {
    hide Same, Slice, Rows, Locate;
    LocateShape(a, o);
    SameSlice(a, b, o, limit, 0, o.checksum);
    SameSlice(a, b, o, limit, o.checksum + 4, o.slot);
    SameSlice(a, b, o, limit, o.slot + 8, o.headers);
    RowsSame(a, b, o, limit, o.count);
    SortedInside(Rows(a, o, o.count), o.headers, limit);
    SectionBytesSame(a, b, o, limit, Sections(a, o));
  }

  // ---- the signed file and the clean one --------------------------------------------------------

  lemma SlotReads(m: seq<byte>, o: Offsets, at: nat, size: nat)
    requires o.slot + 8 <= |m| && at < TWO32 && size < TWO32
    ensures var r := Splice(m, o.slot, Slot(at, size)); CertAt(r, o) == at && CertSize(r, o) == size
  {
    hide Le, UnLe, Pow256;
    var r := Splice(m, o.slot, Slot(at, size));
    assert r[o.slot..o.slot + 4] == Le(at, 4) && r[o.slot + 4..o.slot + 8] == Le(size, 4);
    Widths();
    LeRoundTrip(at, 4);
    LeRoundTrip(size, 4);
  }

  /** Taking the old table out changes nothing before it but the slot. */
  lemma UnsignedSame(data: seq<byte>, o: Offsets)
    requires WellFormed(data, o)
    ensures var clean := Unsigned(data, o);
            && clean.Some? && Limit(data, o) <= |clean.value| && Same(data, clean.value, o, Limit(data, o))
            && Hashable(clean.value, o)
            && CertSize(clean.value, o) == if HasTable(data, o) then 0 else CertSize(data, o)
  {
    hide Rows, Locate, Get, Slot;
    if HasTable(data, o) {
      var cut := Cut(data, CertAt(data, o), CertSize(data, o));
      SlotReads(cut, o, 0, 0);
      SlotPrefix(Splice(cut, o.slot, Slot(0, 0)), o, Pad8(|cut|));
    } else {
      SlotPrefix(data, o, Pad8(|data|));
    }
  }

  lemma SlotPrefix(m: seq<byte>, o: Offsets, more: seq<byte>)
    requires SlotInside(m, o)
    ensures CertSize(m + more, o) == CertSize(m, o) && CertAt(m + more, o) == CertAt(m, o)
  {
    var x := m + more;
    assert x[o.slot..o.slot + 4] == m[o.slot..o.slot + 4];
    assert x[o.slot + 4..o.slot + 8] == m[o.slot + 4..o.slot + 8];
  }

  lemma WithTableSame(clean: seq<byte>, o: Offsets, cert: seq<byte>)
    requires SlotInside(clean, o) && |clean| < TWO32 && |cert| < TWO32
    ensures Same(clean, WithTable(clean, o, cert), o, |clean|)
    ensures CertAt(WithTable(clean, o, cert), o) == |clean| && CertSize(WithTable(clean, o, cert), o) == |cert|
  {
    hide Slot;
    SlotReads(clean + cert, o, |clean|, |cert|);
  }

  /** What follows the hashed part is the same in both files exactly when the clean file's
      directory names no table. */
  lemma TailsAgree(clean: seq<byte>, signed: seq<byte>, o: Offsets, hashed: nat, size: nat, w: nat)
    requires Same(clean, signed, o, |clean|) && o.slot + 8 <= hashed && |signed| == |clean| + w
    ensures Tail(clean, hashed, size) == Tail(signed, hashed, w) <==> size == 0 || |clean| <= hashed
  {
    if |clean| > hashed {
      SameSlice(clean, signed, o, |clean|, hashed, |clean|);
      assert Tail(signed, hashed, w) == clean[hashed..];
    }
  }

  ghost predicate Mismatch(data: seq<byte>, o: Offsets)
    requires WellFormed(data, o)
  {
    Stale(data, o) && |data| + |Pad8(|data|)| > o.headers + Sizes(Sections(data, o))
  }

  lemma SamePrefix(x: seq<byte>, y: seq<byte>, a: seq<byte>, b: seq<byte>)
    requires x == y
    ensures x + a == y + b <==> a == b
  {
    if x + a == y + b {
      assert a == (x + a)[|x|..] && b == (y + b)[|y|..];
    }
  }

  lemma HashesAgree(clean: seq<byte>, signed: seq<byte>, o: Offsets, w: nat)
    requires Locate(clean) == Some(o) && Hashable(clean, o) && Hashable(signed, o) && CertSize(signed, o) == w
    requires Same(clean, signed, o, |clean|) && |signed| == |clean| + w
    requires o.slot + 8 <= o.table && o.table + 40 * o.count <= o.headers <= |clean|
    requires Inside(Rows(clean, o, o.count), o.headers, |clean|)
    ensures Hashed(clean, o) == Hashed(signed, o) <==>
            CertSize(clean, o) == 0 || |clean| <= o.headers + Sizes(Sections(clean, o))
  {
    hide Same, Locate, Front, Sections, Tail, Sizes, Rows, CertSize;
    FrontSame(clean, signed, o, |clean|);
    var hashed := o.headers + Sizes(Sections(clean, o));
    TailsAgree(clean, signed, o, hashed, CertSize(clean, o), w);
    SamePrefix(Front(clean, o), Front(signed, o), Tail(clean, hashed, CertSize(clean, o)), Tail(signed, hashed, w));
  }

  /** The clean image is itself laid out as the hash expects. */
  lemma CleanLayout(data: seq<byte>, o: Offsets)
    requires WellFormed(data, o)
    ensures var clean := Unsigned(data, o);
            && clean.Some? && Locate(clean.value) == Some(o) && Hashable(clean.value, o) && o.headers <= |clean.value|
            && Sections(clean.value, o) == Sections(data, o) && Rows(clean.value, o, o.count) == Rows(data, o, o.count)
            && Inside(Rows(clean.value, o, o.count), o.headers, |clean.value|)
  {
    hide Same, Locate, Unsigned, HasTable, Rows;
    UnsignedSame(data, o);
    var clean := Unsigned(data, o).value;
    LocateSame(data, clean, o, Limit(data, o));
    RowsSame(data, clean, o, Limit(data, o), o.count);
  }

  lemma CleanSize(data: seq<byte>, o: Offsets)
    requires WellFormed(data, o)
    ensures Unsigned(data, o).Some?
    ensures var clean := Unsigned(data, o).value;
            && Hashable(clean, o) && Sections(clean, o) == Sections(data, o)
            && (Mismatch(data, o) <==> CertSize(clean, o) != 0 && |clean| > o.headers + Sizes(Sections(data, o)))
  {
    hide Same, Locate, Rows, Sizes;
    UnsignedSame(data, o);
    CleanLayout(data, o);
  }

  /** The signature covers what the firmware will hash, for every well-formed image, except
      exactly when a stale directory entry is left in place and something follows the sections. */
  lemma SignedHash(data: seq<byte>, o: Offsets, p7: seq<byte> -> seq<byte>)
    requires WellFormed(data, o) && Sign(data, p7).Some?
    ensures var clean, signed := Unsigned(data, o), Sign(data, p7).value;
            && clean.Some? && Hashable(clean.value, o) && Locate(signed) == Some(o) && Hashable(signed, o)
            && (Hashed(signed, o) == Hashed(clean.value, o) <==> !Mismatch(data, o))
            && |signed| % 8 == 0 && CertAt(signed, o) == |clean.value|
            && CertAt(signed, o) + CertSize(signed, o) == |signed|
  {
    hide Same, Locate, Hashed, WithTable, Sections, Rows, Sizes, Pad8, Unsigned, Mismatch, WinCert, CertSize, CertAt, Limit, HasTable;
    UnsignedSame(data, o);
    CleanLayout(data, o);
    CleanSize(data, o);
    var clean := Unsigned(data, o).value;
    var cert := WinCert(p7(Hashed(clean, o)));
    var signed := WithTable(clean, o, cert);
    WithTableSame(clean, o, cert);
    LocateSame(clean, signed, o, |clean|);
    HashesAgree(clean, signed, o, |cert|);
  }

  /** What is signed covers the image: a clean well-formed image is laid out as the hash expects. */
  lemma SignedCovers(data: seq<byte>, o: Offsets)
    requires WellFormed(data, o)
    ensures var clean := Unsigned(data, o);
            && clean.Some? && Hashable(clean.value, o) && Laid(clean.value, o)
            && CoversImage(clean.value, o, Hashed(clean.value, o))
  {
    hide Unsigned, Rows, Hashed, CoversImage, Laid, Locate;
    CleanLayout(data, o);
    var clean := Unsigned(data, o).value;
    InsideIsLaid(clean, o);
    HashCovers(clean, o);
  }

  lemma InsideIsLaid(data: seq<byte>, o: Offsets)
    requires Hashable(data, o) && Locate(data) == Some(o) && o.slot + 8 <= o.headers <= |data|
    requires Inside(Rows(data, o, o.count), o.headers, |data|)
    ensures Laid(data, o)
  {
    hide Rows, RawAt, RawSize;
    LocateShape(data, o);
    forall i | 0 <= i < o.count && RawSize(data, o, i) > 0
      ensures RawAt(data, o, i) + RawSize(data, o, i) <= |data|
    {
      RowListed(data, o, o.count, i);
    }
  }

  /** The table in a signed file: its length counts the header and the padding, then revision
      2.0, PKCS#7 signed data, the signature itself and zeros to a multiple of eight. */
  lemma SignedTable(data: seq<byte>, o: Offsets, p7: seq<byte> -> seq<byte>)
    requires WellFormed(data, o) && Sign(data, p7).Some?
    ensures var clean, signed := Unsigned(data, o), Sign(data, p7).value;
            && clean.Some? && Hashable(clean.value, o) && SlotInside(signed, o)
            && CertTable(signed, CertAt(signed, o), p7(Hashed(clean.value, o)))
            && CertAt(signed, o) == |clean.value| && Same(clean.value, signed, o, |clean.value|)
  {
    hide Same, Locate, Hashed, WithTable, Sections, Rows, Unsigned, WinCert, CertSize, CertAt, CertTable;
    UnsignedSame(data, o);
    var clean := Unsigned(data, o).value;
    var blob := p7(Hashed(clean, o));
    WithTableSame(clean, o, WinCert(blob));
    TableBehind(clean, o, blob);
  }

  /** A certificate table at `at`, up to the end of the file, holding `blob`. */
  predicate CertTable(file: seq<byte>, at: nat, blob: seq<byte>) {
    && at + 8 + |blob| <= |file| && Get(file, at, 4) == |file| - at
    && Get(file, at + 4, 2) == 0x0200 && Get(file, at + 6, 2) == 0x0002
    && file[at + 8..at + 8 + |blob|] == blob
    && |file| - at - 8 - |blob| < 8 && forall k | at + 8 + |blob| <= k < |file| :: file[k] == 0
  }

  lemma TableBehind(clean: seq<byte>, o: Offsets, blob: seq<byte>)
    requires SlotInside(clean, o) && |WinCert(blob)| < TWO32
    ensures CertTable(WithTable(clean, o, WinCert(blob)), |clean|, blob)
  {
    hide Slot;
    var cert := WinCert(blob);
    var file := WithTable(clean, o, cert);
    assert file[|clean|..] == cert by { hide WinCert; }
    CertFields(blob);
    hide WinCert, WithTable;
    assert file == file[..|clean|] + cert;
    TableMoves(file[..|clean|], cert, blob);
  }

  lemma TableMoves(front: seq<byte>, cert: seq<byte>, blob: seq<byte>)
    requires CertTable(cert, 0, blob)
    ensures CertTable(front + cert, |front|, blob)
  {
    var file, at := front + cert, |front|;
    assert file[at..at + 4] == cert[0..4] && file[at + 4..at + 6] == cert[4..6] && file[at + 6..at + 8] == cert[6..8];
    assert file[at + 8..at + 8 + |blob|] == cert[8..8 + |blob|];
  }

  lemma CertFields(blob: seq<byte>)
    requires |WinCert(blob)| < TWO32
    ensures CertTable(WinCert(blob), 0, blob)
  {
    hide Le, UnLe, Pow256;
    var body := blob + Pad8(|blob|);
    var a, b, c, cert := Le(8 + |body|, 4), Le(0x0200, 2), Le(0x0002, 2), WinCert(blob);
    assert cert == a + b + c + body;
    assert cert[0..4] == a && cert[4..6] == b && cert[6..8] == c;
    assert cert[8..] == body && cert[8..8 + |blob|] == blob;
    Widths();
    LeRoundTrip(8 + |body|, 4);
    LeRoundTrip(0x0200, 2);
    LeRoundTrip(0x0002, 2);
  }

  /** A small image whose directory entry names eight bytes at offset zero. */
  function StaleImage(): (r: seq<byte>)
    ensures |r| == 248
  {
    seq(248, i => if i == 0 then 0x4D else if i == 1 then 0x5A else if i == 0x3C then 64
                  else if i == 64 then 0x50 else if i == 65 then 0x45 else if i == 84 then 152
                  else if i == 88 then 0x0B else if i == 89 then 0x02 else if i == 148 then 240
                  else if i == 196 then 5 else if i == 236 then 8 else 0)
  }

  lemma {:induction false} ZeroField(s: seq<byte>)
    requires forall i | 0 <= i < |s| :: s[i] == 0
    ensures UnLe(s) == 0
  {
    if s == [] {
    } else {
      ZeroField(s[1..]);
    }
  }

  lemma SmallField(data: seq<byte>, off: nat, k: nat, v: byte)
    requires k >= 1 && off + k <= |data| && data[off] == v
    requires forall i | off < i < off + k :: data[i] == 0
    ensures Get(data, off, k) == v
  {
    ZeroField(data[off..off + k][1..]);
  }

  lemma StaleBytes(d: seq<byte>)
    requires d == StaleImage()
    ensures Slice(d, 0, 2) == [0x4D, 0x5A] && Slice(d, 64, 68) == [0x50, 0x45, 0, 0]
    ensures Get(d, 0x3C, 4) == 64 && Get(d, 84, 2) == 152 && Get(d, 70, 2) == 0 && Get(d, 148, 4) == 240
    ensures Get(d, 196, 4) == 5 && Get(d, 236, 4) == 8 && Get(d, 232, 4) == 0 && Get(d, 88, 2) == 0x20B
  {
    hide Get;
    SmallField(d, 0x3C, 4, 64);
    SmallField(d, 84, 2, 152);
    SmallField(d, 70, 2, 0);
    SmallField(d, 148, 4, 240);
    SmallField(d, 196, 4, 5);
    SmallField(d, 236, 4, 8);
    SmallField(d, 232, 4, 0);
    StaleMagic(d);
  }

  lemma StaleMagic(d: seq<byte>)
    requires |d| == 248 && d[88] == 0x0B && d[89] == 0x02
    ensures Get(d, 88, 2) == 0x20B
  {
    assert d[88..90] == [0x0B, 0x02];
    assert [0x0B, 0x02][1..] == [2] && UnLe([2]) == 2;
  }

  /** Well formed, and signed, and yet signed over bytes the firmware will not hash. */
  lemma StaleEntrySpoils(p7: seq<byte> -> seq<byte>)
    requires forall fed: seq<byte> :: |p7(fed)| + 16 <= TWO32
    ensures var o := Offsets(0, 152, 240, 232, 240);
            && WellFormed(StaleImage(), o) && Mismatch(StaleImage(), o)
            && Unsigned(StaleImage(), o) == Some(StaleImage()) && Sign(StaleImage(), p7).Some?
            && Hashable(StaleImage(), o) && Hashable(Sign(StaleImage(), p7).value, o)
            && Hashed(Sign(StaleImage(), p7).value, o) != Hashed(StaleImage(), o)
  {
    hide StaleImage, Hashed, Mismatch, Unsigned, WellFormed, Locate, WinCert, WithTable;
    var o := Offsets(0, 152, 240, 232, 240);
    StaleLayout(o);
    SignedHash(StaleImage(), o, p7);
  }

  lemma StaleLayout(o: Offsets)
    requires o == Offsets(0, 152, 240, 232, 240)
    ensures WellFormed(StaleImage(), o) && Mismatch(StaleImage(), o)
    ensures Unsigned(StaleImage(), o) == Some(StaleImage()) && Hashable(StaleImage(), o)
    ensures Locate(StaleImage()) == Some(o) && |StaleImage()| == 248
  {
    hide StaleImage, Get, Slice, UnLe;
    var d := StaleImage();
    StaleBytes(d);
    assert Rows(d, o, 0) == [];
    assert Pad8(248) == [] && d + [] == d;
  }

  // ---- signing again --------------------------------------------------------------------------

  /** A signed file is well formed again, and stripping it gives the clean image with its
      directory entry cleared. */
  lemma SignedLayout(clean: seq<byte>, o: Offsets, cert: seq<byte>)
    requires Locate(clean) == Some(o) && Hashable(clean, o) && |clean| % 8 == 0 && |clean| < TWO32 && 8 <= |cert| < TWO32
    requires o.slot + 8 <= o.table && o.table + 40 * o.count <= o.headers <= |clean|
    requires Inside(Rows(clean, o, o.count), o.headers, |clean|)
    ensures WellFormed(WithTable(clean, o, cert), o)
    ensures Unsigned(WithTable(clean, o, cert), o) == Some(Splice(clean, o.slot, Slot(0, 0)))
    ensures Rows(WithTable(clean, o, cert), o, o.count) == Rows(clean, o, o.count)
  {
    hide Same, Locate, Rows, WithTable, Slot, Unsigned;
    var signed := WithTable(clean, o, cert);
    WithTableSame(clean, o, cert);
    LocateSame(clean, signed, o, |clean|);
    RowsSame(clean, signed, o, |clean|, o.count);
    StrippedAgain(clean, o, cert);
  }

  lemma StrippedAgain(clean: seq<byte>, o: Offsets, cert: seq<byte>)
    requires SlotInside(clean, o) && |clean| % 8 == 0 && |clean| < TWO32 && 8 <= |cert| < TWO32
    ensures Unsigned(WithTable(clean, o, cert), o) == Some(Splice(clean, o.slot, Slot(0, 0)))
  {
    hide Slot, CertAt, CertSize, Same;
    var signed := WithTable(clean, o, cert);
    WithTableSame(clean, o, cert);
    var cut := Cut(signed, |clean|, |cert|);
    assert Splice(cut, o.slot, Slot(0, 0)) == Splice(clean, o.slot, Slot(0, 0));
    assert Pad8(|cut|) == [];
    assert Splice(cut, o.slot, Slot(0, 0)) + [] == Splice(cut, o.slot, Slot(0, 0));
  }

  lemma ClearedSame(clean: seq<byte>, o: Offsets)
    requires SlotInside(clean, o)
    ensures Same(clean, Splice(clean, o.slot, Slot(0, 0)), o, |clean|)
    ensures CertSize(Splice(clean, o.slot, Slot(0, 0)), o) == 0
  {
    hide Slot;
    SlotReads(clean, o, 0, 0);
  }

  lemma TableOverwrites(clean: seq<byte>, o: Offsets, cert: seq<byte>)
    requires SlotInside(clean, o)
    ensures WithTable(Splice(clean, o.slot, Slot(0, 0)), o, cert) == WithTable(clean, o, cert)
  {
    hide Slot;
  }

  /** Signing a signed file replaces its table: the file is what signing the original would
      have given, unless the original's stale entry had spoiled its hash, and the bytes hashed
      are in any case those of the file it was given. */
  lemma SigningAgain(data: seq<byte>, o: Offsets, f: seq<byte> -> seq<byte>, g: seq<byte> -> seq<byte>)
    requires WellFormed(data, o) && Sign(data, f).Some?
    ensures var signed := Sign(data, f).value;
            && WellFormed(signed, o) && !Stale(signed, o)
            && (!Mismatch(data, o) ==> Sign(signed, g) == Sign(data, g))
            && Unsigned(signed, o).Some? && Unsigned(data, o).Some?
            && |Unsigned(signed, o).value| == |Unsigned(data, o).value|
            && Hashable(Unsigned(signed, o).value, o) && Hashed(Unsigned(signed, o).value, o) == Hashed(signed, o)
  {
    hide Same, Locate, Hashed, WithTable, Sections, Rows, Sizes, Pad8, Slot, Unsigned, WinCert;
    UnsignedSame(data, o);
    CleanLayout(data, o);
    var clean := Unsigned(data, o).value;
    var cert := WinCert(f(Hashed(clean, o)));
    var signed := WithTable(clean, o, cert);
    SignedLayout(clean, o, cert);
    SignedSlot(clean, o, cert);
    var cleared := Splice(clean, o.slot, Slot(0, 0));
    ClearedSame(clean, o);
    HashesAgree(clean, cleared, o, 0);
    CleanSize(data, o);
    TableOverwrites(clean, o, WinCert(g(Hashed(clean, o))));
    ClearedHash(clean, o, cert);
  }

  lemma SignedSlot(clean: seq<byte>, o: Offsets, cert: seq<byte>)
    requires SlotInside(clean, o) && |clean| < TWO32 && 8 <= |cert| < TWO32
    ensures !Stale(WithTable(clean, o, cert), o)
  {
    hide Slot;
    WithTableSame(clean, o, cert);
  }

  lemma ClearedHash(clean: seq<byte>, o: Offsets, cert: seq<byte>)
    requires Locate(clean) == Some(o) && Hashable(clean, o) && |clean| < TWO32 && 8 <= |cert| < TWO32
    requires o.slot + 8 <= o.table && o.table + 40 * o.count <= o.headers <= |clean|
    requires Inside(Rows(clean, o, o.count), o.headers, |clean|)
    ensures var signed, cleared := WithTable(clean, o, cert), Splice(clean, o.slot, Slot(0, 0));
            Hashable(signed, o) && Hashable(cleared, o) && Hashed(cleared, o) == Hashed(signed, o)
  {
    hide Locate, Hashed, Sections, Rows, Slot;
    var signed, cleared := WithTable(clean, o, cert), Splice(clean, o.slot, Slot(0, 0));
    ClearedSame(clean, o);
    WithTableSame(clean, o, cert);
    LocateSame(clean, cleared, o, |clean|);
    RowsSame(clean, cleared, o, |clean|, o.count);
    assert Same(cleared, signed, o, |cleared|);
    HashesAgree(cleared, signed, o, |cert|);
  }
}
