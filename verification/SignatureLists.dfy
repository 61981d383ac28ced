/** Signature lists (section 32.4.1 of the UEFI Specification): one X.509 certificate to a
    list, and lists laid end to end, walked by their size fields. */
module SignatureLists {
  import opened Bytes
  import opened DiskBytes

  type Guid = g: seq<byte> | |g| == 16 witness Zeros(16)

  const CERT_X509: Guid := [0xA1, 0x59, 0xC0, 0xA5, 0xE4, 0x94, 0xA7, 0x4A, 0x87, 0xB5, 0xAB, 0x15, 0x5C, 0x2B, 0xF0, 0x72]
  const LIST_HEADER := 28
  const OWNER := 16

  /** Sixteen bytes as a GUID is written out: three little-endian fields, then eight bytes. */
  predicate IsGuid(b: seq<byte>, first: nat, second: nat, third: nat, rest: seq<byte>) {
    |b| == 16 && Get(b, 0, 4) == first && Get(b, 4, 2) == second && Get(b, 6, 2) == third && b[8..] == rest
  }

  function Quad(a: int, b: int, c: int, d: int): int { a + 0x100 * b + 0x1_0000 * c + 0x100_0000 * d }

  lemma TwoBytes(b: seq<byte>, off: nat)
    requires off + 2 <= |b|
    ensures Get(b, off, 2) == b[off] as int + 256 * (b[off + 1] as int)
  {
    var s := b[off..off + 2];
    assert s[1..][1..] == [] && UnLe(s[1..]) == s[1];
  }

  lemma FourBytes(b: seq<byte>, off: nat)
    requires off + 4 <= |b|
    ensures Get(b, off, 4) == Quad(b[off], b[off + 1], b[off + 2], b[off + 3])
  {
    var s := b[off..off + 4];
    var t := s[2..];
    assert s[1..][1..] == t && t[1..][1..] == [];
    assert UnLe(t[1..]) == s[3] && UnLe(t) == s[2] as int + 256 * (s[3] as int);
    assert UnLe(s[1..]) == s[1] as int + 256 * UnLe(t);
    assert UnLe(s) == s[0] as int + 256 * UnLe(s[1..]);
  }

  /** The GUID of sixteen bytes is determined by its fields. */
  lemma GuidIs(b: seq<byte>, first: nat, second: nat, third: nat, rest: seq<byte>)
    requires |b| == 16 && |rest| == 8 && b[8..] == rest
    requires first == Quad(b[0], b[1], b[2], b[3])
    requires second == b[4] as int + 256 * (b[5] as int) && third == b[6] as int + 256 * (b[7] as int)
    ensures IsGuid(b, first, second, third, rest)
  {
    hide Get;
    FourBytes(b, 0);
    TwoBytes(b, 4);
    TwoBytes(b, 6);
  }

  /** A5C059A1-94E4-4AA7-87B5-AB155C2BF072: an X.509 certificate. */
  predicate IsX509(b: seq<byte>) {
    IsGuid(b, 0xA5C0_59A1, 0x94E4, 0x4AA7, [0x87, 0xB5, 0xAB, 0x15, 0x5C, 0x2B, 0xF0, 0x72])
  }

  lemma X509Is()
    ensures IsX509(CERT_X509)
  {
    GuidIs(CERT_X509, 0xA5C0_59A1, 0x94E4, 0x4AA7, [0x87, 0xB5, 0xAB, 0x15, 0x5C, 0x2B, 0xF0, 0x72]);
  }

  /** Certificates whose list size can be written. */
  predicate Listable(certs: seq<seq<byte>>) {
    forall i | 0 <= i < |certs| :: LIST_HEADER + OWNER + |certs[i]| < 0x1_0000_0000
  }

  function ListParts(der: seq<byte>): (r: seq<seq<byte>>) {
    [CERT_X509, Le(LIST_HEADER + OWNER + |der|, 4), Le(0, 4), Le(OWNER + |der|, 4), Zeros(OWNER), der]
  }

  /** One list with one entry, its owner all zeros. */
  function SignatureList(der: seq<byte>): (r: seq<byte>) { Flatten(ListParts(der)) }

  function JoinedLists(certs: seq<seq<byte>>): (r: seq<byte>) {
    if certs == [] then [] else SignatureList(certs[0]) + JoinedLists(certs[1..])
  }

  /** As many entries of `size` bytes as fit before `end`, each an owner and a certificate. */
  function Entries(data: seq<byte>, at: nat, size: nat, end: nat): (r: seq<seq<byte>>)
    requires end <= |data| && size >= OWNER
    decreases end - at
  {
    if at + size > end then []
    else [data[at + OWNER..at + size]] + Entries(data, at + size, size, end)
  }

  /** The certificates of the list at `at`, and where the next list starts. */
  function ReadList(data: seq<byte>, at: nat): (r: Option<(seq<seq<byte>>, nat)>)
    ensures r.Some? ==> at < r.value.1 <= |data|
  {
    if at + LIST_HEADER > |data| then None
    else
      var total, header, size := Get(data, at + 16, 4), Get(data, at + 20, 4), Get(data, at + 24, 4);
      if !IsX509(data[at..at + 16]) || at + total > |data| || size < OWNER || total < LIST_HEADER + header then None
      else Some((Entries(data, at + LIST_HEADER + header, size, at + total), at + total))
  }

  function ReadListsFrom(data: seq<byte>, at: nat): (r: Option<seq<seq<byte>>>)
    requires at <= |data|
    decreases |data| - at
  {
    if at == |data| then Some([])
    else
      var here := ReadList(data, at);
      if here.None? then None
      else
        var rest := ReadListsFrom(data, here.value.1);
        if rest.None? then None else Some(here.value.0 + rest.value)
  }

  function ReadLists(data: seq<byte>): (r: Option<seq<seq<byte>>>) { ReadListsFrom(data, 0) }

  lemma ListOffsets(der: seq<byte>)
    ensures TotalLength(ListParts(der)[..1]) == 16 && TotalLength(ListParts(der)[..2]) == 20
    ensures TotalLength(ListParts(der)[..0]) == 0 && TotalLength(ListParts(der)[..4]) == LIST_HEADER
    ensures TotalLength(ListParts(der)[..3]) == 24 && TotalLength(ListParts(der)[..5]) == LIST_HEADER + OWNER
    ensures |SignatureList(der)| == LIST_HEADER + OWNER + |der|
  {
    hide Le, Flatten;
    var p := ListParts(der);
    TotalSnoc(p, 0);
    TotalSnoc(p, 1);
    TotalSnoc(p, 2);
    TotalSnoc(p, 3);
    TotalSnoc(p, 4);
    TotalSnoc(p, 5);
    assert p[..6] == p;
    FlattenLength(p);
  }

  lemma ListFields(der: seq<byte>)
    requires Listable([der])
    ensures |SignatureList(der)| == LIST_HEADER + OWNER + |der|
    ensures var l := SignatureList(der);
            && Get(l, 16, 4) == |l| && Get(l, 20, 4) == 0 && Get(l, 24, 4) == OWNER + |der|
            && IsX509(l[0..16]) && l[LIST_HEADER..LIST_HEADER + OWNER] == Zeros(OWNER) && l[LIST_HEADER + OWNER..] == der
  {
    hide Le, Flatten, Get, Pow256, IsX509;
    var p := ListParts(der);
    X509Is();
    assert LIST_HEADER + OWNER + |[der][0]| < 0x1_0000_0000;
    ListOffsets(der);
    Widths();
    FieldAt(p, 1, 16, LIST_HEADER + OWNER + |der|, 4);
    FieldAt(p, 2, 20, 0, 4);
    FieldAt(p, 3, 24, OWNER + |der|, 4);
    PartAt(p, 0);
    PartAt(p, 4);
    PartAt(p, 5);
  }

  /** A list written anywhere is read as its one certificate. */
  lemma ListReads(data: seq<byte>, at: nat, der: seq<byte>)
    requires Listable([der]) && Has(data, at, SignatureList(der))
    ensures ReadList(data, at) == Some(([der], at + |SignatureList(der)|))
  {
    hide SignatureList, Get, Entries, IsX509;
    ListFields(der);
    var l := SignatureList(der);
    HasWithin(data, at, l, 0, 16);
    GetInside(data, l, at, 16, 4);
    GetInside(data, l, at, 20, 4);
    GetInside(data, l, at, 24, 4);
    OneEntry(data, at + LIST_HEADER, OWNER + |der|);
    HasWithin(data, at, l, LIST_HEADER + OWNER, |der|);
    assert l[LIST_HEADER + OWNER..|l|] == der;
  }

  lemma OneEntry(data: seq<byte>, at: nat, size: nat)
    requires at + size <= |data| && size >= OWNER
    ensures Entries(data, at, size, at + size) == [data[at + OWNER..at + size]]
  {
    assert Entries(data, at + size, size, at + size) == [];
  }

  lemma {:induction false} ListsFrom(data: seq<byte>, at: nat, certs: seq<seq<byte>>)
    requires Listable(certs) && Has(data, at, JoinedLists(certs)) && at + |JoinedLists(certs)| == |data|
    ensures ReadListsFrom(data, at) == Some(certs)
    decreases |certs|
  {
    hide SignatureList, ReadList, Has;
    if certs == [] {
    } else {
      HasSplit(data, at, SignatureList(certs[0]), JoinedLists(certs[1..]));
      assert Listable([certs[0]]);
      ListReads(data, at, certs[0]);
      ListsFrom(data, at + |SignatureList(certs[0])|, certs[1..]);
      ListOffsets(certs[0]);
      assert [certs[0]] + certs[1..] == certs;
    }
  }

  /** Walking the joined lists by their size fields recovers every certificate, in order. */
  lemma ListsRoundTrip(certs: seq<seq<byte>>)
    requires Listable(certs)
    ensures ReadLists(JoinedLists(certs)) == Some(certs)
  {
    hide JoinedLists;
    var data := JoinedLists(certs);
    assert data[0..|data|] == data;
    ListsFrom(data, 0, certs);
  }
}
