/** DER as the signing tools write and read it (sections 8.1.3 and 8.19 of ITU-T X.690):
    one writer and two readers. Reading past the end of the buffer raises in the original
    and is `None` here. */
module Der {
  import opened Bytes
  import opened DiskBytes

  // ---- big-endian numbers ---------------------------------------------------------------

  /** The shortest big-endian form; nothing at all for zero. */
  function Be(n: nat): (r: seq<byte>)
  {
    if n == 0 then [] else Be(n / 256) + [n % 256]
  }

  function UnBe(s: seq<byte>): (r: nat)
  {
    if s == [] then 0 else 256 * UnBe(s[..|s| - 1]) + s[|s| - 1]
  }

  lemma {:induction false} BeRoundTrip(n: nat)
    ensures UnBe(Be(n)) == n
  {
    if n == 0 {
    } else {
      BeRoundTrip(n / 256);
      assert Be(n)[..|Be(n)| - 1] == Be(n / 256);
    }
  }

  // ---- the writer ------------------------------------------------------------------------------

  /** Lengths whose own length fits seven bits. */
  predicate Encodable(n: nat) { |Be(n)| < 0x80 }

  function LengthBytes(n: nat): (r: seq<byte>)
    requires Encodable(n)
    ensures |r| >= 1
  {
    if n < 0x80 then [n] else [0x80 + |Be(n)|] + Be(n)
  }

  function Encode(tag: byte, body: seq<byte>): (r: seq<byte>)
    requires Encodable(|body|)
    ensures |r| == 1 + |LengthBytes(|body|)| + |body|
    ensures |r| >= 2 + |body| && r[0] == tag && r[|r| - |body|..] == body
  {
    [tag] + LengthBytes(|body|) + body
  }

  // ---- the two readers ------------------------------------------------------------------------------

  datatype Element = Element(tag: byte, start: nat, end: nat, next: nat)

  /** The signer's reader. */
  function DerRead(buf: seq<byte>, pos: nat): (r: Option<Element>)
    ensures r.Some? ==> pos + 2 <= r.value.start <= r.value.end == r.value.next
  {
    if pos + 1 >= |buf| then None
    else
      var n := buf[pos + 1];
      if n < 0x80 then Some(Element(buf[pos], pos + 2, pos + 2 + n, pos + 2 + n))
      else
        var k := n - 0x80;
        var length := UnBe(Slice(buf, pos + 2, pos + 2 + k));
        var start := pos + 2 + k;
        Some(Element(buf[pos], start, start + length, start + length))
  }

  datatype Header = Header(tag: byte, size: nat, length: nat, value: nat)

  /** The root list generator's reader. */
  function Tlv(buf: seq<byte>, i: nat): (r: Option<Header>)
    ensures r.Some? ==> i + 2 <= |buf| && r.value.size >= 2 && r.value.value == i + r.value.size
  {
    if i + 1 >= |buf| then None
    else
      var n := buf[i + 1];
      if n < 0x80 then Some(Header(buf[i], 2, n, i + 2))
      else
        var k := n - 0x80;
        Some(Header(buf[i], 2 + k, UnBe(Slice(buf, i + 2, i + 2 + k)), i + 2 + k))
  }

  /** The header alone, short form or long. */
  lemma HeaderReads(buf: seq<byte>, pos: nat, tag: byte, body: seq<byte>)
    requires Encodable(|body|) && Has(buf, pos, Encode(tag, body))
    ensures var size := 1 + |LengthBytes(|body|)|;
            Tlv(buf, pos) == Some(Header(tag, size, |body|, pos + size))
  {
    hide Be, UnBe;
    var e, n := Encode(tag, body), |body|;
    HeaderBytes(buf, pos, e);
    if n >= 0x80 {
      BeRoundTrip(n);
      LongHeader(buf, pos, e, tag, n, body);
    }
  }

  lemma HeaderBytes(buf: seq<byte>, pos: nat, e: seq<byte>)
    requires Has(buf, pos, e) && |e| >= 2
    ensures pos + 2 <= |buf| && buf[pos] == e[0] && buf[pos + 1] == e[1]
  {
    assert buf[pos] == buf[pos..pos + |e|][0] && buf[pos + 1] == buf[pos..pos + |e|][1];
  }

  lemma SameHeader(buf: seq<byte>, pos: nat)
    ensures DerRead(buf, pos) ==
              match Tlv(buf, pos) {
                case None => None
                case Some(h) => Some(Element(h.tag, h.value, h.value + h.length, h.value + h.length))
              }
  {
  }

  /** Wherever an element was written, both readers find its tag, its body and its end. */
  lemma BothReadersAgree(buf: seq<byte>, pos: nat, tag: byte, body: seq<byte>)
    requires Encodable(|body|) && Has(buf, pos, Encode(tag, body))
    ensures var end := pos + |Encode(tag, body)|;
            && DerRead(buf, pos) == Some(Element(tag, end - |body|, end, end))
            && Tlv(buf, pos) == Some(Header(tag, |Encode(tag, body)| - |body|, |body|, end - |body|))
            && end <= |buf| && buf[end - |body|..end] == body
  {
    hide DerRead, Tlv, LengthBytes, Encodable;
    var e, n := Encode(tag, body), |body|;
    HeaderReads(buf, pos, tag, body);
    SameHeader(buf, pos);
    HasWithin(buf, pos, e, |e| - n, n);
  }

  lemma LongHeader(buf: seq<byte>, pos: nat, e: seq<byte>, tag: byte, n: nat, body: seq<byte>)
    requires |Be(n)| < 0x80 && e == [tag] + ([0x80 + |Be(n)|] + Be(n)) + body && Has(buf, pos, e)
    ensures Slice(buf, pos + 2, pos + 2 + |Be(n)|) == Be(n) && buf[pos + 1] == 0x80 + |Be(n)|
  {
    hide Be;
    var k := |Be(n)|;
    HasWithin(buf, pos, e, 2, k);
    assert e[2..2 + k] == Be(n);
    HeaderBytes(buf, pos, e);
  }

  // ---- a constructed element's children ---------------------------------------------------------------

  datatype Child = Child(tag: byte, start: nat, end: nat)

  function ChildrenFrom(buf: seq<byte>, p: nat, end: nat): (r: Option<seq<Child>>)
    decreases end - p
  {
    if p >= end then Some([])
    else
      var h := Tlv(buf, p);
      if h.None? then None
      else
        var next := h.value.value + h.value.length;
        var rest := ChildrenFrom(buf, next, end);
        if rest.None? then None else Some([Child(buf[p], p, next)] + rest.value)
  }

  function Children(buf: seq<byte>, i: nat): (r: Option<seq<Child>>) {
    var h := Tlv(buf, i);
    if h.None? then None else ChildrenFrom(buf, h.value.value, h.value.value + h.value.length)
  }

  /** The generator, run to its end. */
  method ListChildren(buf: seq<byte>, i: nat) returns (r: Option<seq<Child>>)
    ensures r == Children(buf, i)
  {
    hide Tlv;
    var h := Tlv(buf, i);
    if h.None? { return None; }
    var end := h.value.value + h.value.length;
    var p := h.value.value;
    var found := [];
    ghost var all := ChildrenFrom(buf, p, end);
    assert all.Some? ==> found + all.value == all.value;
    while p < end
      invariant all ==
                  match ChildrenFrom(buf, p, end) { case None => None case Some(rest) => Some(found + rest) }
      decreases end - p
    {
      var h2 := Tlv(buf, p);
      if h2.None? { return None; }
      var next := h2.value.value + h2.value.length;
      ghost var rest := ChildrenFrom(buf, next, end);
      if rest.Some? {
        assert (found + [Child(buf[p], p, next)]) + rest.value == found + ([Child(buf[p], p, next)] + rest.value);
      }
      found := found + [Child(buf[p], p, next)];
      p := next;
    }
    r := Some(found);
    assert found + [] == found;
  }

  datatype Item = Item(tag: byte, body: seq<byte>)

  ghost predicate Writable(items: seq<Item>) { forall i | 0 <= i < |items| :: Encodable(|items[i].body|) }

  function Written(item: Item): (r: seq<byte>)
    requires Encodable(|item.body|)
    ensures |r| >= 2 && r[0] == item.tag
  {
    Encode(item.tag, item.body)
  }

  function Joined(items: seq<Item>): (r: seq<byte>)
    requires Writable(items)
  {
    if items == [] then [] else Written(items[0]) + Joined(items[1..])
  }

  /** Where item `k` of a joined list starts. */
  function OffsetOf(items: seq<Item>, k: nat): (r: nat)
    requires Writable(items) && k <= |items|
  {
    if k == 0 then 0 else |Written(items[0])| + OffsetOf(items[1..], k - 1)
  }

  /** The children found are the items written, in order. */
  ghost predicate Lists(buf: seq<byte>, p: nat, items: seq<Item>, cs: seq<Child>)
    requires Writable(items)
  {
    && |cs| == |items|
    && forall k | 0 <= k < |items| ::
         && cs[k] == Child(items[k].tag, p + OffsetOf(items, k), p + OffsetOf(items, k) + |Written(items[k])|)
         && Has(buf, cs[k].start, Written(items[k]))
  }

  lemma HasInside(buf: seq<byte>, p: nat, e: seq<byte>, off: nat, part: seq<byte>)
    requires Has(buf, p, e) && Has(e, off, part)
    ensures Has(buf, p + off, part)
  {
    HasWithin(buf, p, e, off, |part|);
  }

  lemma ListsMore(buf: seq<byte>, p: nat, items: seq<Item>, c: Child, cs: seq<Child>)
    requires items != [] && Writable(items) && Has(buf, p, Written(items[0]))
    requires c == Child(items[0].tag, p, p + |Written(items[0])|)
    requires Lists(buf, p + |Written(items[0])|, items[1..], cs)
    ensures Lists(buf, p, items, [c] + cs)
  {
    hide Written, Has;
    var all := [c] + cs;
    forall k | 0 <= k < |items|
      ensures all[k] == Child(items[k].tag, p + OffsetOf(items, k), p + OffsetOf(items, k) + |Written(items[k])|)
              && Has(buf, all[k].start, Written(items[k]))
    {
      if k > 0 { assert all[k] == cs[k - 1] && items[k] == items[1..][k - 1]; }
    }
  }

  lemma {:induction false} ListsItems(buf: seq<byte>, p: nat, items: seq<Item>)
    requires Writable(items) && Has(buf, p, Joined(items))
    ensures var cs := ChildrenFrom(buf, p, p + |Joined(items)|);
            cs.Some? && Lists(buf, p, items, cs.value)
    decreases |items|
  {
    hide Written, Tlv, Has, Lists;
    var end := p + |Joined(items)|;
    if items == [] {
      NoneListed(buf, p);
    } else {
      var first := items[0];
      HasSplit(buf, p, Written(first), Joined(items[1..]));
      ReadsItem(buf, p, first);
      ListsItems(buf, p + |Written(first)|, items[1..]);
      var cs := ChildrenFrom(buf, p + |Written(first)|, end);
      ListsMore(buf, p, items, Child(first.tag, p, p + |Written(first)|), cs.value);
    }
  }

  lemma NoneListed(buf: seq<byte>, p: nat)
    ensures Lists(buf, p, [], [])
  {
  }

  lemma ReadsItem(buf: seq<byte>, p: nat, item: Item)
    requires Encodable(|item.body|) && Has(buf, p, Written(item))
    ensures p < |buf| && buf[p] == item.tag && |Written(item)| >= 2
    ensures DerRead(buf, p) == Some(Element(item.tag, p + |Written(item)| - |item.body|, p + |Written(item)|, p + |Written(item)|))
    ensures Tlv(buf, p).Some? && Tlv(buf, p).value.tag == item.tag
    ensures Tlv(buf, p).value.value + Tlv(buf, p).value.length == p + |Written(item)|
  {
    BothReadersAgree(buf, p, item.tag, item.body);
    assert buf[p] == buf[p..p + |Written(item)|][0];
  }

  /** `children` of a written sequence enumerates its elements in order. */
  lemma ChildrenOfSequence(buf: seq<byte>, i: nat, tag: byte, items: seq<Item>)
    requires Writable(items) && Encodable(|Joined(items)|) && Has(buf, i, Encode(tag, Joined(items)))
    ensures var cs := Children(buf, i);
            cs.Some? && Lists(buf, i + |Encode(tag, Joined(items))| - |Joined(items)|, items, cs.value)
  {
    hide Lists, Tlv, Encode, Encodable, Has, Joined;
    var body := Joined(items);
    EndsWith(tag, body);
    BothReadersAgree(buf, i, tag, body);
    HasInside(buf, i, Encode(tag, body), |Encode(tag, body)| - |body|, body);
    ListsItems(buf, i + |Encode(tag, body)| - |body|, items);
  }

  // ---- any nesting -------------------------------------------------------------------------------

  datatype Tree = Leaf(tag: byte, body: seq<byte>) | Node(tag: byte, kids: seq<Tree>)

  predicate TreeOk(t: Tree)
    decreases t, 1
  {
    match t
    case Leaf(_, body) => Encodable(|body|)
    case Node(_, kids) => ForestOk(kids) && Encodable(|Joined(Items(kids))|)
  }

  predicate ForestOk(kids: seq<Tree>)
    ensures ForestOk(kids) ==> forall k | 0 <= k < |kids| :: TreeOk(kids[k])
    decreases kids, 1
  {
    kids == [] || (TreeOk(kids[0]) && ForestOk(kids[1..]))
  }

  function TreeItem(t: Tree): (r: Item)
    requires TreeOk(t)
    ensures Encodable(|r.body|) && r.tag == t.tag
    decreases t, 2
  {
    match t
    case Leaf(tag, body) => Item(tag, body)
    case Node(tag, kids) => Item(tag, Joined(Items(kids)))
  }

  function Items(kids: seq<Tree>): (r: seq<Item>)
    requires ForestOk(kids)
    ensures |r| == |kids| && Writable(r) && forall k | 0 <= k < |kids| :: r[k] == TreeItem(kids[k])
    decreases kids, 2
  {
    if kids == [] then [] else [TreeItem(kids[0])] + Items(kids[1..])
  }

  /** Reading at `p`, and then at every child found, gives the tree back. */
  ghost predicate ReadsTree(buf: seq<byte>, p: nat, t: Tree)
    decreases t
  {
    var h := Tlv(buf, p);
    && h.Some? && h.value.tag == t.tag
    && match t {
         case Leaf(_, body) => Slice(buf, h.value.value, h.value.value + h.value.length) == body
         case Node(_, kids) =>
           var cs := Children(buf, p);
           && cs.Some? && |cs.value| == |kids|
           && forall k | 0 <= k < |kids| :: cs.value[k].tag == kids[k].tag && ReadsTree(buf, cs.value[k].start, kids[k])
       }
  }

  /** Every tree of elements survives writing and reading, to any depth and length. */
  lemma {:induction false} NestedRoundTrip(buf: seq<byte>, p: nat, t: Tree)
    requires TreeOk(t) && Has(buf, p, Written(TreeItem(t)))
    ensures ReadsTree(buf, p, t)
    decreases t
  {
    hide Written, Tlv, Has, Children, OffsetOf, Encodable;
    var item := TreeItem(t);
    ReadsItem(buf, p, item);
    TreeHeader(buf, p, item);
    match t
    case Leaf(_, _) =>
    case Node(tag, kids) =>
      ChildrenOfItem(buf, p, tag, Items(kids));
      var cs := Children(buf, p).value;
      forall k | 0 <= k < |kids|
        ensures cs[k].tag == kids[k].tag && ReadsTree(buf, cs[k].start, kids[k])
      {
        NestedRoundTrip(buf, cs[k].start, kids[k]);
      }
  }

  lemma TreeHeader(buf: seq<byte>, p: nat, item: Item)
    requires Encodable(|item.body|) && Has(buf, p, Written(item))
    ensures Tlv(buf, p).Some?
    ensures Slice(buf, Tlv(buf, p).value.value, Tlv(buf, p).value.value + Tlv(buf, p).value.length) == item.body
  {
    BothReadersAgree(buf, p, item.tag, item.body);
  }

  lemma ChildrenOfItem(buf: seq<byte>, p: nat, tag: byte, items: seq<Item>)
    requires Writable(items) && Encodable(|Joined(items)|) && Has(buf, p, Written(Item(tag, Joined(items))))
    ensures Children(buf, p).Some? && |Children(buf, p).value| == |items|
    ensures forall k | 0 <= k < |items| ::
              Children(buf, p).value[k].tag == items[k].tag && Has(buf, Children(buf, p).value[k].start, Written(items[k]))
  {
    hide Children, OffsetOf, Has;
    ChildrenOfSequence(buf, p, tag, items);
  }

  // ---- the fields of a certificate ------------------------------------------------------------------------

  /** Section 4.1 of RFC 5280, as far as the tools look. */
  datatype Certificate = Certificate(version: Option<Item>, serial: Item, signature: Item, issuer: Item,
                                     validity: Item, subject: Item, spki: Item, more: seq<Item>, trailer: seq<Item>)

  function Fields(c: Certificate): (r: seq<Item>) {
    (if c.version.Some? then [c.version.value] else [])
    + [c.serial, c.signature, c.issuer, c.validity, c.subject, c.spki] + c.more
  }

  ghost predicate CertificateOk(c: Certificate) {
    && (c.version.Some? ==> c.version.value.tag == 0xA0) && c.serial.tag != 0xA0
    && Writable(Fields(c)) && Encodable(|Joined(Fields(c))|)
    && Writable([Tbs(c)] + c.trailer) && Encodable(|Joined([Tbs(c)] + c.trailer)|)
  }

  function Tbs(c: Certificate): (r: Item)
    requires Writable(Fields(c))
  {
    Item(0x30, Joined(Fields(c)))
  }

  function CertificateBytes(c: Certificate): (r: seq<byte>)
    requires CertificateOk(c)
  {
    Encode(0x30, Joined([Tbs(c)] + c.trailer))
  }

  /** The signer's cursor: issuer and serial as whole elements. */
  function IssuerAndSerial(der: seq<byte>): (r: Option<(seq<byte>, seq<byte>)>) {
    var cert := DerRead(der, 0);
    if cert.None? then None else
    var tbs := DerRead(der, cert.value.start);
    if tbs.None? then None else
    var first := DerRead(der, tbs.value.start);
    if first.None? then None else
    var p := if first.value.tag == 0xA0 then first.value.next else tbs.value.start;
    var serial := DerRead(der, p);
    if serial.None? then None else
    var algorithm := DerRead(der, serial.value.next);
    if algorithm.None? then None else
    var issuer := DerRead(der, algorithm.value.next);
    if issuer.None? then None else
    Some((Slice(der, algorithm.value.next, issuer.value.next), Slice(der, p, serial.value.next)))
  }

  /** The first child only: the generator is not run further. */
  function FirstChild(buf: seq<byte>, i: nat): (r: Option<Child>) {
    var h := Tlv(buf, i);
    if h.None? || h.value.length == 0 then None
    else
      var c := Tlv(buf, h.value.value);
      if c.None? then None else Some(Child(c.value.tag, h.value.value, c.value.value + c.value.length))
  }

  function SubjectAndKey(der: seq<byte>): (r: Option<(seq<byte>, seq<byte>)>) {
    var tbs := FirstChild(der, 0);
    if tbs.None? then None else
    var fields := Children(der, tbs.value.start);
    if fields.None? || fields.value == [] then None else
    var off := if fields.value[0].tag == 0xA0 then 1 else 0;
    if off + 5 >= |fields.value| then None else
    var subject, spki := fields.value[off + 4], fields.value[off + 5];
    Some((Slice(der, subject.start, subject.end), Slice(der, spki.start, spki.end)))
  }

  /** The tbsCertificate's fields start here. */
  function FieldsAt(c: Certificate): (r: nat)
    requires CertificateOk(c)
  {
    |CertificateBytes(c)| - |Joined([Tbs(c)] + c.trailer)| + |Written(Tbs(c))| - |Joined(Fields(c))|
  }

  lemma EndsWith(tag: byte, body: seq<byte>)
    requires Encodable(|body|)
    ensures Has(Encode(tag, body), |Encode(tag, body)| - |body|, body)
  {
  }

  lemma TbsInside(c: Certificate)
    requires CertificateOk(c)
    ensures var at := |CertificateBytes(c)| - |Joined([Tbs(c)] + c.trailer)|;
            Has(CertificateBytes(c), at, Written(Tbs(c))) && Has(CertificateBytes(c), FieldsAt(c), Joined(Fields(c)))
  {
    hide Fields, Encodable, Encode, Has;
    var der, items := CertificateBytes(c), [Tbs(c)] + c.trailer;
    var at := |der| - |Joined(items)|;
    EndsWith(0x30, Joined(items));
    assert items[0] == Tbs(c) && Writable(items[1..]);
    HasSplit(der, at, Written(Tbs(c)), Joined(items[1..]));
    var w, body := Written(Tbs(c)), Joined(Fields(c));
    EndsWith(0x30, body);
    HasInside(der, at, w, |w| - |body|, body);
  }

  /** Field `k` of the tbsCertificate is where its offset says. */
  lemma FieldAtOffset(buf: seq<byte>, p: nat, items: seq<Item>, k: nat)
    requires Writable(items) && Has(buf, p, Joined(items)) && k < |items|
    ensures Has(buf, p + OffsetOf(items, k), Written(items[k]))
    ensures OffsetOf(items, k + 1) == OffsetOf(items, k) + |Written(items[k])|
    decreases k
  {
    hide Written, Has;
    HasSplit(buf, p, Written(items[0]), Joined(items[1..]));
    if k > 0 { FieldAtOffset(buf, p + |Written(items[0])|, items[1..], k - 1); }
  }

  lemma SliceOfItem(buf: seq<byte>, p: nat, item: Item)
    requires Encodable(|item.body|) && Has(buf, p, Written(item))
    ensures Slice(buf, p, p + |Written(item)|) == Written(item)
  {
  }

  /** The cursor from field `k` on: one field read and the next one reached. */
  lemma CursorField(buf: seq<byte>, p: nat, items: seq<Item>, k: nat)
    requires Writable(items) && Has(buf, p, Joined(items)) && k < |items|
    ensures var at := p + OffsetOf(items, k); var next := p + OffsetOf(items, k + 1);
            && DerRead(buf, at).Some? && DerRead(buf, at).value.tag == items[k].tag && DerRead(buf, at).value.next == next
            && Slice(buf, at, next) == Written(items[k])
  {
    hide Written, Has, DerRead, Slice;
    FieldAtOffset(buf, p, items, k);
    ReadsItem(buf, p + OffsetOf(items, k), items[k]);
    SliceOfItem(buf, p + OffsetOf(items, k), items[k]);
  }

  lemma ReachesFields(c: Certificate)
    requires CertificateOk(c)
    ensures var der := CertificateBytes(c);
            && DerRead(der, 0).Some? && DerRead(der, DerRead(der, 0).value.start).Some?
            && DerRead(der, DerRead(der, 0).value.start).value.start == FieldsAt(c)
            && FirstChild(der, 0).Some? && FirstChild(der, 0).value.start == DerRead(der, 0).value.start
            && Has(der, FirstChild(der, 0).value.start, Written(Tbs(c)))
  {
    hide Fields, Writable, Encodable, DerRead, Tlv;
    var der, body := CertificateBytes(c), Joined([Tbs(c)] + c.trailer);
    BothReadersAgree(der, 0, 0x30, body);
    TbsInside(c);
    BothReadersAgree(der, |der| - |body|, 0x30, Joined(Fields(c)));
    assert |body| > 0 by { assert ([Tbs(c)] + c.trailer)[0] == Tbs(c); }
  }

  /** Issuer and serial come out as the exact element bytes, with or without a version. */
  lemma IssuerAndSerialAre(c: Certificate)
    requires CertificateOk(c)
    ensures Encodable(|c.issuer.body|) && Encodable(|c.serial.body|)
    ensures IssuerAndSerial(CertificateBytes(c)) == Some((Written(c.issuer), Written(c.serial)))
  {
    hide Written, DerRead, Slice, CertificateBytes, Joined, OffsetOf, FirstChild, Encodable;
    var der, f, p := CertificateBytes(c), Fields(c), FieldsAt(c);
    var v := if c.version.Some? then 1 else 0;
    ReachesFields(c);
    TbsInside(c);
    OffsetZero(f);
    CursorField(der, p, f, 0);
    CursorField(der, p, f, v);
    CursorField(der, p, f, v + 1);
    CursorField(der, p, f, v + 2);
    assert f[v] == c.serial && f[v + 2] == c.issuer;
  }

  lemma OffsetZero(items: seq<Item>)
    requires Writable(items)
    ensures OffsetOf(items, 0) == 0
  {
  }

  lemma WrittenTbs(c: Certificate)
    requires CertificateOk(c)
    ensures Written(Tbs(c)) == Encode(0x30, Joined(Fields(c)))
  {
  }

  /** Subject and public key likewise. */
  lemma SubjectAndKeyAre(c: Certificate)
    requires CertificateOk(c)
    ensures Encodable(|c.subject.body|) && Encodable(|c.spki.body|)
    ensures SubjectAndKey(CertificateBytes(c)) == Some((Written(c.subject), Written(c.spki)))
  {
    hide Written, DerRead, Slice, CertificateBytes, Joined, OffsetOf, FirstChild, Encodable, Children;
    var der, f, p := CertificateBytes(c), Fields(c), FieldsAt(c);
    var v := if c.version.Some? then 1 else 0;
    ReachesFields(c);
    var at := FirstChild(der, 0).value.start;
    WrittenTbs(c);
    ChildrenOfSequence(der, at, 0x30, f);
    var cs := Children(der, at).value;
    assert f[v + 4] == c.subject && f[v + 5] == c.spki;
    SliceOfItem(der, cs[v + 4].start, c.subject);
    SliceOfItem(der, cs[v + 5].start, c.spki);
  }
}
