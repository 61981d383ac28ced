/** The recovered code table: when it is accepted it is a complete prefix code, and
    searching it by rising length is decoding with the tree it came from. */
module HuffmanTable {
  import opened Bytes
  import opened HuffmanTree

  // ---- the Kraft check -----------------------------------------------------------------

  lemma {:induction false} Pow2Add(a: nat, b: nat)
    ensures Pow2(a + b) == Pow2(a) * Pow2(b)
    decreases a
  {
    if a == 0 {
    } else {
      Pow2Add(a - 1, b);
      assert a + b - 1 == (a - 1) + b;
    }
  }

  lemma Pow2Of25()
    ensures Pow2(MAX_BITS + 1) == 33554432
  {
    assert Pow2(0) == 1;
    assert Pow2(5) == 32 by { assert Pow2(2) == 4; assert Pow2(3) == 8; assert Pow2(4) == 16; }
    Pow2Add(5, 5);
    Pow2Add(10, 10);
    Pow2Add(20, 5);
  }

  /** The sum of 2^-bits over the entries. */
  function Kraft(out: seq<Code>): (r: real) {
    if out == [] then 0.0 else Kraft(out[..|out| - 1]) + 1.0 / (Pow2(out[|out| - 1].bits) as real)
  }

  lemma TermIsWeight(bits: nat)
    requires bits <= MAX_BITS
    ensures 1.0 / (Pow2(bits) as real) * 33554432.0 == Weight(bits) as real
  {
    Pow2Of25();
    Pow2Add(bits, MAX_BITS + 1 - bits);
    hide Pow2;
    Share(Pow2(bits), Pow2(MAX_BITS + 1 - bits), 33554432);
  }

  lemma Share(p: nat, q: nat, whole: nat)
    requires p >= 1 && p * q == whole
    ensures 1.0 / (p as real) * (whole as real) == q as real
  {
    var x, y := p as real, q as real;
    assert x * y == whole as real;
    assert 1.0 / x * x == 1.0;
    assert 1.0 / x * (x * y) == (1.0 / x * x) * y;
  }

  lemma {:induction false} KraftIsWeight(out: seq<Code>)
    requires ShortCodes(out)
    ensures Kraft(out) * 33554432.0 == CodeWeight(out) as real
  {
    if out == [] {
    } else {
      KraftIsWeight(out[..|out| - 1]);
      TermIsWeight(out[|out| - 1].bits);
    }
  }

  /** `abs(total - 1.0) < 1e-9` */
  predicate KraftAccepts(out: seq<Code>) {
    -0.000000001 < Kraft(out) - 1.0 < 0.000000001
  }

  lemma DroppedWeighs(dropped: seq<Item>)
    requires Shallow(dropped) && dropped != []
    ensures ItemWeight(dropped) >= 1
  {
  }

  /** The check passes exactly when the walk dropped nothing: the smallest possible
      loss, 2^-25 of the code space, is far above the tolerance. */
  lemma KraftDetectsLoss(words: seq<nat>, base: nat, length: nat, out: seq<Code>, dropped: seq<Item>)
    requires Kept(words, base, length, Books(out, [], dropped))
    ensures KraftAccepts(out) <==> dropped == []
  {
    hide Pow2, Kraft, Covering;
    Pow2Of25();
    KraftIsWeight(out);
    if dropped != [] { DroppedWeighs(dropped); }
    var lost := ItemWeight(dropped);
    assert CodeWeight(out) + lost == 33554432;
    assert Kraft(out) * 33554432.0 == 33554432.0 - lost as real;
  }

  // ---- ordering by (length, code) ------------------------------------------------------------

  predicate Leq(a: Code, b: Code) { a.bits < b.bits || (a.bits == b.bits && a.code <= b.code) }

  predicate Sorted(t: seq<Code>) { forall i, j | 0 <= i < j < |t| :: Leq(t[i], t[j]) }

  function Insert(e: Code, t: seq<Code>): (r: seq<Code>)
    ensures multiset(r) == multiset(t) + multiset{e}
    ensures |r| == |t| + 1
  {
    if t == [] then [e]
    else
      var n := |t| - 1;
      assert t == t[..n] + [t[n]];
      if Leq(t[n], e) then t + [e] else Insert(e, t[..n]) + [t[n]]
  }

  lemma AppendedSorted(t: seq<Code>, e: Code)
    requires Sorted(t) && forall x | x in t :: Leq(x, e)
    ensures Sorted(t + [e])
  {
  }

  lemma {:induction false} InsertSorted(e: Code, t: seq<Code>)
    requires Sorted(t)
    ensures Sorted(Insert(e, t))
  {
    if t == [] {
    } else {
      var n := |t| - 1;
      if Leq(t[n], e) {
        forall x | x in t ensures Leq(x, e) {
          var i :| 0 <= i < |t| && t[i] == x;
          assert i < n ==> Leq(t[i], t[n]);
        }
        AppendedSorted(t, e);
      } else {
        InsertSorted(e, t[..n]);
        InsertedBelow(e, t[..n], t[n]);
        AppendedSorted(Insert(e, t[..n]), t[n]);
      }
    }
  }

  lemma InsertedBelow(e: Code, t: seq<Code>, top: Code)
    requires Leq(e, top) && forall i | 0 <= i < |t| :: Leq(t[i], top)
    ensures forall x | x in Insert(e, t) :: Leq(x, top)
  {
    hide Leq, Insert;
    forall x | x in Insert(e, t) ensures Leq(x, top) {
      assert x in multiset(Insert(e, t));
      assert x in multiset(t) + multiset{e};
    }
  }

  function Sort(out: seq<Code>): (r: seq<Code>)
    ensures multiset(r) == multiset(out)
  {
    if out == [] then []
    else
      assert out == out[..|out| - 1] + [out[|out| - 1]];
      Insert(out[|out| - 1], Sort(out[..|out| - 1]))
  }

  lemma {:induction false} SortSorted(out: seq<Code>)
    ensures Sorted(Sort(out))
  {
    if out == [] {
    } else {
      SortSorted(out[..|out| - 1]);
      InsertSorted(out[|out| - 1], Sort(out[..|out| - 1]));
    }
  }

  lemma {:induction false} InsertMatches(e: Code, t: seq<Code>, s: seq<bool>)
    ensures CodeMatches(Insert(e, t), s) == CodeMatches(t, s) + if Matches(e.code, e.bits, s) then 1 else 0
  {
    hide Matches, Leq;
    var n := |t| - 1;
    if t == [] {
      assert [e][..0] == [];
    } else if Leq(t[n], e) {
      assert (t + [e])[..|t|] == t;
    } else {
      InsertMatches(e, t[..n], s);
      MatchesSnoc(Insert(e, t[..n]), t[n], s);
    }
  }

  lemma MatchesSnoc(t: seq<Code>, e: Code, s: seq<bool>)
    ensures CodeMatches(t + [e], s) == CodeMatches(t, s) + if Matches(e.code, e.bits, s) then 1 else 0
  {
    hide Matches;
    assert (t + [e])[..|t|] == t;
  }

  /** Sorting changes neither the entries nor how many of them a stream matches. */
  lemma {:induction false} SortMatches(out: seq<Code>, s: seq<bool>)
    ensures CodeMatches(Sort(out), s) == CodeMatches(out, s)
  {
    if out == [] {
    } else {
      SortMatches(out[..|out| - 1], s);
      InsertMatches(out[|out| - 1], Sort(out[..|out| - 1]), s);
    }
  }

  // ---- what an accepted table is ----------------------------------------------------------------

  /** The entries of an accepted tree, in the order they are emitted. */
  ghost predicate Accepted(words: seq<nat>, base: nat, t: seq<Code>) {
    && Sorted(t) && ShortCodes(t)
    && (forall i | 0 <= i < |t| :: Recovered(words, base, t[i]))
    && (forall s: seq<bool> | |s| > MAX_BITS :: CodeMatches(t, s) == 1)
  }

  /** Walk, check, sort: the table is emitted exactly when the tree is complete, and then
      every long enough stream begins with exactly one of its codes. */
  method RecoverTable(words: seq<nat>, base: nat, length: nat) returns (t: Option<seq<Code>>)
    ensures t.Some? <==> Complete(words, base, length, 0, 0)
    ensures t.Some? ==> Accepted(words, base, t.value)
  {
    hide Kept, KraftAccepts, Accepted, Complete;
    var r, dropped := Walk(words, base, length);
    if r.None? { return None; }
    KraftDetectsLoss(words, base, length, r.value, dropped);
    if !KraftAccepts(r.value) { return None; }
    KeptIsAccepted(words, base, length, r.value);
    return Some(Sort(r.value));
  }

  lemma KeptIsAccepted(words: seq<nat>, base: nat, length: nat, out: seq<Code>)
    requires Kept(words, base, length, Books(out, [], []))
    ensures Accepted(words, base, Sort(out))
  {
    hide Recovered, Matches, Conserved, Pow2;
    var t := Sort(out);
    SortSorted(out);
    forall i | 0 <= i < |t| ensures t[i].bits <= MAX_BITS && Recovered(words, base, t[i]) {
      assert t[i] in multiset(t);
      assert t[i] in multiset(out);
    }
    forall s: seq<bool> | |s| > MAX_BITS ensures CodeMatches(t, s) == 1 {
      SortMatches(out, s);
      assert MatchesOnBooks(Books(out, [], []), s) == 1;
    }
  }

  lemma {:induction false} CountTwo(t: seq<Code>, s: seq<bool>, i: nat, j: nat)
    requires i < j < |t| && Matches(t[i].code, t[i].bits, s) && Matches(t[j].code, t[j].bits, s)
    ensures CodeMatches(t, s) >= 2
  {
    var n := |t| - 1;
    if j < n { CountTwo(t[..n], s, i, j); } else { CountOne(t[..n], s, i); }
  }

  lemma {:induction false} CountOne(t: seq<Code>, s: seq<bool>, i: nat)
    requires i < |t| && Matches(t[i].code, t[i].bits, s)
    ensures CodeMatches(t, s) >= 1
  {
    var n := |t| - 1;
    if i >= n {
    } else {
      CountOne(t[..n], s, i);
    }
  }

  lemma {:induction false} CountFound(t: seq<Code>, s: seq<bool>) returns (i: nat)
    requires CodeMatches(t, s) >= 1
    ensures i < |t| && Matches(t[i].code, t[i].bits, s)
  {
    var n := |t| - 1;
    if Matches(t[n].code, t[n].bits, s) { i := n; } else { i := CountFound(t[..n], s); }
  }

  /** Streams short of the limit, made long enough without changing what they match. */
  function Padded(s: seq<bool>): (r: seq<bool>)
    ensures |r| > MAX_BITS && s <= r
  {
    s + seq(MAX_BITS + 1, _ => false)
  }

  lemma MatchesPrefix(code: nat, bits: nat, s: seq<bool>, longer: seq<bool>)
    requires s <= longer && Matches(code, bits, s)
    ensures Matches(code, bits, longer)
  {
    assert longer[..bits] == s[..bits];
  }

  /** No code is the beginning of another, and no two entries share a code. */
  lemma PrefixFree(words: seq<nat>, base: nat, t: seq<Code>, s: seq<bool>, i: nat, j: nat)
    requires Accepted(words, base, t) && i < |t| && j < |t|
    requires Matches(t[i].code, t[i].bits, s) && Matches(t[j].code, t[j].bits, s)
    ensures i == j
  {
    hide Recovered, Matches;
    var p := Padded(s);
    MatchesPrefix(t[i].code, t[i].bits, s, p);
    MatchesPrefix(t[j].code, t[j].bits, s, p);
    if i < j { CountTwo(t, p, i, j); }
    if j < i { CountTwo(t, p, j, i); }
    assert CodeMatches(t, p) == 1;
  }

  // ---- decoding by rising length -------------------------------------------------------------------

  /** The first entry, in table order, with this length and code. */
  function Find(t: seq<Code>, bits: nat, code: nat): (r: Option<Code>)
    ensures r.Some? ==> r.value in t && r.value.bits == bits && r.value.code == code
    ensures r.None? ==> forall i | 0 <= i < |t| :: !(t[i].bits == bits && t[i].code == code)
  {
    if t == [] then None
    else if t[0].bits == bits && t[0].code == code then Some(t[0])
    else Find(t[1..], bits, code)
  }

  /** The shortest length at which the stream's prefix is a code. */
  function TableDecode(t: seq<Code>, s: seq<bool>, len: nat): (r: Option<Symbol>)
    decreases |s| + 1 - len
  {
    if len > |s| then None
    else
      match Find(t, len, Val(s[..len]))
      case Some(e) => Some(Symbol(e.x, e.y, len))
      case None => TableDecode(t, s, len + 1)
  }

  /** If entry `i` is the only one the stream matches, the search ends there. */
  lemma {:induction false} DecodeFinds(t: seq<Code>, s: seq<bool>, len: nat, i: nat)
    requires i < |t| && Matches(t[i].code, t[i].bits, s) && len <= t[i].bits
    requires forall j | 0 <= j < |t| && j != i :: !Matches(t[j].code, t[j].bits, s)
    ensures TableDecode(t, s, len) == Some(Symbol(t[i].x, t[i].y, t[i].bits))
    decreases t[i].bits - len
  {
    var f := Find(t, len, Val(s[..len]));
    if f.Some? {
      var k :| 0 <= k < |t| && t[k] == f.value;
      assert Matches(t[k].code, t[k].bits, s);
    } else {
      assert len < t[i].bits;
      DecodeFinds(t, s, len + 1, i);
    }
  }

  lemma {:induction false} DecodeFails(t: seq<Code>, s: seq<bool>, len: nat)
    requires forall j | 0 <= j < |t| :: !Matches(t[j].code, t[j].bits, s)
    ensures TableDecode(t, s, len) == None
    decreases |s| + 1 - len
  {
    if len > |s| {
    } else {
      if Find(t, len, Val(s[..len])).Some? { FoundMatches(t, s, len); }
      DecodeFails(t, s, len + 1);
    }
  }

  lemma FoundMatches(t: seq<Code>, s: seq<bool>, len: nat)
    requires len <= |s| && Find(t, len, Val(s[..len])).Some?
    ensures exists k :: 0 <= k < |t| && Matches(t[k].code, t[k].bits, s)
  {
    var k :| 0 <= k < |t| && t[k] == Find(t, len, Val(s[..len])).value;
    assert Matches(t[k].code, t[k].bits, s);
  }

  /** The one entry a stream begins with, if it is long enough for it; the tree then
      decodes the stream as that entry. */
  lemma TheMatch(words: seq<nat>, base: nat, t: seq<Code>, s: seq<bool>) returns (i: Option<nat>)
    requires Accepted(words, base, t)
    ensures i.None? ==> TreeDecode(words, base, 0, s) == None
    ensures i.None? ==> forall j | 0 <= j < |t| :: !Matches(t[j].code, t[j].bits, s)
    ensures i.Some? ==> i.value < |t| && Matches(t[i.value].code, t[i.value].bits, s)
    ensures i.Some? ==> forall j | 0 <= j < |t| && j != i.value :: !Matches(t[j].code, t[j].bits, s)
    ensures i.Some? ==>
              TreeDecode(words, base, 0, s) == Some(Symbol(t[i.value].x, t[i.value].y, t[i.value].bits))
  {
    hide Matches, TreeDecode, Pow2, Sorted, CodeMatches;
    var p := Padded(s);
    assert CodeMatches(t, p) == 1;
    var k := CountFound(t, p);
    assert Recovered(words, base, t[k]);
    if t[k].bits <= |s| {
      MatchesShorter(t[k].code, t[k].bits, s, p);
      forall j | 0 <= j < |t| && j != k ensures !Matches(t[j].code, t[j].bits, s) {
        if Matches(t[j].code, t[j].bits, s) { PrefixFree(words, base, t, s, k, j); }
      }
      i := Some(k);
    } else {
      forall j | 0 <= j < |t| ensures !Matches(t[j].code, t[j].bits, s) {
        if Matches(t[j].code, t[j].bits, s) {
          MatchesFits(t[j].code, t[j].bits, s);
          MatchesPrefix(t[j].code, t[j].bits, s, p);
          PrefixFree(words, base, t, p, k, j);
        }
      }
      assert s + p[|s|..] == p;
      if TreeDecode(words, base, 0, s).Some? { TreeDecodeExtends(words, base, 0, s, p[|s|..]); }
      i := None;
    }
  }

  lemma MatchesFits(code: nat, bits: nat, s: seq<bool>)
    requires Matches(code, bits, s)
    ensures bits <= |s|
  {
  }

  /** Table and tree agree on every stream: same pair, same number of bits, and the
      same refusal when the stream ends inside a code. */
  lemma TableIsTree(words: seq<nat>, base: nat, t: seq<Code>, s: seq<bool>)
    requires Accepted(words, base, t)
    ensures TableDecode(t, s, 0) == TreeDecode(words, base, 0, s)
  {
    hide *;
    var i := TheMatch(words, base, t, s);
    match i {
      case None => DecodeFails(t, s, 0);
      case Some(k) => DecodeFinds(t, s, 0, k);
    }
  }

  lemma MatchesShorter(code: nat, bits: nat, s: seq<bool>, longer: seq<bool>)
    requires s <= longer && Matches(code, bits, longer) && bits <= |s|
    ensures Matches(code, bits, s)
  {
    assert longer[..bits] == s[..bits];
  }

  // ---- a tree with an escaped branch ------------------------------------------------------------------

  /** The root's left branch hops over 250 words and goes on from there; its right branch is a
      leaf next to it. */
  function Escaped(): (r: seq<nat>)
    ensures |r| == 254 && r[0] == 0xFA01 && r[1] == 0x0012 && r[250] == 0x0300 && r[253] == 0x0034
  {
    seq(254, i => if i == 0 then 0xFA01 else if i == 1 then 0x0012 else if i == 250 then 0x0300
                  else if i == 253 then 0x0034 else 0)
  }

  lemma EscapedHops()
    ensures Hop(Escaped(), 0, 0, false) == Some(253) && Hop(Escaped(), 0, 0, true) == Some(1)
    ensures Complete(Escaped(), 0, 254, 0, 0)
  {
    hide Escaped;
    var w := Escaped();
    assert Hop(w, 0, 250, false) == Some(253);
    assert Complete(w, 0, 254, 253, 1) && Complete(w, 0, 254, 1, 1);
  }

  lemma EscapedDecodes(s: seq<bool>)
    requires s != []
    ensures TreeDecode(Escaped(), 0, 0, s) == Some(if s[0] then Symbol(1, 2, 1) else Symbol(3, 4, 1))
  {
    hide Escaped, Hop, TreeDecode;
    EscapedHops();
    NodeDecodes(Escaped(), 0, 0, s, if s[0] then 1 else 253);
    LeafDecodes(Escaped(), 0, if s[0] then 1 else 253, s[1..]);
  }

  lemma NodeDecodes(words: seq<nat>, base: nat, idx: nat, s: seq<bool>, next: nat)
    requires base + idx < |words| && !IsLeaf(words[base + idx]) && s != [] && Hop(words, base, idx, s[0]) == Some(next)
    ensures TreeDecode(words, base, idx, s) == After(1, TreeDecode(words, base, next, s[1..]))
  {
    hide Hop, IsLeaf;
  }

  lemma LeafDecodes(words: seq<nat>, base: nat, idx: nat, s: seq<bool>)
    requires base + idx < |words| && IsLeaf(words[base + idx])
    ensures TreeDecode(words, base, idx, s) == Some(Symbol(words[base + idx] / 16 % 16, words[base + idx] % 16, 0))
  {
    hide Hop;
  }

  lemma FirstBit(code: nat, s: seq<bool>)
    requires s != []
    ensures Matches(code, 1, s) <==> code == if s[0] then 1 else 0
  {
    assert s[..1] == [s[0]] && [s[0]][..0] == [];
    assert Val([s[0]]) == if s[0] then 1 else 0;
  }

  function Bits25(bit: bool): (r: seq<bool>)
    ensures |r| == MAX_BITS + 1 && r[0] == bit
  {
    seq(MAX_BITS + 1, _ => bit)
  }

  /** A stream that begins with the code of entry `i`. */
  lemma {:induction false} StreamFor(code: nat, bits: nat) returns (s: seq<bool>)
    requires code < Pow2(bits)
    ensures |s| == bits && Val(s) == code
  {
    if bits == 0 {
      s := [];
    } else {
      var front := StreamFor(code / 2, bits - 1);
      s := front + [code % 2 == 1];
      assert s[..bits - 1] == front;
    }
  }

  lemma EscapedEntry(t: seq<Code>, i: nat)
    requires Accepted(Escaped(), 0, t) && i < |t|
    ensures t[i] == Code(0, 1, 3, 4) || t[i] == Code(1, 1, 1, 2)
  {
    hide Escaped, TreeDecode, Val, CodeMatches;
    assert Recovered(Escaped(), 0, t[i]);
    var code := StreamFor(t[i].code, t[i].bits);
    var s := code + [false];
    assert s[..t[i].bits] == code;
    assert Matches(t[i].code, t[i].bits, s);
    EscapedDecodes(s);
    FirstBit(t[i].code, s);
  }

  lemma EscapedHas(t: seq<Code>, bit: bool) returns (i: nat)
    requires Accepted(Escaped(), 0, t)
    ensures i < |t| && t[i] == if bit then Code(1, 1, 1, 2) else Code(0, 1, 3, 4)
  {
    hide Escaped, Matches, CodeMatches, Recovered;
    var s := Bits25(bit);
    assert CodeMatches(t, s) == 1;
    i := CountFound(t, s);
    EscapedEntry(t, i);
    FirstBit(t[i].code, s);
  }

  /** Its table has the code behind the escape and the one beside it, each with its pair. */
  lemma EscapedTable(t: seq<Code>)
    requires Accepted(Escaped(), 0, t)
    ensures t == [Code(0, 1, 3, 4), Code(1, 1, 1, 2)]
  {
    var i := EscapedHas(t, false);
    var j := EscapedHas(t, true);
    EscapedOnly(t, i, j, 0);
    EscapedOnly(t, i, j, 1);
    if |t| > 2 { EscapedOnly(t, i, j, 2); }
    InOrderOf(t, i, j);
  }

  lemma InOrderOf(t: seq<Code>, i: nat, j: nat)
    requires Sorted(t) && i < |t| && j < |t| && i != j && !Leq(t[j], t[i])
    ensures i < j
  {
  }

  lemma EscapedOnly(t: seq<Code>, i: nat, j: nat, k: nat)
    requires Accepted(Escaped(), 0, t) && i < |t| && j < |t| && k < |t|
    requires t[i] == Code(0, 1, 3, 4) && t[j] == Code(1, 1, 1, 2)
    ensures k == i || k == j
  {
    hide Escaped, Accepted;
    EscapedEntry(t, k);
    var s := Bits25(t[k].code == 1);
    FirstBit(t[k].code, s);
    PrefixFree(Escaped(), 0, t, s, k, if t[k].code == 1 then j else i);
  }

  method RecoverEscaped() returns (t: Option<seq<Code>>)
    ensures t == Some([Code(0, 1, 3, 4), Code(1, 1, 1, 2)])
  {
    hide Escaped, Accepted, Complete;
    EscapedHops();
    t := RecoverTable(Escaped(), 0, 254);
    EscapedTable(t.value);
  }
}
