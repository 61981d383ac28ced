/** The decoder that ships: it indexes the emitted table by code length and looks each
    prefix up by binary search inside its length's run. The emitted table has 16-bit
    fields; where every code and the number of codes fit them, and every code has 1 to 19
    bits, the decoder gives what the tree gives, and nowhere else. */
module HuffmanDecoder {
  import opened Bytes
  import opened HuffmanTree
  import opened HuffmanTable

  const LENGTHS := 20
  const FIELD := 0x1_0000

  // ---- the table as it is stored ----------------------------------------------------------

  /** An entry in its 16-bit code field. */
  function Cut(e: Code): (r: Code)
    ensures r.code < FIELD && r.bits == e.bits && (e.code < FIELD ==> r == e)
  {
    e.(code := e.code % FIELD)
  }

  /** What the decoder finds of a table: as many entries as the 16-bit count says, each
      with its code cut to 16 bits. */
  function Shipped(t: seq<Code>): (r: seq<Code>)
    ensures |r| == |t| % FIELD <= |t| && forall i | 0 <= i < |r| :: r[i] == Cut(t[i])
  {
    seq(|t| % FIELD, i requires 0 <= i < |t| % FIELD => Cut(t[i]))
  }

  /** The lengths the decoder looks at: from 1 to 19. */
  predicate Indexable(t: seq<Code>) { forall i | 0 <= i < |t| :: 1 <= t[i].bits < LENGTHS }

  /** Nothing is lost in the fields. */
  predicate Storable(t: seq<Code>) { |t| < FIELD && forall i | 0 <= i < |t| :: t[i].code < FIELD }

  lemma StorableShips(t: seq<Code>)
    requires Storable(t)
    ensures Shipped(t) == t
  {
    assert |t| % FIELD == |t|;
  }

  /** Cutting codes leaves the lengths in order, though not the codes. */
  predicate ByLength(t: seq<Code>) { forall i, j | 0 <= i < j < |t| :: t[i].bits <= t[j].bits }

  lemma ShippedByLength(t: seq<Code>)
    requires Sorted(t)
    ensures ByLength(Shipped(t))
  {
    var r := Shipped(t);
    forall i, j | 0 <= i < j < |r| ensures r[i].bits <= r[j].bits {
      assert Leq(t[i], t[j]);
    }
  }

  // ---- the index ---------------------------------------------------------------------------

  datatype Span = Span(start: nat, count: nat)

  /** The run of each length holds exactly the first `n` entries of that length. */
  ghost predicate Indexed(t: seq<Code>, n: nat, spans: seq<Span>) {
    && |spans| == LENGTHS && n <= |t|
    && (forall len | 1 <= len < LENGTHS :: spans[len].start + spans[len].count <= n)
    && (forall len, i | 1 <= len < LENGTHS && 0 <= i < n ::
          t[i].bits == len <==> spans[len].start <= i < spans[len].start + spans[len].count)
  }

  method BuildIndex(t: seq<Code>) returns (spans: seq<Span>)
    requires ByLength(t)
    ensures Indexed(t, |t|, spans)
  {
    spans := seq(LENGTHS, _ => Span(0, 0));
    for i := 0 to |t|
      invariant Indexed(t, i, spans)
    {
      var bits := t[i].bits;
      if 1 <= bits < LENGTHS {
        var was := spans[bits];
        IndexStep(t, i, spans);
        spans := spans[bits := Span(if was.count == 0 then i else was.start, was.count + 1)];
      }
    }
  }

  lemma IndexStep(t: seq<Code>, i: nat, spans: seq<Span>)
    requires ByLength(t) && i < |t| && Indexed(t, i, spans) && 1 <= t[i].bits < LENGTHS
    ensures var was := spans[t[i].bits];
            Indexed(t, i + 1, spans[t[i].bits := Span(if was.count == 0 then i else was.start, was.count + 1)])
  {
    var len := t[i].bits;
    var was := spans[len];
    if was.count > 0 {
      var last := was.start + was.count - 1;
      assert t[last].bits == len;
      forall k | last < k < i ensures t[k].bits == len {
        assert t[last].bits <= t[k].bits <= t[i].bits;
      }
      assert t[i - 1].bits == len && was.start + was.count == i;
    }
    var spans' := spans[len := Span(if was.count == 0 then i else was.start, was.count + 1)];
    forall l, k | 1 <= l < LENGTHS && 0 <= k < i + 1
      ensures t[k].bits == l <==> spans'[l].start <= k < spans'[l].start + spans'[l].count
    {
      if k < i { assert t[k].bits == l <==> spans[l].start <= k < spans[l].start + spans[l].count; }
    }
  }

  // ---- the search --------------------------------------------------------------------------

  /** Where halving ends, between `lo` and `hi` of a run, whether or not it is in order. */
  function Halved(t: seq<Code>, start: nat, acc: nat, lo: nat, hi: nat): (r: nat)
    requires lo <= hi && start + hi <= |t|
    ensures lo <= r <= hi
    decreases hi - lo
  {
    if lo == hi then lo
    else
      var mid := (lo + hi) / 2;
      if t[start + mid].code < acc then Halved(t, start, acc, mid + 1, hi) else Halved(t, start, acc, lo, mid)
  }

  method LowerBound(t: seq<Code>, span: Span, acc: nat) returns (lo: nat)
    requires span.start + span.count <= |t|
    ensures lo == Halved(t, span.start, acc, 0, span.count)
  {
    lo := 0;
    var hi := span.count;
    while lo < hi
      invariant lo <= hi <= span.count
      invariant Halved(t, span.start, acc, lo, hi) == Halved(t, span.start, acc, 0, span.count)
    {
      var mid := (lo + hi) / 2;
      if t[span.start + mid].code < acc {
        lo := mid + 1;
      } else {
        hi := mid;
      }
    }
  }

  predicate InOrder(t: seq<Code>, from: nat, end: nat)
    requires end <= |t|
  {
    forall i, j | from <= i < j < end :: t[i].code <= t[j].code
  }

  /** In a run that is in order, halving ends at the first code not below the one sought. */
  lemma {:induction false} HalvedSplits(t: seq<Code>, start: nat, acc: nat, lo: nat, hi: nat)
    requires lo <= hi && start + hi <= |t| && InOrder(t, start + lo, start + hi)
    ensures var r := Halved(t, start, acc, lo, hi);
            && (forall i | start + lo <= i < start + r :: t[i].code < acc)
            && (forall i | start + r <= i < start + hi :: acc <= t[i].code)
    decreases hi - lo
  {
    hide InOrder;
    if lo == hi {
    } else {
      var mid := (lo + hi) / 2;
      if t[start + mid].code < acc {
        BelowMiddle(t, start + lo, start + mid, start + hi, acc);
        HalvedSplits(t, start, acc, mid + 1, hi);
      } else {
        AboveMiddle(t, start + lo, start + mid, start + hi, acc);
        HalvedSplits(t, start, acc, lo, mid);
      }
    }
  }

  lemma BelowMiddle(t: seq<Code>, from: nat, mid: nat, end: nat, acc: nat)
    requires from <= mid < end <= |t| && InOrder(t, from, end) && t[mid].code < acc
    ensures InOrder(t, mid + 1, end) && forall i | from <= i < mid + 1 :: t[i].code < acc
  {
  }

  lemma AboveMiddle(t: seq<Code>, from: nat, mid: nat, end: nat, acc: nat)
    requires from <= mid < end <= |t| && InOrder(t, from, end) && acc <= t[mid].code
    ensures InOrder(t, from, mid) && forall i | mid <= i < end :: acc <= t[i].code
  {
  }

  /** What a run answers for a prefix: the entry halving ends at, if it has that code. */
  function InRun(t: seq<Code>, span: Span, acc: nat): (r: Option<Code>)
    requires span.start + span.count <= |t|
    ensures r.Some? ==> exists i :: span.start <= i < span.start + span.count && t[i] == r.value && t[i].code == acc
  {
    var at := Halved(t, span.start, acc, 0, span.count);
    if at < span.count && t[span.start + at].code == acc then Some(t[span.start + at]) else None
  }

  lemma {:induction false} FindFirst(t: seq<Code>, bits: nat, code: nat, k: nat)
    requires k < |t| && t[k].bits == bits && t[k].code == code
    requires forall i | 0 <= i < k :: !(t[i].bits == bits && t[i].code == code)
    ensures Find(t, bits, code) == Some(t[k])
  {
    if k == 0 {
    } else {
      FindFirst(t[1..], bits, code, k - 1);
    }
  }

  /** Over a table in order, the run answers what the whole table answers. */
  lemma RunIsFind(t: seq<Code>, spans: seq<Span>, len: nat, acc: nat)
    requires Sorted(t) && Indexed(t, |t|, spans) && 1 <= len < LENGTHS
    ensures InRun(t, spans[len], acc) == Find(t, len, acc)
  {
    hide Indexed, InOrder, Sorted, Find, Halved;
    RunInOrder(t, spans, len);
    var span := spans[len];
    HalvedSplits(t, span.start, acc, 0, span.count);
    var at := Halved(t, span.start, acc, 0, span.count);
    if at < span.count && t[span.start + at].code == acc {
      RunHits(t, spans, len, acc, at);
    } else {
      forall i | span.start <= i < span.start + span.count ensures t[i].code != acc {
        if i > span.start + at { Ordered(t, span.start, span.start + span.count, span.start + at, i); }
      }
      RunMisses(t, spans, len, acc);
    }
  }

  lemma RunInOrder(t: seq<Code>, spans: seq<Span>, len: nat)
    requires Sorted(t) && Indexed(t, |t|, spans) && 1 <= len < LENGTHS
    ensures len < |spans| && spans[len].start + spans[len].count <= |t|
    ensures InOrder(t, spans[len].start, spans[len].start + spans[len].count)
  {
    var span := spans[len];
    forall i, j | span.start <= i < j < span.start + span.count ensures t[i].code <= t[j].code {
      assert t[i].bits == len && t[j].bits == len && Leq(t[i], t[j]);
    }
  }

  lemma Ordered(t: seq<Code>, from: nat, end: nat, i: nat, j: nat)
    requires from <= i < j < end <= |t| && InOrder(t, from, end)
    ensures t[i].code <= t[j].code
  {
  }

  lemma RunHits(t: seq<Code>, spans: seq<Span>, len: nat, acc: nat, at: nat)
    requires Indexed(t, |t|, spans) && 1 <= len < LENGTHS && at < spans[len].count
    requires t[spans[len].start + at].code == acc
    requires forall i | spans[len].start <= i < spans[len].start + at :: t[i].code < acc
    ensures Find(t, len, acc) == Some(t[spans[len].start + at])
  {
    hide Find;
    var k := spans[len].start + at;
    forall i | 0 <= i < k ensures !(t[i].bits == len && t[i].code == acc) {
      assert t[i].bits == len ==> spans[len].start <= i;
    }
    FindFirst(t, len, acc, k);
  }

  lemma RunMisses(t: seq<Code>, spans: seq<Span>, len: nat, acc: nat)
    requires Indexed(t, |t|, spans) && 1 <= len < LENGTHS
    requires forall i | spans[len].start <= i < spans[len].start + spans[len].count :: t[i].code != acc
    ensures Find(t, len, acc) == None
  {
    hide Find;
    forall i | 0 <= i < |t| ensures !(t[i].bits == len && t[i].code == acc) {
      assert t[i].bits == len ==> spans[len].start <= i < spans[len].start + spans[len].count;
    }
  }

  /** Past the end of the data the bit reader supplies zeros. */
  function Stream(s: seq<bool>): (r: seq<bool>)
    ensures |r| >= LENGTHS - 1 && s <= r
  {
    if |s| >= LENGTHS - 1 then s else s + seq(LENGTHS - 1 - |s|, _ => false)
  }

  /** The decoder on a stream: the first length whose run has the prefix. */
  function SpanDecode(t: seq<Code>, spans: seq<Span>, s: seq<bool>, len: nat): (r: Option<Symbol>)
    requires Indexed(t, |t|, spans) && 1 <= len
    decreases LENGTHS - len
  {
    if len >= LENGTHS || len > |s| then None
    else
      match InRun(t, spans[len], Val(s[..len]))
      case Some(e) => Some(Symbol(e.x, e.y, len))
      case None => SpanDecode(t, spans, s, len + 1)
  }

  /** A symbol is an entry whose stored code the stream begins with. */
  lemma {:induction false} SpanFinds(t: seq<Code>, spans: seq<Span>, s: seq<bool>, len: nat) returns (i: nat)
    requires Indexed(t, |t|, spans) && 1 <= len && SpanDecode(t, spans, s, len).Some?
    ensures i < |t| && Matches(t[i].code, t[i].bits, s) && 1 <= t[i].bits < LENGTHS
    ensures SpanDecode(t, spans, s, len) == Some(Symbol(t[i].x, t[i].y, t[i].bits))
    decreases LENGTHS - len
  {
    hide Halved;
    var e := InRun(t, spans[len], Val(s[..len]));
    if e.Some? {
      i :| spans[len].start <= i < spans[len].start + spans[len].count && t[i] == e.value
           && t[i].code == Val(s[..len]);
    } else {
      i := SpanFinds(t, spans, s, len + 1);
    }
  }

  lemma SpanStep(t: seq<Code>, spans: seq<Span>, s: seq<bool>, len: nat)
    requires Indexed(t, |t|, spans) && 1 <= len < LENGTHS && len <= |s|
    ensures var e := InRun(t, spans[len], Val(s[..len]));
            SpanDecode(t, spans, s, len) ==
            if e.Some? then Some(Symbol(e.value.x, e.value.y, len)) else SpanDecode(t, spans, s, len + 1)
  {
    hide InRun, Val;
  }

  lemma ValStep(s: seq<bool>, n: nat)
    requires 1 <= n <= |s|
    ensures Val(s[..n]) == 2 * Val(s[..n - 1]) + if s[n - 1] then 1 else 0
  {
    assert s[..n][..n - 1] == s[..n - 1];
  }

  /** One length of the search. */
  method SearchRun(t: seq<Code>, spans: seq<Span>, len: nat, acc: nat) returns (r: Option<Code>)
    requires Indexed(t, |t|, spans) && 1 <= len < LENGTHS
    ensures r == InRun(t, spans[len], acc)
  {
    var span := spans[len];
    if span.count == 0 { return None; }
    var lo := LowerBound(t, span, acc);
    if lo < span.count && t[span.start + lo].code == acc { return Some(t[span.start + lo]); }
    return None;
  }

  /** Read one code: lengthen the prefix bit by bit, search its length's run. */
  method ReadCode(t: seq<Code>, spans: seq<Span>, s: seq<bool>) returns (r: Option<Symbol>)
    requires Indexed(t, |t|, spans)
    ensures r == SpanDecode(t, spans, Stream(s), 1)
  {
    hide Indexed, InRun, SpanDecode, Val;
    var bits := Stream(s);
    var acc := 0;
    NoBits(t, spans, bits);
    var len := 1;
    while len < LENGTHS
      invariant 1 <= len <= LENGTHS
      invariant acc == Val(bits[..len - 1])
      invariant SpanDecode(t, spans, bits, 1) == SpanDecode(t, spans, bits, len)
    {
      ValStep(bits, len);
      SpanStep(t, spans, bits, len);
      acc := 2 * acc + if bits[len - 1] then 1 else 0;
      var e := SearchRun(t, spans, len, acc);
      if e.Some? { return Some(Symbol(e.value.x, e.value.y, len)); }
      len := len + 1;
    }
    return None;
  }

  lemma NoBits(t: seq<Code>, spans: seq<Span>, s: seq<bool>)
    requires Indexed(t, |t|, spans)
    ensures Val(s[..0]) == 0 && SpanDecode(t, spans, s, LENGTHS) == None
  {
  }

  // ---- and the tree ------------------------------------------------------------------------

  /** The search by rising length, over the lengths the decoder has room for. */
  function RunDecode(t: seq<Code>, s: seq<bool>, len: nat): (r: Option<Symbol>)
    decreases LENGTHS - len
  {
    if len >= LENGTHS || len > |s| then None
    else
      match Find(t, len, Val(s[..len]))
      case Some(e) => Some(Symbol(e.x, e.y, len))
      case None => RunDecode(t, s, len + 1)
  }

  lemma {:induction false} SpanIsRun(t: seq<Code>, spans: seq<Span>, s: seq<bool>, len: nat)
    requires Sorted(t) && Indexed(t, |t|, spans) && 1 <= len
    ensures SpanDecode(t, spans, s, len) == RunDecode(t, s, len)
    decreases LENGTHS - len
  {
    hide Sorted, Indexed, InRun, Find;
    if len >= LENGTHS || len > |s| {
    } else {
      RunIsFind(t, spans, len, Val(s[..len]));
      SpanIsRun(t, spans, s, len + 1);
    }
  }

  lemma {:induction false} RunFinds(t: seq<Code>, s: seq<bool>, len: nat, i: nat)
    requires i < |t| && Matches(t[i].code, t[i].bits, s) && len <= t[i].bits < LENGTHS
    requires forall j | 0 <= j < |t| && j != i :: !Matches(t[j].code, t[j].bits, s)
    ensures RunDecode(t, s, len) == Some(Symbol(t[i].x, t[i].y, t[i].bits))
    decreases t[i].bits - len
  {
    var f := Find(t, len, Val(s[..len]));
    if f.Some? {
      var k :| 0 <= k < |t| && t[k] == f.value;
      assert Matches(t[k].code, t[k].bits, s);
    } else {
      assert len < t[i].bits;
      RunFinds(t, s, len + 1, i);
    }
  }

  lemma {:induction false} RunFails(t: seq<Code>, s: seq<bool>, len: nat)
    requires forall j | 0 <= j < |t| && len <= t[j].bits < LENGTHS :: !Matches(t[j].code, t[j].bits, s)
    ensures RunDecode(t, s, len) == None
    decreases LENGTHS - len
  {
    if len >= LENGTHS || len > |s| {
    } else {
      var f := Find(t, len, Val(s[..len]));
      assert f.None? by {
        if f.Some? {
          var k :| 0 <= k < |t| && t[k] == f.value;
          assert Matches(t[k].code, t[k].bits, s);
        }
      }
      RunFails(t, s, len + 1);
    }
  }

  /** What the tree decodes, if the decoder looks at codes that long. */
  function Within(r: Option<Symbol>): (p: Option<Symbol>) {
    if r.Some? && 1 <= r.value.bits < LENGTHS then r else None
  }

  /** With nothing lost in its fields, the decoder gives on every stream the tree's symbol
      when its code has 1 to 19 bits, and refuses otherwise. */
  lemma SpanIsTree(words: seq<nat>, base: nat, t: seq<Code>, spans: seq<Span>, s: seq<bool>)
    requires Accepted(words, base, t) && Storable(t) && Indexed(Shipped(t), |Shipped(t)|, spans)
    ensures SpanDecode(Shipped(t), spans, s, 1) == Within(TreeDecode(words, base, 0, s))
  {
    hide Matches, TreeDecode, RunDecode, Indexed, SpanDecode, Shipped, Recovered, CodeMatches;
    StorableShips(t);
    SpanIsRun(t, spans, s, 1);
    var i := TheMatch(words, base, t, s);
    if i.Some? && 1 <= t[i.value].bits < LENGTHS {
      RunFinds(t, s, 1, i.value);
    } else {
      RunFails(t, s, 1);
    }
  }

  /** The bits of a code, most significant first. */
  function BitsOf(code: nat, bits: nat): (r: seq<bool>)
    requires code < Pow2(bits)
    ensures |r| == bits && Val(r) == code
  {
    if bits == 0 then []
    else
      var r := BitsOf(code / 2, bits - 1) + [code % 2 == 1];
      assert r[..bits - 1] == BitsOf(code / 2, bits - 1);
      r
  }

  /** A stream, long enough as it is, that begins with the code of entry `i`. */
  lemma StreamOf(words: seq<nat>, base: nat, t: seq<Code>, i: nat) returns (s: seq<bool>)
    requires Accepted(words, base, t) && i < |t|
    ensures Stream(s) == s && Matches(t[i].code, t[i].bits, s)
    ensures TreeDecode(words, base, 0, s) == Some(Symbol(t[i].x, t[i].y, t[i].bits))
  {
    hide TreeDecode, Sorted, CodeMatches, ShortCodes, Val;
    assert Recovered(words, base, t[i]);
    var code := BitsOf(t[i].code, t[i].bits);
    s := code + seq(LENGTHS, _ => false);
    assert s[..t[i].bits] == code;
    assert Matches(t[i].code, t[i].bits, s);
  }

  /** The decoder agrees with the tree on whatever it is given. */
  ghost predicate DecodesLikeTree(words: seq<nat>, base: nat, t: seq<Code>, spans: seq<Span>)
    requires Indexed(Shipped(t), |Shipped(t)|, spans)
  {
    forall s: seq<bool> ::
      SpanDecode(Shipped(t), spans, Stream(s), 1) == TreeDecode(words, base, 0, Stream(s))
  }

  /** The check on the tree lets through codes of no bits, codes of 20 to 24 bits, codes
      that need 17 bits and tables that need a 17-bit count. The decoder agrees with the tree
      on every stream exactly when there are none of these. */
  lemma LikeTreeIff(words: seq<nat>, base: nat, t: seq<Code>, spans: seq<Span>)
    requires Accepted(words, base, t) && Indexed(Shipped(t), |Shipped(t)|, spans)
    ensures DecodesLikeTree(words, base, t, spans) <==> Indexable(t) && Storable(t)
  {
    hide Accepted, TreeDecode, SpanDecode, Matches, Recovered, Indexed, Shipped, Stream;
    if Indexable(t) && Storable(t) {
      forall s: seq<bool>
        ensures SpanDecode(Shipped(t), spans, Stream(s), 1) == TreeDecode(words, base, 0, Stream(s))
      {
        SpanIsTree(words, base, t, spans, Stream(s));
        var i := TheMatch(words, base, t, Stream(s));
      }
    } else {
      var i := Misfit(t);
      var s := StreamOf(words, base, t, i);
      MisfitShows(words, base, t, spans, i, s);
      assert SpanDecode(Shipped(t), spans, Stream(s), 1) != TreeDecode(words, base, 0, Stream(s));
    }
  }

  /** An entry the decoder cannot find: its length or its code is out of range, or, where
      all of these are in range, it lies past the stored count. */
  ghost predicate Lost(t: seq<Code>, i: nat)
    requires i < |t|
  {
    || !(1 <= t[i].bits < LENGTHS) || t[i].code >= FIELD
    || (i >= |t| % FIELD && forall j | 0 <= j < |t| :: t[j].code < FIELD)
  }

  lemma Misfit(t: seq<Code>) returns (i: nat)
    requires !(Indexable(t) && Storable(t))
    ensures i < |t| && Lost(t, i)
  {
    if !Indexable(t) {
      i :| 0 <= i < |t| && !(1 <= t[i].bits < LENGTHS);
    } else if exists k :: 0 <= k < |t| && t[k].code >= FIELD {
      i :| 0 <= i < |t| && t[i].code >= FIELD;
    } else {
      i := |t| - 1;
    }
  }

  /** A stream that begins with the code of a lost entry is not decoded as that entry. */
  lemma MisfitShows(words: seq<nat>, base: nat, t: seq<Code>, spans: seq<Span>, i: nat, s: seq<bool>)
    requires Accepted(words, base, t) && Indexed(Shipped(t), |Shipped(t)|, spans) && i < |t| && Lost(t, i)
    requires Matches(t[i].code, t[i].bits, s)
    ensures SpanDecode(Shipped(t), spans, s, 1) != Some(Symbol(t[i].x, t[i].y, t[i].bits))
  {
    hide Accepted, Indexed, SpanDecode;
    var r := SpanDecode(Shipped(t), spans, s, 1);
    if r.Some? && r.value.bits == t[i].bits {
      var j := SpanFinds(Shipped(t), spans, s, 1);
      assert Shipped(t)[j] == Cut(t[j]) && Cut(t[j]).code == t[i].code < FIELD;
      assert t[j].code == t[i].code && Matches(t[j].code, t[j].bits, s);
      PrefixFree(words, base, t, s, i, j);
    }
  }

  /** The stream begins with entry `i` of the table, as far as its 16-bit code can tell. */
  predicate Begins(t: seq<Code>, i: nat, s: seq<bool>)
    requires i < |t|
  {
    1 <= t[i].bits < LENGTHS && Matches(t[i].code % FIELD, t[i].bits, s)
  }

  /** End to end: index the table emitted for a tree and read one code. */
  method DecodeLikeTree(words: seq<nat>, base: nat, t: seq<Code>, s: seq<bool>) returns (r: Option<Symbol>)
    requires Accepted(words, base, t)
    ensures Storable(t) ==> r == Within(TreeDecode(words, base, 0, Stream(s)))
    ensures Indexable(t) && Storable(t) ==> r == TreeDecode(words, base, 0, Stream(s))
    ensures r.Some? ==> exists i: nat | i < |t| % FIELD ::
              Begins(t, i, Stream(s)) && r == Some(Symbol(t[i].x, t[i].y, t[i].bits))
  {
    hide Recovered, TreeDecode, SpanDecode, Indexed, Shipped;
    ShippedByLength(t);
    var spans := BuildIndex(Shipped(t));
    r := ReadCode(Shipped(t), spans, s);
    LikeTreeIff(words, base, t, spans);
    if Storable(t) { SpanIsTree(words, base, t, spans, Stream(s)); }
    if r.Some? {
      ghost var i := SpanFinds(Shipped(t), spans, Stream(s), 1);
      assert Shipped(t)[i] == Cut(t[i]) && Begins(t, i, Stream(s));
    }
  }

  // ---- a tree whose longest code does not fit -----------------------------------------------

  /** Seventeen nodes down the right, a leaf on each left and one at the end. */
  function Comb(): (r: seq<nat>)
    ensures |r| == 35 && forall i | 0 <= i < 35 :: r[i] == if i % 2 == 0 && i < 34 then 0x0102 else 0
  {
    seq(35, i => if i % 2 == 0 && i < 34 then 0x0102 else 0)
  }

  lemma CombHops(k: nat)
    requires k < 17
    ensures !IsLeaf(Comb()[2 * k]) && IsLeaf(Comb()[2 * k + 1]) && IsLeaf(Comb()[34])
    ensures Hop(Comb(), 0, 2 * k, false) == Some(2 * k + 1) && Hop(Comb(), 0, 2 * k, true) == Some(2 * k + 2)
  {
  }

  lemma {:induction false} CombIsComplete(k: nat)
    requires k <= 17
    ensures Complete(Comb(), 0, 35, 2 * k, k)
    decreases 17 - k
  {
    hide Hop, IsLeaf, Comb;
    if k == 17 {
      CombHops(0);
    } else {
      CombHops(k);
      CombIsComplete(k + 1);
      assert Complete(Comb(), 0, 35, 2 * k + 1, k + 1);
    }
  }

  /** Codes of the comb have at most 17 bits. */
  lemma {:induction false} CombBits(k: nat, s: seq<bool>)
    requires k <= 17 && TreeDecode(Comb(), 0, 2 * k, s).Some?
    ensures TreeDecode(Comb(), 0, 2 * k, s).value.bits <= 17 - k
    ensures k < 17 ==> TreeDecode(Comb(), 0, 2 * k, s).value.bits >= 1
    decreases 17 - k
  {
    hide Hop, IsLeaf, Comb;
    if k == 17 {
      CombHops(0);
    } else {
      CombHops(k);
      if s[0] { CombBits(k + 1, s[1..]); }
    }
  }

  function Ones(n: nat): (r: seq<bool>)
    ensures |r| == n && forall i | 0 <= i < n :: r[i]
  {
    seq(n, _ => true)
  }

  lemma {:induction false} CombEnd(k: nat, s: seq<bool>)
    requires k <= 17 && |s| >= 17 - k && forall i | 0 <= i < 17 - k :: s[i]
    ensures TreeDecode(Comb(), 0, 2 * k, s) == Some(Symbol(0, 0, 17 - k))
    decreases 17 - k
  {
    hide Hop, Comb;
    if k == 17 {
      CombHops(0);
    } else {
      CombHops(k);
      CombEnd(k + 1, s[1..]);
    }
  }

  lemma {:induction false} OnesVal(n: nat)
    ensures Val(Ones(n)) == Pow2(n) - 1
  {
    if n == 0 {
    } else {
      assert Ones(n)[..n - 1] == Ones(n - 1);
      OnesVal(n - 1);
    }
  }

  /** The comb passes the check and all its codes have 1 to 17 bits. On a stream of ones the
      tree gives its 17-bit symbol; the decoder finds nothing, because the code is stored
      without its top bit. */
  lemma CombIsNotDecoded(t: seq<Code>, spans: seq<Span>)
    requires Accepted(Comb(), 0, t) && Indexed(Shipped(t), |Shipped(t)|, spans)
    ensures Complete(Comb(), 0, 35, 0, 0) && Indexable(t)
    ensures TreeDecode(Comb(), 0, 0, Stream(Ones(19))) == Some(Symbol(0, 0, 17))
    ensures SpanDecode(Shipped(t), spans, Stream(Ones(19)), 1) == None
  {
    hide Accepted, Indexed, TreeDecode, SpanDecode, Shipped, Comb, Complete, Matches;
    CombIsComplete(0);
    CombIndexable(t);
    CombEnd(0, Ones(19));
    CombSilent(t, spans);
  }

  lemma CombIndexable(t: seq<Code>)
    requires Accepted(Comb(), 0, t)
    ensures forall i | 0 <= i < |t| :: 1 <= t[i].bits <= 17
  {
    hide Accepted, TreeDecode, Comb, Matches;
    forall i | 0 <= i < |t| ensures 1 <= t[i].bits <= 17 {
      var s := StreamOf(Comb(), 0, t, i);
      CombBits(0, s);
    }
  }

  lemma CombSilent(t: seq<Code>, spans: seq<Span>)
    requires Accepted(Comb(), 0, t) && Indexed(Shipped(t), |Shipped(t)|, spans)
    ensures SpanDecode(Shipped(t), spans, Ones(19), 1) == None
  {
    hide Accepted, Indexed, TreeDecode, SpanDecode, Comb, Matches;
    var s := Ones(19);
    var r := SpanDecode(Shipped(t), spans, s, 1);
    if r.Some? {
      var j := SpanFinds(Shipped(t), spans, s, 1);
      CombIndexable(t);
      CombEntry(t, j, s);
    }
  }

  lemma CombEntry(t: seq<Code>, j: nat, s: seq<bool>)
    requires Accepted(Comb(), 0, t) && j < |t| && 1 <= t[j].bits <= 17 && s == Ones(19)
    ensures !Matches(Cut(t[j]).code, t[j].bits, s)
  {
    hide Accepted, TreeDecode, Comb;
    var n := t[j].bits;
    assert s[..n] == Ones(n);
    OnesVal(n);
    CodeFits(Comb(), 0, t, j);
    CombEnd(0, s);
    if n == 17 {
      Pow2Of(17);
    } else {
      Pow2Of(n);
      assert Cut(t[j]) == t[j];
      if Matches(t[j].code, n, s) { EntryDecodes(Comb(), 0, t, j, s); }
    }
  }

  lemma Pow2Of(n: nat)
    requires n <= 17
    ensures n <= 16 ==> Pow2(n) <= FIELD
    ensures n == 17 ==> Pow2(n) == 2 * FIELD
  {
    Pow2Of16();
    hide Pow2;
    if n <= 16 { Pow2Grows(n, 16); }
  }

  lemma Pow2Of16()
    ensures Pow2(16) == FIELD && Pow2(17) == 2 * FIELD
  {
    assert Pow2(2) == 4 && Pow2(4) == 4 * Pow2(2);
    Pow2Add(4, 4);
    Pow2Add(8, 8);
    assert Pow2(17) == 2 * Pow2(16);
  }

  lemma {:induction false} Pow2Grows(a: nat, b: nat)
    requires a <= b
    ensures Pow2(a) <= Pow2(b)
    decreases b
  {
    if a == b {
    } else {
      Pow2Grows(a, b - 1);
    }
  }

  lemma CodeFits(words: seq<nat>, base: nat, t: seq<Code>, i: nat)
    requires Accepted(words, base, t) && i < |t|
    ensures t[i].code < Pow2(t[i].bits)
  {
    assert Recovered(words, base, t[i]);
  }

  lemma EntryDecodes(words: seq<nat>, base: nat, t: seq<Code>, i: nat, s: seq<bool>)
    requires Accepted(words, base, t) && i < |t| && Matches(t[i].code, t[i].bits, s)
    ensures TreeDecode(words, base, 0, s) == Some(Symbol(t[i].x, t[i].y, t[i].bits))
  {
    assert Recovered(words, base, t[i]);
  }

  /** The whole way, from the comb's words to a refused read. */
  method CombRefused() returns (r: Option<Symbol>)
    ensures r == None && TreeDecode(Comb(), 0, 0, Stream(Ones(19))) == Some(Symbol(0, 0, 17))
  {
    hide Accepted, Indexed, TreeDecode, SpanDecode, Shipped, Comb, Complete;
    CombIsComplete(0);
    var t := RecoverTable(Comb(), 0, 35);
    AcceptedIsSorted(Comb(), 0, t.value);
    ShippedByLength(t.value);
    var spans := BuildIndex(Shipped(t.value));
    CombIsNotDecoded(t.value, spans);
    r := ReadCode(Shipped(t.value), spans, Ones(19));
  }

  lemma AcceptedIsSorted(words: seq<nat>, base: nat, t: seq<Code>)
    requires Accepted(words, base, t)
    ensures Sorted(t)
  {
  }
}
