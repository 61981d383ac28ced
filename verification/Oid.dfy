/** Object identifiers (section 8.19 of ITU-T X.690): the writer puts the first two arcs in
    one byte, and every later arc in base 128. */
module Oid {
  import opened Bytes
  import opened Der

  // ---- one arc -----------------------------------------------------------------------------

  /** The continued groups of seven bits. */
  function Continued(n: nat): (r: seq<byte>) {
    if n == 0 then [] else Continued(n / 128) + [n % 128 + 128]
  }

  function Arc(n: nat): (r: seq<byte>) { Continued(n / 128) + [n % 128] }

  /** Groups of `n`, least significant first. */
  function Groups(n: nat): (r: seq<byte>)
    ensures forall i | 0 <= i < |r| :: r[i] < 128
  {
    if n == 0 then [] else [n % 128] + Groups(n / 128)
  }

  function Flagged(chunks: seq<byte>): (r: seq<byte>)
    requires forall i | 0 <= i < |chunks| :: chunks[i] < 128
  {
    if chunks == [] then [] else Flagged(chunks[1..]) + [chunks[0] + 128]
  }

  lemma {:induction false} GroupsContinued(n: nat)
    ensures Flagged(Groups(n)) == Continued(n)
  {
    if n == 0 {
    } else {
      GroupsContinued(n / 128);
      assert Groups(n)[1..] == Groups(n / 128);
    }
  }

  method CollectGroups(p: nat) returns (chunks: seq<byte>)
    ensures chunks == Groups(p)
  {
    chunks := [];
    var q := p;
    assert chunks + Groups(q) == Groups(p);
    while q != 0
      invariant chunks + Groups(q) == Groups(p)
      decreases q
    {
      assert chunks + ([q % 128] + Groups(q / 128)) == (chunks + [q % 128]) + Groups(q / 128);
      chunks := chunks + [q % 128];
      q := q / 128;
    }
    assert chunks + [] == chunks;
  }

  /** The groups reversed, with the continuation bit on all but the last. */
  method EmitGroups(chunks: seq<byte>) returns (out: seq<byte>)
    requires chunks != [] && forall i | 0 <= i < |chunks| :: chunks[i] < 128
    ensures out == Flagged(chunks[1..]) + [chunks[0]]
  {
    out := [];
    var n := |chunks|;
    assert out + Flagged(chunks[1..]) == Flagged(chunks[1..]) && chunks[1..n] == chunks[1..];
    for i := 0 to n
      invariant i < n ==> out + Flagged(chunks[1..n - i]) == Flagged(chunks[1..])
      invariant i == n ==> out == Flagged(chunks[1..]) + [chunks[0]]
    {
      var c := chunks[n - 1 - i];
      if i < n - 1 {
        EmitStep(chunks, out, n - i);
        out := out + [c + 128];
      } else {
        assert chunks[1..1] == [] && out + [] == out;
        out := out + [c];
      }
    }
  }

  lemma EmitStep(chunks: seq<byte>, out: seq<byte>, m: nat)
    requires 2 <= m <= |chunks| && forall i | 0 <= i < |chunks| :: chunks[i] < 128
    ensures (out + [chunks[m - 1] + 128]) + Flagged(chunks[1..m - 1]) == out + Flagged(chunks[1..m])
  {
    var s := chunks[1..m];
    FlaggedLast(s);
    assert s[..|s| - 1] == chunks[1..m - 1] && s[|s| - 1] == chunks[m - 1];
    assert out + ([chunks[m - 1] + 128] + Flagged(chunks[1..m - 1])) == (out + [chunks[m - 1] + 128]) + Flagged(chunks[1..m - 1]);
  }

  /** One arc after the first two, as the loops emit it. */
  method EncodeArc(p: nat) returns (out: seq<byte>)
    ensures out == Arc(p)
  {
    if p == 0 { return [0]; }
    var chunks := CollectGroups(p);
    out := EmitGroups(chunks);
    assert chunks[0] == p % 128 && chunks[1..] == Groups(p / 128);
    GroupsContinued(p / 128);
  }

  lemma {:induction false} FlaggedLast(chunks: seq<byte>)
    requires chunks != [] && forall i | 0 <= i < |chunks| :: chunks[i] < 128
    ensures Flagged(chunks) == [chunks[|chunks| - 1] + 128] + Flagged(chunks[..|chunks| - 1])
  {
    if |chunks| > 1 {
      FlaggedLast(chunks[1..]);
      assert chunks[..|chunks| - 1][1..] == chunks[1..][..|chunks| - 2];
    } else {
      assert chunks[1..] == [] && chunks[..0] == [];
    }
  }

  // ---- the whole identifier ---------------------------------------------------------------------

  function Arcs(parts: seq<nat>): (r: seq<byte>) {
    if parts == [] then [] else Arc(parts[0]) + Arcs(parts[1..])
  }

  /** The identifier's contents; a first byte above 255 raises, as do fewer than two arcs. */
  function OidBody(parts: seq<nat>): (r: Option<seq<byte>>) {
    if |parts| < 2 || 40 * parts[0] + parts[1] > 255 then None
    else Some([40 * parts[0] + parts[1]] + Arcs(parts[2..]))
  }

  lemma {:induction false} ArcsSnoc(parts: seq<nat>, p: nat)
    ensures Arcs(parts + [p]) == Arcs(parts) + Arc(p)
  {
    if parts == [] {
      assert (parts + [p])[1..] == [];
    } else {
      ArcsSnoc(parts[1..], p);
      assert (parts + [p])[1..] == parts[1..] + [p];
    }
  }

  method EncodeOid(parts: seq<nat>) returns (r: Option<seq<byte>>)
    requires OidBody(parts).Some? ==> Encodable(|OidBody(parts).value|)
    ensures r == match OidBody(parts) { case None => None case Some(body) => Some(Encode(0x06, body)) }
  {
    if |parts| < 2 || 40 * parts[0] + parts[1] > 255 { return None; }
    var out: seq<byte> := [40 * parts[0] + parts[1]];
    var rest := parts[2..];
    for i := 0 to |rest|
      invariant out == [40 * parts[0] + parts[1]] + Arcs(rest[..i])
    {
      var arc := EncodeArc(rest[i]);
      ArcsSnoc(rest[..i], rest[i]);
      assert rest[..i + 1] == rest[..i] + [rest[i]];
      out := out + arc;
    }
    assert rest[..|rest|] == rest;
    r := Some(Encode(0x06, out));
  }

  // ---- reading it back as the standard says ------------------------------------------------------

  /** The base-128 numbers in `s`; `open` says one is under way with value `acc`. */
  function Subidentifiers(s: seq<byte>, acc: nat, open: bool): (r: Option<seq<nat>>)
    decreases |s|
  {
    if s == [] then (if open then None else Some([]))
    else
      var v := acc * 128 + s[0] % 128;
      if s[0] >= 128 then Subidentifiers(s[1..], v, true)
      else
        var rest := Subidentifiers(s[1..], 0, false);
        if rest.None? then None else Some([v] + rest.value)
  }

  function DecodeOid(body: seq<byte>): (r: Option<seq<nat>>) {
    var subs := Subidentifiers(body, 0, false);
    if subs.None? || subs.value == [] then None
    else
      var v := subs.value[0];
      Some((if v < 40 then [0, v] else if v < 80 then [1, v - 40] else [2, v - 80]) + subs.value[1..])
  }

  lemma {:induction false} ContinuedReads(n: nat, s: seq<byte>)
    ensures Subidentifiers(Continued(n) + s, 0, false) == Subidentifiers(s, n, n > 0)
  {
    if n == 0 {
      assert Continued(n) + s == s;
    } else {
      var x := n % 128 + 128;
      ContinuedReads(n / 128, [x] + s);
      assert Continued(n) + s == Continued(n / 128) + ([x] + s);
      assert ([x] + s)[1..] == s;
    }
  }

  lemma ArcReads(n: nat, s: seq<byte>)
    ensures Subidentifiers(Arc(n) + s, 0, false) ==
              match Subidentifiers(s, 0, false) { case None => None case Some(rest) => Some([n] + rest) }
  {
    var x := n % 128;
    ContinuedReads(n / 128, [x] + s);
    assert Arc(n) + s == Continued(n / 128) + ([x] + s);
    assert ([x] + s)[1..] == s;
  }

  lemma {:induction false} ArcsRead(parts: seq<nat>)
    ensures Subidentifiers(Arcs(parts), 0, false) == Some(parts)
  {
    if parts == [] {
    } else {
      ArcReads(parts[0], Arcs(parts[1..]));
      ArcsRead(parts[1..]);
      assert [parts[0]] + parts[1..] == parts;
    }
  }

  /** A number already under way swallows the first of the arcs that follow. */
  lemma SwallowsArc(acc: nat, parts: seq<nat>)
    ensures var subs := Subidentifiers(Arcs(parts), acc, true);
            if parts == [] then subs.None? else subs.Some? && |subs.value| == |parts|
  {
    if parts != [] {
      ArcsRead(parts[1..]);
      Swallows(acc, parts[0] / 128, [parts[0] % 128] + Arcs(parts[1..]));
      assert Arcs(parts) == Continued(parts[0] / 128) + ([parts[0] % 128] + Arcs(parts[1..]));
      assert ([parts[0] % 128] + Arcs(parts[1..]))[1..] == Arcs(parts[1..]);
    }
  }

  lemma {:induction false} Swallows(acc: nat, n: nat, s: seq<byte>)
    ensures exists v: nat :: Subidentifiers(Continued(n) + s, acc, true) == Subidentifiers(s, v, true)
  {
    if n == 0 {
      assert Continued(n) + s == s;
      assert Subidentifiers(Continued(n) + s, acc, true) == Subidentifiers(s, acc, true);
    } else {
      var x := n % 128 + 128;
      Swallows(acc, n / 128, [x] + s);
      var v: nat :| Subidentifiers(Continued(n / 128) + ([x] + s), acc, true) == Subidentifiers([x] + s, v, true);
      assert Continued(n) + s == Continued(n / 128) + ([x] + s);
      assert ([x] + s)[1..] == s;
    }
  }

  /** Arcs a standard identifier may start with. */
  predicate ProperStart(parts: seq<nat>) { |parts| >= 2 && parts[0] <= 2 && (parts[0] < 2 ==> parts[1] < 40) }

  /** The arcs decode back exactly when the first two fit seven bits: the writer does not
      continue its first byte, so 2.48 and above are written as something else. */
  lemma OidRoundTrip(parts: seq<nat>)
    requires ProperStart(parts) && OidBody(parts).Some?
    ensures DecodeOid(OidBody(parts).value) == Some(parts) <==> 40 * parts[0] + parts[1] < 128
  {
    var v, body, rest := 40 * parts[0] + parts[1], OidBody(parts).value, parts[2..];
    assert body[1..] == Arcs(rest);
    if v < 128 {
      ArcsRead(rest);
      assert parts == [parts[0], parts[1]] + rest;
    } else {
      SwallowsArc(v % 128, rest);
    }
  }

  /** The first identifiers it loses: 2.48 is written as a byte that never ends, and 2.48.1 as
      what reads as 0.1. */
  lemma HighArcIsLost()
    ensures OidBody([2, 48]) == Some([0x80]) && DecodeOid([0x80]) == None
    ensures OidBody([2, 48, 1]) == Some([0x80, 0x01]) && DecodeOid([0x80, 0x01]) == Some([0, 1])
  {
    var two, three: seq<nat> := [2, 48], [2, 48, 1];
    var one, s, t: seq<byte> := [0x01], [0x80], [0x80, 0x01];
    assert two[2..] == [] && three[2..] == [1];
    ArcOfOne();
    assert s + [] == s && s + one == t;
    assert s[1..] == [] && t[1..] == one && one[1..] == [];
    var arcs: seq<nat> := [1];
    assert Subidentifiers(one, 0, true) == Some([1] + []);
    assert [1] + [] == arcs && arcs[1..] == [];
    assert Subidentifiers(t, 0, false) == Some(arcs);
    var zero: seq<nat> := [0, 1];
    assert zero + [] == zero;
  }

  lemma ArcOfOne()
    ensures Arcs([1]) == [0x01]
  {
    assert [1][1..] == [] && Arc(1) == [] + [1];
    assert Arcs([1]) == Arc(1) + [];
  }
}
