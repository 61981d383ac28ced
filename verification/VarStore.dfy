/** The authenticated variable store of a firmware volume: walking the records it holds and
    appending key variables in place. */
module VarStore {
  import opened Bytes
  import opened DiskBytes
  import opened LongNames
  import opened SignatureLists

  const HEADER := 60
  const MARK := 0x55AA
  const TWO32 := 0x1_0000_0000

  datatype Variable = Variable(name: string, guid: Guid, data: seq<byte>)

  // ---- writing one record ---------------------------------------------------------------

  function NameBytes(name: string): (r: seq<byte>)
    ensures |r| == 2 * |Units(name)| + 2
  {
    Le16s(Units(name)) + [0, 0]
  }

  function Erased(n: nat): (r: seq<byte>)
    ensures |r| == n && forall i | 0 <= i < n :: r[i] == 0xFF
  {
    seq(n, _ => 0xFF)
  }

  /** Sizes that fit their 32-bit fields; anything longer raises. */
  predicate Packable(v: Variable) { |NameBytes(v.name)| < TWO32 && |v.data| < TWO32 }

  function Preamble(): (r: seq<byte>)
    ensures |r| == 34
  {
    [0x3F, 0] + Le(0x27, 4) + Zeros(8) + Zeros(16) + Zeros(4)
  }

  /** Mark, state and attributes, the two sizes, the vendor, then the name, the data and
      erased bytes up to a multiple of four. */
  function RecordParts(v: Variable): (r: seq<seq<byte>>)
    ensures |r| == 8
  {
    var name := NameBytes(v.name);
    [Le(MARK, 2), Preamble(), Le(|name|, 4), Le(|v.data|, 4), v.guid, name, v.data,
     Erased((4 - (HEADER + |name| + |v.data|) % 4) % 4)]
  }

  function RecordBytes(v: Variable): (r: seq<byte>) { Flatten(RecordParts(v)) }

  function Align4(n: nat): (r: nat)
    ensures r % 4 == 0 && n <= r < n + 4
  {
    (n + 3) / 4 * 4
  }

  function BodySize(v: Variable): (r: nat) { HEADER + |NameBytes(v.name)| + |v.data| }

  lemma Offsets(v: Variable)
    ensures TotalLength(RecordParts(v)[..0]) == 0 && TotalLength(RecordParts(v)[..1]) == 2
    ensures TotalLength(RecordParts(v)[..2]) == 36
    ensures TotalLength(RecordParts(v)[..3]) == 40 && TotalLength(RecordParts(v)[..4]) == 44
    ensures TotalLength(RecordParts(v)[..5]) == HEADER
    ensures TotalLength(RecordParts(v)[..6]) == HEADER + |NameBytes(v.name)|
    ensures |RecordBytes(v)| == Align4(BodySize(v))
  {
    hide NameBytes, Preamble, Le, Flatten;
    var p := RecordParts(v);
    TotalSnoc(p, 0);
    TotalSnoc(p, 1);
    TotalSnoc(p, 2);
    TotalSnoc(p, 3);
    TotalSnoc(p, 4);
    TotalSnoc(p, 5);
    TotalSnoc(p, 6);
    TotalSnoc(p, 7);
    assert p[..8] == p;
    FlattenLength(p);
    AlignPad(BodySize(v));
  }

  lemma AlignPad(n: nat)
    ensures n + (4 - n % 4) % 4 == Align4(n)
  {
  }

  // ---- walking ---------------------------------------------------------------------------

  datatype Found = Found(at: nat, nameSize: nat, dataSize: nat)

  function Next(f: Found): (r: nat)
    ensures r >= f.at + HEADER && r % 4 == 0
  {
    Align4(f.at + HEADER + f.nameSize + f.dataSize)
  }

  predicate Holds(fd: seq<byte>, p: nat, limit: nat)
    requires limit <= |fd|
  {
    p + HEADER <= limit && Get(fd, p, 2) == MARK
  }

  function FoundAt(fd: seq<byte>, p: nat): (r: Found)
    requires p + HEADER <= |fd|
  {
    Found(p, Get(fd, p + 36, 4), Get(fd, p + 40, 4))
  }

  function Records(fd: seq<byte>, p: nat, limit: nat): (r: seq<Found>)
    requires limit <= |fd|
    decreases limit - p
  {
    if !Holds(fd, p, limit) then [] else [FoundAt(fd, p)] + Records(fd, Next(FoundAt(fd, p)), limit)
  }

  function End(fd: seq<byte>, p: nat, limit: nat): (r: nat)
    requires limit <= |fd|
    ensures r >= p && !Holds(fd, r, limit) && (p % 4 == 0 ==> r % 4 == 0)
    decreases limit - p
  {
    if !Holds(fd, p, limit) then p else End(fd, Next(FoundAt(fd, p)), limit)
  }

  /** Where to append, and how many records come before. */
  method ExistingEnd(fd: array<byte>, first: nat, limit: nat) returns (p: nat, n: nat)
    requires limit <= fd.Length
    ensures p == End(fd[..], first, limit) && n == |Records(fd[..], first, limit)|
  {
    p, n := first, 0;
    var m := fd[..];
    while p + HEADER <= limit
      invariant End(m, p, limit) == End(m, first, limit)
      invariant n + |Records(m, p, limit)| == |Records(m, first, limit)|
      decreases limit - p
    {
      if Get(m, p, 2) != MARK { break; }
      var nameSize, dataSize := Get(m, p + 36, 4), Get(m, p + 40, 4);
      p := p + HEADER + nameSize + dataSize;
      p := (p + 3) / 4 * 4;
      n := n + 1;
    }
  }

  ghost predicate SameBefore(a: seq<byte>, b: seq<byte>, n: nat) {
    |a| == |b| && forall k | 0 <= k < n && k < |a| :: b[k] == a[k]
  }

  lemma SameFields(a: seq<byte>, b: seq<byte>, n: nat, p: nat)
    requires SameBefore(a, b, n) && p + HEADER <= n && p + HEADER <= |a|
    ensures Get(b, p, 2) == Get(a, p, 2) && FoundAt(b, p) == FoundAt(a, p)
  {
    assert a[p..p + 2] == b[p..p + 2] && a[p + 36..p + 40] == b[p + 36..p + 40];
    assert a[p + 40..p + 44] == b[p + 40..p + 44];
  }

  /** Records found before are found again as long as nothing before their end changes. */
  lemma {:induction false} WalkGoesOn(a: seq<byte>, b: seq<byte>, p: nat, limit: nat)
    requires limit <= |a| && SameBefore(a, b, End(a, p, limit))
    ensures Records(b, p, limit) == Records(a, p, limit) + Records(b, End(a, p, limit), limit)
    ensures End(b, p, limit) == End(b, End(a, p, limit), limit)
    decreases limit - p
  {
    if !Holds(a, p, limit) {
    } else {
      var next := Next(FoundAt(a, p));
      SameFields(a, b, End(a, p, limit), p);
      WalkGoesOn(a, b, next, limit);
    }
  }

  // ---- what was appended -------------------------------------------------------------------

  ghost predicate AllPackable(vars: seq<Variable>) { forall i | 0 <= i < |vars| :: Packable(vars[i]) }

  function Stored(vars: seq<Variable>): (r: seq<byte>) {
    if vars == [] then [] else RecordBytes(vars[0]) + Stored(vars[1..])
  }

  function PlacedAt(p: nat, vars: seq<Variable>): (r: seq<Found>)
    ensures |r| == |vars|
    decreases |vars|
  {
    if vars == [] then []
    else [Found(p, |NameBytes(vars[0].name)|, |vars[0].data|)] + PlacedAt(p + Align4(BodySize(vars[0])), vars[1..])
  }

  /** A record that lies at `p` is read as written. */
  lemma RecordReads(fd: seq<byte>, p: nat, v: Variable)
    requires Packable(v) && Has(fd, p, RecordBytes(v))
    ensures |RecordBytes(v)| >= HEADER
    ensures Get(fd, p, 2) == MARK && FoundAt(fd, p) == Found(p, |NameBytes(v.name)|, |v.data|)
  {
    hide NameBytes, Preamble, Le, Flatten, Get, Pow256;
    var r, parts := RecordBytes(v), RecordParts(v);
    Offsets(v);
    Widths();
    FieldAt(parts, 0, 0, MARK, 2);
    FieldAt(parts, 2, 36, |NameBytes(v.name)|, 4);
    FieldAt(parts, 3, 40, |v.data|, 4);
    GetInside(fd, r, p, 0, 2);
    GetInside(fd, r, p, 36, 4);
    GetInside(fd, r, p, 40, 4);
  }

  lemma AlignedNext(p: nat, n: nat)
    requires p % 4 == 0
    ensures Align4(p + n) == p + Align4(n)
  {
  }

  /** The walk finds the records stored, and goes on behind them. */
  lemma {:induction false} WalkFindsStored(fd: seq<byte>, p: nat, limit: nat, vars: seq<Variable>)
    requires limit <= |fd| && p % 4 == 0 && AllPackable(vars)
    requires Has(fd, p, Stored(vars)) && (vars == [] || p + |Stored(vars)| <= limit)
    ensures Records(fd, p, limit) == PlacedAt(p, vars) + Records(fd, p + |Stored(vars)|, limit)
    decreases |vars|
  {
    hide RecordBytes, Has, Get, FoundAt, BodySize, Align4, NameBytes;
    if vars == [] {
    } else {
      var v, rest := vars[0], vars[1..];
      HasSplit(fd, p, RecordBytes(v), Stored(rest));
      RecordReads(fd, p, v);
      Offsets(v);
      NextIs(p, v);
      WalkFindsStored(fd, p + |RecordBytes(v)|, limit, rest);
      assert p + |RecordBytes(v)| + |Stored(rest)| == p + |Stored(vars)|;
    }
  }

  lemma NextIs(p: nat, v: Variable)
    requires p % 4 == 0
    ensures Next(Found(p, |NameBytes(v.name)|, |v.data|)) == p + Align4(BodySize(v))
    ensures (p + Align4(BodySize(v))) % 4 == 0
  {
    AlignedNext(p, BodySize(v));
  }

  // ---- enrolling --------------------------------------------------------------------------

  lemma {:induction false} StoredSnoc(vars: seq<Variable>, v: Variable)
    ensures Stored(vars + [v]) == Stored(vars) + RecordBytes(v)
  {
    hide RecordBytes;
    if vars == [] {
      assert (vars + [v])[1..] == [];
    } else {
      StoredSnoc(vars[1..], v);
      assert (vars + [v])[1..] == vars[1..] + [v];
      assert RecordBytes(vars[0]) + (Stored(vars[1..]) + RecordBytes(v)) == Stored(vars) + RecordBytes(v);
    }
  }

  /** The records fit exactly when each size can be written and their sum stays in bounds. */
  ghost predicate Room(p: nat, limit: nat, vars: seq<Variable>) {
    AllPackable(vars) && (vars == [] || p + |Stored(vars)| <= limit)
  }

  lemma {:induction false} StoredMonotone(vars: seq<Variable>, n: nat)
    requires n <= |vars|
    ensures |Stored(vars[..n])| <= |Stored(vars)|
  {
    hide RecordBytes;
    if n == 0 {
    } else {
      StoredMonotone(vars[1..], n - 1);
      assert vars[..n][1..] == vars[1..][..n - 1];
    }
  }

  ghost predicate Appended(was: seq<byte>, now: seq<byte>, p: nat, blob: seq<byte>) {
    if blob == [] then now == was else p + |blob| <= |was| && now == Splice(was, p, blob)
  }

  lemma AppendMore(was: seq<byte>, now: seq<byte>, p: nat, blob: seq<byte>, more: seq<byte>)
    requires Appended(was, now, p, blob) && p + |blob| + |more| <= |was| == |now|
    ensures Appended(was, Splice(now, p + |blob|, more), p, blob + more)
  {
  }

  lemma NoRoom(p: nat, limit: nat, vars: seq<Variable>, i: nat)
    requires i < |vars| && (!Packable(vars[i]) || p + |Stored(vars[..i])| + |RecordBytes(vars[i])| > limit)
    ensures !Room(p, limit, vars)
  {
    hide RecordBytes, Packable;
    StoredSnoc(vars[..i], vars[i]);
    assert vars[..i + 1] == vars[..i] + [vars[i]];
    StoredMonotone(vars, i + 1);
  }

  /** Append the records after the last one; stop when one does not fit. */
  method Append(fd: array<byte>, p0: nat, limit: nat, vars: seq<Variable>) returns (ok: bool)
    requires limit <= fd.Length
    modifies fd
    ensures ok <==> Room(p0, limit, vars)
    ensures ok ==> Appended(old(fd[..]), fd[..], p0, Stored(vars))
  {
    hide RecordBytes, Packable, Splice;
    var p := p0;
    ghost var was := fd[..];
    for i := 0 to |vars|
      invariant p == p0 + |Stored(vars[..i])| && (i > 0 ==> p <= limit)
      invariant forall k | 0 <= k < i :: Packable(vars[k])
      invariant Appended(was, fd[..], p0, Stored(vars[..i]))
    {
      if !Packable(vars[i]) {
        NoRoom(p0, limit, vars, i);
        return false;
      }
      var rec := RecordBytes(vars[i]);
      if p + |rec| > limit {
        NoRoom(p0, limit, vars, i);
        return false;
      }
      ghost var before := fd[..];
      Poke(fd, p, rec);
      AppendMore(was, before, p0, Stored(vars[..i]), rec);
      StoredSnoc(vars[..i], vars[i]);
      assert vars[..i + 1] == vars[..i] + [vars[i]];
      p := p + |rec|;
    }
    assert vars[..|vars|] == vars;
    ok := true;
  }

  /** Erased bytes never look like a record. */
  lemma ErasedStops(fd: seq<byte>, p: nat, limit: nat)
    requires limit <= |fd| && forall k | p <= k < limit :: fd[k] == 0xFF
    ensures !Holds(fd, p, limit)
  {
    if p + HEADER <= limit {
      var s := fd[p..p + 2];
      assert s[0] == 0xFF && s[1..] == [0xFF];
      assert UnLe(s) == 0xFFFF;
    }
  }

  /** Nothing behind the place for the new records reads as one more. */
  ghost predicate Quiet(was: seq<byte>, first: nat, limit: nat, vars: seq<Variable>)
    requires limit <= |was|
  {
    !Holds(was, End(was, first, limit) + |Stored(vars)|, limit)
  }

  lemma HoldsSame(was: seq<byte>, now: seq<byte>, p: nat, limit: nat)
    requires limit <= |was| == |now| && (p <= limit ==> now[p..] == was[p..])
    ensures Holds(now, p, limit) <==> Holds(was, p, limit)
  {
    if p + HEADER <= limit {
      assert now[p..p + 2] == now[p..][..2] && was[p..p + 2] == was[p..][..2];
    }
  }

  /** All but the `n` bytes at `p` are as they were. */
  ghost predicate Untouched(was: seq<byte>, now: seq<byte>, p: nat, n: nat) {
    && |now| == |was| && SameBefore(was, now, p)
    && (p + n <= |was| ==> now[p + n..] == was[p + n..])
  }

  lemma AppendedAround(was: seq<byte>, now: seq<byte>, p: nat, limit: nat, blob: seq<byte>)
    requires Appended(was, now, p, blob) && (blob == [] || p + |blob| <= limit) && limit <= |was|
    ensures |now| == |was| && Untouched(was, now, p, |blob|) && (p <= |was| ==> Has(now, p, blob))
  {
  }

  /** Walking again after enrolment finds the old records as they were and then the new; it
      finds exactly these if and only if what lay behind did not read as a record. */
  lemma EnrolmentWalk(was: seq<byte>, now: seq<byte>, first: nat, limit: nat, vars: seq<Variable>)
    requires limit <= |was| && vars != [] && End(was, first, limit) % 4 == 0
    requires Room(End(was, first, limit), limit, vars)
    requires Appended(was, now, End(was, first, limit), Stored(vars))
    ensures var end := End(was, first, limit);
            && |now| == |was|
            && (Records(now, first, limit) == Records(was, first, limit) + PlacedAt(end, vars) <==>
                Quiet(was, first, limit, vars))
            && Records(was, first, limit) + PlacedAt(end, vars) <= Records(now, first, limit)
            && Untouched(was, now, end, |Stored(vars)|) && Has(now, end, Stored(vars)) && end + |Stored(vars)| <= limit
  {
    hide *;
    var end := End(was, first, limit);
    RoomIs(end, limit, vars);
    AppendedAround(was, now, end, limit, Stored(vars));
    var before, more := WalkSplits(was, now, first, limit, vars);
    QuietAfter(was, now, first, limit, vars);
    Lengthened(Records(now, first, limit), before, more);
  }

  lemma Lengthened(all: seq<Found>, before: seq<Found>, more: seq<Found>)
    requires all == before + more
    ensures before <= all && (all == before <==> more == [])
  {
  }

  lemma RoomIs(p: nat, limit: nat, vars: seq<Variable>)
    requires Room(p, limit, vars) && vars != []
    ensures AllPackable(vars) && p + |Stored(vars)| <= limit
  {
  }

  lemma QuietIs(was: seq<byte>, first: nat, limit: nat, vars: seq<Variable>)
    requires limit <= |was|
    ensures Quiet(was, first, limit, vars) <==> !Holds(was, End(was, first, limit) + |Stored(vars)|, limit)
  {
  }

  lemma WalkSplits(was: seq<byte>, now: seq<byte>, first: nat, limit: nat, vars: seq<Variable>)
    returns (before: seq<Found>, more: seq<Found>)
    requires limit <= |was| == |now| && End(was, first, limit) % 4 == 0 && AllPackable(vars)
    requires Untouched(was, now, End(was, first, limit), |Stored(vars)|) && Has(now, End(was, first, limit), Stored(vars))
    requires End(was, first, limit) + |Stored(vars)| <= limit
    ensures before == Records(was, first, limit) + PlacedAt(End(was, first, limit), vars)
    ensures more == Records(now, End(was, first, limit) + |Stored(vars)|, limit)
    ensures Records(now, first, limit) == before + more
  {
    hide *;
    var end := End(was, first, limit);
    UntouchedBefore(was, now, end, |Stored(vars)|);
    WalkFindsStored(now, end, limit, vars);
    WalkGoesOn(was, now, first, limit);
    var old', added := Records(was, first, limit), PlacedAt(end, vars);
    before, more := old' + added, Records(now, end + |Stored(vars)|, limit);
    assert old' + (added + more) == before + more;
  }

  lemma UntouchedBefore(was: seq<byte>, now: seq<byte>, p: nat, n: nat)
    requires Untouched(was, now, p, n)
    ensures SameBefore(was, now, p)
  {
  }

  lemma QuietAfter(was: seq<byte>, now: seq<byte>, first: nat, limit: nat, vars: seq<Variable>)
    requires limit <= |was| == |now| && Untouched(was, now, End(was, first, limit), |Stored(vars)|)
    ensures Quiet(was, first, limit, vars) <==> Records(now, End(was, first, limit) + |Stored(vars)|, limit) == []
  {
    hide Stored, End;
    HoldsSame(was, now, End(was, first, limit) + |Stored(vars)|, limit);
  }

  /** A store erased behind its records is quiet whatever is added. */
  lemma ErasedIsQuiet(fd: seq<byte>, first: nat, limit: nat, vars: seq<Variable>)
    requires limit <= |fd| && forall k | End(fd, first, limit) <= k < limit :: fd[k] == 0xFF
    ensures Quiet(fd, first, limit, vars)
  {
    ErasedStops(fd, End(fd, first, limit) + |Stored(vars)|, limit);
  }

  /** A store that is not: an old record left behind the erased place for the new one comes
      to life, whatever the two are. */
  lemma OldRecordReturns(v: Variable, w: Variable)
    requires Packable(v) && Packable(w)
    ensures var was, now := Erased(|RecordBytes(v)|) + RecordBytes(w), RecordBytes(v) + RecordBytes(w);
            && Records(was, 0, |was|) == [] && Room(0, |was|, [v]) && Appended(was, now, 0, Stored([v]))
            && !Quiet(was, 0, |was|, [v])
            && Records(now, 0, |was|) == PlacedAt(0, [v, w])
  {
    hide *;
    var n := |RecordBytes(v)|;
    var was, now := Erased(n) + RecordBytes(w), RecordBytes(v) + RecordBytes(w);
    RecordNotEmpty(v);
    RecordNotEmpty(w);
    StoredOne(v);
    ErasedHead(n, RecordBytes(w));
    OverErased(n, RecordBytes(v), RecordBytes(w));
    NothingHeld(was, 0, |was|);
    BehindHolds(was, n, w);
    OneFits(v, |was|);
    QuietIs(was, 0, |was|, [v]);
    BothFound(v, w);
  }

  lemma NothingHeld(fd: seq<byte>, p: nat, limit: nat)
    requires limit <= |fd| && !Holds(fd, p, limit)
    ensures Records(fd, p, limit) == [] && End(fd, p, limit) == p
  {
  }

  lemma OverErased(n: nat, a: seq<byte>, b: seq<byte>)
    requires n == |a|
    ensures Appended(Erased(n) + b, a + b, 0, a) && Has(Erased(n) + b, n, b) && Has(a + b, 0, a + b)
  {
    assert a != [] ==> a + b == Splice(Erased(n) + b, 0, a);
    assert a == [] ==> a + b == Erased(n) + b;
  }

  lemma BehindHolds(fd: seq<byte>, p: nat, w: Variable)
    requires Packable(w) && Has(fd, p, RecordBytes(w))
    ensures Holds(fd, p, |fd|)
  {
    hide RecordBytes;
    RecordReads(fd, p, w);
  }

  lemma OneFits(v: Variable, limit: nat)
    requires Packable(v) && |RecordBytes(v)| <= limit
    ensures Room(0, limit, [v])
  {
    hide RecordBytes, Packable;
    StoredOne(v);
  }

  lemma BothFound(v: Variable, w: Variable)
    requires Packable(v) && Packable(w)
    ensures var now := RecordBytes(v) + RecordBytes(w); Records(now, 0, |now|) == PlacedAt(0, [v, w])
  {
    hide RecordBytes, Packable, NameBytes, PlacedAt;
    var now := RecordBytes(v) + RecordBytes(w);
    StoredTwo(v, w);
    assert Has(now, 0, now);
    WalkFindsStored(now, 0, |now|, [v, w]);
    NothingHeld(now, |now|, |now|);
  }

  lemma RecordNotEmpty(v: Variable)
    ensures |RecordBytes(v)| >= HEADER && |RecordBytes(v)| % 4 == 0
  {
    hide RecordBytes, NameBytes;
    Offsets(v);
  }

  lemma StoredOne(v: Variable)
    ensures Stored([v]) == RecordBytes(v)
  {
    hide RecordBytes;
    assert [v][1..] == [];
  }

  lemma StoredTwo(v: Variable, w: Variable)
    ensures Stored([v, w]) == RecordBytes(v) + RecordBytes(w)
  {
    hide RecordBytes;
    StoredOne(w);
    assert [v, w][1..] == [w];
  }

  lemma ErasedHead(n: nat, rest: seq<byte>)
    requires n >= HEADER
    ensures !Holds(Erased(n) + rest, 0, n + |rest|)
  {
    var fd := Erased(n) + rest;
    var s := fd[0..2];
    assert s[0] == 0xFF && s[1..] == [0xFF];
    assert UnLe(s) == 0xFFFF;
  }

  // ---- reading a variable back ------------------------------------------------------------------

  predicate InFile(fd: seq<byte>, f: Found) { f.at + HEADER + f.nameSize + f.dataSize <= |fd| }

  /** The name up to its terminator, the vendor and the data of a found record. */
  function NameOf(fd: seq<byte>, f: Found): (r: string)
    requires InFile(fd, f) && f.nameSize >= 2
  {
    FromUnits(UnitsAt(fd, f.at + HEADER, (f.nameSize - 2) / 2))
  }

  function DataOf(fd: seq<byte>, f: Found): (r: seq<byte>)
    requires InFile(fd, f)
  {
    fd[f.at + HEADER + f.nameSize..f.at + HEADER + f.nameSize + f.dataSize]
  }

  function VendorOf(fd: seq<byte>, f: Found): (r: seq<byte>)
    requires InFile(fd, f)
  {
    fd[f.at + 44..f.at + HEADER]
  }

  lemma PartHere(fd: seq<byte>, p: nat, v: Variable, k: nat, off: nat)
    requires Has(fd, p, RecordBytes(v)) && k < 8 && off == TotalLength(RecordParts(v)[..k])
    ensures Has(fd, p + off, RecordParts(v)[k])
  {
    hide RecordParts, Flatten;
    PartAt(RecordParts(v), k);
    HasWithin(fd, p, RecordBytes(v), off, |RecordParts(v)[k]|);
  }

  /** A record in state "added", non-volatile, for boot services and run time, with
      time-based authentication, and no count, time or key recorded. */
  predicate Added(fd: seq<byte>, at: nat) {
    && at + 36 <= |fd| && fd[at + 2] == 0x3F && fd[at + 3] == 0 && Get(fd, at + 4, 4) == 0x01 + 0x02 + 0x04 + 0x20
    && forall k | at + 8 <= k < at + 36 :: fd[k] == 0
  }

  lemma PreambleIs()
    ensures var p := Preamble();
            && p[0] == 0x3F && p[1] == 0 && p[2..6] == Le(0x27, 4) && forall k | 6 <= k < 34 :: p[k] == 0
  {
    hide Le;
  }

  lemma RecordIsAdded(fd: seq<byte>, p: nat, v: Variable)
    requires Has(fd, p, RecordBytes(v))
    ensures Added(fd, p)
  {
    hide Le, RecordBytes, NameBytes, Preamble, UnLe, Pow256;
    Offsets(v);
    PartHere(fd, p, v, 1, 2);
    PreambleIs();
    var pre := Preamble();
    assert fd[p + 2..p + 36] == pre;
    assert fd[p + 2] == fd[p + 2..p + 36][0] && fd[p + 3] == fd[p + 2..p + 36][1];
    HasWithin(fd, p + 2, pre, 2, 4);
    Widths();
    LeRoundTrip(0x27, 4);
    forall k | p + 8 <= k < p + 36 ensures fd[k] == 0 {
      assert fd[k] == fd[p + 2..p + 36][k - p - 2];
    }
  }

  /** Name, vendor and data of a stored variable come back. */
  lemma VariableReads(fd: seq<byte>, p: nat, v: Variable)
    requires Packable(v) && Has(fd, p, RecordBytes(v))
    ensures var f := Found(p, |NameBytes(v.name)|, |v.data|);
            InFile(fd, f) && NameOf(fd, f) == v.name && VendorOf(fd, f) == v.guid && DataOf(fd, f) == v.data
  {
    hide NameBytes, RecordBytes, NameOf;
    VariableParts(fd, p, v);
    NameReads(fd, Found(p, |NameBytes(v.name)|, |v.data|), v.name);
  }

  lemma VariableParts(fd: seq<byte>, p: nat, v: Variable)
    requires Has(fd, p, RecordBytes(v))
    ensures Has(fd, p + 44, v.guid) && Has(fd, p + HEADER, NameBytes(v.name))
    ensures Has(fd, p + HEADER + |NameBytes(v.name)|, v.data)
  {
    hide Le, Preamble, RecordBytes, NameBytes, Has;
    Offsets(v);
    PartHere(fd, p, v, 4, 44);
    PartHere(fd, p, v, 5, HEADER);
    PartHere(fd, p, v, 6, HEADER + |NameBytes(v.name)|);
    assert p + (HEADER + |NameBytes(v.name)|) == p + HEADER + |NameBytes(v.name)|;
  }

  lemma NameReads(fd: seq<byte>, f: Found, name: string)
    requires InFile(fd, f) && f.nameSize == |NameBytes(name)| && Has(fd, f.at + HEADER, NameBytes(name))
    ensures NameOf(fd, f) == name
  {
    HasSplit(fd, f.at + HEADER, Le16s(Units(name)), [0, 0]);
    hide Le16s, FromUnits, UnitsAt;
    UnitsOfSegment(fd, f.at + HEADER, Units(name));
    UnitsRoundTrip(name);
  }

  lemma {:induction false} StoredReads(fd: seq<byte>, p: nat, vars: seq<Variable>, i: nat)
    requires AllPackable(vars) && Has(fd, p, Stored(vars)) && i < |vars|
    ensures var f := PlacedAt(p, vars)[i];
            && InFile(fd, f) && f.nameSize >= 2 && Added(fd, f.at)
            && NameOf(fd, f) == vars[i].name && VendorOf(fd, f) == vars[i].guid && DataOf(fd, f) == vars[i].data
    decreases i
  {
    hide RecordBytes, Has, NameBytes, NameOf, DataOf, VendorOf, InFile, Align4, BodySize, Added;
    HasSplit(fd, p, RecordBytes(vars[0]), Stored(vars[1..]));
    Offsets(vars[0]);
    if i == 0 {
      VariableReads(fd, p, vars[0]);
      RecordIsAdded(fd, p, vars[0]);
    } else {
      StoredReads(fd, p + |RecordBytes(vars[0])|, vars[1..], i - 1);
      assert PlacedAt(p, vars)[i] == PlacedAt(p + Align4(BodySize(vars[0])), vars[1..])[i - 1];
    }
  }

  // ---- the whole tool --------------------------------------------------------------------------

  const FV_NVDATA: Guid := [0x8D, 0x2B, 0xF1, 0xFF, 0x96, 0x76, 0x8B, 0x4C, 0xA9, 0x85, 0x27, 0x47, 0x07, 0x5B, 0x4F, 0x50]
  const AUTH_VARSTORE: Guid := [0x78, 0x2C, 0xF3, 0xAA, 0x7B, 0x94, 0x9A, 0x43, 0xA1, 0x80, 0x2E, 0x14, 0x4E, 0xC3, 0x77, 0x92]
  const GLOBAL_VARIABLE: Guid := [0x61, 0xDF, 0xE4, 0x8B, 0xCA, 0x93, 0xD2, 0x11, 0xAA, 0x0D, 0x00, 0xE0, 0x98, 0x03, 0x2B, 0x8C]
  const IMAGE_SECURITY: Guid := [0xCB, 0xB2, 0x19, 0xD7, 0x3A, 0x3D, 0x96, 0x45, 0xA3, 0xBC, 0xDA, 0xD0, 0x0E, 0x67, 0x65, 0x6F]

  /** Where the records start and end, in a volume of the right kind. */
  function StoreOffsets(fd: seq<byte>): (r: Option<(nat, nat)>) {
    if Slice(fd, 40, 44) != [0x5F, 0x46, 0x56, 0x48] || Slice(fd, 16, 32) != FV_NVDATA || |fd| < 50 then None
    else
      var vs := Get(fd, 48, 2);
      if Slice(fd, vs, vs + 16) != AUTH_VARSTORE || vs + 22 > |fd| then None
      else if fd[vs + 20] != 0x5A || fd[vs + 21] != 0xFE then None
      else Some((vs + 28, vs + Get(fd, vs + 16, 4)))
  }

  /** What is enrolled: an empty certificate or list leaves its variable out. */
  function KeyVariables(pk: seq<byte>, kek: seq<byte>, dbs: seq<seq<byte>>): (r: seq<Variable>) {
    (if pk == [] then [] else [Variable("PK", GLOBAL_VARIABLE, SignatureList(pk))])
    + (if kek == [] then [] else [Variable("KEK", GLOBAL_VARIABLE, SignatureList(kek))])
    + (if dbs == [] then [] else [Variable("db", IMAGE_SECURITY, JoinedLists(dbs))])
  }

  /** Found after the old records: record `i` of `vars`, with its name, vendor and data. */
  ghost predicate Enrolled(was: seq<byte>, now: seq<byte>, first: nat, limit: nat, vars: seq<Variable>)
    requires limit <= |was| == |now|
  {
    var old', new' := Records(was, first, limit), Records(now, first, limit);
    && |new'| == |old'| + |vars| && new'[..|old'|] == old'
    && SameBefore(was, now, End(was, first, limit))
    && forall i | 0 <= i < |vars| :: Reads(now, limit, new'[|old'| + i], vars[i])
  }

  /** A record before `limit` from which the variable is read back. */
  ghost predicate Reads(fd: seq<byte>, limit: nat, f: Found, v: Variable) {
    && InFile(fd, f) && f.nameSize >= 2 && f.at + HEADER + f.nameSize + f.dataSize <= limit
    && NameOf(fd, f) == v.name && VendorOf(fd, f) == v.guid && DataOf(fd, f) == v.data && Added(fd, f.at)
  }

  lemma {:induction false} PlacedInside(p: nat, limit: nat, vars: seq<Variable>, i: nat)
    requires i < |vars| && p + |Stored(vars)| <= limit
    ensures var f := PlacedAt(p, vars)[i]; f.at + HEADER + f.nameSize + f.dataSize <= limit
    decreases |vars|
  {
    hide RecordBytes, NameBytes;
    Offsets(vars[0]);
    if i == 0 {
    } else {
      PlacedInside(p + Align4(BodySize(vars[0])), limit, vars[1..], i - 1);
      assert PlacedAt(p, vars)[i] == PlacedAt(p + Align4(BodySize(vars[0])), vars[1..])[i - 1];
    }
  }

  lemma PlacedReads(fd: seq<byte>, p: nat, limit: nat, vars: seq<Variable>, i: nat)
    requires AllPackable(vars) && Has(fd, p, Stored(vars)) && i < |vars| && p + |Stored(vars)| <= limit
    ensures Reads(fd, limit, PlacedAt(p, vars)[i], vars[i])
  {
    hide Stored, PlacedAt, NameOf, VendorOf, DataOf, Has, Added;
    StoredReads(fd, p, vars, i);
    PlacedInside(p, limit, vars, i);
  }

  /** The new variables read back, after the old records and with nothing behind them, if and
      only if what lay behind did not read as a record. */
  lemma EnrolmentReadsBack(was: seq<byte>, now: seq<byte>, first: nat, limit: nat, vars: seq<Variable>)
    requires limit <= |was| && End(was, first, limit) % 4 == 0 && Room(End(was, first, limit), limit, vars)
    requires Appended(was, now, End(was, first, limit), Stored(vars))
    ensures |now| == |was| && (Enrolled(was, now, first, limit, vars) <==> Quiet(was, first, limit, vars))
  {
    hide Stored, Records, RecordBytes, PlacedAt, Reads, Quiet, SameBefore;
    var end := End(was, first, limit);
    if vars == [] {
      NothingStored();
      QuietIs(was, first, limit, vars);
      SameAsItself(was, end);
    } else {
      StoredNonempty(vars);
      EnrolmentWalk(was, now, first, limit, vars);
      UntouchedBefore(was, now, end, |Stored(vars)|);
      var before, added := Records(was, first, limit), PlacedAt(end, vars);
      assert (before + added)[..|before|] == before;
      assert forall i | 0 <= i < |vars| :: (before + added)[|before| + i] == added[i];
      RoomIs(end, limit, vars);
      forall i | 0 <= i < |vars|
        ensures Reads(now, limit, added[i], vars[i])
      {
        PlacedReads(now, end, limit, vars, i);
      }
    }
  }

  lemma SameAsItself(fd: seq<byte>, n: nat)
    ensures SameBefore(fd, fd, n)
  {
  }

  lemma NothingStored()
    ensures Stored([]) == []
  {
  }

  lemma StoredNonempty(vars: seq<Variable>)
    requires vars != []
    ensures Stored(vars) != []
  {
    hide RecordBytes;
    Offsets(vars[0]);
  }

  /** Enrolment succeeds exactly when the volume is recognised and everything fits; then, where
      the old records end aligned, a walk finds them untouched followed by exactly the new
      variables if and only if nothing behind reads as a record. Writing the file out, which
      only happens on success, is not modelled. */
  method Enroll(fd: array<byte>, pk: seq<byte>, kek: seq<byte>, dbs: seq<seq<byte>>) returns (ok: bool)
    requires StoreOffsets(fd[..]).Some? ==> StoreOffsets(fd[..]).value.1 <= fd.Length
    modifies fd
    ensures ok <==> old(StoreOffsets(fd[..]).Some?) &&
                    old(var o := StoreOffsets(fd[..]).value;
                        Listable([pk, kek] + dbs) && Room(End(fd[..], o.0, o.1), o.1, KeyVariables(pk, kek, dbs)))
    ensures ok && old(var o := StoreOffsets(fd[..]).value; End(fd[..], o.0, o.1) % 4 == 0) ==>
              var o := StoreOffsets(old(fd[..])).value;
              (Enrolled(old(fd[..]), fd[..], o.0, o.1, KeyVariables(pk, kek, dbs)) <==>
               Quiet(old(fd[..]), o.0, o.1, KeyVariables(pk, kek, dbs)))
    ensures ok && old(var o := StoreOffsets(fd[..]).value;
                      End(fd[..], o.0, o.1) % 4 == 0 && Quiet(fd[..], o.0, o.1, KeyVariables(pk, kek, dbs))) ==>
              var o := StoreOffsets(old(fd[..])).value;
              NewKeys(old(fd[..]), fd[..], o.0, o.1, pk, kek, dbs)
  {
    hide StoreOffsets, KeyVariables, Room, Quiet, Enrolled, Appended, Stored;
    ghost var was := fd[..];
    var located := StoreOffsets(fd[..]);
    if located.None? { return false; }
    var first, limit := located.value.0, located.value.1;
    var p, existing := ExistingEnd(fd, first, limit);
    if !Listable([pk, kek] + dbs) { return false; }
    var vars := KeyVariables(pk, kek, dbs);
    ok := Append(fd, p, limit, vars);
    if ok && p % 4 == 0 {
      EnrolmentReadsBack(was, fd[..], first, limit, vars);
      if Quiet(was, first, limit, vars) { EnrolledKeys(was, fd[..], first, limit, pk, kek, dbs); }
    }
  }

  /** After the old records, and nothing else, the keys given. */
  ghost predicate NewKeys(was: seq<byte>, now: seq<byte>, first: nat, limit: nat,
                          pk: seq<byte>, kek: seq<byte>, dbs: seq<seq<byte>>)
  {
    && limit <= |was| == |now| && Records(was, first, limit) <= Records(now, first, limit)
    && KeysFound(now, Records(now, first, limit)[|Records(was, first, limit)|..], pk, kek, dbs)
  }

  lemma EnrolledKeys(was: seq<byte>, now: seq<byte>, first: nat, limit: nat,
                     pk: seq<byte>, kek: seq<byte>, dbs: seq<seq<byte>>)
    requires limit <= |was| == |now| && Listable([pk, kek] + dbs)
    requires Enrolled(was, now, first, limit, KeyVariables(pk, kek, dbs))
    ensures NewKeys(was, now, first, limit, pk, kek, dbs)
  {
    hide Records, KeyVariables, Reads, KeysFound, SameBefore;
    var before, after, vars := Records(was, first, limit), Records(now, first, limit), KeyVariables(pk, kek, dbs);
    var found := after[|before|..];
    forall i | 0 <= i < |vars| ensures Reads(now, limit, found[i], vars[i]) {
      assert found[i] == after[|before| + i];
    }
    KeysAreFound(now, limit, found, pk, kek, dbs);
  }

  /** The store is taken for one exactly where a firmware volume for variables, by its signature
      and its GUID FFF12B8D-7696-4C8B-A985-2747075B4F50, holds behind its header an authenticated
      store, by its GUID AAF32C78-947B-439A-A180-2E144EC37792, that is formatted and healthy; its
      records start 28 bytes into it. */
  lemma StoreIsFound(fd: seq<byte>)
    ensures StoreOffsets(fd).Some? <==>
            && |fd| >= 50 && fd[40..44] == [0x5F, 0x46, 0x56, 0x48]
            && IsGuid(fd[16..32], 0xFFF1_2B8D, 0x7696, 0x4C8B, [0xA9, 0x85, 0x27, 0x47, 0x07, 0x5B, 0x4F, 0x50])
            && var vs := Get(fd, 48, 2);
               && vs + 22 <= |fd| && fd[vs + 20] == 0x5A && fd[vs + 21] == 0xFE
               && IsGuid(fd[vs..vs + 16], 0xAAF3_2C78, 0x947B, 0x439A, [0xA1, 0x80, 0x2E, 0x14, 0x4E, 0xC3, 0x77, 0x92])
    ensures StoreOffsets(fd).Some? ==>
              var vs := Get(fd, 48, 2);
              vs + 20 <= |fd| && StoreOffsets(fd) == Some((vs + 28, vs + Get(fd, vs + 16, 4)))
  {
    hide IsGuid;
    GuidsAre();
    if |fd| >= 50 {
      SameGuid(fd[16..32], FV_NVDATA, 0xFFF1_2B8D, 0x7696, 0x4C8B, [0xA9, 0x85, 0x27, 0x47, 0x07, 0x5B, 0x4F, 0x50]);
      var vs := Get(fd, 48, 2);
      if vs + 22 <= |fd| {
        SameGuid(fd[vs..vs + 16], AUTH_VARSTORE, 0xAAF3_2C78, 0x947B, 0x439A,
                 [0xA1, 0x80, 0x2E, 0x14, 0x4E, 0xC3, 0x77, 0x92]);
      }
    }
  }

  lemma GuidsAre()
    ensures IsGuid(FV_NVDATA, 0xFFF1_2B8D, 0x7696, 0x4C8B, [0xA9, 0x85, 0x27, 0x47, 0x07, 0x5B, 0x4F, 0x50])
    ensures IsGuid(AUTH_VARSTORE, 0xAAF3_2C78, 0x947B, 0x439A, [0xA1, 0x80, 0x2E, 0x14, 0x4E, 0xC3, 0x77, 0x92])
  {
    hide Get;
    GuidIs(FV_NVDATA, 0xFFF1_2B8D, 0x7696, 0x4C8B, [0xA9, 0x85, 0x27, 0x47, 0x07, 0x5B, 0x4F, 0x50]);
    GuidIs(AUTH_VARSTORE, 0xAAF3_2C78, 0x947B, 0x439A, [0xA1, 0x80, 0x2E, 0x14, 0x4E, 0xC3, 0x77, 0x92]);
  }

  lemma SameGuid(a: seq<byte>, b: seq<byte>, first: nat, second: nat, third: nat, rest: seq<byte>)
    requires |a| == 16 && IsGuid(b, first, second, third, rest)
    ensures a == b <==> IsGuid(a, first, second, third, rest)
  {
    if IsGuid(a, first, second, third, rest) {
      SameField(a, b, 0, 4);
      SameField(a, b, 4, 2);
      SameField(a, b, 6, 2);
      assert a == a[0..4] + a[4..6] + a[6..8] + a[8..] && b == b[0..4] + b[4..6] + b[6..8] + b[8..];
    }
  }

  lemma SameField(a: seq<byte>, b: seq<byte>, off: nat, k: nat)
    requires off + k <= |a| && off + k <= |b| && Get(a, off, k) == Get(b, off, k)
    ensures a[off..off + k] == b[off..off + k]
  {
    UnLeRoundTrip(a[off..off + k]);
    UnLeRoundTrip(b[off..off + k]);
  }

  // ---- what a firmware finds ---------------------------------------------------------------------

  /** 8BE4DF61-93CA-11D2-AA0D-00E098032B8C and D719B2CB-3D3A-4596-A3BC-DAD00E67656F. */
  predicate IsGlobalVendor(b: seq<byte>) {
    IsGuid(b, 0x8BE4_DF61, 0x93CA, 0x11D2, [0xAA, 0x0D, 0x00, 0xE0, 0x98, 0x03, 0x2B, 0x8C])
  }

  predicate IsSecurityVendor(b: seq<byte>) {
    IsGuid(b, 0xD719_B2CB, 0x3D3A, 0x4596, [0xA3, 0xBC, 0xDA, 0xD0, 0x0E, 0x67, 0x65, 0x6F])
  }

  lemma VendorsAre()
    ensures IsGlobalVendor(GLOBAL_VARIABLE) && IsSecurityVendor(IMAGE_SECURITY)
  {
    hide Get;
    GuidIs(GLOBAL_VARIABLE, 0x8BE4_DF61, 0x93CA, 0x11D2, [0xAA, 0x0D, 0x00, 0xE0, 0x98, 0x03, 0x2B, 0x8C]);
    GuidIs(IMAGE_SECURITY, 0xD719_B2CB, 0x3D3A, 0x4596, [0xA3, 0xBC, 0xDA, 0xD0, 0x0E, 0x67, 0x65, 0x6F]);
  }

  /** A record that holds these certificates under this name. */
  ghost predicate HoldsKey(fd: seq<byte>, f: Found, name: string, certs: seq<seq<byte>>) {
    InFile(fd, f) && f.nameSize >= 2 && Added(fd, f.at) && NameOf(fd, f) == name && ReadLists(DataOf(fd, f)) == Some(certs)
  }

  function Given(present: bool): (r: nat) { if present then 1 else 0 }

  /** The records a firmware finds for the keys given: platform key, exchange key, database. */
  ghost predicate KeysFound(fd: seq<byte>, found: seq<Found>, pk: seq<byte>, kek: seq<byte>, dbs: seq<seq<byte>>) {
    && |found| == Given(pk != []) + Given(kek != []) + Given(dbs != [])
    && (pk != [] ==> HoldsKey(fd, found[0], "PK", [pk]) && IsGlobalVendor(VendorOf(fd, found[0])))
    && (kek != [] ==>
          var f := found[Given(pk != [])]; HoldsKey(fd, f, "KEK", [kek]) && IsGlobalVendor(VendorOf(fd, f)))
    && (dbs != [] ==>
          var f := found[|found| - 1]; HoldsKey(fd, f, "db", dbs) && IsSecurityVendor(VendorOf(fd, f)))
  }

  lemma OneList(cert: seq<byte>)
    requires Listable([cert])
    ensures ReadLists(SignatureList(cert)) == Some([cert])
  {
    hide SignatureList, ReadLists;
    ListsRoundTrip([cert]);
    assert [cert][1..] == [];
    assert JoinedLists([cert]) == SignatureList(cert) + [];
    assert SignatureList(cert) + [] == SignatureList(cert);
  }

  /** Read back, the variables written are the keys given. */
  lemma KeysAreFound(fd: seq<byte>, limit: nat, found: seq<Found>, pk: seq<byte>, kek: seq<byte>, dbs: seq<seq<byte>>)
    requires Listable([pk, kek] + dbs)
    requires var vars := KeyVariables(pk, kek, dbs);
             |found| == |vars| && forall i | 0 <= i < |vars| :: Reads(fd, limit, found[i], vars[i])
    ensures KeysFound(fd, found, pk, kek, dbs)
  {
    hide SignatureList, JoinedLists, ReadLists, NameOf, VendorOf, DataOf, Added, IsGuid;
    var vars, all := KeyVariables(pk, kek, dbs), [pk, kek] + dbs;
    VendorsAre();
    assert all[0] == pk && all[1] == kek && forall i | 0 <= i < |dbs| :: all[i + 2] == dbs[i];
    assert Listable([pk]) && Listable([kek]) && Listable(dbs);
    OneList(pk);
    OneList(kek);
    ListsRoundTrip(dbs);
    if pk != [] { assert Reads(fd, limit, found[0], vars[0]); }
    if kek != [] { assert Reads(fd, limit, found[Given(pk != [])], vars[Given(pk != [])]); }
    if dbs != [] { assert Reads(fd, limit, found[|vars| - 1], vars[|vars| - 1]); }
  }

  /** The allowed-signature variable holds every certificate given. */
  lemma DatabaseHoldsEvery(pk: seq<byte>, kek: seq<byte>, dbs: seq<seq<byte>>)
    requires dbs != [] && Listable(dbs)
    ensures var vars := KeyVariables(pk, kek, dbs);
            vars[|vars| - 1].name == "db" && ReadLists(vars[|vars| - 1].data) == Some(dbs)
  {
    ListsRoundTrip(dbs);
  }
}
