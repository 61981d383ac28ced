/** Long file names on a FAT volume: cut into 13-unit directory records tied to
    the short name by a checksum, and put together again. */
module LongNames {
  import opened Bytes

  /** UTF-16 code units, a surrogate pair for a character beyond the basic plane. */
  function Units(name: string): (r: seq<nat>)
    ensures forall i | 0 <= i < |r| :: r[i] < 0x1_0000
    ensures |name| <= |r| <= 2 * |name|
  {
    if name == "" then []
    else
      var c := name[0] as int;
      (if c < 0x1_0000 then [c]
       else [0xD800 + (c - 0x1_0000) / 0x400, 0xDC00 + (c - 0x1_0000) % 0x400]) + Units(name[1..])
  }

  /** UTF-16 back to characters; anything that is not UTF-16 ends the name. */
  function FromUnits(u: seq<nat>): (r: string)
  {
    if u == [] || u[0] >= 0x1_0000 then ""
    else if u[0] < 0xD800 || u[0] >= 0xE000 then [u[0] as char] + FromUnits(u[1..])
    else if |u| >= 2 && u[0] < 0xDC00 && 0xDC00 <= u[1] < 0xE000 then
      [(0x1_0000 + (u[0] - 0xD800) * 0x400 + (u[1] - 0xDC00)) as char] + FromUnits(u[2..])
    else ""
  }

  lemma {:induction false} UnitsRoundTrip(name: string)
    ensures FromUnits(Units(name)) == name
  {
    if name == "" {
    } else {
      UnitsRoundTrip(name[1..]);
      var c, u, rest := name[0] as int, Units(name), Units(name[1..]);
      if c < 0x1_0000 {
        assert u[1..] == rest;
      } else {
        assert u[2..] == rest;
      }
      assert name == [name[0]] + name[1..];
    }
  }

  predicate Bmp(name: string) {
    forall i | 0 <= i < |name| :: name[i] as int < 0x1_0000
  }

  lemma {:induction false} BmpUnits(name: string)
    requires Bmp(name)
    ensures |Units(name)| == |name|
  {
    if name == "" {
    } else {
      BmpUnits(name[1..]);
    }
  }

  function Rotate(s: byte): (r: byte) {
    s % 2 * 128 + s / 2
  }

  function ChecksumFrom(s: byte, short: seq<byte>): (r: byte)
    decreases |short|
  {
    if short == [] then s else ChecksumFrom((Rotate(s) + short[0]) % 256, short[1..])
  }

  lemma RotateInjective(s: byte, t: byte)
    requires s != t
    ensures Rotate(s) != Rotate(t)
  {
  }

  lemma SumInjective(a: byte, b: byte, c: byte)
    requires a != b
    ensures (a + c) % 256 != (b + c) % 256
  {
  }

  lemma {:induction false} ChecksumInjectiveInSum(s: byte, t: byte, short: seq<byte>)
    requires s != t
    ensures ChecksumFrom(s, short) != ChecksumFrom(t, short)
    decreases |short|
  {
    hide Rotate;
    if short == [] {
    } else {
      RotateInjective(s, t);
      SumInjective(Rotate(s), Rotate(t), short[0]);
      ChecksumInjectiveInSum((Rotate(s) + short[0]) % 256, (Rotate(t) + short[0]) % 256, short[1..]);
    }
  }

  /** Changing one byte of a short name always changes its checksum. */
  lemma {:induction false} ChecksumDetectsOneByte(s: byte, short: seq<byte>, i: nat, b: byte)
    requires i < |short| && short[i] != b
    ensures ChecksumFrom(s, short) != ChecksumFrom(s, short[i := b])
    decreases |short|
  {
    hide Rotate;
    if i == 0 {
      assert short[0 := b][1..] == short[1..];
      SumInjective(short[0], b, Rotate(s));
      ChecksumInjectiveInSum((Rotate(s) + short[0]) % 256, (Rotate(s) + b) % 256, short[1..]);
    } else {
      assert short[i := b][1..] == short[1..][i - 1 := b];
      ChecksumDetectsOneByte((Rotate(s) + short[0]) % 256, short[1..], i - 1, b);
    }
  }

  method LfnChecksum(short11: seq<byte>) returns (sum: byte)
    ensures sum == ChecksumFrom(0, short11)
  {
    sum := 0;
    for i := 0 to |short11|
      invariant ChecksumFrom(0, short11) == ChecksumFrom(sum, short11[i..])
    {
      sum := (Rotate(sum) + short11[i]) % 256;
      assert short11[i..][1..] == short11[i + 1..];
    }
  }

  const ATTR_LFN: byte := 0x0F

  /** The name's units, a terminator, then padding to whole records of thirteen. */
  function LongUnits(name: string): (r: seq<nat>)
    ensures |r| == 13 * LongCount(name)
    ensures forall i | 0 <= i < |r| :: r[i] < 0x1_0000
    ensures r[..|Units(name)|] == Units(name) && r[|Units(name)|] == 0
  {
    var body := Units(name) + [0];
    body + seq(13 * LongCount(name) - |body|, _ => 0xFFFF)
  }

  function LongCount(name: string): (r: nat)
    ensures |Units(name)| < 13 * r <= |Units(name)| + 13
  {
    (|Units(name)| + 13) / 13
  }

  function Le16s(units: seq<nat>): (r: seq<byte>)
    ensures |r| == 2 * |units|
  {
    if units == [] then [] else Le(units[0], 2) + Le16s(units[1..])
  }

  /** One long-name record: order byte, five units, attribute and checksum, six
      units, a zero cluster, two units. */
  function LongRecord(order: byte, piece: seq<nat>, sum: byte): (r: seq<byte>)
    requires |piece| == 13
    ensures |r| == 32 && r[0] == order && r[11] == ATTR_LFN && r[12] == 0 && r[13] == sum && r[26] == r[27] == 0
  {
    var a, b, c := Le16s(piece[..5]), Le16s(piece[5..11]), Le16s(piece[11..]);
    FlattenSix([order], a, [ATTR_LFN, 0, sum], b, [0, 0], c);
    Flatten([[order], a, [ATTR_LFN, 0, sum], b, [0, 0], c])
  }

  const MAX_UNITS := 255

  predicate NameFits(name: string) {
    |Units(name)| <= MAX_UNITS
  }

  predicate PieceOk(piece: seq<nat>) {
    |piece| == 13 && forall i | 0 <= i < 13 :: piece[i] < 0x1_0000
  }

  /** Cut into thirteens. */
  function Pieces(units: seq<nat>): (r: seq<seq<nat>>)
    requires |units| % 13 == 0 && forall i | 0 <= i < |units| :: units[i] < 0x1_0000
    ensures 13 * |r| == |units|
    ensures forall i | 0 <= i < |r| :: PieceOk(r[i])
  {
    if units == [] then [] else [units[..13]] + Pieces(units[13..])
  }

  function Joined(pieces: seq<seq<nat>>): (r: seq<nat>) {
    if pieces == [] then [] else pieces[0] + Joined(pieces[1..])
  }

  lemma {:induction false} JoinedPieces(units: seq<nat>)
    requires |units| % 13 == 0 && forall i | 0 <= i < |units| :: units[i] < 0x1_0000
    ensures Joined(Pieces(units)) == units
  {
    if units == [] {
    } else {
      JoinedPieces(units[13..]);
      assert Pieces(units)[1..] == Pieces(units[13..]);
      assert units == units[..13] + units[13..];
    }
  }

  ghost predicate PiecesOk(pieces: seq<seq<nat>>) {
    |pieces| <= 20 && forall i | 0 <= i < |pieces| :: PieceOk(pieces[i])
  }

  /** The order byte: the sequence number, and a flag on the last piece. */
  function Order(seqno: nat, count: nat): (r: byte)
    requires 1 <= seqno <= count <= 20
    ensures 0 < r < 0x80 && r % 0x40 == seqno && (r >= 0x40 <==> seqno == count)
  {
    if seqno == count then seqno + 0x40 else seqno
  }

  function NthRecord(pieces: seq<seq<nat>>, sum: byte, seqno: nat): (r: seq<byte>)
    requires PiecesOk(pieces) && 1 <= seqno <= |pieces|
    ensures |r| == 32 && r[0] == Order(seqno, |pieces|) && r[11] == ATTR_LFN && r[13] == sum && r[12] == r[26] == r[27] == 0
  {
    LongRecord(Order(seqno, |pieces|), pieces[seqno - 1], sum)
  }

  /** Records `seqno` down to 1: on disk the last piece comes first. */
  function RecordsFrom(pieces: seq<seq<nat>>, sum: byte, seqno: nat): (r: seq<seq<byte>>)
    requires PiecesOk(pieces) && seqno <= |pieces|
    ensures |r| == seqno && Sized(r)
  {
    if seqno == 0 then []
    else [NthRecord(pieces, sum, seqno)] + RecordsFrom(pieces, sum, seqno - 1)
  }

  function NamePieces(name: string): (r: seq<seq<nat>>)
    requires NameFits(name)
    ensures PiecesOk(r) && |r| == LongCount(name)
  {
    Pieces(LongUnits(name))
  }

  function LongEntries(name: string, short11: seq<byte>): (r: seq<seq<byte>>)
    requires NameFits(name)
    ensures |r| == LongCount(name) && Sized(r)
  {
    RecordsFrom(NamePieces(name), ChecksumFrom(0, short11), LongCount(name))
  }

  /** What a reader that only wants short names relies on to step over a record,
      the tie to the short name that follows, and no type and no cluster. */
  predicate LongShape(rec: seq<byte>, sum: byte) {
    && |rec| == 32 && 0 < rec[0] < 0x80 && rec[11] == 0x0F && rec[13] == sum
    && rec[12] == 0 && rec[26] == 0 && rec[27] == 0
  }

  lemma NthShape(pieces: seq<seq<nat>>, sum: byte, seqno: nat)
    requires PiecesOk(pieces) && 1 <= seqno <= |pieces|
    ensures LongShape(NthRecord(pieces, sum, seqno), sum)
  {
    hide LongRecord;
  }

  lemma {:induction false} RecordsShape(pieces: seq<seq<nat>>, sum: byte, seqno: nat, i: nat)
    requires PiecesOk(pieces) && i < seqno <= |pieces|
    ensures LongShape(RecordsFrom(pieces, sum, seqno)[i], sum)
  {
    hide LongShape, NthRecord, PiecesOk;
    if i == 0 {
      NthShape(pieces, sum, seqno);
    } else {
      RecordsShape(pieces, sum, seqno - 1, i - 1);
    }
  }

  method PadUnits(name: string) returns (chars: seq<nat>)
    ensures chars == LongUnits(name)
  {
    chars := Units(name) + [0];
    while |chars| % 13 != 0
      invariant |Units(name)| < |chars| <= 13 * LongCount(name)
      invariant chars == LongUnits(name)[..|chars|]
      decreases 13 * LongCount(name) - |chars|
    {
      assert LongUnits(name)[..|chars| + 1] == LongUnits(name)[..|chars|] + [0xFFFF];
      chars := chars + [0xFFFF];
    }
    assert |chars| == 13 * LongCount(name);
    assert LongUnits(name)[..|chars|] == LongUnits(name);
  }

  /** The writer: pad, cut into pieces, emit by rising number, reverse. */
  method LfnEntries(name: string, short11: seq<byte>) returns (out: seq<seq<byte>>)
    requires NameFits(name)
    ensures out == LongEntries(name, short11)
  {
    var chars := PadUnits(name);
    var pieces := Pieces(chars);
    assert pieces == NamePieces(name);
    var sum := LfnChecksum(short11);
    out := EmitRecords(pieces, sum);
  }

  method EmitRecords(pieces: seq<seq<nat>>, sum: byte) returns (out: seq<seq<byte>>)
    requires PiecesOk(pieces)
    ensures out == RecordsFrom(pieces, sum, |pieces|)
  {
    out := [];
    for i := 0 to |pieces|
      invariant out == RecordsFrom(pieces, sum, i)
    {
      out := [LongRecord(Order(i + 1, |pieces|), pieces[i], sum)] + out;
    }
  }

  // ---- reading a long name back, by the rules of the specification ------------------------------

  function UnitsAt(rec: seq<byte>, off: nat, n: nat): (r: seq<nat>)
    requires off + 2 * n <= |rec|
    ensures |r| == n
    decreases n
  {
    if n == 0 then [] else [UnLe(rec[off..off + 2])] + UnitsAt(rec, off + 2, n - 1)
  }

  /** The thirteen units a long-name record carries. */
  function PieceOf(rec: seq<byte>): (r: seq<nat>)
    requires |rec| == 32
  {
    UnitsAt(rec, 1, 5) + UnitsAt(rec, 14, 6) + UnitsAt(rec, 28, 2)
  }

  predicate Sized(recs: seq<seq<byte>>) {
    forall i | 0 <= i < |recs| :: |recs[i]| == 32
  }

  function WithNumber(recs: seq<seq<byte>>, seqno: nat): (r: Option<seq<byte>>)
    requires Sized(recs)
    ensures r.Some? ==> |r.value| == 32
  {
    if recs == [] then None
    else if recs[0][0] % 0x40 == seqno then Some(recs[0])
    else WithNumber(recs[1..], seqno)
  }

  /** Pieces by ascending sequence number, wherever they lie. */
  function Assemble(recs: seq<seq<byte>>, seqno: nat): (r: seq<nat>)
    requires Sized(recs)
    decreases 0x40 - seqno
  {
    match WithNumber(recs, seqno)
    case None => []
    case Some(rec) => PieceOf(rec) + if seqno < 0x40 then Assemble(recs, seqno + 1) else []
  }

  function UntilNul(units: seq<nat>): (r: seq<nat>)
  {
    if units == [] || units[0] == 0 then [] else [units[0]] + UntilNul(units[1..])
  }

  /** The long name a run of records spells. */
  function ReadLongName(recs: seq<seq<byte>>): (r: string)
    requires Sized(recs)
  {
    FromUnits(UntilNul(Assemble(recs, 1)))
  }

  lemma {:induction false} UnitsOfSegment(rec: seq<byte>, at: nat, piece: seq<nat>)
    requires at + 2 * |piece| <= |rec| && rec[at..at + 2 * |piece|] == Le16s(piece)
    requires forall i | 0 <= i < |piece| :: piece[i] < 0x1_0000
    ensures UnitsAt(rec, at, |piece|) == piece
    decreases piece
  {
    if piece == [] {
    } else {
      Widths();
      LeRoundTrip(piece[0], 2);
      SegmentStep(rec, at, piece);
      UnitsOfSegment(rec, at + 2, piece[1..]);
    }
  }

  lemma SegmentStep(rec: seq<byte>, at: nat, piece: seq<nat>)
    requires piece != [] && at + 2 * |piece| <= |rec| && rec[at..at + 2 * |piece|] == Le16s(piece)
    ensures rec[at..at + 2] == Le(piece[0], 2)
    ensures rec[at + 2..at + 2 + 2 * |piece[1..]|] == Le16s(piece[1..])
  {
    hide Le;
    var whole, first, rest := rec[at..at + 2 * |piece|], Le(piece[0], 2), Le16s(piece[1..]);
    assert whole == first + rest;
    assert rec[at..at + 2] == whole[..2] == first;
    assert rec[at + 2..at + 2 + 2 * |piece[1..]|] == whole[2..] == rest;
  }

  /** Writing a piece and taking it out of the record again gives the piece. */
  lemma PieceRoundTrip(order: byte, piece: seq<nat>, sum: byte)
    requires PieceOk(piece)
    ensures PieceOf(LongRecord(order, piece, sum)) == piece
  {
    hide Le16s, UnitsAt, Flatten;
    var rec := LongRecord(order, piece, sum);
    var x, y, z := piece[..5], piece[5..11], piece[11..];
    FlattenSix([order], Le16s(x), [ATTR_LFN, 0, sum], Le16s(y), [0, 0], Le16s(z));
    RecordLayout(order, Le16s(x), [ATTR_LFN, 0, sum], Le16s(y), Le16s(z));
    UnitsOfSegment(rec, 1, x);
    UnitsOfSegment(rec, 14, y);
    UnitsOfSegment(rec, 28, z);
    assert piece == x + y + z;
  }

  lemma RecordLayout(order: byte, x: seq<byte>, m: seq<byte>, y: seq<byte>, z: seq<byte>)
    requires |x| == 10 && |m| == 3 && |y| == 12 && |z| == 4
    ensures var rec := [order] + x + m + y + [0, 0] + z;
            rec[1..11] == x && rec[14..26] == y && rec[28..32] == z
  {
  }

  lemma {:induction false} NumberFound(pieces: seq<seq<nat>>, sum: byte, top: nat, seqno: nat)
    requires PiecesOk(pieces) && 1 <= seqno <= top <= |pieces|
    ensures WithNumber(RecordsFrom(pieces, sum, top), seqno) == Some(NthRecord(pieces, sum, seqno))
  {
    WithNumberStep(NthRecord(pieces, sum, top), RecordsFrom(pieces, sum, top - 1), seqno);
    if seqno >= top {
    } else {
      NumberFound(pieces, sum, top - 1, seqno);
    }
  }

  lemma {:induction false} NumberAbsent(pieces: seq<seq<nat>>, sum: byte, top: nat, seqno: nat)
    requires PiecesOk(pieces) && top <= |pieces| && (seqno == 0 || top < seqno)
    ensures WithNumber(RecordsFrom(pieces, sum, top), seqno) == None
  {
    if top == 0 {
    } else {
      NumberAbsent(pieces, sum, top - 1, seqno);
      WithNumberStep(NthRecord(pieces, sum, top), RecordsFrom(pieces, sum, top - 1), seqno);
    }
  }

  lemma WithNumberStep(rec: seq<byte>, rest: seq<seq<byte>>, seqno: nat)
    requires |rec| == 32 && Sized(rest)
    ensures Sized([rec] + rest)
    ensures WithNumber([rec] + rest, seqno) ==
            if rec[0] % 0x40 == seqno then Some(rec) else WithNumber(rest, seqno)
  {
    assert ([rec] + rest)[1..] == rest;
  }

  lemma {:induction false} AssembleFrom(pieces: seq<seq<nat>>, sum: byte, seqno: nat)
    requires PiecesOk(pieces) && 1 <= seqno <= |pieces| + 1
    ensures Assemble(RecordsFrom(pieces, sum, |pieces|), seqno) == Joined(pieces[seqno - 1..])
    decreases |pieces| + 1 - seqno
  {
    if seqno > |pieces| {
      NumberAbsent(pieces, sum, |pieces|, seqno);
    } else {
      NumberFound(pieces, sum, |pieces|, seqno);
      AssembleFrom(pieces, sum, seqno + 1);
      PieceRoundTrip(Order(seqno, |pieces|), pieces[seqno - 1], sum);
      assert pieces[seqno - 1..][1..] == pieces[seqno..];
    }
  }

  lemma {:induction false} UntilNulStops(body: seq<nat>, rest: seq<nat>)
    requires 0 !in body
    ensures UntilNul(body + [0] + rest) == body
  {
    if body != [] {
      assert body[0] in body;
      UntilNulStops(body[1..], rest);
      assert (body + [0] + rest)[1..] == body[1..] + [0] + rest;
    } else {
      assert (body + [0] + rest)[0] == 0;
    }
  }

  lemma {:induction false} NoNulUnit(name: string)
    requires '\0' !in name
    ensures 0 !in Units(name)
  {
    if name == "" {
    } else {
      assert name[0] in name;
      NoNulUnit(name[1..]);
    }
  }

  lemma AssembleAll(pieces: seq<seq<nat>>, sum: byte)
    requires PiecesOk(pieces)
    ensures Assemble(RecordsFrom(pieces, sum, |pieces|), 1) == Joined(pieces)
  {
    AssembleFrom(pieces, sum, 1);
    assert pieces[0..] == pieces;
  }

  lemma AssembledUnits(units: seq<nat>, sum: byte)
    requires |units| % 13 == 0 && |units| <= 13 * 20
    requires forall i | 0 <= i < |units| :: units[i] < 0x1_0000
    ensures Assemble(RecordsFrom(Pieces(units), sum, |Pieces(units)|), 1) == units
  {
    AssembleAll(Pieces(units), sum);
    JoinedPieces(units);
  }

  /** The records of a name, taken by sequence number up to the terminator, spell
      the name. */
  lemma LongNameRoundTrip(name: string, short11: seq<byte>)
    requires NameFits(name) && '\0' !in name
    ensures ReadLongName(LongEntries(name, short11)) == name
  {
    AssembledUnits(LongUnits(name), ChecksumFrom(0, short11));
    NoNulUnit(name);
    AllUnits(name);
    UntilNulStops(Units(name), LongUnits(name)[|Units(name)| + 1..]);
    UnitsRoundTrip(name);
  }

  /** The units of a name, one zero, and then only the padding value. */
  predicate Padded(all: seq<nat>, body: seq<nat>) {
    && |body| < |all| <= |body| + 13 && all[..|body|] == body && all[|body|] == 0
    && forall k | |body| < k < |all| :: all[k] == 0xFFFF
  }

  /** Every record carries the short name's checksum, the record that comes first on disk is
      the one flagged as last, and behind the name they hold a zero and the padding value. */
  lemma LongEntriesShape(name: string, short11: seq<byte>)
    requires NameFits(name)
    ensures forall i | 0 <= i < LongCount(name) ::
              LongShape(LongEntries(name, short11)[i], ChecksumFrom(0, short11))
    ensures LongEntries(name, short11)[0][0] == LongCount(name) + 0x40
    ensures Padded(Assemble(LongEntries(name, short11), 1), Units(name))
  {
    AssembledUnits(LongUnits(name), ChecksumFrom(0, short11));
    var sum, pieces := ChecksumFrom(0, short11), NamePieces(name);
    forall i | 0 <= i < LongCount(name) ensures LongShape(LongEntries(name, short11)[i], sum) {
      RecordsShape(pieces, sum, LongCount(name), i);
    }
  }

  lemma AllUnits(name: string)
    ensures LongUnits(name) == Units(name) + [0] + LongUnits(name)[|Units(name)| + 1..]
  {
    var all, body := LongUnits(name), Units(name);
    assert all == all[..|body|] + [all[|body|]] + all[|body| + 1..];
  }

  lemma ChecksumNext(sum: byte, s: seq<byte>, next: byte, rest: seq<byte>)
    requires s != [] && s[1..] == rest && next == (sum % 2 * 128 + sum / 2 + s[0]) % 256
    ensures ChecksumFrom(sum, s) == ChecksumFrom(next, rest)
  {
  }

  lemma ChecksumEnds(sum: byte)
    ensures ChecksumFrom(sum, []) == sum
  {
  }

  lemma ConfigFirst(rest: seq<byte>)
    ensures ChecksumFrom(0x00, [0x43, 0x4F, 0x4E, 0x46] + rest) == ChecksumFrom(0xA9, rest)
  {
    hide ChecksumFrom;
    ChecksumNext(0x00, [0x43, 0x4F, 0x4E, 0x46] + rest, 0x43, [0x4F, 0x4E, 0x46] + rest);
    ChecksumNext(0x43, [0x4F, 0x4E, 0x46] + rest, 0xF0, [0x4E, 0x46] + rest);
    ChecksumNext(0xF0, [0x4E, 0x46] + rest, 0xC6, [0x46] + rest);
    ChecksumNext(0xC6, [0x46] + rest, 0xA9, rest);
  }

  lemma ConfigSecond(rest: seq<byte>)
    ensures ChecksumFrom(0xA9, [0x49, 0x47, 0x7E, 0x31] + rest) == ChecksumFrom(0x65, rest)
  {
    hide ChecksumFrom;
    ChecksumNext(0xA9, [0x49, 0x47, 0x7E, 0x31] + rest, 0x1D, [0x47, 0x7E, 0x31] + rest);
    ChecksumNext(0x1D, [0x47, 0x7E, 0x31] + rest, 0xD5, [0x7E, 0x31] + rest);
    ChecksumNext(0xD5, [0x7E, 0x31] + rest, 0x68, [0x31] + rest);
    ChecksumNext(0x68, [0x31] + rest, 0x65, rest);
  }

  lemma ConfigThird(rest: seq<byte>)
    ensures ChecksumFrom(0x65, [0x54, 0x58, 0x54] + rest) == ChecksumFrom(0x01, rest)
  {
    hide ChecksumFrom;
    ChecksumNext(0x65, [0x54, 0x58, 0x54] + rest, 0x06, [0x58, 0x54] + rest);
    ChecksumNext(0x06, [0x58, 0x54] + rest, 0x5B, [0x54] + rest);
    ChecksumNext(0x5B, [0x54] + rest, 0x01, rest);
  }

  /** The checksum of `CONFIG~1TXT`, worked out byte by byte. */
  lemma ConfigChecksum()
    ensures ChecksumFrom(0, [0x43, 0x4F, 0x4E, 0x46] + [0x49, 0x47, 0x7E, 0x31] + [0x54, 0x58, 0x54]) == 0x01
  {
    hide ChecksumFrom;
    var a, b, c: seq<byte> := [0x43, 0x4F, 0x4E, 0x46], [0x49, 0x47, 0x7E, 0x31], [0x54, 0x58, 0x54];
    assert a + b + c == a + (b + c) && c + [] == c;
    ConfigFirst(b + c);
    ConfigSecond(c);
    ConfigThird([]);
    ChecksumEnds(0x01);
  }
}
