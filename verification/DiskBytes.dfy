/** Where things lie in an image: blobs at offsets, records laid end to end, and the
    FAT as bytes. */
module DiskBytes {
  import opened Bytes

  /** The FAT as bytes, four to an entry. */
  function RawFat(fat: seq<nat>): (r: seq<byte>)
    ensures |r| == 4 * |fat|
  {
    if fat == [] then [] else Le(fat[0], 4) + RawFat(fat[1..])
  }

  lemma {:induction false} RawFatAt(fat: seq<nat>, c: nat)
    requires c < |fat| && fat[c] < 0x1_0000_0000
    ensures UnLe(RawFat(fat)[4 * c..4 * c + 4]) == fat[c]
  {
    hide Le, UnLe, Pow256;
    if c == 0 {
      Widths();
      LeRoundTrip(fat[0], 4);
      assert RawFat(fat)[0..4] == Le(fat[0], 4);
    } else {
      RawFatAt(fat[1..], c - 1);
      var r, rest := RawFat(fat), RawFat(fat[1..]);
      assert r[4..] == rest;
      assert r[4 * c..4 * c + 4] == r[4..][4 * c - 4..4 * c];
    }
  }

  /** `blob` lies at `off`. */
  predicate Has(img: seq<byte>, off: nat, blob: seq<byte>) {
    off + |blob| <= |img| && img[off..off + |blob|] == blob
  }

  lemma HasElsewhere(img: seq<byte>, off: nat, blob: seq<byte>, at: nat, data: seq<byte>)
    requires Has(img, off, blob) && at + |data| <= |img|
    requires at + |data| <= off || off + |blob| <= at
    ensures Has(Splice(img, at, data), off, blob)
  {
    var img' := Splice(img, at, data);
    assert forall k | off <= k < off + |blob| :: img'[k] == img[k];
    assert img'[off..off + |blob|] == img[off..off + |blob|];
  }

  lemma {:induction false} FlattenLength(parts: seq<seq<byte>>)
    ensures |Flatten(parts)| == TotalLength(parts)
  {
    if parts == [] {
    } else {
      FlattenLength(parts[1..]);
    }
  }

  function TotalLength(parts: seq<seq<byte>>): (r: nat) {
    if parts == [] then 0 else |parts[0]| + TotalLength(parts[1..])
  }

  /** Part `k` of a concatenation lies after the parts before it. */
  lemma {:induction false} PartAt(parts: seq<seq<byte>>, k: nat)
    requires k < |parts|
    ensures Has(Flatten(parts), TotalLength(parts[..k]), parts[k])
  {
    if k == 0 {
      assert Flatten(parts)[0..|parts[0]|] == parts[0];
    } else {
      PartAt(parts[1..], k - 1);
      assert parts[..k][1..] == parts[1..][..k - 1];
      var o := TotalLength(parts[1..][..k - 1]);
      assert Flatten(parts)[|parts[0]| + o..|parts[0]| + o + |parts[k]|] == Flatten(parts[1..])[o..o + |parts[k]|];
    }
  }

  lemma {:induction false} TotalSnoc(parts: seq<seq<byte>>, k: nat)
    requires k < |parts|
    ensures TotalLength(parts[..k + 1]) == TotalLength(parts[..k]) + |parts[k]|
  {
    if k == 0 {
      assert parts[..1][1..] == [] && parts[..0] == [];
    } else {
      TotalSnoc(parts[1..], k - 1);
      assert parts[..k + 1][1..] == parts[1..][..k] && parts[..k][1..] == parts[1..][..k - 1];
    }
  }

  lemma FieldAt(parts: seq<seq<byte>>, k: nat, off: nat, n: nat, width: nat)
    requires k < |parts| && TotalLength(parts[..k]) == off
    requires parts[k] == Le(n, width) && n < Pow256(width)
    ensures off + width <= |Flatten(parts)| && Get(Flatten(parts), off, width) == n
  {
    PartAt(parts, k);
    LeRoundTrip(n, width);
  }

  lemma HasWithin(disk: seq<byte>, base: nat, img: seq<byte>, off: nat, n: nat)
    requires Has(disk, base, img) && off + n <= |img|
    ensures base + off + n <= |disk| && disk[base + off..base + off + n] == img[off..off + n]
  {
    assert forall k | 0 <= k < |img| :: disk[base..base + |img|][k] == img[k];
    var x, y := disk[base + off..base + off + n], img[off..off + n];
    assert forall k | 0 <= k < n :: x[k] == disk[base..base + |img|][off + k] && y[k] == img[off + k];
    assert x == y;
  }

  lemma HasSplit(buf: seq<byte>, p: nat, a: seq<byte>, b: seq<byte>)
    requires Has(buf, p, a + b)
    ensures Has(buf, p, a) && Has(buf, p + |a|, b)
  {
    HasWithin(buf, p, a + b, 0, |a|);
    HasWithin(buf, p, a + b, |a|, |b|);
    assert (a + b)[0..|a|] == a && (a + b)[|a|..|a| + |b|] == b;
  }

  /** `buf[off:off+len(data)] = data` on a buffer. */
  method Poke(buf: array<byte>, off: nat, data: seq<byte>)
    requires off + |data| <= buf.Length
    modifies buf
    ensures buf[..] == Splice(old(buf[..]), off, data) && Has(buf[..], off, data)
  {
    forall k | 0 <= k < |data| {
      buf[off + k] := data[k];
    }
  }

  // ---- several writes into one buffer ------------------------------------------------------

  datatype Write = Write(off: nat, blob: seq<byte>)

  /** Every write so far is still there, and none reaches past `limit`. */
  ghost predicate Holding(img: seq<byte>, ws: seq<Write>, limit: nat) {
    forall i | 0 <= i < |ws| :: Has(img, ws[i].off, ws[i].blob) && ws[i].off + |ws[i].blob| <= limit
  }

  lemma HoldingNothing(img: seq<byte>)
    ensures Holding(img, [], 0)
  {
  }

  lemma HoldingAt(img: seq<byte>, ws: seq<Write>, limit: nat, i: nat)
    requires Holding(img, ws, limit) && i < |ws|
    ensures Has(img, ws[i].off, ws[i].blob)
  {
  }

  lemma HoldingStep(img: seq<byte>, img': seq<byte>, ws: seq<Write>, limit: nat, off: nat, data: seq<byte>)
    requires Holding(img, ws, limit) && limit <= off && off + |data| <= |img|
    requires img' == Splice(img, off, data)
    ensures Holding(img', ws + [Write(off, data)], off + |data|)
  {
    var ws' := ws + [Write(off, data)];
    forall i | 0 <= i < |ws'|
      ensures Has(img', ws'[i].off, ws'[i].blob) && ws'[i].off + |ws'[i].blob| <= off + |data|
    {
      if i < |ws| {
        assert ws'[i] == ws[i];
        HasElsewhere(img, ws[i].off, ws[i].blob, off, data);
      }
    }
  }

  /** One more write, beyond the earlier ones. */
  method PokeNext(buf: array<byte>, off: nat, data: seq<byte>, ghost ws: seq<Write>, ghost limit: nat)
    returns (ghost ws': seq<Write>)
    requires limit <= off && off + |data| <= buf.Length && Holding(buf[..], ws, limit)
    modifies buf
    ensures ws' == ws + [Write(off, data)] && Holding(buf[..], ws', off + |data|)
  {
    hide Holding, Has, Splice;
    ghost var was := buf[..];
    Poke(buf, off, data);
    HoldingStep(was, buf[..], ws, limit, off, data);
    ws' := ws + [Write(off, data)];
  }

  /** Where the parts of a FAT32 boot sector start. */
  lemma BootTotals(p: seq<seq<byte>>)
    requires |p| == 10 && |p[0]| == 11 && |p[1]| == 2 && |p[2]| == 1 && |p[3]| == 2 && |p[4]| == 1
    requires |p[5]| == 19 && |p[6]| == 4 && |p[7]| == 4 && |p[8]| == 4 && |p[9]| == 464
    ensures TotalLength(p[..1]) == 11 && TotalLength(p[..2]) == 13 && TotalLength(p[..3]) == 14
    ensures TotalLength(p[..4]) == 16 && TotalLength(p[..6]) == 36 && TotalLength(p[..8]) == 44
    ensures TotalLength(p[..0]) == 0 && TotalLength(p[..5]) == 17 && TotalLength(p[..7]) == 40 && TotalLength(p[..9]) == 48
    ensures |Flatten(p)| == 512
  {
    assert p[..0] == [] && p[..10] == p;
    TotalSnoc(p, 0); TotalSnoc(p, 1); TotalSnoc(p, 2); TotalSnoc(p, 3); TotalSnoc(p, 4);
    TotalSnoc(p, 5); TotalSnoc(p, 6); TotalSnoc(p, 7); TotalSnoc(p, 8); TotalSnoc(p, 9);
    FlattenLength(p);
  }
}
