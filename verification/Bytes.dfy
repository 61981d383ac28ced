/** Byte strings, fixed-width integers in either byte order, and in-place slice
    assignment: the vocabulary shared by every on-disk format in this project. */
module Bytes {

  type byte = n: int | 0 <= n < 256

  datatype Option<+T> = None | Some(value: T)

  function Zeros(n: nat): (r: seq<byte>)
    ensures |r| == n
    ensures forall i | 0 <= i < n :: r[i] == 0
  {
    seq(n, _ => 0)
  }

  function Max(a: int, b: int): (r: int)
    ensures r >= a && r >= b && (r == a || r == b)
  {
    if a < b then b else a
  }

  // ---- fixed-width integers -------------------------------------------------

  function Pow256(k: nat): (r: nat)
    ensures r >= 1
  {
    if k == 0 then 1 else 256 * Pow256(k - 1)
  }

  /** The `k` low-order bytes of `n`, least significant first. */
  function Le(n: nat, k: nat): (r: seq<byte>)
    ensures |r| == k
    decreases k
  {
    if k == 0 then [] else [n % 256] + Le(n / 256, k - 1)
  }

  function UnLe(s: seq<byte>): (r: nat)
    ensures r < Pow256(|s|)
  {
    if s == [] then 0 else s[0] + 256 * UnLe(s[1..])
  }

  /** A value that fits its field is read back unchanged. */
  lemma {:induction false} LeRoundTrip(n: nat, k: nat)
    requires n < Pow256(k)
    ensures UnLe(Le(n, k)) == n
    decreases k
  {
    if k == 0 {
    } else {
      LeRoundTrip(n / 256, k - 1);
      assert Le(n, k)[1..] == Le(n / 256, k - 1);
    }
  }

  lemma {:induction false} UnLeRoundTrip(s: seq<byte>)
    ensures Le(UnLe(s), |s|) == s
  {
    if s == [] {
    } else {
      UnLeRoundTrip(s[1..]);
      assert UnLe(s) / 256 == UnLe(s[1..]) && UnLe(s) % 256 == s[0];
    }
  }

  lemma Widths()
    ensures Pow256(1) == 0x100 && Pow256(2) == 0x1_0000
    ensures Pow256(4) == 0x1_0000_0000 && Pow256(8) == 0x1_0000_0000_0000_0000
  {
    assert Pow256(0) == 1;
    assert Pow256(3) == 0x100_0000;
    assert Pow256(5) == 0x100_0000_0000;
    assert Pow256(6) == 0x1_0000_0000_0000;
    assert Pow256(7) == 0x100_0000_0000_0000;
  }

  // ---- reading and writing at an offset --------------------------------------

  /** `buf[off:off+len(data)] = data` on a buffer that has room for it. */
  function Splice<T>(buf: seq<T>, off: nat, data: seq<T>): (r: seq<T>)
    requires off + |data| <= |buf|
    ensures |r| == |buf|
    ensures forall k | 0 <= k < |buf| ::
              r[k] == if off <= k < off + |data| then data[k - off] else buf[k]
    ensures r[off..off + |data|] == data
  {
    buf[..off] + data + buf[off + |data|..]
  }

  function Get(s: seq<byte>, off: nat, k: nat): (r: nat)
    requires off + k <= |s|
    ensures r < Pow256(k)
  {
    UnLe(s[off..off + k])
  }

  /** A slice of the whole determines every field inside it. */
  lemma GetInside(s: seq<byte>, part: seq<byte>, at: nat, off: nat, k: nat)
    requires at + |part| <= |s| && s[at..at + |part|] == part
    requires off + k <= |part|
    ensures Get(s, at + off, k) == Get(part, off, k)
  {
    var x, y := s[at + off..at + off + k], part[off..off + k];
    assert forall i | 0 <= i < k :: x[i] == s[at..at + |part|][off + i] && y[i] == part[off + i];
    assert x == y;
  }

  /** Python's `s[i:j]` for non-negative bounds: both are clipped to the length. */
  function Slice(s: seq<byte>, i: nat, j: nat): (r: seq<byte>)
    ensures i <= j <= |s| ==> r == s[i..j]
    ensures j >= i ==> |r| <= j - i
  {
    var hi := if j < |s| then j else |s|;
    if i <= hi then s[i..hi] else []
  }

  // ---- concatenating records --------------------------------------------------

  function Flatten(parts: seq<seq<byte>>): (r: seq<byte>)
  {
    if parts == [] then [] else parts[0] + Flatten(parts[1..])
  }

  lemma {:induction false} FlattenAppend(a: seq<seq<byte>>, b: seq<seq<byte>>)
    ensures Flatten(a + b) == Flatten(a) + Flatten(b)
  {
    if a == [] {
      assert a + b == b;
    } else {
      FlattenAppend(a[1..], b);
      assert a + b == [a[0]] + (a[1..] + b);
      FlattenOne(a[0], a[1..] + b);
      FlattenOne(a[0], a[1..]);
      assert a == [a[0]] + a[1..];
      assert (a[0] + Flatten(a[1..])) + Flatten(b) == a[0] + (Flatten(a[1..]) + Flatten(b));
    }
  }

  lemma FlattenOne(a: seq<byte>, rest: seq<seq<byte>>)
    ensures Flatten([a] + rest) == a + Flatten(rest)
  {
    assert ([a] + rest)[1..] == rest;
  }

  lemma FlattenSix(a: seq<byte>, b: seq<byte>, c: seq<byte>, d: seq<byte>, e: seq<byte>, f: seq<byte>)
    ensures Flatten([a, b, c, d, e, f]) == a + b + c + d + e + f
  {
    assert [a, b, c, d, e, f] == [a] + [b, c, d, e, f];
    FlattenOne(a, [b, c, d, e, f]);
    assert [b, c, d, e, f] == [b] + [c, d, e, f];
    FlattenOne(b, [c, d, e, f]);
    assert [c, d, e, f] == [c] + [d, e, f];
    FlattenOne(c, [d, e, f]);
    assert [d, e, f] == [d] + [e, f];
    FlattenOne(d, [e, f]);
    assert [e, f] == [e] + [f];
    FlattenOne(e, [f]);
    assert [f] == [f] + [];
    FlattenOne(f, []);
  }
}
