/** What a FAT32 boot sector and information sector say, field by field where the format has
    them, apart from how either writer puts them together. */
module FatBoot {
  import opened Bytes
  import opened DiskBytes

  /** The fields in which the two writers differ. */
  datatype Values = Values(perCluster: byte, reserved: nat, track: nat, heads: nat, hidden: nat, sectors: nat,
                           fatSectors: nat, serial: nat, name: seq<byte>)

  predicate Fits(v: Values) {
    && v.reserved < 0x1_0000 && v.track < 0x1_0000 && v.heads < 0x1_0000 && v.hidden < 0x1_0000_0000
    && v.sectors < 0x1_0000_0000 && v.fatSectors < 0x1_0000_0000 && v.serial < 0x1_0000_0000 && |v.name| == 11
  }

  /** "EMBLINK " and "FAT32   ". */
  const OEM_TEXT: seq<byte> := [0x45, 0x4D, 0x42, 0x4C, 0x49, 0x4E, 0x4B, 0x20]
  const TYPE_TEXT: seq<byte> := [0x46, 0x41, 0x54, 0x33, 0x32, 0x20, 0x20, 0x20]

  predicate AllZero(s: seq<byte>, from: nat, end: nat)
    requires end <= |s|
  {
    forall k | from <= k < end :: s[k] == 0
  }

  /** Jump and maker, 512-byte sectors, two FATs, no FAT12 or FAT16 fields, the root at cluster 2,
      FSInfo in sector 1, the backup in sector 6, and the signature. */
  predicate BootIs(bs: seq<byte>, v: Values) {
    && |bs| == 512 && bs[0..3] == [0xEB, 0x58, 0x90] && bs[3..11] == OEM_TEXT
    && Get(bs, 11, 2) == 512 && bs[13] == v.perCluster && Get(bs, 14, 2) == v.reserved && bs[16] == 2
    && MiddleIs(bs, 17, v)
    && Get(bs, 36, 4) == v.fatSectors && AllZero(bs, 40, 44) && Get(bs, 44, 4) == 2
    && TailIs(bs, 48, v)
  }

  /** From the root-entry count on: none, no 16-bit total, fixed disk, no 16-bit FAT size. */
  predicate MiddleIs(s: seq<byte>, at: nat, v: Values) {
    && at + 19 <= |s| && Get(s, at, 2) == 0 && Get(s, at + 2, 2) == 0 && s[at + 4] == 0xF8 && Get(s, at + 5, 2) == 0
    && Get(s, at + 7, 2) == v.track && Get(s, at + 9, 2) == v.heads
    && Get(s, at + 11, 4) == v.hidden && Get(s, at + 15, 4) == v.sectors
  }

  /** From the FSInfo sector number on. */
  predicate TailIs(s: seq<byte>, at: nat, v: Values) {
    && at + 464 <= |s| && Get(s, at, 2) == 1 && Get(s, at + 2, 2) == 6 && AllZero(s, at + 4, at + 16)
    && s[at + 16] == 0x80 && s[at + 17] == 0 && s[at + 18] == 0x29 && Get(s, at + 19, 4) == v.serial
    && s[at + 23..at + 34] == v.name && s[at + 34..at + 42] == TYPE_TEXT
    && AllZero(s, at + 42, at + 462) && s[at + 462..at + 464] == [0x55, 0xAA]
  }

  lemma MiddleFields(m: seq<byte>, v: Values)
    requires Fits(v)
    requires m == Le(0, 2) + Le(0, 2) + [0xF8] + Le(0, 2) + Le(v.track, 2) + Le(v.heads, 2) + Le(v.hidden, 4) + Le(v.sectors, 4)
    ensures |m| == 19 && MiddleIs(m, 0, v)
  {
    hide Le, UnLe, Pow256;
    var z, t, h, d, c := Le(0, 2), Le(v.track, 2), Le(v.heads, 2), Le(v.hidden, 4), Le(v.sectors, 4);
    assert m[0..2] == z && m[2..4] == z && m[5..7] == z && m[7..9] == t && m[9..11] == h;
    assert m[11..15] == d && m[15..19] == c;
    Widths();
    LeRoundTrip(0, 2);
    LeRoundTrip(v.track, 2);
    LeRoundTrip(v.heads, 2);
    LeRoundTrip(v.hidden, 4);
    LeRoundTrip(v.sectors, 4);
  }

  lemma TailFields(t: seq<byte>, v: Values)
    requires Fits(v)
    requires t == Le(1, 2) + Le(6, 2) + Zeros(12) + [0x80, 0, 0x29] + Le(v.serial, 4)
                  + v.name + TYPE_TEXT + Zeros(420) + [0x55, 0xAA]
    ensures |t| == 464 && TailIs(t, 0, v)
  {
    hide Le, UnLe, Pow256;
    var a, b, s := Le(1, 2), Le(6, 2), Le(v.serial, 4);
    assert t[0..2] == a && t[2..4] == b && t[19..23] == s;
    assert t[23..34] == v.name && t[34..42] == TYPE_TEXT && t[462..464] == [0x55, 0xAA];
    Widths();
    LeRoundTrip(1, 2);
    LeRoundTrip(6, 2);
    LeRoundTrip(v.serial, 4);
  }

  lemma MiddleMoves(s: seq<byte>, m: seq<byte>, at: nat, v: Values)
    requires |m| == 19 && MiddleIs(m, 0, v) && at + 19 <= |s| && s[at..at + 19] == m
    ensures MiddleIs(s, at, v)
  {
    hide Get;
    assert s[at + 4] == s[at..at + 19][4];
    GetInside(s, m, at, 0, 2);
    GetInside(s, m, at, 2, 2);
    GetInside(s, m, at, 5, 2);
    GetInside(s, m, at, 7, 2);
    GetInside(s, m, at, 9, 2);
    GetInside(s, m, at, 11, 4);
    GetInside(s, m, at, 15, 4);
  }

  lemma TailMoves(s: seq<byte>, t: seq<byte>, at: nat, v: Values)
    requires |t| == 464 && TailIs(t, 0, v) && at + 464 <= |s| && s[at..at + 464] == t
    ensures TailIs(s, at, v)
  {
    hide Get;
    assert forall k | at <= k < at + 464 :: s[k] == s[at..at + 464][k - at];
    assert s[at + 23..at + 34] == t[23..34] && s[at + 34..at + 42] == t[34..42] && s[at + 462..at + 464] == t[462..464];
    GetInside(s, t, at, 0, 2);
    GetInside(s, t, at, 2, 2);
    GetInside(s, t, at, 19, 4);
  }

  /** The ten parts both writers lay end to end are such a boot sector. */
  lemma PartsAreBoot(p: seq<seq<byte>>, v: Values)
    requires Fits(v) && |p| == 10 && p[0] == [0xEB, 0x58, 0x90] + OEM_TEXT
    requires p[1] == Le(512, 2) && p[2] == [v.perCluster] && p[3] == Le(v.reserved, 2) && p[4] == [2]
    requires |p[5]| == 19 && MiddleIs(p[5], 0, v) && p[6] == Le(v.fatSectors, 4) && p[7] == Zeros(4) && p[8] == Le(2, 4)
    requires |p[9]| == 464 && TailIs(p[9], 0, v)
    ensures BootIs(Flatten(p), v)
  {
    hide Le, UnLe, Pow256, Flatten, MiddleIs, TailIs, TotalLength;
    BootTotals(p);
    var bs := Flatten(p);
    PartAt(p, 0);
    PartAt(p, 2);
    PartAt(p, 4);
    PartAt(p, 5);
    PartAt(p, 7);
    PartAt(p, 9);
    Widths();
    FieldAt(p, 1, 11, 512, 2);
    FieldAt(p, 3, 14, v.reserved, 2);
    FieldAt(p, 6, 36, v.fatSectors, 4);
    FieldAt(p, 8, 44, 2, 4);
    MiddleMoves(bs, p[5], 17, v);
    TailMoves(bs, p[9], 48, v);
    HeadBytes(bs, p);
  }

  lemma HeadBytes(bs: seq<byte>, p: seq<seq<byte>>)
    requires |bs| == 512 && |p| == 10 && p[0] == [0xEB, 0x58, 0x90] + OEM_TEXT && bs[0..11] == p[0]
    requires |p[2]| == 1 && bs[13..14] == p[2] && |p[4]| == 1 && bs[16..17] == p[4] && bs[40..44] == p[7] && p[7] == Zeros(4)
    ensures bs[0..3] == [0xEB, 0x58, 0x90] && bs[3..11] == OEM_TEXT && bs[13] == p[2][0] && bs[16] == p[4][0]
    ensures AllZero(bs, 40, 44)
  {
    assert bs[0..3] == bs[0..11][..3] && bs[3..11] == bs[0..11][3..];
    assert bs[13] == bs[13..14][0] && bs[16] == bs[16..17][0];
    assert forall k | 40 <= k < 44 :: bs[k] == bs[40..44][k - 40];
  }

  /** An information sector: "RRaA", "rrAa" and the closing signature. */
  predicate InfoIs(fs: seq<byte>, free: nat, next: nat) {
    && |fs| == 512 && fs[0..4] == [0x52, 0x52, 0x61, 0x41] && fs[484..488] == [0x72, 0x72, 0x41, 0x61]
    && Get(fs, 488, 4) == free && Get(fs, 492, 4) == next && fs[510..512] == [0x55, 0xAA]
  }

  /** The reserved sectors hold such a boot sector, its information sector and the backup. */
  predicate HeaderIs(img: seq<byte>, v: Values, free: nat, next: nat) {
    |img| >= 7 * 512 && BootIs(img[0..512], v) && InfoIs(img[512..1024], free, next) && BootIs(img[6 * 512..7 * 512], v)
  }
}
