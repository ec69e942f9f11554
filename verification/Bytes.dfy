/** Bytes and the big-endian integers of misc.cpp. */
module Bytes {

  type Byte = b: int | 0 <= b < 256

  const TWO32: int := 0x1_0000_0000

  /** An unsigned 32-bit value, as `u_int` and `u_int32_t` hold. */
  type U32 = v: int | 0 <= v < 0x1_0000_0000

  function Zeros(n: nat): (z: seq<Byte>)
    ensures |z| == n
  {
    seq(n, _ => 0)
  }

  /** `get_u32`: the first four bytes, most significant first. */
  function GetU32(p: seq<Byte>): (v: U32)
    requires |p| >= 4
  {
    p[0] as int * 0x100_0000 + p[1] as int * 0x1_0000 + p[2] as int * 0x100 + p[3] as int
  }

  /** `put_u32`: four bytes, most significant first. */
  function PutU32(v: U32): (p: seq<Byte>)
    ensures |p| == 4
    ensures GetU32(p) == v
  {
    var hi, lo := v / 0x1_0000, v % 0x1_0000;
    [hi / 256, hi % 256, lo / 256, lo % 256]
  }

  lemma PutU32Inverse(p: seq<Byte>)
    requires |p| == 4
    ensures PutU32(GetU32(p)) == p
  {
    var hi, lo := p[0] as int * 256 + p[1] as int, p[2] as int * 256 + p[3] as int;
    assert GetU32(p) == hi * 0x1_0000 + lo;
    assert GetU32(p) / 0x1_0000 == hi && GetU32(p) % 0x1_0000 == lo;
  }

  /** `get_u32` only looks at the first four bytes. */
  lemma GetU32Prefix(p: seq<Byte>, q: seq<Byte>)
    requires |p| >= 4
    ensures GetU32(p + q) == GetU32(p)
  {
  }

  /** The value of a big-endian byte string of any length. */
  function BigEndian(s: seq<Byte>): (v: nat)
  {
    if s == [] then 0 else 256 * BigEndian(s[..|s| - 1]) + s[|s| - 1]
  }

  function Pow2(width: nat): (p: nat)
    ensures p >= 1
  {
    if width == 0 then 1 else 2 * Pow2(width - 1)
  }

  function Pow256(k: nat): (p: nat)
    ensures p >= 1
  {
    if k == 0 then 1 else 256 * Pow256(k - 1)
  }

  lemma {:induction false} BigEndianBound(s: seq<Byte>)
    ensures BigEndian(s) < Pow256(|s|)
  {
    if s != [] {
      BigEndianBound(s[..|s| - 1]);
    }
  }

  /** Equal length and equal value force equal bytes. */
  lemma {:induction false} BigEndianInjective(s: seq<Byte>, t: seq<Byte>)
    requires |s| == |t|
    requires BigEndian(s) == BigEndian(t)
    ensures s == t
  {
    if s != [] {
      BigEndianInjective(s[..|s| - 1], t[..|t| - 1]);
      assert s == s[..|s| - 1] + [s[|s| - 1]];
      assert t == t[..|t| - 1] + [t[|t| - 1]];
    }
  }

  lemma TimesByte(b: int, p: int)
    ensures 256 * (b * p) == b * (256 * p)
  {
  }

  /** The leading byte weighs 256 to the number of bytes behind it. */
  lemma {:induction false} BigEndianHead(b: Byte, s: seq<Byte>)
    ensures BigEndian([b] + s) == b * Pow256(|s|) + BigEndian(s)
  {
    var t := [b] + s;
    if s == [] {
      assert t[..|t| - 1] == [];
    } else {
      var n := |s|;
      assert t[..|t| - 1] == [b] + s[..n - 1];
      BigEndianHead(b, s[..n - 1]);
      TimesByte(b, Pow256(n - 1));
    }
  }
}
