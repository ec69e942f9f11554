/** Length-prefixed strings and multiple-precision integers, as values
    (bufaux.cpp and bufbn.cpp; section 5 of RFC 4251). */
module Wire {
  import opened Bytes

  /** The longest string `buffer_get_string_ret` accepts. */
  const MAX_STRING: int := 256 * 1024

  /** What reading from a buffer can do besides succeeding: come back with an
      error, or end the process through `fatal`. */
  datatype Read<+T> = Got(value: T, rest: seq<Byte>) | Refused(rest: seq<Byte>) | Fatal

  function PutString(s: seq<Byte>): (w: seq<Byte>)
    requires |s| < TWO32
  {
    PutU32(|s|) + s
  }

  /** `buffer_get_string_ret`: a missing length is fatal, a length over 256K or
      past the end is refused with the four length bytes already consumed. */
  function GetString(w: seq<Byte>): (r: Read<seq<Byte>>)
  {
    if |w| < 4 then Fatal
    else
      var len, rest := GetU32(w), w[4..];
      if len > MAX_STRING || len > |rest| then Refused(rest)
      else Got(rest[..len], rest[len..])
  }

  /** Reading gives a written string back, and what followed it, exactly when
      the string is within the reader's bound. */
  lemma StringRoundTrip(s: seq<Byte>, rest: seq<Byte>)
    requires |s| < TWO32
    ensures GetString(PutString(s) + rest)
         == if |s| <= MAX_STRING then Got(s, rest) else Refused(s + rest)
  {
    var w := PutString(s) + rest;
    assert w == PutU32(|s|) + (s + rest);
    GetU32Prefix(PutU32(|s|), s + rest);
    assert w[4..] == s + rest;
    assert (s + rest)[..|s|] == s && (s + rest)[|s|..] == rest;
  }

  /** Whatever is read was written that way: reading never invents a string. */
  lemma StringReadIsWritten(w: seq<Byte>)
    requires GetString(w).Got?
    ensures w == PutString(GetString(w).value) + GetString(w).rest
  {
    var len := GetU32(w);
    PutU32Inverse(w[..4]);
    assert w[..4] + w[4..] == w;
    GetU32Prefix(w[..4], w[4..]);
    assert w == w[..4] + (w[4..][..len] + w[4..][len..]);
  }

  /** Strings on the wire are self-delimiting, at every length. */
  lemma StringPrefixFree(s: seq<Byte>, x: seq<Byte>, t: seq<Byte>, y: seq<Byte>)
    requires |s| < TWO32 && |t| < TWO32
    requires PutString(s) + x == PutString(t) + y
    ensures s == t && x == y
  {
    var w := PutString(s) + x;
    assert w == PutU32(|s|) + (s + x) && w == PutU32(|t|) + (t + y);
    GetU32Prefix(PutU32(|s|), s + x);
    GetU32Prefix(PutU32(|t|), t + y);
    assert w[4..] == s + x == t + y;
    assert (s + x)[..|s|] == s && (t + y)[..|t|] == t;
    assert (s + x)[|s|..] == x && (t + y)[|t|..] == y;
  }

  // ---------------------------------------------------------------- mpints

  /** The longest encoding `buffer_get_bignum2_ret` accepts, in bytes. */
  const MAX_BIGNUM: int := 8 * 1024

  /** `BN_bn2bin`: the shortest big-endian form. */
  function MinBytes(n: nat): (s: seq<Byte>)
    ensures BigEndian(s) == n
    ensures s != [] ==> s[0] != 0
  {
    if n == 0 then [] else
      var hi := MinBytes(n / 256);
      assert (hi + [n % 256])[..|hi|] == hi;
      hi + [n % 256]
  }

  /** The body of the string `buffer_put_bignum2_ret` writes. */
  function EncodeMpint(n: nat): (s: seq<Byte>)
  {
    if n == 0 then [] else
      var buf := [0] + MinBytes(n);
      var hasNoHigh := if buf[1] >= 0x80 then 0 else 1;
      buf[hasNoHigh..]
  }

  /** `buffer_get_bignum2_ret` on a string body: a set top bit would be a
      negative number, and longer than 8192 bytes is not handled. */
  function DecodeMpint(s: seq<Byte>): (n: Read<nat>)
  {
    if s != [] && s[0] >= 0x80 then Refused([])
    else if |s| > MAX_BIGNUM then Refused([])
    else Got(BigEndian(s), [])
  }

  /** A body for a non-negative number: the top bit is clear. */
  predicate NonNegative(s: seq<Byte>) {
    s != [] ==> s[0] < 0x80
  }

  lemma EncodeMpintValue(n: nat)
    ensures BigEndian(EncodeMpint(n)) == n
    ensures NonNegative(EncodeMpint(n))
  {
    if n != 0 {
      var m := MinBytes(n);
      BigEndianHead(0, m);
      assert ([0] + m)[1..] == m;
    }
  }

  lemma {:induction false} Pow256Grows(i: nat, j: nat)
    requires i <= j
    ensures Pow256(i) <= Pow256(j)
    decreases j
  {
    if i < j {
      Pow256Grows(i, j - 1);
    }
  }

  lemma TimesMonotone(a: nat, b: nat, p: nat)
    requires a <= b
    ensures a * p <= b * p
  {
  }

  /** A body with a clear top bit holds less than half of what its length could. */
  lemma NonNegativeBound(s: seq<Byte>)
    requires s != [] && NonNegative(s)
    ensures BigEndian(s) < 128 * Pow256(|s| - 1)
  {
    assert s == [s[0]] + s[1..];
    BigEndianHead(s[0], s[1..]);
    BigEndianBound(s[1..]);
    TimesMonotone(s[0], 127, Pow256(|s| - 1));
  }

  /** The encoding needs every one of its bytes. */
  lemma EncodeMpintTight(n: nat)
    requires n != 0
    ensures |EncodeMpint(n)| >= 1
    ensures |EncodeMpint(n)| >= 2 ==> n >= 128 * Pow256(|EncodeMpint(n)| - 2)
  {
    var m := MinBytes(n);
    assert m == [m[0]] + m[1..];
    BigEndianHead(m[0], m[1..]);
    var e := EncodeMpint(n);
    if m[0] >= 0x80 {
      assert e == [0] + m;
      TimesMonotone(128, m[0], Pow256(|m| - 1));
    } else {
      assert e == m;
      if |m| >= 2 {
        TimesMonotone(1, m[0], Pow256(|m| - 1));
      }
    }
  }

  /** The encoding fits `k` bytes exactly when the number is below 2^(8k-1). */
  lemma EncodeMpintLength(n: nat, k: nat)
    requires k >= 1
    ensures |EncodeMpint(n)| <= k <==> n < 128 * Pow256(k - 1)
  {
    if n != 0 {
      EncodeMpintValue(n);
      EncodeMpintTight(n);
      var e := EncodeMpint(n);
      NonNegativeBound(e);
      if |e| <= k {
        Pow256Grows(|e| - 1, k - 1);
      } else {
        Pow256Grows(k - 1, |e| - 2);
      }
    }
  }

  /** Decoding inverts encoding exactly below 2^(8k-1) for k = 8192; above, it
      refuses. */
  lemma MpintRoundTrip(n: nat, k: nat)
    requires k == MAX_BIGNUM
    ensures DecodeMpint(EncodeMpint(n))
         == if n < 128 * Pow256(k - 1) then Got(n, []) else Refused([])
  {
    EncodeMpintValue(n);
    EncodeMpintLength(n, k);
  }

  /** Section 5 of RFC 4251: no other body of the same number is as short. */
  lemma MpintMinimal(s: seq<Byte>)
    requires NonNegative(s)
    ensures |EncodeMpint(BigEndian(s))| <= |s|
    ensures |EncodeMpint(BigEndian(s))| == |s| <==> EncodeMpint(BigEndian(s)) == s
  {
    var n := BigEndian(s);
    if s != [] {
      NonNegativeBound(s);
      EncodeMpintLength(n, |s|);
      EncodeMpintValue(n);
      if |EncodeMpint(n)| == |s| {
        BigEndianInjective(EncodeMpint(n), s);
      }
    }
  }
}
