/** Base64 both ways (section 5.2 of RFC 1521): the encoder, and the decoder as the
    four-state machine it is. */
module Base64 {
  import opened Bytes
  import opened Options

  const PAD: Byte := 61

  type Digit = v: int | 0 <= v < 64

  /** Base64[v]. */
  function Char(v: Digit): (c: Byte) {
    if v < 26 then 65 + v else if v < 52 then 71 + v else if v < 62 then v - 4 else if v == 62 then 43 else 47
  }

  /** `strchr (Base64, ch) - Base64`. */
  function Value(c: Byte): (r: Option<Digit>)
    ensures r.Some? ==> Char(r.value) == c
  {
    if 65 <= c <= 90 then Some(c - 65)
    else if 97 <= c <= 122 then Some(c - 71)
    else if 48 <= c <= 57 then Some(c + 4)
    else if c == 43 then Some(62)
    else if c == 47 then Some(63)
    else None
  }

  /** The table of section 5.2 of RFC 1521. */
  const ALPHABET := UPPER + LOWER + DIGITS + "+/"
  const UPPER := "ABCDEFGHIJKLMNOPQRSTUVWXYZ"
  const LOWER := "abcdefghijklmnopqrstuvwxyz"
  const DIGITS := "0123456789"

  lemma UpperIs(v: Digit)
    requires v < 26
    ensures UPPER[v] as int == 65 + v
  {
    if v < 13 {
      assert v == 0 || v == 1 || v == 2 || v == 3 || v == 4 || v == 5 || v == 6 || v == 7 || v == 8 || v == 9
             || v == 10 || v == 11 || v == 12;
    } else {
      assert v == 13 || v == 14 || v == 15 || v == 16 || v == 17 || v == 18 || v == 19 || v == 20 || v == 21
             || v == 22 || v == 23 || v == 24 || v == 25;
    }
  }

  lemma LowerIs(v: Digit)
    requires v < 26
    ensures LOWER[v] as int == 97 + v
  {
    if v < 13 {
      assert v == 0 || v == 1 || v == 2 || v == 3 || v == 4 || v == 5 || v == 6 || v == 7 || v == 8 || v == 9
             || v == 10 || v == 11 || v == 12;
    } else {
      assert v == 13 || v == 14 || v == 15 || v == 16 || v == 17 || v == 18 || v == 19 || v == 20 || v == 21
             || v == 22 || v == 23 || v == 24 || v == 25;
    }
  }

  lemma DigitsAre(v: Digit)
    requires v < 10
    ensures DIGITS[v] as int == 48 + v
  {
    assert v == 0 || v == 1 || v == 2 || v == 3 || v == 4 || v == 5 || v == 6 || v == 7 || v == 8 || v == 9;
  }

  lemma CharIsAlphabet(v: Digit)
    ensures |ALPHABET| == 64 && Char(v) == ALPHABET[v] as int
  {
    if v < 26 {
      UpperIs(v);
    } else if v < 52 {
      LowerIs(v - 26);
    } else if v < 62 {
      DigitsAre(v - 52);
    }
  }

  lemma ValueOfChar(v: Digit)
    ensures Value(Char(v)) == Some(v) && Char(v) != PAD
  {
  }

  /** `isspace` in the C locale. */
  predicate IsSpace(c: Byte) {
    9 <= c <= 13 || c == 32
  }

  // ------------------------------------------------------------------ encoding

  /** The four digits that three bytes make up. */
  function D0(a: Byte): (v: Digit) { a / 4 }
  function D1(a: Byte, b: Byte): (v: Digit) { a % 4 * 16 + b / 16 }
  function D2(b: Byte, c: Byte): (v: Digit) { b % 16 * 4 + c / 64 }
  function D3(c: Byte): (v: Digit) { c % 64 }

  /** What RFC 1521 asks for: 24-bit groups as four digits, the last one padded. */
  function Encode(d: seq<Byte>): (t: seq<Byte>)
    ensures |t| == (|d| + 2) / 3 * 4
  {
    if |d| == 0 then []
    else if |d| == 1 then
      [Char(D0(d[0])), Char(D1(d[0], 0)), PAD, PAD]
    else if |d| == 2 then
      [Char(D0(d[0])), Char(D1(d[0], d[1])), Char(D2(d[1], 0)), PAD]
    else Group(d[0], d[1], d[2]) + Encode(d[3..])
  }

  function Group(a: Byte, b: Byte, c: Byte): (t: seq<Byte>)
    ensures |t| == 4
  {
    [Char(D0(a)), Char(D1(a, b)), Char(D2(b, c)), Char(D3(c))]
  }

  // ------------------------------------------------------------------ decoding

  /** The bytes complete so far, the state, and the bits of the next byte. */
  datatype Dec = Dec(out: seq<Byte>, state: int, slop: int)

  const START := Dec([], 0, 0)

  predicate Wf(m: Dec) {
    match m.state
    case 0 => m.slop == 0
    case 1 => 0 <= m.slop < 256 && m.slop % 4 == 0
    case 2 => 0 <= m.slop < 256 && m.slop % 16 == 0
    case 3 => 0 <= m.slop < 256 && m.slop % 64 == 0
    case _ => false
  }

  /** The three bytes that four digits make up. */
  function First(v0: Digit, v1: Digit): (b: Byte) { v0 as int * 4 + v1 as int / 16 }
  function Second(v1: Digit, v2: Digit): (b: Byte) { v1 as int % 16 * 16 + v2 as int / 4 }
  function Third(v2: Digit, v3: Digit): (b: Byte) { v2 as int % 4 * 64 + v3 as int }

  /** Each state comes at its own place in a group of three bytes. */
  predicate InStep(m: Dec) {
    |m.out| % 3 == (if m.state == 0 || m.state == 1 then 0 else m.state - 1)
  }

  lemma FeedInStep(m: Dec, v: Digit)
    requires Wf(m) && InStep(m)
    ensures InStep(Feed(m, v))
  {
  }

  /** One digit; what the code ors in fills the empty low bits of `slop`. */
  function Feed(m: Dec, v: Digit): (n: Dec)
    requires Wf(m)
    ensures Wf(n) && n.state == (if m.state == 3 then 0 else m.state + 1)
    ensures n.out == m.out || (m.state > 0 && |n.out| == |m.out| + 1 && m.out == n.out[..|m.out|])
  {
    match m.state
    case 0 => Dec(m.out, 1, v * 4)
    case 1 => Dec(m.out + [m.slop + v / 16], 2, v % 16 * 16)
    case 2 => Dec(m.out + [m.slop + v / 4], 3, v % 4 * 64)
    case _ => Dec(m.out + [m.slop + v], 0, 0)
  }

  /** The rest of a text without white space, from the state `m` on. */
  function Parse(m: Dec, t: seq<Byte>): (r: Option<seq<Byte>>)
    requires Wf(m)
    decreases |t|
  {
    if t == [] then
      if m.state == 0 then Some(m.out) else None
    else if t[0] == PAD then
      if m.slop == 0 && ((m.state == 2 && t == [PAD, PAD]) || (m.state == 3 && t == [PAD])) then Some(m.out)
      else None
    else match Value(t[0])
      case None => None
      case Some(v) => Parse(Feed(m, v), t[1..])
  }

  lemma ParseDigit(m: Dec, v: Digit, t: seq<Byte>)
    requires Wf(m)
    ensures Parse(m, [Char(v)] + t) == Parse(Feed(m, v), t)
  {
    ValueOfChar(v);
    assert ([Char(v)] + t)[1..] == t;
  }

  function Boundary(out: seq<Byte>): (m: Dec)
  {
    Dec(out, 0, 0)
  }

  /** Two digits give the first byte. */
  lemma ParseFirst(out: seq<Byte>, v0: Digit, v1: Digit, t: seq<Byte>)
    ensures Parse(Boundary(out), [Char(v0)] + ([Char(v1)] + t))
         == Parse(Dec(out + [First(v0, v1)], 2, v1 as int % 16 * 16), t)
  {
    hide Parse, Char;
    ParseDigit(Boundary(out), v0, [Char(v1)] + t);
    ParseDigit(Feed(Boundary(out), v0), v1, t);
  }

  /** A third one gives the second byte. */
  lemma ParseSecond(out: seq<Byte>, v1: Digit, v2: Digit, t: seq<Byte>)
    ensures Parse(Dec(out, 2, v1 as int % 16 * 16), [Char(v2)] + t)
         == Parse(Dec(out + [Second(v1, v2)], 3, v2 as int % 4 * 64), t)
  {
    hide Parse, Char;
    ParseDigit(Dec(out, 2, v1 as int % 16 * 16), v2, t);
  }

  lemma D1Parts(a: Byte, b: Byte)
    ensures D1(a, b) as int / 16 == a as int % 4 && D1(a, b) as int % 16 == b as int / 16
  {
    Parts(a as int % 4, b as int / 16, 16);
  }

  lemma D2Parts(b: Byte, c: Byte)
    ensures D2(b, c) as int / 4 == b as int % 16 && D2(b, c) as int % 4 == c as int / 64
  {
    Parts(b as int % 16, c as int / 64, 4);
  }

  lemma Parts(q: nat, r: nat, k: nat)
    requires (k == 4 || k == 16) && r < k
    ensures (q * k + r) / k == q && (q * k + r) % k == r
  {
  }

  lemma FirstBack(a: Byte, b: Byte)
    ensures First(D0(a), D1(a, b)) == a
    ensures D1(a, 0) as int % 16 * 16 == 0
  {
    hide D1;
    D1Parts(a, b);
    D1Parts(a, 0);
  }

  lemma SecondBack(a: Byte, b: Byte, c: Byte)
    ensures Second(D1(a, b), D2(b, c)) == b
    ensures D2(b, 0) as int % 4 * 64 == 0
  {
    hide D1, D2;
    D1Parts(a, b);
    D2Parts(b, c);
    D2Parts(b, 0);
  }

  lemma ThirdBack(b: Byte, c: Byte)
    ensures Third(D2(b, c), D3(c)) == c
  {
    hide D2;
    D2Parts(b, c);
  }

  /** Four digits are three bytes. */
  lemma ParseGroup(out: seq<Byte>, a: Byte, b: Byte, c: Byte, t: seq<Byte>)
    ensures Parse(Boundary(out), Group(a, b, c) + t) == Parse(Boundary(out + [a, b, c]), t)
  {
    hide Parse, Char, First, Second, D0, D1, D2, D3;
    var v0, v1, v2, v3 := D0(a), D1(a, b), D2(b, c), D3(c);
    FirstBack(a, b);
    SecondBack(a, b, c);
    ThirdBack(b, c);
    var t3 := [Char(v3)] + t;
    assert Group(a, b, c) + t == [Char(v0)] + ([Char(v1)] + ([Char(v2)] + t3));
    ParseFirst(out, v0, v1, [Char(v2)] + t3);
    ParseSecond(out + [a], v1, v2, t3);
    ParseDigit(Dec(out + [a] + [b], 3, v2 as int % 4 * 64), v3, t);
    assert out + [a] + [b] + [c] == out + [a, b, c];
  }

  lemma ParsePads(m: Dec)
    requires Wf(m) && m.slop == 0
    ensures m.state == 2 ==> Parse(m, [PAD, PAD]) == Some(m.out)
    ensures m.state == 3 ==> Parse(m, [PAD]) == Some(m.out)
  {
  }

  lemma ParseOne(out: seq<Byte>, a: Byte)
    ensures Parse(Boundary(out), Encode([a])) == Some(out + [a])
  {
    hide Parse, Char, First, D0, D1;
    var v0, v1 := D0(a), D1(a, 0);
    FirstBack(a, 0);
    assert Encode([a]) == [Char(v0)] + ([Char(v1)] + [PAD, PAD]);
    ParseFirst(out, v0, v1, [PAD, PAD]);
    ParsePads(Dec(out + [a], 2, 0));
  }

  lemma ParseTwo(out: seq<Byte>, a: Byte, b: Byte)
    ensures Parse(Boundary(out), Encode([a, b])) == Some(out + [a, b])
  {
    hide Parse, Char, First, Second, Third, D0, D1, D2, D3;
    var v0, v1, v2 := D0(a), D1(a, b), D2(b, 0);
    FirstBack(a, b);
    SecondBack(a, b, 0);
    assert Encode([a, b]) == [Char(v0)] + ([Char(v1)] + ([Char(v2)] + [PAD]));
    ParseFirst(out, v0, v1, [Char(v2)] + [PAD]);
    ParseSecond(out + [a], v1, v2, [PAD]);
    ParsePads(Dec(out + [a] + [b], 3, 0));
    assert out + [a] + [b] == out + [a, b];
  }

  lemma {:induction false} ParseEncoded(out: seq<Byte>, d: seq<Byte>)
    ensures Parse(Boundary(out), Encode(d)) == Some(out + d)
    decreases |d|
  {
    hide Parse, Char;
    if |d| == 0 {
      ParseNothing(out);
      assert out + d == out;
    } else if |d| == 1 {
      assert d == [d[0]];
      ParseOne(out, d[0]);
    } else if |d| == 2 {
      assert d == [d[0], d[1]];
      ParseTwo(out, d[0], d[1]);
    } else {
      ParseGroup(out, d[0], d[1], d[2], Encode(d[3..]));
      ParseEncoded(out + [d[0], d[1], d[2]], d[3..]);
      assert out + [d[0], d[1], d[2]] + d[3..] == out + d;
    }
  }

  lemma ParseNothing(out: seq<Byte>)
    ensures Parse(Boundary(out), []) == Some(out)
  {
  }

  /** Every byte string comes back from its encoding. */
  lemma DecodeEncode(d: seq<Byte>)
    ensures Parse(START, Encode(d)) == Some(d)
  {
    ParseEncoded([], d);
    assert [] + d == d;
  }

  /** How an accepted text begins. */
  lemma Head(m: Dec, t: seq<Byte>, d: seq<Byte>) returns (r: Option<Digit>)
    requires Wf(m) && Parse(m, t) == Some(d) && (m.state != 0 || t != [])
    ensures t != []
    ensures r.Some? ==> t == [Char(r.value)] + t[1..] && Parse(Feed(m, r.value), t[1..]) == Some(d)
    ensures r.None? ==> d == m.out && m.slop == 0 && ((m.state == 2 && t == [PAD, PAD]) || (m.state == 3 && t == [PAD]))
  {
    r := if t[0] == PAD then None else Value(t[0]);
  }

  lemma DigitsBack(v0: Digit, v1: Digit, v2: Digit, v3: Digit)
    ensures D0(First(v0, v1)) == v0 && D3(Third(v2, v3)) == v3
    ensures D1(First(v0, v1), Second(v1, v2)) == v1 && D2(Second(v1, v2), Third(v2, v3)) == v2
    ensures v1 % 16 == 0 ==> D1(First(v0, v1), 0) == v1
    ensures v2 % 4 == 0 ==> D2(Second(v1, v2), 0) == v2
  {
  }

  lemma EncodeTwo(v0: Digit, v1: Digit)
    requires v1 % 16 == 0
    ensures Encode([First(v0, v1)]) == [Char(v0), Char(v1), PAD, PAD]
  {
    hide Char, First, D0, D1;
    DigitsBack(v0, v1, 0, 0);
  }

  lemma EncodeThree(v0: Digit, v1: Digit, v2: Digit)
    requires v2 % 4 == 0
    ensures Encode([First(v0, v1), Second(v1, v2)]) == [Char(v0), Char(v1), Char(v2), PAD]
  {
    hide Char, First, Second, D0, D1, D2;
    DigitsBack(v0, v1, v2, 0);
  }

  lemma EncodeFour(v0: Digit, v1: Digit, v2: Digit, v3: Digit)
    ensures Group(First(v0, v1), Second(v1, v2), Third(v2, v3)) == [Char(v0), Char(v1), Char(v2), Char(v3)]
  {
    hide Char, First, Second, Third, D0, D1, D2, D3;
    DigitsBack(v0, v1, v2, v3);
  }

  /** Two digits in: the first byte is out. */
  lemma HeadTwo(out: seq<Byte>, t: seq<Byte>, d: seq<Byte>) returns (v0: Digit, v1: Digit)
    requires t != [] && Parse(Boundary(out), t) == Some(d)
    ensures |t| >= 2 && t == [Char(v0), Char(v1)] + t[2..]
    ensures Parse(Dec(out + [First(v0, v1)], 2, v1 as int % 16 * 16), t[2..]) == Some(d)
  {
    hide Parse, Char;
    var r0 := Head(Boundary(out), t, d);
    v0 := r0.value;
    var m1 := Feed(Boundary(out), v0);
    var r1 := Head(m1, t[1..], d);
    v1 := r1.value;
    assert t[1..][1..] == t[2..];
    assert Feed(m1, v1) == Dec(out + [First(v0, v1)], 2, v1 as int % 16 * 16);
  }

  /** A third digit, or the two pads. */
  lemma HeadThird(out: seq<Byte>, v1: Digit, t: seq<Byte>, d: seq<Byte>) returns (r: Option<Digit>)
    requires Parse(Dec(out, 2, v1 as int % 16 * 16), t) == Some(d)
    ensures r.None? ==> v1 % 16 == 0 && d == out && t == [PAD, PAD]
    ensures r.Some? ==> |t| >= 1 && t == [Char(r.value)] + t[1..]
    ensures r.Some? ==> Parse(Dec(out + [Second(v1, r.value)], 3, r.value as int % 4 * 64), t[1..]) == Some(d)
  {
    hide Parse, Char;
    var m := Dec(out, 2, v1 as int % 16 * 16);
    r := Head(m, t, d);
    assert r.Some? ==> Feed(m, r.value) == Dec(out + [Second(v1, r.value)], 3, r.value as int % 4 * 64);
  }

  /** A fourth digit, or the one pad. */
  lemma HeadFourth(out: seq<Byte>, v2: Digit, t: seq<Byte>, d: seq<Byte>) returns (r: Option<Digit>)
    requires Parse(Dec(out, 3, v2 as int % 4 * 64), t) == Some(d)
    ensures r.None? ==> v2 % 4 == 0 && d == out && t == [PAD]
    ensures r.Some? ==> |t| >= 1 && t == [Char(r.value)] + t[1..]
    ensures r.Some? ==> Parse(Boundary(out + [Third(v2, r.value)]), t[1..]) == Some(d)
  {
    hide Parse, Char;
    var m := Dec(out, 3, v2 as int % 4 * 64);
    r := Head(m, t, d);
    assert r.Some? ==> Feed(m, r.value) == Dec(out + [Third(v2, r.value)], 0, 0);
  }

  /** An accepted text is the encoding of what it gives. */
  lemma {:induction false} ParsedIsEncoded(out: seq<Byte>, t: seq<Byte>, d: seq<Byte>) returns (e: seq<Byte>)
    requires Parse(Boundary(out), t) == Some(d)
    ensures d == out + e && t == Encode(e)
    decreases |t|
  {
    hide Parse, Char, Encode, Group, First, Second, Third;
    if t == [] {
      ParseNothing(out);
      e := [];
      EncodeNone();
      return;
    }
    var v0, v1 := HeadTwo(out, t, d);
    var b0 := First(v0, v1);
    var r2 := HeadThird(out + [b0], v1, t[2..], d);
    if r2.None? {
      e := [b0];
      EncodeTwo(v0, v1);
      return;
    }
    var v2 := r2.value;
    var b1 := Second(v1, v2);
    var r3 := HeadFourth(out + [b0] + [b1], v2, t[2..][1..], d);
    if r3.None? {
      e := [b0, b1];
      EncodeThree(v0, v1, v2);
      assert t[2..] == [Char(v2), PAD];
      return;
    }
    var v3, rest := r3.value, t[2..][1..][1..];
    var b2 := Third(v2, v3);
    assert out + [b0] + [b1] + [b2] == out + [b0, b1, b2];
    var e' := ParsedIsEncoded(out + [b0, b1, b2], rest, d);
    e := [b0, b1, b2] + e';
    EncodeFour(v0, v1, v2, v3);
    EncodeMore(b0, b1, b2, e');
    assert t == [Char(v0), Char(v1), Char(v2), Char(v3)] + rest;
  }

  lemma EncodeNone()
    ensures Encode([]) == []
  {
  }

  lemma EncodeMore(a: Byte, b: Byte, c: Byte, e: seq<Byte>)
    ensures Encode([a, b, c] + e) == Group(a, b, c) + Encode(e)
  {
    assert ([a, b, c] + e)[3..] == e;
  }

  /** Decoding accepts exactly the encodings, each as the one thing it encodes. */
  lemma DecodesExactly(t: seq<Byte>, d: seq<Byte>)
    ensures Parse(START, t) == Some(d) <==> t == Encode(d)
  {
    hide Parse, Encode;
    if t == Encode(d) {
      DecodeEncode(d);
    }
    if Parse(START, t) == Some(d) {
      var e := ParsedIsEncoded([], t, d);
      assert [] + e == e;
    }
  }

  // ------------------------------------------------------- the code, in place

  /** Three bytes, fewer filled up with zeros, as four digits at `k`. */
  method PutGroup(target: array<Byte>, k: nat, a: Byte, b: Byte, c: Byte)
    requires k + 4 <= target.Length
    modifies target
    ensures target[..k] == old(target[..k])
    ensures target[..k + 4] == target[..k] + Group(a, b, c)
  {
    hide Char;
    ghost var was := target[..k];
    target[k] := Char(a / 4);
    target[k + 1] := Char(a % 4 * 16 + b / 16);
    target[k + 2] := Char(b % 16 * 4 + c / 64);
    target[k + 3] := Char(c % 64);
    assert target[..k] == was;
    FourMore(target[..k + 4], k, Group(a, b, c));
  }

  /** A sequence whose last four elements are known. */
  lemma FourMore(t: seq<Byte>, k: nat, g: seq<Byte>)
    requires |t| == k + 4 && |g| == 4
    requires t[k] == g[0] && t[k + 1] == g[1] && t[k + 2] == g[2] && t[k + 3] == g[3]
    ensures t == t[..k] + g
  {
  }

  /** The padded end. */
  method PutLast(target: array<Byte>, k: nat, d: seq<Byte>)
    requires k + 4 <= target.Length && 1 <= |d| <= 2
    modifies target
    ensures target[..k + 4] == old(target[..k]) + Encode(d)
  {
    hide Char;
    ghost var was := target[..k];
    var input0, input1 := d[0], if |d| == 1 then 0 else d[1];
    target[k] := Char(input0 / 4);
    target[k + 1] := Char(input0 % 4 * 16 + input1 / 16);
    if |d| == 1 {
      target[k + 2] := PAD;
    } else {
      target[k + 2] := Char(input1 % 16 * 4);
    }
    target[k + 3] := PAD;
    assert target[..k] == was;
    FourMore(target[..k + 4], k, Encode(d));
  }

  /** `b64_ntop`: the encoding and its length, exactly when the target has room for
      it and a final 0; otherwise -1. */
  method B64Ntop(src: seq<Byte>, target: array<Byte>) returns (n: int)
    modifies target
    ensures n == if |Encode(src)| < target.Length then |Encode(src)| else -1
    ensures n >= 0 ==> target[..n] == Encode(src) && target[n] == 0
  {
    hide Encode, Group;
    var datalength := 0;
    var rest := src;
    EncodeLength(src);
    while 2 < |rest|
      invariant datalength <= target.Length
      invariant target[..datalength] + Encode(rest) == Encode(src)
    {
      EncodeStep(rest);
      if datalength + 4 > target.Length {
        return -1;
      }
      ghost var was := target[..datalength];
      PutGroup(target, datalength, rest[0], rest[1], rest[2]);
      assert was + (Group(rest[0], rest[1], rest[2]) + Encode(rest[3..]))
          == was + Group(rest[0], rest[1], rest[2]) + Encode(rest[3..]);
      datalength := datalength + 4;
      rest := rest[3..];
    }
    EncodeLength(rest);
    if |rest| != 0 {
      if datalength + 4 > target.Length {
        return -1;
      }
      PutLast(target, datalength, rest);
      datalength := datalength + 4;
    }
    assert target[..datalength] == Encode(src);
    if datalength >= target.Length {
      return -1;
    }
    target[datalength] := 0;
    return datalength;
  }

  lemma EncodeLength(d: seq<Byte>)
    ensures |d| == 0 ==> Encode(d) == []
    ensures 1 <= |d| <= 2 ==> |Encode(d)| == 4
  {
  }

  lemma EncodeStep(d: seq<Byte>)
    requires |d| > 2
    ensures Encode(d) == Group(d[0], d[1], d[2]) + Encode(d[3..])
  {
  }

  // ------------------------------------------------------------ white space

  function Strip(s: seq<Byte>): (t: seq<Byte>) {
    if s == [] then [] else if IsSpace(s[0]) then Strip(s[1..]) else [s[0]] + Strip(s[1..])
  }

  lemma StripAt(s: seq<Byte>, i: nat)
    requires i < |s|
    ensures s[i..] == [s[i]] + s[i + 1..]
    ensures Strip(s[i..]) == if IsSpace(s[i]) then Strip(s[i + 1..]) else [s[i]] + Strip(s[i + 1..])
  {
    assert s[i..][1..] == s[i + 1..];
  }

  lemma StripEnd(s: seq<Byte>)
    ensures Strip(s[|s|..]) == []
  {
  }

  /** The loops over blanks behind a pad. */
  method SkipSpaces(src: seq<Byte>, i: nat) returns (j: nat)
    requires i <= |src|
    ensures i <= j <= |src| && (j < |src| ==> !IsSpace(src[j]))
    ensures Strip(src[i..]) == Strip(src[j..])
  {
    hide Strip;
    j := i;
    while j < |src| && IsSpace(src[j])
      invariant i <= j <= |src| && Strip(src[i..]) == Strip(src[j..])
    {
      StripAt(src, j);
      j := j + 1;
    }
  }

  /** Room the decoder wants: a byte more unless the data is whole groups. */
  predicate Fits(n: nat, size: nat) {
    n + (if n % 3 == 0 then 0 else 1) <= size
  }

  /** What `b64_pton` is to return. */
  function Result(r: Option<seq<Byte>>, size: nat): (n: int) {
    if r.Some? && Fits(|r.value|, size) then |r.value| else -1
  }

  /** Nothing decoded is taken back, and one more digit means one more byte. */
  lemma {:induction false} ParseGrows(m: Dec, t: seq<Byte>)
    requires Wf(m)
    ensures Parse(m, t).Some? ==> |Parse(m, t).value| >= |m.out| + (if m.state == 1 then 1 else 0)
    decreases |t|
  {
    if t != [] && t[0] != PAD && Value(t[0]).Some? {
      ParseGrows(Feed(m, Value(t[0]).value), t[1..]);
    }
  }

  lemma ParseGrowsByDigit(m: Dec, v: Digit, t: seq<Byte>)
    requires Wf(m)
    ensures Parse(Feed(m, v), t).Some? ==> |Parse(Feed(m, v), t).value| >= |m.out| + 1
  {
    hide Parse;
    ParseGrows(Feed(m, v), t);
  }

  /** The variables of `b64_pton` hold the state `m`. */
  ghost predicate Mirrors(target: array<Byte>, tarindex: int, state: int, m: Dec)
    reads target
  {
    && Wf(m) && InStep(m) && m.state == state && tarindex == |m.out| <= target.Length && target[..tarindex] == m.out
    && (state != 0 ==> tarindex < target.Length && target[tarindex] == m.slop)
  }

  /** The switch of `b64_pton`. */
  method TakeDigit(target: array<Byte>, tarindex: nat, state: int, v: Digit, ghost m: Dec)
    returns (ok: bool, index': nat, state': int)
    requires Mirrors(target, tarindex, state, m)
    modifies target
    ensures ok ==> Mirrors(target, index', state', Feed(m, v))
    ensures !ok ==> if state == 0 then tarindex >= target.Length
                    else state != 3 && tarindex + 1 >= target.Length
  {
    FeedInStep(m, v);
    ok, index', state' := false, tarindex, state;
    match state {
      case 0 =>
        if tarindex >= target.Length { return; }
        target[tarindex] := v * 4;
        state' := 1;
      case 1 =>
        if tarindex + 1 >= target.Length { return; }
        target[tarindex], target[tarindex + 1] := target[tarindex] + v / 16, v % 16 * 16;
        index', state' := tarindex + 1, 2;
      case 2 =>
        if tarindex + 1 >= target.Length { return; }
        target[tarindex], target[tarindex + 1] := target[tarindex] + v / 4, v % 4 * 64;
        index', state' := tarindex + 1, 3;
      case _ =>
        target[tarindex] := target[tarindex] + v;
        index', state' := tarindex + 1, 0;
    }
    ok := true;
  }

  /** When the switch runs out of room, no continuation of the text would fit. */
  lemma NoRoomNoResult(m: Dec, v: Digit, t: seq<Byte>, size: nat)
    requires Wf(m) && InStep(m) && (if m.state == 0 then |m.out| >= size else m.state != 3 && |m.out| + 1 >= size)
    ensures Result(Parse(Feed(m, v), t), size) == -1
  {
    hide Parse, Feed;
    ParseGrowsByDigit(m, v, t);
  }

  /** Behind the first pad at `i - 1`. */
  method Finish(src: seq<Byte>, i: nat, target: array<Byte>, tarindex: nat, state: int, ghost m: Dec)
    returns (n: int)
    requires i <= |src| && Mirrors(target, tarindex, state, m)
    ensures n == Result(Parse(m, [PAD] + Strip(src[i..])), target.Length)
  {
    hide Strip;
    if state == 0 || state == 1 {
      return -1;
    }
    var j := i;
    if state == 2 {
      j := SkipSpaces(src, i);
      if j == |src| {
        StripEnd(src);
        return -1;
      }
      StripAt(src, j);
      assert ([PAD] + Strip(src[i..]))[1] == src[j];
      if src[j] != PAD {
        return -1;
      }
      j := j + 1;
    }
    j := SkipSpaces(src, j);
    if j < |src| {
      StripAt(src, j);
      return -1;
    }
    StripEnd(src);
    if target[tarindex] != 0 {
      return -1;
    }
    return tarindex;
  }

  /** `b64_pton` of a C string into a target: it accepts exactly the texts that are,
      white space removed, the encoding of some data that fits, and gives that data. */
  method B64Pton(src: seq<Byte>, target: array<Byte>) returns (n: int)
    requires 0 !in src
    modifies target
    ensures n == Result(Parse(START, Strip(src)), target.Length)
    ensures n >= 0 ==> n <= target.Length && Strip(src) == Encode(target[..n])
    ensures n == -1 <==> !exists d :: Strip(src) == Encode(d) && Fits(|d|, target.Length)
  {
    hide Parse, Strip, Encode;
    n := Decode(src, target);
    ghost var r := Parse(START, Strip(src));
    if r.Some? {
      DecodesExactly(Strip(src), r.value);
    }
    forall d {
      DecodesExactly(Strip(src), d);
    }
  }

  method Decode(src: seq<Byte>, target: array<Byte>) returns (n: int)
    modifies target
    ensures n == Result(Parse(START, Strip(src)), target.Length)
    ensures n >= 0 ==> n <= target.Length && target[..n] == Parse(START, Strip(src)).value
  {
    hide Parse, Strip, Feed;
    var state, tarindex, i := 0, 0, 0;
    ghost var m := START;
    assert src[0..] == src;
    while i < |src|
      invariant 0 <= i <= |src| && 0 <= tarindex && Mirrors(target, tarindex, state, m)
      invariant Parse(m, Strip(src[i..])) == Parse(START, Strip(src))
    {
      StripAt(src, i);
      var ch := src[i];
      i := i + 1;
      if IsSpace(ch) {
        continue;
      }
      if ch == PAD {
        n := Finish(src, i, target, tarindex, state, m);
        PadGives(m, Strip(src[i..]));
        return;
      }
      ParseChar(m, ch, Strip(src[i..]));
      var pos := Value(ch);
      if pos.None? {
        return -1;
      }
      var ok;
      ghost var was := m;
      m := Feed(m, pos.value);
      ok, tarindex, state := TakeDigit(target, tarindex, state, pos.value, was);
      if !ok {
        NoRoomNoResult(was, pos.value, Strip(src[i..]), target.Length);
        return -1;
      }
    }
    StripEnd(src);
    ParseEnd(m);
    if state != 0 {
      return -1;
    }
    return tarindex;
  }

  lemma ParseEnd(m: Dec)
    requires Wf(m)
    ensures Parse(m, []) == if m.state == 0 then Some(m.out) else None
  {
  }

  lemma ParseChar(m: Dec, ch: Byte, t: seq<Byte>)
    requires Wf(m) && ch != PAD
    ensures Parse(m, [ch] + t) == match Value(ch) case None => None case Some(v) => Parse(Feed(m, v), t)
  {
    assert ([ch] + t)[1..] == t;
  }

  lemma PadGives(m: Dec, t: seq<Byte>)
    requires Wf(m)
    ensures var r := Parse(m, [PAD] + t); r.Some? ==> r.value == m.out
  {
  }

  // ----------------------------------------------------- there and back again

  /** The four digits of a group are its 24 bits, six at a time from the top. */
  lemma GroupIsNumber(a: Byte, b: Byte, c: Byte)
    ensures a as int * 0x1_0000 + b as int * 0x100 + c as int
         == D0(a) as int * 0x4_0000 + D1(a, b) as int * 0x1000 + D2(b, c) as int * 0x40 + D3(c) as int
  {
  }

  lemma CharIsPlain(v: Digit)
    ensures !IsSpace(Char(v)) && Char(v) != 0
  {
  }

  /** An encoding has no white space and no end of string in it. */
  lemma {:induction false} EncodingIsPlain(d: seq<Byte>)
    ensures forall i :: 0 <= i < |Encode(d)| ==> !IsSpace(Encode(d)[i]) && Encode(d)[i] != 0
    decreases |d|
  {
    hide Char, IsSpace, D0, D1, D2, D3;
    forall v: Digit {
      CharIsPlain(v);
    }
    PadIsPlain();
    if |d| > 2 {
      EncodingIsPlain(d[3..]);
    }
  }

  lemma PadIsPlain()
    ensures !IsSpace(PAD) && PAD != 0
  {
  }

  lemma {:induction false} StripPlain(s: seq<Byte>)
    requires forall i :: 0 <= i < |s| ==> !IsSpace(s[i])
    ensures Strip(s) == s
  {
    if s != [] {
      StripPlain(s[1..]);
    }
  }

  /** `b64_ntop` and then `b64_pton` give the bytes back, whenever the text has room for
      the encoding and a 0, and the target for the bytes and one more unless they are
      a multiple of three. */
  method ThroughText(d: seq<Byte>, text: array<Byte>, target: array<Byte>) returns (n: int)
    requires |Encode(d)| < text.Length && Fits(|d|, target.Length) && text != target
    modifies text, target
    ensures n == |d| <= target.Length && target[..n] == d
  {
    hide Encode, Strip, Parse;
    var k := B64Ntop(d, text);
    EncodingIsPlain(d);
    StripPlain(Encode(d));
    var src := text[..k];
    assert 0 !in src;
    n := B64Pton(src, target);
    DecodesExactly(Encode(d), d);
    if n >= 0 {
      DecodesExactly(Encode(d), target[..n]);
    }
  }
}
