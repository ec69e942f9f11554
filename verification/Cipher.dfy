/** AES in counter mode as cipher-ctr.cpp runs it, over an arbitrary block
    function. */
module Cipher {
  import opened Bytes

  /** The keyed block function: byte `i` of the encryption of a counter block. */
  type BlockFunction = (seq<Byte>, int) -> Byte

  /** Exclusive or, bit by bit from the low end. */
  function XorNat(a: nat, b: nat): (c: nat)
    decreases a + b
  {
    if a == 0 then b else if b == 0 then a
    else (if a % 2 == b % 2 then 0 else 1) + 2 * XorNat(a / 2, b / 2)
  }

  lemma {:induction false} XorNatBound(width: nat, a: nat, b: nat)
    requires a < Pow2(width) && b < Pow2(width)
    ensures XorNat(a, b) < Pow2(width)
  {
    if a != 0 && b != 0 {
      XorNatBound(width - 1, a / 2, b / 2);
    }
  }

  lemma {:induction false} XorNatTwice(a: nat, b: nat)
    ensures XorNat(XorNat(a, b), b) == a
    decreases a + b
  {
    if a == 0 {
      XorNatSelf(b);
    } else if b != 0 {
      XorNatTwice(a / 2, b / 2);
      assert XorNat(a, b) / 2 == XorNat(a / 2, b / 2);
    }
  }

  lemma {:induction false} XorNatSelf(a: nat)
    ensures XorNat(a, a) == 0
  {
    if a != 0 {
      XorNatSelf(a / 2);
    }
  }

  function Xor(a: Byte, b: Byte): (c: Byte)
  {
    assert Pow2(8) == 16 * Pow2(4) == 256;
    XorNatBound(8, a, b);
    XorNat(a, b)
  }

  lemma XorTwice(a: Byte, b: Byte)
    ensures Xor(Xor(a, b), b) == a
  {
    XorNatTwice(a, b);
  }

  /** Bit `k` of a number, from the low end. */
  function Bit(a: nat, k: nat): (b: nat)
    ensures b < 2
  {
    if k == 0 then a % 2 else Bit(a / 2, k - 1)
  }

  lemma {:induction false} NoBits(k: nat)
    ensures Bit(0, k) == 0
  {
    if k != 0 {
      NoBits(k - 1);
    }
  }

  /** Each bit is set exactly where the two differ. */
  lemma {:induction false} XorBit(a: nat, b: nat, k: nat)
    ensures Bit(XorNat(a, b), k) == if Bit(a, k) == Bit(b, k) then 0 else 1
    decreases k
  {
    if a == 0 || b == 0 {
      NoBits(k);
    } else if k != 0 {
      assert XorNat(a, b) / 2 == XorNat(a / 2, b / 2);
      XorBit(a / 2, b / 2, k - 1);
    }
  }

  // --------------------------------------------------------------- the counter

  function CtrInc(c: seq<Byte>): (r: seq<Byte>)
    ensures |r| == |c|
  {
    if c == [] then []
    else
      var n := |c| - 1;
      if c[n] == 255 then CtrInc(c[..n]) + [0] else c[..n] + [c[n] + 1]
  }

  function CtrAdd(c: seq<Byte>, n: nat): (r: seq<Byte>)
    ensures |r| == |c|
  {
    if n == 0 then c else CtrInc(CtrAdd(c, n - 1))
  }

  lemma {:induction false} CtrAddAdd(c: seq<Byte>, m: nat, n: nat)
    ensures CtrAdd(CtrAdd(c, m), n) == CtrAdd(c, m + n)
  {
    if n != 0 {
      CtrAddAdd(c, m, n - 1);
    }
  }

  /** `ssh_ctr_inc` adds one to the big-endian counter, wrapping to zero. */
  lemma {:induction false} CtrIncValue(c: seq<Byte>)
    ensures BigEndian(CtrInc(c))
         == if BigEndian(c) + 1 == Pow256(|c|) then 0 else BigEndian(c) + 1
  {
    if c != [] {
      var n := |c| - 1;
      var hi := c[..n];
      BigEndianBound(hi);
      if c[n] == 255 {
        CtrIncValue(hi);
        assert (CtrInc(hi) + [0])[..n] == CtrInc(hi);
      } else {
        assert (hi + [c[n] + 1])[..n] == hi;
      }
    }
  }

  lemma {:induction false} CtrAddValue(c: seq<Byte>, n: nat)
    requires BigEndian(c) + n < 2 * Pow256(|c|)
    ensures BigEndian(CtrAdd(c, n))
         == if BigEndian(c) + n < Pow256(|c|) then BigEndian(c) + n
            else BigEndian(c) + n - Pow256(|c|)
  {
    BigEndianBound(c);
    if n != 0 {
      CtrAddValue(c, n - 1);
      CtrIncValue(CtrAdd(c, n - 1));
    }
  }

  lemma CtrAddMoves(c: seq<Byte>, n: nat)
    requires 0 < n < Pow256(|c|)
    ensures CtrAdd(c, n) != c
  {
    BigEndianBound(c);
    CtrAddValue(c, n);
    assert BigEndian(CtrAdd(c, n)) != BigEndian(c);
  }

  /** No counter block comes twice within one period: the key stream of a key
      does not repeat a block before 2^128 blocks. */
  lemma CountersDistinct(c: seq<Byte>, i: nat, j: nat)
    requires i < j && j - i < Pow256(|c|)
    ensures CtrAdd(c, i) != CtrAdd(c, j)
  {
    hide CtrAdd, Pow256;
    CtrAddAdd(c, i, j - i);
    CtrAddMoves(CtrAdd(c, i), j - i);
  }

  /** Counting up changes the last byte below 255 and clears those behind it. */
  lemma {:induction false} CtrIncAt(c: seq<Byte>, d: seq<Byte>, i: int)
    requires |d| == |c| && -1 <= i < |c|
    requires forall j :: i < j < |c| ==> c[j] == 255 && d[j] == 0
    requires i >= 0 ==> c[i] != 255 && d[i] == c[i] + 1
    requires forall j :: 0 <= j < i ==> d[j] == c[j]
    ensures d == CtrInc(c)
  {
    if c != [] {
      var n := |c| - 1;
      assert d == d[..n] + [d[n]];
      if i == n {
        assert d[..n] == c[..n];
      } else {
        CtrIncAt(c[..n], d[..n], i);
      }
    }
  }

  method SshCtrInc(ctr: array<Byte>)
    modifies ctr
    ensures ctr[..] == CtrInc(old(ctr[..]))
  {
    ghost var was := ctr[..];
    var i := ctr.Length - 1;
    while i >= 0
      invariant -1 <= i < ctr.Length
      invariant forall j :: i < j < ctr.Length ==> was[j] == 255 && ctr[j] == 0
      invariant forall j :: 0 <= j <= i ==> ctr[j] == was[j]
    {
      ctr[i] := if ctr[i] == 255 then 0 else ctr[i] + 1; // an unsigned char
      if ctr[i] != 0 {
        break;
      }
      i := i - 1;
    }
    CtrIncAt(was, ctr[..], i);
  }

  // ---------------------------------------------------------------- the stream

  /** Byte `i` of the key stream that starts at counter `c`. */
  function StreamByte(aes: BlockFunction, c: seq<Byte>, i: nat): (b: Byte) {
    aes(CtrAdd(c, i / 16), i % 16)
  }

  /** What `ssh_aes_ctr` writes for `src`, starting a fresh block at counter `c`. */
  function CtrCrypt(aes: BlockFunction, c: seq<Byte>, src: seq<Byte>): (dest: seq<Byte>)
    ensures |dest| == |src|
  {
    seq(|src|, (i: int) requires 0 <= i < |src| => Xor(src[i], StreamByte(aes, c, i)))
  }

  /** The counter afterwards: a block begun is a block spent. */
  function CtrAfter(c: seq<Byte>, len: nat): (r: seq<Byte>)
    ensures |r| == |c|
  {
    CtrAdd(c, (len + 15) / 16)
  }

  /** Counter mode in plain terms: bit by bit, byte `i` is changed by byte `i % 16` of the
      encryption of the counter block that stands for the first one plus `i / 16`. */
  lemma CounterMode(aes: BlockFunction, c: seq<Byte>, src: seq<Byte>, i: nat, k: nat) returns (block: seq<Byte>)
    requires i < |src| && i / 16 < Pow256(|c|)
    ensures |block| == |c|
    ensures BigEndian(block) == BigEndian(c) + i / 16 - if BigEndian(c) + i / 16 < Pow256(|c|) then 0 else Pow256(|c|)
    ensures Bit(CtrCrypt(aes, c, src)[i], k) == if Bit(src[i], k) == Bit(aes(block, i % 16), k) then 0 else 1
  {
    hide Bit, XorNat;
    block := CtrAdd(c, i / 16);
    BigEndianBound(c);
    CtrAddValue(c, i / 16);
    XorBit(src[i], aes(block, i % 16), k);
  }

  lemma CtrCryptTwice(aes: BlockFunction, c: seq<Byte>, src: seq<Byte>)
    ensures CtrCrypt(aes, c, CtrCrypt(aes, c, src)) == src
  {
    var twice := CtrCrypt(aes, c, CtrCrypt(aes, c, src));
    forall i | 0 <= i < |src| ensures twice[i] == src[i] {
      XorTwice(src[i], StreamByte(aes, c, i));
    }
  }

  lemma StreamPlace(aes: BlockFunction, c: seq<Byte>, i: nat, q: nat, m: nat)
    requires i == 16 * q + m && m < 16
    ensures StreamByte(aes, c, i) == aes(CtrAdd(c, q), m)
  {
    BlockCount(i, q, m);
  }

  lemma StreamShift(aes: BlockFunction, c: seq<Byte>, n: nat, i: nat)
    ensures StreamByte(aes, CtrAdd(c, n), i) == StreamByte(aes, c, n * 16 + i)
  {
    var q, m := i / 16, i % 16;
    CtrAddAdd(c, n, q);
    StreamPlace(aes, CtrAdd(c, n), i, q, m);
    StreamPlace(aes, c, n * 16 + i, n + q, m);
  }

  /** Section 4 of RFC 4344: cutting at a multiple of the block changes nothing. */
  lemma CtrCryptConcat(aes: BlockFunction, c: seq<Byte>, a: seq<Byte>, b: seq<Byte>)
    requires |a| % 16 == 0
    ensures CtrCrypt(aes, c, a + b)
         == CtrCrypt(aes, c, a) + CtrCrypt(aes, CtrAfter(c, |a|), b)
    ensures CtrAfter(CtrAfter(c, |a|), |b|) == CtrAfter(c, |a| + |b|)
  {
    var m := |a| / 16;
    assert (|a| + 15) / 16 == m;
    var x, y := CtrCrypt(aes, c, a), CtrCrypt(aes, CtrAdd(c, m), b);
    forall i | 0 <= i < |a + b| ensures CtrCrypt(aes, c, a + b)[i] == (x + y)[i] {
      if i >= |a| {
        StreamShift(aes, c, m, i - |a|);
      }
    }
    CtrAddAdd(c, m, (|b| + 15) / 16);
  }

  /** Between two bytes: `i` bytes done, `n` of them in the current block. */
  predicate Phase(c: seq<Byte>, i: nat, n: nat, buf: seq<Byte>, counter: seq<Byte>) {
    && n == i % 16 && counter == CtrAfter(c, i)
    && (n != 0 ==> buf == CtrAdd(c, i / 16))
  }

  lemma BlockCount(i: nat, q: nat, m: nat)
    requires i == 16 * q + m && m < 16
    ensures i / 16 == q && i % 16 == m
    ensures (i + 15) / 16 == if m == 0 then q else q + 1
  {
  }

  lemma PhaseNext(c: seq<Byte>, i: nat, n: nat, buf: seq<Byte>, counter: seq<Byte>)
    requires Phase(c, i, n, buf, counter)
    ensures n == 0 ==> counter == CtrAdd(c, i / 16)
    ensures var next := if n == 0 then CtrInc(counter) else counter;
      Phase(c, i + 1, if n == 15 then 0 else n + 1, CtrAdd(c, i / 16), next)
  {
    BlockCount(i, i / 16, n);
    if n == 15 {
      BlockCount(i + 1, i / 16 + 1, 0);
    } else {
      BlockCount(i + 1, i / 16, n + 1);
    }
  }

  /** The body of the loop of `ssh_aes_ctr`. */
  method CryptByte(aes: BlockFunction, counter: array<Byte>, src: Byte, buf: seq<Byte>, n: nat,
                   ghost c: seq<Byte>, ghost i: nat)
    returns (dest: Byte, block: seq<Byte>, next: nat)
    requires Phase(c, i, n, buf, counter[..])
    modifies counter
    ensures Phase(c, i + 1, next, block, counter[..])
    ensures dest == Xor(src, StreamByte(aes, c, i))
  {
    PhaseNext(c, i, n, buf, counter[..]);
    block := buf;
    if n == 0 {
      block := counter[..];
      SshCtrInc(counter);
    }
    dest := Xor(src, aes(block, n));
    next := if n == 15 then 0 else n + 1; // (n + 1) % AES_BLOCK_SIZE
  }

  lemma CryptSnoc(aes: BlockFunction, c: seq<Byte>, src: seq<Byte>, i: nat)
    requires i < |src|
    ensures CtrCrypt(aes, c, src[..i + 1])
         == CtrCrypt(aes, c, src[..i]) + [Xor(src[i], StreamByte(aes, c, i))]
  {
  }

  /** `ssh_aes_ctr`; `dest` is what goes to the destination. */
  method SshAesCtr(aes: BlockFunction, counter: array<Byte>, src: seq<Byte>) returns (dest: seq<Byte>)
    modifies counter
    ensures dest == CtrCrypt(aes, old(counter[..]), src)
    ensures counter[..] == CtrAfter(old(counter[..]), |src|)
  {
    ghost var c := counter[..];
    dest := [];
    var buf, n, i := counter[..], 0, 0;
    while i < |src|
      invariant 0 <= i <= |src|
      invariant Phase(c, i, n, buf, counter[..])
      invariant dest == CtrCrypt(aes, c, src[..i])
    {
      var b;
      CryptSnoc(aes, c, src, i);
      b, buf, n := CryptByte(aes, counter, src[i], buf, n, c, i);
      dest := dest + [b];
      i := i + 1;
    }
    assert src[..i] == src;
  }
}
