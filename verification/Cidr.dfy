/** Network addresses and CIDR matching; a 32-bit word is its bits, the most
    significant first, as they lie in network byte order. */
module Cidr {
  import opened Bytes
  import opened Options

  type Bits = seq<bool>
  type Word = w: Bits | |w| == 32 witness seq(32, _ => false)

  /** `struct xaddr`, of either family. */
  datatype Xaddr = V4(v4: Word) | V6(addr32: seq<Word>, scopeId: U32)

  predicate Wf(a: Xaddr) {
    a.V6? ==> |a.addr32| == 4
  }

  function Width(v6: bool): (n: nat) {
    if v6 then 128 else 32
  }

  function Join(ws: seq<Word>): (b: Bits)
    ensures |b| == 32 * |ws|
  {
    if ws == [] then [] else Join(ws[..|ws| - 1]) + ws[|ws| - 1]
  }

  /** The whole address. */
  function AddrBits(a: Xaddr): (b: Bits)
    requires Wf(a)
    ensures |b| == Width(a.V6?)
  {
    if a.V4? then a.v4 else Join(a.addr32)
  }

  // ----------------------------------------------------------- words and bits

  function Ones(n: nat): (b: Bits) ensures |b| == n { seq(n, _ => true) }
  function Clear(n: nat): (b: Bits) ensures |b| == n { seq(n, _ => false) }

  /** The mask with `l` leading ones. */
  function Mask(l: nat, width: nat): (b: Bits)
    requires l <= width
    ensures |b| == width && forall i :: 0 <= i < width ==> b[i] == (i < l)
  {
    Ones(l) + Clear(width - l)
  }

  function And(a: Bits, b: Bits): (c: Bits)
    requires |a| == |b|
    ensures |c| == |a| && forall i :: 0 <= i < |a| ==> c[i] == (a[i] && b[i])
  {
    seq(|a|, i requires 0 <= i < |a| => a[i] && b[i])
  }

  function Not(a: Bits): (c: Bits)
    ensures |c| == |a| && forall i :: 0 <= i < |a| ==> c[i] == !a[i]
  {
    seq(|a|, i requires 0 <= i < |a| => !a[i])
  }

  /** (0xffffffff << k) & 0xffffffff, for shifts that C defines. */
  function AllOnesShifted(k: nat): (w: Word)
    requires k < 32
  {
    Ones(32)[k..] + Clear(k)
  }

  lemma {:induction false} JoinAt(ws: seq<Word>, i: nat, j: nat)
    requires i < |ws| && j < 32
    ensures Join(ws)[32 * i + j] == ws[i][j]
    decreases |ws|
  {
    if i < |ws| - 1 {
      JoinAt(ws[..|ws| - 1], i, j);
    }
  }

  /** Joined words are equal bits exactly when they agree word by word and bit by bit. */
  lemma JoinIs(ws: seq<Word>, b: Bits)
    requires |b| == 32 * |ws|
    requires forall i, j :: 0 <= i < |ws| && 0 <= j < 32 ==> ws[i][j] == b[32 * i + j]
    ensures Join(ws) == b
  {
    forall k | 0 <= k < |b| ensures Join(ws)[k] == b[k] {
      JoinAt(ws, k / 32, k % 32);
      assert ws[k / 32][k % 32] == b[32 * (k / 32) + k % 32];
    }
  }

  // ------------------------------------------------------------------ the code

  /** `addr_netmask`: `l` leading ones.  For IPv4 a length of 0 is a shift by the
      word's width, which C does not define. */
  method AddrNetmask(v6: bool, l: U32) returns (r: Option<Xaddr>)
    requires !v6 ==> l != 0
    ensures r.Some? <==> l <= Width(v6)
    ensures r.Some? ==> Wf(r.value) && r.value.V6? == v6 && AddrBits(r.value) == Mask(l, Width(v6))
    ensures r.Some? && v6 ==> r.value.scopeId == 0
  {
    if l > Width(v6) {
      return None;
    }
    if !v6 {
      assert AllOnesShifted(32 - l) == Mask(l, 32);
      return Some(V4(AllOnesShifted(32 - l)));
    }
    var words: seq<Word> := [Clear(32), Clear(32), Clear(32), Clear(32)];
    var i, m: int := 0, l;
    while i < 4 && m >= 32
      invariant 0 <= i <= 4 && 0 <= m && 32 * i + m == l && |words| == 4
      invariant forall k :: 0 <= k < 4 ==> words[k] == if k < i then Ones(32) else Clear(32)
    {
      words := words[i := Ones(32)];
      i, m := i + 1, m - 32;
    }
    if i < 4 && m != 0 {
      words := words[i := AllOnesShifted(32 - m)];
    }
    MaskWords(words, i, m);
    return Some(V6(words, 0));
  }

  lemma MaskWords(words: seq<Word>, i: nat, m: nat)
    requires |words| == 4 && i <= 4 && m < 32 && (i == 4 ==> m == 0)
    requires forall k :: 0 <= k < i ==> words[k] == Ones(32)
    requires i < 4 ==> words[i] == if m == 0 then Clear(32) else AllOnesShifted(32 - m)
    requires forall k :: i < k < 4 ==> words[k] == Clear(32)
    ensures Join(words) == Mask(32 * i + m, 128)
  {
    var b := Mask(32 * i + m, 128);
    forall x, j | 0 <= x < 4 && 0 <= j < 32 ensures words[x][j] == b[32 * x + j] {
    }
    JoinIs(words, b);
  }

  /** `addr_and`: the scope is that of the first. */
  method AddrAnd(a: Xaddr, b: Xaddr) returns (r: Option<Xaddr>)
    requires Wf(a) && Wf(b)
    ensures r.Some? <==> a.V6? == b.V6?
    ensures r.Some? ==> Wf(r.value) && r.value.V6? == a.V6? && AddrBits(r.value) == And(AddrBits(a), AddrBits(b))
    ensures r.Some? && a.V6? ==> r.value.scopeId == a.scopeId
  {
    if a.V6? != b.V6? {
      return None;
    }
    if a.V4? {
      return Some(V4(And(a.v4, b.v4)));
    }
    var words := a.addr32;
    var i := 0;
    while i < 4
      invariant 0 <= i <= 4 == |words|
      invariant forall k :: 0 <= k < 4 ==> words[k] == if k < i then And(a.addr32[k], b.addr32[k]) else a.addr32[k]
    {
      words := words[i := And(words[i], b.addr32[i])];
      i := i + 1;
    }
    AndWords(words, a.addr32, b.addr32);
    return Some(V6(words, a.scopeId));
  }

  lemma AndWords(words: seq<Word>, a: seq<Word>, b: seq<Word>)
    requires |words| == |a| == |b| && forall k :: 0 <= k < |a| ==> words[k] == And(a[k], b[k])
    ensures Join(words) == And(Join(a), Join(b))
  {
    forall i, j | 0 <= i < |a| && 0 <= j < 32
      ensures words[i][j] == And(Join(a), Join(b))[32 * i + j]
    {
      JoinAt(a, i, j);
      JoinAt(b, i, j);
    }
    JoinIs(words, And(Join(a), Join(b)));
  }

  /** `addr_invert`. */
  method AddrInvert(n: Xaddr) returns (r: Xaddr)
    requires Wf(n)
    ensures Wf(r) && r.V6? == n.V6? && AddrBits(r) == Not(AddrBits(n))
    ensures n.V6? ==> r.scopeId == n.scopeId
  {
    if n.V4? {
      return V4(Not(n.v4));
    }
    var words := n.addr32;
    var i := 0;
    while i < 4
      invariant 0 <= i <= 4 == |words|
      invariant forall k :: 0 <= k < 4 ==> words[k] == if k < i then Not(n.addr32[k]) else n.addr32[k]
    {
      words := words[i := Not(words[i])];
      i := i + 1;
    }
    NotWords(words, n.addr32);
    return V6(words, n.scopeId);
  }

  lemma NotWords(words: seq<Word>, a: seq<Word>)
    requires |words| == |a| && forall k :: 0 <= k < |a| ==> words[k] == Not(a[k])
    ensures Join(words) == Not(Join(a))
  {
    forall i, j | 0 <= i < |a| && 0 <= j < 32 ensures words[i][j] == Not(Join(a))[32 * i + j] {
      JoinAt(a, i, j);
    }
    JoinIs(words, Not(Join(a)));
  }

  predicate NoneSet(b: Bits) {
    forall i :: 0 <= i < |b| ==> !b[i]
  }

  /** `addr_is_all0s`. */
  method AddrIsAll0s(a: Xaddr) returns (yes: bool)
    requires Wf(a)
    ensures yes <==> NoneSet(AddrBits(a))
  {
    if a.V4? {
      assert a.v4 == Clear(32) <==> NoneSet(a.v4);
      return a.v4 == Clear(32);
    }
    var i := 0;
    while i < 4
      invariant 0 <= i <= 4
      invariant forall k :: 0 <= k < i ==> a.addr32[k] == Clear(32)
    {
      if a.addr32[i] != Clear(32) {
        var j :| 0 <= j < 32 && a.addr32[i][j];
        JoinAt(a.addr32, i, j);
        return false;
      }
      i := i + 1;
    }
    JoinIs(a.addr32, Clear(128));
    return true;
  }

  /** The bits behind the first `masklen` are 0. */
  predicate HostIsZero(b: Bits, masklen: nat) {
    forall i :: masklen <= i < |b| ==> !b[i]
  }

  /** `addr_host_is_all0s`: the host part is 0, and the length valid. */
  method AddrHostIsAll0s(a: Xaddr, masklen: U32) returns (yes: bool)
    requires Wf(a) && (a.V4? ==> masklen != 0)
    ensures yes <==> masklen <= Width(a.V6?) && HostIsZero(AddrBits(a), masklen)
  {
    var mask := AddrNetmask(a.V6?, masklen);
    if mask.None? {
      return false;
    }
    var hostmask := AddrInvert(mask.value);
    var masked := AddrAnd(a, hostmask);
    yes := AddrIsAll0s(masked.value);
    ghost var b := AddrBits(a);
    assert forall i :: 0 <= i < |b| ==> AddrBits(masked.value)[i] == (b[i] && i >= masklen);
  }

  // ------------------------------------------------------------------ ordering

  /** The number that bits stand for, `ntohl` of a word. */
  function Number(b: Bits): (v: nat)
    ensures v < Pow2(|b|)
  {
    if b == [] then 0 else (if b[0] then Pow2(|b| - 1) else 0) + Number(b[1..])
  }

  /** Dictionary order, 0 before 1. */
  predicate Before(a: Bits, b: Bits)
    requires |a| == |b|
  {
    a != [] && if a[0] == b[0] then Before(a[1..], b[1..]) else b[0]
  }

  lemma {:induction false} NumberOrder(a: Bits, b: Bits)
    requires |a| == |b|
    ensures Number(a) < Number(b) <==> Before(a, b)
    ensures Number(a) == Number(b) <==> a == b
    decreases |a|
  {
    if a != [] {
      NumberOrder(a[1..], b[1..]);
      assert a == [a[0]] + a[1..] && b == [b[0]] + b[1..];
    }
  }

  lemma {:induction false} BeforeAfterPrefix(p: Bits, a: Bits, b: Bits)
    requires |a| == |b|
    ensures Before(p + a, p + b) <==> Before(a, b)
    decreases |p|
  {
    if p == [] {
      assert p + a == a && p + b == b;
    } else {
      assert (p + a)[1..] == p[1..] + a && (p + b)[1..] == p[1..] + b;
      BeforeAfterPrefix(p[1..], a, b);
    }
  }

  lemma {:induction false} BeforeDecided(a: Bits, x: Bits, b: Bits, y: Bits)
    requires |a| == |b| && |x| == |y| && a != b
    ensures Before(a + x, b + y) <==> Before(a, b)
    decreases |a|
  {
    assert (a + x)[1..] == a[1..] + x && (b + y)[1..] == b[1..] + y;
    if a[0] == b[0] {
      assert a[1..] != b[1..] by {
        assert a == [a[0]] + a[1..] && b == [b[0]] + b[1..];
      }
      BeforeDecided(a[1..], x, b[1..], y);
    }
  }

  /** Where the bytes first differ decides. */
  lemma ByteDecides(a: Bits, b: Bits, i: nat)
    requires |a| == |b| == 128 && i < 16 && a[..8 * i] == b[..8 * i]
    requires a[8 * i..8 * i + 8] != b[8 * i..8 * i + 8]
    ensures Before(a, b) <==> Number(a[8 * i..8 * i + 8]) < Number(b[8 * i..8 * i + 8])
    ensures a != b
  {
    hide Before, Number;
    var p, x, y := a[..8 * i], a[8 * i..8 * i + 8], b[8 * i..8 * i + 8];
    var s, t := a[8 * i + 8..], b[8 * i + 8..];
    assert a == p + (x + s) && b == p + (y + t);
    BeforeAfterPrefix(p, x + s, y + t);
    BeforeDecided(x, s, y, t);
    NumberOrder(x, y);
  }

  /** IPv4 before IPv6, then by address, then by scope. */
  predicate Less(a: Xaddr, b: Xaddr)
    requires Wf(a) && Wf(b)
  {
    if a.V6? != b.V6? then b.V6?
    else if a.V4? then Before(a.v4, b.v4)
    else
      var x, y := AddrBits(a), AddrBits(b);
      Before(x, y) || (x == y && a.scopeId < b.scopeId)
  }

  lemma {:induction false} BeforeTotal(a: Bits, b: Bits)
    requires |a| == |b|
    ensures a != b <==> Before(a, b) || Before(b, a)
    ensures !(Before(a, b) && Before(b, a))
  {
    NumberOrder(a, b);
    NumberOrder(b, a);
  }

  lemma BeforeTransitive(a: Bits, b: Bits, c: Bits)
    requires |a| == |b| == |c| && Before(a, b) && Before(b, c)
    ensures Before(a, c)
  {
    NumberOrder(a, b);
    NumberOrder(b, c);
    NumberOrder(a, c);
  }

  lemma {:induction false} JoinInjective(a: seq<Word>, b: seq<Word>)
    requires |a| == |b| && Join(a) == Join(b)
    ensures a == b
    decreases |a|
  {
    if a != [] {
      var n := |a| - 1;
      assert Join(a)[..32 * n] == Join(a[..n]) && Join(b)[..32 * n] == Join(b[..n]);
      assert Join(a)[32 * n..] == a[n] && Join(b)[32 * n..] == b[n];
      JoinInjective(a[..n], b[..n]);
      assert a == a[..n] + [a[n]] && b == b[..n] + [b[n]];
    }
  }

  /** A total order on the addresses of both families. */
  lemma LessIsTotalOrder(a: Xaddr, b: Xaddr, c: Xaddr)
    requires Wf(a) && Wf(b) && Wf(c)
    ensures a != b <==> Less(a, b) || Less(b, a)
    ensures !(Less(a, b) && Less(b, a))
    ensures Less(a, b) && Less(b, c) ==> Less(a, c)
  {
    hide Before, Join;
    if a.V6? == b.V6? {
      BeforeTotal(AddrBits(a), AddrBits(b));
      if a.V6? && AddrBits(a) == AddrBits(b) {
        JoinInjective(a.addr32, b.addr32);
      }
    }
    if Less(a, b) && Less(b, c) && a.V6? == c.V6? {
      var x, y, z := AddrBits(a), AddrBits(b), AddrBits(c);
      if Before(x, y) && Before(y, z) {
        BeforeTransitive(x, y, z);
      }
    }
  }

  /** `addr_cmp`. */
  method AddrCmp(a: Xaddr, b: Xaddr) returns (r: int)
    requires Wf(a) && Wf(b)
    ensures r == if Less(a, b) then -1 else if Less(b, a) then 1 else 0
    ensures r == 0 <==> a == b
  {
    hide Before, Join, Number;
    LessIsTotalOrder(a, b, a);
    if a.V6? != b.V6? {
      return if a.V6? then 1 else -1;
    }
    if a.V4? {
      NumberOrder(a.v4, b.v4);
      NumberOrder(b.v4, a.v4);
      if a.v4 == b.v4 {
        return 0;
      }
      return if Number(a.v4) > Number(b.v4) then 1 else -1;
    }
    ghost var x, y := AddrBits(a), AddrBits(b);
    var i := 0;
    while i < 16
      invariant 0 <= i <= 16 && x[..8 * i] == y[..8 * i]
    {
      var p, q := Addr8(a, i), Addr8(b, i);
      NumberOrder(p, q);
      if Number(p) != Number(q) {
        ByteDecides(x, y, i);
        ByteDecides(y, x, i);
        return if Number(p) > Number(q) then 1 else -1;
      }
      assert x[..8 * (i + 1)] == x[..8 * i] + p && y[..8 * (i + 1)] == y[..8 * i] + q;
      i := i + 1;
    }
    assert x[..128] == x && y[..128] == y;
    BeforeTotal(x, y);
    if a.scopeId == b.scopeId {
      return 0;
    }
    return if a.scopeId > b.scopeId then 1 else -1;
  }

  /** addr8[i]. */
  function Addr8(a: Xaddr, i: nat): (b: Bits)
    requires Wf(a) && a.V6? && i < 16
    ensures |b| == 8
  {
    AddrBits(a)[8 * i..8 * i + 8]
  }

  /** `addr_netmatch`: 0 exactly when the network is one (its host bits are 0), the
      families agree, the first `masklen` bits agree, and so do IPv6 scopes. */
  method AddrNetmatch(host: Xaddr, net: Xaddr, masklen: U32) returns (r: int)
    requires Wf(host) && Wf(net) && (host.V4? ==> masklen != 0)
    ensures r == 0 <==>
      && host.V6? == net.V6? && masklen <= Width(net.V6?)
      && HostIsZero(AddrBits(net), masklen)
      && AddrBits(host)[..masklen] == AddrBits(net)[..masklen]
      && (host.V6? ==> host.scopeId == net.scopeId)
  {
    hide Less;
    if host.V6? != net.V6? {
      return -1;
    }
    var mask := AddrNetmask(host.V6?, masklen);
    if mask.None? {
      return -1;
    }
    var masked := AddrAnd(host, mask.value);
    r := AddrCmp(masked.value, net);
    SameAddress(masked.value, net);
    MaskedIs(AddrBits(host), AddrBits(net), masklen);
  }

  lemma SameAddress(a: Xaddr, b: Xaddr)
    requires Wf(a) && Wf(b) && a.V6? == b.V6?
    ensures a == b <==> AddrBits(a) == AddrBits(b) && (a.V6? ==> a.scopeId == b.scopeId)
  {
    if a.V6? && AddrBits(a) == AddrBits(b) {
      JoinInjective(a.addr32, b.addr32);
    }
  }

  lemma MaskedIs(h: Bits, n: Bits, masklen: nat)
    requires |h| == |n| && masklen <= |n|
    ensures And(h, Mask(masklen, |n|)) == n <==> HostIsZero(n, masklen) && h[..masklen] == n[..masklen]
  {
    var m := And(h, Mask(masklen, |n|));
    if m == n {
      forall i | 0 <= i < masklen ensures h[i] == n[i] {
        assert m[i] == h[i];
      }
    }
    if HostIsZero(n, masklen) && h[..masklen] == n[..masklen] {
      forall i | 0 <= i < |n| ensures m[i] == n[i] {
        if i < masklen {
          assert h[..masklen][i] == n[..masklen][i];
        }
      }
    }
  }
}
