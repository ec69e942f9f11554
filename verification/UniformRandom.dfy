/** `arc4random_uniform`: numbers below a bound without modulo bias. */
module UniformRandom {
  import opened Bytes

  /** The branch for bounds above 2^31, in 32-bit arithmetic: 1 + ~bound. */
  function MinLarge(bound: U32): (m: U32) {
    (1 + (0xffff_ffff - bound)) % 0x1_0000_0000
  }

  /** The other branch; the doubling, the difference and the sum all wrap around. */
  function MinSmall(bound: U32): (m: U32)
    requires bound > 0
  {
    Folded(bound) % bound
  }

  function Folded(bound: U32): (m: U32) {
    ((0xffff_ffff - bound * 2 % 0x1_0000_0000) % 0x1_0000_0000 + 1) % 0x1_0000_0000
  }

  /** The numbers below this are drawn again. */
  function Min(bound: U32): (m: U32)
    requires bound >= 2
  {
    if bound > 0x8000_0000 then MinLarge(bound) else MinSmall(bound)
  }

  lemma NoSmallMultiple(d: int, b: int)
    requires b > 0 && -b < d * b < b
    ensures d == 0
  {
  }

  lemma ModIs(a: int, q: int, b: int, r: int)
    requires b > 0 && 0 <= r < b && a == q * b + r
    ensures a % b == r && a / b == q
  {
    assert (a / b - q) * b == r - a % b;
    NoSmallMultiple(a / b - q, b);
  }

  lemma FoldedIs(bound: U32)
    requires 0 < bound <= 0x8000_0000
    ensures Folded(bound) == if bound == 0x8000_0000 then 0 else TWO32 - 2 * bound
  {
  }

  lemma SmallIsRemainder(bound: U32)
    requires 0 < bound <= 0x8000_0000
    ensures MinSmall(bound) == TWO32 % bound
  {
    hide Folded;
    FoldedIs(bound);
    if bound == 0x8000_0000 {
      ModIs(TWO32, 2, bound, 0);
      ModIs(0, 0, bound, 0);
    } else {
      var x := Folded(bound);
      assert TWO32 == x / bound * bound + x % bound + 2 * bound;
      ModIs(TWO32, x / bound + 2, bound, x % bound);
    }
  }

  /** Both branches give 2^32 mod bound, for every bound. */
  lemma MinIsRemainder(bound: U32)
    requires bound >= 2
    ensures Min(bound) == TWO32 % bound
  {
    hide MinSmall;
    if bound > 0x8000_0000 {
      ModIs(TWO32, 1, bound, TWO32 - bound);
    } else {
      SmallIsRemainder(bound);
    }
  }

  /** Fewer than half of the draws are thrown away. */
  lemma MostAreKept(bound: U32)
    requires bound >= 2
    ensures 2 * Min(bound) < TWO32
  {
    MinIsRemainder(bound);
  }

  /** The numbers of an interval with a given remainder. */
  ghost function Residues(lo: int, hi: int, bound: int, c: int): (s: set<int>)
    requires bound > 0
  {
    set r | lo <= r < hi && r % bound == c
  }

  /** Of `bound` numbers in a row exactly one has the remainder `c`. */
  lemma OneInARow(lo: int, bound: int, c: int) returns (x: int)
    requires 0 <= c < bound
    ensures lo <= x < lo + bound && x % bound == c
    ensures forall y :: lo <= y < lo + bound && y % bound == c ==> y == x
  {
    var q, h := lo / bound, lo % bound;
    assert lo == q * bound + h;
    if c >= h {
      x := q * bound + c;
      ModIs(x, q, bound, c);
    } else {
      x := (q + 1) * bound + c;
      ModIs(x, q + 1, bound, c);
    }
    forall y | lo <= y < lo + bound && y % bound == c ensures y == x {
      SameRemainder(x, y, bound);
    }
  }

  lemma SameRemainder(x: int, y: int, b: int)
    requires b > 0 && x % b == y % b && -b < x - y < b
    ensures x == y
  {
    assert x - y == (x / b - y / b) * b;
    NoSmallMultiple(x / b - y / b, b);
  }

  lemma ResiduesGrow(lo: int, mid: int, bound: int, c: int)
    requires 0 <= c < bound && lo <= mid
    ensures |Residues(lo, mid + bound, bound, c)| == |Residues(lo, mid, bound, c)| + 1
  {
    var x := OneInARow(mid, bound, c);
    assert Residues(lo, mid + bound, bound, c) == Residues(lo, mid, bound, c) + {x};
  }

  lemma Product(k: nat, b: nat)
    ensures k * b >= 0 && (k + 1) * b == k * b + b
  {
  }

  lemma {:induction false} ResiduesCounted(lo: int, k: nat, bound: int, c: int)
    requires 0 <= c < bound
    ensures |Residues(lo, lo + k * bound, bound, c)| == k
    decreases k
  {
    hide Residues;
    if k == 0 {
      NoResidues(lo, bound, c);
    } else {
      Product(k - 1, bound);
      ResiduesCounted(lo, k - 1, bound, c);
      ResiduesGrow(lo, lo + (k - 1) * bound, bound, c);
    }
  }

  lemma NoResidues(lo: int, bound: int, c: int)
    requires bound > 0
    ensures |Residues(lo, lo, bound, c)| == 0
  {
    assert Residues(lo, lo, bound, c) == {};
  }

  /** No bias: every result below the bound comes from exactly floor(2^32 / bound) of
      the 32-bit numbers that are not drawn again. */
  lemma EveryResultEquallyLikely(bound: U32, c: int)
    requires bound >= 2 && 0 <= c < bound
    ensures |Residues(Min(bound), TWO32, bound, c)| == TWO32 / bound
  {
    hide Residues, Min;
    MinIsRemainder(bound);
    assert TWO32 == TWO32 / bound * bound + TWO32 % bound;
    ResiduesCounted(Min(bound), TWO32 / bound, bound, c);
  }

  /** `arc4random_uniform` over the numbers `draw(0)`, `draw(1)`, ... of the generator:
      it takes the first one that is large enough.  `enough` bounds the search. */
  method Arc4RandomUniform(bound: U32, draw: nat -> U32, ghost enough: nat) returns (r: U32, used: nat)
    requires bound >= 2 ==> draw(enough) >= Min(bound)
    ensures bound < 2 ==> r == 0 && used == 0
    ensures bound >= 2 ==> r == draw(used) % bound && draw(used) >= TWO32 % bound
    ensures bound >= 2 ==> forall j :: 0 <= j < used ==> draw(j) < TWO32 % bound
  {
    r, used := 0, 0;
    if bound < 2 {
      return;
    }
    hide MinLarge, MinSmall;
    MinIsRemainder(bound);
    var min := if bound > 0x8000_0000 then MinLarge(bound) else MinSmall(bound);
    while draw(used) < min
      invariant used <= enough
      invariant forall j :: 0 <= j < used ==> draw(j) < min
      decreases enough - used
    {
      used := used + 1;
    }
    r := draw(used) % bound;
  }
}
