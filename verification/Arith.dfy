/** Index arithmetic shared by the kernels. */
module Arith {

  lemma MulBounds(q: int, b: nat)
    ensures q >= 1 ==> q * b >= b
    ensures q <= -1 ==> q * b <= -(b as int)
    ensures q <= 0 ==> q * b <= 0
  {
  }

  /** Quotient and remainder are the only way to write x as q * b + r. */
  lemma DivModUnique(x: nat, b: nat, q: nat, r: nat)
    requires r < b && x == q * b + r
    ensures x / b == q && x % b == r
  {
    var d := x / b - q;
    assert d * b == r - x % b;
    MulBounds(d, b);
  }

  lemma SameRemainder(i: nat, b: nat)
    requires b > 0
    ensures (i + b) % b == i % b
  {
    DivModUnique(i + b, b, i / b + 1, i % b);
  }

  lemma NewRemainder(i: nat, d: nat, b: nat)
    requires 0 < d < b
    ensures (i + d) % b != i % b
  {
    var q := (i + d) / b - i / b;
    assert (i + d) % b - i % b == d - q * b;
    MulBounds(q, b);
  }

  /** b * w by repeated addition: the start of block b among blocks of width w.
      It keeps products of two variables out of the solver's way. */
  ghost function Times(b: nat, w: nat): nat {
    if b == 0 then 0 else Times(b - 1, w) + w
  }

  lemma NoTimes(w: nat)
    ensures Times(0, w) == 0
  {
  }

  lemma {:induction false} TimesIsProduct(b: nat, w: nat)
    ensures Times(b, w) == b * w
  {
    if b > 0 {
      TimesIsProduct(b - 1, w);
    }
  }

  /** Blocks do not overlap. */
  lemma {:induction false} TimesOrdered(b: nat, c: nat, w: nat)
    requires b < c
    ensures Times(b, w) + w <= Times(c, w)
  {
    if b < c - 1 {
      TimesOrdered(b, c - 1, w);
    }
  }

  /** Every position belongs to one of the blocks. */
  lemma {:induction false} LocateBlock(i: nat, blocks: nat, w: nat) returns (b: nat, r: nat)
    requires i < Times(blocks, w)
    ensures b < blocks && r < w && i == Times(b, w) + r
  {
    if i < Times(blocks - 1, w) {
      b, r := LocateBlock(i, blocks - 1, w);
    } else {
      b, r := blocks - 1, i - Times(blocks - 1, w);
    }
  }

  lemma {:induction false} TimesAdd(a: nat, b: nat, w: nat)
    ensures Times(a + b, w) == Times(a, w) + Times(b, w)
  {
    if b > 0 {
      TimesAdd(a, b - 1, w);
    }
  }

  /** Blocks of blocks. */
  lemma {:induction false} TimesNested(a: nat, b: nat, w: nat)
    ensures Times(Times(a, b), w) == Times(a, Times(b, w))
  {
    if a > 0 {
      TimesNested(a - 1, b, w);
      TimesAdd(Times(a - 1, b), b, w);
    }
  }

  lemma MulMonotone(a: nat, a': nat, b: nat, b': nat)
    requires a <= a' && b <= b'
    ensures a * b <= a' * b'
  {
    assert a * b <= a * b';
    assert a * b' <= a' * b';
  }

  lemma TimesMonotone(a: nat, b: nat, v: nat, w: nat)
    requires a <= b && v <= w
    ensures Times(a, v) <= Times(b, w)
  {
    TimesIsProduct(a, v);
    TimesIsProduct(a, w);
    TimesIsProduct(b, w);
    MulMonotone(a, b, v, w);
  }

  /** The start of block b among blocks of width w. */
  method Offset(b: nat, w: nat) returns (o: nat)
    ensures o == Times(b, w)
  {
    TimesIsProduct(b, w);
    o := b * w;
  }

  const USIZE_MAX: nat := 0xFFFF_FFFF_FFFF_FFFF

  const U32: nat := 0x1_0000_0000

  /** The device's 32-bit product of two unsigned integers. */
  function MulU32(a: nat, b: nat): (r: nat)
    ensures r < U32 && r <= Times(a, b)
    ensures Times(a, b) < U32 ==> r == Times(a, b)
  {
    TimesIsProduct(a, b);
    a * b % U32
  }

  /** A product that wraps falls short by a whole 2^32 at least. */
  lemma WrapDistance(r: nat, b: nat)
    requires Times(r, b) >= U32
    ensures MulU32(r, b) + U32 <= Times(r, b)
  {
    TimesIsProduct(r, b);
  }
}
