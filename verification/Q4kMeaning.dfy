/** What the Q4_K kernels compute over the reals: dequantise, then dot. */
module Q4kMeaning {
  import opened Arith
  import opened Sums
  import opened QuantFormats
  import opened Q4kKernels

  function AsReal(b: bv8): real {
    b as int as real
  }

  /** Real arithmetic with some decoding of half-precision bits. */
  function RealOps(half: (bv8, bv8) -> real): Ops<real> {
    Ops(0.0, (a, b) => a + b, (a, b) => a - b, (a, b) => Mul(a, b), b => AsReal(b), half)
  }

  // ---- The matrix -----------------------------------------------------------

  /** Weight l of group j: scale * nibble - minimum. */
  ghost function Weight(half: (bv8, bv8) -> real, w: seq<bv8>, block: int, j: nat, l: int): real {
    Mul(Scale(RealOps(half), w, block, j), AsReal(Nibble(Byte(w, QuantBase(block, j) + l), j % 2 == 1)))
    - MinScale(RealOps(half), w, block, j)
  }

  /** Element c of the row that starts at byte "row". */
  ghost function Dequant(half: (bv8, bv8) -> real, w: seq<bv8>, row: int, c: nat): real {
    Weight(half, w, row + c / SUPER * SUPER_BYTES, c % SUPER / 32, c % 32)
  }

  ghost function RowTerm(half: (bv8, bv8) -> real, w: seq<bv8>, row: int, x: seq<real>, xRow: int, c: int): real {
    if c >= 0 then Mul(Dequant(half, w, row, c), Elem(x, xRow, c)) else 0.0
  }

  /** The dot product of a dequantised row with a stretch of x. */
  ghost function RowDotProduct(half: (bv8, bv8) -> real, w: seq<bv8>, row: int, x: seq<real>, xRow: int, k: nat): real {
    Sum(c => RowTerm(half, w, row, x, xRow, c), k)
  }

  // ---- One group ------------------------------------------------------------

  lemma {:induction false} SumXMeaning(half: (bv8, bv8) -> real, x: seq<real>, xBase: int, n: nat)
    ensures SumX(RealOps(half), x, xBase, n) == Sum(l => Elem(x, xBase, l), n)
  {
    if n > 0 {
      SumXMeaning(half, x, xBase, n - 1);
    }
  }

  lemma {:induction false} DotMeaning(half: (bv8, bv8) -> real, w: seq<bv8>, qs: int, high: bool, x: seq<real>, xBase: int, n: nat)
    ensures Dot(RealOps(half), w, qs, high, x, xBase, n)
         == Sum(l => Mul(AsReal(Nibble(Byte(w, qs + l), high)), Elem(x, xBase, l)), n)
  {
    hide AsReal, Nibble, Byte, Mul;
    if n > 0 {
      DotMeaning(half, w, qs, high, x, xBase, n - 1);
    }
  }

  ghost function Term(half: (bv8, bv8) -> real, w: seq<bv8>, block: int, x: seq<real>, xBlock: int, j: nat, l: int): real {
    Mul(Weight(half, w, block, j, l), Elem(x, xBlock + j * 32, l))
  }

  /** Scale and minimum distribute over the group's weights. */
  lemma {:induction false} WeightedSum(scale: real, min: real, nib: int -> real, xs: int -> real,
                                       dot: int -> real, term: int -> real, n: nat)
    requires forall l :: 0 <= l < n ==> dot(l) == Mul(nib(l), xs(l))
    requires forall l :: 0 <= l < n ==> term(l) == Mul(Mul(scale, nib(l)) - min, xs(l))
    ensures Mul(scale, Sum(dot, n)) - Mul(min, Sum(xs, n)) == Sum(term, n)
  {
    if n > 0 {
      WeightedSum(scale, min, nib, xs, dot, term, n - 1);
      Distribute(scale, nib(n - 1), min, xs(n - 1), Sum(dot, n - 1), Sum(xs, n - 1));
    }
  }

  lemma Distribute(scale: real, nib: real, min: real, x: real, dots: real, xs: real)
    ensures Mul(scale, dots + Mul(nib, x)) - Mul(min, xs + x)
         == Mul(scale, dots) - Mul(min, xs) + Mul(Mul(scale, nib) - min, x)
  {
  }

  lemma GroupMeaning(half: (bv8, bv8) -> real, w: seq<bv8>, block: int, x: seq<real>, xBlock: int, j: nat)
    ensures Group(RealOps(half), w, block, x, xBlock, j) == Sum(l => Term(half, w, block, x, xBlock, j, l), 32)
  {
    hide AsReal, Nibble, Byte, Scale, MinScale, Dot, SumX, Mul, QuantBase, Sum;
    var qs, high, xBase := QuantBase(block, j), j % 2 == 1, xBlock + j * 32;
    SumXMeaning(half, x, xBase, 32);
    DotMeaning(half, w, qs, high, x, xBase, 32);
    WeightedSum(Scale(RealOps(half), w, block, j), MinScale(RealOps(half), w, block, j),
                l => AsReal(Nibble(Byte(w, qs + l), high)), l => Elem(x, xBase, l),
                l => Mul(AsReal(Nibble(Byte(w, qs + l), high)), Elem(x, xBase, l)),
                l => Term(half, w, block, x, xBlock, j, l), 32);
  }

  // ---- Rows -----------------------------------------------------------------

  lemma {:induction false} GroupsMeaning(half: (bv8, bv8) -> real, w: seq<bv8>, block: int, x: seq<real>, xBlock: int, acc: real, n: nat)
    ensures Groups(RealOps(half), w, block, x, xBlock, acc, n)
         == acc + Sum(j => if j >= 0 then Group(RealOps(half), w, block, x, xBlock, j) else 0.0, n)
  {
    hide Group;
    if n > 0 {
      GroupsMeaning(half, w, block, x, xBlock, acc, n - 1);
    }
  }

  lemma RowTermAt(half: (bv8, bv8) -> real, w: seq<bv8>, row: int, x: seq<real>, xRow: int, sb: nat, j: nat, l: nat)
    requires j < 8 && l < 32
    ensures RowTerm(half, w, row, x, xRow, sb * SUPER + (j * 32 + l))
         == Term(half, w, row + sb * SUPER_BYTES, x, xRow + sb * SUPER, j, l)
  {
    hide Weight;
    var c := sb * SUPER + (j * 32 + l);
    assert c / SUPER == sb && c % SUPER / 32 == j && c % 32 == l;
  }

  /** The groups of one super-block. */
  lemma BlockMeaning(half: (bv8, bv8) -> real, w: seq<bv8>, row: int, x: seq<real>, xRow: int, sb: nat, acc: real)
    ensures Groups(RealOps(half), w, row + sb * SUPER_BYTES, x, xRow + sb * SUPER, acc, 8)
         == acc + Sum(i => RowTerm(half, w, row, x, xRow, sb * SUPER + i), SUPER)
  {
    hide Group, Groups, RowTerm, Term, Sum, Times;
    var block, xBlock := row + sb * SUPER_BYTES, xRow + sb * SUPER;
    var group := j => if j >= 0 then Group(RealOps(half), w, block, x, xBlock, j) else 0.0;
    var part := j => l => if j >= 0 then Term(half, w, block, x, xBlock, j, l) else 0.0;
    var flat := i => RowTerm(half, w, row, x, xRow, sb * SUPER + i);
    GroupsMeaning(half, w, block, x, xBlock, acc, 8);
    forall j | 0 <= j < 8
      ensures group(j) == Sum(part(j), 32)
    {
      GroupMeaning(half, w, block, x, xBlock, j);
      SumCongruence(part(j), l => Term(half, w, block, x, xBlock, j, l), 32);
    }
    forall j, l | 0 <= j < 8 && 0 <= l < 32
      ensures part(j)(l) == flat(Times(j, 32) + l)
    {
      RowTermAt(half, w, row, x, xRow, sb, j, l);
      TimesIsProduct(j, 32);
    }
    SumBlocks(flat, 8, 32, part, group);
    TimesIsProduct(8, 32);
  }

  /** A thread's accumulator is the dot product of the dequantised row with x. */
  lemma {:induction false} RowMeaning(half: (bv8, bv8) -> real, w: seq<bv8>, row: int, x: seq<real>, xRow: int, superblocks: nat)
    ensures RowAcc(RealOps(half), w, row, x, xRow, superblocks)
         == RowDotProduct(half, w, row, x, xRow, superblocks * SUPER)
  {
    hide Groups, RowTerm, Sum;
    if superblocks == 0 {
      assert RowDotProduct(half, w, row, x, xRow, 0) == 0.0 by { NoTerms(c => RowTerm(half, w, row, x, xRow, c)); }
    } else {
      var sb := superblocks - 1;
      RowMeaning(half, w, row, x, xRow, sb);
      BlockMeaning(half, w, row, x, xRow, sb, RowAcc(RealOps(half), w, row, x, xRow, sb));
      SumSplit(c => RowTerm(half, w, row, x, xRow, c), sb * SUPER,
               i => RowTerm(half, w, row, x, xRow, sb * SUPER + i), SUPER);
    }
  }

  lemma NoTerms(f: int -> real)
    ensures Sum(f, 0) == 0.0
  {
  }

  // ---- The kernels ----------------------------------------------------------

  /** Over the reals q4k_matvec's row is the dequantised row's dot product with x, as
      long as the row's byte offset fits 32 bits. */
  lemma MatVecMeaning(half: (bv8, bv8) -> real, w: seq<bv8>, x: seq<real>, k: nat, r: nat)
    requires k % SUPER == 0 && Times(r, RowBytes(k)) < U32
    ensures RowResult(RealOps(half), w, x, k, r) == RowDotProduct(half, w, Times(r, RowBytes(k)), x, 0, k)
  {
    hide RowAcc, RowDotProduct, Times, MulU32;
    RowMeaning(half, w, Times(r, RowBytes(k)), x, 0, k / SUPER);
  }

  /** The kernel meets its promise for row r on all weights and inputs exactly when
      that offset fits: beyond it the thread reads an earlier row's bytes. "one" is any
      half-precision pattern that does not decode to zero. */
  lemma MatVecExact(half: (bv8, bv8) -> real, one: (bv8, bv8), n: nat, k: nat, r: nat)
    requires half(0, 0) == 0.0 && half(one.0, one.1) != 0.0
    requires 0 < k < U32 && k % SUPER == 0 && r < n
    ensures Times(r, RowBytes(k)) < U32 <==>
      forall w: seq<bv8>, x: seq<real> :: |w| == Times(n, RowBytes(k)) && |x| == k ==>
        RowResult(RealOps(half), w, x, k, r) == RowDotProduct(half, w, Times(r, RowBytes(k)), x, 0, k)
  {
    hide RowDotProduct, RowAcc, Times, OneWeight, UnitX, MulU32;
    if Times(r, RowBytes(k)) < U32 {
      forall w: seq<bv8>, x: seq<real> | |w| == Times(n, RowBytes(k)) && |x| == k
        ensures RowResult(RealOps(half), w, x, k, r) == RowDotProduct(half, w, Times(r, RowBytes(k)), x, 0, k)
      {
        MatVecMeaning(half, w, x, k, r);
      }
    } else {
      TimesOrdered(r, n, RowBytes(k));
      var w := OneWeight(one, Times(n, RowBytes(k)), Times(r, RowBytes(k)));
      UnitElem(UnitX(k, 0), k, 0, 0);
      OneWeightRow(half, one, Times(n, RowBytes(k)), Times(r, RowBytes(k)), 0, UnitX(k, 0), 0, k);
      WrappedRow(half, one, Times(n, RowBytes(k)), k, r, UnitX(k, 0), 0);
      assert RowResult(RealOps(half), w, UnitX(k, 0), k, r)
          != RowDotProduct(half, w, Times(r, RowBytes(k)), UnitX(k, 0), 0, k);
    }
  }

  // ---- Witnesses -------------------------------------------------------------

  /** Weights that are zero but for the first of the super-block at byte "block". */
  ghost function OneWeight(one: (bv8, bv8), bytes: nat, block: nat): (w: seq<bv8>)
    ensures |w| == bytes
  {
    seq(bytes, i => if i == block then one.0 else if i == block + 1 then one.1
                    else if i == block + 4 || i == block + 16 then 1 else 0)
  }

  /** The one weight meets whatever the input holds there. */
  lemma OneWeightRow(half: (bv8, bv8) -> real, one: (bv8, bv8), bytes: nat, row: nat, sb: nat, x: seq<real>, xRow: nat, k: nat)
    requires half(0, 0) == 0.0
    requires sb * SUPER < k && row + sb * SUPER_BYTES + SUPER_BYTES <= bytes
    requires forall c :: 0 <= c < k && c != sb * SUPER ==> Elem(x, xRow, c) == 0.0
    ensures RowDotProduct(half, OneWeight(one, bytes, row + sb * SUPER_BYTES), row, x, xRow, k)
         == Mul(half(one.0, one.1), Elem(x, xRow, sb * SUPER))
  {
    hide Weight, Dequant, OneWeight;
    var w := OneWeight(one, bytes, row + sb * SUPER_BYTES);
    var none := (c: int) => 0.0;
    var term := c => RowTerm(half, w, row, x, xRow, c);
    forall c | 0 <= c < k && c != sb * SUPER
      ensures none(c) == term(c)
    {
      assert Elem(x, xRow, c) == 0.0;
    }
    SumZero(none, k);
    SumUpdate(none, term, k, sb * SUPER);
    FirstWeight(half, one, bytes, row + sb * SUPER_BYTES);
    FirstOfBlock(half, w, row, sb);
  }

  lemma FirstWeight(half: (bv8, bv8) -> real, one: (bv8, bv8), bytes: nat, block: nat)
    requires half(0, 0) == 0.0 && block + SUPER_BYTES <= bytes
    ensures Weight(half, OneWeight(one, bytes, block), block, 0, 0) == half(one.0, one.1)
  {
  }

  lemma FirstOfBlock(half: (bv8, bv8) -> real, w: seq<bv8>, row: nat, sb: nat)
    ensures Dequant(half, w, row, sb * SUPER) == Weight(half, w, row + sb * SUPER_BYTES, 0, 0)
  {
    hide Weight;
  }

  /** A stretch of zeros in the input. */
  lemma NoInput(half: (bv8, bv8) -> real, w: seq<bv8>, row: int, x: seq<real>, xRow: int, k: nat)
    requires forall c :: 0 <= c < k ==> Elem(x, xRow, c) == 0.0
    ensures RowDotProduct(half, w, row, x, xRow, k) == 0.0
  {
    hide Dequant;
    SumZero(c => RowTerm(half, w, row, x, xRow, c), k);
  }

  /** A row of zero bytes. */
  lemma NoWeights(half: (bv8, bv8) -> real, w: seq<bv8>, row: nat, x: seq<real>, xRow: int, k: nat)
    requires half(0, 0) == 0.0 && k % SUPER == 0
    requires forall i :: row <= i < row + RowBytes(k) ==> Byte(w, i) == 0
    ensures RowDotProduct(half, w, row, x, xRow, k) == 0.0
  {
    hide Dequant;
    forall c | 0 <= c < k
      ensures RowTerm(half, w, row, x, xRow, c) == 0.0
    {
      ZeroWeight(half, w, row, k, c);
    }
    SumZero(c => RowTerm(half, w, row, x, xRow, c), k);
  }

  /** A row's product depends on the row's own bytes alone. */
  lemma RowLocal(half: (bv8, bv8) -> real, w: seq<bv8>, w': seq<bv8>, row: nat, x: seq<real>, xRow: int, k: nat)
    requires k % SUPER == 0
    requires forall i :: row <= i < row + RowBytes(k) ==> Byte(w, i) == Byte(w', i)
    ensures RowDotProduct(half, w, row, x, xRow, k) == RowDotProduct(half, w', row, x, xRow, k)
  {
    hide Dequant, Sum, RowBytes;
    forall c | 0 <= c < k
      ensures RowTerm(half, w, row, x, xRow, c) == RowTerm(half, w', row, x, xRow, c)
    {
      SameWeight(half, w, w', row, k, c);
    }
    SumCongruence(c => RowTerm(half, w, row, x, xRow, c), c => RowTerm(half, w', row, x, xRow, c), k);
  }

  lemma SameWeight(half: (bv8, bv8) -> real, w: seq<bv8>, w': seq<bv8>, row: nat, k: nat, c: nat)
    requires k % SUPER == 0 && c < k
    requires forall i :: row <= i < row + RowBytes(k) ==> Byte(w, i) == Byte(w', i)
    ensures Dequant(half, w, row, c) == Dequant(half, w', row, c)
  {
    hide Byte, Nibble, Mul, AsReal;
    var block, j := row + c / SUPER * SUPER_BYTES, c % SUPER / 32;
    assert row <= block && block + SUPER_BYTES <= row + RowBytes(k);
    assert forall i :: block <= i < block + SUPER_BYTES ==> Byte(w, i) == Byte(w', i);
    SameScales(half, w, w', block, j);
    assert block <= QuantBase(block, j) + c % 32 < block + SUPER_BYTES;
  }

  lemma SameScales(half: (bv8, bv8) -> real, w: seq<bv8>, w': seq<bv8>, block: nat, j: nat)
    requires j < 8 && forall i :: block <= i < block + SUPER_BYTES ==> Byte(w, i) == Byte(w', i)
    ensures Scale(RealOps(half), w, block, j) == Scale(RealOps(half), w', block, j)
    ensures MinScale(RealOps(half), w, block, j) == MinScale(RealOps(half), w', block, j)
  {
    hide Byte, Mul, AsReal;
  }

  /** A thread whose row offset wraps misses the one weight. */
  lemma WrappedRow(half: (bv8, bv8) -> real, one: (bv8, bv8), bytes: nat, k: nat, r: nat, x: seq<real>, xRow: nat)
    requires half(0, 0) == 0.0 && 0 < k < U32 && k % SUPER == 0
    requires U32 <= Times(r, RowBytes(k))
    ensures RowAcc(RealOps(half), OneWeight(one, bytes, Times(r, RowBytes(k))), MulU32(r, RowBytes(k)), x, xRow, k / SUPER) == 0.0
  {
    hide RowAcc, Times, RowDotProduct;
    WrapDistance(r, RowBytes(k));
    MissedRow(half, one, bytes, Times(r, RowBytes(k)), MulU32(r, RowBytes(k)), k, x, xRow);
  }

  /** So does any read that ends before it. */
  lemma MissedRow(half: (bv8, bv8) -> real, one: (bv8, bv8), bytes: nat, at: nat, read: nat, k: nat, x: seq<real>, xRow: nat)
    requires half(0, 0) == 0.0 && k % SUPER == 0 && read + RowBytes(k) <= at
    ensures RowAcc(RealOps(half), OneWeight(one, bytes, at), read, x, xRow, k / SUPER) == 0.0
  {
    hide RowAcc, RowDotProduct;
    var w := OneWeight(one, bytes, at);
    RowMeaning(half, w, read, x, xRow, k / SUPER);
    NoWeights(half, w, read, x, xRow, k);
  }

  lemma ZeroWeight(half: (bv8, bv8) -> real, w: seq<bv8>, row: nat, k: nat, c: nat)
    requires half(0, 0) == 0.0 && k % SUPER == 0 && c < k
    requires forall i :: row <= i < row + RowBytes(k) ==> Byte(w, i) == 0
    ensures Dequant(half, w, row, c) == 0.0
  {
    hide Byte, Nibble, AsReal, Scale, MinScale;
    var block, j := row + c / SUPER * SUPER_BYTES, c % SUPER / 32;
    assert row <= block && block + SUPER_BYTES <= row + RowBytes(k);
    assert Byte(w, block) == Byte(w, block + 1) == Byte(w, block + 2) == Byte(w, block + 3) == 0;
    ZeroScales(half, w, block, j);
  }

  lemma ZeroScales(half: (bv8, bv8) -> real, w: seq<bv8>, block: nat, j: nat)
    requires half(0, 0) == 0.0
    requires Byte(w, block) == Byte(w, block + 1) == Byte(w, block + 2) == Byte(w, block + 3) == 0
    ensures Scale(RealOps(half), w, block, j) == 0.0 && MinScale(RealOps(half), w, block, j) == 0.0
  {
    hide Byte, AsReal, Scale6, Min6;
  }
}
