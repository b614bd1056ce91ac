/** The Q6_K matrix-vector kernel over the reals. */
module Q6kKernel {
  import opened Arith
  import opened Sums
  import opened BlockReduce
  import opened QuantFormats

  const SUPER: nat := 256
  const SUPER_BYTES: nat := 210

  function RowBytes(k: nat): nat {
    k / SUPER * SUPER_BYTES
  }

  /** 6.5625 bits a weight. */
  lemma BitsPerWeight(k: nat)
    requires k % 256 == 0
    ensures 8 * RowBytes(k) * 16 == 105 * k
  {
    assert k == 256 * (k / 256);
  }

  function SignedByte(b: bv8): int {
    if b < 128 then b as int else b as int - 256
  }

  /** The scale of the 16 weights of group j. */
  function GroupScale(half: (bv8, bv8) -> real, w: seq<bv8>, block: int, j: int): real {
    Mul(half(Byte(w, block + 208), Byte(w, block + 209)), SignedByte(Byte(w, block + 192 + j)) as real)
  }

  function QuantValue(w: seq<bv8>, block: int, idx: int): real {
    if idx >= 0 then Value6(w, block, block + 128, idx) as real else 0.0
  }

  ghost function GroupTerm(w: seq<bv8>, block: int, x: seq<real>, xBlock: int, j: int, i: int): real {
    Mul(QuantValue(w, block, j * 16 + i), Elem(x, xBlock + j * 16, i))
  }

  ghost function Dot(w: seq<bv8>, block: int, x: seq<real>, xBlock: int, j: int, n: nat): real {
    Sum(i => GroupTerm(w, block, x, xBlock, j, i), n)
  }

  ghost function Group(half: (bv8, bv8) -> real, w: seq<bv8>, block: int, x: seq<real>, xBlock: int, j: int): real {
    Mul(GroupScale(half, w, block, j), Dot(w, block, x, xBlock, j, 16))
  }

  ghost function Groups(half: (bv8, bv8) -> real, w: seq<bv8>, block: int, x: seq<real>, xBlock: int, n: nat): real {
    Sum(j => Group(half, w, block, x, xBlock, j), n)
  }

  ghost function Block(half: (bv8, bv8) -> real, w: seq<bv8>, row: int, x: seq<real>, sb: int): real {
    Groups(half, w, row + sb * SUPER_BYTES, x, sb * SUPER, 16)
  }

  /** What the loops accumulate for the row that starts at byte "row". */
  ghost function RowAcc(half: (bv8, bv8) -> real, w: seq<bv8>, row: int, x: seq<real>, superblocks: nat): real {
    Sum(sb => Block(half, w, row, x, sb), superblocks)
  }

  /** The value the layout gives to element c of a row: the super-block's scale times
      the group's scale times the six-bit quant minus 32. */
  ghost function Dequant(half: (bv8, bv8) -> real, w: seq<bv8>, row: int, c: int): real {
    var block := row + c / SUPER * SUPER_BYTES;
    Mul(GroupScale(half, w, block, c % SUPER / 16), QuantValue(w, block, c % SUPER))
  }

  ghost function RowTerm(half: (bv8, bv8) -> real, w: seq<bv8>, row: int, x: seq<real>, c: int): real {
    Mul(Dequant(half, w, row, c), At(x, c))
  }

  ghost function RowDotProduct(half: (bv8, bv8) -> real, w: seq<bv8>, row: int, x: seq<real>, k: nat): real {
    Sum(c => RowTerm(half, w, row, x, c), k)
  }

  lemma Reassociate(a: real, b: real, c: real)
    ensures Mul(a, Mul(b, c)) == Mul(Mul(a, b), c)
  {
  }

  lemma RowTermAt(half: (bv8, bv8) -> real, w: seq<bv8>, row: int, x: seq<real>, sb: nat, j: nat, i: nat)
    requires j < 16 && i < 16
    ensures RowTerm(half, w, row, x, sb * SUPER + (j * 16 + i))
         == Mul(GroupScale(half, w, row + sb * SUPER_BYTES, j), GroupTerm(w, row + sb * SUPER_BYTES, x, sb * SUPER, j, i))
  {
    hide GroupScale, QuantValue, Mul;
    var c := sb * SUPER + (j * 16 + i);
    assert c / SUPER == sb && c % SUPER == j * 16 + i && c % SUPER / 16 == j;
    Reassociate(GroupScale(half, w, row + sb * SUPER_BYTES, j), QuantValue(w, row + sb * SUPER_BYTES, j * 16 + i), At(x, c));
  }

  lemma BlockMeaning(half: (bv8, bv8) -> real, w: seq<bv8>, row: int, x: seq<real>, sb: nat)
    ensures Block(half, w, row, x, sb) == Sum(i => RowTerm(half, w, row, x, sb * SUPER + i), SUPER)
  {
    hide GroupScale, GroupTerm, RowTerm, Sum, Mul, Times;
    var block, xBlock := row + sb * SUPER_BYTES, sb * SUPER;
    var flat := i => RowTerm(half, w, row, x, sb * SUPER + i);
    var part := j => i => Mul(GroupScale(half, w, block, j), GroupTerm(w, block, x, xBlock, j, i));
    forall j | 0 <= j < 16
      ensures Group(half, w, block, x, xBlock, j) == Sum(part(j), 16)
    {
      SumScale(GroupScale(half, w, block, j), i => GroupTerm(w, block, x, xBlock, j, i), part(j), 16);
    }
    forall j, i | 0 <= j < 16 && 0 <= i < 16
      ensures part(j)(i) == flat(Times(j, 16) + i)
    {
      RowTermAt(half, w, row, x, sb, j, i);
      TimesIsProduct(j, 16);
    }
    SumBlocks(flat, 16, 16, part, j => Group(half, w, block, x, xBlock, j));
    TimesIsProduct(16, 16);
  }

  lemma RowStep(half: (bv8, bv8) -> real, w: seq<bv8>, row: int, x: seq<real>, sb: nat)
    ensures RowAcc(half, w, row, x, 0) == 0.0 && RowDotProduct(half, w, row, x, 0) == 0.0
    ensures RowAcc(half, w, row, x, sb + 1) == RowAcc(half, w, row, x, sb) + Block(half, w, row, x, sb)
  {
  }

  /** A thread's accumulator is the dot product of the dequantised row with x. */
  lemma {:induction false} RowMeaning(half: (bv8, bv8) -> real, w: seq<bv8>, row: int, x: seq<real>, superblocks: nat)
    ensures RowAcc(half, w, row, x, superblocks) == RowDotProduct(half, w, row, x, superblocks * SUPER)
  {
    hide Block, RowTerm, Sum, RowAcc;
    RowStep(half, w, row, x, if superblocks > 0 then superblocks - 1 else 0);
    if superblocks > 0 {
      var sb := superblocks - 1;
      RowMeaning(half, w, row, x, sb);
      BlockMeaning(half, w, row, x, sb);
      SumSplit(c => RowTerm(half, w, row, x, c), sb * SUPER, i => RowTerm(half, w, row, x, sb * SUPER + i), SUPER);
    }
  }

  /** A row's product depends on the row's own bytes alone. */
  lemma RowLocal(half: (bv8, bv8) -> real, w: seq<bv8>, row: nat, x: seq<real>, k: nat)
    requires k % SUPER == 0 && row + RowBytes(k) <= |w|
    ensures RowDotProduct(half, w, row, x, k) == RowDotProduct(half, w[row..row + RowBytes(k)], 0, x, k)
  {
    hide RowTerm;
    var own := w[row..row + RowBytes(k)];
    forall c | 0 <= c < k
      ensures RowTerm(half, w, row, x, c) == RowTerm(half, own, 0, x, c)
    {
      DequantLocal(half, w, row, k, c);
    }
    SumCongruence(c => RowTerm(half, w, row, x, c), c => RowTerm(half, own, 0, x, c), k);
  }

  lemma DequantLocal(half: (bv8, bv8) -> real, w: seq<bv8>, row: nat, k: nat, c: nat)
    requires k % SUPER == 0 && row + RowBytes(k) <= |w| && c < k
    ensures forall x: seq<real> :: RowTerm(half, w, row, x, c) == RowTerm(half, w[row..row + RowBytes(k)], 0, x, c)
  {
    hide SignedByte, Mul, AsSigned, SubU32;
    var own, block := w[row..row + RowBytes(k)], c / SUPER * SUPER_BYTES;
    assert block + SUPER_BYTES <= RowBytes(k);
    forall i | block <= i < block + SUPER_BYTES
      ensures Byte(own, i) == Byte(w, row + i)
    {
    }
    var idx := c % SUPER;
    assert Quant6(own, block, block + 128, idx) == Quant6(w, row + block, row + block + 128, idx);
    assert GroupScale(half, own, block, idx / 16) == GroupScale(half, w, row + block, idx / 16);
  }

  // ---- The kernel -----------------------------------------------------------

  /** The inner loop over 16 weights, with the nibble and bit-pair extraction. */
  method GroupDot(w: array<bv8>, block: nat, x: array<real>, xBlock: nat, j: nat) returns (dot: real)
    requires block + SUPER_BYTES <= w.Length && xBlock + SUPER <= x.Length && j < 16
    ensures dot == Dot(w[..], block, x[..], xBlock, j, 16)
  {
    hide Mul, GroupTerm;
    dot := 0.0;
    for i := 0 to 16
      invariant dot == Dot(w[..], block, x[..], xBlock, j, i)
    {
      var val := ReadQuant(w, block, j * 16 + i);
      TermAt(w[..], block, x[..], xBlock, j, i);
      dot := dot + Mul(val as real, x[xBlock + j * 16 + i]);
    }
  }

  lemma TermAt(w: seq<bv8>, block: nat, x: seq<real>, xBlock: nat, j: nat, i: nat)
    requires xBlock + SUPER <= |x| && j < 16 && i < 16
    ensures GroupTerm(w, block, x, xBlock, j, i) == Mul(Value6(w, block, block + 128, j * 16 + i) as real, x[xBlock + j * 16 + i])
  {
  }

  method ReadQuant(w: array<bv8>, block: nat, idx: nat) returns (val: int)
    requires block + SUPER_BYTES <= w.Length && idx < SUPER
    ensures val == Value6(w[..], block, block + 128, idx)
  {
    var lo4 := if idx % 2 == 0 then w[block + idx / 2] & 0x0F else (w[block + idx / 2] >> 4) & 0x0F;
    var hi2 := (w[block + 128 + idx / 4] >> (idx % 4 * 2)) & 0x03;
    val := AsSigned(SubU32((lo4 | (hi2 << 4)) as int, 32));
  }

  method RowDot(half: (bv8, bv8) -> real, w: array<bv8>, row: nat, x: array<real>, superblocks: nat) returns (acc: real)
    requires row + superblocks * SUPER_BYTES <= w.Length && superblocks * SUPER <= x.Length
    ensures acc == RowAcc(half, w[..], row, x[..], superblocks)
  {
    hide Groups;
    acc := 0.0;
    for sb := 0 to superblocks
      invariant acc == RowAcc(half, w[..], row, x[..], sb)
    {
      acc := BlockDot(half, w, row + sb * SUPER_BYTES, x, sb * SUPER, acc);
    }
  }

  method BlockDot(half: (bv8, bv8) -> real, w: array<bv8>, block: nat, x: array<real>, xBlock: nat, acc0: real)
    returns (acc: real)
    requires block + SUPER_BYTES <= w.Length && xBlock + SUPER <= x.Length
    ensures acc == acc0 + Groups(half, w[..], block, x[..], xBlock, 16)
  {
    hide Group;
    acc := acc0;
    for j := 0 to 16
      invariant acc == acc0 + Groups(half, w[..], block, x[..], xBlock, j)
    {
      var v := OneGroup(half, w, block, x, xBlock, j);
      acc := acc + v;
    }
  }

  method OneGroup(half: (bv8, bv8) -> real, w: array<bv8>, block: nat, x: array<real>, xBlock: nat, j: nat) returns (v: real)
    requires block + SUPER_BYTES <= w.Length && xBlock + SUPER <= x.Length && j < 16
    ensures v == Group(half, w[..], block, x[..], xBlock, j)
  {
    hide Mul, Dot;
    var d := half(w[block + 208], w[block + 209]);
    var sc := Mul(d, SignedByte(w[block + 192 + j]) as real);
    var dot := GroupDot(w, block, x, xBlock, j);
    v := Mul(sc, dot);
  }

  /** Row r's output: its byte offset is a 32-bit product. */
  ghost function RowResult(half: (bv8, bv8) -> real, w: seq<bv8>, x: seq<real>, k: nat, r: nat): real {
    RowDotProduct(half, w, MulU32(r, RowBytes(k)), x, k)
  }

  /** q6k_matvec: one thread per row, in any order. */
  method MatVec(half: (bv8, bv8) -> real, w: array<bv8>, x: array<real>, out: array<real>, n: nat, k: nat, threads: nat)
    requires n < U32 && k < U32 && k % SUPER == 0 && n <= threads
    requires w.Length == Times(n, RowBytes(k)) && x.Length == k && out.Length == n
    requires out != x && out as object != w
    modifies out
    ensures forall r :: 0 <= r < n ==> out[r] == RowResult(half, w[..], x[..], k, r)
  {
    hide RowResult;
    ghost var xs := x[..];
    var pending := Threads(threads);
    while pending != {}
      invariant x[..] == xs
      invariant forall r :: 0 <= r < n && r !in pending ==> out[r] == RowResult(half, w[..], xs, k, r)
      decreases pending
    {
      var row :| row in pending;
      if row < n {
        var acc := MatVecThread(half, w, x, n, k, row);
        out[row] := acc;
      }
      pending := pending - {row};
    }
  }

  method MatVecThread(half: (bv8, bv8) -> real, w: array<bv8>, x: array<real>, n: nat, k: nat, row: nat) returns (acc: real)
    requires row < n && k % SUPER == 0 && w.Length == Times(n, RowBytes(k)) && x.Length == k
    ensures acc == RowResult(half, w[..], x[..], k, row)
  {
    hide RowAcc, RowDotProduct, MulU32, Times;
    TimesOrdered(row, n, RowBytes(k));
    acc := RowDot(half, w, MulU32(row, RowBytes(k)), x, k / SUPER);
    RowMeaning(half, w[..], MulU32(row, RowBytes(k)), x[..], k / SUPER);
  }

  // ---- When a row's offset fits ----------------------------------------------

  /** The kernel meets its promise for row r on all weights and inputs exactly when the
      row's byte offset fits 32 bits: beyond it the thread reads an earlier row's bytes.
      "one" is any half-precision pattern that does not decode to zero. */
  lemma MatVecExact(half: (bv8, bv8) -> real, one: (bv8, bv8), n: nat, k: nat, r: nat)
    requires half(0, 0) == 0.0 && half(one.0, one.1) != 0.0
    requires 0 < k < U32 && k % SUPER == 0 && r < n
    ensures Times(r, RowBytes(k)) < U32 <==>
      forall w: seq<bv8>, x: seq<real> :: |w| == Times(n, RowBytes(k)) && |x| == k ==>
        RowResult(half, w, x, k, r) == RowDotProduct(half, w, Times(r, RowBytes(k)), x, k)
  {
    hide RowDotProduct, Times, MulU32, OneWeight, UnitX;
    if Times(r, RowBytes(k)) >= U32 {
      TimesOrdered(r, n, RowBytes(k));
      var row, read := Times(r, RowBytes(k)), MulU32(r, RowBytes(k));
      var w := OneWeight(one, Times(n, RowBytes(k)), row);
      OneWeightRow(half, one, |w|, row, k);
      WrapDistance(r, RowBytes(k));
      ZerosBefore(one, |w|, row, read, k);
      NoWeights(half, w, read, UnitX(k, 0), k);
      assert RowResult(half, w, UnitX(k, 0), k, r) != RowDotProduct(half, w, row, UnitX(k, 0), k);
    }
  }

  /** Weights that are zero but for the first group of the super-block at byte "block". */
  ghost function OneWeight(one: (bv8, bv8), bytes: nat, block: nat): (w: seq<bv8>)
    ensures |w| == bytes
  {
    seq(bytes, i => if i == block + 208 then one.0 else if i == block + 209 then one.1
                    else if i == block + 192 then 1 else 0)
  }

  lemma ZerosBefore(one: (bv8, bv8), bytes: nat, row: nat, read: nat, k: nat)
    requires read + U32 <= row && k < U32
    ensures forall i :: read <= i < read + RowBytes(k) ==> Byte(OneWeight(one, bytes, row), i) == 0
  {
  }

  lemma OneWeightRow(half: (bv8, bv8) -> real, one: (bv8, bv8), bytes: nat, row: nat, k: nat)
    requires half(one.0, one.1) != 0.0 && k > 0 && row + SUPER_BYTES <= bytes
    ensures RowDotProduct(half, OneWeight(one, bytes, row), row, UnitX(k, 0), k) != 0.0
  {
    hide Dequant, OneWeight;
    var w, x := OneWeight(one, bytes, row), UnitX(k, 0);
    var none := (c: int) => 0.0;
    var term := c => RowTerm(half, w, row, x, c);
    SumZero(none, k);
    SumUpdate(none, term, k, 0);
    FirstWeight(half, one, bytes, row);
  }

  lemma FirstWeight(half: (bv8, bv8) -> real, one: (bv8, bv8), bytes: nat, row: nat)
    requires half(one.0, one.1) != 0.0 && row + SUPER_BYTES <= bytes
    ensures Dequant(half, OneWeight(one, bytes, row), row, 0) != 0.0
  {
    var w := OneWeight(one, bytes, row);
    assert Value6(w, row, row + 128, 0) == -32;
    assert SignedByte(Byte(w, row + 192)) == 1;
  }

  /** A row of zero bytes. */
  lemma NoWeights(half: (bv8, bv8) -> real, w: seq<bv8>, row: nat, x: seq<real>, k: nat)
    requires half(0, 0) == 0.0 && k % SUPER == 0
    requires forall i :: row <= i < row + RowBytes(k) ==> Byte(w, i) == 0
    ensures RowDotProduct(half, w, row, x, k) == 0.0
  {
    hide Dequant;
    forall c | 0 <= c < k
      ensures RowTerm(half, w, row, x, c) == 0.0
    {
      ZeroWeight(half, w, row, k, c);
    }
    SumZero(c => RowTerm(half, w, row, x, c), k);
  }

  lemma ZeroWeight(half: (bv8, bv8) -> real, w: seq<bv8>, row: nat, k: nat, c: nat)
    requires half(0, 0) == 0.0 && k % SUPER == 0 && c < k
    requires forall i :: row <= i < row + RowBytes(k) ==> Byte(w, i) == 0
    ensures Dequant(half, w, row, c) == 0.0
  {
    hide QuantValue;
    var block := row + c / SUPER * SUPER_BYTES;
    assert row <= block && block + SUPER_BYTES <= row + RowBytes(k);
    assert Byte(w, block + 208) == Byte(w, block + 209) == 0;
    assert GroupScale(half, w, block, c % SUPER / 16) == 0.0;
  }
}
