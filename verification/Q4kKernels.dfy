/** The Q4_K decode-and-dot kernels: one matrix, two matrices fused, and one matrix
    against several columns. The arithmetic is a parameter, so that two kernels with
    the same specification perform the same operations in the same order. */
module Q4kKernels {
  import opened Arith
  import opened BlockReduce
  import opened QuantFormats

  const SUPER: nat := 256
  const SUPER_BYTES: nat := 144

  /** The float operations of the kernels, about which nothing is assumed. */
  datatype Ops<!F> = Ops(
    zero: F,
    add: (F, F) -> F,
    sub: (F, F) -> F,
    mul: (F, F) -> F,
    fromByte: bv8 -> F,
    half: (bv8, bv8) -> F)

  /** x[i], or the float zero outside the sequence. */
  function Val<F>(o: Ops<F>, x: seq<F>, i: int): F {
    if 0 <= i < |x| then x[i] else o.zero
  }

  // ---- What one row is ------------------------------------------------------

  ghost function SumX<F>(o: Ops<F>, x: seq<F>, xBase: int, l: nat): F {
    if l == 0 then o.zero else o.add(SumX(o, x, xBase, l - 1), Val(o, x, xBase + l - 1))
  }

  ghost function Dot<F>(o: Ops<F>, w: seq<bv8>, qs: int, high: bool, x: seq<F>, xBase: int, l: nat): F {
    if l == 0 then o.zero
    else o.add(Dot(o, w, qs, high, x, xBase, l - 1),
               o.mul(o.fromByte(Nibble(Byte(w, qs + l - 1), high)), Val(o, x, xBase + l - 1)))
  }

  ghost function Scale<F>(o: Ops<F>, w: seq<bv8>, block: int, j: nat): F {
    o.mul(o.half(Byte(w, block), Byte(w, block + 1)), o.fromByte(Scale6(w, block + 4, j)))
  }

  ghost function MinScale<F>(o: Ops<F>, w: seq<bv8>, block: int, j: nat): F {
    o.mul(o.half(Byte(w, block + 2), Byte(w, block + 3)), o.fromByte(Min6(w, block + 4, j)))
  }

  /** The quant bytes of group j: groups 2g and 2g + 1 share 32 bytes. */
  function QuantBase(block: int, j: nat): int {
    block + 16 + j / 2 * 32
  }

  /** What group j of a super-block adds to the accumulator. */
  ghost function Group<F>(o: Ops<F>, w: seq<bv8>, block: int, x: seq<F>, xBlock: int, j: nat): F {
    o.sub(o.mul(Scale(o, w, block, j), Dot(o, w, QuantBase(block, j), j % 2 == 1, x, xBlock + j * 32, 32)),
          o.mul(MinScale(o, w, block, j), SumX(o, x, xBlock + j * 32, 32)))
  }

  ghost function Groups<F>(o: Ops<F>, w: seq<bv8>, block: int, x: seq<F>, xBlock: int, acc: F, j: nat): F {
    if j == 0 then acc else o.add(Groups(o, w, block, x, xBlock, acc, j - 1), Group(o, w, block, x, xBlock, j - 1))
  }

  /** The accumulator after some super-blocks of the row that starts at byte "row". */
  ghost function RowAcc<F>(o: Ops<F>, w: seq<bv8>, row: int, x: seq<F>, xRow: int, superblocks: nat): F {
    if superblocks == 0 then o.zero
    else Groups(o, w, row + (superblocks - 1) * SUPER_BYTES, x, xRow + (superblocks - 1) * SUPER,
                RowAcc(o, w, row, x, xRow, superblocks - 1), 8)
  }

  // ---- One row, as a thread computes it -------------------------------------

  /** The inner loop over the 32 weights of a group. */
  method GroupDot<F>(o: Ops<F>, w: array<bv8>, qs: nat, high: bool, x: array<F>, xBase: nat) returns (sumX: F, dot: F)
    requires qs + 32 <= w.Length && xBase + 32 <= x.Length
    ensures sumX == SumX(o, x[..], xBase, 32)
    ensures dot == Dot(o, w[..], qs, high, x[..], xBase, 32)
  {
    hide Nibble;
    sumX, dot := o.zero, o.zero;
    for l := 0 to 32
      invariant sumX == SumX(o, x[..], xBase, l)
      invariant dot == Dot(o, w[..], qs, high, x[..], xBase, l)
    {
      var xv := x[xBase + l];
      var nib := o.fromByte(Nibble(w[qs + l], high));
      sumX := o.add(sumX, xv);
      dot := o.add(dot, o.mul(nib, xv));
    }
  }

  /** The super-block loop body. */
  method BlockDot<F>(o: Ops<F>, w: array<bv8>, block: nat, x: array<F>, xBlock: nat, acc0: F) returns (acc: F)
    requires block + SUPER_BYTES <= w.Length && xBlock + SUPER <= x.Length
    ensures acc == Groups(o, w[..], block, x[..], xBlock, acc0, 8)
  {
    hide SumX, Dot, Scale6, Min6;
    var d := o.half(w[block], w[block + 1]);
    var dmin := o.half(w[block + 2], w[block + 3]);
    acc := acc0;
    for j := 0 to 8
      invariant acc == Groups(o, w[..], block, x[..], xBlock, acc0, j)
    {
      var sc, mn := Unpack(w, block + 4, j);
      var scale := o.mul(d, o.fromByte(sc));
      var minScale := o.mul(dmin, o.fromByte(mn));
      var sumX, dot := GroupDot(o, w, QuantBase(block, j), j % 2 == 1, x, xBlock + j * 32);
      acc := o.add(acc, o.sub(o.mul(scale, dot), o.mul(minScale, sumX)));
    }
  }

  /** The 6-bit scale and minimum of group j. */
  method Unpack(w: array<bv8>, packed: nat, j: nat) returns (sc: bv8, mn: bv8)
    requires packed + 12 <= w.Length && j < 8
    ensures sc == Scale6(w[..], packed, j) && mn == Min6(w[..], packed, j)
  {
    if j < 4 {
      sc := w[packed + j] & 0x3F;
      mn := w[packed + j + 4] & 0x3F;
    } else {
      sc := (w[packed + j + 4] & 0x0F) | ((w[packed + j - 4] >> 6) << 4);
      mn := (w[packed + j + 4] >> 4) | ((w[packed + j] >> 6) << 4);
    }
  }

  method RowDot<F>(o: Ops<F>, w: array<bv8>, row: nat, x: array<F>, xRow: nat, superblocks: nat) returns (acc: F)
    requires row + superblocks * SUPER_BYTES <= w.Length && xRow + superblocks * SUPER <= x.Length
    ensures acc == RowAcc(o, w[..], row, x[..], xRow, superblocks)
  {
    hide Groups;
    acc := o.zero;
    for sb := 0 to superblocks
      invariant acc == RowAcc(o, w[..], row, x[..], xRow, sb)
    {
      acc := BlockDot(o, w, row + sb * SUPER_BYTES, x, xRow + sb * SUPER, acc);
    }
  }

  /** The fused kernel's super-block loop body: both matrices, the lower and upper
      nibbles of each chunk in two loops that share the sum of x. */
  method BlockDotDual<F>(o: Ops<F>, wA: array<bv8>, wB: array<bv8>, block: nat, x: array<F>, xBlock: nat, a0: F, b0: F)
    returns (accA: F, accB: F)
    requires block + SUPER_BYTES <= wA.Length && block + SUPER_BYTES <= wB.Length && xBlock + SUPER <= x.Length
    ensures accA == Groups(o, wA[..], block, x[..], xBlock, a0, 8)
    ensures accB == Groups(o, wB[..], block, x[..], xBlock, b0, 8)
  {
    hide SumX, Dot, Scale6, Min6, Byte, Groups;
    hide PairDone, Unpacked;
    var dA, dminA := Halves(o, wA, block);
    var dB, dminB := Halves(o, wB, block);
    var scalesA, minsA := UnpackAll(wA, block + 4);
    var scalesB, minsB := UnpackAll(wB, block + 4);
    accA, accB := a0, b0;
    NoGroups(o, wA[..], block, x[..], xBlock, a0);
    NoGroups(o, wB[..], block, x[..], xBlock, b0);
    for g := 0 to 4
      invariant scalesA.Length == minsA.Length == scalesB.Length == minsB.Length == 8
      invariant Unpacked(scalesA[..], minsA[..], wA[..], block + 4) && Unpacked(scalesB[..], minsB[..], wB[..], block + 4)
      invariant accA == Groups(o, wA[..], block, x[..], xBlock, a0, 2 * g)
      invariant accB == Groups(o, wB[..], block, x[..], xBlock, b0, 2 * g)
    {
      var qs, lo, hi := block + 16 + g * 32, xBlock + 2 * g * 32, xBlock + (2 * g + 1) * 32;
      var sumLo, dotALo, dotBLo := ChunkDot(o, wA, wB, qs, false, x, lo);
      var sumHi, dotAHi, dotBHi := ChunkDot(o, wA, wB, qs, true, x, hi);
      accA := AbsorbPair(o, accA, dA, dminA, scalesA, minsA, g, dotALo, sumLo, dotAHi, sumHi);
      accB := AbsorbPair(o, accB, dB, dminB, scalesB, minsB, g, dotBLo, sumLo, dotBHi, sumHi);
      PairIsTwoGroups(o, wA[..], block, x[..], xBlock, a0, g, scalesA[..], minsA[..]);
      PairIsTwoGroups(o, wB[..], block, x[..], xBlock, b0, g, scalesB[..], minsB[..]);
    }
  }

  lemma NoGroups<F>(o: Ops<F>, w: seq<bv8>, block: nat, x: seq<F>, xBlock: nat, acc: F)
    ensures Groups(o, w, block, x, xBlock, acc, 0) == acc
  {
  }

  /** acc += scale * dot - minScale * sumX. */
  function Absorb<F>(o: Ops<F>, acc: F, scale: F, dot: F, minScale: F, sumX: F): F {
    o.add(acc, o.sub(o.mul(scale, dot), o.mul(minScale, sumX)))
  }

  /** The accumulator after chunk g's lower and upper nibbles. */
  function PairDone<F>(o: Ops<F>, acc: F, d: F, dmin: F, scales: seq<bv8>, mins: seq<bv8>, g: nat,
                       dotLo: F, sumLo: F, dotHi: F, sumHi: F): F
    requires g < 4 && |scales| == |mins| == 8
  {
    var lo, hi := 2 * g, 2 * g + 1;
    Absorb(o, Absorb(o, acc, o.mul(d, o.fromByte(scales[lo])), dotLo, o.mul(dmin, o.fromByte(mins[lo])), sumLo),
           o.mul(d, o.fromByte(scales[hi])), dotHi, o.mul(dmin, o.fromByte(mins[hi])), sumHi)
  }

  method AbsorbPair<F>(o: Ops<F>, acc0: F, d: F, dmin: F, scales: array<bv8>, mins: array<bv8>, g: nat,
                       dotLo: F, sumLo: F, dotHi: F, sumHi: F) returns (acc: F)
    requires g < 4 && scales.Length == mins.Length == 8
    ensures acc == PairDone(o, acc0, d, dmin, scales[..], mins[..], g, dotLo, sumLo, dotHi, sumHi)
  {
    var scLo, scHi := o.mul(d, o.fromByte(scales[2 * g])), o.mul(d, o.fromByte(scales[2 * g + 1]));
    var mnLo, mnHi := o.mul(dmin, o.fromByte(mins[2 * g])), o.mul(dmin, o.fromByte(mins[2 * g + 1]));
    acc := Absorb(o, acc0, scLo, dotLo, mnLo, sumLo);
    acc := Absorb(o, acc, scHi, dotHi, mnHi, sumHi);
  }

  /** The lower and upper nibbles of chunk g are groups 2g and 2g + 1. */
  lemma PairIsTwoGroups<F>(o: Ops<F>, w: seq<bv8>, block: nat, x: seq<F>, xBlock: nat, a0: F, g: nat,
                           scales: seq<bv8>, mins: seq<bv8>)
    requires g < 4 && Unpacked(scales, mins, w, block + 4)
    ensures var qs, lo, hi := block + 16 + g * 32, xBlock + 2 * g * 32, xBlock + (2 * g + 1) * 32;
      Groups(o, w, block, x, xBlock, a0, 2 * (g + 1))
        == PairDone(o, Groups(o, w, block, x, xBlock, a0, 2 * g),
                    o.half(Byte(w, block), Byte(w, block + 1)), o.half(Byte(w, block + 2), Byte(w, block + 3)),
                    scales, mins, g, Dot(o, w, qs, false, x, lo, 32), SumX(o, x, lo, 32),
                    Dot(o, w, qs, true, x, hi, 32), SumX(o, x, hi, 32))
  {
    hide SumX, Dot, Scale6, Min6, Byte;
    var lo, hi := 2 * g, 2 * g + 1;
    assert lo / 2 == g == hi / 2 && lo % 2 == 0 && hi % 2 == 1;
    assert Groups(o, w, block, x, xBlock, a0, hi)
        == o.add(Groups(o, w, block, x, xBlock, a0, lo), Group(o, w, block, x, xBlock, lo));
    assert Groups(o, w, block, x, xBlock, a0, hi + 1)
        == o.add(Groups(o, w, block, x, xBlock, a0, hi), Group(o, w, block, x, xBlock, hi));
  }

  method Halves<F>(o: Ops<F>, w: array<bv8>, block: nat) returns (d: F, dmin: F)
    requires block + SUPER_BYTES <= w.Length
    ensures d == o.half(Byte(w[..], block), Byte(w[..], block + 1))
    ensures dmin == o.half(Byte(w[..], block + 2), Byte(w[..], block + 3))
  {
    d := o.half(w[block], w[block + 1]);
    dmin := o.half(w[block + 2], w[block + 3]);
  }

  ghost predicate Unpacked(scales: seq<bv8>, mins: seq<bv8>, w: seq<bv8>, packed: int) {
    |scales| == |mins| == 8
    && forall j :: 0 <= j < 8 ==> scales[j] == Scale6(w, packed, j) && mins[j] == Min6(w, packed, j)
  }

  /** The fused kernel's unpacking: all eight scales and minima into arrays. */
  method UnpackAll(w: array<bv8>, packed: nat) returns (scales: array<bv8>, mins: array<bv8>)
    requires packed + 12 <= w.Length
    ensures fresh(scales) && fresh(mins) && scales.Length == mins.Length == 8
    ensures Unpacked(scales[..], mins[..], w[..], packed)
  {
    hide Scale6, Min6;
    scales, mins := new bv8[8], new bv8[8];
    ghost var bytes := w[..];
    for j := 0 to 4
      invariant forall i :: 0 <= i < j || 4 <= i < 4 + j ==> scales[i] == Scale6(bytes, packed, i)
      invariant forall i :: 0 <= i < j || 4 <= i < 4 + j ==> mins[i] == Min6(bytes, packed, i)
    {
      FieldsAt(bytes, packed, j);
      scales[j] := w[packed + j] & 0x3F;
      mins[j] := w[packed + j + 4] & 0x3F;
      scales[j + 4] := (w[packed + j + 8] & 0x0F) | ((w[packed + j] >> 6) << 4);
      mins[j + 4] := (w[packed + j + 8] >> 4) | ((w[packed + j + 4] >> 6) << 4);
    }
  }

  lemma FieldsAt(w: seq<bv8>, packed: nat, j: nat)
    requires packed + 12 <= |w| && j < 4
    ensures Scale6(w, packed, j) == w[packed + j] & 0x3F && Min6(w, packed, j) == w[packed + j + 4] & 0x3F
    ensures Scale6(w, packed, j + 4) == (w[packed + j + 8] & 0x0F) | ((w[packed + j] >> 6) << 4)
    ensures Min6(w, packed, j + 4) == (w[packed + j + 8] >> 4) | ((w[packed + j + 4] >> 6) << 4)
  {
  }

  /** One of the fused kernel's two inner loops. */
  method ChunkDot<F>(o: Ops<F>, wA: array<bv8>, wB: array<bv8>, qs: nat, high: bool, x: array<F>, xBase: nat)
    returns (sumX: F, dotA: F, dotB: F)
    requires qs + 32 <= wA.Length && qs + 32 <= wB.Length && xBase + 32 <= x.Length
    ensures sumX == SumX(o, x[..], xBase, 32)
    ensures dotA == Dot(o, wA[..], qs, high, x[..], xBase, 32)
    ensures dotB == Dot(o, wB[..], qs, high, x[..], xBase, 32)
  {
    hide Nibble;
    sumX, dotA, dotB := o.zero, o.zero, o.zero;
    for l := 0 to 32
      invariant sumX == SumX(o, x[..], xBase, l)
      invariant dotA == Dot(o, wA[..], qs, high, x[..], xBase, l)
      invariant dotB == Dot(o, wB[..], qs, high, x[..], xBase, l)
    {
      var xv := x[xBase + l];
      sumX := o.add(sumX, xv);
      dotA := o.add(dotA, o.mul(o.fromByte(Nibble(wA[qs + l], high)), xv));
      dotB := o.add(dotB, o.mul(o.fromByte(Nibble(wB[qs + l], high)), xv));
    }
  }

  method RowDotDual<F>(o: Ops<F>, wA: array<bv8>, wB: array<bv8>, row: nat, x: array<F>, superblocks: nat)
    returns (accA: F, accB: F)
    requires row + superblocks * SUPER_BYTES <= wA.Length && row + superblocks * SUPER_BYTES <= wB.Length
    requires superblocks * SUPER <= x.Length
    ensures accA == RowAcc(o, wA[..], row, x[..], 0, superblocks)
    ensures accB == RowAcc(o, wB[..], row, x[..], 0, superblocks)
  {
    hide Groups;
    accA, accB := o.zero, o.zero;
    for sb := 0 to superblocks
      invariant accA == RowAcc(o, wA[..], row, x[..], 0, sb)
      invariant accB == RowAcc(o, wB[..], row, x[..], 0, sb)
    {
      accA, accB := BlockDotDual(o, wA, wB, row + sb * SUPER_BYTES, x, sb * SUPER, accA, accB);
    }
  }

  // ---- The kernels ----------------------------------------------------------

  function RowBytes(k: nat): nat {
    k / SUPER * SUPER_BYTES
  }

  /** Four and a half bits a weight. */
  lemma BitsPerWeight(k: nat)
    requires k % 256 == 0
    ensures 8 * RowBytes(k) * 2 == 9 * k
  {
    assert k == 256 * (k / 256);
  }

  /** The threads of a one-dimensional grid that covers n items. */
  function GridThreads(n: nat, blockDim: nat): (t: nat)
    requires blockDim > 0
    ensures t >= n
  {
    (n + blockDim - 1) / blockDim * blockDim
  }

  /** What the thread of row r leaves in its output cell. Its byte offset is a 32-bit
      product. */
  ghost function RowResult<F>(o: Ops<F>, w: seq<bv8>, x: seq<F>, k: nat, r: nat): F {
    RowAcc(o, w, MulU32(r, RowBytes(k)), x, 0, k / SUPER)
  }

  /** q4k_matvec: one thread per row, in any order. */
  method MatVec<F>(o: Ops<F>, w: array<bv8>, x: array<F>, out: array<F>, n: nat, k: nat, blockDim: nat)
    requires n < U32 && k < U32 && k % SUPER == 0 && blockDim > 0
    requires w.Length == Times(n, RowBytes(k)) && x.Length == k && out.Length == n
    requires out != x && out as object != w
    modifies out
    ensures forall r :: 0 <= r < n ==> out[r] == RowResult(o, w[..], x[..], k, r)
  {
    hide RowResult, MulU32, GridThreads;
    ghost var xs := x[..];
    var pending := Threads(GridThreads(n, blockDim));
    while pending != {}
      invariant x[..] == xs
      invariant forall r :: 0 <= r < n && r !in pending ==> out[r] == RowResult(o, w[..], xs, k, r)
      decreases pending
    {
      var row :| row in pending;
      if row < n {
        var acc := MatVecThread(o, w, x, n, k, row);
        out[row] := acc;
      }
      pending := pending - {row};
    }
  }

  method MatVecThread<F>(o: Ops<F>, w: array<bv8>, x: array<F>, n: nat, k: nat, row: nat) returns (acc: F)
    requires row < n && k % SUPER == 0 && w.Length == Times(n, RowBytes(k)) && x.Length == k
    ensures acc == RowResult(o, w[..], x[..], k, row)
  {
    hide RowAcc, MulU32, Times;
    TimesOrdered(row, n, RowBytes(k));
    acc := RowDot(o, w, MulU32(row, RowBytes(k)), x, 0, k / SUPER);
  }

  /** q4k_dual_matvec: two matrices in one pass. Each output is what q4k_matvec leaves
      for that matrix, with no law of the arithmetic assumed. */
  method DualMatVec<F>(o: Ops<F>, wA: array<bv8>, wB: array<bv8>, x: array<F>, outA: array<F>, outB: array<F>,
                       n: nat, k: nat, blockDim: nat)
    requires n < U32 && k < U32 && k % SUPER == 0 && blockDim > 0
    requires wA.Length == wB.Length == Times(n, RowBytes(k)) && x.Length == k && outA.Length == outB.Length == n
    requires outA != x && outB != x && outA != outB
    requires {wA as object, wB} !! {outA as object, outB}
    modifies outA, outB
    ensures forall r :: 0 <= r < n ==> outA[r] == RowResult(o, wA[..], x[..], k, r)
    ensures forall r :: 0 <= r < n ==> outB[r] == RowResult(o, wB[..], x[..], k, r)
  {
    hide RowResult, MulU32, GridThreads;
    ghost var xs := x[..];
    var pending := Threads(GridThreads(n, blockDim));
    while pending != {}
      invariant x[..] == xs
      invariant forall r :: 0 <= r < n && r !in pending ==> outA[r] == RowResult(o, wA[..], xs, k, r)
      invariant forall r :: 0 <= r < n && r !in pending ==> outB[r] == RowResult(o, wB[..], xs, k, r)
      decreases pending
    {
      var row :| row in pending;
      if row < n {
        var accA, accB := DualThread(o, wA, wB, x, n, k, row);
        outA[row] := accA;
        outB[row] := accB;
      }
      pending := pending - {row};
    }
  }

  method DualThread<F>(o: Ops<F>, wA: array<bv8>, wB: array<bv8>, x: array<F>, n: nat, k: nat, row: nat)
    returns (accA: F, accB: F)
    requires row < n && k % SUPER == 0 && x.Length == k
    requires wA.Length == wB.Length == Times(n, RowBytes(k))
    ensures accA == RowResult(o, wA[..], x[..], k, row) && accB == RowResult(o, wB[..], x[..], k, row)
  {
    hide RowAcc, MulU32, Times;
    TimesOrdered(row, n, RowBytes(k));
    accA, accB := RowDotDual(o, wA, wB, MulU32(row, RowBytes(k)), x, k / SUPER);
  }
}
