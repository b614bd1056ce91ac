/** RMS normalisation of rows and of heads: a strided sum of squares, two warp
    shuffles with a barrier between them, and the scaled output. */
module RmsNorm {
  import opened Arith
  import opened Sums
  import opened Libm
  import opened BlockReduce
  import opened Strides
  import opened Windows

  const WARP: nat := 32

  // ---- The warp shuffle ----------------------------------------------------

  /** One __shfl_down_sync exchange of a full warp, added to the own value. A lane
      whose partner would lie outside the warp gets its own value back. */
  ghost function ShuffleStep(s: seq<real>, off: nat): (r: seq<real>)
    ensures |r| == |s|
  {
    seq(|s|, l requires 0 <= l < |s| => s[l] + if l + off < |s| then s[l + off] else s[l])
  }

  /** Offsets width/2, width/4, ..., 1. */
  ghost function Shuffle(s: seq<real>, width: nat): (r: seq<real>)
    ensures |r| == |s|
    decreases width
  {
    if width <= 1 then s else Shuffle(ShuffleStep(s, width / 2), width / 2)
  }

  lemma ShuffleStepSums(s: seq<real>, h: nat)
    requires 2 * h <= |s|
    ensures Sum(i => At(ShuffleStep(s, h), i), h) == Sum(i => At(s, i), 2 * h)
  {
    var f := i => At(s, i);
    var upper := i => At(s, h + i);
    SumSplit(f, h, upper, h);
    SumAdd(f, upper, i => At(ShuffleStep(s, h), i), h);
  }

  /** Lane 0 ends with the sum over the warp; the other lanes end with garbage. */
  lemma {:induction false} ShuffleSums(s: seq<real>, width: nat)
    requires IsPow2(width) && width <= |s|
    ensures Shuffle(s, width)[0] == Sum(i => At(s, i), width)
    decreases width
  {
    var f := i => At(s, i);
    if width == 1 {
      assert Sum(f, 1) == Sum(f, 0) + f(0);
    } else {
      ShuffleSums(ShuffleStep(s, width / 2), width / 2);
      ShuffleStepSums(s, width / 2);
    }
  }

  /** One exchange of the warp, in lockstep. */
  method ShuffleExchange(regs: array<real>, off: nat)
    requires regs.Length == WARP
    modifies regs
    ensures regs[..] == ShuffleStep(old(regs[..]), off)
  {
    forall l | 0 <= l < WARP {
      regs[l] := regs[l] + if l + off < WARP then regs[l + off] else regs[l];
    }
  }

  /** All the exchanges of one warp. */
  method WarpReduce(regs: array<real>)
    requires regs.Length == WARP
    modifies regs
    ensures regs[0] == Total(old(regs[..]))
  {
    hide ShuffleStep;
    ghost var s := regs[..];
    var off := 16;
    ghost var width := WARP;
    while off > 0
      invariant 0 <= width <= WARP && off == width / 2
      invariant Shuffle(regs[..], width) == Shuffle(s, WARP)
      decreases off
    {
      ShuffleExchange(regs, off);
      off, width := off / 2, width / 2;
    }
    assert IsPow2(WARP) by { assert IsPow2(4); }
    ShuffleSums(s, WARP);
  }

  // ---- The sum of squares of a row -----------------------------------------

  function AddSquare(): (real, real) -> real {
    (a, v) => a + Mul(v, v)
  }

  ghost function SumSquares(x: seq<real>, start: nat, len: nat): real {
    Sum(j => Mul(Elem(x, start, j), Elem(x, start, j)), len)
  }

  /** The strided loop of one thread, and whether it ends. */
  method LocalSquares(x: array<real>, start: nat, len: nat, blockDim: nat, tid: nat) returns (ended: bool, sqSum: real)
    requires start + len <= x.Length && len < U32 && tid < blockDim && Settled(blockDim, len)
    ensures ended <==> Ends(tid, blockDim, len)
    ensures ended ==> sqSum == Strided(AddSquare(), 0.0, x[start..start + len], tid, blockDim, len)
  {
    hide Mul, Ends, NextIndex, Settled;
    ghost var row := x[start..start + len];
    sqSum := 0.0;
    var j := tid;
    DivModUnique(tid, blockDim, 0, tid);
    SmallBlock(blockDim, len);
    StridedStart(AddSquare(), 0.0, row, tid, blockDim, if tid < len then tid else len);
    while j < len
      invariant j % blockDim == tid && j < U32
      invariant sqSum == Strided(AddSquare(), 0.0, row, tid, blockDim, if j < len then j else len)
    {
      StridedSkip(AddSquare(), 0.0, row, tid, blockDim, j, if j + blockDim < len then j + blockDim else len);
      Turn(j, tid, blockDim, len);
      assert row[j] == x[start + j];
      var v := x[start + j];
      sqSum := sqSum + Mul(v, v);
      var next := NextIndex(j, blockDim);
      if next <= j {
        // The index is back at an earlier one, and the source goes round for ever.
        return false, sqSum;
      }
      j := next;
    }
    Ended(j, tid, blockDim, len);
    ended := true;
  }

  lemma SmallBlock(blockDim: nat, len: nat)
    requires Settled(blockDim, len)
    ensures 0 < blockDim <= U32
  {
  }

  /** The block's reduction, for any number of full warps up to 32; it ends exactly for
      rows that stay a block below 2^32. */
  method BlockSumSquares(x: array<real>, start: nat, len: nat, blockDim: nat) returns (ended: bool, total: real)
    requires start + len <= x.Length && len < U32 && Settled(blockDim, len)
    requires 0 < blockDim <= 1024 && blockDim % WARP == 0
    ensures ended <==> len + blockDim <= U32
    ensures ended ==> total == SumSquares(x[..], start, len)
  {
    hide Strided, Ends, Settled;
    ghost var row := x[start..start + len];
    var sqSums := new real[blockDim](i => 0.0);
    var pending := Threads(blockDim);
    AllEndExactly(blockDim, len);
    while pending != {}
      invariant forall t :: t in pending ==> t < blockDim
      invariant forall t: nat :: t < blockDim && t !in pending ==>
        Ends(t, blockDim, len) && sqSums[t] == Strided(AddSquare(), 0.0, row, t, blockDim, len)
      decreases pending
    {
      var tid :| tid in pending;
      var threadEnded, sqSum := LocalSquares(x, start, len, blockDim, tid);
      if !threadEnded {
        return false, 0.0;
      }
      sqSums[tid] := sqSum;
      pending := pending - {tid};
    }
    ThreadsSum(x[..], start, len, blockDim, sqSums[..]);
    total := CrossWarpSum(sqSums);
    ended := true;
  }

  ghost function WarpTotal(regs: seq<real>, w: nat): real {
    Sum(i => Elem(regs, w * WARP, i), WARP)
  }

  /** The sum of warp w's registers. */
  method OneWarp(sqSums: array<real>, warp: nat) returns (sum: real)
    requires (warp + 1) * WARP <= sqSums.Length
    ensures sum == WarpTotal(sqSums[..], warp)
  {
    hide WarpTotal, Total;
    var lanes := new real[WARP](l requires 0 <= l < WARP reads sqSums => sqSums[warp * WARP + l]);
    LanesTotal(sqSums[..], warp, lanes[..]);
    WarpReduce(lanes);
    sum := lanes[0];
  }

  lemma LanesTotal(regs: seq<real>, w: nat, lanes: seq<real>)
    requires |lanes| == WARP && (w + 1) * WARP <= |regs|
    requires forall l :: 0 <= l < WARP ==> lanes[l] == regs[w * WARP + l]
    ensures Total(lanes) == WarpTotal(regs, w)
  {
    SumCongruence(i => At(lanes, i), i => Elem(regs, w * WARP, i), WARP);
  }

  /** Lane 0 of every warp publishes its warp's sum; after the barrier the first
      warp adds those up, with zeros for the missing warps. */
  method CrossWarpSum(sqSums: array<real>) returns (total: real)
    requires 0 < sqSums.Length <= 1024 && sqSums.Length % WARP == 0
    ensures total == Total(sqSums[..])
  {
    hide WarpTotal;
    ghost var regs := sqSums[..];
    var numWarps := sqSums.Length / WARP;
    var warpSums := new real[32](i => 0.0);
    var pending := Threads(numWarps);
    while pending != {}
      invariant forall w :: w in pending ==> w < numWarps
      invariant forall w: nat :: w < numWarps && w !in pending ==> warpSums[w] == WarpTotal(regs, w)
      decreases pending
    {
      var warp :| warp in pending;
      warpSums[warp] := OneWarp(sqSums, warp);
      pending := pending - {warp};
    }
    var lanes := new real[WARP](t requires 0 <= t < WARP reads warpSums =>
      if t < numWarps then warpSums[t] else 0.0);
    WarpsSum(regs, numWarps, lanes[..]);
    WarpReduce(lanes);
    warpSums[0] := lanes[0];
    total := warpSums[0];
  }

  lemma WarpsSum(regs: seq<real>, numWarps: nat, lanes: seq<real>)
    requires |regs| == numWarps * WARP && numWarps <= WARP == |lanes|
    requires forall t :: 0 <= t < WARP ==> lanes[t] == if t < numWarps then WarpTotal(regs, t) else 0.0
    ensures Total(lanes) == Total(regs)
  {
    var lane := i => At(lanes, i);
    TimesIsProduct(numWarps, WARP);
    forall b | 0 <= b < numWarps
      ensures Times(b, WARP) == b * WARP
    {
      TimesIsProduct(b, WARP);
    }
    SumBlocks(t => At(regs, t), numWarps, WARP, b => i => Elem(regs, b * WARP, i), lane);
    SumSplit(lane, numWarps, i => 0.0, WARP - numWarps);
    SumZero(i => 0.0, WARP - numWarps);
  }

  lemma ThreadsSum(x: seq<real>, start: nat, len: nat, blockDim: nat, sqSums: seq<real>)
    requires blockDim > 0 && |sqSums| == blockDim && start + len <= |x|
    requires forall t :: 0 <= t < blockDim ==>
      sqSums[t] == Strided(AddSquare(), 0.0, x[start..start + len], t, blockDim, len)
    ensures Total(sqSums) == SumSquares(x, start, len)
  {
    hide Mul, Strided;
    StridedSums(AddSquare(), v => Mul(v, v), x[start..start + len], blockDim, len,
                t => At(sqSums, t), j => Mul(Elem(x, start, j), Elem(x, start, j)));
  }

  // ---- The kernels ---------------------------------------------------------

  datatype Norm = Norm(eps: real, offset: real, hasWeight: bool)

  /** Element j of a normalised row of length len that starts at "start". */
  ghost function NormAt(m: Libm, n: Norm, x: seq<real>, start: nat, len: nat, weight: seq<real>, j: int): real
    requires len > 0
  {
    var rms := m.sqrt(SumSquares(x, start, len) / (len as real) + n.eps);
    Mul(m.div(Elem(x, start, j), rms), if n.hasWeight then n.offset + At(weight, j) else 1.0)
  }

  ghost function NormRow(m: Libm, n: Norm, x: seq<real>, start: nat, len: nat, weight: seq<real>): (r: seq<real>)
    requires len > 0
    ensures |r| == len
  {
    seq(len, j requires 0 <= j < len => NormAt(m, n, x, start, len, weight, j))
  }

  ghost function NormRows(m: Libm, n: Norm, x: seq<real>, rows: nat, len: nat, weight: seq<real>): (r: seq<seq<real>>)
    requires len > 0
    ensures |r| == rows
  {
    seq(rows, b requires 0 <= b < rows => NormRow(m, n, x, Times(b, len), len, weight))
  }

  /** One block: the row of length len that starts at "start". */
  method NormBlock(m: Libm, n: Norm, x: array<real>, weight: array<real>, out: array<real>,
                   start: nat, len: nat, blockDim: nat) returns (ended: bool)
    requires len > 0 && start + len <= x.Length == out.Length && (n.hasWeight ==> weight.Length == len)
    requires len < U32 && Settled(blockDim, len)
    requires 0 < blockDim <= 1024 && blockDim % WARP == 0
    requires out != x && out != weight
    modifies out
    ensures ended <==> len + blockDim <= U32
    ensures ended ==> WindowIs(out[..], start, len, NormRow(m, n, x[..], start, len, weight[..]))
    ensures SameOutside(out[..], old(out[..]), start, start + len)
  {
    hide SumSquares, Mul, Settled;
    var totalSq;
    ended, totalSq := BlockSumSquares(x, start, len, blockDim);
    if !ended {
      return;
    }
    var rms := m.sqrt(totalSq / (len as real) + n.eps);
    ghost var row := NormRow(m, n, x[..], start, len, weight[..]);
    var pending := Threads(len);
    while pending != {}
      invariant forall j :: j in pending ==> j < len
      invariant forall j :: 0 <= j < |row| && j !in pending ==> out[start + j] == row[j]
      invariant SameOutside(out[..], old(out[..]), start, start + len)
      decreases pending
    {
      var j :| j in pending;
      var w := if n.hasWeight then n.offset + weight[j] else 1.0;
      out[start + j] := Mul(m.div(x[start + j], rms), w);
      assert out[start + j] == row[j];
      pending := pending - {j};
    }
    assert out[..][start..start + len] == row;
  }

  /** rms_norm: one block per row, in any order. */
  method RmsNormKernel(m: Libm, n: Norm, x: array<real>, weight: array<real>, out: array<real>,
                       rows: nat, cols: nat, blockDim: nat) returns (ended: bool)
    requires cols < U32 && Settled(blockDim, cols)
    requires cols > 0 && x.Length == out.Length == rows * cols && (n.hasWeight ==> weight.Length == cols)
    requires 0 < blockDim <= 1024 && blockDim % WARP == 0
    requires out != x && out != weight
    modifies out
    ensures out.Length == Times(rows, cols)
    ensures ended <==> rows == 0 || cols + blockDim <= U32
    ensures ended ==> WindowsDone(out[..], cols, NormRows(m, n, x[..], rows, cols, weight[..]), Threads(rows))
  {
    hide NormRow, WindowIs, SameOutside, Settled, Times;
    TimesIsProduct(rows, cols);
    ghost var norms := NormRows(m, n, x[..], rows, cols, weight[..]);
    var pending := Threads(rows);
    ghost var done: set<nat> := {};
    while pending != {}
      invariant forall b: nat :: b < rows <==> b in pending || b in done
      invariant pending !! done
      invariant WindowsDone(out[..], cols, norms, done)
      invariant done == {} || cols + blockDim <= U32
      decreases pending
    {
      var row :| row in pending;
      TimesOrdered(row, rows, cols);
      var rowOff := Offset(row, cols);
      ghost var was := out[..];
      ended := NormBlock(m, n, x, weight, out, rowOff, cols, blockDim);
      if !ended {
        return;
      }
      OneMoreWindow(was, out[..], cols, norms, row, done);
      pending, done := pending - {row}, done + {row};
    }
    assert done == Threads(rows);
    ended := true;
  }

  /** rms_norm_heads: one block per (position, head). It writes exactly what
      rms_norm writes on the tensor seen as seqLen * numHeads rows of headDim. */
  method RmsNormHeadsKernel(m: Libm, n: Norm, x: array<real>, weight: array<real>, out: array<real>,
                            seqLen: nat, numHeads: nat, headDim: nat, blockDim: nat)
      returns (ended: bool)
    requires headDim < U32 && Settled(blockDim, headDim)
    requires headDim > 0 && numHeads > 0 && x.Length == out.Length == seqLen * (numHeads * headDim)
    requires n.hasWeight ==> weight.Length == headDim
    requires 0 < blockDim <= 1024 && blockDim % WARP == 0
    requires out != x && out != weight
    modifies out
    ensures out.Length == Times(Times(seqLen, numHeads), headDim)
    ensures ended <==> Times(seqLen, numHeads) == 0 || headDim + blockDim <= U32
    ensures ended ==> WindowsDone(out[..], headDim, NormRows(m, n, x[..], Times(seqLen, numHeads), headDim, weight[..]),
                        Threads(Times(seqLen, numHeads)))
  {
    hide NormRow, WindowIs, SameOutside, Settled, Times;
    HeadSizes(seqLen, numHeads, headDim);
    var blocks := Offset(seqLen, numHeads);
    ghost var norms := NormRows(m, n, x[..], blocks, headDim, weight[..]);
    var pending := Threads(blocks);
    ghost var done: set<nat> := {};
    while pending != {}
      invariant forall b: nat :: b < blocks <==> b in pending || b in done
      invariant pending !! done
      invariant WindowsDone(out[..], headDim, norms, done)
      invariant done == {} || headDim + blockDim <= U32
      decreases pending
    {
      var bid :| bid in pending;
      ghost var was := out[..];
      ended := HeadBlock(m, n, x, weight, out, seqLen, numHeads, headDim, blockDim, bid);
      if !ended {
        return;
      }
      OneMoreWindow(was, out[..], headDim, norms, bid, done);
      pending, done := pending - {bid}, done + {bid};
    }
    assert done == Threads(blocks);
    ended := true;
  }

  /** The block of one (position, head). */
  method HeadBlock(m: Libm, n: Norm, x: array<real>, weight: array<real>, out: array<real>,
                   seqLen: nat, numHeads: nat, headDim: nat, blockDim: nat, bid: nat) returns (ended: bool)
    requires headDim < U32 && Settled(blockDim, headDim)
    requires headDim > 0 && x.Length == out.Length == Times(Times(seqLen, numHeads), headDim)
    requires bid < Times(seqLen, numHeads) && (n.hasWeight ==> weight.Length == headDim)
    requires 0 < blockDim <= 1024 && blockDim % WARP == 0
    requires out != x && out != weight
    modifies out
    ensures ended <==> headDim + blockDim <= U32
    ensures ended ==> WindowIs(out[..], Times(bid, headDim), headDim, NormRow(m, n, x[..], Times(bid, headDim), headDim, weight[..]))
    ensures SameOutside(out[..], old(out[..]), Times(bid, headDim), Times(bid, headDim) + headDim)
  {
    hide NormRow, WindowIs, SameOutside;
    TimesOrdered(bid, Times(seqLen, numHeads), headDim);
    var start := HeadStart(bid, seqLen, numHeads, headDim);
    ended := NormBlock(m, n, x, weight, out, start, headDim, blockDim);
  }

  lemma HeadSizes(seqLen: nat, numHeads: nat, headDim: nat)
    ensures seqLen * (numHeads * headDim) == Times(Times(seqLen, numHeads), headDim)
  {
    TimesIsProduct(numHeads, headDim);
    TimesIsProduct(seqLen, numHeads * headDim);
    TimesNested(seqLen, numHeads, headDim);
  }

  /** Where block bid's head starts: its position's row plus its head's offset. */
  method HeadStart(bid: nat, seqLen: nat, numHeads: nat, headDim: nat) returns (start: nat)
    requires bid < Times(seqLen, numHeads)
    ensures start == Times(bid, headDim)
  {
    ghost var p, h := LocateBlock(bid, seqLen, numHeads);
    TimesIsProduct(p, numHeads);
    DivModUnique(bid, numHeads, p, h);
    var pos := bid / numHeads;
    var head := bid - pos * numHeads;
    var rowStride := Offset(numHeads, headDim);
    var rowOff := Offset(pos, rowStride);
    var headOff := Offset(head, headDim);
    TimesNested(pos, numHeads, headDim);
    TimesAdd(Times(pos, numHeads), head, headDim);
    start := rowOff + headOff;
  }

  /** Two outputs of the kernels on the same tensor, whatever their block sizes and
      whichever of the two views they took, are the same. */
  lemma NormIsShapeFree(m: Libm, n: Norm, x: seq<real>, weight: seq<real>, rows: nat, len: nat,
                        out: seq<real>, out': seq<real>)
    requires len > 0 && |out| == |out'| == Times(rows, len)
    requires WindowsDone(out, len, NormRows(m, n, x, rows, len, weight), Threads(rows))
    requires WindowsDone(out', len, NormRows(m, n, x, rows, len, weight), Threads(rows))
    ensures out == out'
  {
    hide NormRow;
    WindowsDetermine(out, out', NormRows(m, n, x, rows, len, weight), len);
  }

  /** Without a weight the output's mean square is mean / (mean + eps): one, up to eps. */
  lemma NormalisedMeanSquare(m: Libm, n: Norm, x: seq<real>, start: nat, len: nat, weight: seq<real>)
    requires len > 0 && !n.hasWeight
    requires forall a, b :: b != 0.0 ==> m.div(a, b) == a / b
    requires forall v :: v >= 0.0 ==> m.sqrt(v) * m.sqrt(v) == v
    requires SumSquares(x, start, len) / (len as real) + n.eps > 0.0
    ensures SumSquares(NormRow(m, n, x, start, len, weight), 0, len) * (SumSquares(x, start, len) / (len as real) + n.eps)
         == SumSquares(x, start, len)
  {
    hide SumSquares;
    var v := SumSquares(x, start, len) / (len as real) + n.eps;
    var rms := m.sqrt(v);
    var r := NormRow(m, n, x, start, len, weight);
    forall j | 0 <= j < len
      ensures Mul(Elem(r, 0, j), Elem(r, 0, j)) == Mul(1.0 / v, Mul(Elem(x, start, j), Elem(x, start, j)))
    {
      var e := Elem(x, start, j);
      assert r[j] == NormAt(m, n, x, start, len, weight, j);
      SquareOfQuotient(e, rms, v);
    }
    ScaledSquares(r, x, start, len, 1.0 / v);
    assert Mul(1.0 / v, SumSquares(x, start, len)) * v == SumSquares(x, start, len);
  }

  lemma SquareOfQuotient(e: real, rms: real, v: real)
    requires rms * rms == v && v > 0.0
    ensures rms != 0.0 && Mul(e / rms * 1.0, e / rms * 1.0) == Mul(1.0 / v, Mul(e, e))
  {
  }

  lemma ScaledSquares(r: seq<real>, x: seq<real>, start: nat, len: nat, k: real)
    requires forall j :: 0 <= j < len ==> Mul(Elem(r, 0, j), Elem(r, 0, j)) == Mul(k, Mul(Elem(x, start, j), Elem(x, start, j)))
    ensures SumSquares(r, 0, len) == Mul(k, SumSquares(x, start, len))
  {
    hide Mul;
    SumScale(k, j => Mul(Elem(x, start, j), Elem(x, start, j)), j => Mul(Elem(r, 0, j), Elem(r, 0, j)), len);
  }

  // ---- What the kernels write ----------------------------------------------

  /** The mean square of a stretch of x, eps added. */
  ghost function MeanSquare(x: seq<real>, start: nat, len: nat, eps: real): real
    requires len > 0
  {
    Sum(j => Elem(x, start, j) * Elem(x, start, j), len) / (len as real) + eps
  }

  lemma SquaresArePlain(x: seq<real>, start: nat, len: nat)
    ensures SumSquares(x, start, len) == Sum(j => Elem(x, start, j) * Elem(x, start, j), len)
  {
    hide Elem;
    SumCongruence(j => Mul(Elem(x, start, j), Elem(x, start, j)), j => Elem(x, start, j) * Elem(x, start, j), len);
  }

  lemma WindowIsNormed(m: Libm, n: Norm, x: seq<real>, weight: seq<real>, rows: nat, len: nat, out: seq<real>, b: nat, j: nat)
    requires len > 0 && b < rows && j < len
    requires WindowsDone(out, len, NormRows(m, n, x, rows, len, weight), Threads(rows))
    ensures Elem(out, Times(b, len), j) == NormAt(m, n, x, Times(b, len), len, weight, j)
  {
    hide NormAt, Times, WindowsDone;
    WindowElem(out, NormRows(m, n, x, rows, len, weight), len, b);
  }

  /** Element j of row b, in an output of either kernel: the row's element over the root
      of the row's mean square, times offset and weight. */
  lemma RowsAreNormalised(m: Libm, n: Norm, x: seq<real>, weight: seq<real>, rows: nat, len: nat, out: seq<real>, b: nat, j: nat)
    requires len > 0 && b < rows && j < len && (n.hasWeight ==> |weight| == len)
    requires WindowsDone(out, len, NormRows(m, n, x, rows, len, weight), Threads(rows))
    requires forall a, b :: b != 0.0 ==> m.div(a, b) == a / b
    requires m.sqrt(MeanSquare(x, Times(b, len), len, n.eps)) != 0.0
    ensures Elem(out, Times(b, len), j) * m.sqrt(MeanSquare(x, Times(b, len), len, n.eps))
         == Elem(x, Times(b, len), j) * if n.hasWeight then n.offset + weight[j] else 1.0
  {
    hide Elem, SumSquares, Times, WindowsDone, Sum;
    WindowIsNormed(m, n, x, weight, rows, len, out, b, j);
    SquaresArePlain(x, Times(b, len), len);
    Unscale(Elem(x, Times(b, len), j), m.sqrt(MeanSquare(x, Times(b, len), len, n.eps)),
            if n.hasWeight then n.offset + weight[j] else 1.0);
  }

  lemma Unscale(x: real, r: real, w: real)
    requires r != 0.0
    ensures Mul(x / r, w) * r == x * w
  {
    assert x / r * r == x;
  }

  /** With a weight, every element is offset plus weight times what it is without. */
  lemma WeightScales(m: Libm, n: Norm, x: seq<real>, weight: seq<real>, rows: nat, len: nat,
                     out: seq<real>, plain: seq<real>, b: nat, j: nat)
    requires len > 0 && b < rows && j < len && n.hasWeight && |weight| == len
    requires WindowsDone(out, len, NormRows(m, n, x, rows, len, weight), Threads(rows))
    requires WindowsDone(plain, len, NormRows(m, n.(hasWeight := false), x, rows, len, []), Threads(rows))
    ensures Elem(out, Times(b, len), j) == (n.offset + weight[j]) * Elem(plain, Times(b, len), j)
  {
    hide Elem, SumSquares, Times, WindowsDone;
    WindowIsNormed(m, n, x, weight, rows, len, out, b, j);
    WindowIsNormed(m, n.(hasWeight := false), x, [], rows, len, plain, b, j);
  }

  /** Without one, every row points the way its input does. */
  lemma RowsAreParallel(m: Libm, n: Norm, x: seq<real>, rows: nat, len: nat, out: seq<real>, b: nat, j: nat, k: nat)
    requires len > 0 && b < rows && j < len && k < len && !n.hasWeight
    requires WindowsDone(out, len, NormRows(m, n, x, rows, len, []), Threads(rows))
    requires forall a, b :: b != 0.0 ==> m.div(a, b) == a / b
    requires m.sqrt(MeanSquare(x, Times(b, len), len, n.eps)) > 0.0
    ensures Elem(out, Times(b, len), j) * Elem(x, Times(b, len), k) == Elem(out, Times(b, len), k) * Elem(x, Times(b, len), j)
    ensures Elem(out, Times(b, len), j) > 0.0 <==> Elem(x, Times(b, len), j) > 0.0
    ensures Elem(out, Times(b, len), j) < 0.0 <==> Elem(x, Times(b, len), j) < 0.0
  {
    hide Elem, Times, WindowsDone, NormRows, MeanSquare;
    RowsAreNormalised(m, n, x, [], rows, len, out, b, j);
    RowsAreNormalised(m, n, x, [], rows, len, out, b, k);
    Parallel(Elem(out, Times(b, len), j), Elem(out, Times(b, len), k), Elem(x, Times(b, len), j), Elem(x, Times(b, len), k),
             m.sqrt(MeanSquare(x, Times(b, len), len, n.eps)));
  }

  lemma Parallel(y: real, z: real, x: real, w: real, r: real)
    requires r > 0.0 && y * r == x && z * r == w
    ensures y * w == z * x
    ensures (y > 0.0 <==> x > 0.0) && (y < 0.0 <==> x < 0.0)
  {
    assert y * w == y * z * r == z * x;
  }
}
