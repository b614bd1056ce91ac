/** The Q4_0 kernels: a gather along rows and a gather along columns of the same
    bytes, and the sense in which the two are transposes. */
module Q4Transpose {
  import opened Arith
  import opened Sums
  import opened BlockReduce
  import opened QuantFormats

  const BLOCK: nat := 32
  const BLOCK_BYTES: nat := 18

  function RowBytes(k: nat): nat {
    k / BLOCK * BLOCK_BYTES
  }

  /** Four and a half bits a weight. */
  lemma BitsPerWeight(k: nat)
    requires k % 32 == 0
    ensures 8 * RowBytes(k) * 2 == 9 * k
  {
    assert k == 32 * (k / 32);
  }

  // ---- The matrix -----------------------------------------------------------

  /** The quant of element e of a block: even elements are low nibbles. */
  function Quant(w: seq<bv8>, block: int, e: nat): real {
    (Nibble(Byte(w, block + 2 + e / 2), e % 2 == 1) as int - 8) as real
  }

  function BlockScale(half: (bv8, bv8) -> real, w: seq<bv8>, block: int): real {
    half(Byte(w, block), Byte(w, block + 1))
  }

  /** Element c of the row that starts at byte "row". */
  ghost function Weight(half: (bv8, bv8) -> real, w: seq<bv8>, row: int, c: int): real {
    if c < 0 then 0.0
    else Mul(Quant(w, row + c / BLOCK * BLOCK_BYTES, c % BLOCK), BlockScale(half, w, row + c / BLOCK * BLOCK_BYTES))
  }

  /** The input vector that the Q8 quants and their block scales stand for. */
  ghost function Q8Value(q8: seq<int>, q8Scales: seq<real>, c: int): real {
    if 0 <= c < |q8| then Mul(q8[c] as real, At(q8Scales, c / BLOCK)) else 0.0
  }

  ghost function RowTerm(half: (bv8, bv8) -> real, w: seq<bv8>, row: int, q8: seq<int>, q8Scales: seq<real>, c: int): real {
    Mul(Weight(half, w, row, c), Q8Value(q8, q8Scales, c))
  }

  /** A row of the matrix times the input vector. */
  ghost function RowProduct(half: (bv8, bv8) -> real, w: seq<bv8>, row: int, q8: seq<int>, q8Scales: seq<real>, k: nat): real {
    Sum(c => RowTerm(half, w, row, q8, q8Scales, c), k)
  }

  // ---- Along the rows -------------------------------------------------------

  /** One block's sixteen bytes, low nibble then high nibble. */
  method BlockDot(half: (bv8, bv8) -> real, w: array<bv8>, row: nat, q8: array<int>, q8Scales: array<real>, b: nat, acc0: real)
    returns (acc: real)
    requires row + b * BLOCK_BYTES + BLOCK_BYTES <= w.Length && b * BLOCK + BLOCK <= q8.Length && b < q8Scales.Length
    requires acc0 == RowProduct(half, w[..], row, q8[..], q8Scales[..], b * BLOCK)
    ensures acc == RowProduct(half, w[..], row, q8[..], q8Scales[..], b * BLOCK + BLOCK)
  {
    hide RowTerm, Quant, RowProduct;
    var block := row + b * BLOCK_BYTES;
    var combined := Mul(half(w[block], w[block + 1]), q8Scales[b]);
    acc := acc0;
    for j := 0 to 16
      invariant acc == RowProduct(half, w[..], row, q8[..], q8Scales[..], b * BLOCK + 2 * j)
    {
      var lo, hi := ReadQuants(w, block, j);
      var c := b * BLOCK + 2 * j;
      TermAt(half, w[..], row, q8[..], q8Scales[..], b, 2 * j);
      TermAt(half, w[..], row, q8[..], q8Scales[..], b, 2 * j + 1);
      TwoMore(half, w[..], row, q8[..], q8Scales[..], c);
      acc := acc + Mul(Mul(lo, q8[c] as real), combined);
      acc := acc + Mul(Mul(hi, q8[c + 1] as real), combined);
    }
  }

  lemma TwoMore(half: (bv8, bv8) -> real, w: seq<bv8>, row: int, q8: seq<int>, q8Scales: seq<real>, c: nat)
    ensures RowProduct(half, w, row, q8, q8Scales, c + 2) == RowProduct(half, w, row, q8, q8Scales, c)
         + RowTerm(half, w, row, q8, q8Scales, c) + RowTerm(half, w, row, q8, q8Scales, c + 1)
  {
    hide RowTerm;
    var term := x => RowTerm(half, w, row, q8, q8Scales, x);
    assert Sum(term, c + 2) == Sum(term, c + 1) + term(c + 1);
    assert Sum(term, c + 1) == Sum(term, c) + term(c);
  }

  method ReadQuants(w: array<bv8>, block: nat, j: nat) returns (lo: real, hi: real)
    requires block + BLOCK_BYTES <= w.Length && j < 16
    ensures lo == Quant(w[..], block, 2 * j) && hi == Quant(w[..], block, 2 * j + 1)
  {
    var byte := w[block + 2 + j];
    lo := ((byte & 0x0F) as int - 8) as real;
    hi := (((byte >> 4) & 0x0F) as int - 8) as real;
    assert 2 * j / 2 == j == (2 * j + 1) / 2 && 2 * j % 2 == 0 && (2 * j + 1) % 2 == 1;
  }

  lemma TermAt(half: (bv8, bv8) -> real, w: seq<bv8>, row: nat, q8: seq<int>, q8Scales: seq<real>, b: nat, e: nat)
    requires e < BLOCK && b * BLOCK + BLOCK <= |q8| && b < |q8Scales|
    ensures RowTerm(half, w, row, q8, q8Scales, b * BLOCK + e)
         == Mul(Mul(Quant(w, row + b * BLOCK_BYTES, e), q8[b * BLOCK + e] as real),
                Mul(BlockScale(half, w, row + b * BLOCK_BYTES), q8Scales[b]))
  {
    hide Quant, BlockScale, Mul;
    var c := b * BLOCK + e;
    assert c / BLOCK == b && c % BLOCK == e;
    Regroup(Quant(w, row + b * BLOCK_BYTES, e), BlockScale(half, w, row + b * BLOCK_BYTES), q8[c] as real, q8Scales[b]);
  }

  lemma Regroup(q: real, d: real, x: real, s: real)
    ensures Mul(Mul(q, d), Mul(x, s)) == Mul(Mul(q, x), Mul(d, s))
  {
  }

  method MatVecThread(half: (bv8, bv8) -> real, w: array<bv8>, q8: array<int>, q8Scales: array<real>, n: nat, k: nat, row: nat)
    returns (acc: real)
    requires row < n && k % BLOCK == 0 && w.Length == Times(n, RowBytes(k)) && q8.Length == k && q8Scales.Length == k / BLOCK
    ensures acc == RowProduct(half, w[..], Times(row, RowBytes(k)), q8[..], q8Scales[..], k)
  {
    hide RowTerm;
    TimesOrdered(row, n, RowBytes(k));
    TimesIsProduct(row, RowBytes(k));
    var rowOff := row * RowBytes(k);
    acc := 0.0;
    for b := 0 to k / BLOCK
      invariant acc == RowProduct(half, w[..], rowOff, q8[..], q8Scales[..], b * BLOCK)
    {
      acc := BlockDot(half, w, rowOff, q8, q8Scales, b, acc);
    }
  }

  /** Row r of the product, in the notation of the theorems below. */
  ghost function MatVecAt(half: (bv8, bv8) -> real, w: seq<bv8>, q8: seq<int>, q8Scales: seq<real>, k: nat, r: int): real {
    if r < 0 then 0.0 else RowProduct(half, w, Times(r, RowBytes(k)), q8, q8Scales, k)
  }

  /** q4_matvec: one thread per row, in any order. */
  method MatVec(half: (bv8, bv8) -> real, w: array<bv8>, q8: array<int>, q8Scales: array<real>, out: array<real>,
                n: nat, k: nat, threads: nat)
    requires k % BLOCK == 0 && n <= threads && w.Length == Times(n, RowBytes(k))
    requires q8.Length == k && q8Scales.Length == k / BLOCK && out.Length == n
    requires out != q8Scales && out as object != w && out as object != q8
    modifies out
    ensures forall r :: 0 <= r < n ==> out[r] == MatVecAt(half, w[..], q8[..], q8Scales[..], k, r)
  {
    hide RowProduct, Times;
    ghost var scales := q8Scales[..];
    var pending := Threads(threads);
    while pending != {}
      invariant q8Scales[..] == scales
      invariant forall r :: 0 <= r < n && r !in pending ==> out[r] == MatVecAt(half, w[..], q8[..], scales, k, r)
      decreases pending
    {
      var row :| row in pending;
      if row < n {
        var acc := MatVecThread(half, w, q8, q8Scales, n, k, row);
        out[row] := acc;
      }
      pending := pending - {row};
    }
  }

  // ---- Along the columns ----------------------------------------------------

  const TINY: real := 0.0000000001

  /** The activation as the kernel uses it: the tiny ones are skipped. */
  function Kept(act: real): real {
    if -TINY < act < TINY then 0.0 else act
  }

  ghost function ColTerm(half: (bv8, bv8) -> real, w: seq<bv8>, act: seq<real>, k: nat, c: int, r: int): real {
    if r < 0 then 0.0 else Mul(Kept(At(act, r)), Weight(half, w, Times(r, RowBytes(k)), c))
  }

  ghost function VecMatAt(half: (bv8, bv8) -> real, w: seq<bv8>, act: seq<real>, k: nat, c: int): real {
    Sum(r => ColTerm(half, w, act, k, c, r), |act|)
  }

  ghost function VecMatUpTo(half: (bv8, bv8) -> real, w: seq<bv8>, act: seq<real>, k: nat, c: int, rows: nat): real {
    Sum(r => ColTerm(half, w, act, k, c, r), rows)
  }

  method VecMatThread(half: (bv8, bv8) -> real, act: array<real>, w: array<bv8>, n: nat, k: nat, col: nat) returns (acc: real)
    requires col < k && k % BLOCK == 0 && w.Length == Times(n, RowBytes(k)) && act.Length == n
    ensures acc == VecMatAt(half, w[..], act[..], k, col)
  {
    hide ColTerm, Times;
    var block := col / BLOCK;
    var inBlock := col - block * BLOCK;
    var isHigh := inBlock % 2 != 0;
    var j := inBlock / 2;
    acc := 0.0;
    for row := 0 to n
      invariant acc == VecMatUpTo(half, w[..], act[..], k, col, row)
    {
      var term := ReadTerm(half, act, w, n, k, col, row, block, isHigh, j);
      acc := acc + term;
    }
  }

  /** The loop body: the skip contributes nothing. */
  method ReadTerm(half: (bv8, bv8) -> real, act: array<real>, w: array<bv8>, n: nat, k: nat, col: nat, row: nat,
                  blockIdx: nat, isHigh: bool, j: nat) returns (term: real)
    requires col < k && k % BLOCK == 0 && row < n && w.Length == Times(n, RowBytes(k)) && act.Length == n
    requires blockIdx == col / BLOCK && isHigh == (col % BLOCK % 2 == 1) && j == col % BLOCK / 2
    ensures term == ColTerm(half, w[..], act[..], k, col, row)
  {
    hide Times, Nibble;
    var a := act[row];
    if a > -TINY && a < TINY {
      return 0.0;
    }
    TimesOrdered(row, n, RowBytes(k));
    TimesIsProduct(row, RowBytes(k));
    var block := row * RowBytes(k) + blockIdx * BLOCK_BYTES;
    assert blockIdx < k / BLOCK;
    var scale := Mul(half(w[block], w[block + 1]), a);
    var val := (Nibble(w[block + 2 + j], isHigh) as int - 8) as real;
    assert val == Quant(w[..], block, col % BLOCK);
    assert half(w[block], w[block + 1]) == BlockScale(half, w[..], block);
    term := Mul(val, scale);
    Rotate(val, half(w[block], w[block + 1]), a);
  }

  lemma Rotate(q: real, d: real, a: real)
    ensures Mul(q, Mul(d, a)) == Mul(a, Mul(q, d))
  {
  }

  /** q4_vecmat: one thread per output column, in any order. */
  method VecMat(half: (bv8, bv8) -> real, act: array<real>, w: array<bv8>, out: array<real>, n: nat, k: nat, threads: nat)
    requires k % BLOCK == 0 && k <= threads && w.Length == Times(n, RowBytes(k)) && act.Length == n && out.Length == k
    requires out != act && out as object != w
    modifies out
    ensures forall c :: 0 <= c < k ==> out[c] == VecMatAt(half, w[..], act[..], k, c)
  {
    hide VecMatAt, Times;
    ghost var acts := act[..];
    var pending := Threads(threads);
    while pending != {}
      invariant act[..] == acts
      invariant forall c :: 0 <= c < k && c !in pending ==> out[c] == VecMatAt(half, w[..], acts, k, c)
      decreases pending
    {
      var col :| col in pending;
      if col < k {
        var acc := VecMatThread(half, act, w, n, k, col);
        out[col] := acc;
      }
      pending := pending - {col};
    }
  }

  // ---- Transposes -----------------------------------------------------------

  /** x . (act W), with the columns as vecmat leaves them. */
  ghost function ThroughColumns(half: (bv8, bv8) -> real, w: seq<bv8>, act: seq<real>, q8: seq<int>, q8Scales: seq<real>, k: nat): real {
    Sum(c => Mul(Q8Value(q8, q8Scales, c), VecMatAt(half, w, act, k, c)), k)
  }

  /** act . (W x), with the rows as matvec leaves them. */
  ghost function ThroughRows(half: (bv8, bv8) -> real, w: seq<bv8>, act: seq<real>, q8: seq<int>, q8Scales: seq<real>, k: nat): real {
    Sum(r => Mul(At(act, r), MatVecAt(half, w, q8, q8Scales, k, r)), |act|)
  }

  ghost function KeptAll(act: seq<real>): (r: seq<real>)
    ensures |r| == |act|
  {
    seq(|act|, i requires 0 <= i < |act| => Kept(act[i]))
  }

  /** On every weight, activation and input: the column kernel is the transpose of the
      row kernel for the activations it does not skip. */
  lemma TransposeOfKept(half: (bv8, bv8) -> real, w: seq<bv8>, act: seq<real>, q8: seq<int>, q8Scales: seq<real>, k: nat)
    ensures ThroughColumns(half, w, act, q8, q8Scales, k) == ThroughRows(half, w, KeptAll(act), q8, q8Scales, k)
  {
    hide Weight, Q8Value, Kept, Mul, Times;
    var cell := (r: int, c: int) => if r < 0 then 0.0 else Mul(Kept(At(act, r)), RowTerm(half, w, Times(r, RowBytes(k)), q8, q8Scales, c));
    var row := r => c => cell(r, c);
    var col := c => r => cell(r, c);
    var byRow := r => Mul(At(KeptAll(act), r), MatVecAt(half, w, q8, q8Scales, k, r));
    var byCol := c => Mul(Q8Value(q8, q8Scales, c), VecMatAt(half, w, act, k, c));
    forall r | 0 <= r < |act|
      ensures byRow(r) == Sum(row(r), k)
    {
      SumScale(Kept(At(act, r)), c => RowTerm(half, w, Times(r, RowBytes(k)), q8, q8Scales, c), row(r), k);
    }
    forall c | 0 <= c < k
      ensures byCol(c) == Sum(col(c), |act|)
    {
      forall r | 0 <= r < |act|
        ensures col(c)(r) == Mul(Q8Value(q8, q8Scales, c), ColTerm(half, w, act, k, c, r))
      {
        Exchange(Kept(At(act, r)), Weight(half, w, Times(r, RowBytes(k)), c), Q8Value(q8, q8Scales, c));
      }
      SumScale(Q8Value(q8, q8Scales, c), r => ColTerm(half, w, act, k, c, r), col(c), |act|);
    }
    SumSwap(row, col, |act|, k, byRow, byCol);
  }

  lemma Exchange(a: real, w: real, x: real)
    ensures Mul(a, Mul(w, x)) == Mul(x, Mul(a, w))
  {
  }

  /** No activation is small enough to be skipped without being zero. */
  ghost predicate NoneSkipped(act: seq<real>) {
    forall r :: 0 <= r < |act| ==> act[r] == 0.0 || act[r] <= -0.0000000001 || 0.0000000001 <= act[r]
  }

  lemma AllKept(act: seq<real>)
    ensures NoneSkipped(act) <==> KeptAll(act) == act
  {
  }

  /** The two kernels are transposes of each other on all weights and inputs exactly
      when every activation is zero or at least the threshold in magnitude. "one" is
      any half-precision pattern that does not decode to zero. */
  lemma TransposeExact(half: (bv8, bv8) -> real, one: (bv8, bv8), act: seq<real>, k: nat)
    requires half(0, 0) == 0.0 && half(one.0, one.1) != 0.0 && k > 0 && k % BLOCK == 0
    ensures NoneSkipped(act) <==>
      forall w: seq<bv8>, q8: seq<int>, q8Scales: seq<real> ::
        |w| == Times(|act|, RowBytes(k)) && |q8| == k && |q8Scales| == k / BLOCK ==>
          ThroughColumns(half, w, act, q8, q8Scales, k) == ThroughRows(half, w, act, q8, q8Scales, k)
  {
    hide ThroughColumns, ThroughRows, KeptAll, NoneSkipped, Times;
    AllKept(act);
    if NoneSkipped(act) {
      forall w: seq<bv8>, q8: seq<int>, q8Scales: seq<real> |
        |w| == Times(|act|, RowBytes(k)) && |q8| == k && |q8Scales| == k / BLOCK
        ensures ThroughColumns(half, w, act, q8, q8Scales, k) == ThroughRows(half, w, act, q8, q8Scales, k)
      {
        TransposeOfKept(half, w, act, q8, q8Scales, k);
      }
    } else {
      var r := SkippedRow(act);
      var w := OneScale(one, |act|, k, r);
      var q8 := seq(k, i => if i == 0 then 1 else 0);
      var q8Scales := seq(k / BLOCK, i => 1.0);
      TransposeOfKept(half, w, act, q8, q8Scales, k);
      OneRowCounts(half, one, act, k, r);
      OneRowCounts(half, one, KeptAll(act), k, r);
      SkippedDiffers(act, r);
      assert ThroughColumns(half, w, act, q8, q8Scales, k) != ThroughRows(half, w, act, q8, q8Scales, k);
    }
  }

  lemma SkippedRow(act: seq<real>) returns (r: nat)
    requires !NoneSkipped(act)
    ensures r < |act| && act[r] != 0.0 && -TINY < act[r] < TINY
  {
    r :| r < |act| && act[r] != 0.0 && -TINY < act[r] < TINY;
  }

  lemma SkippedDiffers(act: seq<real>, r: nat)
    requires r < |act| && act[r] != 0.0 && -TINY < act[r] < TINY
    ensures KeptAll(act)[r] == 0.0
  {
  }

  /** Weights whose only non-zero scale is that of the first block of row r. */
  ghost function OneScale(one: (bv8, bv8), n: nat, k: nat, r: nat): (w: seq<bv8>)
    ensures |w| == Times(n, RowBytes(k))
  {
    seq(Times(n, RowBytes(k)), i => if i == Times(r, RowBytes(k)) then one.0 else if i == Times(r, RowBytes(k)) + 1 then one.1 else 0)
  }

  /** With those weights and the first unit vector as input, only act[r] counts. */
  lemma OneRowCounts(half: (bv8, bv8) -> real, one: (bv8, bv8), act: seq<real>, k: nat, r: nat)
    requires half(0, 0) == 0.0 && k > 0 && k % BLOCK == 0 && r < |act|
    ensures ThroughRows(half, OneScale(one, |act|, k, r), act, seq(k, i => if i == 0 then 1 else 0), seq(k / BLOCK, i => 1.0), k)
         == Mul(act[r], -8.0 * half(one.0, one.1))
  {
    hide MatVecAt, OneScale;
    var w := OneScale(one, |act|, k, r);
    var q8, q8Scales := seq(k, i => if i == 0 then 1 else 0), seq(k / BLOCK, i => 1.0);
    var none := (i: int) => 0.0;
    var term := i => Mul(At(act, i), MatVecAt(half, w, q8, q8Scales, k, i));
    forall i | 0 <= i < |act|
      ensures term(i) == if i == r then Mul(act[r], -8.0 * half(one.0, one.1)) else 0.0
    {
      UnitRow(half, one, |act|, k, r, i);
    }
    SumZero(none, |act|);
    SumUpdate(none, term, |act|, r);
  }

  lemma UnitRow(half: (bv8, bv8) -> real, one: (bv8, bv8), n: nat, k: nat, r: nat, i: nat)
    requires half(0, 0) == 0.0 && k > 0 && k % BLOCK == 0 && r < n && i < n
    ensures MatVecAt(half, OneScale(one, n, k, r), seq(k, c => if c == 0 then 1 else 0), seq(k / BLOCK, c => 1.0), k, i)
         == if i == r then -8.0 * half(one.0, one.1) else 0.0
  {
    hide OneScale, Weight;
    var w := OneScale(one, n, k, r);
    var q8, q8Scales := seq(k, c => if c == 0 then 1 else 0), seq(k / BLOCK, c => 1.0);
    var none := (c: int) => 0.0;
    var term := c => RowTerm(half, w, Times(i, RowBytes(k)), q8, q8Scales, c);
    FirstWeight(half, one, n, k, r, i);
    SumZero(none, k);
    SumUpdate(none, term, k, 0);
  }

  lemma FirstWeight(half: (bv8, bv8) -> real, one: (bv8, bv8), n: nat, k: nat, r: nat, i: nat)
    requires half(0, 0) == 0.0 && k > 0 && k % BLOCK == 0 && r < n && i < n
    ensures Weight(half, OneScale(one, n, k, r), Times(i, RowBytes(k)), 0) == if i == r then -8.0 * half(one.0, one.1) else 0.0
  {
    var w, at := OneScale(one, n, k, r), Times(i, RowBytes(k));
    assert RowBytes(k) >= BLOCK_BYTES;
    TimesOrdered(i, n, RowBytes(k));
    if i < r { TimesOrdered(i, r, RowBytes(k)); }
    if r < i { TimesOrdered(r, i, RowBytes(k)); }
    assert Byte(w, at + 2) == 0;
    assert BlockScale(half, w, at) == if i == r then half(one.0, one.1) else 0.0;
    ZeroNibble();
    assert Quant(w, at, 0) == -8.0;
  }

  lemma ZeroNibble()
    ensures Nibble(0, false) as int == 0
  {
  }
}
