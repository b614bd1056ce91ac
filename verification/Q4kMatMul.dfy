/** q4k_matmul: one Q4_K matrix against several columns, with every index of the launch
    and of the kernel in the 32 bits the device gives it. */
module Q4kMatMul {
  import opened Arith
  import opened Sums
  import opened BlockReduce
  import opened Wrappers
  import opened Q4kKernels
  import opened Q4kMeaning

  // ---- Tiles and cells ------------------------------------------------------

  /** The output cell of row and column: outputs are laid out column after column. */
  ghost function Cell(n: nat, row: nat, s: nat): nat {
    Times(s, n) + row
  }

  /** The tile of row and column. */
  ghost function Tile(seqLen: nat, row: nat, s: nat): nat {
    Times(row, seqLen) + s
  }

  function RowOf(seqLen: nat, tile: nat): nat
    requires seqLen > 0
  {
    tile / seqLen
  }

  function ColumnOf(seqLen: nat, tile: nat): (s: nat)
    requires seqLen > 0
    ensures s < seqLen
  {
    tile % seqLen
  }

  /** What a thread makes of its tile. */
  lemma TileSplit(n: nat, seqLen: nat, tile: nat)
    requires seqLen > 0
    ensures tile == Tile(seqLen, RowOf(seqLen, tile), ColumnOf(seqLen, tile))
    ensures RowOf(seqLen, tile) < n <==> tile < Times(n, seqLen)
  {
    var r := tile / seqLen;
    TimesIsProduct(r, seqLen);
    if r < n { TimesOrdered(r, n, seqLen); } else if n < r { TimesOrdered(n, r, seqLen); }
  }

  lemma TileOf(seqLen: nat, row: nat, s: nat)
    requires s < seqLen
    ensures RowOf(seqLen, Tile(seqLen, row, s)) == row && ColumnOf(seqLen, Tile(seqLen, row, s)) == s
  {
    TimesIsProduct(row, seqLen);
    DivModUnique(Tile(seqLen, row, s), seqLen, row, s);
  }

  lemma SameCell(n: nat, row: nat, s: nat, row': nat, s': nat)
    requires row < n && row' < n && Cell(n, row, s) == Cell(n, row', s')
    ensures row == row' && s == s'
  {
    if s < s' { TimesOrdered(s, s', n); }
    if s' < s { TimesOrdered(s', s, n); }
  }

  lemma CellInside(n: nat, seqLen: nat, row: nat, s: nat)
    requires row < n && s < seqLen
    ensures Cell(n, row, s) < Times(seqLen, n) == Times(n, seqLen)
    ensures Tile(seqLen, row, s) < Times(n, seqLen)
  {
    TimesOrdered(s, seqLen, n);
    TimesOrdered(row, n, seqLen);
    TimesIsProduct(seqLen, n);
    TimesIsProduct(n, seqLen);
  }

  // ---- What the device does -------------------------------------------------

  /** Where the kernel puts the result of a tile: a 32-bit product and a 32-bit sum. */
  ghost function TileCell(n: nat, seqLen: nat, tile: nat): (c: nat)
    requires seqLen > 0
    ensures c < U32 && c <= Cell(n, RowOf(seqLen, tile), ColumnOf(seqLen, tile))
  {
    (MulU32(ColumnOf(seqLen, tile), n) + RowOf(seqLen, tile)) % U32
  }

  /** What it puts there: both offsets are 32-bit products. */
  ghost function TileValue<F>(o: Ops<F>, w: seq<bv8>, x: seq<F>, k: nat, seqLen: nat, tile: nat): F
    requires seqLen > 0
  {
    RowAcc(o, w, MulU32(RowOf(seqLen, tile), RowBytes(k)), x, MulU32(ColumnOf(seqLen, tile), k), k / SUPER)
  }

  /** The thread of the tile writes the cell. */
  ghost predicate Hits(n: nat, seqLen: nat, tile: nat, cell: nat) {
    seqLen > 0 && RowOf(seqLen, tile) < n && TileCell(n, seqLen, tile) == cell
  }

  ghost predicate Written<F>(o: Ops<F>, w: seq<bv8>, x: seq<F>, v: F, n: nat, k: nat, seqLen: nat, ran: set<nat>, cell: nat) {
    exists t :: t in ran && Hits(n, seqLen, t, cell) && v == TileValue(o, w, x, k, seqLen, t)
  }

  ghost predicate Unhit(n: nat, seqLen: nat, ran: set<nat>, cell: nat) {
    forall t :: t in ran ==> !Hits(n, seqLen, t, cell)
  }

  /** A way for the tiles "ran" to turn one output into another: a cell holds the value
      of one of the tiles that write it, or what it held if there is none. */
  ghost predicate Outcome<F>(o: Ops<F>, w: seq<bv8>, x: seq<F>, was: seq<F>, now: seq<F>, n: nat, k: nat, seqLen: nat, ran: set<nat>) {
    |now| == |was|
    && forall cell: nat :: cell < |now| ==>
         Written(o, w, x, now[cell], n, k, seqLen, ran, cell) || (now[cell] == was[cell] && Unhit(n, seqLen, ran, cell))
  }

  /** The tiles of a launch. The thread count is a 32-bit product, and so is a thread's
      tile number. */
  function TilesRun(n: nat, seqLen: nat, blockDim: nat): (t: nat)
    requires blockDim > 0
    ensures t <= U32 && MulU32(n, seqLen) <= t
  {
    var threads := GridThreads(MulU32(n, seqLen), blockDim);
    if threads < U32 then threads else U32
  }

  /** The output that a launch can leave: it starts from zeros, and every size is cut to
      32 bits on its way to the device. */
  ghost predicate CanLeave<F>(o: Ops<F>, w: seq<bv8>, x: seq<F>, out: seq<F>, n: nat, k: nat, seqLen: nat, blockDim: nat)
    requires blockDim > 0
  {
    |out| == Times(seqLen, n)
    && Outcome(o, w, x, seq(|out|, i => o.zero), out, n % U32, k % U32, seqLen % U32, Threads(TilesRun(n, seqLen, blockDim)))
  }

  // ---- The kernel -----------------------------------------------------------

  /** One thread's effect on the output. */
  ghost function TileStep<F>(o: Ops<F>, w: seq<bv8>, x: seq<F>, was: seq<F>, n: nat, k: nat, seqLen: nat, tile: nat): (r: seq<F>)
    requires seqLen > 0 && |was| >= Times(seqLen, n)
    ensures |r| == |was|
    ensures forall cell: nat :: cell < |was| ==>
      r[cell] == if Hits(n, seqLen, tile, cell) then TileValue(o, w, x, k, seqLen, tile) else was[cell]
  {
    hide RowOf, ColumnOf, TileValue, TileCell, Cell;
    if RowOf(seqLen, tile) < n then
      CellInside(n, seqLen, RowOf(seqLen, tile), ColumnOf(seqLen, tile));
      was[TileCell(n, seqLen, tile) := TileValue(o, w, x, k, seqLen, tile)]
    else was
  }

  method MatMulThread<F>(o: Ops<F>, w: array<bv8>, x: array<F>, out: array<F>, n: nat, k: nat, seqLen: nat, tile: nat)
    requires k % SUPER == 0 && seqLen > 0
    requires w.Length >= Times(n, RowBytes(k)) && x.Length >= Times(seqLen, k) && out.Length >= Times(seqLen, n)
    requires out != x && out as object != w
    modifies out
    ensures out[..] == TileStep(o, w[..], x[..], old(out[..]), n, k, seqLen, tile)
  {
    hide RowAcc, MulU32, Times;
    var row, s := RowOf(seqLen, tile), ColumnOf(seqLen, tile);
    if row >= n || s >= seqLen {
      return;
    }
    TimesOrdered(row, n, RowBytes(k));
    TimesOrdered(s, seqLen, k);
    CellInside(n, seqLen, row, s);
    var acc := RowDot(o, w, MulU32(row, RowBytes(k)), x, MulU32(s, k), k / SUPER);
    var cell := (MulU32(s, n) + row) % U32;
    assert cell == TileCell(n, seqLen, tile);
    out[cell] := acc;
  }

  /** q4k_matmul: one thread per tile, in any order. */
  method MatMulKernel<F>(o: Ops<F>, w: array<bv8>, x: array<F>, out: array<F>, n: nat, k: nat, seqLen: nat, threads: nat)
    requires k % SUPER == 0 && (threads > 0 ==> seqLen > 0)
    requires w.Length >= Times(n, RowBytes(k)) && x.Length >= Times(seqLen, k) && out.Length >= Times(seqLen, n)
    requires out != x && out as object != w
    modifies out
    ensures Outcome(o, w[..], x[..], old(out[..]), out[..], n, k, seqLen,
                    Threads(if threads < U32 then threads else U32))
  {
    hide Outcome, TileStep, Times, RowBytes;
    ghost var was := out[..];
    ghost var xs := x[..];
    ghost var ran: set<nat> := {};
    var pending := Threads(threads);
    NothingRan(o, w[..], xs, was, n, k, seqLen);
    while pending != {}
      invariant x[..] == xs
      invariant pending <= Threads(threads)
      invariant forall i: nat :: i < threads ==> i in pending || i % U32 in ran
      invariant forall t :: t in ran ==> t < threads && t < U32
      invariant Outcome(o, w[..], xs, was, out[..], n, k, seqLen, ran)
      decreases pending
    {
      var index :| index in pending;
      var tile := index % U32;
      ghost var before := out[..];
      MatMulThread(o, w, x, out, n, k, seqLen, tile);
      OneMoreTile(o, w[..], xs, was, before, out[..], n, k, seqLen, ran, tile);
      pending, ran := pending - {index}, ran + {tile};
    }
    AllRan(threads, ran);
  }

  lemma AllRan(threads: nat, ran: set<nat>)
    requires forall i: nat :: i < threads ==> i % U32 in ran
    requires forall t :: t in ran ==> t < threads && t < U32
    ensures ran == Threads(if threads < U32 then threads else U32)
  {
    hide Threads;
    forall t: nat | t < threads && t < U32
      ensures t in ran
    {
      assert t % U32 == t;
    }
  }

  lemma NothingRan<F>(o: Ops<F>, w: seq<bv8>, x: seq<F>, was: seq<F>, n: nat, k: nat, seqLen: nat)
    ensures Outcome(o, w, x, was, was, n, k, seqLen, {})
  {
  }

  lemma OneMoreTile<F>(o: Ops<F>, w: seq<bv8>, x: seq<F>, was: seq<F>, before: seq<F>, now: seq<F>, n: nat, k: nat, seqLen: nat,
                       ran: set<nat>, tile: nat)
    requires seqLen > 0 && |before| >= Times(seqLen, n)
    requires Outcome(o, w, x, was, before, n, k, seqLen, ran) && now == TileStep(o, w, x, before, n, k, seqLen, tile)
    ensures Outcome(o, w, x, was, now, n, k, seqLen, ran + {tile})
  {
    hide RowAcc, Times, TileValue, Hits, TileStep;
    forall cell: nat | cell < |now|
      ensures Written(o, w, x, now[cell], n, k, seqLen, ran + {tile}, cell)
           || (now[cell] == was[cell] && Unhit(n, seqLen, ran + {tile}, cell))
    {
      if Hits(n, seqLen, tile, cell) {
        assert now[cell] == TileValue(o, w, x, k, seqLen, tile);
      } else {
        assert now[cell] == before[cell];
      }
    }
  }

  /** launch_q4k_matmul_dev: None when a size does not match. */
  method LaunchMatMul<F>(o: Ops<F>, w: array<bv8>, x: array<F>, n: nat, k: nat, seqLen: nat, blockDim: nat)
    returns (out: Option<array<F>>)
    requires blockDim > 0
    ensures out.Some? <==>
      n == 0 || seqLen == 0 || (x.Length == Times(seqLen, k) && k % SUPER == 0 && w.Length == Times(n, RowBytes(k)))
    ensures out.Some? ==> fresh(out.value) && CanLeave(o, w[..], x[..], out.value[..], n, k, seqLen, blockDim)
  {
    hide Outcome, Times, RowBytes, MulU32;
    TimesIsProduct(seqLen, k);
    TimesIsProduct(seqLen, n);
    TimesIsProduct(n, RowBytes(k));
    if n > 0 && seqLen > 0 && (x.Length != seqLen * k || k % SUPER != 0 || w.Length != n * RowBytes(k)) {
      return None;
    }
    var result := new F[seqLen * n](i => o.zero);
    assert result[..] == seq(result.Length, i => o.zero);
    var threads := GridThreads(MulU32(n, seqLen), blockDim);
    CutSizes(n, k, seqLen, blockDim);
    if n > 0 && seqLen > 0 {
      MatMulKernel(o, w, x, result, n % U32, k % U32, seqLen % U32, threads);
    } else {
      NothingRan(o, w[..], x[..], result[..], n % U32, k % U32, seqLen % U32);
    }
    out := Some(result);
  }

  /** The sizes cut to 32 bits are no larger, and no thread runs when one becomes zero. */
  lemma CutSizes(n: nat, k: nat, seqLen: nat, blockDim: nat)
    requires blockDim > 0
    ensures Times(n % U32, RowBytes(k % U32)) <= Times(n, RowBytes(k))
    ensures Times(seqLen % U32, k % U32) <= Times(seqLen, k) && Times(seqLen % U32, n % U32) <= Times(seqLen, n)
    ensures k % SUPER == 0 ==> k % U32 % SUPER == 0
    ensures n % U32 == 0 || seqLen % U32 == 0 ==> GridThreads(MulU32(n, seqLen), blockDim) == 0
  {
    hide MulU32, GridThreads, Times, RowBytes;
    RowBytesMonotone(k % U32, k);
    TimesMonotone(n % U32, n, RowBytes(k % U32), RowBytes(k));
    TimesMonotone(seqLen % U32, seqLen, k % U32, k);
    TimesMonotone(seqLen % U32, seqLen, n % U32, n);
    if n % U32 == 0 || seqLen % U32 == 0 {
      MulOfMultiple(n, seqLen);
      NoThreads(blockDim);
    }
  }

  lemma RowBytesMonotone(a: nat, b: nat)
    requires a <= b
    ensures RowBytes(a) <= RowBytes(b)
  {
  }

  lemma MulOfMultiple(n: nat, m: nat)
    requires n % U32 == 0 || m % U32 == 0
    ensures MulU32(n, m) == 0
  {
    var q := if n % U32 == 0 then n / U32 * m else m / U32 * n;
    assert n * m == q * U32;
  }

  lemma NoThreads(blockDim: nat)
    requires blockDim > 0
    ensures GridThreads(0, blockDim) == 0
  {
  }

  // ---- When the cells and offsets are the ones meant --------------------------

  /** No 32-bit quantity of a launch wraps: the sizes, the tile count, the byte offset of
      the last row, the offset of the last column. */
  ghost predicate Fits(n: nat, k: nat, seqLen: nat)
    requires n > 0 && seqLen > 0
  {
    k < U32 && Times(n, seqLen) < U32 && Times(n - 1, RowBytes(k)) < U32 && Times(seqLen - 1, k) < U32
  }

  lemma FactorsFit(n: nat, seqLen: nat)
    requires n > 0 && seqLen > 0 && Times(n, seqLen) < U32
    ensures n < U32 && seqLen < U32 && n % U32 == n && seqLen % U32 == seqLen
    ensures MulU32(n, seqLen) == Times(n, seqLen) == Times(seqLen, n)
  {
    TimesIsProduct(n, seqLen);
    TimesIsProduct(seqLen, n);
    TimesMonotone(n, n, 1, seqLen);
    TimesMonotone(1, n, seqLen, seqLen);
    TimesIsProduct(n, 1);
    TimesIsProduct(1, seqLen);
  }

  /** Tile t of a launch writes the cell, and no other tile does. */
  ghost predicate WritesAlone(n: nat, seqLen: nat, blockDim: nat, t: nat, cell: nat)
    requires blockDim > 0
  {
    var ran := Threads(TilesRun(n, seqLen, blockDim));
    t in ran && Hits(n % U32, seqLen % U32, t, cell)
    && forall u :: u in ran && Hits(n % U32, seqLen % U32, u, cell) ==> u == t
  }

  ghost predicate HasOneTile(n: nat, seqLen: nat, blockDim: nat, cell: nat)
    requires blockDim > 0
  {
    exists t :: WritesAlone(n, seqLen, blockDim, t, cell)
  }

  lemma CellOfTile(n: nat, seqLen: nat, row: nat, s: nat)
    requires n > 0 && row < n && s < seqLen && Times(n, seqLen) < U32
    ensures TileCell(n, seqLen, Tile(seqLen, row, s)) == Cell(n, row, s)
  {
    hide Times;
    TileOf(seqLen, row, s);
    CellInside(n, seqLen, row, s);
  }

  lemma TileWritesAlone(n: nat, seqLen: nat, blockDim: nat, row: nat, s: nat)
    requires row < n && s < seqLen && blockDim > 0 && Times(n, seqLen) < U32
    ensures WritesAlone(n, seqLen, blockDim, Tile(seqLen, row, s), Cell(n, row, s))
  {
    hide Times, TilesRun, TileCell, RowOf, ColumnOf, Threads, Cell, Tile;
    FactorsFit(n, seqLen);
    CellInside(n, seqLen, row, s);
    TileOf(seqLen, row, s);
    CellOfTile(n, seqLen, row, s);
    var ran := Threads(TilesRun(n, seqLen, blockDim));
    forall u | u in ran && Hits(n, seqLen, u, Cell(n, row, s))
      ensures u == Tile(seqLen, row, s)
    {
      TileSplit(n, seqLen, u);
      CellOfTile(n, seqLen, RowOf(seqLen, u), ColumnOf(seqLen, u));
      SameCell(n, row, s, RowOf(seqLen, u), ColumnOf(seqLen, u));
    }
  }

  /** Otherwise no thread reaches the last cell: its index needs more than 32 bits, or
      the thread count has wrapped to zero. */
  lemma LastCellUnhit(n: nat, seqLen: nat, blockDim: nat)
    requires n > 0 && seqLen > 0 && blockDim > 0 && Times(n, seqLen) >= U32
    ensures Cell(n, n - 1, seqLen - 1) + 1 == Times(seqLen, n) == Times(n, seqLen)
    ensures Unhit(n % U32, seqLen % U32, Threads(TilesRun(n, seqLen, blockDim)), Cell(n, n - 1, seqLen - 1))
  {
    hide TileCell, GridThreads, Threads, RowOf;
    TimesIsProduct(n, seqLen);
    TimesIsProduct(seqLen, n);
    if Times(n, seqLen) == U32 {
      assert MulU32(n, seqLen) == 0;
      NoThreads(blockDim);
    }
  }

  /** Every output cell is written by exactly one tile of the launch if and only if the
      tile count fits 32 bits. */
  lemma OneTilePerCell(n: nat, seqLen: nat, blockDim: nat)
    requires n > 0 && seqLen > 0 && blockDim > 0
    ensures Times(n, seqLen) < U32 <==>
      forall cell: nat :: cell < Times(seqLen, n) ==> HasOneTile(n, seqLen, blockDim, cell)
  {
    hide Times, TilesRun, Threads, WritesAlone;
    if Times(n, seqLen) < U32 {
      forall cell: nat | cell < Times(seqLen, n)
        ensures HasOneTile(n, seqLen, blockDim, cell)
      {
        var s, row := LocateBlock(cell, seqLen, n);
        TileWritesAlone(n, seqLen, blockDim, row, s);
      }
    } else {
      LastCellUnhit(n, seqLen, blockDim);
      var last := Cell(n, n - 1, seqLen - 1);
      forall t | WritesAlone(n, seqLen, blockDim, t, last)
        ensures false
      {
        NotAlone(n, seqLen, blockDim, t, last);
      }
      assert !HasOneTile(n, seqLen, blockDim, last);
    }
  }

  lemma NotAlone(n: nat, seqLen: nat, blockDim: nat, t: nat, cell: nat)
    requires blockDim > 0 && Unhit(n % U32, seqLen % U32, Threads(TilesRun(n, seqLen, blockDim)), cell)
    ensures !WritesAlone(n, seqLen, blockDim, t, cell)
  {
    hide Hits;
  }

  /** Where everything fits, a cell holds its row's accumulation over its column. */
  lemma CellValue<F>(o: Ops<F>, w: seq<bv8>, x: seq<F>, out: seq<F>, n: nat, k: nat, seqLen: nat, blockDim: nat,
                     row: nat, s: nat)
    requires row < n && s < seqLen && blockDim > 0 && Fits(n, k, seqLen)
    requires CanLeave(o, w, x, out, n, k, seqLen, blockDim)
    ensures Cell(n, row, s) < |out|
    ensures out[Cell(n, row, s)] == RowAcc(o, w, Times(row, RowBytes(k)), x, Times(s, k), k / SUPER)
  {
    hide Times, TilesRun, TileCell, RowOf, ColumnOf, Threads, Cell, Tile, RowAcc, RowBytes, Hits, WritesAlone, Outcome;
    FactorsFit(n, seqLen);
    CellInside(n, seqLen, row, s);
    TileWritesAlone(n, seqLen, blockDim, row, s);
    HoldsItsTile(o, w, x, seq(|out|, i => o.zero), out, n, k, seqLen, blockDim, Tile(seqLen, row, s), Cell(n, row, s));
    TileOf(seqLen, row, s);
    TimesMonotone(row, n - 1, RowBytes(k), RowBytes(k));
    TimesMonotone(s, seqLen - 1, k, k);
  }

  /** A cell that one tile alone writes holds that tile's value. */
  lemma HoldsItsTile<F>(o: Ops<F>, w: seq<bv8>, x: seq<F>, was: seq<F>, now: seq<F>, n: nat, k: nat, seqLen: nat, blockDim: nat,
                        t: nat, cell: nat)
    requires blockDim > 0 && WritesAlone(n, seqLen, blockDim, t, cell) && cell < |now|
    requires Outcome(o, w, x, was, now, n % U32, k % U32, seqLen % U32, Threads(TilesRun(n, seqLen, blockDim)))
    ensures seqLen % U32 > 0 && now[cell] == TileValue(o, w, x, k % U32, seqLen % U32, t)
  {
    hide Threads, TilesRun, TileValue, TileCell, RowOf;
  }

  // ---- Over the reals --------------------------------------------------------

  /** The cell holds the dequantised row's dot product with the column. */
  ghost predicate CellRight(half: (bv8, bv8) -> real, w: seq<bv8>, x: seq<real>, out: seq<real>, n: nat, k: nat, row: nat, s: nat) {
    Cell(n, row, s) < |out|
    && out[Cell(n, row, s)] == RowDotProduct(half, w, Times(row, RowBytes(k)), x, Times(s, k), k)
  }

  ghost predicate IsProduct(half: (bv8, bv8) -> real, w: seq<bv8>, x: seq<real>, out: seq<real>, n: nat, k: nat, seqLen: nat) {
    forall row: nat, s: nat :: row < n && s < seqLen ==> CellRight(half, w, x, out, n, k, row, s)
  }

  lemma MatMulMeaning(half: (bv8, bv8) -> real, w: seq<bv8>, x: seq<real>, out: seq<real>, n: nat, k: nat, seqLen: nat, blockDim: nat)
    requires n > 0 && seqLen > 0 && blockDim > 0 && k % SUPER == 0 && Fits(n, k, seqLen)
    requires CanLeave(RealOps(half), w, x, out, n, k, seqLen, blockDim)
    ensures IsProduct(half, w, x, out, n, k, seqLen)
  {
    hide RowAcc, RowDotProduct, CanLeave, Fits, Times;
    forall row: nat, s: nat | row < n && s < seqLen
      ensures CellRight(half, w, x, out, n, k, row, s)
    {
      CellValue(RealOps(half), w, x, out, n, k, seqLen, blockDim, row, s);
      RowMeaning(half, w, Times(row, RowBytes(k)), x, Times(s, k), k / SUPER);
    }
  }

  /** Rows of no columns: every product is zero, and so is everything that any thread
      writes. */
  lemma EmptyRows(half: (bv8, bv8) -> real, w: seq<bv8>, x: seq<real>, out: seq<real>, n: nat, seqLen: nat, blockDim: nat)
    requires n > 0 && seqLen > 0 && blockDim > 0
    requires CanLeave(RealOps(half), w, x, out, n, 0, seqLen, blockDim)
    ensures IsProduct(half, w, x, out, n, 0, seqLen)
  {
    hide Hits, Times, Threads, Cell, TilesRun;
    forall row: nat, s: nat | row < n && s < seqLen
      ensures CellRight(half, w, x, out, n, 0, row, s)
    {
      CellInside(n, seqLen, row, s);
      assert out[Cell(n, row, s)] == 0.0;
    }
  }

  /** An outcome in which the cell of tile t, if it runs, holds what t makes. */
  lemma SomeOutcome<F>(o: Ops<F>, w: seq<bv8>, x: seq<F>, was: seq<F>, n: nat, k: nat, seqLen: nat, ran: set<nat>, t: nat)
    returns (now: seq<F>)
    ensures Outcome(o, w, x, was, now, n, k, seqLen, ran)
    ensures forall cell: nat :: cell < |was| && t in ran && Hits(n, seqLen, t, cell) ==>
      now[cell] == TileValue(o, w, x, k, seqLen, t)
  {
    hide Hits, TileValue;
    now := seq(|was|, cell requires 0 <= cell < |was| => LeftIn(o, w, x, was[cell], n, k, seqLen, ran, t, cell));
  }

  ghost function LeftIn<F>(o: Ops<F>, w: seq<bv8>, x: seq<F>, was: F, n: nat, k: nat, seqLen: nat, ran: set<nat>, t: nat, cell: nat): (v: F)
    ensures Written(o, w, x, v, n, k, seqLen, ran, cell) || (v == was && Unhit(n, seqLen, ran, cell))
    ensures t in ran && Hits(n, seqLen, t, cell) ==> v == TileValue(o, w, x, k, seqLen, t)
  {
    if t in ran && Hits(n, seqLen, t, cell) then TileValue(o, w, x, k, seqLen, t)
    else if exists u :: u in ran && Hits(n, seqLen, u, cell) then
      var u :| u in ran && Hits(n, seqLen, u, cell);
      TileValue(o, w, x, k, seqLen, u)
    else was
  }

  /** Some launch leaves a wrong output. */
  ghost predicate CanFail(half: (bv8, bv8) -> real, n: nat, k: nat, seqLen: nat, blockDim: nat)
    requires blockDim > 0
  {
    exists w: seq<bv8>, x: seq<real>, out: seq<real> :: Fails(half, w, x, out, n, k, seqLen, blockDim)
  }

  ghost predicate Fails(half: (bv8, bv8) -> real, w: seq<bv8>, x: seq<real>, out: seq<real>, n: nat, k: nat, seqLen: nat, blockDim: nat)
    requires blockDim > 0
  {
    && |w| == Times(n, RowBytes(k)) && |x| == Times(seqLen, k)
    && CanLeave(RealOps(half), w, x, out, n, k, seqLen, blockDim) && !IsProduct(half, w, x, out, n, k, seqLen)
  }

  /** One weight and one input, at super-block sb of row "row" and column s; t is a tile
      whose outcome matters. */
  lemma CellFails(half: (bv8, bv8) -> real, one: (bv8, bv8), n: nat, k: nat, seqLen: nat, blockDim: nat,
                  row: nat, s: nat, sb: nat, w: seq<bv8>, x: seq<real>, out: seq<real>)
    requires half(0, 0) == 0.0 && half(one.0, one.1) != 0.0
    requires row < n && s < seqLen && blockDim > 0 && k % SUPER == 0 && sb < k / SUPER
    requires w == OneWeight(one, Times(n, RowBytes(k)), Times(row, RowBytes(k)) + sb * SUPER_BYTES)
    requires x == UnitX(Times(seqLen, k), Times(s, k) + sb * SUPER)
    requires CanLeave(RealOps(half), w, x, out, n, k, seqLen, blockDim)
    requires Cell(n, row, s) < |out| ==> out[Cell(n, row, s)] == 0.0
    ensures CanFail(half, n, k, seqLen, blockDim)
  {
    hide CanLeave, RowDotProduct, Times, Cell;
    TimesOrdered(row, n, RowBytes(k));
    TimesOrdered(s, seqLen, k);
    UnitElem(x, Times(seqLen, k), Times(s, k), sb * SUPER);
    OneWeightRow(half, one, Times(n, RowBytes(k)), Times(row, RowBytes(k)), sb, x, Times(s, k), k);
    assert !CellRight(half, w, x, out, n, k, row, s);
    assert Fails(half, w, x, out, n, k, seqLen, blockDim);
  }

  /** The last cell keeps its zero. */
  lemma ManyTilesFail(half: (bv8, bv8) -> real, one: (bv8, bv8), n: nat, k: nat, seqLen: nat, blockDim: nat)
    requires half(0, 0) == 0.0 && half(one.0, one.1) != 0.0
    requires n > 0 && seqLen > 0 && blockDim > 0 && k > 0 && k % SUPER == 0 && Times(n, seqLen) >= U32
    ensures CanFail(half, n, k, seqLen, blockDim)
  {
    hide CanFail, Times, RowBytes, Unhit, Written, OneWeight, UnitX, TilesRun;
    var row, s := n - 1, seqLen - 1;
    var w := OneWeight(one, Times(n, RowBytes(k)), Times(row, RowBytes(k)) + 0 * SUPER_BYTES);
    var x := UnitX(Times(seqLen, k), Times(s, k) + 0 * SUPER);
    var ran := Threads(TilesRun(n, seqLen, blockDim));
    LastCellUnhit(n, seqLen, blockDim);
    var out := SomeOutcome(RealOps(half), w, x, seq(Times(seqLen, n), i => 0.0), n % U32, k % U32, seqLen % U32, ran, 0);
    UnhitKept(RealOps(half), w, x, seq(Times(seqLen, n), i => 0.0), out, n % U32, k % U32, seqLen % U32, ran, Cell(n, row, s));
    CellFails(half, one, n, k, seqLen, blockDim, row, s, 0, w, x, out);
  }

  lemma UnhitKept<F>(o: Ops<F>, w: seq<bv8>, x: seq<F>, was: seq<F>, now: seq<F>, n: nat, k: nat, seqLen: nat, ran: set<nat>, cell: nat)
    requires Outcome(o, w, x, was, now, n, k, seqLen, ran) && Unhit(n, seqLen, ran, cell) && cell < |was|
    ensures now[cell] == was[cell]
  {
  }

  /** A tile that makes zero leaves a wrong cell, whether it runs or not. */
  lemma ZeroTileFails(half: (bv8, bv8) -> real, one: (bv8, bv8), n: nat, k: nat, seqLen: nat, blockDim: nat,
                      row: nat, s: nat, sb: nat, w: seq<bv8>, x: seq<real>)
    requires half(0, 0) == 0.0 && half(one.0, one.1) != 0.0
    requires row < n && s < seqLen && blockDim > 0 && k % SUPER == 0 && sb < k / SUPER
    requires w == OneWeight(one, Times(n, RowBytes(k)), Times(row, RowBytes(k)) + sb * SUPER_BYTES)
    requires x == UnitX(Times(seqLen, k), Times(s, k) + sb * SUPER)
    requires Times(n, seqLen) < U32
    requires TileValue(RealOps(half), w, x, k % U32, seqLen, Tile(seqLen, row, s)) == 0.0
    ensures CanFail(half, n, k, seqLen, blockDim)
  {
    hide CanFail, Times, RowBytes, Unhit, Written, OneWeight, UnitX, TilesRun, TileValue, Cell, Tile, Outcome, Hits, Threads;
    FactorsFit(n, seqLen);
    CellInside(n, seqLen, row, s);
    TileWritesAlone(n, seqLen, blockDim, row, s);
    var ran := Threads(TilesRun(n, seqLen, blockDim));
    var was := seq(Times(seqLen, n), i => 0.0);
    var out := SomeOutcome(RealOps(half), w, x, was, n, k % U32, seqLen, ran, Tile(seqLen, row, s));
    assert |out| == |was| by { OutcomeLength(RealOps(half), w, x, was, out, n, k % U32, seqLen, ran); }
    CellFails(half, one, n, k, seqLen, blockDim, row, s, sb, w, x, out);
  }

  lemma OutcomeLength<F>(o: Ops<F>, w: seq<bv8>, x: seq<F>, was: seq<F>, now: seq<F>, n: nat, k: nat, seqLen: nat, ran: set<nat>)
    requires Outcome(o, w, x, was, now, n, k, seqLen, ran)
    ensures |now| == |was|
  {
  }

  lemma TileValueAt<F>(o: Ops<F>, w: seq<bv8>, x: seq<F>, k: nat, seqLen: nat, row: nat, s: nat)
    requires s < seqLen
    ensures TileValue(o, w, x, k, seqLen, Tile(seqLen, row, s))
         == RowAcc(o, w, MulU32(row, RowBytes(k)), x, MulU32(s, k), k / SUPER)
  {
    hide RowAcc, Tile, RowOf, ColumnOf, MulU32;
    TileOf(seqLen, row, s);
  }

  lemma MulU32Zero(b: nat)
    ensures MulU32(0, b) == 0 == Times(0, b)
  {
  }

  /** A row length that is cut to 32 bits: the thread stops before the last super-block. */
  lemma LongRowFails(half: (bv8, bv8) -> real, one: (bv8, bv8), n: nat, k: nat, seqLen: nat, blockDim: nat)
    requires half(0, 0) == 0.0 && half(one.0, one.1) != 0.0
    requires n > 0 && seqLen > 0 && blockDim > 0 && k >= U32 && k % SUPER == 0 && Times(n, seqLen) < U32
    ensures CanFail(half, n, k, seqLen, blockDim)
  {
    hide CanFail, Times, RowAcc, RowDotProduct, TileValue, Tile, MulU32, OneWeight;
    var sb, short := k / SUPER - 1, k % U32;
    var w := OneWeight(one, Times(n, RowBytes(k)), Times(0, RowBytes(k)) + sb * SUPER_BYTES);
    var x := UnitX(Times(seqLen, k), Times(0, k) + sb * SUPER);
    MulU32Zero(RowBytes(short));
    MulU32Zero(RowBytes(k));
    MulU32Zero(short);
    MulU32Zero(k);
    TileValueAt(RealOps(half), w, x, short, seqLen, 0, 0);
    RowMeaning(half, w, 0, x, 0, short / SUPER);
    assert short / SUPER * SUPER == short;
    forall c | 0 <= c < short
      ensures Elem(x, 0, c) == 0.0
    {
    }
    NoInput(half, w, 0, x, 0, short);
    ZeroTileFails(half, one, n, k, seqLen, blockDim, 0, 0, sb, w, x);
  }

  /** A byte offset that wraps: the thread reads an earlier row. */
  lemma LastRowFails(half: (bv8, bv8) -> real, one: (bv8, bv8), n: nat, k: nat, seqLen: nat, blockDim: nat)
    requires half(0, 0) == 0.0 && half(one.0, one.1) != 0.0
    requires n > 0 && seqLen > 0 && blockDim > 0 && 0 < k < U32 && k % SUPER == 0 && Times(n, seqLen) < U32
    requires Times(n - 1, RowBytes(k)) >= U32
    ensures CanFail(half, n, k, seqLen, blockDim)
  {
    hide CanFail, Times, RowAcc, TileValue, Tile, MulU32, OneWeight, UnitX, RowBytes;
    var row := n - 1;
    var w := OneWeight(one, Times(n, RowBytes(k)), Times(row, RowBytes(k)) + 0 * SUPER_BYTES);
    var x := UnitX(Times(seqLen, k), Times(0, k) + 0 * SUPER);
    MulU32Zero(k);
    TileValueAt(RealOps(half), w, x, k, seqLen, row, 0);
    WrappedRow(half, one, Times(n, RowBytes(k)), k, row, x, 0);
    ZeroTileFails(half, one, n, k, seqLen, blockDim, row, 0, 0, w, x);
  }

  /** An input offset that wraps: the thread reads an earlier column. */
  lemma LastColumnFails(half: (bv8, bv8) -> real, one: (bv8, bv8), n: nat, k: nat, seqLen: nat, blockDim: nat)
    requires half(0, 0) == 0.0 && half(one.0, one.1) != 0.0
    requires n > 0 && seqLen > 0 && blockDim > 0 && 0 < k < U32 && k % SUPER == 0 && Times(n, seqLen) < U32
    requires Times(seqLen - 1, k) >= U32
    ensures CanFail(half, n, k, seqLen, blockDim)
  {
    hide CanFail, Times, RowAcc, RowDotProduct, TileValue, Tile, MulU32, OneWeight, RowBytes;
    var s := seqLen - 1;
    var w := OneWeight(one, Times(n, RowBytes(k)), Times(0, RowBytes(k)) + 0 * SUPER_BYTES);
    var x := UnitX(Times(seqLen, k), Times(s, k) + 0 * SUPER);
    var read := MulU32(s, k);
    MulU32Zero(RowBytes(k));
    TileValueAt(RealOps(half), w, x, k, seqLen, 0, s);
    RowMeaning(half, w, 0, x, read, k / SUPER);
    assert k / SUPER * SUPER == k;
    WrapDistance(s, k);
    forall c | 0 <= c < k
      ensures Elem(x, read, c) == 0.0
    {
    }
    NoInput(half, w, 0, x, read, k);
    ZeroTileFails(half, one, n, k, seqLen, blockDim, 0, s, 0, w, x);
  }

  lemma WrappingFails(half: (bv8, bv8) -> real, one: (bv8, bv8), n: nat, k: nat, seqLen: nat, blockDim: nat)
    requires half(0, 0) == 0.0 && half(one.0, one.1) != 0.0
    requires n > 0 && seqLen > 0 && blockDim > 0 && k > 0 && k % SUPER == 0 && !Fits(n, k, seqLen)
    ensures CanFail(half, n, k, seqLen, blockDim)
  {
    hide CanFail, Times, RowBytes;
    if Times(n, seqLen) >= U32 {
      ManyTilesFail(half, one, n, k, seqLen, blockDim);
    } else if k >= U32 {
      LongRowFails(half, one, n, k, seqLen, blockDim);
    } else if Times(n - 1, RowBytes(k)) >= U32 {
      LastRowFails(half, one, n, k, seqLen, blockDim);
    } else {
      LastColumnFails(half, one, n, k, seqLen, blockDim);
    }
  }

  /** The launch's output is the product, for all weights, inputs and thread orders, if
      and only if nothing wraps (or the rows are empty). "one" is any half-precision
      pattern that does not decode to zero. */
  lemma MatMulExact(half: (bv8, bv8) -> real, one: (bv8, bv8), n: nat, k: nat, seqLen: nat, blockDim: nat)
    requires half(0, 0) == 0.0 && half(one.0, one.1) != 0.0
    requires n > 0 && seqLen > 0 && blockDim > 0 && k % SUPER == 0
    ensures k == 0 || Fits(n, k, seqLen) <==>
      forall w: seq<bv8>, x: seq<real>, out: seq<real> ::
        |w| == Times(n, RowBytes(k)) && |x| == Times(seqLen, k) && CanLeave(RealOps(half), w, x, out, n, k, seqLen, blockDim) ==>
          IsProduct(half, w, x, out, n, k, seqLen)
  {
    hide CanLeave, IsProduct, Times;
    if k == 0 || Fits(n, k, seqLen) {
      forall w: seq<bv8>, x: seq<real>, out: seq<real> | CanLeave(RealOps(half), w, x, out, n, k, seqLen, blockDim)
        ensures IsProduct(half, w, x, out, n, k, seqLen)
      {
        if k == 0 {
          EmptyRows(half, w, x, out, n, seqLen, blockDim);
        } else {
          MatMulMeaning(half, w, x, out, n, k, seqLen, blockDim);
        }
      }
    } else {
      WrappingFails(half, one, n, k, seqLen, blockDim);
    }
  }

  // ---- A column of the product is a matrix-vector product -------------------

  function Item<F>(o: Ops<F>, x: seq<F>, from: int, i: int): F {
    Val(o, x, from + i)
  }

  ghost predicate SameStretch<F>(o: Ops<F>, x: seq<F>, xBase: int, y: seq<F>, yBase: int, n: nat) {
    forall i :: 0 <= i < n ==> Item(o, x, xBase, i) == Item(o, y, yBase, i)
  }

  lemma PartOfStretch<F>(o: Ops<F>, x: seq<F>, xBase: int, y: seq<F>, yBase: int, n: nat, from: nat, m: nat)
    requires SameStretch(o, x, xBase, y, yBase, n) && from + m <= n
    ensures SameStretch(o, x, xBase + from, y, yBase + from, m)
  {
    hide Val;
    var xFrom, yFrom := xBase + from, yBase + from;
    forall i | 0 <= i < m
      ensures Item(o, x, xFrom, i) == Item(o, y, yFrom, i)
    {
      assert Item(o, x, xBase, from + i) == Item(o, y, yBase, from + i);
    }
  }

  lemma {:induction false} SumXLocal<F>(o: Ops<F>, x: seq<F>, xBase: int, y: seq<F>, yBase: int, n: nat)
    requires SameStretch(o, x, xBase, y, yBase, n)
    ensures SumX(o, x, xBase, n) == SumX(o, y, yBase, n)
  {
    if n > 0 {
      SumXLocal(o, x, xBase, y, yBase, n - 1);
      assert Item(o, x, xBase, n - 1) == Item(o, y, yBase, n - 1);
    }
  }

  lemma {:induction false} DotLocal<F>(o: Ops<F>, w: seq<bv8>, qs: int, high: bool, x: seq<F>, xBase: int, y: seq<F>, yBase: int, n: nat)
    requires SameStretch(o, x, xBase, y, yBase, n)
    ensures Dot(o, w, qs, high, x, xBase, n) == Dot(o, w, qs, high, y, yBase, n)
  {
    if n > 0 {
      DotLocal(o, w, qs, high, x, xBase, y, yBase, n - 1);
      assert Item(o, x, xBase, n - 1) == Item(o, y, yBase, n - 1);
    }
  }

  lemma {:induction false} GroupsLocal<F>(o: Ops<F>, w: seq<bv8>, block: int, x: seq<F>, xBlock: int, y: seq<F>, yBlock: int, acc: F, n: nat)
    requires n <= 8 && SameStretch(o, x, xBlock, y, yBlock, SUPER)
    ensures Groups(o, w, block, x, xBlock, acc, n) == Groups(o, w, block, y, yBlock, acc, n)
  {
    hide SumX, Dot, Scale, MinScale, SameStretch;
    if n > 0 {
      GroupsLocal(o, w, block, x, xBlock, y, yBlock, acc, n - 1);
      var j := n - 1;
      PartOfStretch(o, x, xBlock, y, yBlock, SUPER, j * 32, 32);
      SumXLocal(o, x, xBlock + j * 32, y, yBlock + j * 32, 32);
      DotLocal(o, w, QuantBase(block, j), j % 2 == 1, x, xBlock + j * 32, y, yBlock + j * 32, 32);
    }
  }

  lemma {:induction false} RowLocal<F>(o: Ops<F>, w: seq<bv8>, row: int, x: seq<F>, xRow: int, y: seq<F>, yRow: int, n: nat)
    requires SameStretch(o, x, xRow, y, yRow, n * SUPER)
    ensures RowAcc(o, w, row, x, xRow, n) == RowAcc(o, w, row, y, yRow, n)
  {
    hide Groups, SameStretch;
    if n > 0 {
      var from := (n - 1) * SUPER;
      PartOfStretch(o, x, xRow, y, yRow, n * SUPER, 0, from);
      PartOfStretch(o, x, xRow, y, yRow, n * SUPER, from, SUPER);
      RowLocal(o, w, row, x, xRow, y, yRow, n - 1);
      GroupsLocal(o, w, row + (n - 1) * SUPER_BYTES, x, xRow + from, y, yRow + from,
                  RowAcc(o, w, row, y, yRow, n - 1), 8);
    }
  }

  /** With no law of the arithmetic assumed: where nothing wraps, column s of the product is
      what q4k_matvec gives for that column of the input. */
  lemma ColumnIsMatVec<F>(o: Ops<F>, w: seq<bv8>, x: seq<F>, out: seq<F>, n: nat, k: nat, seqLen: nat, blockDim: nat, row: nat, s: nat)
    requires k % SUPER == 0 && row < n && s < seqLen && blockDim > 0 && |x| == Times(seqLen, k)
    requires Fits(n, k, seqLen) && CanLeave(o, w, x, out, n, k, seqLen, blockDim)
    ensures Times(s, k) + k <= |x| && Cell(n, row, s) < |out|
    ensures out[Cell(n, row, s)] == RowResult(o, w, x[Times(s, k)..Times(s, k) + k], k, row)
  {
    hide RowAcc, Times, MulU32, CanLeave;
    CellValue(o, w, x, out, n, k, seqLen, blockDim, row, s);
    TimesOrdered(s, seqLen, k);
    TimesMonotone(row, n - 1, RowBytes(k), RowBytes(k));
    RowLocal(o, w, Times(row, RowBytes(k)), x, Times(s, k), x[Times(s, k)..Times(s, k) + k], 0, k / SUPER);
  }
}
