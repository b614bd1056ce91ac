/** The image tiler: the choice of a grid, the nearest-neighbour resize, and the cut
    into tiles. */
module AnyresTiler {
  import opened Arith
  import opened Wrappers

  // ---- The grid -------------------------------------------------------------

  /** A grid of rows and columns that uses at most count tiles. */
  predicate FitsCount(r: int, c: int, count: nat) {
    r >= 1 && c >= 1 && r * c <= count
  }

  function Abs(x: real): real {
    if x < 0.0 then -x else x
  }

  function Aspect(width: nat, height: nat): real
    requires height > 0
  {
    width as real / height as real
  }

  /** How far the grid's aspect ratio is from the image's. */
  function Score(r: int, c: int, aspect: real): real
    requires r >= 1
  {
    Abs(c as real / r as real - aspect)
  }

  /** A strictly better grid: a smaller error, or the same error and more tiles. */
  predicate Better(r: int, c: int, r': int, c': int, aspect: real)
    requires r >= 1 && r' >= 1
  {
    Score(r, c, aspect) < Score(r', c', aspect) || (Score(r, c, aspect) == Score(r', c', aspect) && r * c > r' * c')
  }

  ghost predicate Admitted(counts: seq<nat>, r: int, c: int) {
    exists k :: 0 <= k < |counts| && FitsCount(r, c, counts[k])
  }

  /** The running best: the score is None until a grid has been seen (the code starts
      from the largest float). */
  datatype Best = Best(r: nat, c: nat, score: Option<real>)

  ghost predicate BestOf(b: Best, aspect: real, counts: seq<nat>) {
    b.r >= 1 && b.c >= 1
    && match b.score
       case None => b.r == 1 && b.c == 1
       case Some(s) => s == Score(b.r, b.c, aspect) && Admitted(counts, b.r, b.c)
  }

  /** Grid (r, c) has been taken into account. */
  ghost predicate Seen(b: Best, aspect: real, r: int, c: int) {
    r >= 1 && b.r >= 1 && b.score.Some? && !Better(r, c, b.r, b.c, aspect)
  }

  method Consider(b: Best, r: nat, c: nat, aspect: real, ghost counts: seq<nat>) returns (now: Best)
    requires r >= 1 && c >= 1 && BestOf(b, aspect, counts) && Admitted(counts, r, c)
    ensures BestOf(now, aspect, counts) && Seen(now, aspect, r, c)
    ensures forall r', c' :: Seen(b, aspect, r', c') ==> Seen(now, aspect, r', c')
  {
    var score := Score(r, c, aspect);
    if b.score.None? || score < b.score.value || (score == b.score.value && r * c > b.r * b.c) {
      now := Best(r, c, Some(score));
    } else {
      now := b;
    }
  }

  /** The two inner loops, for one tile count. */
  method ConsiderCount(b: Best, counts: seq<nat>, k: nat, aspect: real) returns (now: Best)
    requires k < |counts| && BestOf(b, aspect, counts)
    ensures BestOf(now, aspect, counts)
    ensures forall r, c :: Seen(b, aspect, r, c) || FitsCount(r, c, counts[k]) ==> Seen(now, aspect, r, c)
  {
    hide Better, Score, Seen, FitsCount;
    var count := counts[k];
    now := b;
    for r := 1 to count + 1
      invariant BestOf(now, aspect, counts)
      invariant forall r', c' :: Seen(b, aspect, r', c') || (1 <= r' < r && FitsCount(r', c', count)) ==> Seen(now, aspect, r', c')
    {
      ghost var before := now;
      for c := 1 to count + 1
        invariant BestOf(now, aspect, counts)
        invariant forall r', c' :: Seen(before, aspect, r', c') || (r' == r && 1 <= c' < c && FitsCount(r', c', count)) ==>
          Seen(now, aspect, r', c')
      {
        if r * c <= count {
          AdmittedAt(counts, k, r, c);
          now := Consider(now, r, c, aspect, counts);
        } else {
          NotFitting(r, c, count);
        }
      }
      FitsAreInside(count);
    }
    FitsAreInside(count);
  }

  lemma AdmittedAt(counts: seq<nat>, k: nat, r: int, c: int)
    requires k < |counts| && r >= 1 && c >= 1 && r * c <= counts[k]
    ensures Admitted(counts, r, c)
  {
  }

  lemma NotFitting(r: int, c: int, count: nat)
    requires r * c > count
    ensures !FitsCount(r, c, count)
  {
  }

  lemma FitsAreInside(count: nat)
    ensures forall r, c :: FitsCount(r, c, count) ==> 1 <= r <= count && 1 <= c <= count
  {
  }

  /** The best of all grids that use at most the largest valid count: least aspect error,
      then most tiles. */
  ghost predicate IsOptimal(counts: seq<nat>, aspect: real, rows: int, cols: int) {
    && rows >= 1 && cols >= 1 && Admitted(counts, rows, cols)
    && forall r, c :: Admitted(counts, r, c) ==> r >= 1 && !Better(r, c, rows, cols, aspect)
  }

  /** The grid of an image: a best one; one tile without any grid to choose from, or for
      an image of no height (whose aspect compares with nothing). */
  ghost predicate IsChosen(counts: seq<nat>, width: nat, height: nat, rows: int, cols: int) {
    if height > 0 && exists k :: 0 <= k < |counts| && counts[k] > 0
    then IsOptimal(counts, Aspect(width, height), rows, cols)
    else rows == 1 && cols == 1
  }

  method OptimalGrid(counts: seq<nat>, width: nat, height: nat) returns (rows: nat, cols: nat)
    ensures rows >= 1 && cols >= 1
    ensures IsChosen(counts, width, height, rows, cols)
  {
    hide Better, Score;
    if height == 0 {
      return 1, 1;
    }
    var aspect := Aspect(width, height);
    var best := Best(1, 1, None);
    for k := 0 to |counts|
      invariant BestOf(best, aspect, counts)
      invariant forall k', r, c :: 0 <= k' < k && FitsCount(r, c, counts[k']) ==> Seen(best, aspect, r, c)
    {
      best := ConsiderCount(best, counts, k, aspect);
    }
    if k :| 0 <= k < |counts| && counts[k] > 0 {
      assert FitsCount(1, 1, counts[k]);
      assert Seen(best, aspect, 1, 1);
    }
    forall r, c | Admitted(counts, r, c)
      ensures Seen(best, aspect, r, c)
    {
      var k :| 0 <= k < |counts| && FitsCount(r, c, counts[k]);
    }
    rows, cols := best.r, best.c;
  }

  // ---- The number of tiles --------------------------------------------------

  ghost predicate IsLargest(counts: seq<nat>, m: nat) {
    (m in counts || (counts == [] && m == 0)) && forall k :: 0 <= k < |counts| ==> counts[k] <= m
  }

  /** With m the largest count, the number of detail tiles is a valid count for every
      image of some height if and only if m is positive and every number above a quarter
      of m, up to m, is a valid count; for every image at all, if and only if one is a
      valid count besides. */
  lemma CountsValidExactly(counts: seq<nat>, m: nat)
    requires IsLargest(counts, m)
    ensures (forall width: nat, height: nat, rows: nat, cols: nat ::
               height > 0 && IsChosen(counts, width, height, rows, cols) ==> rows * cols in counts)
        <==> m > 0 && forall n: nat :: m < 4 * n && n <= m ==> n in counts
    ensures (forall width: nat, height: nat, rows: nat, cols: nat ::
               IsChosen(counts, width, height, rows, cols) ==> rows * cols in counts)
        <==> 1 in counts && forall n: nat :: m < 4 * n && n <= m ==> n in counts
  {
    hide Better, Score, IsOptimal;
    assert IsChosen(counts, 0, 0, 1, 1) && 1 * 1 == 1;
    if m == 0 {
      assert IsChosen(counts, 0, 1, 1, 1) && 1 !in counts;
    } else if forall n: nat :: m < 4 * n && n <= m ==> n in counts {
      forall width: nat, height: nat, rows: nat, cols: nat |
        height > 0 && IsChosen(counts, width, height, rows, cols)
        ensures rows * cols in counts
      {
        MoreThanAQuarter(counts, m, Aspect(width, height), rows, cols);
      }
    } else {
      var n: nat :| m < 4 * n && n <= m && n !in counts;
      OneRow(counts, m, n);
      assert IsChosen(counts, n, 1, 1, n) && 1 * n !in counts;
    }
  }

  /** A grid of at most a quarter of m tiles can be doubled both ways: the same error and
      more tiles. */
  lemma MoreThanAQuarter(counts: seq<nat>, m: nat, aspect: real, rows: nat, cols: nat)
    requires IsLargest(counts, m) && m > 0 && IsOptimal(counts, aspect, rows, cols)
    ensures m < 4 * (rows * cols) && rows * cols <= m
  {
    hide Score;
    assert 2 * rows * (2 * cols) == 4 * (rows * cols);
    assert rows * cols >= 1;
    if 4 * (rows * cols) <= m {
      var k :| 0 <= k < |counts| && counts[k] == m;
      AdmittedAt(counts, k, 2 * rows, 2 * cols);
      SameScore(rows, cols, aspect);
    }
  }

  lemma SameScore(rows: nat, cols: nat, aspect: real)
    requires rows >= 1
    ensures Score(2 * rows, 2 * cols, aspect) == Score(rows, cols, aspect)
  {
    var q := cols as real / rows as real;
    assert q * (2 * rows) as real == (2 * cols) as real;
    QuotientIs(q, (2 * cols) as real, (2 * rows) as real);
  }

  lemma QuotientIs(q: real, a: real, b: real)
    requires b != 0.0 && q * b == a
    ensures a / b == q
  {
  }

  /** An image n times as wide as high takes one row of n, if n exceeds a quarter of m:
      the next grid without error has two rows of 2 n. */
  lemma OneRow(counts: seq<nat>, m: nat, n: nat)
    requires IsLargest(counts, m) && m < 4 * n && n <= m
    ensures IsOptimal(counts, Aspect(n, 1), 1, n)
  {
    hide Score;
    var k :| 0 <= k < |counts| && counts[k] == m;
    AdmittedAt(counts, k, 1, n);
    var aspect := Aspect(n, 1);
    ScoreOfExact(1, n, aspect);
    forall r, c | Admitted(counts, r, c)
      ensures r >= 1 && !Better(r, c, 1, n, aspect)
    {
      assert r * c <= m;
      ScoreOfExact(r, c, aspect);
      if Better(r, c, 1, n, aspect) {
        assert c == r * n;
        SquareTimes(r, n);
      }
    }
  }

  lemma ScoreOfExact(r: int, c: int, aspect: real)
    requires r >= 1
    ensures Score(r, c, aspect) >= 0.0
    ensures Score(r, c, aspect) == 0.0 <==> c as real == r as real * aspect
  {
    if c as real == r as real * aspect {
      QuotientIs(aspect, c as real, r as real);
    }
    assert c as real / r as real * r as real == c as real;
  }

  lemma SquareTimes(r: int, n: nat)
    requires r >= 1
    ensures r == 1 ==> r * (r * n) == n
    ensures r >= 2 ==> r * (r * n) >= 4 * n
  {
    if r >= 2 {
      assert r * n >= 2 * n;
      assert r * (r * n) >= 2 * (r * n);
    }
  }

  /** So with four as the only count, an image three times as wide as high gets three. */
  lemma ThreeOfFour(rows: nat, cols: nat)
    requires IsChosen([4], 300, 100, rows, cols)
    ensures rows * cols == 3
  {
    OneRow([4], 4, 3);
    SameBest([4], Aspect(300, 100), rows, cols, 1, 3);
  }

  /** Two best grids have the same number of tiles. */
  lemma SameBest(counts: seq<nat>, aspect: real, r: nat, c: nat, r': nat, c': nat)
    requires IsOptimal(counts, aspect, r, c) && IsOptimal(counts, aspect, r', c')
    ensures r * c == r' * c'
  {
  }

  // ---- Pixels ---------------------------------------------------------------

  function ByteAt(b: seq<bv8>, i: int): bv8 {
    if 0 <= i < |b| then b[i] else 0
  }

  /** Pixel p of a row-major image: three bytes. */
  function PixelAt(b: seq<bv8>, p: int): (bv8, bv8, bv8) {
    (ByteAt(b, 3 * p), ByteAt(b, 3 * p + 1), ByteAt(b, 3 * p + 2))
  }

  ghost function Pixel(b: seq<bv8>, width: nat, y: nat, x: nat): (bv8, bv8, bv8) {
    PixelAt(b, Times(y, width) + x)
  }

  ghost predicate IsImage(b: seq<bv8>, width: nat, height: nat) {
    |b| == 3 * Times(height, width)
  }

  /** The source coordinate of a destination coordinate. */
  function Nearest(i: nat, src: nat, dst: nat): nat
    requires dst > 0
  {
    i * src / dst
  }

  /** Every read stays inside the source. */
  lemma NearestInside(i: nat, src: nat, dst: nat)
    requires i < dst && src > 0
    ensures Nearest(i, src, dst) < src
  {
    assert i * src < dst * src;
  }

  lemma NearestIdentity(i: nat, size: nat)
    requires i < size
    ensures Nearest(i, size, size) == i
  {
    DivModUnique(i * size, size, i, 0);
  }

  lemma PixelInside(y: nat, x: nat, width: nat, height: nat)
    requires y < height && x < width
    ensures 3 * (Times(y, width) + x) + 2 < 3 * Times(height, width)
  {
  }

  // ---- Resizing -------------------------------------------------------------

  ghost predicate RowResized(out: seq<bv8>, src: seq<bv8>, srcW: nat, srcH: nat, dstW: nat, dstH: nat, y: nat, upTo: nat)
    requires y < dstH
  {
    forall x: nat :: x < upTo && x < dstW ==>
      PixelAt(out, Times(y, dstW) + x) == Pixel(src, srcW, Nearest(y, srcH, dstH), Nearest(x, srcW, dstW))
  }

  /** Every pixel of the output is the nearest pixel of the source. */
  ghost predicate IsResized(out: seq<bv8>, src: seq<bv8>, srcW: nat, srcH: nat, dstW: nat, dstH: nat) {
    IsImage(out, dstW, dstH) && forall y: nat :: y < dstH ==> RowResized(out, src, srcW, srcH, dstW, dstH, y, dstW)
  }

  method CopyPixel(out: array<bv8>, to: nat, src: seq<bv8>, from: nat)
    requires 3 * to + 2 < out.Length && 3 * from + 2 < |src|
    modifies out
    ensures PixelAt(out[..], to) == PixelAt(src, from)
    ensures forall p :: p != to ==> PixelAt(out[..], p) == PixelAt(old(out[..]), p)
  {
    out[3 * to] := src[3 * from];
    out[3 * to + 1] := src[3 * from + 1];
    out[3 * to + 2] := src[3 * from + 2];
  }

  method ResizeRow(out: array<bv8>, src: seq<bv8>, srcW: nat, srcH: nat, dstW: nat, dstH: nat, y: nat)
    requires (srcW > 0 && srcH > 0) || dstW == 0
    requires IsImage(src, srcW, srcH) && y < dstH && out.Length == 3 * Times(dstH, dstW)
    modifies out
    ensures RowResized(out[..], src, srcW, srcH, dstW, dstH, y, dstW)
    ensures forall p :: p < Times(y, dstW) ==> PixelAt(out[..], p) == PixelAt(old(out[..]), p)
  {
    hide PixelAt, Nearest, Times;
    TimesIsProduct(y, dstW);
    var sy := Nearest(y, srcH, dstH);
    TimesIsProduct(sy, srcW);
    for x := 0 to dstW
      invariant RowResized(out[..], src, srcW, srcH, dstW, dstH, y, x)
      invariant forall p :: p < Times(y, dstW) ==> PixelAt(out[..], p) == PixelAt(old(out[..]), p)
    {
      var sx := Nearest(x, srcW, dstW);
      NearestInside(y, srcH, dstH);
      NearestInside(x, srcW, dstW);
      PixelInside(sy, sx, srcW, srcH);
      PixelInside(y, x, dstW, dstH);
      CopyPixel(out, y * dstW + x, src, sy * srcW + sx);
    }
  }

  /** Nearest-neighbour resize. */
  method ResizeRgb(src: seq<bv8>, srcW: nat, srcH: nat, dstW: nat, dstH: nat) returns (out: array<bv8>)
    requires (srcW > 0 && srcH > 0) || Times(dstH, dstW) == 0
    requires IsImage(src, srcW, srcH)
    ensures fresh(out) && IsResized(out[..], src, srcW, srcH, dstW, dstH)
  {
    hide PixelAt, Nearest, RowResized, Times;
    TimesIsProduct(dstH, dstW);
    out := new bv8[dstW * dstH * 3](i => 0);
    for y := 0 to dstH
      invariant forall y': nat :: y' < y ==> RowResized(out[..], src, srcW, srcH, dstW, dstH, y', dstW)
    {
      ghost var was := out[..];
      TimesOrdered(0, dstH, dstW);
      ResizeRow(out, src, srcW, srcH, dstW, dstH, y);
      EarlierRowsKept(was, out[..], src, srcW, srcH, dstW, dstH, y);
    }
  }

  lemma EarlierRowsKept(was: seq<bv8>, now: seq<bv8>, src: seq<bv8>, srcW: nat, srcH: nat, dstW: nat, dstH: nat, y: nat)
    requires y < dstH
    requires forall p :: p < Times(y, dstW) ==> PixelAt(now, p) == PixelAt(was, p)
    ensures forall y': nat :: y' < y && RowResized(was, src, srcW, srcH, dstW, dstH, y', dstW) ==>
      RowResized(now, src, srcW, srcH, dstW, dstH, y', dstW)
  {
    hide PixelAt, Nearest, Pixel;
    forall y': nat | y' < y && RowResized(was, src, srcW, srcH, dstW, dstH, y', dstW)
      ensures RowResized(now, src, srcW, srcH, dstW, dstH, y', dstW)
    {
      TimesOrdered(y', y, dstW);
    }
  }

  /** Images with the same pixels are the same bytes. */
  lemma SamePixels(a: seq<bv8>, b: seq<bv8>, width: nat, height: nat)
    requires IsImage(a, width, height) && IsImage(b, width, height)
    requires forall y: nat, x: nat :: y < height && x < width ==> Pixel(a, width, y, x) == Pixel(b, width, y, x)
    ensures a == b
  {
    hide Times;
    forall i | 0 <= i < |a|
      ensures a[i] == b[i]
    {
      var y, x := LocateBlock(i / 3, height, width);
      assert Pixel(a, width, y, x) == Pixel(b, width, y, x);
      assert i == 3 * (i / 3) + i % 3;
    }
  }

  /** Resizing to its own size copies an image. */
  lemma SameSizeCopies(out: seq<bv8>, src: seq<bv8>, width: nat, height: nat)
    requires IsImage(src, width, height) && IsResized(out, src, width, height, width, height)
    ensures out == src
  {
    hide Pixel, PixelAt, Nearest, Times;
    forall y: nat, x: nat | y < height && x < width
      ensures Pixel(out, width, y, x) == Pixel(src, width, y, x)
    {
      ResizedPixel(out, src, width, height, width, height, y, x);
      NearestIdentity(y, height);
      NearestIdentity(x, width);
    }
    SamePixels(out, src, width, height);
  }

  lemma ResizedPixel(out: seq<bv8>, src: seq<bv8>, srcW: nat, srcH: nat, dstW: nat, dstH: nat, y: nat, x: nat)
    requires IsResized(out, src, srcW, srcH, dstW, dstH) && y < dstH && x < dstW
    ensures Pixel(out, dstW, y, x) == Pixel(src, srcW, Nearest(y, srcH, dstH), Nearest(x, srcW, dstW))
  {
    hide PixelAt, Nearest, Times;
    assert RowResized(out, src, srcW, srcH, dstW, dstH, y, dstW);
  }

  /** Enlarging k times repeats every pixel k times each way. */
  lemma EnlargingRepeats(out: seq<bv8>, src: seq<bv8>, width: nat, height: nat, k: nat, y: nat, x: nat)
    requires k > 0 && IsResized(out, src, width, height, k * width, k * height) && y < k * height && x < k * width
    ensures Pixel(out, k * width, y, x) == Pixel(src, width, y / k, x / k)
  {
    hide Pixel, IsResized;
    ResizedPixel(out, src, width, height, k * width, k * height, y, x);
    NearestOfMultiple(y, height, k);
    NearestOfMultiple(x, width, k);
  }

  lemma NearestOfMultiple(i: nat, size: nat, k: nat)
    requires k > 0 && i < k * size
    ensures Nearest(i, size, k * size) == i / k
  {
    var q, r := i / k, i % k;
    assert i == q * k + r;
    assert i * size == q * (k * size) + r * size;
    assert r * size < k * size;
    DivModUnique(i * size, k * size, q, r * size);
  }

  // ---- Tiles ----------------------------------------------------------------

  /** Tile (r, c) of a grid image. */
  ghost predicate IsTile(tile: seq<bv8>, grid: seq<bv8>, gridW: nat, ts: nat, r: nat, c: nat) {
    IsImage(tile, ts, ts)
    && forall y: nat, x: nat :: y < ts && x < ts ==>
         Pixel(tile, ts, y, x) == Pixel(grid, gridW, Times(r, ts) + y, Times(c, ts) + x)
  }

  method CutTile(grid: seq<bv8>, rows: nat, cols: nat, ts: nat, r: nat, c: nat) returns (tile: array<bv8>)
    requires r < rows && c < cols && IsImage(grid, Times(cols, ts), Times(rows, ts))
    ensures fresh(tile) && IsTile(tile[..], grid, Times(cols, ts), ts, r, c)
  {
    hide PixelAt, Times;
    var gridW := Offset(cols, ts);
    var top := Offset(r, ts);
    var left := Offset(c, ts);
    TimesOrdered(r, rows, ts);
    TimesOrdered(c, cols, ts);
    TimesIsProduct(ts, ts);
    tile := new bv8[ts * ts * 3](i => 0);
    for y := 0 to ts
      invariant forall y': nat, x: nat :: y' < y && x < ts ==>
        Pixel(tile[..], ts, y', x) == Pixel(grid, gridW, top + y', left + x)
    {
      for x := 0 to ts
        invariant forall y': nat, x': nat :: (y' < y && x' < ts) || (y' == y && x' < x) ==>
          Pixel(tile[..], ts, y', x') == Pixel(grid, gridW, top + y', left + x')
      {
        ghost var was := tile[..];
        PixelInside(top + y, left + x, gridW, Times(rows, ts));
        PixelInside(y, x, ts, ts);
        var to := Offset(y, ts);
        var from := Offset(top + y, gridW);
        CopyPixel(tile, to + x, grid, from + left + x);
        OthersKept(was, tile[..], ts, y, x);
      }
    }
  }

  lemma OthersKept(was: seq<bv8>, now: seq<bv8>, width: nat, y: nat, x: nat)
    requires x < width && forall p :: p != Times(y, width) + x ==> PixelAt(now, p) == PixelAt(was, p)
    ensures forall y': nat, x': nat :: x' < width && (y' != y || x' != x) ==>
      Pixel(now, width, y', x') == Pixel(was, width, y', x')
  {
    hide PixelAt;
    forall y': nat, x': nat | x' < width && (y' != y || x' != x)
      ensures Pixel(now, width, y', x') == Pixel(was, width, y', x')
    {
      if y' < y { TimesOrdered(y', y, width); }
      if y < y' { TimesOrdered(y, y', width); }
    }
  }

  datatype TiledImage = TiledImage(base: seq<bv8>, details: seq<seq<bv8>>)

  ghost predicate TileAt(tiles: seq<seq<bv8>>, grid: seq<bv8>, cols: nat, ts: nat, r: nat, c: nat) {
    Times(r, cols) + c < |tiles| && IsTile(tiles[Times(r, cols) + c], grid, Times(cols, ts), ts, r, c)
  }

  /** All the tiles, row by row. */
  ghost predicate AreTiles(tiles: seq<seq<bv8>>, grid: seq<bv8>, rows: nat, cols: nat, ts: nat) {
    |tiles| == Times(rows, cols)
    && forall r: nat, c: nat :: r < rows && c < cols ==> TileAt(tiles, grid, cols, ts, r, c)
  }

  method CutTiles(grid: seq<bv8>, rows: nat, cols: nat, ts: nat) returns (tiles: seq<seq<bv8>>)
    requires IsImage(grid, Times(cols, ts), Times(rows, ts))
    ensures AreTiles(tiles, grid, rows, cols, ts)
  {
    hide IsTile;
    tiles := [];
    for r := 0 to rows
      invariant AreTiles(tiles, grid, r, cols, ts)
    {
      ghost var before := tiles;
      for c := 0 to cols
        invariant |tiles| == Times(r, cols) + c && before <= tiles
        invariant forall c': nat :: c' < c ==> TileAt(tiles, grid, cols, ts, r, c')
      {
        var tile := CutTile(grid, rows, cols, ts, r, c);
        ghost var was := tiles;
        tiles := tiles + [tile[..]];
        assert forall c': nat :: c' < c && TileAt(was, grid, cols, ts, r, c') ==> TileAt(tiles, grid, cols, ts, r, c');
      }
      OneMoreRowOfTiles(before, tiles, grid, r, cols, ts);
    }
  }

  lemma OneMoreRowOfTiles(before: seq<seq<bv8>>, tiles: seq<seq<bv8>>, grid: seq<bv8>, r: nat, cols: nat, ts: nat)
    requires AreTiles(before, grid, r, cols, ts) && |tiles| == Times(r, cols) + cols && before <= tiles
    requires forall c: nat :: c < cols ==> TileAt(tiles, grid, cols, ts, r, c)
    ensures AreTiles(tiles, grid, r + 1, cols, ts)
  {
    hide IsTile;
    forall r': nat, c: nat | r' < r + 1 && c < cols
      ensures TileAt(tiles, grid, cols, ts, r', c)
    {
      if r' < r {
        TimesOrdered(r', r, cols);
        assert TileAt(before, grid, cols, ts, r', c);
        assert tiles[Times(r', cols) + c] == before[Times(r', cols) + c];
      }
    }
  }

  /** A base tile and the detail tiles of the chosen grid. */
  ghost predicate IsTiling(t: TiledImage, rgb: seq<bv8>, width: nat, height: nat, ts: nat, rows: nat, cols: nat) {
    IsResized(t.base, rgb, width, height, ts, ts)
    && exists grid: seq<bv8> :: IsResized(grid, rgb, width, height, Times(cols, ts), Times(rows, ts))
                               && AreTiles(t.details, grid, rows, cols, ts)
  }

  method Tile(counts: seq<nat>, ts: nat, rgb: seq<bv8>, width: nat, height: nat)
    returns (t: TiledImage, rows: nat, cols: nat)
    requires (width > 0 && height > 0) || ts == 0
    requires IsImage(rgb, width, height)
    ensures IsTiling(t, rgb, width, height, ts, rows, cols)
    ensures IsChosen(counts, width, height, rows, cols)
  {
    hide IsResized, AreTiles, IsChosen;
    rows, cols := OptimalGrid(counts, width, height);
    if ts == 0 {
      TimesIsProduct(rows, 0);
      TimesIsProduct(cols, 0);
    }
    var base := ResizeRgb(rgb, width, height, ts, ts);
    var gridW := Offset(cols, ts);
    var gridH := Offset(rows, ts);
    var grid := ResizeRgb(rgb, width, height, gridW, gridH);
    ResizedIsImage(grid[..], rgb, width, height, gridW, gridH);
    var details := CutTiles(grid[..], rows, cols, ts);
    t := TiledImage(base[..], details);
  }

  lemma ResizedIsImage(out: seq<bv8>, src: seq<bv8>, srcW: nat, srcH: nat, dstW: nat, dstH: nat)
    requires IsResized(out, src, srcW, srcH, dstW, dstH)
    ensures IsImage(out, dstW, dstH)
  {
  }

  // ---- Stitching ------------------------------------------------------------

  /** The detail tiles laid side by side. */
  ghost function Stitched(tiles: seq<seq<bv8>>, cols: nat, ts: nat, y: nat, x: nat): (bv8, bv8, bv8)
    requires ts > 0 && Times(y / ts, cols) + x / ts < |tiles|
  {
    Pixel(tiles[Times(y / ts, cols) + x / ts], ts, y % ts, x % ts)
  }

  lemma TileOfPixel(i: nat, n: nat, ts: nat)
    requires i < Times(n, ts)
    ensures ts > 0 && i / ts < n && i == Times(i / ts, ts) + i % ts
  {
    var b, r := LocateBlock(i, n, ts);
    TimesIsProduct(b, ts);
    DivModUnique(i, ts, b, r);
  }

  /** Stitching the detail tiles gives the image resized to the grid. */
  lemma StitchedIsResized(t: TiledImage, rgb: seq<bv8>, width: nat, height: nat, ts: nat, rows: nat, cols: nat, y: nat, x: nat)
    requires IsTiling(t, rgb, width, height, ts, rows, cols) && y < Times(rows, ts) && x < Times(cols, ts)
    ensures ts > 0 && Times(y / ts, cols) + x / ts < |t.details|
    ensures Stitched(t.details, cols, ts, y, x)
         == Pixel(rgb, width, Nearest(y, height, Times(rows, ts)), Nearest(x, width, Times(cols, ts)))
  {
    hide PixelAt, Times, Nearest, AreTiles, Stitched;
    var grid :| IsResized(grid, rgb, width, height, Times(cols, ts), Times(rows, ts)) && AreTiles(t.details, grid, rows, cols, ts);
    StitchedIsGrid(t.details, grid, rows, cols, ts, y, x);
    assert RowResized(grid, rgb, width, height, Times(cols, ts), Times(rows, ts), y, Times(cols, ts));
  }

  lemma StitchedIsGrid(tiles: seq<seq<bv8>>, grid: seq<bv8>, rows: nat, cols: nat, ts: nat, y: nat, x: nat)
    requires AreTiles(tiles, grid, rows, cols, ts) && y < Times(rows, ts) && x < Times(cols, ts)
    ensures ts > 0 && Times(y / ts, cols) + x / ts < |tiles|
    ensures Stitched(tiles, cols, ts, y, x) == Pixel(grid, Times(cols, ts), y, x)
  {
    hide Pixel, Times, AreTiles;
    TileOfPixel(y, rows, ts);
    TileOfPixel(x, cols, ts);
    PixelOfTile(tiles, grid, rows, cols, ts, y / ts, x / ts, y % ts, x % ts);
  }

  lemma PixelOfTile(tiles: seq<seq<bv8>>, grid: seq<bv8>, rows: nat, cols: nat, ts: nat, r: nat, c: nat, y: nat, x: nat)
    requires AreTiles(tiles, grid, rows, cols, ts) && r < rows && c < cols && y < ts && x < ts
    ensures Times(r, cols) + c < |tiles|
    ensures Pixel(tiles[Times(r, cols) + c], ts, y, x) == Pixel(grid, Times(cols, ts), Times(r, ts) + y, Times(c, ts) + x)
  {
    hide Pixel, Times;
    assert TileAt(tiles, grid, cols, ts, r, c);
  }

  /** An image that already has the grid's size is reproduced exactly. */
  lemma StitchedIsSource(t: TiledImage, rgb: seq<bv8>, ts: nat, rows: nat, cols: nat, y: nat, x: nat)
    requires IsTiling(t, rgb, Times(cols, ts), Times(rows, ts), ts, rows, cols) && y < Times(rows, ts) && x < Times(cols, ts)
    ensures ts > 0 && Times(y / ts, cols) + x / ts < |t.details|
    ensures Stitched(t.details, cols, ts, y, x) == Pixel(rgb, Times(cols, ts), y, x)
  {
    hide Times, Nearest, IsTiling, Pixel;
    StitchedIsResized(t, rgb, Times(cols, ts), Times(rows, ts), ts, rows, cols, y, x);
    NearestIdentity(y, Times(rows, ts));
    NearestIdentity(x, Times(cols, ts));
  }
}
