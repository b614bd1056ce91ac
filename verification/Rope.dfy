/** Rotary position embedding with split-half pairing. */
module Rope {
  import opened Arith
  import opened Sums
  import opened Libm
  import opened BlockReduce

  /** half pairs of channels rotate; position p turns pair i by p * invFreq[i]. */
  datatype Rotary = Rotary(half: nat, headDim: nat, numHeads: nat, invFreq: seq<real>, offset: nat, divisor: real)

  ghost predicate ValidRotary(r: Rotary) {
    2 * r.half <= r.headDim && |r.invFreq| == r.half
  }

  /** The launcher's clamp of the divisor. */
  function Divisor(r: Rotary): real {
    if r.divisor > 0.0 then r.divisor else 1.0
  }

  function Position(r: Rotary, row: nat): real {
    (row as real + r.offset as real) / Divisor(r)
  }

  // ---- One head at one position --------------------------------------------

  /** The two outputs of a rotated pair. */
  function First(x0: real, x1: real, c: real, s: real): real { x0 * c - x1 * s }
  function Second(x0: real, x1: real, c: real, s: real): real { x0 * s + x1 * c }

  /** Channel ch of the head that starts at base, rotated to position p. */
  function RotatedChannel(m: Libm, r: Rotary, p: real, x: seq<real>, base: nat, ch: nat): real
    requires ValidRotary(r)
  {
    if ch >= 2 * r.half then Elem(x, base, ch)
    else
      var i := if ch < r.half then ch else ch - r.half;
      var theta := Mul(p, r.invFreq[i]);
      var cosT, sinT := m.cos(theta), m.sin(theta);
      var x0, x1 := Elem(x, base, i), Elem(x, base, r.half + i);
      if ch < r.half then First(x0, x1, cosT, sinT) else Second(x0, x1, cosT, sinT)
  }

  /** The rotated head. */
  ghost function RotatedHead(m: Libm, r: Rotary, p: real, x: seq<real>, base: nat): (h: seq<real>)
    requires ValidRotary(r)
    ensures |h| == r.headDim
  {
    seq(r.headDim, ch requires 0 <= ch < r.headDim => RotatedChannel(m, r, p, x, base, ch))
  }

  ghost function HeadDot(a: seq<real>, b: seq<real>): real {
    Sum(i => Mul(At(a, i), At(b, i)), |a|)
  }

  /** The subtraction formulas of cosine and sine, and cos(0) = 1. */
  ghost predicate Trigonometric(m: Libm) {
    && (forall a, b :: m.cos(a - b) == Mul(m.cos(a), m.cos(b)) + Mul(m.sin(a), m.sin(b)))
    && (forall a, b :: m.sin(a - b) == Mul(m.sin(a), m.cos(b)) - Mul(m.cos(a), m.sin(b)))
    && m.cos(0.0) == 1.0
  }

  /** What a pair contributes to the dot product, from the angle between them. */
  function PairDot(q0: real, q1: real, k0: real, k1: real, c: real, s: real): real {
    (q0 * k0 + q1 * k1) * c - (q1 * k0 - q0 * k1) * s
  }

  lemma PairAlgebra(q0: real, q1: real, k0: real, k1: real, c: real, s: real, c': real, s': real)
    ensures Mul(First(q0, q1, c, s), First(k0, k1, c', s')) + Mul(Second(q0, q1, c, s), Second(k0, k1, c', s'))
         == PairDot(q0, q1, k0, k1, Mul(c, c') + Mul(s, s'), Mul(s, c') - Mul(c, s'))
  {
  }

  /** The same for a query turned by angle a and a key turned by angle b. */
  lemma TurnedPair(m: Libm, q0: real, q1: real, k0: real, k1: real, a: real, b: real)
    requires Trigonometric(m)
    ensures Mul(First(q0, q1, m.cos(a), m.sin(a)), First(k0, k1, m.cos(b), m.sin(b)))
          + Mul(Second(q0, q1, m.cos(a), m.sin(a)), Second(k0, k1, m.cos(b), m.sin(b)))
         == PairDot(q0, q1, k0, k1, m.cos(a - b), m.sin(a - b))
  {
    hide Mul, First, Second, PairDot;
    PairAlgebra(q0, q1, k0, k1, m.cos(a), m.sin(a), m.cos(b), m.sin(b));
  }

  lemma MulDifference(p: real, p': real, w: real)
    ensures Mul(p, w) - Mul(p', w) == Mul(p - p', w)
  {
  }

  /** Pair i of a query and a key at positions that differ by delta. */
  ghost function RelativePair(m: Libm, r: Rotary, delta: real, q: seq<real>, qBase: nat, k: seq<real>, kBase: nat, i: int): real
    requires ValidRotary(r)
  {
    if 0 <= i < r.half then
      PairDot(Elem(q, qBase, i), Elem(q, qBase, r.half + i), Elem(k, kBase, i), Elem(k, kBase, r.half + i),
              m.cos(Mul(delta, r.invFreq[i])), m.sin(Mul(delta, r.invFreq[i])))
    else 0.0
  }

  /** The dot product of a query and a key written through the difference delta of
      their positions alone. */
  ghost function RelativeDot(m: Libm, r: Rotary, delta: real, q: seq<real>, qBase: nat, k: seq<real>, kBase: nat): real
    requires ValidRotary(r)
  {
    Sum(i => RelativePair(m, r, delta, q, qBase, k, kBase, i), r.half)
    + Sum(i => Mul(Elem(q, qBase, 2 * r.half + i), Elem(k, kBase, 2 * r.half + i)), r.headDim - 2 * r.half)
  }

  /** One rotated pair of the query against one of the key. */
  lemma PairTurns(m: Libm, r: Rotary, p: real, p': real, q: seq<real>, qBase: nat, k: seq<real>, kBase: nat, i: nat)
    requires ValidRotary(r) && Trigonometric(m) && i < r.half
    ensures Mul(RotatedChannel(m, r, p, q, qBase, i), RotatedChannel(m, r, p', k, kBase, i))
          + Mul(RotatedChannel(m, r, p, q, qBase, r.half + i), RotatedChannel(m, r, p', k, kBase, r.half + i))
         == RelativePair(m, r, p - p', q, qBase, k, kBase, i)
  {
    hide Mul, First, Second, PairDot, Trigonometric, Elem;
    var w := r.invFreq[i];
    MulDifference(p, p', w);
    TurnedPair(m, Elem(q, qBase, i), Elem(q, qBase, r.half + i), Elem(k, kBase, i), Elem(k, kBase, r.half + i),
               Mul(p, w), Mul(p', w));
  }

  /** The attention score of a rotated query and a rotated key depends on their
      positions only through the difference. */
  lemma DotIsRelative(m: Libm, r: Rotary, p: real, p': real, q: seq<real>, qBase: nat, k: seq<real>, kBase: nat)
    requires ValidRotary(r) && Trigonometric(m)
    ensures HeadDot(RotatedHead(m, r, p, q, qBase), RotatedHead(m, r, p', k, kBase))
         == RelativeDot(m, r, p - p', q, qBase, k, kBase)
  {
    hide RotatedChannel, RelativePair, Elem, Mul, Trigonometric, Sum;
    var a, b := RotatedHead(m, r, p, q, qBase), RotatedHead(m, r, p', k, kBase);
    var n := r.headDim - 2 * r.half;
    var f := i => Mul(At(a, i), At(b, i));
    var pairs := i => RelativePair(m, r, p - p', q, qBase, k, kBase, i);
    var rest := i => Mul(Elem(q, qBase, 2 * r.half + i), Elem(k, kBase, 2 * r.half + i));
    forall i | 0 <= i < r.half
      ensures pairs(i) == f(i) + f(r.half + i)
    {
      PairTurns(m, r, p, p', q, qBase, k, kBase, i);
    }
    forall i | 0 <= i < n
      ensures rest(i) == f(2 * r.half + i)
    {
      PassThrough(m, r, p, q, qBase, 2 * r.half + i);
      PassThrough(m, r, p', k, kBase, 2 * r.half + i);
    }
    SumOfPairs(f, r.half, n, pairs, rest);
  }

  lemma SumOfPairs(f: int -> real, half: nat, n: nat, pairs: int -> real, rest: int -> real)
    requires forall i {:trigger pairs(i)} :: 0 <= i < half ==> pairs(i) == f(i) + f(half + i)
    requires forall i {:trigger rest(i)} :: 0 <= i < n ==> rest(i) == f(2 * half + i)
    ensures Sum(f, 2 * half + n) == Sum(pairs, half) + Sum(rest, n)
  {
    hide Sum;
    var upper := i => f(half + i);
    SumSplit(f, 2 * half, rest, n);
    SumSplit(f, half, upper, half);
    SumAdd(f, upper, pairs, half);
  }

  /** Channels beyond the rotary region do not change. */
  lemma PassThrough(m: Libm, r: Rotary, p: real, x: seq<real>, base: nat, ch: nat)
    requires ValidRotary(r) && 2 * r.half <= ch < r.headDim
    ensures RotatedChannel(m, r, p, x, base, ch) == Elem(x, base, ch)
  {
  }

  /** Shifting both positions by the same number of rows changes no score. */
  lemma ShiftInvariant(m: Libm, r: Rotary, row: nat, row': nat, shift: nat,
                       q: seq<real>, qBase: nat, k: seq<real>, kBase: nat)
    requires ValidRotary(r) && Trigonometric(m)
    ensures HeadDot(RotatedHead(m, r, Position(r, row + shift), q, qBase), RotatedHead(m, r, Position(r, row' + shift), k, kBase))
         == HeadDot(RotatedHead(m, r, Position(r, row), q, qBase), RotatedHead(m, r, Position(r, row'), k, kBase))
  {
    hide HeadDot, RotatedHead, RelativeDot, Trigonometric;
    DotIsRelative(m, r, Position(r, row + shift), Position(r, row' + shift), q, qBase, k, kBase);
    DotIsRelative(m, r, Position(r, row), Position(r, row'), q, qBase, k, kBase);
    QuotientDifference(row as real + r.offset as real, row' as real + r.offset as real, shift as real, Divisor(r));
  }

  lemma QuotientDifference(a: real, b: real, s: real, d: real)
    requires d > 0.0
    ensures (a + s) / d - (b + s) / d == a / d - b / d
  {
  }

  /** Every rotary pair keeps its norm. */
  lemma PairNorm(m: Libm, r: Rotary, p: real, x: seq<real>, base: nat, i: nat)
    requires ValidRotary(r) && Trigonometric(m) && i < r.half
    ensures var y0, y1 := RotatedChannel(m, r, p, x, base, i), RotatedChannel(m, r, p, x, base, r.half + i);
      var x0, x1 := Elem(x, base, i), Elem(x, base, r.half + i);
      Mul(y0, y0) + Mul(y1, y1) == Mul(x0, x0) + Mul(x1, x1)
  {
  }

  // ---- The kernel ----------------------------------------------------------

  /** Element tid of the rotated tensor: row tid / (numHeads * headDim), and within
      it head and channel. */
  ghost function RotatedElem(m: Libm, r: Rotary, x: seq<real>, row: nat, head: nat, channel: nat): real
    requires ValidRotary(r)
  {
    RotatedChannel(m, r, Position(r, row), x, HeadBase(r, row, head), channel)
  }

  /** Where a head starts. */
  ghost function HeadBase(r: Rotary, row: nat, head: nat): nat {
    Times(row, Times(r.numHeads, r.headDim)) + Times(head, r.headDim)
  }

  /** Every element of seqLen rows has been rotated by its row's position. */
  ghost predicate RotatedAll(m: Libm, r: Rotary, x: seq<real>, seqLen: nat, out: seq<real>)
    requires ValidRotary(r)
  {
    forall row: nat, head: nat, ch: nat :: row < seqLen && head < r.numHeads && ch < r.headDim ==>
      Elem(out, HeadBase(r, row, head), ch) == RotatedElem(m, r, x, row, head, ch)
  }

  /** The row, head and channel of a thread, as the kernel computes them. */
  method Locate(r: Rotary, seqLen: nat, tid: nat) returns (row: nat, head: nat, channel: nat)
    requires tid < Times(seqLen, Times(r.numHeads, r.headDim))
    ensures row < seqLen && head < r.numHeads && channel < r.headDim
    ensures tid == HeadBase(r, row, head) + channel
  {
    var rowStride := r.numHeads * r.headDim;
    TimesIsProduct(r.numHeads, r.headDim);
    ghost var row', rem' := LocateBlock(tid, seqLen, rowStride);
    ghost var head', ch' := LocateBlock(rem', r.numHeads, r.headDim);
    TimesIsProduct(row', rowStride);
    TimesIsProduct(head', r.headDim);
    DivModUnique(tid, rowStride, row', rem');
    DivModUnique(rem', r.headDim, head', ch');
    row := tid / rowStride;
    var rem := tid - row * rowStride;
    head := rem / r.headDim;
    channel := rem - head * r.headDim;
  }

  /** The value a thread must write: that of whichever row, head and channel its
      index stands for. */
  ghost predicate IsRotated(m: Libm, r: Rotary, x: seq<real>, seqLen: nat, tid: nat, v: real)
    requires ValidRotary(r)
  {
    forall row: nat, head: nat, ch: nat ::
      row < seqLen && head < r.numHeads && ch < r.headDim && HeadBase(r, row, head) + ch == tid ==>
        v == RotatedElem(m, r, x, row, head, ch)
  }

  /** Different rows, heads or channels are different elements. */
  lemma UniqueElement(r: Rotary, row: nat, head: nat, ch: nat, row': nat, head': nat, ch': nat)
    requires head < r.numHeads && ch < r.headDim && head' < r.numHeads && ch' < r.headDim
    requires HeadBase(r, row, head) + ch == HeadBase(r, row', head') + ch'
    ensures row == row' && head == head' && ch == ch'
  {
    var w := Times(r.numHeads, r.headDim);
    TimesOrdered(head, r.numHeads, r.headDim);
    TimesOrdered(head', r.numHeads, r.headDim);
    if row < row' { TimesOrdered(row, row', w); }
    if row' < row { TimesOrdered(row', row, w); }
    if head < head' { TimesOrdered(head, head', r.headDim); }
    if head' < head { TimesOrdered(head', head, r.headDim); }
  }

  lemma ElementInRange(r: Rotary, seqLen: nat, row: nat, head: nat, ch: nat)
    requires row < seqLen && head < r.numHeads && ch < r.headDim
    ensures HeadBase(r, row, head) + ch < Times(seqLen, Times(r.numHeads, r.headDim))
  {
    TimesOrdered(head, r.numHeads, r.headDim);
    TimesOrdered(row, seqLen, Times(r.numHeads, r.headDim));
  }

  /** rope: one thread per element, in any order. */
  method RopeKernel(m: Libm, r: Rotary, x: array<real>, out: array<real>, seqLen: nat)
    requires ValidRotary(r) && out != x
    requires x.Length == out.Length == Times(seqLen, Times(r.numHeads, r.headDim))
    modifies out
    ensures RotatedAll(m, r, x[..], seqLen, out[..])
  {
    hide RotatedChannel, HeadBase, IsRotated;
    var pending := Threads(out.Length);
    while pending != {}
      invariant forall t :: t in pending ==> t < out.Length
      invariant forall t: nat :: t < out.Length && t !in pending ==> IsRotated(m, r, x[..], seqLen, t, out[t])
      decreases pending
    {
      var tid :| tid in pending;
      var row, head, channel := Locate(r, seqLen, tid);
      var v := ThreadValue(m, r, x, seqLen, row, head, channel);
      ThreadIsRight(m, r, x[..], seqLen, row, head, channel, v);
      out[tid] := v;
      pending := pending - {tid};
    }
    AllRotated(m, r, x[..], seqLen, out[..]);
  }

  lemma ThreadIsRight(m: Libm, r: Rotary, x: seq<real>, seqLen: nat, row: nat, head: nat, ch: nat, v: real)
    requires ValidRotary(r) && row < seqLen && head < r.numHeads && ch < r.headDim
    requires v == RotatedElem(m, r, x, row, head, ch)
    ensures IsRotated(m, r, x, seqLen, HeadBase(r, row, head) + ch, v)
  {
    hide HeadBase, RotatedElem;
    forall row': nat, head': nat, ch': nat | row' < seqLen && head' < r.numHeads && ch' < r.headDim &&
      HeadBase(r, row', head') + ch' == HeadBase(r, row, head) + ch
      ensures v == RotatedElem(m, r, x, row', head', ch')
    {
      UniqueElement(r, row, head, ch, row', head', ch');
    }
  }

  lemma AllRotated(m: Libm, r: Rotary, x: seq<real>, seqLen: nat, out: seq<real>)
    requires ValidRotary(r) && |out| == Times(seqLen, Times(r.numHeads, r.headDim))
    requires forall t: nat :: t < |out| ==> IsRotated(m, r, x, seqLen, t, out[t])
    ensures RotatedAll(m, r, x, seqLen, out)
  {
    hide HeadBase, RotatedElem, Times;
    forall row: nat, head: nat, ch: nat | row < seqLen && head < r.numHeads && ch < r.headDim
      ensures Elem(out, HeadBase(r, row, head), ch) == RotatedElem(m, r, x, row, head, ch)
    {
      ElementInRange(r, seqLen, row, head, ch);
      assert IsRotated(m, r, x, seqLen, HeadBase(r, row, head) + ch, out[HeadBase(r, row, head) + ch]);
    }
  }

  /** What the thread of one element computes. */
  method ThreadValue(m: Libm, r: Rotary, x: array<real>, seqLen: nat, row: nat, head: nat, channel: nat) returns (v: real)
    requires ValidRotary(r) && row < seqLen && head < r.numHeads && channel < r.headDim
    requires x.Length == Times(seqLen, Times(r.numHeads, r.headDim))
    ensures v == RotatedElem(m, r, x[..], row, head, channel)
  {
    hide Mul, Times, First, Second;
    ElementInRange(r, seqLen, row, head, r.headDim - 1);
    var base := HeadStart(r, row, head);
    if channel >= 2 * r.half {
      return x[base + channel];
    }
    var pos := Position(r, row);
    var i := if channel < r.half then channel else channel - r.half;
    var theta := Mul(pos, r.invFreq[i]);
    var cosT, sinT := m.cos(theta), m.sin(theta);
    var x0, x1 := x[base + i], x[base + r.half + i];
    v := if channel < r.half then First(x0, x1, cosT, sinT) else Second(x0, x1, cosT, sinT);
  }

  method HeadStart(r: Rotary, row: nat, head: nat) returns (base: nat)
    ensures base == HeadBase(r, row, head)
  {
    TimesIsProduct(r.numHeads, r.headDim);
    var rowStride := r.numHeads * r.headDim;
    TimesIsProduct(row, rowStride);
    TimesIsProduct(head, r.headDim);
    base := row * rowStride + head * r.headDim;
  }

  /** Rotating a sequence in chunks, each with its own position offset, gives what
      rotating it whole gives. */
  lemma ChunkedRotation(m: Libm, r: Rotary, x: seq<real>, seqLen: nat, out: seq<real>,
                        start: nat, chunkLen: nat, chunk: seq<real>, chunkOut: seq<real>)
    requires ValidRotary(r) && start + chunkLen <= seqLen
    requires var w := Times(r.numHeads, r.headDim);
      && |x| == |out| == Times(seqLen, w) && |chunk| == |chunkOut| == Times(chunkLen, w)
      && Times(start, w) + Times(chunkLen, w) <= |x|
      && chunk == x[Times(start, w)..Times(start, w) + Times(chunkLen, w)]
    requires RotatedAll(m, r, x, seqLen, out)
    requires RotatedAll(m, r.(offset := r.offset + start), chunk, chunkLen, chunkOut)
    ensures var w := Times(r.numHeads, r.headDim);
      chunkOut == out[Times(start, w)..Times(start, w) + Times(chunkLen, w)]
  {
    hide RotatedAll, Times;
    var w := Times(r.numHeads, r.headDim);
    var from := Times(start, w);
    forall t | 0 <= t < |chunkOut|
      ensures chunkOut[t] == out[from + t]
    {
      var row, rem := LocateBlock(t, chunkLen, w);
      var head, ch := LocateBlock(rem, r.numHeads, r.headDim);
      ChunkElement(m, r, x, seqLen, out, start, chunkLen, chunk, chunkOut, row, head, ch);
      TimesAdd(start, row, w);
    }
  }

  lemma ChunkElement(m: Libm, r: Rotary, x: seq<real>, seqLen: nat, out: seq<real>,
                     start: nat, chunkLen: nat, chunk: seq<real>, chunkOut: seq<real>, row: nat, head: nat, ch: nat)
    requires ValidRotary(r) && start + chunkLen <= seqLen
    requires row < chunkLen && head < r.numHeads && ch < r.headDim
    requires RotatedAll(m, r, x, seqLen, out)
    requires RotatedAll(m, r.(offset := r.offset + start), chunk, chunkLen, chunkOut)
    requires forall t :: 0 <= t < Times(chunkLen, Times(r.numHeads, r.headDim)) ==>
      At(chunk, t) == Elem(x, Times(start, Times(r.numHeads, r.headDim)), t)
    ensures Elem(chunkOut, HeadBase(r, row, head), ch) == Elem(out, HeadBase(r, start + row, head), ch)
  {
    hide Times, Mul, First, Second;
    var r' := r.(offset := r.offset + start);
    var w := Times(r.numHeads, r.headDim);
    var base := HeadBase(r, row, head);
    assert HeadBase(r', row, head) == base;
    assert Elem(chunkOut, base, ch) == RotatedElem(m, r', chunk, row, head, ch);
    assert Elem(out, HeadBase(r, start + row, head), ch) == RotatedElem(m, r, x, start + row, head, ch);
    assert Position(r', row) == Position(r, start + row);
    TimesAdd(start, row, w);
    forall e | 0 <= e < r.headDim
      ensures Elem(chunk, base, e) == Elem(x, HeadBase(r, start + row, head), e)
    {
      ElementInRange(r, chunkLen, row, head, e);
      assert At(chunk, base + e) == Elem(x, Times(start, w), base + e);
    }
  }

  /** A head of the kernel's output is the rotated head of its input. */
  lemma OutputHead(m: Libm, r: Rotary, x: seq<real>, seqLen: nat, out: seq<real>, row: nat, head: nat)
    requires ValidRotary(r) && row < seqLen && head < r.numHeads
    requires |out| == Times(seqLen, Times(r.numHeads, r.headDim)) && RotatedAll(m, r, x, seqLen, out)
    ensures HeadBase(r, row, head) + r.headDim <= |out|
    ensures out[HeadBase(r, row, head)..HeadBase(r, row, head) + r.headDim]
         == RotatedHead(m, r, Position(r, row), x, HeadBase(r, row, head))
  {
    hide HeadBase, RotatedChannel;
    var base := HeadBase(r, row, head);
    HeadFits(r, seqLen, row, head);
    forall ch | 0 <= ch < r.headDim
      ensures out[base + ch] == RotatedChannel(m, r, Position(r, row), x, base, ch)
    {
      assert Elem(out, base, ch) == RotatedElem(m, r, x, row, head, ch);
    }
  }

  lemma HeadFits(r: Rotary, seqLen: nat, row: nat, head: nat)
    requires row < seqLen && head < r.numHeads
    ensures HeadBase(r, row, head) + r.headDim <= Times(seqLen, Times(r.numHeads, r.headDim))
  {
    TimesOrdered(head, r.numHeads, r.headDim);
    TimesOrdered(row, seqLen, Times(r.numHeads, r.headDim));
  }

  /** Over the kernel's outputs: the score of query row "row" and key row "row'" is a
      function of their unrotated heads and of the difference of their positions. */
  lemma KernelScore(m: Libm, rq: Rotary, q: seq<real>, qLen: nat, qOut: seq<real>, row: nat, head: nat,
                    rk: Rotary, k: seq<real>, kLen: nat, kOut: seq<real>, row': nat, head': nat)
    requires ValidRotary(rq) && Trigonometric(m) && rk == rq.(numHeads := rk.numHeads, offset := rk.offset)
    requires row < qLen && head < rq.numHeads && row' < kLen && head' < rk.numHeads
    requires |qOut| == Times(qLen, Times(rq.numHeads, rq.headDim)) && RotatedAll(m, rq, q, qLen, qOut)
    requires |kOut| == Times(kLen, Times(rk.numHeads, rk.headDim)) && RotatedAll(m, rk, k, kLen, kOut)
    ensures var qb, kb := HeadBase(rq, row, head), HeadBase(rk, row', head');
      && qb + rq.headDim <= |qOut| && kb + rq.headDim <= |kOut|
      && HeadDot(qOut[qb..qb + rq.headDim], kOut[kb..kb + rq.headDim])
      == RelativeDot(m, rq, (row as real + rq.offset as real - row' as real - rk.offset as real)
                            / (if rq.divisor > 0.0 then rq.divisor else 1.0), q, qb, k, kb)
  {
    PositionGap(rq, row, rk, row');
    ScoreFromPositions(m, rq, q, qLen, qOut, row, head, rk, k, kLen, kOut, row', head');
  }

  lemma PositionGap(rq: Rotary, row: nat, rk: Rotary, row': nat)
    requires rk.divisor == rq.divisor
    ensures Position(rq, row) - Position(rk, row')
         == (row as real + rq.offset as real - row' as real - rk.offset as real) / (if rq.divisor > 0.0 then rq.divisor else 1.0)
  {
  }

  lemma ScoreFromPositions(m: Libm, rq: Rotary, q: seq<real>, qLen: nat, qOut: seq<real>, row: nat, head: nat,
                           rk: Rotary, k: seq<real>, kLen: nat, kOut: seq<real>, row': nat, head': nat)
    requires ValidRotary(rq) && Trigonometric(m) && rk == rq.(numHeads := rk.numHeads, offset := rk.offset)
    requires row < qLen && head < rq.numHeads && row' < kLen && head' < rk.numHeads
    requires |qOut| == Times(qLen, Times(rq.numHeads, rq.headDim)) && RotatedAll(m, rq, q, qLen, qOut)
    requires |kOut| == Times(kLen, Times(rk.numHeads, rk.headDim)) && RotatedAll(m, rk, k, kLen, kOut)
    ensures var qb, kb := HeadBase(rq, row, head), HeadBase(rk, row', head');
      && qb + rq.headDim <= |qOut| && kb + rq.headDim <= |kOut|
      && HeadDot(qOut[qb..qb + rq.headDim], kOut[kb..kb + rq.headDim])
      == RelativeDot(m, rq, Position(rq, row) - Position(rk, row'), q, qb, k, kb)
  {
    hide HeadBase, HeadDot, RelativeDot, RotatedAll, Trigonometric, RotatedChannel;
    OutputHead(m, rq, q, qLen, qOut, row, head);
    OutputHead(m, rk, k, kLen, kOut, row', head');
    var qb, kb := HeadBase(rq, row, head), HeadBase(rk, row', head');
    SameRotation(m, rq, rk, Position(rk, row'), k, kb);
    DotIsRelative(m, rq, Position(rq, row), Position(rk, row'), q, qb, k, kb);
  }

  lemma SameRotation(m: Libm, r: Rotary, r': Rotary, p: real, x: seq<real>, base: nat)
    requires ValidRotary(r) && r' == r.(numHeads := r'.numHeads, offset := r'.offset)
    ensures RotatedHead(m, r', p, x, base) == RotatedHead(m, r, p, x, base)
  {
  }

  // ---- What the kernel writes ----------------------------------------------

  /** Pair i of a head in the output: the pair of the input, turned by the row's position,
      offset included and divided by the divisor, times the pair's frequency. */
  lemma PairIsTurned(m: Libm, r: Rotary, x: seq<real>, seqLen: nat, out: seq<real>, row: nat, head: nat, i: nat)
    requires ValidRotary(r) && RotatedAll(m, r, x, seqLen, out) && row < seqLen && head < r.numHeads && i < r.half
    ensures var base, d := HeadBase(r, row, head), if r.divisor > 0.0 then r.divisor else 1.0;
      var theta := Mul((row as real + r.offset as real) / d, r.invFreq[i]);
      && Elem(out, base, i) == Elem(x, base, i) * m.cos(theta) - Elem(x, base, r.half + i) * m.sin(theta)
      && Elem(out, base, r.half + i) == Elem(x, base, i) * m.sin(theta) + Elem(x, base, r.half + i) * m.cos(theta)
  {
    hide Elem, HeadBase, Mul;
    assert Elem(out, HeadBase(r, row, head), i) == RotatedElem(m, r, x, row, head, i);
    assert Elem(out, HeadBase(r, row, head), r.half + i) == RotatedElem(m, r, x, row, head, r.half + i);
  }

  /** A pair (1, 0) becomes cosine and sine of that angle. */
  lemma UnitPairTurns(m: Libm, r: Rotary, x: seq<real>, seqLen: nat, out: seq<real>, row: nat, head: nat, i: nat)
    requires ValidRotary(r) && RotatedAll(m, r, x, seqLen, out) && row < seqLen && head < r.numHeads && i < r.half
    requires r.divisor > 0.0
    requires Elem(x, HeadBase(r, row, head), i) == 1.0 && Elem(x, HeadBase(r, row, head), r.half + i) == 0.0
    ensures var theta := Mul((row as real + r.offset as real) / r.divisor, r.invFreq[i]);
      && Elem(out, HeadBase(r, row, head), i) == m.cos(theta)
      && Elem(out, HeadBase(r, row, head), r.half + i) == m.sin(theta)
  {
    hide Elem, HeadBase, Mul, RotatedAll;
    PairIsTurned(m, r, x, seqLen, out, row, head, i);
  }

  /** The first row, without an offset, stays as it is. */
  lemma FirstRowStays(m: Libm, r: Rotary, x: seq<real>, seqLen: nat, out: seq<real>, head: nat, ch: nat)
    requires ValidRotary(r) && RotatedAll(m, r, x, seqLen, out) && 0 < seqLen && head < r.numHeads && ch < r.headDim
    requires r.offset == 0 && m.cos(0.0) == 1.0 && m.sin(0.0) == 0.0
    ensures Elem(out, HeadBase(r, 0, head), ch) == Elem(x, HeadBase(r, 0, head), ch)
  {
    hide Elem, HeadBase;
    assert Elem(out, HeadBase(r, 0, head), ch) == RotatedElem(m, r, x, 0, head, ch);
    assert Position(r, 0) == 0.0;
  }

  /** A head rotated with a divisor is the same head rotated without one, at any row and
      offset that add up to the divided position. */
  lemma DivisorDividesPosition(m: Libm, r: Rotary, x: seq<real>, seqLen: nat, out: seq<real>, row: nat, head: nat,
                               r': Rotary, x': seq<real>, seqLen': nat, out': seq<real>, row': nat, head': nat, ch: nat)
    requires ValidRotary(r) && r.divisor > 0.0 && r' == r.(divisor := 1.0, numHeads := r'.numHeads, offset := r'.offset)
    requires RotatedAll(m, r, x, seqLen, out) && row < seqLen && head < r.numHeads
    requires RotatedAll(m, r', x', seqLen', out') && row' < seqLen' && head' < r'.numHeads
    requires row' as real + r'.offset as real == (row as real + r.offset as real) / r.divisor
    requires forall e :: 0 <= e < r.headDim ==> Elem(x', HeadBase(r', row', head'), e) == Elem(x, HeadBase(r, row, head), e)
    requires ch < r.headDim
    ensures Elem(out', HeadBase(r', row', head'), ch) == Elem(out, HeadBase(r, row, head), ch)
  {
    hide Elem, HeadBase, Mul, First, Second;
    assert Elem(out, HeadBase(r, row, head), ch) == RotatedElem(m, r, x, row, head, ch);
    assert Elem(out', HeadBase(r', row', head'), ch) == RotatedElem(m, r', x', row', head', ch);
    assert Position(r', row') == Position(r, row);
  }
}
