/** The quantiser of the input vector: signed bytes and one scale for every 32 elements,
    with an error of at most half a step; and what that means for the product. */
module Q8Quantiser {
  import opened Arith
  import opened Sums
  import T = Q4Transpose

  function Abs(x: real): real {
    if x < 0.0 then -x else x
  }

  /** The nearest integer, halves away from zero. */
  function Round(x: real): int {
    if x >= 0.0 then (x + 0.5).Floor else -((0.5 - x).Floor)
  }

  function Clamp(q: int, lo: int, hi: int): int {
    if q < lo then lo else if q > hi then hi else q
  }

  lemma RoundIsNear(x: real)
    ensures -0.5 <= Round(x) as real - x <= 0.5
    ensures -127.0 <= x <= 127.0 ==> -127 <= Round(x) <= 127
  {
  }

  /** Both signs alike, and halves away from zero. */
  lemma RoundIsSymmetric(x: real)
    ensures Round(-x) == -Round(x)
    ensures Abs(Round(x) as real - x) == 0.5 ==> Abs(Round(x) as real) > Abs(x)
  {
  }

  /** The largest magnitude of the 32 elements from "off" on. */
  ghost predicate IsPeak(x: seq<real>, off: nat, peak: real)
    requires off + 32 <= |x|
  {
    (forall j :: off <= j < off + 32 ==> Abs(x[j]) <= peak) && (peak == 0.0 || exists j :: off <= j < off + 32 && Abs(x[j]) == peak)
  }

  method Peak(x: seq<real>, off: nat) returns (peak: real)
    requires off + 32 <= |x|
    ensures IsPeak(x, off, peak)
  {
    peak := 0.0;
    for j := 0 to 32
      invariant peak >= 0.0 && forall i :: off <= i < off + j ==> Abs(x[i]) <= peak
      invariant peak == 0.0 || exists i :: off <= i < off + 32 && Abs(x[i]) == peak
    {
      if Abs(x[off + j]) > peak {
        peak := Abs(x[off + j]);
      }
    }
  }

  /** The quant q stands for v to within half a step. */
  ghost predicate Stands(q: int, scale: real, v: real) {
    -127 <= q <= 127 && Abs(Mul(q as real, scale) - v) <= scale / 2.0
  }

  /** Block b: its scale is a 127th of its peak, and its quants stand for its elements. */
  ghost predicate BlockQuantised(x: seq<real>, q8: seq<int>, scales: seq<real>, b: nat)
    requires |q8| == |x| && |scales| == |x| / 32 && b < |scales|
  {
    IsPeak(x, 32 * b, 127.0 * scales[b]) && forall j :: 32 * b <= j < 32 * b + 32 ==> Stands(q8[j], scales[b], x[j])
  }

  function QuantOf(v: real, scale: real): int {
    Clamp(Round(v * if scale > 0.0 then 1.0 / scale else 0.0), -128, 127)
  }

  /** quantize_to_q8. Elements beyond the last whole block get the quant zero. */
  method QuantizeToQ8(x: seq<real>) returns (q8: array<int>, scales: array<real>)
    ensures q8.Length == |x| && scales.Length == |x| / 32
    ensures forall b: nat :: b < scales.Length ==> BlockQuantised(x, q8[..], scales[..], b)
    ensures forall j :: 32 * scales.Length <= j < |x| ==> q8[j] == 0
  {
    hide BlockQuantised;
    var blocks := |x| / 32;
    q8 := new int[|x|](i => 0);
    scales := new real[blocks](i => 0.0);
    for b := 0 to blocks
      invariant forall b': nat :: b' < b ==> BlockQuantised(x, q8[..], scales[..], b')
      invariant forall j :: 32 * b <= j < |x| ==> q8[j] == 0
    {
      ghost var q, s := q8[..], scales[..];
      QuantizeBlock(x, b, q8, scales);
      forall b': nat | b' < b
        ensures BlockQuantised(x, q8[..], scales[..], b')
      {
        OtherBlock(x, q, s, q8[..], scales[..], b, b');
      }
    }
  }

  method QuantizeBlock(x: seq<real>, b: nat, q8: array<int>, scales: array<real>)
    requires q8.Length == |x| && scales.Length == |x| / 32 && b < scales.Length
    modifies q8, scales
    ensures BlockQuantised(x, q8[..], scales[..], b)
    ensures forall i :: 0 <= i < |x| && !(32 * b <= i < 32 * b + 32) ==> q8[i] == old(q8[i])
    ensures forall i :: 0 <= i < scales.Length && i != b ==> scales[i] == old(scales[i])
  {
    hide IsPeak, Stands, QuantOf;
    var peak := Peak(x, 32 * b);
    var scale := peak / 127.0;
    scales[b] := scale;
    assert 127.0 * scale == peak;
    for j := 0 to 32
      invariant scales[..] == old(scales[..])[b := scale]
      invariant forall i :: 32 * b <= i < 32 * b + j ==> Stands(q8[i], scale, x[i])
      invariant forall i :: 0 <= i < |x| && !(32 * b <= i < 32 * b + j) ==> q8[i] == old(q8[i])
    {
      BelowPeak(x, 32 * b, peak, j);
      StandsFor(x[32 * b + j], scale);
      q8[32 * b + j] := QuantOf(x[32 * b + j], scale);
    }
  }

  lemma OtherBlock(x: seq<real>, q: seq<int>, s: seq<real>, q8: seq<int>, scales: seq<real>, b: nat, b': nat)
    requires |q| == |q8| == |x| && |s| == |scales| == |x| / 32 && b' < b < |s|
    requires forall i :: 0 <= i < |x| && !(32 * b <= i < 32 * b + 32) ==> q8[i] == q[i]
    requires forall i :: 0 <= i < |s| && i != b ==> scales[i] == s[i]
    requires BlockQuantised(x, q, s, b')
    ensures BlockQuantised(x, q8, scales, b')
  {
    hide IsPeak, Stands;
    assert forall j :: 32 * b' <= j < 32 * b' + 32 ==> q8[j] == q[j];
  }

  lemma BelowPeak(x: seq<real>, off: nat, peak: real, j: nat)
    requires off + 32 <= |x| && j < 32 && IsPeak(x, off, peak)
    ensures Abs(x[off + j]) <= peak
  {
  }

  lemma StandsFor(v: real, scale: real)
    requires Abs(v) <= 127.0 * scale
    ensures Stands(QuantOf(v, scale), scale, v)
  {
    hide Stands, Abs, QuantOf;
    if scale > 0.0 {
      var y := v * (1.0 / scale);
      Inverse(v, scale);
      Standing(y, scale, v);
      QuantIs(v, scale, y);
    } else {
      ZeroStands(v, scale);
    }
  }

  lemma QuantIs(v: real, scale: real, y: real)
    requires scale > 0.0 && y == v * (1.0 / scale) && -127 <= Round(y) <= 127
    ensures QuantOf(v, scale) == Round(y)
  {
  }

  lemma ZeroStands(v: real, scale: real)
    requires scale <= 0.0 && Abs(v) <= 127.0 * scale
    ensures Stands(QuantOf(v, scale), scale, v)
  {
  }

  lemma Standing(y: real, scale: real, v: real)
    requires scale > 0.0 && Mul(y, scale) == v && Abs(v) <= 127.0 * scale
    ensures -127 <= Round(y) <= 127 && Stands(Round(y), scale, v)
  {
    hide Round, Abs, Mul;
    Ratio(v, scale, y);
    RoundIsNear(y);
    HalfStep(Round(y) as real, y, scale, v);
  }

  lemma Inverse(v: real, s: real)
    requires s > 0.0
    ensures Mul(v * (1.0 / s), s) == v
  {
    assert 1.0 / s * s == 1.0;
  }

  lemma Ratio(v: real, scale: real, y: real)
    requires scale > 0.0 && Mul(y, scale) == v && Abs(v) <= 127.0 * scale
    ensures -127.0 <= y <= 127.0
  {
    if y > 127.0 {
      Larger(127.0, y, scale);
    } else if y < -127.0 {
      Larger(y, -127.0, scale);
    }
  }

  lemma Larger(a: real, b: real, s: real)
    requires a < b && s > 0.0
    ensures a * s < b * s
  {
  }

  lemma HalfStep(r: real, y: real, scale: real, v: real)
    requires scale > 0.0 && -0.5 <= r - y <= 0.5 && Mul(y, scale) == v
    ensures Abs(Mul(r, scale) - v) <= scale / 2.0
  {
    hide Mul, Abs;
    Bounded(r - y, 0.5, scale);
    Difference(r, y, scale);
    AbsWithin(Mul(r, scale) - v, scale / 2.0);
  }

  lemma AbsWithin(d: real, h: real)
    requires -h <= d <= h
    ensures Abs(d) <= h
  {
  }

  lemma Difference(r: real, y: real, s: real)
    ensures Mul(r - y, s) == Mul(r, s) - Mul(y, s)
  {
  }

  lemma Bounded(d: real, h: real, s: real)
    requires s > 0.0 && -h <= d <= h
    ensures -(h * s) <= Mul(d, s) <= h * s
  {
  }

  // ---- The product -----------------------------------------------------------

  /** The input the kernels see differs from the one that was quantised by at most half
      the scale of its block. */
  lemma ValueIsNear(x: seq<real>, q8: seq<int>, scales: seq<real>, c: nat)
    requires |q8| == |x| && |scales| == |x| / 32 && c / 32 < |scales|
    requires forall b: nat :: b < |scales| ==> BlockQuantised(x, q8, scales, b)
    ensures Abs(T.Q8Value(q8, scales, c) - x[c]) <= scales[c / 32] / 2.0
  {
    hide IsPeak, Stands;
    var b := c / 32;
    assert BlockQuantised(x, q8, scales, b);
    assert 32 * b <= c < 32 * b + 32;
    StandingValue(q8, scales, x[c], c);
  }

  lemma StandingValue(q8: seq<int>, scales: seq<real>, v: real, c: nat)
    requires c < |q8| && c / 32 < |scales| && Stands(q8[c], scales[c / 32], v)
    ensures Abs(T.Q8Value(q8, scales, c) - v) <= scales[c / 32] / 2.0
  {
  }

  /** A row's exact product with x. */
  ghost function Exact(half: (bv8, bv8) -> real, w: seq<bv8>, row: int, x: seq<real>, k: nat): real {
    Sum(c => Mul(T.Weight(half, w, row, c), At(x, c)), k)
  }

  /** The sum of the row's weights in magnitude, each times half the step of its input. */
  ghost function Slack(half: (bv8, bv8) -> real, w: seq<bv8>, row: int, scales: seq<real>, k: nat): real {
    Sum(c => Mul(Abs(T.Weight(half, w, row, c)), At(scales, c / 32) / 2.0), k)
  }

  /** So q4_matvec on a quantised input is off by no more than that. */
  lemma {:induction false} ProductIsNear(half: (bv8, bv8) -> real, w: seq<bv8>, row: int, x: seq<real>, q8: seq<int>,
                                         scales: seq<real>, k: nat)
    requires |q8| == |x| && |scales| == |x| / 32 && k <= 32 * |scales|
    requires forall b: nat :: b < |scales| ==> BlockQuantised(x, q8, scales, b)
    ensures Abs(T.RowProduct(half, w, row, q8, scales, k) - Exact(half, w, row, x, k)) <= Slack(half, w, row, scales, k)
  {
    hide BlockQuantised, T.Weight, T.Q8Value, Mul;
    if k > 0 {
      ProductIsNear(half, w, row, x, q8, scales, k - 1);
      ValueIsNear(x, q8, scales, k - 1);
      Weighted(T.Weight(half, w, row, k - 1), T.Q8Value(q8, scales, k - 1), x[k - 1], scales[(k - 1) / 32] / 2.0);
    }
  }

  lemma Weighted(w: real, v: real, x: real, e: real)
    requires Abs(v - x) <= e
    ensures Abs(Mul(w, v) - Mul(w, x)) <= Mul(Abs(w), e)
  {
    assert Mul(w, v) - Mul(w, x) == w * (v - x);
    if w >= 0.0 { Scaled(w, v - x, e); } else { Scaled(-w, v - x, e); }
  }

  lemma Scaled(w: real, d: real, e: real)
    requires w >= 0.0 && Abs(d) <= e
    ensures -(w * e) <= w * d <= w * e
  {
  }
}
