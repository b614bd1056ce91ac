/** Finite sums of reals, accumulated in index order as the kernels' loops do.
    Summands are compared pointwise, so that a lemma applies to any two functions
    that agree on the indices summed. */
module Sums {
  import opened Arith

  function Sum(f: int -> real, n: nat): real {
    if n == 0 then 0.0 else Sum(f, n - 1) + f(n - 1)
  }

  /** s[i], or zero outside the sequence. */
  function At(s: seq<real>, i: int): real {
    if 0 <= i < |s| then s[i] else 0.0
  }

  ghost function Total(s: seq<real>): real {
    Sum(i => At(s, i), |s|)
  }

  /** Element d of the stretch of s that starts at "from". */
  function Elem(s: seq<real>, from: int, d: int): real {
    At(s, from + d)
  }

  /** A sequence that is zero but at one index. */
  ghost function UnitX(len: nat, at: nat): (x: seq<real>)
    ensures |x| == len
  {
    seq(len, i => if i == at then 1.0 else 0.0)
  }

  lemma UnitElem(x: seq<real>, len: nat, from: nat, at: nat)
    requires from + at < len && x == UnitX(len, from + at)
    ensures Elem(x, from, at) == 1.0
    ensures forall c :: 0 <= c && c != at ==> Elem(x, from, c) == 0.0
  {
  }

  /** A product of two reals under a name, so that proofs that only move products
      around need not look inside them. */
  function Mul(x: real, y: real): real {
    x * y
  }

  lemma {:induction false} SumCongruence(f: int -> real, g: int -> real, n: nat)
    requires forall i :: 0 <= i < n ==> f(i) == g(i)
    ensures Sum(f, n) == Sum(g, n)
  {
    if n > 0 {
      SumCongruence(f, g, n - 1);
    }
  }

  lemma {:induction false} SumAdd(f: int -> real, g: int -> real, h: int -> real, n: nat)
    requires forall i {:trigger h(i)} :: 0 <= i < n ==> h(i) == f(i) + g(i)
    ensures Sum(h, n) == Sum(f, n) + Sum(g, n)
  {
    if n > 0 {
      SumAdd(f, g, h, n - 1);
    }
  }

  lemma {:induction false} SumScale(c: real, f: int -> real, h: int -> real, n: nat)
    requires forall i {:trigger h(i)} :: 0 <= i < n ==> h(i) == Mul(c, f(i))
    ensures Sum(h, n) == Mul(c, Sum(f, n))
  {
    if n > 0 {
      SumScale(c, f, h, n - 1);
    }
  }

  /** A sum over m + n terms is the sum of the first m plus the sum of the rest. */
  lemma {:induction false} SumSplit(f: int -> real, m: nat, g: int -> real, n: nat)
    requires forall i {:trigger g(i)} :: 0 <= i < n ==> g(i) == f(m + i)
    ensures Sum(f, m + n) == Sum(f, m) + Sum(g, n)
  {
    if n > 0 {
      SumSplit(f, m, g, n - 1);
      assert g(n - 1) == f(m + n - 1);
    }
  }

  /** Blocks of equal width: the flat sum is the sum of the block sums. */
  lemma {:induction false} SumBlocks(f: int -> real, blocks: nat, width: nat, part: int -> int -> real, g: int -> real)
    requires forall b, i :: 0 <= b < blocks && 0 <= i < width ==> part(b)(i) == f(Times(b, width) + i)
    requires forall b :: 0 <= b < blocks ==> g(b) == Sum(part(b), width)
    ensures Sum(f, Times(blocks, width)) == Sum(g, blocks)
  {
    if blocks > 0 {
      var b := blocks - 1;
      SumBlocks(f, b, width, part, g);
      SumSplit(f, Times(b, width), part(b), width);
    }
  }

  /** The order of a double sum does not matter. */
  lemma {:induction false} SumSwap(row: int -> int -> real, col: int -> int -> real, rows: nat, cols: nat,
                                   byRow: int -> real, byCol: int -> real)
    requires forall r, c :: 0 <= r < rows && 0 <= c < cols ==> row(r)(c) == col(c)(r)
    requires forall r :: 0 <= r < rows ==> byRow(r) == Sum(row(r), cols)
    requires forall c :: 0 <= c < cols ==> byCol(c) == Sum(col(c), rows)
    ensures Sum(byRow, rows) == Sum(byCol, cols)
  {
    if rows == 0 {
      SumZero(byCol, cols);
    } else {
      var shorter := c => Sum(col(c), rows - 1);
      SumSwap(row, col, rows - 1, cols, byRow, shorter);
      SumAdd(shorter, row(rows - 1), byCol, cols);
    }
  }

  lemma {:induction false} SumZero(f: int -> real, n: nat)
    requires forall i :: 0 <= i < n ==> f(i) == 0.0
    ensures Sum(f, n) == 0.0
  {
    if n > 0 {
      SumZero(f, n - 1);
    }
  }

  lemma {:induction false} SumSign(f: int -> real, n: nat)
    requires forall i :: 0 <= i < n ==> f(i) >= 0.0
    ensures Sum(f, n) >= 0.0
    ensures (exists i :: 0 <= i < n && f(i) > 0.0) ==> Sum(f, n) > 0.0
  {
    if n > 0 {
      SumSign(f, n - 1);
    }
  }

  lemma {:induction false} SumMonotone(f: int -> real, g: int -> real, n: nat)
    requires forall i :: 0 <= i < n ==> f(i) <= g(i)
    ensures Sum(f, n) <= Sum(g, n)
  {
    if n > 0 {
      SumMonotone(f, g, n - 1);
    }
  }

  /** Changing one summand changes the sum by the difference. */
  lemma {:induction false} SumUpdate(f: int -> real, g: int -> real, n: nat, k: nat)
    requires k < n
    requires forall i :: 0 <= i < n && i != k ==> f(i) == g(i)
    ensures Sum(g, n) == Sum(f, n) - f(k) + g(k)
  {
    if k == n - 1 {
      SumCongruence(f, g, n - 1);
    } else {
      SumUpdate(f, g, n - 1, k);
    }
  }

  /** A non-negatively weighted sum of values in [lo, hi]. */
  lemma {:induction false} WeightedBounds(w: int -> real, v: int -> real, h: int -> real, n: nat, lo: real, hi: real)
    requires forall i :: 0 <= i < n ==> h(i) == Mul(w(i), v(i))
    requires forall i :: 0 <= i < n ==> w(i) >= 0.0 && lo <= v(i) <= hi
    ensures Mul(lo, Sum(w, n)) <= Sum(h, n) <= Mul(hi, Sum(w, n))
  {
    if n > 0 {
      WeightedBounds(w, v, h, n - 1, lo, hi);
      WeightedStep(Sum(w, n - 1), w(n - 1), v(n - 1), lo, hi);
    }
  }

  lemma WeightedStep(total: real, w: real, v: real, lo: real, hi: real)
    requires w >= 0.0 && lo <= v <= hi
    ensures Mul(lo, total + w) <= Mul(lo, total) + Mul(w, v)
    ensures Mul(hi, total) + Mul(w, v) <= Mul(hi, total + w)
  {
  }
}
