/** Scaled-dot-product attention of one head over one query position, as values. */
module AttentionSpec {
  import opened Arith
  import opened Sums
  import opened Libm

  datatype Config = Config(scale: real, softcap: real, hasSoftcap: bool, headDim: nat, kvDim: nat)

  function Cap(m: Libm, c: Config, s: real): real {
    if c.hasSoftcap then m.tanh(m.div(s, c.softcap)) * c.softcap else s
  }

  ghost function Dot(K: seq<real>, kBase: nat, q: seq<real>, qOff: nat, n: nat): real {
    Sum(d => Mul(Elem(K, kBase, d), Elem(q, qOff, d)), n)
  }

  /** The score of key row i. */
  ghost function ScoreAt(m: Libm, c: Config, q: seq<real>, qOff: nat, K: seq<real>, kvOff: nat, i: nat): real {
    Cap(m, c, Dot(K, Times(i, c.kvDim) + kvOff, q, qOff, c.headDim) * c.scale)
  }

  ghost function ScoreRow(m: Libm, c: Config, q: seq<real>, qOff: nat, K: seq<real>, kvOff: nat, len: nat): (s: seq<real>)
    ensures |s| == len
  {
    seq(len, i requires 0 <= i < len => ScoreAt(m, c, q, qOff, K, kvOff, i))
  }

  ghost function MaxSeq(s: seq<real>): real
    requires |s| > 0
  {
    var x := s[|s| - 1];
    if |s| == 1 then x
    else
      var r := MaxSeq(s[..|s| - 1]);
      if x > r then x else r
  }

  lemma {:induction false} MaxSeqIsMax(s: seq<real>)
    requires |s| > 0
    ensures MaxSeq(s) in s
    ensures forall i :: 0 <= i < |s| ==> s[i] <= MaxSeq(s)
  {
    if |s| > 1 {
      MaxSeqIsMax(s[..|s| - 1]);
      forall i | 0 <= i < |s|
        ensures s[i] <= MaxSeq(s)
      {
        if i < |s| - 1 {
          assert s[i] == s[..|s| - 1][i];
        }
      }
    }
  }

  ghost function ExpRow(m: Libm, s: seq<real>, mx: real): (e: seq<real>)
    ensures |e| == |s|
  {
    seq(|s|, i requires 0 <= i < |s| => m.exp(s[i] - mx))
  }

  function InvSum(total: real): real {
    if total > 0.0 then 1.0 / total else 0.0
  }

  ghost function ScaleRow(s: seq<real>, k: real): (r: seq<real>)
    ensures |r| == |s|
  {
    seq(|s|, i requires 0 <= i < |s| => Mul(s[i], k))
  }

  ghost function Softmax(m: Libm, s: seq<real>): (w: seq<real>)
    requires |s| > 0
    ensures |w| == |s|
  {
    var e := ExpRow(m, s, MaxSeq(s));
    ScaleRow(e, InvSum(Total(e)))
  }

  /** Channel d of value row i. */
  ghost function Value(c: Config, V: seq<real>, kvOff: nat, d: nat, i: int): real {
    if 0 <= i then Elem(V, Times(i, c.kvDim) + kvOff, d) else 0.0
  }

  ghost function Mix(c: Config, w: seq<real>, V: seq<real>, kvOff: nat, d: nat): real {
    Sum(i => Mul(At(w, i), Value(c, V, kvOff, d, i)), |w|)
  }

  /** Channel d of the head's output, attending over the first len rows. */
  ghost function HeadOut(m: Libm, c: Config, q: seq<real>, qOff: nat, K: seq<real>, V: seq<real>,
                         kvOff: nat, len: nat, d: nat): real
    requires len > 0
  {
    Mix(c, Softmax(m, ScoreRow(m, c, q, qOff, K, kvOff, len)), V, kvOff, d)
  }

  /** All channels of the head's output. */
  ghost function HeadRow(m: Libm, c: Config, q: seq<real>, qOff: nat, K: seq<real>, V: seq<real>,
                         kvOff: nat, len: nat): (r: seq<real>)
    requires len > 0
    ensures |r| == c.headDim
  {
    MixRow(c, Softmax(m, ScoreRow(m, c, q, qOff, K, kvOff, len)), V, kvOff)
  }

  ghost function MixRow(c: Config, w: seq<real>, V: seq<real>, kvOff: nat): (r: seq<real>)
    ensures |r| == c.headDim
  {
    seq(c.headDim, d requires 0 <= d < c.headDim => Mix(c, w, V, kvOff, d))
  }

  // ---- What it means -------------------------------------------------------

  lemma ScaledTotal(s: seq<real>, k: real)
    ensures Total(ScaleRow(s, k)) == Mul(k, Total(s))
  {
    forall i | 0 <= i < |s|
      ensures At(ScaleRow(s, k), i) == Mul(k, At(s, i))
    {
      assert ScaleRow(s, k)[i] == Mul(s[i], k);
    }
    SumScale(k, i => At(s, i), i => At(ScaleRow(s, k), i), |s|);
  }

  lemma ScaledPositive(s: seq<real>, k: real)
    requires k > 0.0 && forall i :: 0 <= i < |s| ==> s[i] > 0.0
    ensures forall i :: 0 <= i < |s| ==> ScaleRow(s, k)[i] > 0.0
  {
  }

  lemma TotalPositive(s: seq<real>)
    requires |s| > 0 && forall i :: 0 <= i < |s| ==> s[i] > 0.0
    ensures Total(s) > 0.0
    ensures InvSum(Total(s)) > 0.0 && Mul(InvSum(Total(s)), Total(s)) == 1.0
  {
    var f := i => At(s, i);
    assert f(0) > 0.0;
    SumSign(f, |s|);
  }

  /** The weights are positive and add up to one. */
  lemma SoftmaxIsConvex(m: Libm, s: seq<real>)
    requires |s| > 0
    requires forall x :: m.exp(x) > 0.0
    ensures forall i :: 0 <= i < |s| ==> Softmax(m, s)[i] > 0.0
    ensures Total(Softmax(m, s)) == 1.0
  {
    hide Total, InvSum, ScaleRow, Mul;
    var e := ExpRow(m, s, MaxSeq(s));
    TotalPositive(e);
    ScaledPositive(e, InvSum(Total(e)));
    ScaledTotal(e, InvSum(Total(e)));
  }

  /** exp turns the shift by mx into a common factor. */
  lemma ShiftIsFactor(m: Libm, s: seq<real>, mx: real)
    requires forall x, y :: m.exp(x - y) * m.exp(y) == m.exp(x)
    ensures ExpRow(m, s, 0.0) == ScaleRow(ExpRow(m, s, mx), m.exp(mx))
  {
    var e, plain := ExpRow(m, s, mx), ExpRow(m, s, 0.0);
    forall j | 0 <= j < |s|
      ensures plain[j] == Mul(e[j], m.exp(mx))
    {
      var x := s[j] - 0.0;
      assert x - mx == s[j] - mx;
      assert m.exp(x - mx) * m.exp(mx) == m.exp(x);
    }
  }

  /** Subtracting the maximum first does not change the weights. */
  lemma SoftmaxIsPlain(m: Libm, s: seq<real>, i: nat)
    requires i < |s|
    requires forall x :: m.exp(x) > 0.0
    requires forall x, y :: m.exp(x - y) * m.exp(y) == m.exp(x)
    ensures Softmax(m, s)[i] * Total(ExpRow(m, s, 0.0)) == ExpRow(m, s, 0.0)[i]
  {
    hide Total, InvSum, Mul, MaxSeq;
    var mx := MaxSeq(s);
    var e := ExpRow(m, s, mx);
    ShiftIsFactor(m, s, mx);
    TotalPositive(e);
    ScaledTotal(e, m.exp(mx));
    Cancel(e[i], InvSum(Total(e)), Total(e), m.exp(mx));
  }

  lemma Cancel(x: real, inv: real, total: real, k: real)
    requires Mul(inv, total) == 1.0
    ensures Mul(x, inv) * Mul(k, total) == Mul(x, k)
  {
  }

  /** The output lies between any bounds on the attended value channel: it is a
      convex combination of the value rows. */
  lemma HeadOutIsConvex(m: Libm, c: Config, q: seq<real>, qOff: nat, K: seq<real>, V: seq<real>,
                        kvOff: nat, len: nat, d: nat, lo: real, hi: real)
    requires len > 0 && forall x :: m.exp(x) > 0.0
    requires forall i :: 0 <= i < len ==> lo <= Value(c, V, kvOff, d, i) <= hi
    ensures lo <= HeadOut(m, c, q, qOff, K, V, kvOff, len, d) <= hi
  {
    var w := Softmax(m, ScoreRow(m, c, q, qOff, K, kvOff, len));
    SoftmaxIsConvex(m, ScoreRow(m, c, q, qOff, K, kvOff, len));
    WeightedBounds(i => At(w, i), i => Value(c, V, kvOff, d, i),
                   i => Mul(At(w, i), Value(c, V, kvOff, d, i)), len, lo, hi);
  }

  ghost predicate SamePrefix(s: seq<real>, t: seq<real>, n: nat) {
    forall x :: 0 <= x < n ==> At(s, x) == At(t, x)
  }

  /** Only the first len rows of K and V, and the head's slice of q, matter. */
  lemma HeadOutLocal(m: Libm, c: Config, q: seq<real>, qOff: nat, K: seq<real>, V: seq<real>,
                     q': seq<real>, qOff': nat, K': seq<real>, V': seq<real>, kvOff: nat, len: nat, d: nat)
    requires len > 0 && kvOff + c.headDim <= c.kvDim && d < c.headDim
    requires forall e :: 0 <= e < c.headDim ==> Elem(q, qOff, e) == Elem(q', qOff', e)
    requires SamePrefix(K, K', Times(len, c.kvDim)) && SamePrefix(V, V', Times(len, c.kvDim))
    ensures HeadOut(m, c, q, qOff, K, V, kvOff, len, d) == HeadOut(m, c, q', qOff', K', V', kvOff, len, d)
  {
    hide Mul, Softmax, ScoreAt, Mix;
    forall i | 0 <= i < len
      ensures ScoreAt(m, c, q, qOff, K, kvOff, i) == ScoreAt(m, c, q', qOff', K', kvOff, i)
      ensures Value(c, V, kvOff, d, i) == Value(c, V', kvOff, d, i)
    {
      TimesOrdered(i, len, c.kvDim);
      ScoreLocal(m, c, q, qOff, K, q', qOff', K', kvOff, i);
    }
    var s, s' := ScoreRow(m, c, q, qOff, K, kvOff, len), ScoreRow(m, c, q', qOff', K', kvOff, len);
    assert s == s';
    MixLocal(c, Softmax(m, s), V, V', kvOff, d);
  }

  lemma MixLocal(c: Config, w: seq<real>, V: seq<real>, V': seq<real>, kvOff: nat, d: nat)
    requires forall i :: 0 <= i < |w| ==> Value(c, V, kvOff, d, i) == Value(c, V', kvOff, d, i)
    ensures Mix(c, w, V, kvOff, d) == Mix(c, w, V', kvOff, d)
  {
    hide Mul, Value;
    SumCongruence(i => Mul(At(w, i), Value(c, V, kvOff, d, i)), i => Mul(At(w, i), Value(c, V', kvOff, d, i)), |w|);
  }

  lemma ScoreLocal(m: Libm, c: Config, q: seq<real>, qOff: nat, K: seq<real>,
                   q': seq<real>, qOff': nat, K': seq<real>, kvOff: nat, i: nat)
    requires forall e :: 0 <= e < c.headDim ==> Elem(q, qOff, e) == Elem(q', qOff', e)
    requires SamePrefix(K, K', Times(i, c.kvDim) + kvOff + c.headDim)
    ensures ScoreAt(m, c, q, qOff, K, kvOff, i) == ScoreAt(m, c, q', qOff', K', kvOff, i)
  {
    hide Mul;
    var kb := Times(i, c.kvDim) + kvOff;
    forall e | 0 <= e < c.headDim
      ensures Elem(K, kb, e) == Elem(K', kb, e)
    {
      assert At(K, kb + e) == At(K', kb + e);
    }
    DotLocal(K, K', kb, q, qOff, q', qOff', c.headDim);
  }

  lemma DotLocal(K: seq<real>, K': seq<real>, kb: nat, q: seq<real>, qOff: nat, q': seq<real>, qOff': nat, n: nat)
    requires forall e :: 0 <= e < n ==> Elem(K, kb, e) == Elem(K', kb, e)
    requires forall e :: 0 <= e < n ==> Elem(q, qOff, e) == Elem(q', qOff', e)
    ensures Dot(K, kb, q, qOff, n) == Dot(K', kb, q', qOff', n)
  {
    hide Mul, Elem;
    SumCongruence(e => Mul(Elem(K, kb, e), Elem(q, qOff, e)), e => Mul(Elem(K', kb, e), Elem(q', qOff', e)), n);
  }

  lemma HeadRowLocal(m: Libm, c: Config, q: seq<real>, qOff: nat, K: seq<real>, V: seq<real>,
                     q': seq<real>, qOff': nat, K': seq<real>, V': seq<real>, kvOff: nat, len: nat)
    requires len > 0 && kvOff + c.headDim <= c.kvDim
    requires forall e :: 0 <= e < c.headDim ==> Elem(q, qOff, e) == Elem(q', qOff', e)
    requires SamePrefix(K, K', Times(len, c.kvDim)) && SamePrefix(V, V', Times(len, c.kvDim))
    ensures HeadRow(m, c, q, qOff, K, V, kvOff, len) == HeadRow(m, c, q', qOff', K', V', kvOff, len)
  {
    hide Mix, Softmax;
    forall d | 0 <= d < c.headDim
      ensures HeadRow(m, c, q, qOff, K, V, kvOff, len)[d] == HeadRow(m, c, q', qOff', K', V', kvOff, len)[d]
    {
      HeadOutLocal(m, c, q, qOff, K, V, q', qOff', K', V', kvOff, len, d);
    }
  }
}
