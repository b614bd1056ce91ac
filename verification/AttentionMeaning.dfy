/** What the attention kernels write, in terms of queries, keys and values alone: plain
    softmax attention, and what scale, query, keys, values and soft cap do to it. */
module AttentionMeaning {
  import opened Arith
  import opened Sums
  import opened Libm
  import opened BlockReduce
  import opened Windows
  import opened AttentionSpec
  import Attention

  // ---- Softmax attention -----------------------------------------------------

  /** exp is positive and turns differences into quotients. */
  ghost predicate Exponential(m: Libm) {
    (forall x :: m.exp(x) > 0.0) && (forall x, y :: m.exp(x - y) * m.exp(y) == m.exp(x))
  }

  ghost function Mass(m: Libm, s: int -> real, len: nat): real {
    Sum(i => m.exp(s(i)), len)
  }

  /** y is the mean of the first len values, weighted with the exponentials of their scores. */
  ghost predicate IsAttended(m: Libm, s: int -> real, v: int -> real, len: nat, y: real) {
    Mul(y, Mass(m, s, len)) == Sum(i => Mul(m.exp(s(i)), v(i)), len)
  }

  lemma MassPositive(m: Libm, s: int -> real, len: nat)
    requires len > 0 && forall x :: m.exp(x) > 0.0
    ensures Mass(m, s, len) > 0.0
  {
    forall i: int
      ensures m.exp(s(i)) > 0.0
    {
      var x: real := s(i);
      assert m.exp(x) > 0.0;
    }
    var f := i => m.exp(s(i));
    assert f(0) > 0.0;
    SumSign(f, len);
  }

  /** There is only one such mean, and only scores and values below len count. */
  lemma AttendedOnce(m: Libm, s: int -> real, s': int -> real, v: int -> real, v': int -> real, len: nat, y: real, y': real)
    requires len > 0 && forall x :: m.exp(x) > 0.0
    requires forall i :: 0 <= i < len ==> s(i) == s'(i) && v(i) == v'(i)
    requires IsAttended(m, s, v, len, y) && IsAttended(m, s', v', len, y')
    ensures y == y'
  {
    hide Mul, Sum;
    SumCongruence(i => m.exp(s(i)), i => m.exp(s'(i)), len);
    SumCongruence(i => Mul(m.exp(s(i)), v(i)), i => Mul(m.exp(s'(i)), v'(i)), len);
    MassPositive(m, s, len);
    SameFactor(y, y', Mass(m, s, len));
  }

  lemma SameFactor(y: real, y': real, z: real)
    requires z > 0.0 && Mul(y, z) == Mul(y', z)
    ensures y == y'
  {
  }

  // ---- A head ----------------------------------------------------------------

  /** Channel d of row i of K or V, for the key head at offset kvOff. */
  ghost function Cell(c: Config, rows: seq<real>, kvOff: nat, i: int, d: int): real {
    if i < 0 then 0.0 else Elem(rows, Times(i, c.kvDim) + kvOff, d)
  }

  ghost function Channel(c: Config, rows: seq<real>, kvOff: nat, d: int): (v: int -> real)
    ensures forall i :: v(i) == Cell(c, rows, kvOff, i, d)
  {
    i => Cell(c, rows, kvOff, i, d)
  }

  /** The query's slice against row i of its keys. */
  ghost function Product(c: Config, q: seq<real>, qOff: nat, K: seq<real>, kvOff: nat, i: int): real {
    Sum(e => Mul(Elem(q, qOff, e), Cell(c, K, kvOff, i, e)), c.headDim)
  }

  /** A score of x, capped where there is a cap. */
  ghost function Capped(m: Libm, c: Config, x: real): real {
    if c.hasSoftcap then Mul(c.softcap, m.tanh(m.div(x, c.softcap))) else x
  }

  /** The scores of the rows: scaled products, capped. */
  ghost function Score(m: Libm, c: Config, q: seq<real>, qOff: nat, K: seq<real>, kvOff: nat): (s: int -> real)
    ensures forall i :: s(i) == Capped(m, c, Mul(c.scale, Product(c, q, qOff, K, kvOff, i)))
  {
    i => Capped(m, c, Mul(c.scale, Product(c, q, qOff, K, kvOff, i)))
  }

  lemma ScoreIs(m: Libm, c: Config, q: seq<real>, qOff: nat, K: seq<real>, kvOff: nat, i: nat)
    ensures ScoreAt(m, c, q, qOff, K, kvOff, i) == Score(m, c, q, qOff, K, kvOff)(i)
  {
    hide Sum, Elem;
    var k := Times(i, c.kvDim) + kvOff;
    SumCongruence(e => Mul(Elem(K, k, e), Elem(q, qOff, e)),
                  e => Mul(Elem(q, qOff, e), Cell(c, K, kvOff, i, e)), c.headDim);
  }

  lemma MassIsTotal(m: Libm, c: Config, q: seq<real>, qOff: nat, K: seq<real>, kvOff: nat, len: nat)
    ensures Mass(m, Score(m, c, q, qOff, K, kvOff), len) == Total(ExpRow(m, ScoreRow(m, c, q, qOff, K, kvOff, len), 0.0))
  {
    hide ScoreAt, Score, Sum;
    var e := ExpRow(m, ScoreRow(m, c, q, qOff, K, kvOff, len), 0.0);
    var s := Score(m, c, q, qOff, K, kvOff);
    forall i | 0 <= i < len
      ensures At(e, i) == m.exp(s(i))
    {
      ScoreIs(m, c, q, qOff, K, kvOff, i);
      assert ScoreAt(m, c, q, qOff, K, kvOff, i) - 0.0 == s(i);
    }
    SumCongruence(i => m.exp(s(i)), i => At(e, i), len);
  }

  lemma WeightOf(m: Libm, c: Config, q: seq<real>, qOff: nat, K: seq<real>, kvOff: nat, len: nat, i: nat)
    requires i < len && Exponential(m)
    ensures var s := Score(m, c, q, qOff, K, kvOff);
      Mul(Mass(m, s, len), At(Softmax(m, ScoreRow(m, c, q, qOff, K, kvOff, len)), i)) == m.exp(s(i))
  {
    hide Softmax, Total, ScoreAt, Score, Mass, Mul, ExpRow, Exponential;
    MassIsTotal(m, c, q, qOff, K, kvOff, len);
    ScoreIs(m, c, q, qOff, K, kvOff, i);
    PlainWeight(m, ScoreRow(m, c, q, qOff, K, kvOff, len), i);
  }

  lemma PlainWeight(m: Libm, row: seq<real>, i: nat)
    requires i < |row| && Exponential(m)
    ensures Mul(Total(ExpRow(m, row, 0.0)), At(Softmax(m, row), i)) == m.exp(row[i])
  {
    hide Softmax, Total;
    SoftmaxIsPlain(m, row, i);
    assert row[i] - 0.0 == row[i];
  }

  /** A head's output is softmax attention. */
  lemma HeadIsAttention(m: Libm, c: Config, q: seq<real>, qOff: nat, K: seq<real>, V: seq<real>, kvOff: nat, len: nat, d: nat)
    requires len > 0 && d < c.headDim && Exponential(m)
    ensures IsAttended(m, Score(m, c, q, qOff, K, kvOff), Channel(c, V, kvOff, d), len,
                       HeadRow(m, c, q, qOff, K, V, kvOff, len)[d])
  {
    hide Softmax, ScoreRow, Score, Mass, Mul, Elem, Sum, Exponential;
    var w := Softmax(m, ScoreRow(m, c, q, qOff, K, kvOff, len));
    var s, v := Score(m, c, q, qOff, K, kvOff), Channel(c, V, kvOff, d);
    var z := Mass(m, s, len);
    var term := i => Mul(At(w, i), Value(c, V, kvOff, d, i));
    var plain := i => Mul(m.exp(s(i)), v(i));
    forall i | 0 <= i < len
      ensures plain(i) == Mul(z, term(i))
    {
      WeightOf(m, c, q, qOff, K, kvOff, len, i);
      Associate(z, At(w, i), v(i));
    }
    SumScale(z, term, plain, len);
    Commute(z, Sum(term, len));
  }

  lemma Associate(x: real, y: real, z: real)
    ensures Mul(Mul(x, y), z) == Mul(x, Mul(y, z))
  {
  }

  lemma Commute(x: real, y: real)
    ensures Mul(x, y) == Mul(y, x)
  {
  }

  // ---- The kernels' outputs --------------------------------------------------

  /** Channel d of query head h in the output of decode_attention: attention over len rows
      of key head g, which is h / reps. */
  lemma DecodeIsAttention(m: Libm, c: Config, q: seq<real>, K: seq<real>, V: seq<real>, numQ: nat, reps: nat, len: nat,
                          out: seq<real>, h: nat, g: nat, d: nat)
    requires reps > 0 && len > 0 && h < numQ && d < c.headDim && Exponential(m) && g == h / reps
    requires WindowsDone(out, c.headDim, Attention.DecodeRows(m, c, q, K, V, numQ, reps, len), Threads(numQ))
    ensures var qOff, kvOff := Times(h, c.headDim), Times(g, c.headDim);
      IsAttended(m, Score(m, c, q, qOff, K, kvOff), Channel(c, V, kvOff, d), len, Elem(out, qOff, d))
  {
    hide HeadRow, IsAttended, WindowsDone, Times, Score, Channel, Exponential;
    HeadIsAttention(m, c, q, Times(h, c.headDim), K, V, Times(g, c.headDim), len, d);
    WindowElem(out, Attention.DecodeRows(m, c, q, K, V, numQ, reps, len), c.headDim, h);
  }

  /** Channel d of head h at position qi in the output of prefill_attention: attention over
      the rows up to qi. */
  lemma PrefillIsAttention(m: Libm, c: Config, q: seq<real>, K: seq<real>, V: seq<real>, numQ: nat, reps: nat, seqLen: nat,
                           out: seq<real>, qi: nat, h: nat, g: nat, d: nat)
    requires reps > 0 && qi < seqLen && h < numQ && d < c.headDim && Exponential(m) && g == h / reps
    requires WindowsDone(out, c.headDim, Attention.PrefillRows(m, c, q, K, V, numQ, reps, seqLen), Threads(Times(seqLen, numQ)))
    ensures var qOff, kvOff := Times(Times(qi, numQ) + h, c.headDim), Times(g, c.headDim);
      IsAttended(m, Score(m, c, q, qOff, K, kvOff), Channel(c, V, kvOff, d), qi + 1, Elem(out, qOff, d))
  {
    hide HeadRow, IsAttended, WindowsDone, Times, Score, Channel, Exponential;
    var b := Times(qi, numQ) + h;
    BlockOf(qi, numQ, h, seqLen);
    HeadIsAttention(m, c, q, Times(b, c.headDim), K, V, Times(g, c.headDim), qi + 1, d);
    WindowElem(out, Attention.PrefillRows(m, c, q, K, V, numQ, reps, seqLen), c.headDim, b);
  }

  lemma BlockOf(qi: nat, numQ: nat, h: nat, seqLen: nat)
    requires h < numQ && qi < seqLen
    ensures var b := Times(qi, numQ) + h;
      b < Times(seqLen, numQ) && b / numQ == qi && b % numQ == h
  {
    TimesIsProduct(qi, numQ);
    TimesOrdered(qi, seqLen, numQ);
    DivModUnique(Times(qi, numQ) + h, numQ, qi, h);
  }

  // ---- What each part does ---------------------------------------------------

  /** Heads with the same scores on the same values agree. */
  lemma SameScores(m: Libm, c: Config, q: seq<real>, c': Config, q': seq<real>, qOff: nat, K: seq<real>, V: seq<real>,
                   kvOff: nat, len: nat)
    requires len > 0 && Exponential(m) && c'.kvDim == c.kvDim && c'.headDim == c.headDim
    requires forall i :: 0 <= i < len ==> Score(m, c, q, qOff, K, kvOff)(i) == Score(m, c', q', qOff, K, kvOff)(i)
    ensures HeadRow(m, c, q, qOff, K, V, kvOff, len) == HeadRow(m, c', q', qOff, K, V, kvOff, len)
  {
    hide HeadRow, IsAttended, Score, Elem;
    var y, y' := HeadRow(m, c, q, qOff, K, V, kvOff, len), HeadRow(m, c', q', qOff, K, V, kvOff, len);
    forall d | 0 <= d < c.headDim
      ensures y[d] == y'[d]
    {
      HeadIsAttention(m, c, q, qOff, K, V, kvOff, len, d);
      HeadIsAttention(m, c', q', qOff, K, V, kvOff, len, d);
      AttendedOnce(m, Score(m, c, q, qOff, K, kvOff), Score(m, c', q', qOff, K, kvOff),
                   Channel(c, V, kvOff, d), Channel(c', V, kvOff, d), len, y[d], y'[d]);
    }
  }

  /** Without a soft cap the scale may as well be on the query. */
  lemma ScaleOnQuery(m: Libm, c: Config, q: seq<real>, q': seq<real>, qOff: nat, K: seq<real>, V: seq<real>, kvOff: nat, len: nat)
    requires len > 0 && !c.hasSoftcap && Exponential(m)
    requires forall e :: 0 <= e < c.headDim ==> Elem(q', qOff, e) == Mul(c.scale, Elem(q, qOff, e))
    ensures HeadRow(m, c, q, qOff, K, V, kvOff, len) == HeadRow(m, c.(scale := 1.0), q', qOff, K, V, kvOff, len)
  {
    hide HeadRow, Elem, Sum;
    forall i | 0 <= i < len
      ensures Score(m, c, q, qOff, K, kvOff)(i) == Score(m, c.(scale := 1.0), q', qOff, K, kvOff)(i)
    {
      ScaledProduct(c, q, q', qOff, K, kvOff, i);
    }
    SameScores(m, c, q, c.(scale := 1.0), q', qOff, K, V, kvOff, len);
  }

  lemma ScaledProduct(c: Config, q: seq<real>, q': seq<real>, qOff: nat, K: seq<real>, kvOff: nat, i: nat)
    requires forall e :: 0 <= e < c.headDim ==> Elem(q', qOff, e) == Mul(c.scale, Elem(q, qOff, e))
    ensures Product(c.(scale := 1.0), q', qOff, K, kvOff, i) == Mul(c.scale, Product(c, q, qOff, K, kvOff, i))
  {
    hide Elem, Sum, Mul;
    var c' := c.(scale := 1.0);
    var plain := e => Mul(Elem(q, qOff, e), Cell(c, K, kvOff, i, e));
    var scaled := e => Mul(Elem(q', qOff, e), Cell(c', K, kvOff, i, e));
    forall e | 0 <= e < c.headDim
      ensures scaled(e) == Mul(c.scale, plain(e))
    {
      Associate(c.scale, Elem(q, qOff, e), Cell(c, K, kvOff, i, e));
    }
    SumScale(c.scale, plain, scaled, c.headDim);
  }

  /** With a scale of zero the output is the mean of the value rows. */
  lemma ZeroScaleIsMean(m: Libm, c: Config, q: seq<real>, qOff: nat, K: seq<real>, V: seq<real>, kvOff: nat, len: nat, d: nat)
    requires len > 0 && d < c.headDim && Exponential(m) && !c.hasSoftcap && c.scale == 0.0
    ensures HeadRow(m, c, q, qOff, K, V, kvOff, len)[d] * len as real == Sum(Channel(c, V, kvOff, d), len)
  {
    hide HeadRow, Elem, Product, Sum;
    var s, v, e := Score(m, c, q, qOff, K, kvOff), Channel(c, V, kvOff, d), m.exp(0.0);
    HeadIsAttention(m, c, q, qOff, K, V, kvOff, len, d);
    EqualWeights(m, s, v, len, HeadRow(m, c, q, qOff, K, V, kvOff, len)[d]);
  }

  lemma EqualWeights(m: Libm, s: int -> real, v: int -> real, len: nat, y: real)
    requires len > 0 && m.exp(0.0) > 0.0 && IsAttended(m, s, v, len, y)
    requires forall i :: s(i) == 0.0
    ensures y * len as real == Sum(v, len)
  {
    hide Sum, Mul;
    var e := m.exp(0.0);
    UnitFactor(e);
    SumScale(e, i => 1.0, i => m.exp(s(i)), len);
    SumScale(e, v, i => Mul(m.exp(s(i)), v(i)), len);
    SumOfOnes(i => 1.0, len);
    DropFactor(y, e, len as real, Sum(v, len));
  }

  lemma UnitFactor(e: real)
    ensures Mul(e, 1.0) == e
  {
  }

  lemma DropFactor(y: real, e: real, n: real, v: real)
    requires e > 0.0 && Mul(y, Mul(e, n)) == Mul(e, v)
    ensures y * n == v
  {
    assert e * (y * n - v) == 0.0;
  }

  lemma {:induction false} SumOfOnes(f: int -> real, n: nat)
    requires forall i :: f(i) == 1.0
    ensures Sum(f, n) == n as real
  {
    if n > 0 {
      SumOfOnes(f, n - 1);
    }
  }

  /** v is one at row i, and zero at the other rows below len. */
  ghost predicate Picks(v: int -> real, len: nat, i: nat) {
    i < len && forall j :: 0 <= j < len ==> v(j) == if j == i then 1.0 else 0.0
  }

  /** Over such values the output is the row's weight. */
  lemma PickedWeight(m: Libm, s: int -> real, v: int -> real, len: nat, i: nat, y: real)
    requires Picks(v, len, i) && IsAttended(m, s, v, len, y)
    ensures Mul(y, Mass(m, s, len)) == m.exp(s(i))
  {
    hide Sum, Mass;
    var none := (j: int) => 0.0;
    var term := j => Mul(m.exp(s(j)), v(j));
    SumZero(none, len);
    SumUpdate(none, term, len, i);
  }

  /** For a query that is the unit vector of channel ch, and no cap: the weights of two
      rows, read off over values that pick them, stand to each other as the exponentials
      of the scaled keys in that channel. */
  lemma UnitQueryWeights(m: Libm, c: Config, q: seq<real>, qOff: nat, K: seq<real>, kvOff: nat, len: nat, d: nat, ch: nat,
                         i: nat, V: seq<real>, j: nat, V': seq<real>)
    requires d < c.headDim && ch < c.headDim && Exponential(m) && !c.hasSoftcap
    requires forall e :: 0 <= e < c.headDim ==> Elem(q, qOff, e) == if e == ch then 1.0 else 0.0
    requires Picks(Channel(c, V, kvOff, d), len, i) && Picks(Channel(c, V', kvOff, d), len, j)
    ensures HeadRow(m, c, q, qOff, K, V, kvOff, len)[d] * m.exp(Mul(c.scale, Elem(K, Times(j, c.kvDim) + kvOff, ch)))
         == HeadRow(m, c, q, qOff, K, V', kvOff, len)[d] * m.exp(Mul(c.scale, Elem(K, Times(i, c.kvDim) + kvOff, ch)))
  {
    hide HeadRow, Mass, Product, Elem, Times, IsAttended, Mul;
    UnitProduct(c, q, qOff, K, kvOff, ch, i);
    UnitProduct(c, q, qOff, K, kvOff, ch, j);
    var s := Score(m, c, q, qOff, K, kvOff);
    HeadIsAttention(m, c, q, qOff, K, V, kvOff, len, d);
    HeadIsAttention(m, c, q, qOff, K, V', kvOff, len, d);
    PickedWeight(m, s, Channel(c, V, kvOff, d), len, i, HeadRow(m, c, q, qOff, K, V, kvOff, len)[d]);
    PickedWeight(m, s, Channel(c, V', kvOff, d), len, j, HeadRow(m, c, q, qOff, K, V', kvOff, len)[d]);
    CrossRatio(HeadRow(m, c, q, qOff, K, V, kvOff, len)[d], HeadRow(m, c, q, qOff, K, V', kvOff, len)[d], Mass(m, s, len));
  }

  lemma CrossRatio(y: real, y': real, z: real)
    ensures y * Mul(y', z) == y' * Mul(y, z)
  {
  }

  lemma UnitProduct(c: Config, q: seq<real>, qOff: nat, K: seq<real>, kvOff: nat, ch: nat, i: nat)
    requires ch < c.headDim
    requires forall e :: 0 <= e < c.headDim ==> Elem(q, qOff, e) == if e == ch then 1.0 else 0.0
    ensures Product(c, q, qOff, K, kvOff, i) == Elem(K, Times(i, c.kvDim) + kvOff, ch)
  {
    hide Elem, Sum;
    var none := (e: int) => 0.0;
    var term := e => Mul(Elem(q, qOff, e), Cell(c, K, kvOff, i, e));
    forall e | 0 <= e < c.headDim
      ensures term(e) == if e == ch then Cell(c, K, kvOff, i, ch) else 0.0
    {
      assert Elem(q, qOff, e) == if e == ch then 1.0 else 0.0;
    }
    SumZero(none, c.headDim);
    SumUpdate(none, term, c.headDim, ch);
  }

  /** A single row is copied, whatever its score. */
  lemma OneRowIsCopied(m: Libm, c: Config, q: seq<real>, qOff: nat, K: seq<real>, V: seq<real>, kvOff: nat, d: nat)
    requires d < c.headDim && Exponential(m)
    ensures HeadRow(m, c, q, qOff, K, V, kvOff, 1)[d] == Elem(V, kvOff, d)
  {
    hide HeadRow, Score, Elem, IsAttended;
    var s, v := Score(m, c, q, qOff, K, kvOff), Channel(c, V, kvOff, d);
    HeadIsAttention(m, c, q, qOff, K, V, kvOff, 1, d);
    NoTimes(c.kvDim);
    SoleValue(m, s, v, HeadRow(m, c, q, qOff, K, V, kvOff, 1)[d]);
  }

  lemma SoleValue(m: Libm, s: int -> real, v: int -> real, y: real)
    requires m.exp(s(0)) > 0.0 && IsAttended(m, s, v, 1, y)
    ensures y == v(0)
  {
    hide Mul, Sum;
    OneTerm(i => m.exp(s(i)));
    OneTerm(i => Mul(m.exp(s(i)), v(i)));
    Commute(m.exp(s(0)), v(0));
    SameFactor(y, v(0), m.exp(s(0)));
  }

  lemma OneTerm(f: int -> real)
    ensures Sum(f, 1) == f(0)
  {
    assert Sum(f, 1) == Sum(f, 0) + f(0);
  }

  /** A soft cap bounds every score. */
  lemma CapBounds(m: Libm, c: Config, q: seq<real>, qOff: nat, K: seq<real>, kvOff: nat, i: int)
    requires c.hasSoftcap && c.softcap > 0.0 && forall x :: -1.0 <= m.tanh(x) <= 1.0
    ensures -c.softcap <= Score(m, c, q, qOff, K, kvOff)(i) <= c.softcap
  {
    hide Product, Mul;
    var x := m.div(Mul(c.scale, Product(c, q, qOff, K, kvOff, i)), c.softcap);
    assert -1.0 <= m.tanh(x) <= 1.0;
    BoundedProduct(c.softcap, m.tanh(x));
  }

  lemma BoundedProduct(c: real, t: real)
    requires c > 0.0 && -1.0 <= t <= 1.0
    ensures -c <= Mul(c, t) <= c
  {
    ProductsOrdered(-1.0, t, c);
    ProductsOrdered(t, 1.0, c);
  }

  /** So with a cap no row outweighs another by more than the exponential of twice it. */
  lemma CapBoundsWeights(m: Libm, c: Config, q: seq<real>, qOff: nat, K: seq<real>, kvOff: nat, len: nat, d: nat,
                         i: nat, V: seq<real>, j: nat, V': seq<real>)
    requires d < c.headDim && Exponential(m) && (forall x, y :: x <= y ==> m.exp(x) <= m.exp(y))
    requires c.hasSoftcap && c.softcap > 0.0 && forall x :: -1.0 <= m.tanh(x) <= 1.0
    requires Picks(Channel(c, V, kvOff, d), len, i) && Picks(Channel(c, V', kvOff, d), len, j)
    ensures HeadRow(m, c, q, qOff, K, V, kvOff, len)[d] * m.exp(-c.softcap)
         <= HeadRow(m, c, q, qOff, K, V', kvOff, len)[d] * m.exp(c.softcap)
  {
    hide HeadRow, Mass, Score, Mul, Elem, IsAttended;
    var s := Score(m, c, q, qOff, K, kvOff);
    HeadIsAttention(m, c, q, qOff, K, V, kvOff, len, d);
    HeadIsAttention(m, c, q, qOff, K, V', kvOff, len, d);
    PickedWeight(m, s, Channel(c, V, kvOff, d), len, i, HeadRow(m, c, q, qOff, K, V, kvOff, len)[d]);
    PickedWeight(m, s, Channel(c, V', kvOff, d), len, j, HeadRow(m, c, q, qOff, K, V', kvOff, len)[d]);
    MassPositive(m, s, len);
    CapBounds(m, c, q, qOff, K, kvOff, i);
    CapBounds(m, c, q, qOff, K, kvOff, j);
    OrderedRatio(HeadRow(m, c, q, qOff, K, V, kvOff, len)[d], HeadRow(m, c, q, qOff, K, V', kvOff, len)[d],
                 Mass(m, s, len), m.exp(-c.softcap), m.exp(c.softcap));
  }

  lemma OrderedRatio(y: real, y': real, z: real, lo: real, hi: real)
    requires z > 0.0 && 0.0 < lo && 0.0 < hi && Mul(y, z) <= hi && lo <= Mul(y', z)
    ensures y * lo <= y' * hi
  {
    ProductsOrdered(Mul(y, z), hi, lo);
    ProductsOrdered(lo, Mul(y', z), hi);
    Undo(y * lo, y' * hi, z);
  }

  lemma ProductsOrdered(a: real, b: real, k: real)
    requires a <= b && k > 0.0
    ensures a * k <= b * k
  {
  }

  lemma Undo(a: real, b: real, z: real)
    requires z > 0.0 && a * z <= b * z
    ensures a <= b
  {
    if b < a {
      StrictProducts(b, a, z);
      assert false;
    }
  }

  lemma StrictProducts(a: real, b: real, k: real)
    requires a < b && k > 0.0
    ensures a * k < b * k
  {
  }

  /** A cap whose tanh is the identity is no cap. */
  lemma IdentityIsNoCap(m: Libm, c: Config, q: seq<real>, qOff: nat, K: seq<real>, V: seq<real>, kvOff: nat, len: nat)
    requires len > 0 && Exponential(m) && c.softcap != 0.0
    requires (forall x :: m.tanh(x) == x) && forall a, b :: b != 0.0 ==> m.div(a, b) * b == a
    ensures HeadRow(m, c, q, qOff, K, V, kvOff, len) == HeadRow(m, c.(hasSoftcap := false), q, qOff, K, V, kvOff, len)
  {
    hide HeadRow, Product;
    var c' := c.(hasSoftcap := false);
    forall i | 0 <= i < len
      ensures Score(m, c, q, qOff, K, kvOff)(i) == Score(m, c', q, qOff, K, kvOff)(i)
    {
      SameProduct(c, c', q, qOff, K, kvOff, i);
      var s := Mul(c.scale, Product(c, q, qOff, K, kvOff, i));
      assert m.div(s, c.softcap) * c.softcap == s;
    }
    SameScores(m, c, q, c', q, qOff, K, V, kvOff, len);
  }

  lemma SameProduct(c: Config, c': Config, q: seq<real>, qOff: nat, K: seq<real>, kvOff: nat, i: nat)
    requires c'.headDim == c.headDim && c'.kvDim == c.kvDim
    ensures Product(c, q, qOff, K, kvOff, i) == Product(c', q, qOff, K, kvOff, i)
  {
    hide Elem, Mul, Sum;
    SumCongruence(e => Mul(Elem(q, qOff, e), Cell(c, K, kvOff, i, e)),
                  e => Mul(Elem(q, qOff, e), Cell(c', K, kvOff, i, e)), c.headDim);
  }
}
