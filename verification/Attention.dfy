/** The fused attention kernels. Both run the same five barrier intervals per
    block; they differ in what they index and in how many rows they attend to. */
module Attention {
  import opened Arith
  import opened Sums
  import opened Libm
  import opened BlockReduce
  import opened Strides
  import opened Windows
  import opened Wrappers
  import opened AttentionSpec

  const BLOCK: nat := 256

  // ---- Phase 1: scores -----------------------------------------------------

  /** The inner dot loop of one key row. */
  method KeyScore(m: Libm, c: Config, q: array<real>, qOff: nat, K: array<real>, kvOff: nat, i: nat) returns (s: real)
    requires qOff + c.headDim <= q.Length && Times(i, c.kvDim) + kvOff + c.headDim <= K.Length
    ensures s == ScoreAt(m, c, q[..], qOff, K[..], kvOff, i)
  {
    hide Mul;
    TimesIsProduct(i, c.kvDim);
    var kBase := i * c.kvDim + kvOff;
    var dot := 0.0;
    ghost var qs, Ks := q[..], K[..];
    ghost var term := d => Mul(Elem(Ks, kBase, d), Elem(qs, qOff, d));
    for d := 0 to c.headDim
      invariant dot == Sum(term, d)
    {
      dot := dot + Mul(K[kBase + d], q[qOff + d]);
    }
    assert dot == Dot(Ks, kBase, qs, qOff, c.headDim);
    s := Cap(m, c, dot * c.scale);
  }

  /** The strided loop of one thread, and whether it ends. */
  method ThreadScores(m: Libm, c: Config, q: array<real>, qOff: nat, K: array<real>, kvOff: nat,
                      scores: array<real>, base: nat, len: nat, tid: nat) returns (ended: bool)
    requires qOff + c.headDim <= q.Length && Times(len, c.kvDim) <= K.Length && kvOff + c.headDim <= c.kvDim
    requires base + len <= scores.Length && scores != q && scores != K && len < U32 && tid < BLOCK
    modifies scores
    ensures ended <==> Ends(tid, BLOCK, len)
    ensures ended ==> forall i: nat :: i < len && i % BLOCK == tid ==>
      scores[base + i] == ScoreAt(m, c, q[..], qOff, K[..], kvOff, i)
    ensures forall i: nat :: i < len && i % BLOCK != tid ==> scores[base + i] == old(scores[base + i])
    ensures SameOutside(scores[..], old(scores[..]), base, base + len)
  {
    hide ScoreAt, Ends, NextIndex, Times;
    var i := tid;
    while i < len
      invariant i % BLOCK == tid && i < U32
      invariant forall j: nat :: j < len && j < i && j % BLOCK == tid ==>
        scores[base + j] == ScoreAt(m, c, q[..], qOff, K[..], kvOff, j)
      invariant forall j: nat :: j < len && j % BLOCK != tid ==> scores[base + j] == old(scores[base + j])
      invariant SameOutside(scores[..], old(scores[..]), base, base + len)
    {
      TimesOrdered(i, len, c.kvDim);
      Turn(i, tid, BLOCK, len);
      var s := KeyScore(m, c, q, qOff, K, kvOff, i);
      scores[base + i] := s;
      var next := NextIndex(i, BLOCK);
      if next <= i {
        // The index is back at an earlier one, and the source goes round for ever.
        return false;
      }
      i := next;
    }
    Ended(i, tid, BLOCK, len);
    ended := true;
  }

  /** All the threads, in any order. */
  method ScorePhase(m: Libm, c: Config, q: array<real>, qOff: nat, K: array<real>, kvOff: nat,
                    scores: array<real>, base: nat, len: nat) returns (ended: bool)
    requires qOff + c.headDim <= q.Length && Times(len, c.kvDim) <= K.Length && kvOff + c.headDim <= c.kvDim
    requires base + len <= scores.Length && scores != q && scores != K && len < U32
    modifies scores
    ensures ended <==> len + BLOCK <= U32
    ensures ended ==> scores[base..base + len] == ScoreRow(m, c, q[..], qOff, K[..], kvOff, len)
    ensures SameOutside(scores[..], old(scores[..]), base, base + len)
  {
    hide ScoreAt, Ends, Times;
    var pending := Threads(BLOCK);
    AllEndExactly(BLOCK, len);
    while pending != {}
      invariant forall t :: t in pending ==> t < BLOCK
      invariant forall t: nat :: t < BLOCK && t !in pending ==> Ends(t, BLOCK, len)
      invariant forall i: nat :: i < len && i % BLOCK !in pending ==>
        scores[base + i] == ScoreAt(m, c, q[..], qOff, K[..], kvOff, i)
      invariant SameOutside(scores[..], old(scores[..]), base, base + len)
      decreases pending
    {
      var tid :| tid in pending;
      ended := ThreadScores(m, c, q, qOff, K, kvOff, scores, base, len, tid);
      if !ended {
        return;
      }
      pending := pending - {tid};
    }
    ended := true;
  }

  // ---- Phase 2: maximum ----------------------------------------------------

  /** A running maximum: minus infinity before anything has been seen. */
  datatype Peak = MinusInf | Peak(v: real)

  predicate Above(b: Peak, a: Peak) {
    b.Peak? && (a.MinusInf? || b.v > a.v)
  }

  ghost function AsPeaks(s: seq<real>): (r: seq<Peak>)
    ensures |r| == |s|
  {
    seq(|s|, i requires 0 <= i < |s| => Peak(s[i]))
  }

  /** The strided loop of one thread. */
  method LocalMax(scores: array<real>, base: nat, len: nat, tid: nat) returns (localMax: Peak)
    requires base + len <= scores.Length && tid < BLOCK && len + BLOCK <= U32
    ensures localMax == Strided(Pick(Above), MinusInf, AsPeaks(scores[base..base + len]), tid, BLOCK, len)
  {
    ghost var row := AsPeaks(scores[base..base + len]);
    localMax := MinusInf;
    var i := tid;
    StridedStart(Pick(Above), MinusInf, row, tid, BLOCK, if tid < len then tid else len);
    while i < len
      invariant i % BLOCK == tid
      invariant localMax == Strided(Pick(Above), MinusInf, row, tid, BLOCK, if i < len then i else len)
    {
      StridedSkip(Pick(Above), MinusInf, row, tid, BLOCK, i, if i + BLOCK < len then i + BLOCK else len);
      SameRemainder(i, BLOCK);
      var s := Peak(scores[base + i]);
      assert row[i] == s;
      localMax := if Above(s, localMax) then s else localMax;
      NoWrap(i, BLOCK, len);
      i := NextIndex(i, BLOCK);
    }
  }

  method MaxPhase(scores: array<real>, base: nat, len: nat, shm: array<Peak>) returns (mx: real)
    requires base + len <= scores.Length && 0 < len <= U32 - BLOCK && shm.Length == BLOCK
    modifies shm
    ensures mx == MaxSeq(scores[base..base + len])
  {
    hide MaxSeq, Strided;
    ghost var row := scores[base..base + len];
    var pending := Threads(BLOCK);
    while pending != {}
      invariant row == scores[base..base + len]
      invariant forall t :: t in pending ==> t < BLOCK
      invariant forall t: nat :: t < BLOCK && t !in pending ==>
        shm[t] == Strided(Pick(Above), MinusInf, AsPeaks(row), t, BLOCK, len)
      decreases pending
    {
      var tid :| tid in pending;
      var localMax := LocalMax(scores, base, len, tid);
      shm[tid] := localMax;
      pending := pending - {tid};
    }
    MaxOfTree(row, shm[..]);
    TreeReduce(shm, Pick(Above));
    mx := shm[0].v;
  }

  lemma MaxOfTree(row: seq<real>, partials: seq<Peak>)
    requires |row| > 0 && |partials| == BLOCK
    requires forall t :: 0 <= t < BLOCK ==>
      partials[t] == Strided(Pick(Above), MinusInf, AsPeaks(row), t, BLOCK, |row|)
    ensures IsPow2(BLOCK)
    ensures Tree(Pick(Above), partials, BLOCK)[0] == Peak(MaxSeq(row))
  {
    hide MaxSeq, Strided, Tree;
    var w := Tree(Pick(Above), partials, BLOCK)[0];
    PeakTreePicks(partials);
    var t :| 0 <= t < BLOCK && partials[t] == w;
    PeakScanPicks(AsPeaks(row), t);
    forall i | 0 <= i < |row|
      ensures !Above(Peak(row[i]), w)
    {
      PeakScanPicks(AsPeaks(row), i % BLOCK);
      assert AsPeaks(row)[i] == Peak(row[i]);
      assert !Above(partials[i % BLOCK], w);
    }
    assert !Above(Peak(row[0]), w);
    MaxSeqIsMax(row);
  }

  lemma PeakTreePicks(partials: seq<Peak>)
    requires |partials| == BLOCK
    ensures IsPow2(BLOCK)
    ensures IsPick(Above, partials, BLOCK, Tree(Pick(Above), partials, BLOCK)[0])
  {
    assert StrictWeakOrder(Above);
    assert IsPow2(BLOCK) by { assert IsPow2(16); }
    TreePicks(Above, partials, BLOCK);
  }

  lemma PeakScanPicks(row: seq<Peak>, t: nat)
    requires t < BLOCK
    ensures var w := Strided(Pick(Above), MinusInf, row, t, BLOCK, |row|);
      && (w == MinusInf || w in row)
      && forall i :: 0 <= i < |row| && i % BLOCK == t ==> !Above(row[i], w)
  {
    assert StrictWeakOrder(Above);
    StridedPicks(Above, MinusInf, row, t, BLOCK, |row|);
  }

  // ---- Phase 3: exponentials and their sum ---------------------------------

  function AddExp(m: Libm, mx: real): (real, real) -> real {
    (a, s) => a + m.exp(s - mx)
  }

  /** The row while threads are replacing scores by exponentials: "done" says
      which elements have been replaced. */
  ghost function HalfExp(m: Libm, row: seq<real>, mx: real, done: int -> bool): (r: seq<real>)
    ensures |r| == |row|
  {
    seq(|row|, i requires 0 <= i < |row| => if done(i) then m.exp(row[i] - mx) else row[i])
  }

  /** The strided loop of one thread: it replaces its own scores by their
      exponentials and adds them up. */
  method LocalExp(m: Libm, scores: array<real>, base: nat, len: nat, mx: real, tid: nat,
                  ghost row: seq<real>, ghost others: int -> bool) returns (localSum: real)
    requires base + len <= scores.Length && tid < BLOCK && |row| == len && len + BLOCK <= U32
    requires scores[base..base + len] == HalfExp(m, row, mx, others)
    requires forall i :: others(i) ==> i % BLOCK != tid
    modifies scores
    ensures localSum == Strided(AddExp(m, mx), 0.0, row, tid, BLOCK, len)
    ensures scores[base..base + len] == HalfExp(m, row, mx, i => others(i) || i % BLOCK == tid)
    ensures SameOutside(scores[..], old(scores[..]), base, base + len)
  {
    hide Strided, HalfExp;
    localSum := 0.0;
    var i := tid;
    StridedStart(AddExp(m, mx), 0.0, row, tid, BLOCK, if tid < len then tid else len);
    ghost var win := scores[base..base + len];
    SameHalfExp(m, row, mx, others, Passed(others, tid, tid));
    while i < len
      invariant i % BLOCK == tid
      invariant localSum == Strided(AddExp(m, mx), 0.0, row, tid, BLOCK, if i < len then i else len)
      invariant win == scores[base..base + len] == HalfExp(m, row, mx, Passed(others, tid, i))
      invariant SameOutside(scores[..], old(scores[..]), base, base + len)
    {
      StridedSkip(AddExp(m, mx), 0.0, row, tid, BLOCK, i, if i + BLOCK < len then i + BLOCK else len);
      HalfExpStep(m, row, mx, others, tid, i);
      assert scores[base + i] == win[i];
      var e := m.exp(scores[base + i] - mx);
      scores[base + i] := e;
      localSum := localSum + e;
      assert scores[base..base + len] == win[i := e];
      win := win[i := e];
      SameRemainder(i, BLOCK);
      NoWrap(i, BLOCK, len);
      i := NextIndex(i, BLOCK);
    }
    SameHalfExp(m, row, mx, Passed(others, tid, i), i => others(i) || i % BLOCK == tid);
  }

  /** Everything of the finished threads, and of thread tid what lies before i. */
  ghost function Passed(others: int -> bool, tid: nat, i: nat): int -> bool {
    j => others(j) || (j % BLOCK == tid && j < i)
  }

  lemma SameHalfExp(m: Libm, row: seq<real>, mx: real, done: int -> bool, done': int -> bool)
    requires forall i :: 0 <= i < |row| ==> done(i) == done'(i)
    ensures HalfExp(m, row, mx, done) == HalfExp(m, row, mx, done')
  {
  }

  lemma HalfExpStep(m: Libm, row: seq<real>, mx: real, others: int -> bool, tid: nat, i: nat)
    requires i < |row| && i % BLOCK == tid && !others(i)
    ensures HalfExp(m, row, mx, Passed(others, tid, i))[i] == row[i]
    ensures HalfExp(m, row, mx, Passed(others, tid, i))[i := m.exp(row[i] - mx)]
         == HalfExp(m, row, mx, Passed(others, tid, i + BLOCK))
  {
  }

  method ExpPhase(m: Libm, scores: array<real>, base: nat, len: nat, mx: real, shm: array<real>) returns (sum: real)
    requires base + len <= scores.Length && len + BLOCK <= U32 && shm.Length == BLOCK && shm != scores
    modifies scores, shm
    ensures scores[base..base + len] == ExpRow(m, old(scores[base..base + len]), mx)
    ensures sum == Total(scores[base..base + len])
    ensures SameOutside(scores[..], old(scores[..]), base, base + len)
  {
    hide Strided, Total;
    ghost var row := scores[base..base + len];
    var pending := Threads(BLOCK);
    ghost var done: int -> bool := i => false;
    while pending != {}
      invariant forall t :: t in pending ==> t < BLOCK
      invariant forall i: int :: done(i) <==> i % BLOCK !in pending
      invariant scores[base..base + len] == HalfExp(m, row, mx, done)
      invariant forall t: nat :: t < BLOCK && t !in pending ==>
        shm[t] == Strided(AddExp(m, mx), 0.0, row, t, BLOCK, len)
      invariant SameOutside(scores[..], old(scores[..]), base, base + len)
      decreases pending
    {
      var tid :| tid in pending;
      var localSum := LocalExp(m, scores, base, len, mx, tid, row, done);
      shm[tid] := localSum;
      pending := pending - {tid};
      done := i => done(i) || i % BLOCK == tid;
    }
    assert HalfExp(m, row, mx, done) == ExpRow(m, row, mx);
    SumOfTree(m, row, mx, shm[..]);
    TreeReduce(shm, Plus);
    sum := shm[0];
  }

  lemma SumOfTree(m: Libm, row: seq<real>, mx: real, partials: seq<real>)
    requires |partials| == BLOCK
    requires forall t :: 0 <= t < BLOCK ==> partials[t] == Strided(AddExp(m, mx), 0.0, row, t, BLOCK, |row|)
    ensures IsPow2(BLOCK)
    ensures Tree(Plus, partials, BLOCK)[0] == Total(ExpRow(m, row, mx))
  {
    hide Strided, Tree, Sum;
    assert IsPow2(BLOCK) by { assert IsPow2(16); }
    TreeSums(partials, BLOCK);
    StridedSums(AddExp(m, mx), s => m.exp(s - mx), row, BLOCK, |row|,
                t => At(partials, t), i => At(ExpRow(m, row, mx), i));
  }

  // ---- Phase 4: normalisation ----------------------------------------------

  /** The threads' elements in any order: below the limit each is some thread's, once. */
  method ScalePhase(scores: array<real>, base: nat, len: nat, k: real)
    requires base + len <= scores.Length && len + BLOCK <= U32
    modifies scores
    ensures scores[base..base + len] == ScaleRow(old(scores[base..base + len]), k)
    ensures SameOutside(scores[..], old(scores[..]), base, base + len)
  {
    hide Mul;
    ghost var row := scores[base..base + len];
    var pending := Threads(len);
    while pending != {}
      invariant forall i :: i in pending ==> i < len
      invariant forall i: nat :: i < len ==> scores[base + i] == if i in pending then row[i] else Mul(row[i], k)
      invariant SameOutside(scores[..], old(scores[..]), base, base + len)
      decreases pending
    {
      var i :| i in pending;
      scores[base + i] := Mul(scores[base + i], k);
      pending := pending - {i};
    }
  }

  // ---- Phase 5: weighted values --------------------------------------------

  method MixChannel(c: Config, scores: array<real>, base: nat, len: nat, V: array<real>, kvOff: nat, d: nat)
      returns (acc: real)
    requires base + len <= scores.Length && Times(len, c.kvDim) <= V.Length && kvOff + d < c.kvDim
    ensures acc == Mix(c, scores[base..base + len], V[..], kvOff, d)
  {
    hide Mul;
    ghost var w, Vs := scores[base..base + len], V[..];
    ghost var term := i => Mul(At(w, i), Value(c, Vs, kvOff, d, i));
    acc := 0.0;
    for i := 0 to len
      invariant acc == Sum(term, i)
    {
      TimesIsProduct(i, c.kvDim);
      TimesOrdered(i, len, c.kvDim);
      var vBase := i * c.kvDim + kvOff;
      assert Value(c, Vs, kvOff, d, i) == V[vBase + d];
      acc := acc + Mul(scores[base + i], V[vBase + d]);
    }
  }

  /** The strided loop of one thread over the channels, and whether it ends. */
  method ThreadValues(c: Config, scores: array<real>, base: nat, len: nat, V: array<real>, kvOff: nat,
                      out: array<real>, outBase: nat, tid: nat) returns (ended: bool)
    requires base + len <= scores.Length && Times(len, c.kvDim) <= V.Length && kvOff + c.headDim <= c.kvDim
    requires outBase + c.headDim <= out.Length && out != scores && out != V && c.headDim < U32 && tid < BLOCK
    modifies out
    ensures ended <==> Ends(tid, BLOCK, c.headDim)
    ensures ended ==> forall d: nat :: d < c.headDim && d % BLOCK == tid ==>
      out[outBase + d] == Mix(c, scores[base..base + len], V[..], kvOff, d)
    ensures forall d: nat :: d < c.headDim && d % BLOCK != tid ==> out[outBase + d] == old(out[outBase + d])
    ensures SameOutside(out[..], old(out[..]), outBase, outBase + c.headDim)
  {
    hide Mix, Ends, NextIndex, Times;
    ghost var row, Vs := scores[base..base + len], V[..];
    var d := tid;
    while d < c.headDim
      invariant d % BLOCK == tid && d < U32
      invariant row == scores[base..base + len] && Vs == V[..]
      invariant forall j: nat :: j < c.headDim && j < d && j % BLOCK == tid ==>
        out[outBase + j] == Mix(c, row, Vs, kvOff, j)
      invariant forall j: nat :: j < c.headDim && j % BLOCK != tid ==> out[outBase + j] == old(out[outBase + j])
      invariant SameOutside(out[..], old(out[..]), outBase, outBase + c.headDim)
    {
      Turn(d, tid, BLOCK, c.headDim);
      var acc := MixChannel(c, scores, base, len, V, kvOff, d);
      out[outBase + d] := acc;
      var next := NextIndex(d, BLOCK);
      if next <= d {
        // As in the score loop.
        return false;
      }
      d := next;
    }
    Ended(d, tid, BLOCK, c.headDim);
    ended := true;
  }

  method ValuePhase(c: Config, scores: array<real>, base: nat, len: nat, V: array<real>, kvOff: nat,
                    out: array<real>, outBase: nat) returns (ended: bool)
    requires base + len <= scores.Length && Times(len, c.kvDim) <= V.Length && kvOff + c.headDim <= c.kvDim
    requires outBase + c.headDim <= out.Length && out != scores && out != V && c.headDim < U32
    modifies out
    ensures ended <==> c.headDim + BLOCK <= U32
    ensures ended ==> out[outBase..outBase + c.headDim] == MixRow(c, scores[base..base + len], V[..], kvOff)
    ensures SameOutside(out[..], old(out[..]), outBase, outBase + c.headDim)
  {
    hide Mix, Ends, Times;
    ghost var row := MixRow(c, scores[base..base + len], V[..], kvOff);
    var pending := Threads(BLOCK);
    AllEndExactly(BLOCK, c.headDim);
    while pending != {}
      invariant forall t :: t in pending ==> t < BLOCK
      invariant forall t: nat :: t < BLOCK && t !in pending ==> Ends(t, BLOCK, c.headDim)
      invariant forall d :: 0 <= d < |row| && d % BLOCK !in pending ==> out[outBase + d] == row[d]
      invariant SameOutside(out[..], old(out[..]), outBase, outBase + c.headDim)
      decreases pending
    {
      var tid :| tid in pending;
      ended := ThreadValues(c, scores, base, len, V, kvOff, out, outBase, tid);
      if !ended {
        return;
      }
      pending := pending - {tid};
    }
    assert out[outBase..outBase + c.headDim] == row;
    ended := true;
  }

  // ---- One block -----------------------------------------------------------

  /** No strided index of a block that attends over len rows wraps. */
  predicate StridesEnd(c: Config, len: nat) {
    len + BLOCK <= U32 && c.headDim + BLOCK <= U32
  }

  /** The five phases of a block, attending over the first len rows. It ends exactly when
      the strided loops over rows and channels do. */
  method AttendBlock(m: Libm, c: Config, q: array<real>, qOff: nat, K: array<real>, V: array<real>, kvOff: nat,
                     scores: array<real>, base: nat, len: nat, out: array<real>, outBase: nat) returns (ended: bool)
    requires 0 < len < U32 && c.headDim < U32 && qOff + c.headDim <= q.Length
    requires Times(len, c.kvDim) <= K.Length && Times(len, c.kvDim) <= V.Length && kvOff + c.headDim <= c.kvDim
    requires base + len <= scores.Length && outBase + c.headDim <= out.Length
    requires scores != q && scores != K && scores != V && out !in {q, K, V, scores}
    modifies scores, out
    ensures ended <==> StridesEnd(c, len)
    ensures ended ==> out[outBase..outBase + c.headDim] == HeadRow(m, c, q[..], qOff, K[..], V[..], kvOff, len)
    ensures SameOutside(out[..], old(out[..]), outBase, outBase + c.headDim)
  {
    hide ScoreAt, MaxSeq, Mul, Mix, Times;
    ghost var qs, Ks, Vs := q[..], K[..], V[..];
    var shmMax := new Peak[BLOCK](i => MinusInf);
    var shmSum := new real[BLOCK](i => 0.0);
    ended := ScorePhase(m, c, q, qOff, K, kvOff, scores, base, len);
    if !ended {
      return;
    }
    var mx := MaxPhase(scores, base, len, shmMax);
    var sum := ExpPhase(m, scores, base, len, mx, shmSum);
    ScalePhase(scores, base, len, InvSum(sum));
    assert scores[base..base + len] == Softmax(m, ScoreRow(m, c, qs, qOff, Ks, kvOff, len));
    ended := ValuePhase(c, scores, base, len, V, kvOff, out, outBase);
    assert ended ==> out[outBase..outBase + c.headDim] == HeadRow(m, c, qs, qOff, Ks, Vs, kvOff, len);
  }

  // ---- The grids -----------------------------------------------------------

  /** Where query head h finds its keys: reps query heads share a key head. */
  ghost predicate HeadsFit(c: Config, numQ: nat, reps: nat) {
    reps > 0 && forall h: nat :: h < numQ ==> Times(h / reps, c.headDim) + c.headDim <= c.kvDim
  }

  /** The callers take reps as the rounded-down quotient of the head counts, which nothing
      checks: every query head then finds its keys within the row if and only if the key
      heads divide the query heads. With three query heads on two key heads the third
      reads past the row. */
  lemma HeadsFitExactly(c: Config, numQ: nat, numKv: nat)
    requires numQ > 0 && numKv > 0 && c.headDim > 0 && c.kvDim == Times(numKv, c.headDim)
    ensures HeadsFit(c, numQ, numQ / numKv) <==> numQ % numKv == 0
  {
    hide Times;
    var reps := numQ / numKv;
    QuotientBounds(numQ, numKv);
    if numQ % numKv == 0 {
      forall h: nat | h < numQ
        ensures Times(h / reps, c.headDim) + c.headDim <= c.kvDim
      {
        QuotientBelow(h, reps, numKv);
        TimesOrdered(h / reps, numKv, c.headDim);
      }
    } else if reps > 0 {
      var h := reps * numKv;
      DivModUnique(h, reps, numKv, 0);
      assert Times(h / reps, c.headDim) + c.headDim > c.kvDim;
    }
  }

  lemma QuotientBounds(a: nat, b: nat)
    requires b > 0
    ensures a == a / b * b + a % b && (a / b == 0 <==> a < b)
  {
  }

  lemma QuotientBelow(h: nat, reps: nat, n: nat)
    requires reps > 0 && h < reps * n
    ensures h / reps < n
  {
    MulMonotone(n, if h / reps < n then n else h / reps, reps, reps);
  }

  /** What decode_attention must write: one row per query head. */
  ghost function DecodeRows(m: Libm, c: Config, q: seq<real>, K: seq<real>, V: seq<real>,
                            numQ: nat, reps: nat, len: nat): (r: seq<seq<real>>)
    requires reps > 0 && len > 0
    ensures |r| == numQ
  {
    seq(numQ, h requires 0 <= h < numQ =>
      HeadRow(m, c, q, Times(h, c.headDim), K, V, Times(h / reps, c.headDim), len))
  }

  /** decode_attention: one block per query head, in any order. */
  method DecodeKernel(m: Libm, c: Config, q: array<real>, K: array<real>, V: array<real>, scores: array<real>,
                      out: array<real>, numQ: nat, reps: nat, len: nat) returns (ended: bool)
    requires HeadsFit(c, numQ, reps) && c.headDim < U32 && len < U32
    requires q.Length == out.Length == Times(numQ, c.headDim) && scores.Length == Times(numQ, len)
    requires Times(len, c.kvDim) <= K.Length && Times(len, c.kvDim) <= V.Length
    requires q.Length < U32 && scores.Length < U32 && c.kvDim < U32
    requires scores != q && scores != K && scores != V && out !in {q, K, V, scores}
    modifies scores, out
    ensures ended <==> len == 0 || numQ == 0 || StridesEnd(c, len)
    ensures len == 0 ==> out[..] == old(out[..])
    ensures ended && len > 0 ==>
      WindowsDone(out[..], c.headDim, DecodeRows(m, c, q[..], K[..], V[..], numQ, reps, len), Threads(numQ))
  {
    hide HeadRow, WindowIs, SameOutside, Times, StridesEnd;
    if len == 0 {
      return true;
    }
    ghost var rows := DecodeRows(m, c, q[..], K[..], V[..], numQ, reps, len);
    var pending := Threads(numQ);
    ghost var done: set<nat> := {};
    while pending != {}
      invariant forall b: nat :: b < numQ <==> b in pending || b in done
      invariant pending !! done
      invariant WindowsDone(out[..], c.headDim, rows, done)
      invariant done == {} || StridesEnd(c, len)
      decreases pending
    {
      var h :| h in pending;
      ghost var was := out[..];
      ended := DecodeBlock(m, c, q, K, V, scores, out, numQ, reps, len, h);
      if !ended {
        return;
      }
      OneMoreWindow(was, out[..], c.headDim, rows, h, done);
      pending, done := pending - {h}, done + {h};
    }
    assert done == Threads(numQ);
    ended := true;
  }

  /** The block of query head h. */
  method DecodeBlock(m: Libm, c: Config, q: array<real>, K: array<real>, V: array<real>, scores: array<real>,
                     out: array<real>, numQ: nat, reps: nat, len: nat, h: nat) returns (ended: bool)
    requires HeadsFit(c, numQ, reps) && h < numQ && 0 < len < U32 && c.headDim < U32
    requires q.Length == out.Length == Times(numQ, c.headDim) && scores.Length == Times(numQ, len)
    requires Times(len, c.kvDim) <= K.Length && Times(len, c.kvDim) <= V.Length
    requires q.Length < U32 && scores.Length < U32 && c.kvDim < U32
    requires scores != q && scores != K && scores != V && out !in {q, K, V, scores}
    modifies scores, out
    ensures ended <==> StridesEnd(c, len)
    ensures ended ==>
      WindowIs(out[..], Times(h, c.headDim), c.headDim,
                     HeadRow(m, c, q[..], Times(h, c.headDim), K[..], V[..], Times(h / reps, c.headDim), len))
    ensures SameOutside(out[..], old(out[..]), Times(h, c.headDim), Times(h, c.headDim) + c.headDim)
  {
    hide HeadRow, MulU32, StridesEnd;
    TimesOrdered(h, numQ, c.headDim);
    TimesOrdered(h, numQ, len);
    var qOff := MulU32(h, c.headDim);
    var kvOff := MulU32(h / reps, c.headDim);
    var scoreBase := MulU32(h, len);
    ended := AttendBlock(m, c, q, qOff, K, V, kvOff, scores, scoreBase, len, out, qOff);
  }

  /** What prefill_attention must write: block b is query position b / numQ and
      head b % numQ, and attends over the rows up to its own position. */
  ghost function PrefillRow(m: Libm, c: Config, q: seq<real>, K: seq<real>, V: seq<real>,
                            numQ: nat, reps: nat, b: nat): seq<real>
    requires reps > 0 && numQ > 0
  {
    HeadRow(m, c, q, Times(b, c.headDim), K, V, Times(b % numQ / reps, c.headDim), b / numQ + 1)
  }

  ghost function PrefillRows(m: Libm, c: Config, q: seq<real>, K: seq<real>, V: seq<real>,
                             numQ: nat, reps: nat, seqLen: nat): (r: seq<seq<real>>)
    requires reps > 0 && numQ > 0
    ensures |r| == Times(seqLen, numQ)
  {
    seq(Times(seqLen, numQ), b requires 0 <= b < Times(seqLen, numQ) => PrefillRow(m, c, q, K, V, numQ, reps, b))
  }

  /** prefill_attention: one block per (head, query position), in any order. Each
      block has its own scores scratch. */
  method PrefillKernel(m: Libm, c: Config, q: array<real>, K: array<real>, V: array<real>,
                       out: array<real>, numQ: nat, reps: nat, seqLen: nat) returns (ended: bool)
    requires HeadsFit(c, numQ, reps) && numQ > 0 && seqLen < U32 && c.headDim < U32
    requires q.Length == out.Length == Times(seqLen, Times(numQ, c.headDim))
    requires Times(seqLen, c.kvDim) <= K.Length && Times(seqLen, c.kvDim) <= V.Length
    requires q.Length < U32 && c.kvDim < U32
    requires out !in {q, K, V}
    modifies out
    ensures ended <==> seqLen == 0 || StridesEnd(c, seqLen)
    ensures ended ==>
      WindowsDone(out[..], c.headDim, PrefillRows(m, c, q[..], K[..], V[..], numQ, reps, seqLen),
                        Threads(Times(seqLen, numQ)))
  {
    hide PrefillRow, WindowIs, SameOutside, StridesEnd, Times, BlockEnds;
    TimesNested(seqLen, numQ, c.headDim);
    var blocks := Offset(seqLen, numQ);
    ghost var rows := PrefillRows(m, c, q[..], K[..], V[..], numQ, reps, seqLen);
    var pending := Threads(blocks);
    ghost var done: set<nat> := {};
    while pending != {}
      invariant forall b: nat :: b < blocks <==> b in pending || b in done
      invariant pending !! done
      invariant WindowsDone(out[..], c.headDim, rows, done)
      invariant forall b: nat :: b in done ==> BlockEnds(c, numQ, b)
      decreases pending
    {
      var b :| b in pending;
      ghost var was := out[..];
      ended := PrefillBlock(m, c, q, K, V, out, numQ, reps, seqLen, b);
      if !ended {
        ShorterEnds(c, numQ, seqLen, b);
        return;
      }
      OneMoreWindow(was, out[..], c.headDim, rows, b, done);
      pending, done := pending - {b}, done + {b};
    }
    assert done == Threads(blocks);
    LastBlock(c, numQ, seqLen);
    ended := true;
  }

  /** The strided loops of block b end. */
  ghost predicate BlockEnds(c: Config, numQ: nat, b: nat)
    requires numQ > 0
  {
    StridesEnd(c, b / numQ + 1)
  }

  /** A block attends over at most all the rows; the last one does. */
  lemma ShorterEnds(c: Config, numQ: nat, seqLen: nat, b: nat)
    requires numQ > 0 && b < Times(seqLen, numQ)
    ensures seqLen > 0 && (StridesEnd(c, seqLen) ==> BlockEnds(c, numQ, b))
  {
    hide Times;
    PrefillIndices(b, b / numQ, b % numQ, seqLen, numQ, c);
  }

  lemma LastBlock(c: Config, numQ: nat, seqLen: nat)
    requires numQ > 0
    ensures seqLen > 0 ==> Times(seqLen - 1, numQ) < Times(seqLen, numQ)
    ensures seqLen > 0 && BlockEnds(c, numQ, Times(seqLen - 1, numQ)) ==> StridesEnd(c, seqLen)
  {
    if seqLen > 0 {
      TimesOrdered(seqLen - 1, seqLen, numQ);
      TimesIsProduct(seqLen - 1, numQ);
      DivModUnique(Times(seqLen - 1, numQ), numQ, seqLen - 1, 0);
    }
  }

  /** Block b: query position b / numQ, head b % numQ. */
  method PrefillBlock(m: Libm, c: Config, q: array<real>, K: array<real>, V: array<real>,
                      out: array<real>, numQ: nat, reps: nat, seqLen: nat, b: nat) returns (ended: bool)
    requires HeadsFit(c, numQ, reps) && numQ > 0 && b < Times(seqLen, numQ) && seqLen < U32 && c.headDim < U32
    requires q.Length == out.Length == Times(Times(seqLen, numQ), c.headDim)
    requires Times(seqLen, c.kvDim) <= K.Length && Times(seqLen, c.kvDim) <= V.Length
    requires q.Length < U32 && c.kvDim < U32
    requires out !in {q, K, V}
    modifies out
    ensures ended <==> BlockEnds(c, numQ, b)
    ensures ended ==>
      WindowIs(out[..], Times(b, c.headDim), c.headDim, PrefillRow(m, c, q[..], K[..], V[..], numQ, reps, b))
    ensures SameOutside(out[..], old(out[..]), Times(b, c.headDim), Times(b, c.headDim) + c.headDim)
  {
    hide Times, HeadRow, WindowIs, SameOutside, StridesEnd;
    var qi, h := b / numQ, b % numQ;
    PrefillIndices(b, qi, h, seqLen, numQ, c);
    ended := AttendAt(m, c, q, K, V, out, numQ, reps, seqLen, qi, h, b);
  }

  method AttendAt(m: Libm, c: Config, q: array<real>, K: array<real>, V: array<real>,
                  out: array<real>, numQ: nat, reps: nat, seqLen: nat, qi: nat, h: nat, ghost b: nat) returns (ended: bool)
    requires HeadsFit(c, numQ, reps) && qi < seqLen < U32 && h < numQ && c.headDim < U32
    requires Times(qi, Times(numQ, c.headDim)) + Times(h, c.headDim) == Times(b, c.headDim)
    requires Times(b, c.headDim) + c.headDim <= q.Length == out.Length
    requires Times(qi + 1, c.kvDim) <= K.Length && Times(qi + 1, c.kvDim) <= V.Length
    requires q.Length < U32 && c.kvDim < U32
    requires out !in {q, K, V}
    modifies out
    ensures ended <==> StridesEnd(c, qi + 1)
    ensures ended ==>
      WindowIs(out[..], Times(b, c.headDim), c.headDim,
                     HeadRow(m, c, q[..], Times(b, c.headDim), K[..], V[..], Times(h / reps, c.headDim), qi + 1))
    ensures SameOutside(out[..], old(out[..]), Times(b, c.headDim), Times(b, c.headDim) + c.headDim)
  {
    hide HeadRow, MulU32, StridesEnd;
    var causalLen := qi + 1;
    var qDim := Offset(numQ, c.headDim);
    var qRow := Offset(qi, qDim);
    var qOff := MulU32(h, c.headDim);
    var kvOff := MulU32(h / reps, c.headDim);
    var row := qRow + qOff;
    var scores := new real[seqLen](i => 0.0);
    ended := AttendBlock(m, c, q, row, K, V, kvOff, scores, 0, causalLen, out, row);
  }

  lemma PrefillIndices(b: nat, qi: nat, h: nat, seqLen: nat, numQ: nat, c: Config)
    requires numQ > 0 && b < Times(seqLen, numQ) && qi == b / numQ && h == b % numQ
    ensures qi < seqLen && h < numQ
    ensures Times(qi + 1, c.kvDim) <= Times(seqLen, c.kvDim)
    ensures Times(qi, Times(numQ, c.headDim)) + Times(h, c.headDim) == Times(b, c.headDim)
    ensures Times(b, c.headDim) + c.headDim <= Times(Times(seqLen, numQ), c.headDim)
  {
    var qi', h' := LocateBlock(b, seqLen, numQ);
    TimesIsProduct(qi', numQ);
    DivModUnique(b, numQ, qi', h');
    TimesOrdered(b, Times(seqLen, numQ), c.headDim);
    if qi + 1 < seqLen {
      TimesOrdered(qi + 1, seqLen, c.kvDim);
    }
    TimesNested(qi, numQ, c.headDim);
    TimesAdd(Times(qi, numQ), h, c.headDim);
  }

  // ---- The launches --------------------------------------------------------

  /** The limits that a decode launch checks. */
  ghost predicate DecodeFits(c: Config, qLen: nat, kLen: nat, vLen: nat, numQ: nat, reps: nat, len: nat) {
    && qLen == Times(numQ, c.headDim)
    && (len > 0 ==>
          && c.kvDim > 0 && reps > 0 && Times(len, c.kvDim) <= kLen && Times(len, c.kvDim) <= vLen
          && qLen < U32 && Times(numQ, len) < U32
          && numQ < U32 && c.headDim < U32 && c.kvDim < U32 && len < U32)
  }

  /** launch_decode_attention_resident_dev with scratch of its own: refused exactly when
      a limit is exceeded; zeros for an empty cache. */
  method LaunchDecode(m: Libm, c: Config, q: array<real>, K: array<real>, V: array<real>, numQ: nat, reps: nat, len: nat)
    returns (r: Launch<array<real>>)
    requires reps > 0 ==> HeadsFit(c, numQ, reps)
    ensures r.Refused? <==> !DecodeFits(c, q.Length, K.Length, V.Length, numQ, reps, len)
    ensures r.NeverEnds? <==> !r.Refused? && len > 0 && numQ > 0 && (len + 256 > U32 || c.headDim + 256 > U32)
    ensures r.Done? ==> fresh(r.out) && r.out.Length == q.Length
    ensures r.Done? && len == 0 ==> forall i :: 0 <= i < q.Length ==> r.out[i] == 0.0
    ensures r.Done? && len > 0 ==>
      WindowsDone(r.out[..], c.headDim, DecodeRows(m, c, q[..], K[..], V[..], numQ, reps, len), Threads(numQ))
  {
    hide WindowsDone, DecodeRows, HeadsFit;
    TimesIsProduct(numQ, c.headDim);
    TimesIsProduct(numQ, len);
    TimesIsProduct(len, c.kvDim);
    if q.Length != numQ * c.headDim {
      return Refused;
    }
    var result := new real[q.Length](i => 0.0);
    if len > 0 {
      if c.kvDim == 0 || reps == 0 || len * c.kvDim > K.Length || len * c.kvDim > V.Length {
        return Refused;
      }
      if q.Length >= U32 || numQ * len >= U32 || numQ >= U32 || c.headDim >= U32 || c.kvDim >= U32 || len >= U32 {
        return Refused;
      }
      var scores := new real[numQ * len](i => 0.0);
      var ended := DecodeKernel(m, c, q, K, V, scores, result, numQ, reps, len);
      if !ended {
        return NeverEnds;
      }
    }
    r := Done(result);
  }

  /** The limits that a prefill launch checks: 11520 rows of scores fit into the shared
      memory beside the reduction buffers. */
  ghost predicate PrefillFits(c: Config, qLen: nat, kLen: nat, vLen: nat, numQ: nat, reps: nat, seqLen: nat) {
    && qLen == Times(seqLen, Times(numQ, c.headDim)) && kLen == vLen == Times(seqLen, c.kvDim)
    && (seqLen > 0 ==>
          && reps > 0 && qLen < U32 && kLen < U32
          && numQ < U32 && c.headDim < U32 && c.kvDim < U32 && seqLen <= 11520)
  }

  /** launch_prefill_attention_dev. */
  method LaunchPrefill(m: Libm, c: Config, q: array<real>, K: array<real>, V: array<real>, numQ: nat, reps: nat, seqLen: nat)
    returns (r: Launch<array<real>>)
    requires numQ > 0 && (reps > 0 ==> HeadsFit(c, numQ, reps))
    ensures r.Refused? <==> !PrefillFits(c, q.Length, K.Length, V.Length, numQ, reps, seqLen)
    ensures r.NeverEnds? <==> !r.Refused? && seqLen > 0 && c.headDim + 256 > U32
    ensures r.Done? ==> fresh(r.out) && r.out.Length == q.Length
    ensures r.Done? && seqLen > 0 ==>
      WindowsDone(r.out[..], c.headDim, PrefillRows(m, c, q[..], K[..], V[..], numQ, reps, seqLen),
                  Threads(Times(seqLen, numQ)))
  {
    hide WindowsDone, PrefillRows, HeadsFit;
    TimesIsProduct(numQ, c.headDim);
    TimesIsProduct(seqLen, numQ * c.headDim);
    TimesIsProduct(seqLen, c.kvDim);
    if q.Length != seqLen * (numQ * c.headDim) || K.Length != seqLen * c.kvDim || V.Length != seqLen * c.kvDim {
      return Refused;
    }
    var result := new real[q.Length](i => 0.0);
    if seqLen > 0 {
      if reps == 0 {
        return Refused;
      }
      if q.Length >= U32 || K.Length >= U32 || numQ >= U32 || c.headDim >= U32 || c.kvDim >= U32 || seqLen >= U32 {
        return Refused;
      }
      if 256 * 8 + 256 * 4 + seqLen * 4 > 48 * 1024 {
        return Refused;
      }
      var ended := PrefillKernel(m, c, q, K, V, result, numQ, reps, seqLen);
      if !ended {
        return NeverEnds;
      }
    }
    r := Done(result);
  }

  // ---- Decoding agrees with prefilling -------------------------------------

  /** The window of head h that decoding writes at query position qi is the window
      that prefilling writes for (h, qi), whenever the caches agree on the rows up
      to qi and the decoded query is row qi of the prefilled ones. */
  lemma DecodeMatchesPrefill(m: Libm, c: Config, qRow: seq<real>, Kc: seq<real>, Vc: seq<real>,
                             q: seq<real>, K: seq<real>, V: seq<real>,
                             numQ: nat, reps: nat, seqLen: nat, qi: nat, h: nat)
    requires HeadsFit(c, numQ, reps) && qi < seqLen && h < numQ
    requires forall e :: 0 <= e < Times(numQ, c.headDim) ==> At(qRow, e) == Elem(q, Times(qi, Times(numQ, c.headDim)), e)
    requires SamePrefix(Kc, K, Times(qi + 1, c.kvDim)) && SamePrefix(Vc, V, Times(qi + 1, c.kvDim))
    ensures Times(qi, numQ) + h < Times(seqLen, numQ)
    ensures DecodeRows(m, c, qRow, Kc, Vc, numQ, reps, qi + 1)[h]
         == PrefillRows(m, c, q, K, V, numQ, reps, seqLen)[Times(qi, numQ) + h]
  {
    hide HeadRow;
    var b := Times(qi, numQ) + h;
    TimesOrdered(qi, seqLen, numQ);
    TimesIsProduct(qi, numQ);
    DivModUnique(b, numQ, qi, h);
    TimesNested(qi, numQ, c.headDim);
    TimesAdd(Times(qi, numQ), h, c.headDim);
    TimesOrdered(h, numQ, c.headDim);
    forall e | 0 <= e < c.headDim
      ensures Elem(qRow, Times(h, c.headDim), e) == Elem(q, Times(b, c.headDim), e)
    {
      assert At(qRow, Times(h, c.headDim) + e) == Elem(q, Times(qi, Times(numQ, c.headDim)), Times(h, c.headDim) + e);
    }
    HeadRowLocal(m, c, qRow, Times(h, c.headDim), Kc, Vc, q, Times(b, c.headDim), K, V, Times(h / reps, c.headDim), qi + 1);
  }
}
