/** From the final hidden state to the token: the last normalisation, the Q4_K head and
    the two-stage selection in one. */
module TokenPick {
  import opened Arith
  import opened Sums
  import opened Libm
  import opened Float32
  import opened Wrappers
  import opened Q4kMeaning
  import Windows
  import RmsNorm
  import Q = Q4kKernels
  import opened GreedyRanking
  import G = GreedyHead

  /** A Q4_K head with its final norm. */
  datatype Head = Head(bytes: seq<bv8>, hidden: nat, physicalVocab: nat, logicalVocab: nat,
                       weight: Option<seq<real>>, eps: real, offset: real, width: nat)

  /** The rows that can be picked: neither padding nor beyond the matrix. */
  function Rows(h: Head): (n: nat)
    ensures n <= h.logicalVocab && n <= h.physicalVocab && (n == h.logicalVocab || n == h.physicalVocab)
  {
    G.Min(h.logicalVocab, h.physicalVocab)
  }

  /** What a head's validation checks. */
  ghost predicate Validates(h: Head) {
    && h.hidden > 0 && h.hidden % Q.SUPER == 0 && h.physicalVocab > 0 && h.logicalVocab > 0
    && |h.bytes| >= Times(h.physicalVocab, Q.RowBytes(h.hidden))
    && (h.weight.Some? ==> |h.weight.value| == h.hidden)
  }

  method Validate(h: Head) returns (rows: Option<nat>)
    ensures rows.Some? <==> Validates(h)
    ensures rows.Some? ==> rows.value == if h.logicalVocab < h.physicalVocab then h.logicalVocab else h.physicalVocab
  {
    if h.hidden == 0 || h.hidden % 256 != 0 || h.physicalVocab == 0 || Rows(h) == 0 {
      return None;
    }
    var rowBytes := Q.RowBytes(h.hidden);
    var physicalBytes := Offset(h.physicalVocab, rowBytes);
    if |h.bytes| < physicalBytes || (h.weight.Some? && |h.weight.value| != h.hidden) {
      return None;
    }
    rows := Some(Rows(h));
  }

  // ---- What the chain computes ----------------------------------------------

  function NormOf(h: Head): RmsNorm.Norm {
    RmsNorm.Norm(h.eps, h.offset, h.weight.Some?)
  }

  function WeightOf(h: Head): seq<real> {
    if h.weight.Some? then h.weight.value else []
  }

  ghost function Normed(m: Libm, h: Head, x: seq<real>): seq<real>
    requires h.hidden > 0
  {
    RmsNorm.NormRow(m, NormOf(h), x, 0, h.hidden, WeightOf(h))
  }

  /** The normalised state: each element over the root of the mean square, times offset
      and weight where there is a weight. */
  lemma StateIsNormed(m: Libm, h: Head, x: seq<real>, j: nat)
    requires |x| == h.hidden && j < h.hidden && (h.weight.Some? ==> |h.weight.value| == h.hidden)
    requires forall a, b :: b != 0.0 ==> m.div(a, b) == a / b
    requires m.sqrt(RmsNorm.MeanSquare(x, 0, h.hidden, h.eps)) != 0.0
    ensures |Normed(m, h, x)| == h.hidden
    ensures Normed(m, h, x)[j] * m.sqrt(RmsNorm.MeanSquare(x, 0, h.hidden, h.eps))
         == x[j] * match h.weight case Some(w) => h.offset + w[j] case None => 1.0
  {
    hide RmsNorm.SumSquares, Sum;
    RmsNorm.SquaresArePlain(x, 0, h.hidden);
    assert Normed(m, h, x)[j] == RmsNorm.NormAt(m, NormOf(h), x, 0, h.hidden, WeightOf(h), j);
    RmsNorm.Unscale(x[j], m.sqrt(RmsNorm.MeanSquare(x, 0, h.hidden, h.eps)),
                    match h.weight case Some(w) => h.offset + w[j] case None => 1.0);
  }

  /** A row's score, as the model means it. */
  ghost function Logit(m: Libm, half: (bv8, bv8) -> real, h: Head, x: seq<real>, r: nat): real
    requires h.hidden > 0
  {
    RowDotProduct(half, h.bytes, Times(r, Q.RowBytes(h.hidden)), Normed(m, h, x), 0, h.hidden)
  }

  /** The scores the device computes, row offsets in 32 bits. */
  ghost function DeviceLogits(m: Libm, half: (bv8, bv8) -> real, h: Head, x: seq<real>): (s: seq<F32>)
    requires h.hidden > 0
    ensures |s| == Rows(h)
  {
    seq(Rows(h), r requires 0 <= r < Rows(h) => Fin(Q.RowResult(RealOps(half), h.bytes, Normed(m, h, x), h.hidden, r)))
  }

  ghost function TopOf(m: Libm, half: (bv8, bv8) -> real, h: Head, x: seq<real>): seq<Cand>
    requires h.hidden > 0
  {
    var logits := DeviceLogits(m, half, h, x);
    Top(Candidates(logits, 0, |logits|), G.Min(h.width, G.MAX_K))
  }

  /** run_greedy_chain_on_device, after the validation. No pick for an invalid head or a
      width of zero; the norm's kernel hangs within a block of 2^32 columns; otherwise the
      pick is the ranking of the device's scores, cut off at the width. */
  method PickToken(m: Libm, half: (bv8, bv8) -> real, h: Head, x: array<real>, cached: Option<G.GreedyHeadWorkspace>)
      returns (ws: Option<G.GreedyHeadWorkspace>, r: Launch<G.Pick>)
    requires cached.Some? ==> cached.value.Valid()
    requires x.Length == h.hidden < U32 && Rows(h) < U32
    modifies if cached.Some? then {cached.value.scores, cached.value.partialScores, cached.value.partialIds,
                                   cached.value.resultScores, cached.value.resultIds} else {}
    ensures ws.Some? ==> ws.value.Valid()
    ensures r.NeverEnds? <==> Validates(h) && h.hidden + 1024 > U32
    ensures r.Refused? <==> !Validates(h) || (!r.NeverEnds? && h.width == 0)
    ensures r.Done? ==>
      var top := TopOf(m, half, h, old(x[..])); top != [] && r.out == G.Pick(top[0].id, top[0].score, top)
    ensures r.Done? ==> r.out.tokenId < h.logicalVocab && r.out.tokenId < h.physicalVocab
    ensures r.Done? ==> forall c :: c in r.out.hits ==> c.id < h.logicalVocab && c.id < h.physicalVocab
    ensures r.Done? ==> IsLeast(|r.out.hits|, [h.width, 8, h.logicalVocab, h.physicalVocab])
  {
    hide Top, Candidates, DeviceLogits, IsLeast;
    ws := cached;
    var valid := Validate(h);
    if valid.None? {
      return ws, Refused;
    }
    var rows := valid.value;
    ghost var xs := x[..];
    var ended, normed := NormHidden(m, h, x);
    if !ended {
      return ws, NeverEnds;
    }
    var logits := HeadProduct(m, half, h, xs, normed, rows);
    var pick;
    var built;
    built, pick := G.GreedyChain(cached, logits, h.hidden, h.width);
    ws := Some(built);
    RankedRows(m, half, h, xs);
    r := if pick.Some? then Done(pick.value) else Refused;
  }

  /** As many rows are ranked as there are, up to the width and to eight. */
  lemma RankedRows(m: Libm, half: (bv8, bv8) -> real, h: Head, x: seq<real>)
    requires h.hidden > 0
    ensures var top := TopOf(m, half, h, x);
      && IsLeast(|top|, [h.width, 8, h.logicalVocab, h.physicalVocab])
      && (top == [] <==> h.width == 0 || h.logicalVocab == 0 || h.physicalVocab == 0)
      && forall c :: c in top ==> c.id < h.logicalVocab && c.id < h.physicalVocab
  {
    hide Top, Candidates;
    var logits := DeviceLogits(m, half, h, x);
    var k := G.Min(h.width, 8);
    AllRanked(logits, k);
    G.TopRows(logits, k);
    LeastOf(if k < |logits| then k else |logits|, h.width, h.logicalVocab, h.physicalVocab, |logits|);
  }

  lemma LeastOf(n: nat, width: nat, logical: nat, physical: nat, rows: nat)
    requires rows == G.Min(logical, physical) && n == G.Min(G.Min(width, 8), rows)
    ensures IsLeast(n, [width, 8, logical, physical])
  {
    var bounds := [width, 8, logical, physical];
    assert bounds[0] == width && bounds[1] == 8 && bounds[2] == logical && bounds[3] == physical;
  }

  /** The least of some numbers. */
  ghost predicate IsLeast(n: nat, bounds: seq<nat>) {
    n in bounds && forall i :: 0 <= i < |bounds| ==> n <= bounds[i]
  }

  /** The final norm: one row. */
  method NormHidden(m: Libm, h: Head, x: array<real>) returns (ended: bool, normed: array<real>)
    requires Validates(h) && x.Length == h.hidden < U32
    ensures ended <==> h.hidden + 1024 <= U32
    ensures fresh(normed) && (ended ==> normed[..] == Normed(m, h, x[..]))
  {
    var weight := new real[|WeightOf(h)|](i requires 0 <= i < |WeightOf(h)| => WeightOf(h)[i]);
    normed := new real[h.hidden](i => 0.0);
    assert weight[..] == WeightOf(h);
    ended := RmsNorm.RmsNormKernel(m, NormOf(h), x, weight, normed, 1, h.hidden, 1024);
    if ended {
      OnlyRow(m, h, x[..], normed[..]);
    }
  }

  lemma OnlyRow(m: Libm, h: Head, x: seq<real>, out: seq<real>)
    requires h.hidden > 0 && |out| == h.hidden
    requires Windows.WindowsDone(out, h.hidden, RmsNorm.NormRows(m, NormOf(h), x, 1, h.hidden, WeightOf(h)), {0})
    ensures out == Normed(m, h, x)
  {
    hide RmsNorm.NormRow;
    assert Windows.WindowIs(out, Times(0, h.hidden), h.hidden, Normed(m, h, x));
    assert out[0..h.hidden] == out;
  }

  /** The head's product with the normalised state, over the prefix of the bytes that
      holds the rows that can be picked. */
  method HeadProduct(m: Libm, half: (bv8, bv8) -> real, h: Head, ghost xs: seq<real>, normed: array<real>, rows: nat)
      returns (logits: seq<F32>)
    requires Validates(h) && rows == Rows(h) < U32 && h.hidden < U32
    requires normed.Length == h.hidden && normed[..] == Normed(m, h, xs)
    ensures logits == DeviceLogits(m, half, h, xs)
  {
    hide Q.RowResult, Normed, Times;
    var size := Offset(rows, Q.RowBytes(h.hidden));
    TimesMonotone(rows, h.physicalVocab, Q.RowBytes(h.hidden), Q.RowBytes(h.hidden));
    var w := new bv8[size](i requires 0 <= i < size => h.bytes[i]);
    assert w[..] == h.bytes[..size];
    var out := new real[rows](i => 0.0);
    Q.MatVec(RealOps(half), w, normed, out, rows, h.hidden, 128);
    forall r | 0 <= r < rows
      ensures out[r] == Q.RowResult(RealOps(half), h.bytes, Normed(m, h, xs), h.hidden, r)
    {
      PrefixRow(half, h.bytes, size, Normed(m, h, xs), h.hidden, rows, r);
    }
    logits := seq(rows, r requires 0 <= r < rows reads out => Fin(out[r]));
  }

  /** The device reads no byte beyond the prefix. */
  lemma PrefixRow(half: (bv8, bv8) -> real, bytes: seq<bv8>, size: nat, y: seq<real>, hidden: nat, rows: nat, r: nat)
    requires hidden % Q.SUPER == 0 && r < rows && Times(rows, Q.RowBytes(hidden)) == size <= |bytes|
    ensures Q.RowResult(RealOps(half), bytes[..size], y, hidden, r) == Q.RowResult(RealOps(half), bytes, y, hidden, r)
  {
    hide Q.RowAcc, RowDotProduct, MulU32, Times;
    var row := MulU32(r, Q.RowBytes(hidden));
    TimesOrdered(r, rows, Q.RowBytes(hidden));
    RowMeaning(half, bytes[..size], row, y, 0, hidden / Q.SUPER);
    RowMeaning(half, bytes, row, y, 0, hidden / Q.SUPER);
    RowLocal(half, bytes[..size], bytes, row, y, 0, hidden);
  }

  /** Real scores are all candidates: as many are ranked as there are, up to k. */
  lemma AllRanked(logits: seq<F32>, k: nat)
    requires forall i :: 0 <= i < |logits| ==> logits[i].Fin?
    ensures |Top(Candidates(logits, 0, |logits|), k)| == if k < |logits| then k else |logits|
  {
    CandidateCount(logits, |logits|);
  }

  lemma {:induction false} CandidateCount(logits: seq<F32>, n: nat)
    requires n <= |logits| && forall i :: 0 <= i < |logits| ==> logits[i].Fin?
    ensures |Candidates(logits, 0, n)| == n
  {
    if n > 0 {
      CandidateCount(logits, n - 1);
      assert Candidates(logits, 0, n) == Candidates(logits, 0, n - 1) + {Cand(logits[n - 1].v, n - 1)};
    }
  }

  // ---- Which row the pick is -------------------------------------------------

  /** Row t is a row of the logical vocabulary, and of these and those of the matrix none
      has a higher score; of several with the highest, it is the first. */
  ghost predicate IsBestRow(m: Libm, half: (bv8, bv8) -> real, h: Head, x: seq<real>, t: nat)
    requires h.hidden > 0
  {
    t < h.logicalVocab && t < h.physicalVocab && forall r: nat :: r < h.logicalVocab && r < h.physicalVocab ==>
      Logit(m, half, h, x, r) < Logit(m, half, h, x, t) || (Logit(m, half, h, x, r) == Logit(m, half, h, x, t) && t <= r)
  }

  ghost predicate PicksBest(m: Libm, half: (bv8, bv8) -> real, h: Head, x: seq<real>)
    requires h.hidden > 0
  {
    var top := TopOf(m, half, h, x);
    top != [] && IsBestRow(m, half, h, x, top[0].id)
  }

  /** No row that can be picked starts beyond 32 bits. */
  ghost predicate OffsetsFit(logicalVocab: nat, physicalVocab: nat, hidden: nat) {
    forall r: nat :: r < logicalVocab && r < physicalVocab ==> Times(r, Q.RowBytes(hidden)) < U32
  }

  /** Where the rows' byte offsets fit 32 bits, the device's scores are the meant
      ones: the pick is the first best row, its hits are rows with their scores in
      descending order, and no row that is not among them comes before one that is. */
  lemma PickIsBest(m: Libm, half: (bv8, bv8) -> real, h: Head, x: seq<real>)
    requires Validates(h) && h.width > 0 && OffsetsFit(h.logicalVocab, h.physicalVocab, h.hidden)
    ensures PicksBest(m, half, h, x)
    ensures StrictlyRanked(TopOf(m, half, h, x))
    ensures forall c :: c in TopOf(m, half, h, x) ==>
      c.id < h.logicalVocab && c.id < h.physicalVocab && c.score == Logit(m, half, h, x, c.id)
    ensures forall r: nat, c :: r < h.logicalVocab && r < h.physicalVocab && c in TopOf(m, half, h, x) ==>
      Cand(Logit(m, half, h, x, r), r) in TopOf(m, half, h, x) || Outranks(c, Cand(Logit(m, half, h, x, r), r))
  {
    hide Logit, DeviceLogits, Rank;
    var logits := DeviceLogits(m, half, h, x);
    var C := Candidates(logits, 0, |logits|);
    var k := G.Min(h.width, G.MAX_K);
    forall r: nat | r < Rows(h)
      ensures logits[r] == Fin(Logit(m, half, h, x, r)) && Cand(Logit(m, half, h, x, r), r) in C
    {
      FittingLogit(m, half, h, x, r);
    }
    RankIsSorted(C);
    assert forall i :: 0 <= i < |logits| ==> logits[i].Fin?;
    AllRanked(logits, k);
    TopIsPrefix(C, k);
    var top := Top(C, k);
    assert forall c :: c in top ==> c in Rank(C) && c in C;
    assert top[0] in Rank(C);
    forall r: nat | r < Rows(h)
      ensures var c := Cand(Logit(m, half, h, x, r), r);
        (c == top[0] || Outranks(top[0], c)) && (c in top || forall b :: b in top ==> Outranks(b, c))
    {
      var c := Cand(Logit(m, half, h, x, r), r);
      assert c in Rank(C);
    }
  }

  lemma TopIsPrefix(C: set<Cand>, k: nat)
    ensures Top(C, k) <= Rank(C)
  {
  }

  lemma FittingLogit(m: Libm, half: (bv8, bv8) -> real, h: Head, x: seq<real>, r: nat)
    requires Validates(h) && r < Rows(h) && Times(r, Q.RowBytes(h.hidden)) < U32
    ensures DeviceLogits(m, half, h, x)[r] == Fin(Logit(m, half, h, x, r))
  {
    hide Q.RowResult, RowDotProduct, Normed;
    MatVecMeaning(half, h.bytes, Normed(m, h, x), h.hidden, r);
  }

  ghost predicate HasShape(h: Head, hidden: nat, logical: nat, physical: nat, width: nat) {
    h.hidden == hidden && h.logicalVocab == logical && h.physicalVocab == physical && h.width == width
  }

  /** For a shape of head, the pick is the first best row for all weights, norms and
      hidden states if and only if the rows' byte offsets fit 32 bits. "one" is any
      half-precision pattern that decodes to a positive number. */
  lemma PickExact(m: Libm, half: (bv8, bv8) -> real, one: (bv8, bv8), hidden: nat, logical: nat, physical: nat, width: nat)
    requires half(0, 0) == 0.0 && half(one.0, one.1) > 0.0
    requires forall a, b :: b != 0.0 ==> m.div(a, b) == a / b
    requires forall v :: v > 0.0 ==> m.sqrt(v) > 0.0
    requires 0 < hidden < U32 && hidden % Q.SUPER == 0 && logical > 0 && physical > 0 && width > 0
    ensures OffsetsFit(logical, physical, hidden) <==>
      forall h: Head, x: seq<real> ::
        Validates(h) && HasShape(h, hidden, logical, physical, width) && |x| == hidden ==> PicksBest(m, half, h, x)
  {
    hide PicksBest, Validates, Times;
    if OffsetsFit(logical, physical, hidden) {
      forall h: Head, x: seq<real> | Validates(h) && HasShape(h, hidden, logical, physical, width) && |x| == hidden
        ensures PicksBest(m, half, h, x)
      {
        PickIsBest(m, half, h, x);
      }
    } else {
      var r: nat :| r < logical && r < physical && Times(r, Q.RowBytes(hidden)) >= U32;
      var h := LastRowHead(one, hidden, logical, physical, width);
      TimesMonotone(r, Rows(h) - 1, Q.RowBytes(hidden), Q.RowBytes(hidden));
      LastRowValidates(one, hidden, logical, physical, width);
      LastRowMissed(m, half, one, h);
      assert |UnitX(hidden, 0)| == hidden;
    }
  }

  /** A head whose only weight is the first of the last row that can be picked. */
  ghost function LastRowHead(one: (bv8, bv8), hidden: nat, logical: nat, physical: nat, width: nat): Head
    requires logical > 0 && physical > 0
  {
    Head(OneWeight(one, Times(physical, Q.RowBytes(hidden)), Times(G.Min(logical, physical) - 1, Q.RowBytes(hidden))),
         hidden, physical, logical, None, 0.0, 0.0, width)
  }

  /** Such a head, in terms of its own fields. */
  ghost predicate IsLastRowHead(one: (bv8, bv8), h: Head) {
    && Validates(h) && h.weight == None && h.eps == 0.0 && h.width > 0 && h.hidden < U32
    && |h.bytes| == Times(h.physicalVocab, Q.RowBytes(h.hidden))
    && Times(Rows(h) - 1, Q.RowBytes(h.hidden)) + Q.RowBytes(h.hidden) <= |h.bytes|
    && h.bytes == OneWeight(one, |h.bytes|, Times(Rows(h) - 1, Q.RowBytes(h.hidden)))
  }

  lemma LastRowValidates(one: (bv8, bv8), hidden: nat, logical: nat, physical: nat, width: nat)
    requires 0 < hidden < U32 && hidden % Q.SUPER == 0 && logical > 0 && physical > 0 && width > 0
    ensures IsLastRowHead(one, LastRowHead(one, hidden, logical, physical, width))
  {
    hide OneWeight, Times;
    TimesOrdered(G.Min(logical, physical) - 1, physical, Q.RowBytes(hidden));
  }

  /** Its last row scores a positive number; the device scores every row zero. */
  lemma LastRowMissed(m: Libm, half: (bv8, bv8) -> real, one: (bv8, bv8), h: Head)
    requires half(0, 0) == 0.0 && half(one.0, one.1) > 0.0
    requires forall a, b :: b != 0.0 ==> m.div(a, b) == a / b
    requires forall v :: v > 0.0 ==> m.sqrt(v) > 0.0
    requires IsLastRowHead(one, h) && Times(Rows(h) - 1, Q.RowBytes(h.hidden)) >= U32
    ensures !PicksBest(m, half, h, UnitX(h.hidden, 0))
  {
    hide Validates, Times, Logit, DeviceLogits, Rank, TopOf, OneWeight;
    var x := UnitX(h.hidden, 0);
    assert h.hidden > 0 && Rows(h) > 0 by { InRange(h); }
    LastRowCounts(m, half, one, h);
    forall r: nat | r < Rows(h)
      ensures DeviceLogits(m, half, h, x)[r] == Fin(0.0)
    {
      DeviceMisses(m, half, one, h, r);
    }
    ZerosPickFirst(m, half, h, x);
    FirstRowEmpty(m, half, one, h);
  }

  lemma InRange(h: Head)
    requires Validates(h)
    ensures h.hidden > 0 && h.hidden % Q.SUPER == 0 && Rows(h) > 0
  {
  }

  lemma UnitNormed(m: Libm, h: Head)
    requires forall a, b :: b != 0.0 ==> m.div(a, b) == a / b
    requires forall v :: v > 0.0 ==> m.sqrt(v) > 0.0
    requires h.hidden > 0 && h.eps == 0.0 && h.weight == None
    ensures var y := Normed(m, h, UnitX(h.hidden, 0));
      |y| == h.hidden && y[0] > 0.0 && forall c :: 0 < c < |y| ==> y[c] == 0.0
  {
    var x := UnitX(h.hidden, 0);
    var square := j => Mul(Elem(x, 0, j), Elem(x, 0, j));
    var none := (j: int) => 0.0;
    forall j | 0 <= j < h.hidden && j != 0
      ensures none(j) == square(j)
    {
      assert Elem(x, 0, j) == 0.0;
    }
    SumZero(none, h.hidden);
    SumUpdate(none, square, h.hidden, 0);
    assert RmsNorm.SumSquares(x, 0, h.hidden) == 1.0;
    var y := Normed(m, h, x);
    forall c | 0 <= c < h.hidden
      ensures y[c] == RmsNorm.NormAt(m, NormOf(h), x, 0, h.hidden, [], c)
    {
    }
  }

  /** The meant score of the last row. */
  lemma LastRowCounts(m: Libm, half: (bv8, bv8) -> real, one: (bv8, bv8), h: Head)
    requires half(0, 0) == 0.0 && half(one.0, one.1) > 0.0
    requires forall a, b :: b != 0.0 ==> m.div(a, b) == a / b
    requires forall v :: v > 0.0 ==> m.sqrt(v) > 0.0
    requires IsLastRowHead(one, h)
    ensures Logit(m, half, h, UnitX(h.hidden, 0), Rows(h) - 1) > 0.0
  {
    hide Times, RowDotProduct, Normed, OneWeight;
    var y := Normed(m, h, UnitX(h.hidden, 0));
    UnitNormed(m, h);
    forall c | 0 <= c < h.hidden && c != 0
      ensures Elem(y, 0, c) == 0.0
    {
    }
    OneWeightRow(half, one, |h.bytes|, Times(Rows(h) - 1, Q.RowBytes(h.hidden)), 0, y, 0, h.hidden);
    assert Elem(y, 0, 0) > 0.0;
  }

  /** What the device reads for any row are zeros. */
  lemma DeviceMisses(m: Libm, half: (bv8, bv8) -> real, one: (bv8, bv8), h: Head, r: nat)
    requires half(0, 0) == 0.0 && IsLastRowHead(one, h) && r < Rows(h)
    requires Times(Rows(h) - 1, Q.RowBytes(h.hidden)) >= U32
    ensures DeviceLogits(m, half, h, UnitX(h.hidden, 0))[r] == Fin(0.0)
  {
    hide Times, Q.RowAcc, Normed, OneWeight, MulU32;
    var y, b := Normed(m, h, UnitX(h.hidden, 0)), Q.RowBytes(h.hidden);
    if r == Rows(h) - 1 {
      WrappedRow(half, one, |h.bytes|, h.hidden, r, y, 0);
    } else {
      TimesOrdered(r, Rows(h) - 1, b);
      MissedRow(half, one, |h.bytes|, Times(Rows(h) - 1, b), MulU32(r, b), h.hidden, y, 0);
    }
  }

  /** Of equal scores the first row is picked. */
  lemma ZerosPickFirst(m: Libm, half: (bv8, bv8) -> real, h: Head, x: seq<real>)
    requires h.hidden > 0 && Rows(h) > 0 && h.width > 0
    requires forall r: nat :: r < Rows(h) ==> DeviceLogits(m, half, h, x)[r] == Fin(0.0)
    ensures TopOf(m, half, h, x) != [] && TopOf(m, half, h, x)[0].id == 0
  {
    hide DeviceLogits, Rank;
    var logits := DeviceLogits(m, half, h, x);
    var C := Candidates(logits, 0, |logits|);
    var k := G.Min(h.width, G.MAX_K);
    assert forall i :: 0 <= i < |logits| ==> logits[i] == Fin(0.0);
    AllRanked(logits, k);
    RankIsSorted(C);
    TopIsPrefix(C, k);
    assert logits[0] == Fin(0.0);
    var first := Top(C, k)[0];
    assert first in Rank(C) && first in C;
    assert Cand(0.0, 0) in C && Cand(0.0, 0) in Rank(C);
  }

  /** The first row's meant score is zero. */
  lemma FirstRowEmpty(m: Libm, half: (bv8, bv8) -> real, one: (bv8, bv8), h: Head)
    requires half(0, 0) == 0.0 && IsLastRowHead(one, h)
    requires Times(Rows(h) - 1, Q.RowBytes(h.hidden)) >= U32
    ensures Rows(h) > 1 && Logit(m, half, h, UnitX(h.hidden, 0), 0) == 0.0
  {
    hide Q.RowAcc, Normed, OneWeight, RowDotProduct;
    var y, b := Normed(m, h, UnitX(h.hidden, 0)), Q.RowBytes(h.hidden);
    NoTimes(b);
    assert Rows(h) > 1;
    TimesOrdered(0, Rows(h) - 1, b);
    MissedRow(half, one, |h.bytes|, Times(Rows(h) - 1, b), 0, h.hidden, y, 0);
    RowMeaning(half, h.bytes, 0, y, 0, h.hidden / Q.SUPER);
  }
}
