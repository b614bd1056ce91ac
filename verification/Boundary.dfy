/** What a boundary frame says about itself, and what a receiver may do with it. */
module BoundaryFrames {
  import opened Wrappers

  datatype Compression = Uncompressed | Int8Clip3Sigma | Int8Absmax | Int4Clip3Sigma

  datatype Contract = Exact | DistributionFaithful | DistributionSimilar | ArgmaxEquivalent
    | ArgmaxNearEquivalentHighMargin | ArgmaxNearEquivalentLowMargin | CandidateSet | Calibrating | Unknown

  datatype Agreement = NotChecked | Agrees | Disagrees

  predicate ContractContinues(c: Contract) {
    c.Exact? || c.DistributionFaithful? || c.DistributionSimilar? || c.ArgmaxEquivalent? || c.ArgmaxNearEquivalentHighMargin?
  }

  predicate ContractRoutes(c: Contract) {
    ContractContinues(c) || c.ArgmaxNearEquivalentLowMargin? || c.CandidateSet?
  }

  predicate IsHardReject(a: Agreement) {
    a.Disagrees? || a.NotChecked?
  }

  /** The fields of a frame that the safety predicates read. */
  datatype Frame = Frame(compression: Compression, contract: Contract, rawTop1: nat, compressedTop1: Option<nat>,
                         agreement: Agreement, codecFragile: bool)

  predicate IsSafeForContinuation(f: Frame) {
    if f.contract.Calibrating? then false
    else if f.codecFragile || IsHardReject(f.agreement) then false
    else ContractContinues(f.contract)
  }

  predicate IsSafeForRouting(f: Frame) {
    if f.contract.Calibrating? then false
    else if f.codecFragile then false
    else if !f.compression.Uncompressed? && IsHardReject(f.agreement) then false
    else ContractRoutes(f.contract)
  }

  /** Continuation is the stronger promise, by exactly an agreement that was checked and
      a contract that reaches beyond one token. */
  lemma ContinuationVersusRouting(f: Frame)
    ensures IsSafeForContinuation(f) <==>
      IsSafeForRouting(f) && f.agreement == Agrees && !f.contract.ArgmaxNearEquivalentLowMargin? && !f.contract.CandidateSet?
    ensures IsSafeForRouting(f) <==>
      !f.codecFragile && f.contract !in {Calibrating, Unknown} && (f.compression == Uncompressed || f.agreement == Agrees)
  {
  }
}

/** Confidence readings of one boundary, computed from its logits. */
module BoundaryMetadata {
  import opened Arith
  import opened Sums
  import opened Float32
  import opened BoundaryFrames
  import opened Wrappers

  datatype Readings = Readings(rawTop1: nat, compressedTop1: Option<nat>, agreement: Agreement,
                               logitMargin: real, logProbMargin: real, top1Prob: real, codecFragile: bool)

  /** The one field that the gate updates is a variable. */
  class Metadata {
    const readings: Readings
    var boundaryFragile: bool

    constructor (readings: Readings)
      ensures this.readings == readings && !boundaryFragile
    {
      this.readings := readings;
      boundaryFragile := false;
    }
  }

  // ---- The helpers ----------------------------------------------------------

  ghost predicate IsMax(l: seq<real>, i: nat) {
    i < |l| && forall j :: 0 <= j < |l| ==> l[j] <= l[i]
  }

  /** Index i alone holds the largest logit. */
  ghost predicate IsUniqueMax(l: seq<real>, i: nat) {
    i < |l| && forall j :: 0 <= j < |l| && j != i ==> l[j] < l[i]
  }

  ghost predicate IsFirstMax(l: seq<real>, i: nat) {
    IsMax(l, i) && forall j :: 0 <= j < i ==> l[j] < l[i]
  }

  ghost predicate IsLastMax(l: seq<real>, i: nat) {
    IsMax(l, i) && forall j :: i < j < |l| ==> l[j] < l[i]
  }

  /** The largest of the others; with a single entry, that entry itself. */
  ghost predicate IsRunnerUp(l: seq<real>, top: nat, i: nat) {
    i < |l| && (|l| > 1 ==> i != top) && forall j :: 0 <= j < |l| && j != top ==> l[j] <= l[i]
  }

  /** One pass with two running bests. A tie keeps the earlier index on top. */
  method Top2ByLogit(l: seq<real>) returns (top1: nat, top2: nat)
    requires |l| > 0
    ensures IsFirstMax(l, top1) && IsRunnerUp(l, top1, top2)
  {
    var best, second := (0, NegInf), (0, NegInf);
    for i := 0 to |l|
      invariant 0 <= best.0 && 0 <= second.0 && (i == 0 ==> best == (0, NegInf)) && (i <= 1 ==> second == (0, NegInf))
      invariant i > 0 ==> best.0 < i && best.1 == Fin(l[best.0])
      invariant i > 0 ==> forall j :: 0 <= j < i ==> l[j] <= l[best.0] && (j < best.0 ==> l[j] < l[best.0])
      invariant i > 1 ==> second.0 < i && second.0 != best.0 && second.1 == Fin(l[second.0])
      invariant i > 1 ==> forall j :: 0 <= j < i && j != best.0 ==> l[j] <= l[second.0]
    {
      if Gt(Fin(l[i]), best.1) {
        second := best;
        best := (i, Fin(l[i]));
      } else if Gt(Fin(l[i]), second.1) {
        second := (i, Fin(l[i]));
      }
    }
    top1, top2 := best.0, second.0;
  }

  /** The last index that holds the largest logit: the iterator keeps the later of
      equal elements. */
  function ArgMax(l: seq<real>): (i: nat)
    requires |l| > 0
    ensures IsLastMax(l, i)
  {
    if |l| == 1 then 0
    else
      var best := ArgMax(l[..|l| - 1]);
      if l[|l| - 1] >= l[best] then |l| - 1 else best
  }

  /** exp and ln are whatever the device computes. */
  datatype Libm = Libm(exp: real -> real, ln: real -> real)

  function Largest(l: seq<real>): real
    requires |l| > 0
  {
    l[ArgMax(l)]
  }

  /** log_softmax at i. */
  function LogProb(m: Libm, l: seq<real>, i: nat): real
    requires i < |l|
  {
    var max := Largest(l);
    l[i] - max - m.ln(Sum(j => m.exp(At(l, j) - max), |l|))
  }

  // ---- compute --------------------------------------------------------------

  /** What the readings of a boundary say. */
  ghost predicate Describe(m: Libm, raw: seq<real>, hat: Option<seq<real>>, r: Readings) {
    |raw| > 0 && (hat.Some? ==> |hat.value| == |raw|)
    && exists top1: nat, top2: nat ::
      && IsFirstMax(raw, top1) && IsRunnerUp(raw, top1, top2)
      && r.rawTop1 == top1 % U32
      && r.logitMargin == raw[top1] - raw[top2]
      && r.logProbMargin == LogProb(m, raw, top1) - LogProb(m, raw, top2)
      && r.top1Prob == m.exp(LogProb(m, raw, top1))
      && r.codecFragile == r.agreement.Disagrees?
      && match hat
         case None => r.compressedTop1 == None && r.agreement == NotChecked
         case Some(h) =>
           && r.compressedTop1 == Some(ArgMax(h) % U32)
           && r.agreement == if ArgMax(h) == top1 then Agrees else Disagrees
  }

  /** None where the code panics: no logits, or vocabularies of different size. */
  method Compute(m: Libm, raw: seq<real>, hat: Option<seq<real>>) returns (r: Option<Metadata>)
    ensures r.Some? <==> |raw| > 0 && (hat.Some? ==> |hat.value| == |raw|)
    ensures r.Some? ==> fresh(r.value) && !r.value.boundaryFragile && Describe(m, raw, hat, r.value.readings)
  {
    if |raw| == 0 || (hat.Some? && |hat.value| != |raw|) {
      return None;
    }
    var top1, top2 := Top2ByLogit(raw);
    var compressed, agreement := None, NotChecked;
    if hat.Some? {
      var hatTop1 := ArgMax(hat.value);
      compressed := Some(hatTop1 % U32);
      agreement := if hatTop1 == top1 then Agrees else Disagrees;
    }
    var readings := Readings(top1 % U32, compressed, agreement, raw[top1] - raw[top2],
                             LogProb(m, raw, top1) - LogProb(m, raw, top2), m.exp(LogProb(m, raw, top1)),
                             agreement.Disagrees?);
    assert Describe(m, raw, hat, readings);
    var metadata := new Metadata(readings);
    r := Some(metadata);
  }

  // ---- What the readings mean -----------------------------------------------

  /** The softmax drops out of the margin: in log-probabilities it is what it is in
      logits, never negative, and zero exactly for a tie or a single entry. */
  lemma MarginsAgree(m: Libm, raw: seq<real>, hat: Option<seq<real>>, r: Readings)
    requires Describe(m, raw, hat, r)
    ensures r.logProbMargin == r.logitMargin >= 0.0
    ensures r.logitMargin > 0.0 <==> |raw| > 1 && exists i: nat :: IsUniqueMax(raw, i)
  {
    var top1: nat, top2: nat :| IsFirstMax(raw, top1) && IsRunnerUp(raw, top1, top2)
      && r.logitMargin == raw[top1] - raw[top2] && r.logProbMargin == LogProb(m, raw, top1) - LogProb(m, raw, top2);
    if r.logitMargin > 0.0 {
      assert IsUniqueMax(raw, top1);
    }
    if i: nat :| |raw| > 1 && IsUniqueMax(raw, i) {
      assert i == top1;
    }
  }

  /** exp is positive, turns differences into quotients, and is undone by ln. */
  ghost predicate Logarithmic(m: Libm) {
    && (forall x :: m.exp(x) > 0.0)
    && (forall x, y :: m.exp(x - y) * m.exp(y) == m.exp(x))
    && forall y :: y > 0.0 ==> m.exp(m.ln(y)) == y
  }

  /** The plain softmax mass. */
  ghost function Mass(m: Libm, l: seq<real>): real {
    Sum(j => m.exp(At(l, j)), |l|)
  }

  lemma MassShifts(m: Libm, l: seq<real>, shift: real)
    requires Logarithmic(m)
    ensures Mul(m.exp(shift), Sum(j => m.exp(At(l, j) - shift), |l|)) == Mass(m, l)
  {
    forall j: int
      ensures m.exp(At(l, j)) == Mul(m.exp(shift), m.exp(At(l, j) - shift))
    {
    }
    SumScale(m.exp(shift), j => m.exp(At(l, j) - shift), j => m.exp(At(l, j)), |l|);
  }

  lemma SumOfExpPositive(m: Libm, l: seq<real>, shift: real)
    requires Logarithmic(m) && |l| > 0
    ensures Sum(j => m.exp(At(l, j) - shift), |l|) > 0.0
  {
    var f := j => m.exp(At(l, j) - shift);
    assert f(0) > 0.0;
    SumSign(f, |l|);
  }

  /** exp of a log-probability is the entry's share of the mass. */
  lemma ProbIsShare(m: Libm, l: seq<real>, i: nat)
    requires Logarithmic(m) && i < |l|
    ensures Mul(m.exp(LogProb(m, l, i)), Mass(m, l)) == m.exp(l[i])
  {
    hide Mul, Sum, Largest;
    var max := Largest(l);
    var s := Sum(j => m.exp(At(l, j) - max), |l|);
    SumOfExpPositive(m, l, max);
    MassShifts(m, l, max);
    Share(m, l[i], max, s);
  }

  lemma Share(m: Libm, x: real, max: real, s: real)
    requires Logarithmic(m) && s > 0.0
    ensures Mul(m.exp(x - max - m.ln(s)), Mul(m.exp(max), s)) == m.exp(x)
  {
    var p := m.exp(x - max - m.ln(s));
    assert p * m.exp(m.ln(s)) == m.exp(x - max);
    assert m.exp(x - max) * m.exp(max) == m.exp(x);
    Regroup(p, m.exp(max), s);
  }

  lemma Regroup(p: real, e: real, s: real)
    ensures Mul(p, Mul(e, s)) == p * s * e
  {
  }

  /** An entry is at most the mass, and all of it only when it is alone. */
  lemma ShareOfMass(m: Libm, l: seq<real>, i: nat)
    requires Logarithmic(m) && i < |l|
    ensures 0.0 < m.exp(l[i]) <= Mass(m, l)
    ensures m.exp(l[i]) == Mass(m, l) <==> |l| == 1
  {
    hide Sum;
    var f := j => m.exp(At(l, j));
    var others := j => if j == i then 0.0 else f(j);
    SumUpdate(others, f, |l|, i);
    forall j | 0 <= j < |l|
      ensures others(j) >= 0.0 && (j != i ==> others(j) > 0.0)
    {
    }
    SumSign(others, |l|);
    if |l| > 1 {
      var j := if i == 0 then 1 else 0;
      assert others(j) > 0.0;
    } else {
      SumZero(others, |l|);
    }
  }

  /** The reported probability is the top entry's share of the plain softmax mass: above
      zero, and one only for a single entry. */
  lemma TopProbIsShare(m: Libm, raw: seq<real>, hat: Option<seq<real>>, r: Readings, top: nat)
    requires Describe(m, raw, hat, r) && Logarithmic(m) && IsFirstMax(raw, top)
    ensures r.top1Prob * Sum(j => m.exp(At(raw, j)), |raw|) == m.exp(raw[top])
    ensures Mul(r.top1Prob, Mass(m, raw)) == m.exp(raw[top])
    ensures 0.0 < r.top1Prob <= 1.0
    ensures r.top1Prob == 1.0 <==> |raw| == 1
  {
    hide LogProb, Sum, Describe, IsFirstMax;
    DescribedProb(m, raw, hat, r, top);
    ProbIsShare(m, raw, top);
    ShareOfMass(m, raw, top);
    ShareBounds(r.top1Prob, Mass(m, raw), m.exp(raw[top]));
  }

  lemma DescribedProb(m: Libm, raw: seq<real>, hat: Option<seq<real>>, r: Readings, top: nat)
    requires Describe(m, raw, hat, r) && IsFirstMax(raw, top)
    ensures top < |raw| && r.top1Prob == m.exp(LogProb(m, raw, top))
  {
    hide LogProb, IsRunnerUp;
    var top1: nat :| IsFirstMax(raw, top1) && r.top1Prob == m.exp(LogProb(m, raw, top1));
    assert top1 == top;
  }

  lemma ShareBounds(p: real, s: real, e: real)
    requires Mul(p, s) == e && 0.0 < e <= s
    ensures p * s == e && 0.0 < p <= 1.0
    ensures p == 1.0 <==> e == s
  {
    assert p == e / s;
  }

  /** The same logits on both sides agree exactly when their maximum is unique: the raw
      side keeps the first of equal maxima, the compressed side the last. */
  lemma SelfAgreement(m: Libm, raw: seq<real>, r: Readings)
    requires Describe(m, raw, Some(raw), r)
    ensures r.agreement == Agrees <==> exists i: nat :: IsUniqueMax(raw, i)
  {
    var top1: nat :| IsFirstMax(raw, top1) && (r.agreement == if ArgMax(raw) == top1 then Agrees else Disagrees);
    if r.agreement == Agrees {
      assert IsUniqueMax(raw, top1);
    }
    if i: nat :| IsUniqueMax(raw, i) {
      assert ArgMax(raw) == i == top1;
    }
  }

  ghost predicate Within(l: seq<real>, raw: seq<real>, radius: real) {
    |l| == |raw| && forall i :: 0 <= i < |raw| ==> -radius < l[i] - raw[i] < radius
  }

  /** No change of less than the radius in any entry can move the argmax. */
  ghost predicate Robust(raw: seq<real>, top: nat, radius: real) {
    forall l: seq<real> :: Within(l, raw, radius) ==> IsUniqueMax(l, top)
  }

  /** The margin is the exact measure of robustness: twice the radius. */
  lemma RobustExactlyToHalfTheMargin(raw: seq<real>, top1: nat, top2: nat, radius: real)
    requires |raw| > 1 && IsFirstMax(raw, top1) && IsRunnerUp(raw, top1, top2) && radius > 0.0
    ensures Robust(raw, top1, radius) <==> raw[top1] - raw[top2] >= 2.0 * radius
  {
    if raw[top1] - raw[top2] >= 2.0 * radius {
      forall l: seq<real> | Within(l, raw, radius)
        ensures IsUniqueMax(l, top1)
      {
        forall j | 0 <= j < |l| && j != top1
          ensures l[j] < l[top1]
        {
          assert -radius < l[top1] - raw[top1] && l[j] - raw[j] < radius;
        }
      }
    } else {
      var half := (raw[top1] - raw[top2]) / 2.0;
      var l := raw[top1 := raw[top1] - half][top2 := raw[top2] + half];
      assert Within(l, raw, radius);
      assert l[top2] == l[top1];
      assert !IsUniqueMax(l, top1);
    }
  }
}

/** The per-boundary gate. */
module BoundaryGate {
  import opened Arith
  import opened Sums
  import opened BoundaryFrames
  import opened BoundaryMetadata
  import opened Wrappers

  datatype FallbackPolicy = NoFallback | Bf16Boundary | ColdReplay | RejectIfUnsafe

  datatype Config = Config(minLogProbMargin: real, minTop1Prob: real, requireAgreement: bool,
                           fallback: FallbackPolicy, calibrating: bool)

  datatype Decision = CompressedOk(contract: Contract) | UseBf16 | UseColdReplay | Reject

  predicate IsFragile(r: Readings, c: Config) {
    r.logProbMargin < c.minLogProbMargin || r.top1Prob < c.minTop1Prob
  }

  function ToFallback(c: Config): Decision {
    match c.fallback
    case NoFallback => Reject
    case RejectIfUnsafe => Reject
    case Bf16Boundary => UseBf16
    case ColdReplay => UseColdReplay
  }

  /** The compressed frame is accepted in no other case than this. */
  ghost predicate Accepts(r: Readings, c: Config) {
    !c.calibrating && (c.requireAgreement ==> r.agreement == Agrees)
    && r.logProbMargin >= c.minLogProbMargin && r.top1Prob >= c.minTop1Prob
  }

  method Apply(metadata: Metadata, c: Config) returns (d: Decision)
    modifies metadata`boundaryFragile
    ensures d.CompressedOk? <==> Accepts(metadata.readings, c)
    ensures d.CompressedOk? ==> d.contract == ArgmaxNearEquivalentHighMargin && !metadata.boundaryFragile
    ensures c.calibrating ==> d == UseBf16
    ensures !c.calibrating && !d.CompressedOk? ==>
      && (d == UseBf16 <==> c.fallback == Bf16Boundary) && (d == UseColdReplay <==> c.fallback == ColdReplay)
      && (d == Reject <==> c.fallback in {NoFallback, RejectIfUnsafe})
    ensures metadata.boundaryFragile <==>
      IsFragile(metadata.readings, c) && (c.calibrating || !c.requireAgreement || metadata.readings.agreement == Agrees)
  {
    if c.calibrating {
      metadata.boundaryFragile := IsFragile(metadata.readings, c);
      return UseBf16;
    }
    if c.requireAgreement && !metadata.readings.agreement.Agrees? {
      metadata.boundaryFragile := false;
      return ToFallback(c);
    }
    metadata.boundaryFragile := IsFragile(metadata.readings, c);
    if metadata.boundaryFragile {
      return ToFallback(c);
    }
    d := CompressedOk(ArgmaxNearEquivalentHighMargin);
  }

  /** Acceptance means robustness. With a positive threshold, every logit vector within
      half of it per entry has the same unique argmax, the raw one; a checked codec has
      it too. */
  lemma AcceptedIsRobust(m: Libm, raw: seq<real>, hat: Option<seq<real>>, r: Readings, c: Config)
    requires Describe(m, raw, hat, r) && Accepts(r, c) && c.minLogProbMargin > 0.0
    ensures exists top: nat ::
      && IsUniqueMax(raw, top) && r.rawTop1 == top % U32
      && Robust(raw, top, c.minLogProbMargin / 2.0)
      && (c.requireAgreement ==> hat.Some? && ArgMax(hat.value) == top)
  {
    MarginsAgree(m, raw, hat, r);
    var top1: nat, top2: nat :| IsFirstMax(raw, top1) && IsRunnerUp(raw, top1, top2)
      && r.rawTop1 == top1 % U32 && r.logitMargin == raw[top1] - raw[top2]
      && (hat.None? ==> r.agreement == NotChecked)
      && (hat.Some? ==> r.agreement == if ArgMax(hat.value) == top1 then Agrees else Disagrees);
    RobustExactlyToHalfTheMargin(raw, top1, top2, c.minLogProbMargin / 2.0);
    assert IsUniqueMax(raw, top1);
  }

  /** Acceptance means confidence: the top entry holds the threshold's share of the plain
      softmax mass. */
  lemma AcceptedIsConfident(m: Libm, raw: seq<real>, hat: Option<seq<real>>, r: Readings, c: Config, top: nat)
    requires Describe(m, raw, hat, r) && Accepts(r, c) && Logarithmic(m) && IsFirstMax(raw, top)
    ensures Mul(c.minTop1Prob, Mass(m, raw)) <= m.exp(raw[top])
  {
    hide Describe, Mass, Mul, Logarithmic;
    TopProbIsShare(m, raw, hat, r, top);
    ShareOfMass(m, raw, top);
    OrderedProducts(c.minTop1Prob, r.top1Prob, Mass(m, raw));
  }

  lemma OrderedProducts(a: real, b: real, s: real)
    requires a <= b && s > 0.0
    ensures Mul(a, s) <= Mul(b, s)
  {
  }

  /** A frame built from these readings, whatever its contract and compression. */
  predicate BuiltFrom(f: Frame, r: Readings) {
    f.rawTop1 == r.rawTop1 && f.compressedTop1 == r.compressedTop1
    && f.agreement == r.agreement && f.codecFragile == r.codecFragile
  }

  /** A frame that is safe to continue from has equal raw and compressed argmax, and is
      safe to route from. */
  lemma ContinuationIsSound(m: Libm, raw: seq<real>, hat: Option<seq<real>>, r: Readings, f: Frame)
    requires Describe(m, raw, hat, r) && BuiltFrom(f, r) && IsSafeForContinuation(f)
    ensures hat.Some? && IsFirstMax(raw, ArgMax(hat.value))
    ensures f.compressedTop1 == Some(f.rawTop1)
    ensures IsSafeForRouting(f)
  {
  }

  /** The frame of an accepted boundary can be continued from when agreement is
      required or was found; otherwise the receiver still refuses it. */
  lemma AcceptedFrame(m: Libm, raw: seq<real>, hat: Option<seq<real>>, r: Readings, c: Config, f: Frame)
    requires Describe(m, raw, hat, r) && Accepts(r, c) && BuiltFrom(f, r)
    requires f.contract == ArgmaxNearEquivalentHighMargin
    ensures IsSafeForContinuation(f) <==> r.agreement == Agrees
    ensures c.requireAgreement ==> IsSafeForContinuation(f)
  {
  }
}
