/** The greedy head: the generation-scoped workspace, the two launches over its
    buffers, and the pick the host builds from the result. */
module GreedyHead {
  import opened Arith
  import opened Float32
  import opened BlockReduce
  import opened GreedyRanking
  import opened GreedyTopK
  import opened GreedyFinal
  import opened Wrappers

  const MAX_K: nat := 8

  function Min(a: nat, b: nat): nat { if a < b then a else b }
  function Max(a: nat, b: nat): nat { if a < b then b else a }
  function SaturatingMul(a: nat, b: nat): nat { Min(a * b, USIZE_MAX) }
  function DivCeil(a: nat, b: nat): nat requires b > 0 { (a + b - 1) / b }

  // ---- From the partial buffer to the candidates ---------------------------

  lemma SlotContent(ps: seq<F32>, ids: seq<nat>, k: nat, ranks: seq<seq<Cand>>, b: nat, kk: nat)
    requires b < |ranks| && kk < k && BlocksDone(ps, ids, k, ranks, Threads(|ranks|))
    ensures Times(b, k) + kk < |ps| == |ids|
    ensures ps[Times(b, k) + kk] == SlotScore(ranks[b], kk) && ids[Times(b, k) + kk] == SlotId(ranks[b], kk)
  {
  }

  /** The finite slots are exactly the first k of every slice. */
  lemma PartialsAreTops(ps: seq<F32>, ids: seq<nat>, k: nat, ranks: seq<seq<Cand>>)
    requires BlocksDone(ps, ids, k, ranks, Threads(|ranks|))
    requires |ps| == |ids| == Times(|ranks|, k)
    ensures forall c :: c in PartialSet(ps, ids) <==>
      exists b, kk :: 0 <= b < |ranks| && 0 <= kk < k && kk < |ranks[b]| && ranks[b][kk] == c
  {
    forall c | c in PartialSet(ps, ids)
      ensures exists b, kk :: 0 <= b < |ranks| && 0 <= kk < k && kk < |ranks[b]| && ranks[b][kk] == c
    {
      var i :| 0 <= i < |ps| && ps[i].Fin? && c == Cand(ps[i].v, ids[i]);
      var b, kk := LocateBlock(i, |ranks|, k);
      SlotContent(ps, ids, k, ranks, b, kk);
      assert ranks[b][kk] == c;
    }
    forall c, b, kk | 0 <= b < |ranks| && 0 <= kk < k && kk < |ranks[b]| && ranks[b][kk] == c
      ensures c in PartialSet(ps, ids)
    {
      SlotContent(ps, ids, k, ranks, b, kk);
      assert ps[Times(b, k) + kk].Fin?;
    }
  }

  /** Each ranking stays within its slice and lists no id twice. */
  ghost predicate SliceIds(r: seq<Cand>, b: nat) {
    && (forall i :: 0 <= i < |r| ==> b * BLOCK <= r[i].id < (b + 1) * BLOCK)
    && forall i, j :: 0 <= i < j < |r| ==> r[i].id != r[j].id
  }

  lemma RankIds(scores: seq<F32>, rows: nat, b: nat)
    requires rows <= |scores|
    ensures SliceIds(Rank(SliceCandidates(scores, rows, b)), b)
  {
    var C := SliceCandidates(scores, rows, b);
    var r := Rank(C);
    RankIsSorted(C);
    forall i | 0 <= i < |r|
      ensures b * BLOCK <= r[i].id < (b + 1) * BLOCK
    {
      assert r[i] in C;
    }
    forall i, j | 0 <= i < j < |r|
      ensures r[i].id != r[j].id
    {
      assert r[i] in C && r[j] in C;
      assert Outranks(r[i], r[j]);
    }
  }

  /** Two slots never list the same id. */
  lemma IdsApart(r: seq<Cand>, b: nat, kk: nat, s: seq<Cand>, c: nat, ll: nat)
    requires SliceIds(r, b) && SliceIds(s, c) && kk < |r| && ll < |s|
    requires b == c ==> r == s && kk != ll
    ensures r[kk].id != s[ll].id
  {
  }

  /** A finite slot lists a candidate of its block's ranking. */
  lemma FiniteSlot(ps: seq<F32>, ids: seq<nat>, k: nat, ranks: seq<seq<Cand>>, i: nat) returns (b: nat, kk: nat)
    requires BlocksDone(ps, ids, k, ranks, Threads(|ranks|))
    requires |ps| == |ids| == Times(|ranks|, k)
    requires i < |ps| && ps[i].Fin?
    ensures b < |ranks| && kk < |ranks[b]| && i == Times(b, k) + kk && ids[i] == ranks[b][kk].id
  {
    b, kk := LocateBlock(i, |ranks|, k);
    SlotContent(ps, ids, k, ranks, b, kk);
  }

  lemma PartialIdsDistinct(ps: seq<F32>, ids: seq<nat>, k: nat, ranks: seq<seq<Cand>>)
    requires BlocksDone(ps, ids, k, ranks, Threads(|ranks|))
    requires |ps| == |ids| == Times(|ranks|, k)
    requires forall b :: 0 <= b < |ranks| ==> SliceIds(ranks[b], b)
    ensures IdsDistinct(ps, ids)
  {
    forall i, j | 0 <= i < j < |ps| && ps[i].Fin? && ps[j].Fin?
      ensures ids[i] != ids[j]
    {
      var b, kk := FiniteSlot(ps, ids, k, ranks, i);
      var c, ll := FiniteSlot(ps, ids, k, ranks, j);
      IdsApart(ranks[b], b, kk, ranks[c], c, ll);
    }
  }

  /** The slices of a score vector. */
  ghost function Slices(scores: seq<F32>, rows: nat, n: nat): (s: seq<set<Cand>>)
    requires rows <= |scores|
    ensures |s| == n
  {
    seq(n, b requires 0 <= b < n => SliceCandidates(scores, rows, b))
  }

  /** They partition the candidates. */
  lemma SlicesCover(scores: seq<F32>, rows: nat, c: Cand)
    requires rows <= |scores|
    ensures var slices := Slices(scores, rows, DivCeil(rows, BLOCK));
      c in Candidates(scores, 0, rows) <==> exists b :: 0 <= b < |slices| && c in slices[b]
  {
    var slices := Slices(scores, rows, DivCeil(rows, BLOCK));
    if c in Candidates(scores, 0, rows) {
      assert c in slices[c.id / BLOCK];
    }
    if b :| 0 <= b < |slices| && c in slices[b] {
      assert c in SliceCandidates(scores, rows, b);
    }
  }

  lemma PartialsCover(scores: seq<F32>, rows: nat, n: nat, k: nat, P: set<Cand>, c: Cand)
    requires rows <= |scores|
    requires var ranks := SliceRanks(scores, rows, n);
      c in P <==> exists b, kk :: 0 <= b < |ranks| && 0 <= kk < k && kk < |ranks[b]| && ranks[b][kk] == c
    ensures var slices := Slices(scores, rows, n);
      c in P <==> exists b :: 0 <= b < |slices| && c in Top(slices[b], k)
  {
    hide Rank, SliceCandidates;
    var ranks, slices := SliceRanks(scores, rows, n), Slices(scores, rows, n);
    if b :| 0 <= b < |slices| && c in Top(slices[b], k) {
      var kk :| 0 <= kk < |Top(slices[b], k)| && Top(slices[b], k)[kk] == c;
      assert ranks[b][kk] == c;
    }
    if c in P {
      var b, kk :| 0 <= b < |ranks| && 0 <= kk < k && kk < |ranks[b]| && ranks[b][kk] == c;
      assert Top(slices[b], k)[kk] == c;
    }
  }

  /** Two stages select what one sort would: the first k of all finite scores. */
  lemma TwoStagesAreOne(scores: seq<F32>, rows: nat, k: nat, ps: seq<F32>, ids: seq<nat>)
    requires rows <= |scores|
    requires |ps| == |ids| == Times(DivCeil(rows, BLOCK), k)
    requires BlocksDone(ps, ids, k, SliceRanks(scores, rows, DivCeil(rows, BLOCK)), Threads(DivCeil(rows, BLOCK)))
    ensures IdsDistinct(ps, ids)
    ensures Top(PartialSet(ps, ids), k) == Top(Candidates(scores, 0, rows), k)
  {
    var n := DivCeil(rows, BLOCK);
    var ranks := SliceRanks(scores, rows, n);
    forall b | 0 <= b < n
      ensures SliceIds(ranks[b], b)
    {
      RankIds(scores, rows, b);
    }
    PartialIdsDistinct(ps, ids, k, ranks);
    PartialsAreTops(ps, ids, k, ranks);
    var slices := Slices(scores, rows, n);
    var C, P := Candidates(scores, 0, rows), PartialSet(ps, ids);
    forall c
      ensures c in C <==> exists b :: 0 <= b < |slices| && c in slices[b]
    {
      SlicesCover(scores, rows, c);
    }
    forall c
      ensures c in P <==> exists b :: 0 <= b < |slices| && c in Top(slices[b], k)
    {
      PartialsCover(scores, rows, n, k, P, c);
    }
    TopOfParts(C, slices, P, k);
  }

  // ---- The workspace -------------------------------------------------------

  class GreedyHeadWorkspace {
    const scores: array<F32>
    const partialScores: array<F32>
    const partialIds: array<nat>
    const resultScores: array<F32>
    const resultIds: array<nat>
    const logicalRows: nat
    const hidden: nat
    const candidateWidth: nat
    const numBlocks: nat

    /** The buffers are separate and large enough for the kernels' writes. */
    ghost predicate Valid()
    {
      && candidateWidth <= MAX_K
      && numBlocks == DivCeil(logicalRows, BLOCK)
      && scores.Length == logicalRows
      && partialScores.Length == partialIds.Length >= Min(numBlocks * candidateWidth, USIZE_MAX)
      && resultScores.Length == resultIds.Length == candidateWidth
      && scores != partialScores && scores != resultScores && partialScores != resultScores
      && partialIds != resultIds
    }

    constructor Build(logicalRows: nat, hidden: nat, candidateWidth: nat)
      ensures Valid() && Matches(logicalRows, hidden, candidateWidth)
      ensures partialScores.Length == partialIds.Length >= 8
      ensures fresh(scores) && fresh(partialScores) && fresh(partialIds) && fresh(resultScores) && fresh(resultIds)
    {
      var k := Min(candidateWidth, MAX_K);
      var blocks := DivCeil(logicalRows, BLOCK);
      var partialLen := Max(SaturatingMul(blocks, k), MAX_K);
      scores := new F32[logicalRows](i => Fin(0.0));
      partialScores := new F32[partialLen](i => Fin(0.0));
      partialIds := new nat[partialLen](i => 0);
      resultScores := new F32[k](i => Fin(0.0));
      resultIds := new nat[k](i => 0);
      this.logicalRows, this.hidden := logicalRows, hidden;
      this.candidateWidth, numBlocks := k, blocks;
    }

    predicate Matches(rows: nat, hidden: nat, width: nat)
    {
      logicalRows == rows && this.hidden == hidden && candidateWidth == Min(width, MAX_K)
    }
  }

  // ---- The launches --------------------------------------------------------

  /** launch_greedy_topk_partial: refuses buffers that are too small. */
  method LaunchPartial(ws: GreedyHeadWorkspace, rows: nat, numBlocks: nat, width: nat) returns (ok: bool)
    requires ws.Valid() && rows <= SENTINEL && numBlocks == DivCeil(rows, BLOCK)
    modifies ws.partialScores, ws.partialIds
    ensures rows == ws.logicalRows && Min(width, MAX_K) == ws.candidateWidth ==> ok
    ensures ok ==> rows <= ws.scores.Length
    ensures ok ==> BlocksDone(ws.partialScores[..], ws.partialIds[..], Min(width, MAX_K),
                              SliceRanks(ws.scores[..], rows, numBlocks), Threads(numBlocks))
  {
    if rows == 0 {
      return true;
    }
    var k := Min(width, MAX_K);
    var partialLen := numBlocks * k;
    assert partialLen <= USIZE_MAX by {
      assert numBlocks <= 0x1000000;
      assert numBlocks * k <= 0x1000000 * 8 by { MulMonotone(numBlocks, 0x1000000, k, 8); }
    }
    if ws.scores.Length < rows || ws.partialScores.Length < partialLen || ws.partialIds.Length < partialLen {
      return false;
    }
    PartialKernel(ws.scores, ws.partialScores, ws.partialIds, rows, k, numBlocks);
    ok := true;
  }

  /** launch_greedy_topk_final: likewise. The count reaches the device as a 32-bit value. */
  method LaunchFinal(ws: GreedyHeadWorkspace, n: nat, width: nat) returns (r: Launch<()>)
    requires ws.Valid()
    requires n <= ws.partialScores.Length ==> IdsDistinct(ws.partialScores[..n % U32], ws.partialIds[..n % U32])
    modifies ws.partialScores, ws.resultScores, ws.resultIds
    ensures r.Refused? <==> ws.partialScores.Length < n || ws.candidateWidth < Min(width, MAX_K)
    ensures r.NeverEnds? <==> !r.Refused? && Min(width, MAX_K) > 0 && n % U32 + BLOCK > U32
    ensures r.Done? ==> SlotsHold(ws.resultScores[..Min(width, MAX_K)], ws.resultIds[..Min(width, MAX_K)],
                                  Top(old(PartialSet(ws.partialScores[..n % U32], ws.partialIds[..n % U32])), Min(width, MAX_K)))
  {
    hide SlotsHold, Top, PartialSet, IdsDistinct;
    var k := Min(width, MAX_K);
    if ws.partialScores.Length < n || ws.partialIds.Length < n || ws.resultScores.Length < k || ws.resultIds.Length < k {
      return Refused;
    }
    var ended := FinalKernel(ws.partialScores, ws.partialIds, ws.resultScores, ws.resultIds, n % U32, k);
    r := if ended then Done(()) else NeverEnds;
  }

  // ---- The chain -----------------------------------------------------------

  datatype Pick = Pick(tokenId: nat, score: real, hits: seq<Cand>)

  /** The host's reading of the result: finite slots up to the first sentinel. */
  method ReadHits(resultScores: array<F32>, resultIds: array<nat>, k: nat, ghost t: seq<Cand>) returns (hits: seq<Cand>)
    requires k == resultScores.Length == resultIds.Length && |t| <= k
    requires SlotsHold(resultScores[..], resultIds[..], t)
    requires forall i :: 0 <= i < |t| ==> t[i].id < SENTINEL
    ensures hits == t
  {
    hits := [];
    for i := 0 to k
      invariant i <= |t| && hits == t[..i]
    {
      var id, s := resultIds[i], resultScores[i];
      assert id == resultIds[..][i] && s == resultScores[..][i];
      if id == SENTINEL || !IsFinite(s) {
        break;
      }
      hits := hits + [Cand(s.v, id)];
    }
  }

  /** The second launch's count is far below the limits. */
  lemma PartialCount(rows: nat, blocks: nat, k: nat)
    requires rows <= SENTINEL && blocks == DivCeil(rows, BLOCK) && k <= MAX_K
    ensures blocks * k % U32 == blocks * k && blocks * k + BLOCK <= U32
  {
    MulMonotone(blocks, 0x1000000, k, 8);
  }

  /** The greedy chain on a score vector: reuse or rebuild the workspace, run
      both kernels, read the result. */
  method GreedyChain(cached: Option<GreedyHeadWorkspace>, logits: seq<F32>, hidden: nat, width: nat)
      returns (ws: GreedyHeadWorkspace, pick: Option<Pick>)
    requires cached.Some? ==> cached.value.Valid()
    requires |logits| <= SENTINEL
    modifies if cached.Some? then {cached.value.scores, cached.value.partialScores, cached.value.partialIds,
                                   cached.value.resultScores, cached.value.resultIds} else {}
    ensures ws.Valid() && ws.Matches(|logits|, hidden, width)
    ensures var top := Top(Candidates(logits, 0, |logits|), Min(width, MAX_K));
      pick == if top == [] then None else Some(Pick(top[0].id, top[0].score, top))
  {
    hide Top, Candidates, BlocksDone, SlotsHold, SliceRanks, IdsDistinct, PartialSet, Times;
    var k := Min(width, MAX_K);
    var rows := |logits|;
    if cached.Some? && cached.value.Matches(rows, hidden, width) {
      ws := cached.value;
    } else {
      ws := new GreedyHeadWorkspace.Build(rows, hidden, width);
    }
    forall i | 0 <= i < rows {
      ws.scores[i] := logits[i];
    }
    assert ws.scores[..] == logits;
    var ok := LaunchPartial(ws, rows, ws.numBlocks, width);
    var n := ws.numBlocks * k;
    PartialCount(rows, ws.numBlocks, k);
    TimesIsProduct(ws.numBlocks, k);
    PrefixDone(ws.partialScores[..], ws.partialIds[..], k, SliceRanks(logits, rows, ws.numBlocks));
    TwoStagesAreOne(logits, rows, k, ws.partialScores[..n], ws.partialIds[..n]);
    var final := LaunchFinal(ws, n, width);
    ghost var C := Candidates(logits, 0, rows);
    assert ws.resultScores[..k] == ws.resultScores[..] && ws.resultIds[..k] == ws.resultIds[..];
    TopRows(logits, k);
    var hits := ReadHits(ws.resultScores, ws.resultIds, k, Top(C, k));
    if hits == [] || hits[0].id >= rows {
      return ws, None;
    }
    pick := Some(Pick(hits[0].id, hits[0].score, hits));
  }

  lemma TopRows(logits: seq<F32>, k: nat)
    ensures var t := Top(Candidates(logits, 0, |logits|), k);
      |t| <= k && forall i :: 0 <= i < |t| ==> t[i].id < |logits|
  {
    var C := Candidates(logits, 0, |logits|);
    RankIsSorted(C);
    forall i | 0 <= i < |Top(C, k)|
      ensures Top(C, k)[i].id < |logits|
    {
      assert Top(C, k)[i] in C;
    }
  }

  lemma PrefixDone(ps: seq<F32>, ids: seq<nat>, k: nat, ranks: seq<seq<Cand>>)
    requires |ps| == |ids| >= Times(|ranks|, k)
    requires BlocksDone(ps, ids, k, ranks, Threads(|ranks|))
    ensures BlocksDone(ps[..Times(|ranks|, k)], ids[..Times(|ranks|, k)], k, ranks, Threads(|ranks|))
  {
    hide SlotsHold, Times;
    var n := Times(|ranks|, k);
    forall b | 0 <= b < |ranks|
      ensures SlotsFrom(ps[..n], ids[..n], Times(b, k), k, ranks[b])
    {
      var first := Times(b, k);
      TimesOrdered(b, |ranks|, k);
      assert SlotsFrom(ps, ids, first, k, ranks[b]);
      assert ps[..n][first..first + k] == ps[first..first + k];
      assert ids[..n][first..first + k] == ids[first..first + k];
    }
  }
}
