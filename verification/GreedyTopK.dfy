/** The two greedy top-K kernels: a per-slice selection by k masked tree
    reductions, and a final selection over the slices' winners. */
module GreedyTopK {
  import opened Arith
  import opened Float32
  import opened BlockReduce
  import opened GreedyRanking

  const BLOCK: nat := 256

  // ---- Stage 1: one slice of the score vector ------------------------------

  datatype Lane = Lane(val: Masked, tok: nat)

  /** The kernels' BETTER(b, a): higher score, or the same score and lower id. */
  predicate BeatsLane(b: Lane, a: Lane) {
    Gt(b.val, a.val) || (Eq(b.val, a.val) && b.tok < a.tok)
  }

  lemma LaneTreePicks(lanes: seq<Lane>)
    requires |lanes| == BLOCK
    ensures IsPow2(BLOCK)
    ensures IsPick(BeatsLane, lanes, BLOCK, Tree(Pick(BeatsLane), lanes, BLOCK)[0])
  {
    assert StrictWeakOrder(BeatsLane);
    assert IsPow2(BLOCK) by { assert IsPow2(16); }
    TreePicks(BeatsLane, lanes, BLOCK);
  }

  ghost function LaneSet(shm: seq<Masked>, base: nat): set<Cand> {
    set t | 0 <= t < |shm| && shm[t].Fin? :: Cand(shm[t].v, base + t)
  }

  /** The rows of slice b that exist. */
  ghost function SliceCandidates(scores: seq<F32>, rows: nat, b: nat): set<Cand>
    requires rows <= |scores|
  {
    Candidates(scores, b * BLOCK, if (b + 1) * BLOCK < rows then (b + 1) * BLOCK else rows)
  }

  /** Load interval: every thread stores its own cell. */
  method LoadSlice(scores: array<F32>, shm: array<Masked>, base: nat, rows: nat)
    requires rows <= scores.Length && shm.Length == BLOCK
    modifies shm
    ensures forall t :: 0 <= t < BLOCK ==>
      shm[t] == if base + t < rows && scores[base + t].Fin? then scores[base + t] else NegInf
  {
    var pending := Threads(BLOCK);
    while pending != {}
      invariant forall t :: t in pending ==> t < BLOCK
      invariant forall t: nat :: t < BLOCK && t !in pending ==>
        shm[t] == if base + t < rows && scores[base + t].Fin? then scores[base + t] else NegInf
      decreases pending
    {
      var tid :| tid in pending;
      var idx := base + tid;
      var v := if idx < rows then scores[idx] else NegInf;
      shm[tid] := if IsFinite(v) then v else NegInf;
      pending := pending - {tid};
    }
  }

  /** One pass: copy the masked slice with its global ids, then reduce. */
  method SliceWinner(shm: array<Masked>, red: array<Lane>, base: nat) returns (w: Lane)
    requires shm.Length == red.Length == BLOCK
    modifies red
    ensures IsSliceBest(shm[..], base, w)
  {
    var pending := Threads(BLOCK);
    while pending != {}
      invariant forall t :: t in pending ==> t < BLOCK
      invariant forall t: nat :: t < BLOCK && t !in pending ==> red[t] == Lane(shm[t], base + t)
      decreases pending
    {
      var tid :| tid in pending;
      red[tid] := Lane(shm[tid], base + tid);
      pending := pending - {tid};
    }
    ghost var lanes := red[..];
    LaneTreePicks(lanes);
    TreeReduce(red, Pick(BeatsLane));
    w := red[0];
    SliceBest(shm[..], base, lanes, w);
  }

  /** w is the best unmasked lane, or minus infinity when every lane is masked. */
  ghost predicate IsSliceBest(shm: seq<Masked>, base: nat, w: Lane) {
    var C := LaneSet(shm, base);
    && base <= w.tok < base + |shm| && shm[w.tok - base] == w.val
    && if C == {} then w.val == NegInf else w.val.Fin? && Cand(w.val.v, w.tok) == Best(C)
  }

  lemma SliceBest(shm: seq<Masked>, base: nat, lanes: seq<Lane>, w: Lane)
    requires |shm| == |lanes| == BLOCK
    requires forall t :: 0 <= t < BLOCK ==> lanes[t] == Lane(shm[t], base + t)
    requires IsPick(BeatsLane, lanes, BLOCK, w)
    ensures IsSliceBest(shm, base, w)
  {
    var C := LaneSet(shm, base);
    var i :| 0 <= i < BLOCK && lanes[i] == w;
    if w.val.Fin? {
      assert Cand(w.val.v, base + i) in C;
    }
    if C != {} {
      var b := Best(C);
      var j :| 0 <= j < BLOCK && shm[j].Fin? && b == Cand(shm[j].v, base + j);
      assert !BeatsLane(lanes[j], w);
    }
  }

  /** The lanes still unmasked, ranked, are the ranking r without its first kk. */
  ghost predicate LanesRank(shm: seq<Masked>, base: nat, r: seq<Cand>, kk: nat) {
    Rank(LaneSet(shm, base)) == After(r, kk)
  }

  ghost function After(r: seq<Cand>, kk: nat): seq<Cand> {
    if kk <= |r| then r[kk..] else []
  }

  /** Taking the best is moving on by one. */
  lemma RankAfterBest(C: set<Cand>, r: seq<Cand>, kk: nat)
    requires Rank(C) == After(r, kk)
    ensures C == {} <==> kk >= |r|
    ensures C == {} ==> After(r, kk + 1) == []
    ensures C != {} ==> Best(C) == r[kk] && Rank(C - {Best(C)}) == After(r, kk + 1)
  {
  }

  /** What pass kk puts in its slot. */
  ghost function SlotScore(r: seq<Cand>, kk: nat): F32 {
    if kk < |r| then Fin(r[kk].score) else NegInf
  }

  ghost function SlotId(r: seq<Cand>, kk: nat): nat {
    if kk < |r| then r[kk].id else SENTINEL
  }

  /** The winner of pass kk is the kk-th of the ranking, and masking it moves on. */
  lemma PassWinner(shm: seq<Masked>, base: nat, w: Lane, r: seq<Cand>, kk: nat)
    requires LanesRank(shm, base, r, kk) && IsSliceBest(shm, base, w)
    ensures w.val == SlotScore(r, kk) && (w.val.Fin? ==> w.tok == SlotId(r, kk))
    ensures w.val == NegInf ==> SlotId(r, kk) == SENTINEL && LanesRank(shm, base, r, kk + 1)
    ensures w.val.Fin? ==> LanesRank(shm[w.tok - base := NegInf], base, r, kk + 1)
  {
    hide Rank, LaneSet, After;
    RankAfterBest(LaneSet(shm, base), r, kk);
    if w.val.Fin? {
      MaskLane(shm, base, w.tok - base);
    }
  }

  /** One pass: thread 0 records the winner in its slot and masks it. */
  method SlicePass(shm: array<Masked>, red: array<Lane>, base: nat,
                   partialScores: array<F32>, partialIds: array<nat>, slot: nat,
                   ghost r: seq<Cand>, ghost kk: nat)
    requires shm.Length == red.Length == BLOCK
    requires slot < partialScores.Length == partialIds.Length
    requires LanesRank(shm[..], base, r, kk)
    modifies shm, red, partialScores, partialIds
    ensures LanesRank(shm[..], base, r, kk + 1)
    ensures partialScores[..] == old(partialScores[..])[slot := SlotScore(r, kk)]
    ensures partialIds[..] == old(partialIds[..])[slot := SlotId(r, kk)]
  {
    hide LanesRank, SlotScore, SlotId;
    var w := SliceWinner(shm, red, base);
    ghost var lanes: seq<Masked> := shm[..];
    PassWinner(lanes, base, w, r, kk);
    if Gt(w.val, NegInf) {
      partialScores[slot] := w.val;
      partialIds[slot] := w.tok;
      var local := w.tok - base;
      shm[local] := NegInf;
      assert shm[..] == lanes[local := NegInf];
    } else {
      partialScores[slot] := NegInf;
      partialIds[slot] := SENTINEL;
      assert shm[..] == lanes;
    }
  }

  /** Filling the next slot with the next of the ranking. */
  lemma FillSlot(scores: seq<F32>, ids: seq<nat>, scores': seq<F32>, ids': seq<nat>, first: nat, kk: nat, r: seq<Cand>)
    requires first + kk < |scores| == |ids|
    requires SlotsHold(scores[first..first + kk], ids[first..first + kk], r)
    requires scores' == scores[first + kk := SlotScore(r, kk)]
    requires ids' == ids[first + kk := SlotId(r, kk)]
    ensures SlotsHold(scores'[first..first + kk + 1], ids'[first..first + kk + 1], r)
  {
    var n := first + kk + 1;
    forall j | 0 <= j <= kk
      ensures scores'[first..n][j] == SlotScore(r, j) && ids'[first..n][j] == SlotId(r, j)
    {
      assert scores'[first..n][j] == scores'[first + j] && ids'[first..n][j] == ids'[first + j];
      if j < kk {
        assert scores[first + j] == scores[first..first + kk][j] && ids[first + j] == ids[first..first + kk][j];
      }
    }
  }

  /** greedy_topk_partial for one block: its k slots, from "first" on, hold the
      first k of its slice, whose ranking is r. */
  method PartialBlock(scores: array<F32>, partialScores: array<F32>, partialIds: array<nat>,
                      rows: nat, k: nat, bid: nat, first: nat, ghost r: seq<Cand>)
    requires rows <= scores.Length && scores != partialScores
    requires r == Rank(SliceCandidates(scores[..], rows, bid))
    requires first == bid * k && first + k <= partialScores.Length == partialIds.Length
    modifies partialScores, partialIds
    ensures SlotsHold(partialScores[first..first + k], partialIds[first..first + k], r)
    ensures SameOutside(partialScores[..], old(partialScores[..]), first, first + k)
    ensures SameOutside(partialIds[..], old(partialIds[..]), first, first + k)
  {
    hide LanesRank, SliceCandidates, Rank;
    var base := bid * BLOCK;
    var shm := new Masked[BLOCK](i => NegInf);
    var red := new Lane[BLOCK](i => Lane(NegInf, 0));
    LoadSlice(scores, shm, base, rows);
    SliceLoaded(scores[..], rows, bid, shm[..]);
    ghost var ps, ids := partialScores[..], partialIds[..];
    for kk := 0 to k
      invariant ps == partialScores[..] && ids == partialIds[..]
      invariant LanesRank(shm[..], base, r, kk)
      invariant SlotsHold(ps[first..first + kk], ids[first..first + kk], r)
      invariant SameOutside(ps, old(partialScores[..]), first, first + k)
      invariant SameOutside(ids, old(partialIds[..]), first, first + k)
    {
      ghost var ps0, ids0 := ps, ids;
      SlicePass(shm, red, base, partialScores, partialIds, first + kk, r, kk);
      ps, ids := partialScores[..], partialIds[..];
      FillSlot(ps0, ids0, ps, ids, first, kk, r);
    }
  }

  lemma SliceLoaded(scores: seq<F32>, rows: nat, bid: nat, shm: seq<Masked>)
    requires rows <= |scores| && |shm| == BLOCK
    requires forall t :: 0 <= t < BLOCK ==>
      shm[t] == if bid * BLOCK + t < rows && scores[bid * BLOCK + t].Fin? then scores[bid * BLOCK + t] else NegInf
    ensures LaneSet(shm, bid * BLOCK) == SliceCandidates(scores, rows, bid)
    ensures LanesRank(shm, bid * BLOCK, Rank(SliceCandidates(scores, rows, bid)), 0)
  {
    var base := bid * BLOCK;
    forall c | c in SliceCandidates(scores, rows, bid)
      ensures c in LaneSet(shm, base)
    {
      assert shm[c.id - base].Fin?;
    }
  }

  lemma MaskLane(shm: seq<Masked>, base: nat, t: nat)
    requires t < |shm| && shm[t].Fin?
    ensures LaneSet(shm[t := NegInf], base) == LaneSet(shm, base) - {Cand(shm[t].v, base + t)}
  {
    var masked := shm[t := NegInf];
    forall c | c in LaneSet(shm, base) && c != Cand(shm[t].v, base + t)
      ensures c in LaneSet(masked, base)
    {
      var u :| 0 <= u < |shm| && shm[u].Fin? && c == Cand(shm[u].v, base + u);
      assert masked[u] == shm[u];
    }
  }

  /** The rankings of the slices. */
  ghost function SliceRanks(scores: seq<F32>, rows: nat, numBlocks: nat): (r: seq<seq<Cand>>)
    requires rows <= |scores|
    ensures |r| == numBlocks
  {
    seq(numBlocks, b requires 0 <= b < numBlocks => Rank(SliceCandidates(scores, rows, b)))
  }

  /** The k slots of each of the given blocks hold the first k of its ranking. */
  ghost predicate BlocksDone(ps: seq<F32>, ids: seq<nat>, k: nat, ranks: seq<seq<Cand>>, blocks: set<nat>) {
    forall b :: b in blocks ==> b < |ranks| && SlotsFrom(ps, ids, Times(b, k), k, ranks[b])
  }

  ghost predicate SlotsFrom(ps: seq<F32>, ids: seq<nat>, first: nat, k: nat, r: seq<Cand>) {
    first + k <= |ps| == |ids| && SlotsHold(ps[first..first + k], ids[first..first + k], r)
  }

  /** greedy_topk_partial over the grid; the blocks run in any order. */
  method PartialKernel(scores: array<F32>, partialScores: array<F32>, partialIds: array<nat>,
                       rows: nat, k: nat, numBlocks: nat)
    requires rows <= scores.Length && scores != partialScores
    requires numBlocks * k <= partialScores.Length == partialIds.Length
    modifies partialScores, partialIds
    ensures BlocksDone(partialScores[..], partialIds[..], k, SliceRanks(scores[..], rows, numBlocks), Threads(numBlocks))
  {
    ghost var sc := scores[..];
    ghost var ranks := SliceRanks(sc, rows, numBlocks);
    ghost var ps, ids := partialScores[..], partialIds[..];
    var pending := Threads(numBlocks);
    ghost var done: set<nat> := {};
    while pending != {}
      invariant sc == scores[..] && ps == partialScores[..] && ids == partialIds[..]
      invariant forall b: nat :: b < numBlocks <==> b in pending || b in done
      invariant pending !! done
      invariant BlocksDone(ps, ids, k, ranks, done)
      decreases pending
    {
      var bid :| bid in pending;
      BlockInGrid(bid, numBlocks, k);
      var first := bid * k;
      ghost var ps0, ids0 := ps, ids;
      PartialBlock(scores, partialScores, partialIds, rows, k, bid, first, ranks[bid]);
      ps, ids := partialScores[..], partialIds[..];
      OneMoreDone(ps0, ids0, ps, ids, k, ranks, bid, done);
      pending, done := pending - {bid}, done + {bid};
    }
    assert done == Threads(numBlocks);
  }

  lemma BlockInGrid(bid: nat, numBlocks: nat, k: nat)
    requires bid < numBlocks
    ensures bid * k == Times(bid, k) && Times(bid, k) + k <= numBlocks * k
  {
    TimesOrdered(bid, numBlocks, k);
    TimesIsProduct(bid, k);
    TimesIsProduct(numBlocks, k);
  }

  /** Blocks write disjoint slots. */
  lemma OneMoreDone(ps0: seq<F32>, ids0: seq<nat>, ps: seq<F32>, ids: seq<nat>, k: nat,
                    ranks: seq<seq<Cand>>, bid: nat, done: set<nat>)
    requires bid !in done && bid < |ranks| && BlocksDone(ps0, ids0, k, ranks, done)
    requires SlotsFrom(ps, ids, Times(bid, k), k, ranks[bid])
    requires SameOutside(ps, ps0, Times(bid, k), Times(bid, k) + k)
    requires SameOutside(ids, ids0, Times(bid, k), Times(bid, k) + k)
    ensures BlocksDone(ps, ids, k, ranks, done + {bid})
  {
    forall b | b in done
      ensures SlotsFrom(ps, ids, Times(b, k), k, ranks[b])
    {
      if b < bid { TimesOrdered(b, bid, k); } else { TimesOrdered(bid, b, k); }
      SlotsKept(ps0, ids0, ps, ids, Times(bid, k), Times(b, k), k, ranks[b]);
    }
  }

  lemma SlotsKept(ps0: seq<F32>, ids0: seq<nat>, ps: seq<F32>, ids: seq<nat>,
                  changed: nat, first: nat, k: nat, r: seq<Cand>)
    requires SameOutside(ps, ps0, changed, changed + k) && SameOutside(ids, ids0, changed, changed + k)
    requires first + k <= changed || changed + k <= first
    requires SlotsFrom(ps0, ids0, first, k, r)
    ensures SlotsFrom(ps, ids, first, k, r)
  {
  }
}
