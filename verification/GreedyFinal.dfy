/** greedy_topk_final: k passes over the slices' winners, each a strided scan per
    thread followed by a tree reduction; the winner is masked in place. */
module GreedyFinal {
  import opened Arith
  import opened Float32
  import opened BlockReduce
  import opened Strides
  import opened GreedyRanking
  import opened GreedyTopK

  datatype Entry = Entry(val: Masked, tok: nat, pos: nat)

  predicate BeatsEntry(b: Entry, a: Entry) {
    Gt(b.val, a.val) || (Eq(b.val, a.val) && b.tok < a.tok)
  }

  /** A register-local best before anything has been scanned. */
  const UNSET: Entry := Entry(NegInf, SENTINEL, SENTINEL)

  /** The partial buffer as the scan sees it: non-finite slots are skipped. */
  ghost function View(ps: seq<F32>, ids: seq<nat>): (v: seq<Entry>)
    requires |ps| == |ids|
    ensures |v| == |ps|
  {
    seq(|ps|, i requires 0 <= i < |ps| => if ps[i].Fin? then Entry(ps[i], ids[i], i) else UNSET)
  }

  ghost function PartialSet(ps: seq<F32>, ids: seq<nat>): set<Cand>
    requires |ps| == |ids|
  {
    set i | 0 <= i < |ps| && ps[i].Fin? :: Cand(ps[i].v, ids[i])
  }

  /** No token id is listed twice. */
  ghost predicate IdsDistinct(ps: seq<F32>, ids: seq<nat>)
    requires |ps| == |ids|
  {
    forall i, j :: 0 <= i < j < |ps| && ps[i].Fin? && ps[j].Fin? ==> ids[i] != ids[j]
  }

  /** What a thread holds once it has passed the entries before i. */
  ghost function Scan(view: seq<Entry>, tid: nat, i: nat): Entry {
    Strided(Pick(BeatsEntry), UNSET, view, tid, BLOCK, if i < |view| then i else |view|)
  }

  lemma ScanNext(view: seq<Entry>, tid: nat, i: nat)
    requires i < |view| && tid < BLOCK && i % BLOCK == tid
    ensures Scan(view, tid, i + BLOCK) == if BeatsEntry(view[i], Scan(view, tid, i)) then view[i] else Scan(view, tid, i)
  {
    StridedSkip(Pick(BeatsEntry), UNSET, view, tid, BLOCK, i, if i + BLOCK < |view| then i + BLOCK else |view|);
  }

  /** The scan of one thread, and whether it ends. */
  method ScanThread(partialScores: array<F32>, partialIds: array<nat>, n: nat, tid: nat) returns (ended: bool, best: Entry)
    requires tid < BLOCK && n < U32 && n <= partialScores.Length && n <= partialIds.Length
    ensures ended <==> Ends(tid, BLOCK, n)
    ensures ended ==> best == Scan(View(partialScores[..n], partialIds[..n]), tid, n)
  {
    hide Ends, NextIndex;
    ghost var view := View(partialScores[..n], partialIds[..n]);
    best := UNSET;
    var i := tid;
    StridedStart(Pick(BeatsEntry), UNSET, view, tid, BLOCK, if tid < n then tid else n);
    while i < n
      invariant i % BLOCK == tid && i < U32
      invariant best == UNSET || best.val.Fin?
      invariant best == Scan(view, tid, i)
    {
      ScanNext(view, tid, i);
      Turn(i, tid, BLOCK, n);
      best := Better(partialScores[i], partialIds[i], i, best);
      var next := NextIndex(i, BLOCK);
      if next <= i {
        // The index is back at an earlier one, and the source goes round for ever.
        return false, best;
      }
      i := next;
    }
    Ended(i, tid, BLOCK, n);
    ended := true;
  }

  /** The scan's update: skip non-finite scores, keep the better of the rest. */
  function Better(v: F32, tok: nat, pos: nat, best: Entry): Entry {
    if IsFinite(v) && BeatsEntry(Entry(v, tok, pos), best) then Entry(v, tok, pos) else best
  }

  /** One pass: scan, reduce, read cell 0. */
  method BestPartial(partialScores: array<F32>, partialIds: array<nat>, n: nat, red: array<Entry>)
      returns (ended: bool, w: Entry)
    requires n < U32 && n <= partialScores.Length && n <= partialIds.Length && red.Length == BLOCK
    modifies red
    ensures ended <==> n + BLOCK <= U32
    ensures ended ==> IsOverallBest(partialScores[..n], partialIds[..n], w)
  {
    hide Ends, Scan, View, IsOverallBest, SelectedFrom;
    ghost var ps, ids := partialScores[..n], partialIds[..n];
    var pending := Threads(BLOCK);
    AllEndExactly(BLOCK, n);
    while pending != {}
      invariant ps == partialScores[..n] && ids == partialIds[..n]
      invariant forall t :: t in pending ==> t < BLOCK
      invariant forall t: nat :: t < BLOCK && t !in pending ==>
        Ends(t, BLOCK, n) && red[t] == Scan(View(ps, ids), t, n)
      decreases pending
    {
      var tid :| tid in pending;
      var threadEnded, best := ScanThread(partialScores, partialIds, n, tid);
      if !threadEnded {
        return false, UNSET;
      }
      red[tid] := best;
      pending := pending - {tid};
    }
    ghost var scanned := red[..];
    TreeOfScans(View(ps, ids), scanned);
    TreeReduce(red, Pick(BeatsEntry));
    w := red[0];
    BestOfView(ps, ids, w);
    ended := true;
  }

  /** w is what the pass must select: an entry of the buffer, or UNSET when there
      is none, that no entry beats. */
  ghost predicate SelectedFrom(view: seq<Entry>, w: Entry) {
    && (w == UNSET || w in view)
    && !BeatsEntry(UNSET, w)
    && forall i :: 0 <= i < |view| ==> !BeatsEntry(view[i], w)
  }

  lemma TreeOfScans(view: seq<Entry>, scanned: seq<Entry>)
    requires |scanned| == BLOCK
    requires forall t :: 0 <= t < BLOCK ==> scanned[t] == Scan(view, t, |view|)
    ensures IsPow2(BLOCK)
    ensures SelectedFrom(view, Tree(Pick(BeatsEntry), scanned, BLOCK)[0])
  {
    EntryTreePicks(scanned);
    PickOfScans(view, scanned, Tree(Pick(BeatsEntry), scanned, BLOCK)[0]);
  }

  lemma EntryTreePicks(scanned: seq<Entry>)
    requires |scanned| == BLOCK
    ensures IsPow2(BLOCK)
    ensures IsPick(BeatsEntry, scanned, BLOCK, Tree(Pick(BeatsEntry), scanned, BLOCK)[0])
  {
    assert StrictWeakOrder(BeatsEntry);
    assert IsPow2(BLOCK) by { assert IsPow2(16); }
    TreePicks(BeatsEntry, scanned, BLOCK);
  }

  lemma PickOfScans(view: seq<Entry>, scanned: seq<Entry>, w: Entry)
    requires |scanned| == BLOCK && IsPick(BeatsEntry, scanned, BLOCK, w)
    requires forall t :: 0 <= t < BLOCK ==> scanned[t] == Scan(view, t, |view|)
    ensures SelectedFrom(view, w)
  {
    var t :| 0 <= t < BLOCK && scanned[t] == w;
    ScanPicks(view, t);
    forall i | 0 <= i < |view|
      ensures !BeatsEntry(view[i], w)
    {
      ScanPicks(view, i % BLOCK);
      assert !BeatsEntry(scanned[i % BLOCK], w);
    }
  }

  lemma ScanPicks(view: seq<Entry>, t: nat)
    requires t < BLOCK
    ensures var w := Scan(view, t, |view|);
      && (w == UNSET || w in view) && !BeatsEntry(UNSET, w)
      && forall i :: 0 <= i < |view| && i % BLOCK == t ==> !BeatsEntry(view[i], w)
  {
    assert StrictWeakOrder(BeatsEntry);
    StridedPicks(BeatsEntry, UNSET, view, t, BLOCK, |view|);
  }

  ghost predicate IsOverallBest(ps: seq<F32>, ids: seq<nat>, w: Entry)
    requires |ps| == |ids|
  {
    var P := PartialSet(ps, ids);
    if P == {} then w == UNSET
    else
      && w.val.Fin? && Cand(w.val.v, w.tok) == Best(P)
      && w.pos < |ps| && ps[w.pos] == w.val && ids[w.pos] == w.tok
  }

  lemma BestOfView(ps: seq<F32>, ids: seq<nat>, w: Entry)
    requires |ps| == |ids| && SelectedFrom(View(ps, ids), w)
    ensures IsOverallBest(ps, ids, w)
  {
    var P := PartialSet(ps, ids);
    var view := View(ps, ids);
    if w != UNSET {
      var i :| 0 <= i < |view| && view[i] == w;
      assert Cand(ps[i].v, ids[i]) in P;
    }
    if P != {} {
      var b := Best(P);
      var j :| 0 <= j < |ps| && ps[j].Fin? && b == Cand(ps[j].v, ids[j]);
      assert !BeatsEntry(view[j], w);
    }
  }

  lemma MaskPartial(ps: seq<F32>, ids: seq<nat>, p: nat)
    requires |ps| == |ids| && p < |ps| && ps[p].Fin? && IdsDistinct(ps, ids)
    ensures PartialSet(ps[p := NegInf], ids) == PartialSet(ps, ids) - {Cand(ps[p].v, ids[p])}
    ensures IdsDistinct(ps[p := NegInf], ids)
  {
  }

  /** Thread 0's part of a pass: record the winner and mask it in the buffer. */
  method FinalPass(partialScores: array<F32>, partialIds: array<nat>, n: nat, red: array<Entry>,
                   resultScores: array<F32>, resultIds: array<nat>, kk: nat, ghost r: seq<Cand>)
      returns (ended: bool)
    requires n < U32 && n <= partialScores.Length && n <= partialIds.Length && red.Length == BLOCK
    requires kk < resultScores.Length && kk < resultIds.Length
    requires resultScores != partialScores && resultIds != partialIds
    requires IdsDistinct(partialScores[..n], partialIds[..n])
    requires Rank(PartialSet(partialScores[..n], partialIds[..n])) == After(r, kk)
    modifies partialScores, red, resultScores, resultIds
    ensures ended <==> n + BLOCK <= U32
    ensures ended ==> IdsDistinct(partialScores[..n], partialIds[..n])
    ensures ended ==> Rank(PartialSet(partialScores[..n], partialIds[..n])) == After(r, kk + 1)
    ensures ended ==> resultScores[..] == old(resultScores[..])[kk := SlotScore(r, kk)]
    ensures ended ==> resultIds[..] == old(resultIds[..])[kk := SlotId(r, kk)]
  {
    hide Rank, After, PartialSet, IdsDistinct;
    ghost var ps, ids := partialScores[..n], partialIds[..n];
    RankAfterBest(PartialSet(ps, ids), r, kk);
    var w;
    ended, w := BestPartial(partialScores, partialIds, n, red);
    if !ended {
      return;
    }
    if w.pos != SENTINEL && Gt(w.val, NegInf) {
      resultScores[kk] := w.val;
      resultIds[kk] := w.tok;
      MaskPartial(ps, ids, w.pos);
      partialScores[w.pos] := NegInf;
      assert partialScores[..n] == ps[w.pos := NegInf];
    } else {
      resultScores[kk] := NegInf;
      resultIds[kk] := SENTINEL;
    }
  }

  /** The single block of the second stage. It ends exactly when no pass is asked for or
      the strided index of the scan does not wrap. */
  method FinalKernel(partialScores: array<F32>, partialIds: array<nat>,
                     resultScores: array<F32>, resultIds: array<nat>, n: nat, k: nat) returns (ended: bool)
    requires n < U32 && n <= partialScores.Length && n <= partialIds.Length
    requires k <= resultScores.Length == resultIds.Length
    requires resultScores != partialScores && resultIds != partialIds
    requires IdsDistinct(partialScores[..n], partialIds[..n])
    modifies partialScores, resultScores, resultIds
    ensures ended <==> k == 0 || n + BLOCK <= U32
    ensures ended ==> SlotsHold(resultScores[..k], resultIds[..k],
                                Top(old(PartialSet(partialScores[..n], partialIds[..n])), k))
  {
    ghost var P := PartialSet(partialScores[..n], partialIds[..n]);
    ghost var r := Rank(P);
    var red := new Entry[BLOCK](i => UNSET);
    ghost var rs, ids := resultScores[..], resultIds[..];
    ended := true;
    for kk := 0 to k
      invariant ended && (kk == 0 || n + BLOCK <= U32)
      invariant rs == resultScores[..] && ids == resultIds[..]
      invariant IdsDistinct(partialScores[..n], partialIds[..n])
      invariant Rank(PartialSet(partialScores[..n], partialIds[..n])) == After(r, kk)
      invariant SlotsHold(rs[0..kk], ids[0..kk], r)
    {
      ghost var rs0, ids0 := rs, ids;
      ended := FinalPass(partialScores, partialIds, n, red, resultScores, resultIds, kk, r);
      if !ended {
        return;
      }
      rs, ids := resultScores[..], resultIds[..];
      FillSlot(rs0, ids0, rs, ids, 0, kk, r);
    }
    assert resultScores[..k] == rs[0..k] && resultIds[..k] == ids[0..k];
    SlotsCut(resultScores[..k], resultIds[..k], P);
  }

  lemma SlotsCut(scores: seq<F32>, ids: seq<nat>, C: set<Cand>)
    requires SlotsHold(scores, ids, Rank(C))
    ensures SlotsHold(scores, ids, Top(C, |scores|))
  {
  }
}
