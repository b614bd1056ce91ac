/** What the greedy head promises: the finite scores ranked by
    (score descending, token id ascending), cut off after k. */
module GreedyRanking {
  import opened Float32
  import opened Sets

  datatype Cand = Cand(score: real, id: nat)

  predicate Outranks(b: Cand, a: Cand) {
    b.score > a.score || (b.score == a.score && b.id < a.id)
  }

  ghost predicate IsBest(b: Cand, C: set<Cand>) {
    b in C && forall c :: c in C && c != b ==> Outranks(b, c)
  }

  ghost function Best(C: set<Cand>): (b: Cand)
    requires C != {}
    ensures IsBest(b, C)
  {
    var x :| x in C;
    if C == {x} then x
    else
      var m := Best(C - {x});
      assert forall c :: c in C && c != x ==> c in C - {x};
      if Outranks(x, m) then x else m
  }

  /** All of C, best first. */
  ghost function Rank(C: set<Cand>): (r: seq<Cand>)
    ensures |r| == |C|
  {
    if C == {} then [] else [Best(C)] + Rank(C - {Best(C)})
  }

  ghost predicate StrictlyRanked(s: seq<Cand>) {
    forall i, j :: 0 <= i < j < |s| ==> Outranks(s[i], s[j])
  }

  /** Rank lists exactly the elements of C, in strictly descending rank. */
  lemma {:induction false} RankIsSorted(C: set<Cand>)
    ensures StrictlyRanked(Rank(C))
    ensures forall c :: c in Rank(C) <==> c in C
  {
    if C != {} {
      RankIsSorted(C - {Best(C)});
    }
  }

  /** There is no other way to list them so. */
  lemma {:induction false} RankIsUnique(C: set<Cand>, s: seq<Cand>)
    requires StrictlyRanked(s)
    requires forall c :: c in s <==> c in C
    ensures s == Rank(C)
    decreases C
  {
    if s == [] {
      assert C == {};
    } else {
      assert s[0] in C;
      assert Best(C) in s;
      assert s[0] == Best(C);
      var C' := C - {s[0]};
      forall c
        ensures c in s[1..] <==> c in C'
      {
        assert c in s <==> c == s[0] || c in s[1..];
      }
      RankIsUnique(C', s[1..]);
    }
  }

  // ---- Cut off after k -----------------------------------------------------

  /** The first k of the ranking (all of it when there are fewer). */
  ghost function Top(C: set<Cand>, k: nat): seq<Cand> {
    var r := Rank(C);
    if k < |r| then r[..k] else r
  }

  lemma TopUnfold(C: set<Cand>, k: nat)
    requires C != {} && k > 0
    ensures Top(C, k) == [Best(C)] + Top(C - {Best(C)}, k - 1)
  {
  }

  ghost function Above(c: Cand, P: set<Cand>): set<Cand> {
    set p | p in P && Outranks(p, c)
  }

  /** Dropping candidates that k kept ones outrank does not change the first k. */
  lemma {:induction false} TopIgnoresOutranked(C: set<Cand>, P: set<Cand>, k: nat)
    requires P <= C
    requires forall c :: c in C - P ==> |Above(c, P)| >= k
    ensures Top(P, k) == Top(C, k)
    decreases k
  {
    if k > 0 && C != {} {
      var b := Best(C);
      assert b !in P ==> Above(b, P) == {};
      assert IsBest(Best(P), P) && b == Best(P);
      forall c | c in (C - {b}) - (P - {b})
        ensures |Above(c, P - {b})| >= k - 1
      {
        assert c in C - P;
        assert Above(c, P) == Above(c, P - {b}) + {b};
      }
      TopIgnoresOutranked(C - {b}, P - {b}, k - 1);
      TopUnfold(C, k);
      TopUnfold(P, k);
    }
  }

  /** Whatever of C is not among its first k is outranked by all of them. */
  lemma TopOutranksRest(C: set<Cand>, k: nat, c: Cand)
    requires c in C && c !in Top(C, k)
    ensures |Top(C, k)| == k
    ensures forall p :: p in Top(C, k) ==> Outranks(p, c)
  {
    RankIsSorted(C);
    var r := Rank(C);
    assert c in r;
    var i :| 0 <= i < |r| && r[i] == c;
    assert k <= i;
  }

  lemma {:induction false} DistinctCount(s: seq<Cand>)
    requires StrictlyRanked(s)
    ensures |set p | p in s| == |s|
  {
    if s != [] {
      DistinctCount(s[1..]);
      assert (set p | p in s) == {s[0]} + set p | p in s[1..];
    }
  }

  /** Selecting within parts and then among the selected is selecting at once. */
  lemma TopOfParts(C: set<Cand>, parts: seq<set<Cand>>, P: set<Cand>, k: nat)
    requires forall c :: c in C <==> exists b :: 0 <= b < |parts| && c in parts[b]
    requires forall c :: c in P <==> exists b :: 0 <= b < |parts| && c in Top(parts[b], k)
    ensures Top(P, k) == Top(C, k)
  {
    forall c | c in P
      ensures c in C
    {
      var b :| 0 <= b < |parts| && c in Top(parts[b], k);
      RankIsSorted(parts[b]);
    }
    forall c | c in C - P
      ensures |Above(c, P)| >= k
    {
      var b :| 0 <= b < |parts| && c in parts[b];
      var t := Top(parts[b], k);
      TopOutranksRest(parts[b], k, c);
      RankIsSorted(parts[b]);
      DistinctCount(t);
      SubsetSize((set p | p in t), Above(c, P));
    }
    TopIgnoresOutranked(C, P, k);
  }

  // ---- Candidates of a score vector, and result slots ----------------------

  /** The finite scores of rows [lo, hi) with their token ids. */
  ghost function Candidates(scores: seq<F32>, lo: nat, hi: nat): set<Cand>
    requires hi <= |scores|
  {
    set i | lo <= i < hi && scores[i].Fin? :: Cand(scores[i].v, i)
  }

  /** The id that marks an unfilled slot. */
  const SENTINEL: nat := 0xFFFFFFFF

  /** The slots list the candidates t, best first, and then only sentinels. */
  ghost predicate SlotsHold(scores: seq<F32>, ids: seq<nat>, t: seq<Cand>) {
    && |scores| == |ids|
    && forall kk :: 0 <= kk < |scores| ==>
         && scores[kk] == (if kk < |t| then Fin(t[kk].score) else NegInf)
         && ids[kk] == (if kk < |t| then t[kk].id else SENTINEL)
  }
}
