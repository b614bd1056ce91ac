/** How well a list of strings falls into two clusters: the best average silhouette over
    the two-partitions, found by enumerating one side up to half the list. */
module Bimodality {
  import opened Sums
  import opened Sets

  // ---- Similarity -----------------------------------------------------------

  /** The character bigrams of a string that has been stripped and lower-cased. */
  function CharBigrams(s: string): set<string> {
    if |s| < 2 then {} else {s[..2]} + CharBigrams(s[1..])
  }

  /** s holds g, of two characters, from i on. */
  ghost predicate HoldsAt(s: string, g: string, i: nat) {
    |g| == 2 && i + 1 < |s| && s[i] == g[0] && s[i + 1] == g[1]
  }

  /** The bigrams are the stretches of length two. */
  lemma {:induction false} BigramsAre(s: string, g: string)
    ensures g in CharBigrams(s) <==> exists i: nat :: HoldsAt(s, g, i)
  {
    if |s| >= 2 {
      BigramsAre(s[1..], g);
      if i: nat :| HoldsAt(s[1..], g, i) {
        assert HoldsAt(s, g, i + 1);
      }
      if i: nat :| HoldsAt(s, g, i) {
        if i > 0 {
          assert HoldsAt(s[1..], g, i - 1);
        } else {
          assert g == s[..2];
        }
      }
      assert HoldsAt(s, s[..2], 0);
    }
  }

  function Jaccard(a: set<string>, b: set<string>): real {
    if a == {} && b == {} then 1.0
    else if a == {} || b == {} then 0.0
    else |a * b| as real / |a + b| as real
  }

  lemma JaccardRange(a: set<string>, b: set<string>)
    ensures 0.0 <= Jaccard(a, b) <= 1.0
  {
    if a != {} && b != {} {
      SubsetSize(a * b, a + b);
      SubsetSize(a, a + b);
      NonEmpty(a);
      Fraction(|a * b|, |a + b|);
    }
  }

  /** The share of the common bigrams among all: one exactly for equal sets, zero exactly
      for sets that have bigrams and share none. */
  lemma JaccardIsShare(a: set<string>, b: set<string>)
    ensures a + b != {} ==> Jaccard(a, b) * |a + b| as real == |a * b| as real
    ensures Jaccard(a, b) == 1.0 <==> a == b
    ensures Jaccard(a, b) == 0.0 <==> a * b == {} && a + b != {}
  {
    if a == {} || b == {} {
      assert a * b == {};
      assert a == b <==> a + b == {};
    } else {
      SubsetSize(a, a + b);
      NonEmpty(a);
      ShareOf(|a * b|, |a + b|);
      CommonOfAll(a, b);
    }
  }

  lemma CommonOfAll(a: set<string>, b: set<string>)
    ensures |a * b| == |a + b| <==> a == b
    ensures |a * b| == 0 <==> a * b == {}
  {
    if |a * b| == |a + b| {
      FullSubset(a * b, a + b);
    }
    assert a * b == a + b <==> a == b;
    if a * b != {} {
      NonEmpty(a * b);
    }
  }

  lemma ShareOf(p: nat, q: nat)
    requires q > 0
    ensures p as real / q as real * q as real == p as real
    ensures p as real / q as real == 1.0 <==> p == q
    ensures p as real / q as real == 0.0 <==> p == 0
  {
    var x := p as real / q as real;
    assert x * q as real == p as real;
  }

  lemma NonEmpty<T>(a: set<T>)
    requires a != {}
    ensures |a| > 0
  {
  }

  /** Similarity is symmetric, and complete with oneself. */
  lemma JaccardSymmetric(a: set<string>, b: set<string>)
    ensures Jaccard(a, b) == Jaccard(b, a) && Jaccard(a, a) == 1.0
  {
    assert a + b == b + a && a * b == b * a;
    assert a * a == a && a + a == a;
    if a != {} {
      NonEmpty(a);
      assert |a| as real / |a| as real == 1.0;
    }
  }

  lemma Fraction(p: nat, q: nat)
    requires 0 < q && p <= q
    ensures 0.0 <= p as real / q as real <= 1.0
  {
  }

  function Distance(bigrams: seq<set<string>>, i: int, j: int): real {
    if 0 <= i < |bigrams| && 0 <= j < |bigrams| then 1.0 - Jaccard(bigrams[i], bigrams[j]) else 0.0
  }

  // ---- Silhouettes ----------------------------------------------------------

  function Range(n: nat): (s: set<nat>)
    ensures forall i: nat :: i in s <==> i < n
    ensures |s| == n
  {
    if n == 0 then {} else Range(n - 1) + {n - 1}
  }

  function Max(x: real, y: real): real {
    if x < y then y else x
  }

  const TINY: real := 0.000000001

  /** The distances from i to the members of a cluster, added up. */
  ghost function Toward(bigrams: seq<set<string>>, i: nat, cluster: set<nat>, upTo: nat): real {
    Sum(j => if 0 <= j && j != i && j in cluster then Distance(bigrams, i, j) else 0.0, upTo)
  }

  ghost function Width(bigrams: seq<set<string>>, i: nat, own: set<nat>, other: set<nat>): real {
    if |own| <= 1 then 0.0
    else
      var a := Toward(bigrams, i, own, |bigrams|) / (|own| - 1) as real;
      var b := Toward(bigrams, i, other, |bigrams|) / (if |other| > 1 then |other| else 1) as real;
      (b - a) / Max(Max(a, b), TINY)
  }

  /** The silhouette width of element i when A is one of the two clusters. */
  ghost function WidthIn(bigrams: seq<set<string>>, A: set<nat>, i: nat): real {
    var B := Range(|bigrams|) - A;
    if i in A then Width(bigrams, i, A, B) else Width(bigrams, i, B, A)
  }

  ghost function WidthsUpTo(bigrams: seq<set<string>>, A: set<nat>, n: nat): real {
    Sum(i => if i >= 0 then WidthIn(bigrams, A, i) else 0.0, n)
  }

  ghost function Silhouette(bigrams: seq<set<string>>, A: set<nat>): real
    requires |bigrams| > 0
  {
    WidthsUpTo(bigrams, A, |bigrams|) / |bigrams| as real
  }

  /** Which of the two clusters is listed does not matter. */
  lemma SidesAlike(bigrams: seq<set<string>>, A: set<nat>)
    requires |bigrams| > 0 && A <= Range(|bigrams|)
    ensures Silhouette(bigrams, A) == Silhouette(bigrams, Range(|bigrams|) - A)
  {
    hide Width;
    var n := |bigrams|;
    var B := Range(n) - A;
    assert Range(n) - B == A;
    SumCongruence(i => if i >= 0 then WidthIn(bigrams, A, i) else 0.0, i => if i >= 0 then WidthIn(bigrams, B, i) else 0.0, n);
  }

  /** x is the mean of the distances from i to some members of a cluster, itself left out. */
  ghost predicate IsMeanDistance(bigrams: seq<set<string>>, i: nat, cluster: set<nat>, members: nat, x: real)
    requires i < |bigrams|
  {
    x * members as real
    == Sum(j => if 0 <= j < |bigrams| && j != i && j in cluster then 1.0 - Jaccard(bigrams[i], bigrams[j]) else 0.0, |bigrams|)
  }

  /** A width compares the mean distance a to the own cluster with the mean distance b to
      the other: their difference, over the larger of the two and at least a billionth. */
  lemma WidthIs(bigrams: seq<set<string>>, A: set<nat>, i: nat, a: real, b: real)
    requires i < |bigrams| && A <= Range(|bigrams|)
    requires var B := Range(|bigrams|) - A;
      var own, other := if i in A then A else B, if i in A then B else A;
      && (|own| > 1 ==> IsMeanDistance(bigrams, i, own, |own| - 1, a))
      && (other != {} ==> IsMeanDistance(bigrams, i, other, |other|, b))
    ensures var B := Range(|bigrams|) - A;
      var own, other := if i in A then A else B, if i in A then B else A;
      && (|own| <= 1 ==> WidthIn(bigrams, A, i) == 0.0)
      && (|own| > 1 && other != {} && a < b && 0.000000001 <= b ==> WidthIn(bigrams, A, i) * b == b - a)
      && (|own| > 1 && other != {} && b <= a && 0.000000001 <= a ==> WidthIn(bigrams, A, i) * a == b - a)
      && (|own| > 1 && other != {} && a < 0.000000001 && b < 0.000000001 ==> WidthIn(bigrams, A, i) * 0.000000001 == b - a)
  {
    hide IsMeanDistance, Width;
    var B := Range(|bigrams|) - A;
    var own, other := if i in A then A else B, if i in A then B else A;
    if |own| <= 1 {
      AloneIsZero(bigrams, i, own, other);
    } else if other != {} {
      WidthOfMeans(bigrams, i, own, other, a, b);
      OverLarger(a, b);
    }
  }

  lemma AloneIsZero(bigrams: seq<set<string>>, i: nat, own: set<nat>, other: set<nat>)
    requires |own| <= 1
    ensures Width(bigrams, i, own, other) == 0.0
  {
  }

  lemma WidthOfMeans(bigrams: seq<set<string>>, i: nat, own: set<nat>, other: set<nat>, a: real, b: real)
    requires i < |bigrams| && |own| > 1 && other != {}
    requires IsMeanDistance(bigrams, i, own, |own| - 1, a) && IsMeanDistance(bigrams, i, other, |other|, b)
    ensures Width(bigrams, i, own, other) == (b - a) / Max(Max(a, b), TINY)
  {
    hide Toward, IsMeanDistance, Max;
    NonEmpty(other);
    MeanDistance(bigrams, i, own, |own| - 1, a);
    MeanDistance(bigrams, i, other, |other|, b);
  }

  lemma MeanDistance(bigrams: seq<set<string>>, i: nat, cluster: set<nat>, members: nat, x: real)
    requires i < |bigrams| && members > 0 && IsMeanDistance(bigrams, i, cluster, members, x)
    ensures Toward(bigrams, i, cluster, |bigrams|) / members as real == x
  {
    hide Toward, Sum;
    TowardIs(bigrams, i, cluster);
    MeanIs(x, members, Toward(bigrams, i, cluster, |bigrams|));
  }

  lemma OverLarger(a: real, b: real)
    ensures var w := (b - a) / Max(Max(a, b), TINY);
      && (a < b && 0.000000001 <= b ==> w * b == b - a)
      && (b <= a && 0.000000001 <= a ==> w * a == b - a)
      && (a < 0.000000001 && b < 0.000000001 ==> w * 0.000000001 == b - a)
  {
    Undivided(b - a, Max(Max(a, b), TINY));
  }

  lemma TowardIs(bigrams: seq<set<string>>, i: nat, cluster: set<nat>)
    requires i < |bigrams|
    ensures Toward(bigrams, i, cluster, |bigrams|)
         == Sum(j => if 0 <= j < |bigrams| && j != i && j in cluster then 1.0 - Jaccard(bigrams[i], bigrams[j]) else 0.0, |bigrams|)
  {
    hide Jaccard;
    SumCongruence(j => if 0 <= j && j != i && j in cluster then Distance(bigrams, i, j) else 0.0,
                  j => if 0 <= j < |bigrams| && j != i && j in cluster then 1.0 - Jaccard(bigrams[i], bigrams[j]) else 0.0,
                  |bigrams|);
  }

  lemma MeanIs(x: real, n: nat, total: real)
    requires n > 0 && x * n as real == total
    ensures total / n as real == x
  {
  }

  lemma Undivided(x: real, y: real)
    requires y > 0.0
    ensures x / y * y == x
  {
  }

  /** The silhouette is the mean width. */
  lemma SilhouetteIsMean(bigrams: seq<set<string>>, A: set<nat>)
    requires |bigrams| > 0
    ensures Silhouette(bigrams, A) * |bigrams| as real == Sum(i => if i >= 0 then WidthIn(bigrams, A, i) else 0.0, |bigrams|)
  {
    hide WidthIn, Sum;
    Undivided(WidthsUpTo(bigrams, A, |bigrams|), |bigrams| as real);
  }

  lemma Quotient(a: real, b: real)
    requires a >= 0.0
    ensures (b - a) / Max(Max(a, b), TINY) <= 1.0
  {
  }

  lemma WidthAtMostOne(bigrams: seq<set<string>>, i: nat, own: set<nat>, other: set<nat>)
    ensures Width(bigrams, i, own, other) <= 1.0
  {
    if |own| > 1 {
      var f := j => if 0 <= j && j != i && j in own then Distance(bigrams, i, j) else 0.0;
      forall j | 0 <= j < |bigrams|
        ensures f(j) >= 0.0
      {
        if i < |bigrams| {
          JaccardRange(bigrams[i], bigrams[j]);
        }
      }
      SumSign(f, |bigrams|);
      NonNegativeQuotient(Toward(bigrams, i, own, |bigrams|), (|own| - 1) as real);
      Quotient(Toward(bigrams, i, own, |bigrams|) / (|own| - 1) as real,
               Toward(bigrams, i, other, |bigrams|) / (if |other| > 1 then |other| else 1) as real);
    }
  }

  lemma NonNegativeQuotient(x: real, y: real)
    requires x >= 0.0 && y > 0.0
    ensures x / y >= 0.0
  {
  }

  lemma SilhouetteAtMostOne(bigrams: seq<set<string>>, A: set<nat>)
    requires |bigrams| > 0
    ensures Silhouette(bigrams, A) <= 1.0
  {
    hide Width;
    var f := i => if i >= 0 then WidthIn(bigrams, A, i) else 0.0;
    var one := (i: int) => 1.0;
    forall i | 0 <= i < |bigrams|
      ensures f(i) <= one(i)
    {
      var B := Range(|bigrams|) - A;
      WidthAtMostOne(bigrams, i, A, B);
      WidthAtMostOne(bigrams, i, B, A);
    }
    SumMonotone(f, one, |bigrams|);
    CountOnes(|bigrams|);
    AtMostOne(WidthsUpTo(bigrams, A, |bigrams|), |bigrams| as real);
  }

  lemma AtMostOne(x: real, y: real)
    requires x <= y && y > 0.0
    ensures x / y <= 1.0
  {
  }

  lemma {:induction false} CountOnes(n: nat)
    ensures Sum(i => 1.0, n) == n as real
  {
    if n > 0 {
      CountOnes(n - 1);
    }
  }

  // ---- Enumeration ----------------------------------------------------------

  /** The k-element subsets of lo..n in lexicographic order. */
  function Combinations(lo: nat, n: nat, k: nat): seq<set<nat>>
    decreases n - lo
  {
    if k == 0 then [{}]
    else if lo >= n then []
    else WithEach(lo, Combinations(lo + 1, n, k - 1)) + Combinations(lo + 1, n, k)
  }

  function WithEach(x: nat, s: seq<set<nat>>): (r: seq<set<nat>>)
    ensures |r| == |s|
  {
    seq(|s|, i requires 0 <= i < |s| => s[i] + {x})
  }

  ghost predicate IsSubset(s: set<nat>, lo: nat, n: nat, k: nat) {
    |s| == k && forall i :: i in s ==> lo <= i < n
  }

  lemma OneMore(s: set<nat>, lo: nat, n: nat, k: nat)
    requires lo < n && IsSubset(s, lo + 1, n, k)
    ensures IsSubset(s + {lo}, lo, n, k + 1)
  {
    assert lo !in s;
  }

  lemma {:induction false} CombinationsSound(lo: nat, n: nat, k: nat, s: set<nat>)
    requires s in Combinations(lo, n, k)
    ensures IsSubset(s, lo, n, k)
    decreases n - lo
  {
    hide IsSubset, Combinations, WithEach;
    CombinationsCases(lo, n, k);
    if k == 0 {
      EmptySubset(lo, n);
    } else if lo < n {
      var first, rest := Combinations(lo + 1, n, k - 1), Combinations(lo + 1, n, k);
      if s in rest {
        CombinationsSound(lo + 1, n, k, s);
        WiderRange(s, lo, n, k);
      } else {
        var i := WithEachFrom(lo, first, s);
        CombinationsSound(lo + 1, n, k - 1, first[i]);
        OneMore(first[i], lo, n, k - 1);
      }
    }
  }

  lemma CombinationsCases(lo: nat, n: nat, k: nat)
    ensures Combinations(lo, n, k)
         == if k == 0 then [{}] else if lo >= n then []
            else WithEach(lo, Combinations(lo + 1, n, k - 1)) + Combinations(lo + 1, n, k)
  {
  }

  lemma WithEachFrom(x: nat, s: seq<set<nat>>, t: set<nat>) returns (i: nat)
    requires t in WithEach(x, s)
    ensures i < |s| && t == s[i] + {x}
  {
    i :| 0 <= i < |s| && WithEach(x, s)[i] == t;
  }

  lemma EmptySubset(lo: nat, n: nat)
    ensures IsSubset({}, lo, n, 0)
  {
  }

  lemma WiderRange(s: set<nat>, lo: nat, n: nat, k: nat)
    requires IsSubset(s, lo + 1, n, k)
    ensures IsSubset(s, lo, n, k)
  {
  }

  lemma WithEachIn(x: nat, s: seq<set<nat>>, t: set<nat>)
    requires x in t && t - {x} in s
    ensures t in WithEach(x, s)
  {
    var i :| 0 <= i < |s| && s[i] == t - {x};
    assert WithEach(x, s)[i] == t;
  }

  lemma {:induction false} CombinationsComplete(lo: nat, n: nat, k: nat, s: set<nat>)
    requires IsSubset(s, lo, n, k)
    ensures s in Combinations(lo, n, k)
    decreases n - lo
  {
    hide WithEach;
    if k == 0 {
      assert s == {};
    } else {
      var x :| x in s;
      if lo in s {
        CombinationsComplete(lo + 1, n, k - 1, s - {lo});
        WithEachIn(lo, Combinations(lo + 1, n, k - 1), s);
      } else {
        CombinationsComplete(lo + 1, n, k, s);
      }
    }
  }

  /** It lists the subsets of the range that have the right size, and all of them. */
  lemma CombinationsAre(n: nat, k: nat, s: set<nat>)
    ensures s in Combinations(0, n, k) <==> s <= Range(n) && |s| == k
  {
    if s in Combinations(0, n, k) {
      CombinationsSound(0, n, k, s);
    }
    if s <= Range(n) && |s| == k {
      CombinationsComplete(0, n, k, s);
    }
  }

  // ---- The search -----------------------------------------------------------

  /** One cluster of a partition into two. */
  ghost predicate IsSide(A: set<nat>, n: nat) {
    A <= Range(n) && A != {} && A != Range(n)
  }

  method AddUp(bigrams: seq<set<string>>, i: nat, cluster: set<nat>) returns (total: real)
    ensures total == Toward(bigrams, i, cluster, |bigrams|)
  {
    hide Distance;
    total := 0.0;
    for j := 0 to |bigrams|
      invariant total == Toward(bigrams, i, cluster, j)
    {
      if j in cluster && j != i {
        total := total + Distance(bigrams, i, j);
      }
    }
  }

  method WidthOf(bigrams: seq<set<string>>, i: nat, own: set<nat>, other: set<nat>) returns (w: real)
    ensures w == Width(bigrams, i, own, other)
  {
    hide Toward;
    if |own| <= 1 {
      return 0.0;
    }
    var toOwn := AddUp(bigrams, i, own);
    var toOther := AddUp(bigrams, i, other);
    var a := toOwn / (|own| - 1) as real;
    var b := toOther / (if |other| > 1 then |other| else 1) as real;
    w := (b - a) / Max(Max(a, b), TINY);
  }

  method AverageSilhouette(bigrams: seq<set<string>>, A: set<nat>) returns (avg: real)
    requires |bigrams| > 0
    ensures avg == Silhouette(bigrams, A)
  {
    hide Width;
    var B := Range(|bigrams|) - A;
    var total := 0.0;
    for i := 0 to |bigrams|
      invariant total == WidthsUpTo(bigrams, A, i)
    {
      var own, other := if i in A then A else B, if i in A then B else A;
      var w := WidthOf(bigrams, i, own, other);
      total := total + w;
    }
    avg := total / |bigrams| as real;
  }

  /** best is zero or some partition's silhouette. */
  ghost predicate Attained(bigrams: seq<set<string>>, best: real)
    requires |bigrams| > 0
  {
    best == 0.0 || exists A: set<nat> :: IsSide(A, |bigrams|) && Silhouette(bigrams, A) == best
  }

  /** The result is zero outside the accepted sizes; otherwise it is the larger of zero
      and the best silhouette over every partition into two non-empty clusters,
      although only one side of up to half the list is enumerated. It lies in [0, 1]. */
  method Bimodality(strings: seq<string>, cap: int, normalise: string -> string) returns (best: real)
    ensures 0.0 <= best <= 1.0
    ensures |strings| < 4 || |strings| > cap ==> best == 0.0
    ensures 4 <= |strings| <= cap ==>
      var bigrams := seq(|strings|, i requires 0 <= i < |strings| => CharBigrams(normalise(strings[i])));
      Attained(bigrams, best) && forall A: set<nat> :: IsSide(A, |strings|) ==> Silhouette(bigrams, A) <= best
  {
    if |strings| < 4 || |strings| > cap {
      return 0.0;
    }
    var bigrams := seq(|strings|, i requires 0 <= i < |strings| => CharBigrams(normalise(strings[i])));
    best := Search(bigrams);
  }

  method Search(bigrams: seq<set<string>>) returns (best: real)
    requires |bigrams| >= 2
    ensures 0.0 <= best <= 1.0 && Attained(bigrams, best)
    ensures forall A: set<nat> :: IsSide(A, |bigrams|) ==> Silhouette(bigrams, A) <= best
  {
    hide Silhouette, Combinations;
    var n := |bigrams|;
    best := 0.0;
    for k := 1 to n / 2 + 1
      invariant 0.0 <= best && Attained(bigrams, best)
      invariant forall A: set<nat> :: A <= Range(n) && 1 <= |A| < k ==> Silhouette(bigrams, A) <= best
    {
      best := SearchSize(bigrams, k, best);
    }
    forall A: set<nat> | IsSide(A, n)
      ensures Silhouette(bigrams, A) <= best
    {
      HalfIsEnough(bigrams, A);
    }
    if best != 0.0 {
      ghost var A: set<nat> :| IsSide(A, n) && Silhouette(bigrams, A) == best;
      SilhouetteAtMostOne(bigrams, A);
    }
  }

  /** All the subsets of one size. */
  method SearchSize(bigrams: seq<set<string>>, k: nat, best0: real) returns (best: real)
    requires 1 <= k <= |bigrams| / 2 && Attained(bigrams, best0)
    ensures best0 <= best && Attained(bigrams, best)
    ensures forall A: set<nat> :: A <= Range(|bigrams|) && |A| == k ==> Silhouette(bigrams, A) <= best
  {
    hide Silhouette, Combinations;
    var n := |bigrams|;
    var subsets := Combinations(0, n, k);
    best := best0;
    for m := 0 to |subsets|
      invariant best0 <= best && Attained(bigrams, best)
      invariant forall j :: 0 <= j < m ==> Silhouette(bigrams, subsets[j]) <= best
    {
      CombinationsAre(n, k, subsets[m]);
      var avg := AverageSilhouette(bigrams, subsets[m]);
      if avg > best {
        best := avg;
        assert IsSide(subsets[m], n);
      }
    }
    forall A: set<nat> | A <= Range(n) && |A| == k
      ensures Silhouette(bigrams, A) <= best
    {
      CombinationsAre(n, k, A);
      assert A in subsets;
    }
  }

  /** One of the two sides has at most half the elements. */
  lemma HalfIsEnough(bigrams: seq<set<string>>, A: set<nat>)
    requires IsSide(A, |bigrams|)
    ensures exists B: set<nat> :: B <= Range(|bigrams|) && 1 <= |B| <= |bigrams| / 2 && Silhouette(bigrams, B) == Silhouette(bigrams, A)
  {
    hide Silhouette;
    var n := |bigrams|;
    var B := Range(n) - A;
    SidesAlike(bigrams, A);
    assert |B| == n - |A|;
    if |A| <= n / 2 {
      assert A <= Range(n) && 1 <= |A| <= n / 2;
    } else {
      assert B <= Range(n) && 1 <= |B| <= n / 2;
    }
  }
}
