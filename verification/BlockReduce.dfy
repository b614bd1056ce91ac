/** Block-wide reductions of the CUDA kernels: the shared-memory tree, the warp
    shuffle, and the strided per-thread accumulation that feeds them. */
module BlockReduce {
  import opened Arith
  import opened Sums

  /** The thread indices of a block of n threads. */
  function Threads(n: nat): (r: set<nat>)
    ensures forall t: nat :: t in r <==> t < n
  {
    if n == 0 then {} else Threads(n - 1) + {n - 1}
  }

  /** A frame: nothing outside [lo, hi) has changed. */
  ghost predicate SameOutside<T>(now: seq<T>, was: seq<T>, lo: nat, hi: nat) {
    |now| == |was| && forall i :: 0 <= i < |now| && !(lo <= i < hi) ==> now[i] == was[i]
  }

  // ---- The tree, as a function ---------------------------------------------

  /** One barrier interval of the tree: lane i < off absorbs lane i + off. */
  ghost function TreeStep<T>(op: (T, T) -> T, s: seq<T>, off: nat): (r: seq<T>)
    requires 2 * off <= |s|
    ensures |r| == |s|
  {
    seq(|s|, i requires 0 <= i < |s| => if i < off then op(s[i], s[i + off]) else s[i])
  }

  /** All the intervals: strides width/2, width/4, ..., 1. */
  ghost function Tree<T>(op: (T, T) -> T, s: seq<T>, width: nat): (r: seq<T>)
    requires width <= |s|
    ensures |r| == |s|
    decreases width
  {
    if width <= 1 then s else Tree(op, TreeStep(op, s, width / 2), width / 2)
  }

  predicate IsPow2(n: nat) {
    n == 1 || (n > 1 && n % 2 == 0 && IsPow2(n / 2))
  }

  // ---- The tree, as the block executes it ----------------------------------

  /** One barrier interval. Every active thread loads its own cell, loads its
      partner's cell and stores the combination; these three accesses of the
      threads interleave in any order. */
  method TreeInterval<T>(a: array<T>, op: (T, T) -> T, off: nat)
    requires 2 * off <= a.Length
    modifies a
    ensures a[..] == TreeStep(op, old(a[..]), off)
  {
    hide TreeStep;
    ghost var was := a[..];
    var ready, loadedOwn, loadedBoth := Threads(off), {}, {};
    var av, bv := a[..], a[..];
    while ready + loadedOwn + loadedBoth != {}
      invariant |av| == |bv| == a.Length
      invariant ready !! loadedOwn !! loadedBoth
      invariant forall t :: t in ready || t in loadedOwn || t in loadedBoth ==> 0 <= t < off && a[t] == was[t]
      invariant forall t :: t in loadedOwn || t in loadedBoth ==> av[t] == was[t]
      invariant forall t :: t in loadedBoth ==> bv[t] == was[t + off]
      invariant forall t :: 0 <= t < off && t !in ready && t !in loadedOwn && t !in loadedBoth
                  ==> a[t] == op(was[t], was[t + off])
      invariant forall t :: off <= t < a.Length ==> a[t] == was[t]
      decreases ready, loadedOwn, loadedBoth
    {
      var t :| t in ready + loadedOwn + loadedBoth;
      if t in ready {
        av := av[t := a[t]];
        ready, loadedOwn := ready - {t}, loadedOwn + {t};
      } else if t in loadedOwn {
        bv := bv[t := a[t + off]];
        loadedOwn, loadedBoth := loadedOwn - {t}, loadedBoth + {t};
      } else {
        a[t] := op(av[t], bv[t]);
        loadedBoth := loadedBoth - {t};
      }
    }
    TreeStepFrom(op, was, off, a[..]);
  }

  lemma TreeStepFrom<T>(op: (T, T) -> T, was: seq<T>, off: nat, now: seq<T>)
    requires 2 * off <= |was| == |now|
    requires forall t :: 0 <= t < off ==> now[t] == op(was[t], was[t + off])
    requires forall t :: off <= t < |now| ==> now[t] == was[t]
    ensures now == TreeStep(op, was, off)
  {
  }

  /** The whole tree over a block of threads, one barrier after each stride. */
  method TreeReduce<T>(a: array<T>, op: (T, T) -> T)
    requires IsPow2(a.Length)
    modifies a
    ensures a[..] == Tree(op, old(a[..]), a.Length)
  {
    var off := a.Length / 2;
    ghost var width := a.Length;
    while off > 0
      invariant 0 <= width <= a.Length && IsPow2(width) && off == width / 2
      invariant Tree(op, a[..], width) == Tree(op, old(a[..]), a.Length)
      decreases off
    {
      TreeInterval(a, op, off);
      width, off := width / 2, off / 2;
    }
  }

  // ---- What the tree computes ----------------------------------------------

  function Plus(x: real, y: real): real { x + y }

  /** One interval keeps the sum over the active width. */
  lemma TreeStepSums(s: seq<real>, h: nat)
    requires 2 * h <= |s|
    ensures Sum(i => At(TreeStep(Plus, s, h), i), h) == Sum(i => At(s, i), 2 * h)
  {
    var f := i => At(s, i);
    var upper := i => At(s, h + i);
    var s' := TreeStep(Plus, s, h);
    SumSplit(f, h, upper, h);
    SumAdd(f, upper, i => At(s', i), h);
  }

  /** Over reals the tree adds up its whole width. */
  lemma {:induction false} TreeSums(s: seq<real>, width: nat)
    requires IsPow2(width) && width <= |s|
    ensures Tree(Plus, s, width)[0] == Sum(i => At(s, i), width)
    decreases width
  {
    var f := i => At(s, i);
    if width == 1 {
      assert Sum(f, 1) == Sum(f, 0) + f(0);
    } else {
      TreeSums(TreeStep(Plus, s, width / 2), width / 2);
      TreeStepSums(s, width / 2);
    }
  }

  /** "beats" orders values totally up to ties. */
  ghost predicate StrictWeakOrder<T(!new)>(beats: (T, T) -> bool) {
    && (forall x, y :: beats(x, y) ==> !beats(y, x))
    && (forall x, y, z :: !beats(x, y) && !beats(y, z) ==> !beats(x, z))
  }

  /** Keep the left value unless the right one beats it. */
  function Pick<T>(beats: (T, T) -> bool): (T, T) -> T {
    (a, b) => if beats(b, a) then b else a
  }

  /** w is one of the first n elements and none of them beats it. */
  ghost predicate IsPick<T>(beats: (T, T) -> bool, s: seq<T>, n: nat, w: T)
    requires n <= |s|
  {
    && (exists i :: 0 <= i < n && s[i] == w)
    && forall i :: 0 <= i < n ==> !beats(s[i], w)
  }

  /** The tree of a selecting operation ends with an element nobody beats. */
  lemma {:induction false} TreePicks<T(!new)>(beats: (T, T) -> bool, s: seq<T>, width: nat)
    requires IsPow2(width) && width <= |s|
    requires StrictWeakOrder(beats)
    ensures IsPick(beats, s, width, Tree(Pick(beats), s, width)[0])
    decreases width
  {
    if width > 1 {
      var h := width / 2;
      var s' := TreeStep(Pick(beats), s, h);
      TreePicks(beats, s', h);
      PickOfHalves(beats, s, h, Tree(Pick(beats), s', h)[0]);
    }
  }

  lemma PickOfHalves<T(!new)>(beats: (T, T) -> bool, s: seq<T>, h: nat, w: T)
    requires 2 * h <= |s| && StrictWeakOrder(beats)
    requires IsPick(beats, TreeStep(Pick(beats), s, h), h, w)
    ensures IsPick(beats, s, 2 * h, w)
  {
    var s' := TreeStep(Pick(beats), s, h);
    var i :| 0 <= i < h && s'[i] == w;
    assert s'[i] == s[i] || s'[i] == s[i + h];
    forall j | 0 <= j < 2 * h
      ensures !beats(s[j], w)
    {
      var m := if j < h then j else j - h;
      assert !beats(s'[m], w);
      assert s'[m] == Pick(beats)(s[m], s[m + h]);
      assert !beats(s[j], s'[m]);
    }
  }

  // ---- Strided accumulation ------------------------------------------------

  /** What thread t of a block of the given size has accumulated once the
      elements before n have been passed: every element i with i % block == t,
      in increasing order of i. */
  ghost function Strided<T, A>(f: (A, T) -> A, init: A, s: seq<T>, t: nat, block: nat, n: nat): A
    requires block > 0 && n <= |s|
  {
    if n == 0 then init
    else
      var acc := Strided(f, init, s, t, block, n - 1);
      if (n - 1) % block == t then f(acc, s[n - 1]) else acc
  }

  /** Between two elements of the same thread nothing is accumulated. */
  lemma {:induction false} StridedSkip<T, A>(f: (A, T) -> A, init: A, s: seq<T>, t: nat, block: nat, i: nat, n: nat)
    requires t < block && i % block == t && i < n <= i + block && n <= |s|
    ensures Strided(f, init, s, t, block, n) == f(Strided(f, init, s, t, block, i), s[i])
    decreases n
  {
    if n > i + 1 {
      StridedSkip(f, init, s, t, block, i, n - 1);
      NewRemainder(i, n - 1 - i, block);
    }
  }

  /** Before its first element a thread has accumulated nothing. */
  lemma {:induction false} StridedStart<T, A>(f: (A, T) -> A, init: A, s: seq<T>, t: nat, block: nat, n: nat)
    requires t < block && n <= t && n <= |s|
    ensures Strided(f, init, s, t, block, n) == init
  {
    if n > 0 {
      StridedStart(f, init, s, t, block, n - 1);
      DivModUnique(n - 1, block, 0, n - 1);
    }
  }

  /** The partial sums of all threads add up to the whole sum. */
  lemma {:induction false} StridedSums<T>(f: (real, T) -> real, g: T -> real, s: seq<T>, block: nat, n: nat,
                                          part: int -> real, whole: int -> real)
    requires block > 0 && n <= |s|
    requires forall a, x :: f(a, x) == a + g(x)
    requires forall t :: 0 <= t < block ==> part(t) == Strided(f, 0.0, s, t, block, n)
    requires forall i :: 0 <= i < n ==> whole(i) == g(s[i])
    ensures Sum(part, block) == Sum(whole, n)
  {
    if n == 0 {
      SumZero(part, block);
    } else {
      var before := t => if 0 <= t then Strided(f, 0.0, s, t, block, n - 1) else 0.0;
      StridedSums(f, g, s, block, n - 1, before, whole);
      SumUpdate(before, part, block, (n - 1) % block);
    }
  }

  /** A selecting accumulation keeps either its start value or one of its own
      elements, and nothing it has passed beats it. */
  lemma {:induction false} StridedPicks<T(!new)>(beats: (T, T) -> bool, init: T, s: seq<T>, t: nat, block: nat, n: nat)
    requires block > 0 && n <= |s|
    requires StrictWeakOrder(beats)
    ensures var w := Strided(Pick(beats), init, s, t, block, n);
      && (w == init || exists i :: 0 <= i < n && i % block == t && s[i] == w)
      && !beats(init, w)
      && forall i :: 0 <= i < n && i % block == t ==> !beats(s[i], w)
  {
    if n > 0 {
      StridedPicks(beats, init, s, t, block, n - 1);
    }
  }
}
