/** The device KV cache: per-layer buffers with a cursor, the append kernel, and
    the growth rules. Its abstract value is the contents of the buffers; the rows held
    are the part before the cursor. */
module KvCache {
  import opened Arith
  import opened BlockReduce
  import opened Wrappers

  // ---- The append kernel ---------------------------------------------------

  /** s with the elements from "at" on replaced by those of "block". */
  ghost function Overwrite(s: seq<real>, at: nat, block: seq<real>): (r: seq<real>)
    requires at + |block| <= |s|
    ensures |r| == |s|
  {
    s[..at] + block + s[at + |block|..]
  }

  /** The thread count of a launch: the product is a 32-bit one. */
  function ThreadCount(seqLen: nat, rowElems: nat): nat {
    seqLen * rowElems % U32
  }

  /** The cache slot of thread t. Its row is a 32-bit sum. */
  ghost function SlotAt(pos: nat, rowElems: nat, t: nat): nat {
    if rowElems == 0 then 0 else Times((pos + t / rowElems) % U32, rowElems) + t % rowElems
  }

  /** Slot i belongs to one of the first n threads. */
  ghost predicate Hit(pos: nat, rowElems: nat, n: nat, i: int) {
    exists t: nat :: t < n && SlotAt(pos, rowElems, t) == i
  }

  /** The buffer after every thread of a launch has copied its element. */
  ghost function Placed(was: seq<real>, pos: nat, rowElems: nat, block: seq<real>): (r: seq<real>)
    ensures |r| == |was|
  {
    seq(|was|, i requires 0 <= i < |was| =>
      if Hit(pos, rowElems, |block|, i) then
        var t: nat :| t < |block| && SlotAt(pos, rowElems, t) == i;
        block[t]
      else was[i])
  }

  /** A thread's slot lies inside the appended rows at the latest, and no two threads
      share one. */
  lemma SlotInside(pos: nat, seqLen: nat, rowElems: nat, t: nat)
    requires t < Times(seqLen, rowElems)
    ensures rowElems > 0 && t / rowElems < seqLen
    ensures t == Times(t / rowElems, rowElems) + t % rowElems
    ensures SlotAt(pos, rowElems, t) < Times(pos + seqLen, rowElems)
  {
    var r, e := LocateBlock(t, seqLen, rowElems);
    TimesIsProduct(r, rowElems);
    DivModUnique(t, rowElems, r, e);
    TimesOrdered((pos + r) % U32, pos + seqLen, rowElems);
  }

  lemma SlotsApart(pos: nat, seqLen: nat, rowElems: nat, t: nat, t': nat)
    requires t < Times(seqLen, rowElems) && t' < Times(seqLen, rowElems) && seqLen <= U32
    requires SlotAt(pos, rowElems, t) == SlotAt(pos, rowElems, t')
    ensures t == t'
  {
    hide Times;
    SlotInside(pos, seqLen, rowElems, t);
    SlotInside(pos, seqLen, rowElems, t');
    SameBlock((pos + t / rowElems) % U32, t % rowElems, (pos + t' / rowElems) % U32, t' % rowElems, rowElems);
    SameRow(pos, t / rowElems, t' / rowElems);
  }

  lemma SameBlock(a: nat, d: nat, b: nat, e: nat, w: nat)
    requires d < w && e < w && Times(a, w) + d == Times(b, w) + e
    ensures a == b && d == e
  {
    if a < b { TimesOrdered(a, b, w); }
    if b < a { TimesOrdered(b, a, w); }
  }

  lemma SameRow(pos: nat, r: nat, r': nat)
    requires r < U32 && r' < U32 && (pos + r) % U32 == (pos + r') % U32
    ensures r == r'
  {
  }

  /** kv_append on one of the two buffers: one thread per element, in any order. */
  method AppendKernel(block: seq<real>, buffer: array<real>, pos: nat, seqLen: nat, rowElems: nat, total: nat)
    requires pos < U32 && seqLen < U32
    requires total <= |block| == Times(seqLen, rowElems) && Times(pos + seqLen, rowElems) <= buffer.Length
    modifies buffer
    ensures buffer[..] == Placed(old(buffer[..]), pos, rowElems, block[..total])
  {
    hide SlotAt, Times;
    ghost var was := buffer[..];
    var pending := Threads(total);
    ghost var done: set<nat> := {};
    while pending != {}
      invariant forall t: nat :: t < total <==> t in pending || t in done
      invariant pending !! done
      invariant HalfPlaced(was, buffer[..], pos, rowElems, block, done)
      decreases pending
    {
      var tid :| tid in pending;
      ghost var before := buffer[..];
      SlotInside(pos, seqLen, rowElems, tid);
      var slot := SlotOf(tid, pos, seqLen, rowElems);
      buffer[slot] := block[tid];
      OneMorePlaced(was, before, buffer[..], pos, seqLen, rowElems, block, done, tid);
      pending, done := pending - {tid}, done + {tid};
    }
    AllPlaced(was, buffer[..], pos, rowElems, block, total, done);
  }

  /** The threads of "done" have copied their elements. */
  ghost predicate HalfPlaced(was: seq<real>, now: seq<real>, pos: nat, rowElems: nat, block: seq<real>, done: set<nat>) {
    && |now| == |was|
    && (forall t :: t in done ==> t < |block| && SlotAt(pos, rowElems, t) < |now| && now[SlotAt(pos, rowElems, t)] == block[t])
    && (forall i :: 0 <= i < |now| && (forall t :: t in done ==> SlotAt(pos, rowElems, t) != i) ==> now[i] == was[i])
  }

  lemma OneMorePlaced(was: seq<real>, before: seq<real>, now: seq<real>, pos: nat, seqLen: nat, rowElems: nat,
                      block: seq<real>, done: set<nat>, tid: nat)
    requires HalfPlaced(was, before, pos, rowElems, block, done) && tid !in done
    requires seqLen < U32 && tid < |block| == Times(seqLen, rowElems) && SlotAt(pos, rowElems, tid) < |before|
    requires now == before[SlotAt(pos, rowElems, tid) := block[tid]]
    ensures HalfPlaced(was, now, pos, rowElems, block, done + {tid})
  {
    hide SlotAt, Times;
    forall t | t in done
      ensures now[SlotAt(pos, rowElems, t)] == block[t]
    {
      if SlotAt(pos, rowElems, t) == SlotAt(pos, rowElems, tid) {
        SlotsApart(pos, seqLen, rowElems, t, tid);
      }
    }
  }

  lemma AllPlaced(was: seq<real>, now: seq<real>, pos: nat, rowElems: nat, block: seq<real>, total: nat, done: set<nat>)
    requires HalfPlaced(was, now, pos, rowElems, block, done) && total <= |block|
    requires forall t: nat :: t < total <==> t in done
    ensures now == Placed(was, pos, rowElems, block[..total])
  {
    hide SlotAt;
    var p := Placed(was, pos, rowElems, block[..total]);
    forall i | 0 <= i < |was|
      ensures now[i] == p[i]
    {
      if Hit(pos, rowElems, total, i) {
        assert forall t: nat :: t < total && SlotAt(pos, rowElems, t) == i ==> t in done && now[i] == block[t];
      } else {
        assert forall t :: t in done ==> SlotAt(pos, rowElems, t) != i;
      }
    }
  }

  /** The slot of thread tid, as the kernel computes it. */
  method SlotOf(tid: nat, pos: nat, seqLen: nat, rowElems: nat) returns (slot: nat)
    requires tid < Times(seqLen, rowElems)
    ensures slot == SlotAt(pos, rowElems, tid)
  {
    SlotInside(pos, seqLen, rowElems, tid);
    var row := tid / rowElems;
    TimesIsProduct(row, rowElems);
    var elem := tid - row * rowElems;
    TimesIsProduct((pos + row) % U32, rowElems);
    slot := (pos + row) % U32 * rowElems + elem;
  }

  // ---- When an append leaves what it should ---------------------------------

  /** No 32-bit quantity of the append wraps: neither the thread count nor a row. */
  ghost predicate Lands(pos: nat, seqLen: nat, rowElems: nat) {
    Times(seqLen, rowElems) < U32 && (Times(seqLen, rowElems) == 0 || pos + seqLen <= U32)
  }

  lemma ThreadCountBound(seqLen: nat, rowElems: nat)
    ensures ThreadCount(seqLen, rowElems) <= Times(seqLen, rowElems)
    ensures Times(seqLen, rowElems) < U32 ==> ThreadCount(seqLen, rowElems) == Times(seqLen, rowElems)
    ensures Times(seqLen, rowElems) >= U32 ==> ThreadCount(seqLen, rowElems) < Times(seqLen, rowElems)
  {
    TimesIsProduct(seqLen, rowElems);
  }

  /** Without wrapping, the block lands in consecutive slots. */
  lemma SlotInOrder(pos: nat, seqLen: nat, rowElems: nat, t: nat)
    requires t < Times(seqLen, rowElems) && pos + seqLen <= U32
    ensures SlotAt(pos, rowElems, t) == Times(pos, rowElems) + t
  {
    hide Times;
    SlotInside(pos, seqLen, rowElems, t);
    TimesAdd(pos, t / rowElems, rowElems);
  }

  lemma PlacedInOrder(was: seq<real>, pos: nat, block: seq<real>, seqLen: nat, rowElems: nat)
    requires Lands(pos, seqLen, rowElems) && |block| == Times(seqLen, rowElems)
    requires Times(pos + seqLen, rowElems) <= |was|
    ensures Times(pos, rowElems) + |block| == Times(pos + seqLen, rowElems)
    ensures Placed(was, pos, rowElems, block) == Overwrite(was, Times(pos, rowElems), block)
  {
    hide SlotAt, Times;
    TimesAdd(pos, seqLen, rowElems);
    var at := Times(pos, rowElems);
    var p, o := Placed(was, pos, rowElems, block), Overwrite(was, at, block);
    forall t: nat | t < |block|
      ensures SlotAt(pos, rowElems, t) == at + t
    {
      SlotInOrder(pos, seqLen, rowElems, t);
    }
    forall i | 0 <= i < |was|
      ensures p[i] == o[i]
    {
      if at <= i < at + |block| {
        assert SlotAt(pos, rowElems, i - at) == i;
      }
    }
  }

  /** What an append is for: the rows before the cursor and then the block. */
  ghost predicate LeavesRows(was: seq<real>, pos: nat, block: seq<real>, seqLen: nat, rowElems: nat)
    requires |block| == Times(seqLen, rowElems) && Times(pos, rowElems) <= Times(pos + seqLen, rowElems) <= |was|
  {
    ThreadCountBound(seqLen, rowElems);
    Placed(was, pos, rowElems, block[..ThreadCount(seqLen, rowElems)])[..Times(pos + seqLen, rowElems)]
      == was[..Times(pos, rowElems)] + block
  }

  /** An accepted append leaves them for every buffer and every block if and only if
      neither the thread count nor a row number wraps. */
  lemma AppendExact(pos: nat, seqLen: nat, rowElems: nat, size: nat)
    requires pos < U32 && seqLen < U32 && rowElems < U32
    requires Times(pos, rowElems) <= Times(pos + seqLen, rowElems) <= size
    ensures Lands(pos, seqLen, rowElems) <==>
      forall was: seq<real>, block: seq<real> :: |was| == size && |block| == Times(seqLen, rowElems) ==>
        LeavesRows(was, pos, block, seqLen, rowElems)
  {
    hide Placed, Times, ThreadCount;
    if Lands(pos, seqLen, rowElems) {
      forall was: seq<real>, block: seq<real> | |was| == size && |block| == Times(seqLen, rowElems)
        ensures LeavesRows(was, pos, block, seqLen, rowElems)
      {
        AppendLands(was, pos, block, seqLen, rowElems);
      }
    } else {
      var was, block := seq(size, i => 0.0), seq(Times(seqLen, rowElems), i => 1.0);
      LastSlotUnreached(pos, seqLen, rowElems, size);
      assert !LeavesRows(was, pos, block, seqLen, rowElems);
    }
  }

  lemma AppendLands(was: seq<real>, pos: nat, block: seq<real>, seqLen: nat, rowElems: nat)
    requires Lands(pos, seqLen, rowElems) && |block| == Times(seqLen, rowElems)
    requires Times(pos, rowElems) <= Times(pos + seqLen, rowElems) <= |was|
    ensures LeavesRows(was, pos, block, seqLen, rowElems)
  {
    hide Placed, Times, ThreadCount;
    ThreadCountBound(seqLen, rowElems);
    assert block[..|block|] == block;
    PlacedInOrder(was, pos, block, seqLen, rowElems);
  }

  /** Past either limit no thread reaches the last slot of the appended rows. */
  lemma LastSlotUnreached(pos: nat, seqLen: nat, rowElems: nat, size: nat)
    requires pos < U32 && seqLen < U32 && !Lands(pos, seqLen, rowElems)
    requires Times(pos, rowElems) <= Times(pos + seqLen, rowElems) <= size
    ensures !LeavesRows(seq(size, i => 0.0), pos, seq(Times(seqLen, rowElems), i => 1.0), seqLen, rowElems)
  {
    hide Times, SlotAt, ThreadCount;
    var was, block := seq(size, i => 0.0), seq(Times(seqLen, rowElems), i => 1.0);
    ThreadCountBound(seqLen, rowElems);
    TimesAdd(pos, seqLen, rowElems);
    var last := Times(pos + seqLen, rowElems) - 1;
    var total := ThreadCount(seqLen, rowElems);
    forall t: nat | t < total
      ensures SlotAt(pos, rowElems, t) < last
    {
      NotTheLast(pos, seqLen, rowElems, t, total);
    }
    assert (was[..Times(pos, rowElems)] + block)[last] == 1.0;
    assert Placed(was, pos, rowElems, block[..total])[last] == 0.0;
  }

  lemma NotTheLast(pos: nat, seqLen: nat, rowElems: nat, t: nat, total: nat)
    requires t < total <= Times(seqLen, rowElems)
    requires total < Times(seqLen, rowElems) || pos + seqLen > U32
    ensures SlotAt(pos, rowElems, t) < Times(pos + seqLen, rowElems) - 1
  {
    if pos + seqLen <= U32 {
      SlotInOrder(pos, seqLen, rowElems, t);
      TimesAdd(pos, seqLen, rowElems);
    } else {
      SlotInside(pos, seqLen, rowElems, t);
      TimesOrdered((pos + t / rowElems) % U32, pos + seqLen - 1, rowElems);
    }
  }

  // ---- One layer -----------------------------------------------------------

  /** A layer as a value: its two buffers and the cursor that says how many rows of
      them are held. */
  datatype LayerState = LayerState(numKvHeads: nat, headDim: nat, maxSeq: nat, len: nat, kBuf: seq<real>, vBuf: seq<real>)

  ghost function RowElems(s: LayerState): nat {
    Times(s.numKvHeads, s.headDim)
  }

  /** The buffers have the capacity of the shape and hold at least len rows. */
  ghost predicate WellFormed(s: LayerState) {
    && |s.kBuf| == |s.vBuf| == Times(s.maxSeq, RowElems(s))
    && Times(s.len, RowElems(s)) <= |s.kBuf|
  }

  /** The rows held. */
  ghost function HeldK(s: LayerState): seq<real>
    requires WellFormed(s)
  {
    s.kBuf[..Times(s.len, RowElems(s))]
  }

  ghost function HeldV(s: LayerState): seq<real>
    requires WellFormed(s)
  {
    s.vBuf[..Times(s.len, RowElems(s))]
  }

  ghost function EmptyLayer(numKvHeads: nat, headDim: nat, maxSeq: nat): LayerState {
    var zeros := seq(Times(maxSeq, Times(numKvHeads, headDim)), i => 0.0);
    LayerState(numKvHeads, headDim, maxSeq, 0, zeros, zeros)
  }

  /** When an append is carried out. */
  ghost predicate Accepts(s: LayerState, newK: seq<real>, newV: seq<real>, pos: nat, seqLen: nat) {
    && RowElems(s) < U32 && pos < U32 && seqLen < U32
    && |newK| == |newV| == Times(seqLen, RowElems(s))
    && Times(pos + seqLen, RowElems(s)) <= |s.kBuf|
  }

  /** The elements the launch's threads copy. */
  ghost function Reached(block: seq<real>, seqLen: nat, rowElems: nat): seq<real> {
    if ThreadCount(seqLen, rowElems) <= |block| then block[..ThreadCount(seqLen, rowElems)] else block
  }

  /** The layer after an append that was carried out. */
  ghost function Appended(s: LayerState, newK: seq<real>, newV: seq<real>, pos: nat, seqLen: nat): LayerState {
    s.(len := pos + seqLen,
       kBuf := Placed(s.kBuf, pos, RowElems(s), Reached(newK, seqLen, RowElems(s))),
       vBuf := Placed(s.vBuf, pos, RowElems(s), Reached(newV, seqLen, RowElems(s))))
  }

  /** The same in terms of rows: an append at a cursor within the rows held leaves the
      rows before it and the new ones. */
  lemma AppendedRows(s: LayerState, newK: seq<real>, newV: seq<real>, pos: nat, seqLen: nat)
    requires WellFormed(s) && Accepts(s, newK, newV, pos, seqLen)
    requires pos <= s.len && Lands(pos, seqLen, RowElems(s))
    ensures WellFormed(Appended(s, newK, newV, pos, seqLen))
    ensures Times(pos, RowElems(s)) <= Times(s.len, RowElems(s))
    ensures HeldK(Appended(s, newK, newV, pos, seqLen)) == HeldK(s)[..Times(pos, RowElems(s))] + newK
    ensures HeldV(Appended(s, newK, newV, pos, seqLen)) == HeldV(s)[..Times(pos, RowElems(s))] + newV
  {
    hide Placed, Times, ThreadCount;
    var w := RowElems(s);
    ThreadCountBound(seqLen, w);
    TimesAdd(pos, seqLen, w);
    TimesAdd(pos, s.len - pos, w);
    AppendLands(s.kBuf, pos, newK, seqLen, w);
    AppendLands(s.vBuf, pos, newV, seqLen, w);
  }

  class LayerKVCache {
    const kCache: array<real>
    const vCache: array<real>
    var currentLen: nat
    const maxSeq: nat
    const numKvHeads: nat
    const headDim: nat

    ghost function RowElems(): nat {
      Times(numKvHeads, headDim)
    }

    ghost predicate Valid()
      reads this
    {
      && kCache != vCache && kCache.Length == vCache.Length == Times(maxSeq, RowElems())
      && Times(currentLen, RowElems()) <= kCache.Length
    }

    ghost function State(): (s: LayerState)
      reads this, kCache, vCache
      requires Valid()
      ensures WellFormed(s)
    {
      LayerState(numKvHeads, headDim, maxSeq, currentLen, kCache[..], vCache[..])
    }

    constructor (maxSeq: nat, numKvHeads: nat, headDim: nat)
      ensures Valid() && State() == EmptyLayer(numKvHeads, headDim, maxSeq)
      ensures fresh(kCache) && fresh(vCache)
    {
      TimesIsProduct(numKvHeads, headDim);
      TimesIsProduct(maxSeq, numKvHeads * headDim);
      var elems := maxSeq * (numKvHeads * headDim);
      kCache := new real[elems](i => 0.0);
      vCache := new real[elems](i => 0.0);
      currentLen := 0;
      this.maxSeq, this.numKvHeads, this.headDim := maxSeq, numKvHeads, headDim;
      new;
      assert kCache[..] == vCache[..] == seq(elems, i => 0.0);
    }

    /** The cursor goes back; the buffers keep their stale rows. */
    method Clear()
      requires Valid()
      modifies this
      ensures Valid() && State() == old(State()).(len := 0)
    {
      currentLen := 0;
    }

    /** launch_kv_append followed by the cursor update: refused when the blocks
        have the wrong size or do not fit. */
    method Append(newK: seq<real>, newV: seq<real>, pos: nat, seqLen: nat) returns (ok: bool)
      requires Valid()
      modifies this, kCache, vCache
      ensures Valid()
      ensures ok == Accepts(old(State()), newK, newV, pos, seqLen)
      ensures State() == if ok then Appended(old(State()), newK, newV, pos, seqLen) else old(State())
    {
      hide Placed;
      TimesIsProduct(numKvHeads, headDim);
      var rowElems := numKvHeads * headDim;
      TimesIsProduct(seqLen, rowElems);
      TimesIsProduct(pos + seqLen, rowElems);
      var blockLen := seqLen * rowElems;
      if rowElems >= U32 || |newK| != blockLen || |newV| != blockLen {
        return false;
      }
      if pos >= U32 || seqLen >= U32 || (pos + seqLen) * rowElems > kCache.Length {
        return false;
      }
      var total := blockLen % U32;
      AppendKernel(newK, kCache, pos, seqLen, rowElems, total);
      AppendKernel(newV, vCache, pos, seqLen, rowElems, total);
      currentLen := pos + seqLen;
      ok := true;
    }
  }

  // ---- All layers ----------------------------------------------------------

  /** The layers and their buffers are pairwise separate. */
  ghost predicate Apart(layers: seq<LayerKVCache>) {
    && (forall i, j :: 0 <= i < j < |layers| ==> layers[i] != layers[j])
    && (forall i, j :: 0 <= i < |layers| && 0 <= j < |layers| ==> layers[i].kCache != layers[j].vCache)
    && (forall i, j :: 0 <= i < j < |layers| ==>
          layers[i].kCache != layers[j].kCache && layers[i].vCache != layers[j].vCache)
  }

  type Shape = (nat, nat)

  ghost predicate Overflows(shape: Shape, maxSeq: nat) {
    Times(maxSeq, Times(shape.0, shape.1)) > 0xFFFF_FFFF_FFFF_FFFF
  }

  /** Push layers until the shapes are covered; stop at a shape that overflows. */
  ghost function Grown(s: seq<LayerState>, shapes: seq<Shape>, maxSeq: nat): (seq<LayerState>, bool)
    decreases |shapes| - |s|
  {
    if |s| >= |shapes| then (s, true)
    else if Overflows(shapes[|s|], maxSeq) then (s, false)
    else Grown(s + [EmptyLayer(shapes[|s|].0, shapes[|s|].1, maxSeq)], shapes, maxSeq)
  }

  ghost predicate Mismatch(s: seq<LayerState>, shapes: seq<Shape>) {
    exists i :: 0 <= i < |s| && i < |shapes| && (s[i].numKvHeads != shapes[i].0 || s[i].headDim != shapes[i].1)
  }

  /** preallocate_kv_cache: keep, reallocate, or grow a cache; build an absent one. What
      fails leaves the cache as it was, or, when growing, with the layers grown so far. */
  ghost function Preallocated(s: Option<seq<LayerState>>, shapes: seq<Shape>, maxSeq: nat): (Option<seq<LayerState>>, bool) {
    var anew := Grown([], shapes, maxSeq);
    var replaced := if anew.1 then (Some(anew.0), true) else (s, false);
    if s.None? || Mismatch(s.value, shapes) then replaced
    else if |s.value| < |shapes| then
      var grown := Grown(s.value, shapes, maxSeq);
      (Some(grown.0), grown.1)
    else if forall i :: 0 <= i < |s.value| ==> s.value[i].maxSeq >= maxSeq then (s, true)
    else replaced
  }

  ghost predicate Covers(s: seq<LayerState>, shapes: seq<Shape>) {
    |s| >= |shapes| && forall i :: 0 <= i < |shapes| ==> s[i].numKvHeads == shapes[i].0 && s[i].headDim == shapes[i].1
  }

  /** Growing keeps what was there, and adds empty layers of the wanted shapes and size. */
  lemma {:induction false} GrownCovers(s: seq<LayerState>, shapes: seq<Shape>, maxSeq: nat)
    ensures s <= Grown(s, shapes, maxSeq).0
    ensures |s| <= |shapes| ==> |Grown(s, shapes, maxSeq).0| <= |shapes|
    ensures forall i :: |s| <= i < |Grown(s, shapes, maxSeq).0| ==>
      i < |shapes| && Grown(s, shapes, maxSeq).0[i] == EmptyLayer(shapes[i].0, shapes[i].1, maxSeq)
    ensures Grown(s, shapes, maxSeq).1 ==> |Grown(s, shapes, maxSeq).0| >= |shapes|
    decreases |shapes| - |s|
  {
    hide EmptyLayer, Overflows, Grown;
    GrownStep(s, shapes, maxSeq);
    if |s| < |shapes| && !Overflows(shapes[|s|], maxSeq) {
      var more := s + [EmptyLayer(shapes[|s|].0, shapes[|s|].1, maxSeq)];
      GrownCovers(more, shapes, maxSeq);
      assert Grown(s, shapes, maxSeq).0[|s|] == more[|s|];
    }
  }

  /** A successful preallocation covers the wanted shapes, and loses rows only where a
      layer's shape was wrong or some layer too small; and every layer then has room for
      the wanted rows, unless the cache was grown and an old layer has not: growing does
      not look at the layers it keeps. */
  lemma PreallocatedCovers(s: Option<seq<LayerState>>, shapes: seq<Shape>, maxSeq: nat)
    requires Preallocated(s, shapes, maxSeq).1
    ensures var r := Preallocated(s, shapes, maxSeq).0;
      && r.Some? && Covers(r.value, shapes)
      && (s.Some? && !Mismatch(s.value, shapes) && (forall l :: l in s.value ==> l.maxSeq >= maxSeq) ==> s.value <= r.value)
      && ((forall l :: l in r.value ==> l.maxSeq >= maxSeq) <==>
          s.None? || Mismatch(s.value, shapes) || |s.value| >= |shapes| || forall l :: l in s.value ==> l.maxSeq >= maxSeq)
  {
    hide Grown, EmptyLayer;
    GrownCovers([], shapes, maxSeq);
    SizeOfEmpty(maxSeq);
    var r := Preallocated(s, shapes, maxSeq).0.value;
    if s.Some? {
      GrownCovers(s.value, shapes, maxSeq);
    }
  }

  lemma SizeOfEmpty(maxSeq: nat)
    ensures forall h, d ::
      var l := EmptyLayer(h, d, maxSeq); l.maxSeq == maxSeq && l.numKvHeads == h && l.headDim == d
  {
  }

  ghost function Objects(l: LayerKVCache): set<object> {
    {l as object, l.kCache, l.vCache}
  }

  /** The layers of a cache: valid, separate, and made of objects of repr. */
  ghost predicate AllValid(layers: seq<LayerKVCache>, repr: set<object>)
    reads repr
  {
    Apart(layers) && forall l :: l in layers ==> Objects(l) <= repr && l.Valid()
  }

  ghost function StatesOf(layers: seq<LayerKVCache>, repr: set<object>): (s: seq<LayerState>)
    reads repr
    requires AllValid(layers, repr)
    ensures |s| == |layers|
    ensures forall i :: 0 <= i < |s| ==> s[i] == layers[i].State() && WellFormed(s[i])
  {
    if layers == [] then [] else
    var n := |layers| - 1;
    assert forall l :: l in layers[..n] ==> l in layers;
    StatesOf(layers[..n], repr) + [layers[n].State()]
  }

  lemma PushLayer(layers: seq<LayerKVCache>, repr: set<object>, l: LayerKVCache)
    requires AllValid(layers, repr) && l.Valid()
    requires Objects(l) !! repr
    ensures AllValid(layers + [l], repr + Objects(l))
    ensures StatesOf(layers + [l], repr + Objects(l)) == StatesOf(layers, repr) + [l.State()]
  {
    hide Times;
    var more := layers + [l];
    forall i | 0 <= i < |layers|
      ensures Objects(more[i]) <= repr
    {
      assert more[i] in layers;
    }
    assert more[..|layers|] == layers;
  }

  lemma GrownStep(s: seq<LayerState>, shapes: seq<Shape>, maxSeq: nat)
    ensures |s| >= |shapes| ==> Grown(s, shapes, maxSeq) == (s, true)
    ensures |s| < |shapes| && Overflows(shapes[|s|], maxSeq) ==> Grown(s, shapes, maxSeq) == (s, false)
    ensures |s| < |shapes| && !Overflows(shapes[|s|], maxSeq) ==>
      Grown(s, shapes, maxSeq) == Grown(s + [EmptyLayer(shapes[|s|].0, shapes[|s|].1, maxSeq)], shapes, maxSeq)
  {
  }

  /** grow_to_shapes and new_per_layer: push layers until the shapes are covered. */
  method GrowLayers(from: seq<LayerKVCache>, ghost fromRepr: set<object>, shapes: seq<Shape>, maxSeq: nat)
      returns (layers: seq<LayerKVCache>, ghost repr: set<object>, ok: bool)
    requires AllValid(from, fromRepr)
    ensures fromRepr <= repr && fresh(repr - fromRepr) && AllValid(layers, repr)
    ensures (StatesOf(layers, repr), ok) == Grown(StatesOf(from, fromRepr), shapes, maxSeq)
  {
    hide Apart, StatesOf, Grown, AllValid;
    layers, repr, ok := from, fromRepr, true;
    while |layers| < |shapes|
      invariant fromRepr <= repr && fresh(repr - fromRepr) && AllValid(layers, repr)
      invariant forall o :: o in repr ==> allocated(o)
      invariant Grown(StatesOf(layers, repr), shapes, maxSeq) == Grown(StatesOf(from, fromRepr), shapes, maxSeq)
    {
      GrownStep(StatesOf(layers, repr), shapes, maxSeq);
      var (numKvHeads, headDim) := shapes[|layers|];
      var rowElems := Offset(numKvHeads, headDim);
      var elems := Offset(maxSeq, rowElems);
      if elems > USIZE_MAX {
        return layers, repr, false;
      }
      var l := new LayerKVCache(maxSeq, numKvHeads, headDim);
      PushLayer(layers, repr, l);
      layers, repr := layers + [l], repr + Objects(l);
    }
    GrownStep(StatesOf(layers, repr), shapes, maxSeq);
  }

  /** The backend's cache: absent until it is first allocated. */
  class CudaKVCache {
    var present: bool
    var layers: seq<LayerKVCache>
    ghost var repr: set<object>

    ghost predicate Valid()
      reads this, repr
    {
      AllValid(layers, repr) && this !in repr && (!present ==> layers == [])
    }

    /** The layers of a present cache. */
    ghost function Layers(): (s: seq<LayerState>)
      reads this, repr
      requires Valid()
    {
      StatesOf(layers, repr)
    }

    ghost function State(): Option<seq<LayerState>>
      reads this, repr
      requires Valid()
    {
      if present then Some(Layers()) else None
    }

    constructor ()
      ensures Valid() && State() == None && repr == {}
    {
      present, layers, repr := false, [], {};
    }

    method HasShapeMismatch(shapes: seq<Shape>) returns (r: bool)
      requires Valid()
      ensures r == Mismatch(Layers(), shapes)
    {
      var i := 0;
      while i < |layers| && i < |shapes|
        invariant 0 <= i <= |layers| && i <= |shapes|
        invariant !Mismatch(Layers()[..i], shapes)
      {
        if layers[i].numKvHeads != shapes[i].0 || layers[i].headDim != shapes[i].1 {
          assert Layers()[i].numKvHeads != shapes[i].0 || Layers()[i].headDim != shapes[i].1;
          return true;
        }
        assert Layers()[..i + 1][..i] == Layers()[..i];
        i := i + 1;
      }
      r := false;
    }

    /** Whether every layer has room for maxSeq rows. */
    method IsRoomy(maxSeq: nat) returns (r: bool)
      requires Valid()
      ensures r <==> forall i :: 0 <= i < |Layers()| ==> Layers()[i].maxSeq >= maxSeq
    {
      r := true;
      for i := 0 to |layers|
        invariant r <==> forall j :: 0 <= j < i ==> Layers()[j].maxSeq >= maxSeq
      {
        assert Layers()[i].maxSeq == layers[i].maxSeq;
        r := r && layers[i].maxSeq >= maxSeq;
      }
    }

    method Preallocate(shapes: seq<Shape>, maxSeq: nat) returns (ok: bool)
      requires Valid()
      modifies this
      ensures Valid() && fresh(repr - old(repr))
      ensures (State(), ok) == Preallocated(old(State()), shapes, maxSeq)
    {
      hide StatesOf, Grown, Mismatch, AllValid;
      var mismatch := HasShapeMismatch(shapes);
      var roomy := IsRoomy(maxSeq);
      if present && !mismatch && |layers| >= |shapes| && roomy {
        ok := true;
      } else if present && !mismatch && |layers| < |shapes| {
        var grown;
        grown, repr, ok := GrowLayers(layers, repr, shapes, maxSeq);
        layers := grown;
      } else {
        ok := Rebuild(shapes, maxSeq);
      }
    }

    /** new_per_layer: all layers anew, kept only if every shape can be built. */
    method Rebuild(shapes: seq<Shape>, maxSeq: nat) returns (ok: bool)
      requires Valid()
      modifies this
      ensures Valid() && fresh(repr - old(repr))
      ensures var anew := Grown([], shapes, maxSeq);
        (State(), ok) == if anew.1 then (Some(anew.0), true) else (old(State()), false)
    {
      hide StatesOf, Grown, AllValid;
      EmptyStates();
      var built;
      ghost var builtRepr;
      built, builtRepr, ok := GrowLayers([], {}, shapes, maxSeq);
      if ok {
        present, layers, repr := true, built, builtRepr;
      }
    }

    lemma EmptyStates()
      ensures AllValid([], {}) && StatesOf([], {}) == []
    {
    }

    /** reset: every cursor goes back to zero. */
    method Clear()
      requires Valid()
      modifies repr
      ensures Valid() && layers == old(layers) && repr == old(repr) && present == old(present)
      ensures Layers() == Cleared(old(Layers()))
    {
      hide StatesOf;
      ghost var before := Layers();
      for i := 0 to |layers|
        invariant forall j :: 0 <= j < |layers| ==> layers[j].Valid()
        invariant forall j :: 0 <= j < |layers| ==>
          layers[j].State() == if j < i then before[j].(len := 0) else before[j]
      {
        layers[i].Clear();
      }
      assert Layers() == Cleared(before);
    }

    /** native_kv_append: false when there is no cache or no such layer, or the append is
        refused. */
    method Append(layer: nat, newK: seq<real>, newV: seq<real>, pos: nat, seqLen: nat) returns (ok: bool)
      requires Valid()
      modifies repr
      ensures Valid() && layers == old(layers) && repr == old(repr) && present == old(present)
      ensures ok == (layer < |layers| && Accepts(old(Layers())[layer], newK, newV, pos, seqLen))
      ensures Layers() ==
        if ok then old(Layers())[layer := Appended(old(Layers())[layer], newK, newV, pos, seqLen)] else old(Layers())
    {
      hide StatesOf, Appended, Accepts;
      ghost var before := Layers();
      if layer >= |layers| {
        return false;
      }
      assert Objects(layers[layer]) <= repr by { assert layers[layer] in layers; }
      ok := layers[layer].Append(newK, newV, pos, seqLen);
      assert Layers() == if ok then before[layer := Appended(before[layer], newK, newV, pos, seqLen)] else before;
    }
  }

  ghost function Cleared(s: seq<LayerState>): (r: seq<LayerState>)
    ensures |r| == |s|
  {
    seq(|s|, i requires 0 <= i < |s| => s[i].(len := 0))
  }
}
