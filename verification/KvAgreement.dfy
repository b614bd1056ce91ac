/** Runs over the KV cache, and the agreement of decoding with prefilling on the
    rows such a run leaves. */
module KvAgreement {
  import opened Arith
  import opened Sums
  import opened Libm
  import opened BlockReduce
  import opened Windows
  import opened AttentionSpec
  import opened Attention
  import opened KvCache
  import opened Wrappers

  // ---- Runs ----------------------------------------------------------------

  datatype Op =
    | Clear
    | Preallocate(shapes: seq<Shape>, maxSeq: nat)
    | Append(layer: nat, newK: seq<real>, newV: seq<real>, pos: nat, seqLen: nat)

  /** A cache as a value: None before the first allocation. */
  type CacheState = Option<seq<LayerState>>

  ghost function Step(s: CacheState, op: Op): CacheState {
    match op
    case Clear => if s.Some? then Some(Cleared(s.value)) else None
    case Preallocate(shapes, maxSeq) => Preallocated(s, shapes, maxSeq).0
    case Append(li, newK, newV, pos, seqLen) =>
      if s.Some? && li < |s.value| && Accepts(s.value[li], newK, newV, pos, seqLen)
      then Some(s.value[li := Appended(s.value[li], newK, newV, pos, seqLen)]) else s
  }

  ghost function Replay(s: CacheState, ops: seq<Op>): CacheState
    decreases |ops|
  {
    if ops == [] then s else Replay(Step(s, ops[0]), ops[1..])
  }

  /** Any run of the device cache leaves exactly what the run leaves on values,
      appends beyond the cursor and wrapping ones included. */
  method Run(cache: CudaKVCache, ops: seq<Op>)
    requires cache.Valid()
    modifies cache, cache.repr
    ensures cache.Valid() && fresh(cache.repr - old(cache.repr))
    ensures cache.State() == Replay(old(cache.State()), ops)
  {
    hide Step;
    for i := 0 to |ops|
      invariant cache.Valid() && fresh(cache.repr - old(cache.repr))
      invariant Replay(cache.State(), ops[i..]) == Replay(old(cache.State()), ops)
    {
      assert ops[i..][0] == ops[i] && ops[i..][1..] == ops[i + 1..];
      Perform(cache, ops[i]);
    }
  }

  method Perform(cache: CudaKVCache, op: Op)
    requires cache.Valid()
    modifies cache, cache.repr
    ensures cache.Valid() && fresh(cache.repr - old(cache.repr))
    ensures cache.State() == Step(old(cache.State()), op)
  {
    hide Accepts, Appended, Preallocated, Cleared, StatesOf;
    match op
    case Clear => cache.Clear();
    case Preallocate(shapes, maxSeq) => var _ := cache.Preallocate(shapes, maxSeq);
    case Append(li, newK, newV, pos, seqLen) =>
      var _ := cache.Append(li, newK, newV, pos, seqLen);
  }

  ghost predicate AllWellFormed(s: CacheState) {
    s.Some? ==> forall l :: l in s.value ==> WellFormed(l)
  }

  lemma {:induction false} GrownWellFormed(s: seq<LayerState>, shapes: seq<Shape>, maxSeq: nat)
    requires forall l :: l in s ==> WellFormed(l)
    ensures forall l :: l in Grown(s, shapes, maxSeq).0 ==> WellFormed(l)
    decreases |shapes| - |s|
  {
    if |s| < |shapes| && !Overflows(shapes[|s|], maxSeq) {
      var e := EmptyLayer(shapes[|s|].0, shapes[|s|].1, maxSeq);
      assert WellFormed(e);
      GrownWellFormed(s + [e], shapes, maxSeq);
    }
  }

  lemma StepWellFormed(s: CacheState, op: Op)
    requires AllWellFormed(s)
    ensures AllWellFormed(Step(s, op))
  {
    hide Placed, Reached;
    match op
    case Clear =>
      if s.Some? {
        assert forall i :: 0 <= i < |s.value| ==> s.value[i] in s.value && WellFormed(Cleared(s.value)[i]);
      }
    case Preallocate(shapes, maxSeq) =>
      GrownWellFormed([], shapes, maxSeq);
      if s.Some? {
        GrownWellFormed(s.value, shapes, maxSeq);
      }
    case Append(li, newK, newV, pos, seqLen) =>
      if s.Some? && li < |s.value| && Accepts(s.value[li], newK, newV, pos, seqLen) {
        assert s.value[li] in s.value;
        assert WellFormed(Appended(s.value[li], newK, newV, pos, seqLen));
      }
  }

  /** Every reachable cache has buffers of its layers' shapes and cursors within them. */
  lemma {:induction false} ReplayWellFormed(s: CacheState, ops: seq<Op>)
    requires AllWellFormed(s)
    ensures AllWellFormed(Replay(s, ops))
    decreases |ops|
  {
    if ops != [] {
      StepWellFormed(s, ops[0]);
      ReplayWellFormed(Step(s, ops[0]), ops[1..]);
    }
  }

  // ---- Chunks --------------------------------------------------------------

  /** A block of rows handed to one append. */
  datatype Chunk = Chunk(K: seq<real>, V: seq<real>, rows: nat)

  ghost function AllK(chunks: seq<Chunk>): seq<real> {
    if chunks == [] then [] else chunks[0].K + AllK(chunks[1..])
  }

  ghost function AllV(chunks: seq<Chunk>): seq<real> {
    if chunks == [] then [] else chunks[0].V + AllV(chunks[1..])
  }

  ghost function AllRows(chunks: seq<Chunk>): nat {
    if chunks == [] then 0 else chunks[0].rows + AllRows(chunks[1..])
  }

  /** The appends that feed the chunks in order, each at the cursor. */
  ghost function Feed(li: nat, pos: nat, chunks: seq<Chunk>): seq<Op>
    decreases |chunks|
  {
    if chunks == [] then []
    else [Append(li, chunks[0].K, chunks[0].V, pos, chunks[0].rows)] + Feed(li, pos + chunks[0].rows, chunks[1..])
  }

  /** Chunks of the layer's row size that fit its remaining capacity. */
  ghost predicate Fits(s: LayerState, chunks: seq<Chunk>) {
    && WellFormed(s) && RowElems(s) < U32
    && s.len + AllRows(chunks) < U32
    && Times(s.len + AllRows(chunks), RowElems(s)) <= |s.kBuf|
    && forall c :: c in chunks ==>
         |c.K| == |c.V| == Times(c.rows, RowElems(s)) && Times(c.rows, RowElems(s)) < U32
  }

  /** The layer t is the layer s with more rows. */
  ghost predicate Extends(t: LayerState, s: LayerState, K: seq<real>, V: seq<real>, rows: nat) {
    && WellFormed(s) && WellFormed(t)
    && t.numKvHeads == s.numKvHeads && t.headDim == s.headDim && t.maxSeq == s.maxSeq && t.len == s.len + rows
    && HeldK(t) == HeldK(s) + K && HeldV(t) == HeldV(s) + V
  }

  /** However the rows are cut into chunks, the layer ends with all of them in order,
      and no other layer changes. */
  lemma {:induction false} ChunksConcatenate(s: seq<LayerState>, li: nat, chunks: seq<Chunk>)
    requires li < |s| && Fits(s[li], chunks)
    ensures var r := Replay(Some(s), Feed(li, s[li].len, chunks));
      r.Some? && |r.value| == |s| && r.value == s[li := r.value[li]]
      && Extends(r.value[li], s[li], AllK(chunks), AllV(chunks), AllRows(chunks))
    decreases |chunks|
  {
    hide Step, Fits, Extends, Appended;
    var l := s[li];
    if chunks == [] {
      NothingAppended(l, chunks);
      assert s == s[li := s[li]];
    } else {
      var c := chunks[0];
      FirstChunk(s, li, chunks);
      var first := Appended(l, c.K, c.V, l.len, c.rows);
      var s' := s[li := first];
      Lengths(first, l, c);
      ChunksConcatenate(s', li, chunks[1..]);
      var ops := Feed(li, l.len, chunks);
      assert ops[1..] == Feed(li, l.len + c.rows, chunks[1..]) == Feed(li, s'[li].len, chunks[1..]);
      assert Replay(Some(s), ops) == Replay(Some(s'), ops[1..]);
      var last := Replay(Some(s'), ops[1..]).value;
      ExtendedTwice(last[li], first, l, c.K, c.V, c.rows, AllK(chunks[1..]), AllV(chunks[1..]), AllRows(chunks[1..]));
      assert s'[li := last[li]] == s[li := last[li]];
    }
  }

  lemma Lengths(t: LayerState, s: LayerState, c: Chunk)
    requires Extends(t, s, c.K, c.V, c.rows)
    ensures t.len == s.len + c.rows
  {
  }

  lemma NothingAppended(l: LayerState, chunks: seq<Chunk>)
    requires Fits(l, chunks)
    ensures Extends(l, l, [], [], 0)
  {
  }

  lemma ExtendedTwice(u: LayerState, t: LayerState, s: LayerState, K: seq<real>, V: seq<real>, n: nat,
                      K': seq<real>, V': seq<real>, n': nat)
    requires Extends(t, s, K, V, n) && Extends(u, t, K', V', n')
    ensures Extends(u, s, K + K', V + V', n + n')
  {
    hide HeldK, HeldV;
  }

  lemma FirstChunk(s: seq<LayerState>, li: nat, chunks: seq<Chunk>)
    requires li < |s| && chunks != [] && Fits(s[li], chunks)
    ensures var c, l := chunks[0], s[li]; var first := Appended(l, c.K, c.V, l.len, c.rows);
      && Step(Some(s), Append(li, c.K, c.V, l.len, c.rows)) == Some(s[li := first])
      && Extends(first, l, c.K, c.V, c.rows) && Fits(first, chunks[1..])
  {
    hide Placed, Reached;
    var l, c, w := s[li], chunks[0], RowElems(s[li]);
    assert c in chunks;
    var rest := AllRows(chunks[1..]);
    TimesAdd(l.len, c.rows, w);
    TimesAdd(l.len + c.rows, rest, w);
    assert l.len + c.rows + rest == l.len + AllRows(chunks);
    AppendedRows(l, c.K, c.V, l.len, c.rows);
    assert HeldK(l)[..Times(l.len, w)] == HeldK(l) && HeldV(l)[..Times(l.len, w)] == HeldV(l);
    assert forall d :: d in chunks[1..] ==> d in chunks;
  }

  // ---- Agreement -----------------------------------------------------------

  /** Two outputs whose windows agree, one of them from window "first" on. */
  ghost predicate SameWindows(out: seq<real>, rows: seq<seq<real>>, out': seq<real>, rows': seq<seq<real>>,
                              w: nat, first: nat) {
    && 0 < |rows| && |out| == Times(|rows|, w) && WindowsDone(out, w, rows, Threads(|rows|))
    && WindowsDone(out', w, rows', Threads(|rows'|)) && first + |rows| <= |rows'|
    && forall h :: 0 <= h < |rows| ==> rows[h] == rows'[first + h]
  }

  lemma SameElem(out: seq<real>, rows: seq<seq<real>>, out': seq<real>, rows': seq<seq<real>>,
                 w: nat, first: nat, x: nat)
    requires SameWindows(out, rows, out', rows', w, first) && x < |out|
    ensures At(out, x) == Elem(out', Times(first, w), x)
  {
    hide WindowsDone;
    var h, d := LocateBlock(x, |rows|, w);
    WindowElem(out, rows, w, h);
    WindowElem(out', rows', w, first + h);
    TimesAdd(first, h, w);
    assert Elem(out, Times(h, w), d) == Elem(out', Times(first + h, w), d);
  }

  lemma WindowsMatch(out: seq<real>, rows: seq<seq<real>>, out': seq<real>, rows': seq<seq<real>>,
                     w: nat, first: nat)
    requires SameWindows(out, rows, out', rows', w, first)
    ensures Times(first, w) + |out| <= |out'| && out == out'[Times(first, w)..Times(first, w) + |out|]
  {
    hide SameWindows, Elem, At, Times;
    WindowsFit(out, rows, out', rows', w, first);
    forall x | 0 <= x < |out|
      ensures At(out, x) == Elem(out', Times(first, w), x)
    {
      SameElem(out, rows, out', rows', w, first, x);
    }
    SliceFromElems(out, out', Times(first, w));
  }

  lemma WindowsFit(out: seq<real>, rows: seq<seq<real>>, out': seq<real>, rows': seq<seq<real>>,
                   w: nat, first: nat)
    requires SameWindows(out, rows, out', rows', w, first)
    ensures Times(first, w) + |out| <= |out'|
  {
    hide WindowsDone;
    WindowElem(out', rows', w, first + (|rows| - 1));
    TimesAdd(first, |rows| - 1, w);
  }

  lemma SliceFromElems(s: seq<real>, t: seq<real>, from: nat)
    requires from + |s| <= |t| && forall x :: 0 <= x < |s| ==> At(s, x) == Elem(t, from, x)
    ensures s == t[from..from + |s|]
  {
    forall x | 0 <= x < |s|
      ensures s[x] == t[from + x]
    {
      assert At(s, x) == Elem(t, from, x);
    }
  }

  /** The decoded output is the prefilled output's row qi. */
  lemma DecodedRow(m: Libm, c: Config, qRow: seq<real>, Kc: seq<real>, Vc: seq<real>,
                   q: seq<real>, K: seq<real>, V: seq<real>, numQ: nat, reps: nat, seqLen: nat, qi: nat,
                   decoded: seq<real>, prefilled: seq<real>)
    requires HeadsFit(c, numQ, reps) && qi < seqLen && numQ > 0
    requires forall e :: 0 <= e < Times(numQ, c.headDim) ==> At(qRow, e) == Elem(q, Times(qi, Times(numQ, c.headDim)), e)
    requires SamePrefix(Kc, K, Times(qi + 1, c.kvDim)) && SamePrefix(Vc, V, Times(qi + 1, c.kvDim))
    requires |decoded| == Times(numQ, c.headDim)
    requires WindowsDone(decoded, c.headDim, DecodeRows(m, c, qRow, Kc, Vc, numQ, reps, qi + 1), Threads(numQ))
    requires WindowsDone(prefilled, c.headDim, PrefillRows(m, c, q, K, V, numQ, reps, seqLen), Threads(Times(seqLen, numQ)))
    ensures Times(qi, Times(numQ, c.headDim)) + Times(numQ, c.headDim) <= |prefilled|
    ensures decoded == prefilled[Times(qi, Times(numQ, c.headDim))..Times(qi, Times(numQ, c.headDim)) + Times(numQ, c.headDim)]
  {
    hide WindowsDone, DecodeRows, PrefillRows, Times;
    var rows := DecodeRows(m, c, qRow, Kc, Vc, numQ, reps, qi + 1);
    var rows' := PrefillRows(m, c, q, K, V, numQ, reps, seqLen);
    var first := Times(qi, numQ);
    TimesNested(qi, numQ, c.headDim);
    TimesOrdered(qi, seqLen, numQ);
    forall h | 0 <= h < numQ
      ensures rows[h] == rows'[first + h]
    {
      DecodeMatchesPrefill(m, c, qRow, Kc, Vc, q, K, V, numQ, reps, seqLen, qi, h);
    }
    WindowsMatch(decoded, rows, prefilled, rows', c.headDim, first);
  }

  /** Prefill over the rows a layer holds, uploaded afresh. */
  method PrefillLayer(m: Libm, c: Config, layer: LayerKVCache, q: seq<real>, numQ: nat, reps: nat)
      returns (r: Launch<array<real>>)
    requires layer.Valid() && numQ > 0 && (reps > 0 ==> HeadsFit(c, numQ, reps)) && c.kvDim == layer.RowElems()
    ensures r.Refused? <==>
      var kv := Times(layer.currentLen, c.kvDim); !PrefillFits(c, |q|, kv, kv, numQ, reps, layer.currentLen)
    ensures r.NeverEnds? <==> !r.Refused? && layer.currentLen > 0 && c.headDim + 256 > U32
    ensures r.Done? && layer.currentLen > 0 ==>
      WindowsDone(r.out[..], c.headDim,
                  PrefillRows(m, c, q, HeldK(layer.State()), HeldV(layer.State()), numQ, reps, layer.currentLen),
                  Threads(Times(layer.currentLen, numQ)))
  {
    hide WindowsDone, PrefillRows, HeadsFit;
    var kvLen := Offset(layer.currentLen, c.kvDim);
    var qAll := Copy(q);
    var kAll := Copy(layer.kCache[..kvLen]);
    var vAll := Copy(layer.vCache[..kvLen]);
    assert kAll[..] == HeldK(layer.State()) && vAll[..] == HeldV(layer.State());
    r := LaunchPrefill(m, c, qAll, kAll, vAll, numQ, reps, layer.currentLen);
  }

  method Copy(s: seq<real>) returns (a: array<real>)
    ensures fresh(a) && a[..] == s && a.Length == |s|
  {
    a := new real[|s|](i requires 0 <= i < |s| => s[i]);
  }

  /** Whatever run led to it: where both launches are accepted and end, decoding over a cached
      layer's first qi + 1 rows gives the row qi of prefilling over the rows the layer
      holds. */
  method DecodeEqualsPrefill(m: Libm, c: Config, layer: LayerKVCache, q: seq<real>, numQ: nat, reps: nat, qi: nat)
      returns (decoded: Launch<array<real>>, prefilled: Launch<array<real>>)
    requires layer.Valid() && (reps > 0 ==> HeadsFit(c, numQ, reps)) && numQ > 0
    requires c.headDim == layer.headDim && c.kvDim == layer.RowElems()
    requires qi < layer.currentLen && |q| == Times(layer.currentLen, Times(numQ, c.headDim))
    ensures decoded.Refused? <==>
      !DecodeFits(c, Times(numQ, c.headDim), layer.kCache.Length, layer.vCache.Length, numQ, reps, qi + 1)
    ensures decoded.NeverEnds? <==> !decoded.Refused? && (qi + 1 + 256 > U32 || c.headDim + 256 > U32)
    ensures prefilled.NeverEnds? <==> !prefilled.Refused? && c.headDim + 256 > U32
    ensures prefilled.Refused? <==>
      var kv := Times(layer.currentLen, c.kvDim); !PrefillFits(c, |q|, kv, kv, numQ, reps, layer.currentLen)
    ensures prefilled.Done? ==>
      WindowsDone(prefilled.out[..], c.headDim,
                  PrefillRows(m, c, q, HeldK(layer.State()), HeldV(layer.State()), numQ, reps, layer.currentLen),
                  Threads(Times(layer.currentLen, numQ)))
    ensures decoded.Done? && prefilled.Done? ==>
      var from, w := Times(qi, Times(numQ, c.headDim)), Times(numQ, c.headDim);
      from + w <= prefilled.out.Length && decoded.out[..] == prefilled.out[from..from + w]
  {
    hide WindowsDone, DecodeRows, PrefillRows, HeadsFit, Times;
    prefilled := PrefillLayer(m, c, layer, q, numQ, reps);
    var qDim := Offset(numQ, c.headDim);
    var rowStart := Offset(qi, qDim);
    TimesOrdered(qi, layer.currentLen, qDim);
    var qRow := Copy(q[rowStart..rowStart + qDim]);
    decoded := LaunchDecode(m, c, qRow, layer.kCache, layer.vCache, numQ, reps, qi + 1);
    if decoded.Done? && prefilled.Done? {
      TimesAdd(qi + 1, layer.currentLen - (qi + 1), c.kvDim);
      DecodedRow(m, c, qRow[..], layer.kCache[..], layer.vCache[..], q, HeldK(layer.State()), HeldV(layer.State()),
                 numQ, reps, layer.currentLen, qi, decoded.out[..], prefilled.out[..]);
    }
  }

  // ---- One resident decode step --------------------------------------------

  /** The guards that come before the append. */
  ghost predicate Resident(c: Config, s: LayerState, newK: seq<real>, newV: seq<real>, prev: nat, numKvHeads: nat) {
    && Times(numKvHeads, c.headDim) == c.kvDim && c.kvDim > 0
    && s.numKvHeads == numKvHeads && s.headDim == c.headDim && s.len == prev && prev < s.maxSeq
    && Accepts(s, newK, newV, prev, 1)
  }

  /** How a resident step can end. */
  datatype Outcome = NotTaken | AppendedOnly | Hangs | Attended(out: array<real>)

  /** resident_kv_decode_attention: append the token's row at the cursor and attend over
      everything held. A failing guard leaves the cache alone; but the limits of the
      attention launch are checked only after the append, and where they refuse, the row
      and the moved cursor stay; where they do not suffice, the kernel hangs. */
  method ResidentDecode(m: Libm, c: Config, cache: CudaKVCache, li: nat, q: array<real>,
                        newK: seq<real>, newV: seq<real>, prev: nat, numQ: nat, numKvHeads: nat, reps: nat)
      returns (r: Outcome)
    requires cache.Valid() && (reps > 0 ==> HeadsFit(c, numQ, reps)) && q !in cache.repr
    modifies cache.repr
    ensures cache.Valid() && cache.layers == old(cache.layers) && cache.present == old(cache.present)
    ensures r.NotTaken? <==>
      !(li < |cache.layers| && Resident(c, old(cache.Layers())[li], newK, newV, prev, numKvHeads))
    ensures r.NotTaken? ==> cache.Layers() == old(cache.Layers())
    ensures !r.NotTaken? ==>
      cache.Layers() == old(cache.Layers())[li := Appended(old(cache.Layers())[li], newK, newV, prev, 1)]
      && Extends(cache.Layers()[li], old(cache.Layers())[li], newK, newV, 1)
    ensures !r.NotTaken? ==>
      (r.AppendedOnly? <==>
        !DecodeFits(c, q.Length, cache.layers[li].kCache.Length, cache.layers[li].vCache.Length, numQ, reps, prev + 1))
      && (r.Hangs? <==> !r.AppendedOnly? && numQ > 0 && (prev + 1 + 256 > U32 || c.headDim + 256 > U32))
    ensures r.Attended? ==>
      WindowsDone(r.out[..], c.headDim,
                  DecodeRows(m, c, q[..], HeldK(cache.Layers()[li]), HeldV(cache.Layers()[li]), numQ, reps, prev + 1), Threads(numQ))
  {
    hide WindowsDone, DecodeRows, HeadsFit, StatesOf, Appended, Extends;
    TimesIsProduct(numKvHeads, c.headDim);
    if numKvHeads * c.headDim != c.kvDim || c.kvDim == 0 || li >= |cache.layers| {
      return NotTaken;
    }
    var layer := cache.layers[li];
    if layer.numKvHeads != numKvHeads || layer.headDim != c.headDim || layer.currentLen != prev || prev >= layer.maxSeq {
      return NotTaken;
    }
    ghost var s := cache.Layers()[li];
    var ok := cache.Append(li, newK, newV, prev, 1);
    if !ok {
      return NotTaken;
    }
    OneRow(s, newK, newV, prev);
    var attended := LaunchDecode(m, c, q, layer.kCache, layer.vCache, numQ, reps, layer.currentLen);
    if attended.Refused? {
      return AppendedOnly;
    }
    if attended.NeverEnds? {
      return Hangs;
    }
    assert reps > 0 && HeadsFit(c, numQ, reps);
    HeldPrefix(layer.State());
    PrefixRows(m, c, q[..], layer.kCache[..], layer.vCache[..], HeldK(layer.State()), HeldV(layer.State()),
               numQ, reps, prev + 1);
    r := Attended(attended.out);
  }

  lemma HeldPrefix(s: LayerState)
    requires WellFormed(s)
    ensures HeldK(s) <= s.kBuf && HeldV(s) <= s.vBuf
    ensures |HeldK(s)| == |HeldV(s)| == Times(s.len, RowElems(s))
  {
  }

  /** One row at the cursor. */
  lemma OneRow(s: LayerState, newK: seq<real>, newV: seq<real>, prev: nat)
    requires WellFormed(s) && Accepts(s, newK, newV, prev, 1) && s.len == prev
    ensures Extends(Appended(s, newK, newV, prev, 1), s, newK, newV, 1)
    ensures Appended(s, newK, newV, prev, 1).len == prev + 1
    ensures RowElems(Appended(s, newK, newV, prev, 1)) == RowElems(s)
  {
    hide Placed, Reached;
    assert Times(1, RowElems(s)) == Times(0, RowElems(s)) + RowElems(s);
    AppendedRows(s, newK, newV, prev, 1);
    assert HeldK(s)[..Times(s.len, RowElems(s))] == HeldK(s) && HeldV(s)[..Times(s.len, RowElems(s))] == HeldV(s);
  }

  /** A step that is accepted by every guard and refused by the launch's score limit:
      65536 heads over 65537 rows. */
  lemma AppendedThenRefused(s: LayerState, c: Config)
    requires s.numKvHeads == 1 && s.headDim == 1 && s.len == 65536 && s.maxSeq == 65537 && WellFormed(s)
    requires c.headDim == 1 && c.kvDim == 1
    ensures Resident(c, s, [0.0], [0.0], 65536, 1)
    ensures !DecodeFits(c, 65536, |s.kBuf|, |s.vBuf|, 65536, 1, 65537)
  {
    hide Times;
    OneTimes(1);
    OneTimes(65537);
    TimesIsProduct(65536, 65537);
  }

  lemma OneTimes(n: nat)
    ensures Times(n, 1) == n && Times(1, n) == n
  {
    TimesIsProduct(n, 1);
    TimesIsProduct(1, n);
  }

  /** Decoding reads no row beyond len. */
  lemma PrefixRows(m: Libm, c: Config, q: seq<real>, Kc: seq<real>, Vc: seq<real>, K: seq<real>, V: seq<real>,
                   numQ: nat, reps: nat, len: nat)
    requires HeadsFit(c, numQ, reps) && len > 0
    requires |K| == |V| == Times(len, c.kvDim) && K <= Kc && V <= Vc
    ensures DecodeRows(m, c, q, Kc, Vc, numQ, reps, len) == DecodeRows(m, c, q, K, V, numQ, reps, len)
  {
    hide HeadRow, Times;
    assert SamePrefix(Kc, K, Times(len, c.kvDim)) && SamePrefix(Vc, V, Times(len, c.kvDim));
    forall h | 0 <= h < numQ
      ensures DecodeRows(m, c, q, Kc, Vc, numQ, reps, len)[h] == DecodeRows(m, c, q, K, V, numQ, reps, len)[h]
    {
      assert Times(h / reps, c.headDim) + c.headDim <= c.kvDim;
      HeadRowLocal(m, c, q, Times(h, c.headDim), Kc, Vc, q, Times(h, c.headDim), K, V, Times(h / reps, c.headDim), len);
    }
  }
}
