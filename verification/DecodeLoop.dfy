/** One decode token through all the layers: the graph path that carries the hidden
    state in the arena, its fallbacks, and the key/value mirror. Which device calls
    succeed is an input; the question is what the loop returns. */
module DecodeLoop {
  import opened Wrappers

  /** A layer: the post-attention state and the new key/value row as functions of the
      layer's input (and of the rows before it), the feed-forward block, the scalar. */
  datatype Layer<!H, !R> = Layer(attention: (H, seq<R>) -> H, row: H -> R, feedForward: H -> H, scale: H -> H)

  /** What happens in a layer.
      bail: a layer the loop does not take at all.
      gates: the graph path is eligible and its arena is ready.
      placed: the upload or copy into the arena's input slot succeeds, if needed.
      attention: attention into the arena succeeds.
      restore: if not, copying the input back out of the arena succeeds.
      graph: the graph's build or replay succeeds.
      clone: if not, copying the post-attention state out of the arena succeeds.
      fallback: if so, the device feed-forward block on it succeeds.
      read: reading the arena, or a device buffer to be scaled, back succeeds.
      scaled: the layer has a scalar other than 0 and 1.
      tail: the non-graph path, with its own fallbacks, succeeds. */
  datatype Event = Event(bail: bool, gates: bool, placed: bool, attention: bool, restore: bool, graph: bool,
                         clone: bool, fallback: bool, read: bool, scaled: bool, tail: bool)

  /** The loop's state: h, the arena slot that carries the hidden state if one does, and
      the mirror's rows per layer. */
  datatype State<H, R> = State(h: H, arena: Option<H>, kv: seq<seq<R>>)

  function Current<H, R>(s: State<H, R>): H {
    if s.arena.Some? then s.arena.value else s.h
  }

  function AppendRow<R>(kv: seq<seq<R>>, li: nat, row: R): (r: seq<seq<R>>)
    ensures |r| == |kv|
  {
    if li < |kv| then kv[li := kv[li] + [row]] else kv
  }

  function Rows<R>(kv: seq<seq<R>>, li: nat): seq<R> {
    if li < |kv| then kv[li] else []
  }

  function Scaled<H, R>(l: Layer<H, R>, e: Event, x: H): H {
    if e.scaled then l.scale(x) else x
  }

  // ---- What a token should do -----------------------------------------------

  ghost function IdealHidden<H, R>(layers: seq<Layer<H, R>>, events: seq<Event>, x: H, kv: seq<seq<R>>, n: nat): H
    requires n <= |layers| == |events|
  {
    if n == 0 then x
    else
      var input := IdealHidden(layers, events, x, kv, n - 1);
      Scaled(layers[n - 1], events[n - 1],
             layers[n - 1].feedForward(layers[n - 1].attention(input, Rows(kv, n - 1))))
  }

  ghost function IdealRows<H, R>(layers: seq<Layer<H, R>>, events: seq<Event>, x: H, kv: seq<seq<R>>, n: nat): (r: seq<seq<R>>)
    requires n <= |layers| == |events|
    ensures |r| == |kv|
    ensures forall i: nat :: n <= i < |kv| ==> r[i] == kv[i]
  {
    if n == 0 then kv
    else AppendRow(IdealRows(layers, events, x, kv, n - 1), n - 1,
                   layers[n - 1].row(IdealHidden(layers, events, x, kv, n - 1)))
  }

  // ---- What it does ---------------------------------------------------------

  /** The non-graph path, from whatever the loop holds. */
  ghost function Tail<H, R>(l: Layer<H, R>, e: Event, s: State<H, R>, li: nat): Option<State<H, R>> {
    if (s.arena.Some? && !e.read) || !e.tail then None
    else Some(State(Scaled(l, e, l.feedForward(l.attention(Current(s), Rows(s.kv, li)))), None,
                    AppendRow(s.kv, li, l.row(Current(s)))))
  }

  ghost predicate EntersGraph(e: Event, carried: bool) {
    !e.bail && e.gates && (carried || e.placed)
  }

  ghost function AfterGraph<H, R>(l: Layer<H, R>, e: Event, s: State<H, R>, li: nat): Option<State<H, R>> {
    var post := l.attention(Current(s), Rows(s.kv, li));
    var kv := AppendRow(s.kv, li, l.row(Current(s)));
    if e.graph then
      if !e.scaled then Some(State(s.h, Some(l.feedForward(post)), kv))
      else if e.read then Some(State(l.scale(l.feedForward(post)), None, kv)) else None
    else if !e.clone then
      Tail(l, e, State(s.h, if s.arena.Some? then Some(post) else None, kv), li)
    else if !e.fallback then
      Tail(l, e, State(s.h, None, kv), li)
    else if e.scaled && !e.read then None
    else Some(State(Scaled(l, e, l.feedForward(post)), None, kv))
  }

  /** One layer of the loop; None when the token is given up. */
  ghost function Next<H, R>(l: Layer<H, R>, e: Event, s: State<H, R>, li: nat): Option<State<H, R>> {
    if e.bail then None
    else if !EntersGraph(e, s.arena.Some?) then Tail(l, e, s, li)
    else if e.attention then AfterGraph(l, e, s, li)
    else Tail(l, e, State(if e.restore then Current(s) else s.h, None, s.kv), li)
  }

  ghost function Run<H, R>(layers: seq<Layer<H, R>>, events: seq<Event>, s: State<H, R>, n: nat): Option<State<H, R>>
    requires n <= |layers| == |events|
  {
    if n == 0 then Some(s)
    else
      var before := Run(layers, events, s, n - 1);
      if before.None? then None else Next(layers[n - 1], events[n - 1], before.value, n - 1)
  }

  // ---- The loop as it runs --------------------------------------------------

  datatype Outcome<H> = ArenaOut(flip: bool) | DeviceFallback(dev: H) | NotAttempted

  class Decoder<H(0), R> {
    var slotA: H
    var slotB: H
    var h: H
    var carry: Option<bool>
    var kv: seq<seq<R>>

    function Input(flip: bool): H
      reads this
    {
      if flip then slotB else slotA
    }

    function Output(flip: bool): H
      reads this
    {
      if flip then slotA else slotB
    }

    ghost function View(): State<H, R>
      reads this
    {
      State(h, if carry.Some? then Some(Output(carry.value)) else None, kv)
    }

    /** A carried state was left by the layer before. */
    ghost predicate CarryFits(li: nat)
      reads this
    {
      carry.Some? ==> li > 0 && carry.value == ((li - 1) % 2 == 1)
    }

    method SetInput(flip: bool, v: H)
      modifies `slotA, `slotB
      ensures Input(flip) == v && Output(flip) == old(Output(flip))
    {
      if flip { slotB := v; } else { slotA := v; }
    }

    /** The graph path of one layer. */
    method GraphLayer(l: Layer<H, R>, e: Event, li: nat) returns (outcome: Outcome<H>)
      requires CarryFits(li) && !e.bail
      modifies this
      ensures outcome.ArenaOut? ==> outcome.flip == (li % 2 == 1)
      ensures outcome.NotAttempted? ==> CarryFits(li)
      ensures
        var s := old(View());
        var post := l.attention(Current(s), Rows(s.kv, li));
        var appended := AppendRow(s.kv, li, l.row(Current(s)));
        if !EntersGraph(e, s.arena.Some?) then outcome.NotAttempted? && View() == s
        else if !e.attention then
          outcome.NotAttempted? && View() == State(if e.restore then Current(s) else s.h, None, s.kv)
        else if e.graph then
          outcome.ArenaOut? && Output(outcome.flip) == l.feedForward(post) && h == s.h && kv == appended
        else if !e.clone then
          outcome.NotAttempted? && View() == State(s.h, if s.arena.Some? then Some(post) else None, appended)
        else if !e.fallback then outcome.NotAttempted? && View() == State(s.h, None, appended)
        else outcome == DeviceFallback(l.feedForward(post)) && View() == State(s.h, None, appended)
    {
      var flip := li % 2 == 1;
      if !e.gates {
        return NotAttempted;
      }
      if carry.None? {
        if !e.placed {
          return NotAttempted;
        }
        SetInput(flip, h);
      }
      if !e.attention {
        if e.restore {
          h := Input(flip);
        }
        carry := None;
        return NotAttempted;
      }
      var row := l.row(Input(flip));
      SetInput(flip, l.attention(Input(flip), Rows(kv, li)));
      kv := AppendRow(kv, li, row);
      if e.graph {
        SetInput(!flip, l.feedForward(Input(flip)));
        return ArenaOut(flip);
      }
      if !e.clone {
        return NotAttempted;
      }
      var post := Input(flip);
      carry := None;
      outcome := if e.fallback then DeviceFallback(l.feedForward(post)) else NotAttempted;
    }

    /** One iteration of the layer loop; false when the token is given up. */
    method LayerStep(l: Layer<H, R>, e: Event, li: nat) returns (ok: bool)
      requires CarryFits(li)
      modifies this
      ensures ok <==> Next(l, e, old(View()), li).Some?
      ensures ok ==> View() == Next(l, e, old(View()), li).value && CarryFits(li + 1)
    {
      if e.bail {
        return false;
      }
      var outcome := GraphLayer(l, e, li);
      match outcome {
        case ArenaOut(flip) =>
          carry := Some(flip);
          if e.scaled {
            if !e.read {
              return false;
            }
            h := l.scale(Output(flip));
            carry := None;
          }
          return true;
        case DeviceFallback(dev) =>
          carry := None;
          if e.scaled && !e.read {
            return false;
          }
          h := Scaled(l, e, dev);
          return true;
        case NotAttempted =>
      }
      if carry.Some? {
        if !e.read {
          return false;
        }
        h := Output(carry.value);
        carry := None;
      }
      if !e.tail {
        return false;
      }
      var post := l.attention(h, Rows(kv, li));
      kv := AppendRow(kv, li, l.row(h));
      h := Scaled(l, e, l.feedForward(post));
      return true;
    }

    /** All the layers of one token. */
    method DecodeLayers(layers: seq<Layer<H, R>>, events: seq<Event>, x: H) returns (ok: bool)
      requires |layers| == |events|
      modifies this
      ensures ok <==> Run(layers, events, State(x, None, old(kv)), |layers|).Some?
      ensures ok ==> View() == Run(layers, events, State(x, None, old(kv)), |layers|).value
    {
      hide Next;
      h, carry := x, None;
      ghost var s := View();
      for li := 0 to |layers|
        invariant CarryFits(li) && Run(layers, events, s, li) == Some(View())
      {
        ok := LayerStep(layers[li], events[li], li);
        if !ok {
          GivenUp(layers, events, s, li + 1, |layers|);
          return;
        }
      }
      ok := true;
    }
  }

  lemma {:induction false} GivenUp<H, R>(layers: seq<Layer<H, R>>, events: seq<Event>, s: State<H, R>, n: nat, m: nat)
    requires n <= m <= |layers| == |events| && Run(layers, events, s, n).None?
    ensures Run(layers, events, s, m).None?
  {
    if n < m {
      GivenUp(layers, events, s, n, m - 1);
    }
  }

  // ---- When it does what it should ------------------------------------------

  /** Whether the hidden state is in the arena after n layers. */
  ghost predicate Carried(events: seq<Event>, n: nat)
    requires n <= |events|
  {
    n > 0 && EntersGraph(events[n - 1], Carried(events, n - 1))
    && events[n - 1].attention && events[n - 1].graph && !events[n - 1].scaled
  }

  /** The layer gives the token up. */
  ghost predicate GivesUp(e: Event, carried: bool) {
    e.bail
    || (if !EntersGraph(e, carried) || (e.attention && !e.graph && !e.clone) then (carried && !e.read) || !e.tail
        else if !e.attention || (!e.graph && !e.fallback) then !e.tail
        else e.scaled && !e.read)
  }

  lemma StepGivesUp<H, R>(l: Layer<H, R>, e: Event, s: State<H, R>, li: nat)
    ensures Next(l, e, s, li).None? <==> GivesUp(e, s.arena.Some?)
  {
  }

  /** Whether a token is given up depends on the events alone. */
  lemma {:induction false} RunCompletes<H, R>(layers: seq<Layer<H, R>>, events: seq<Event>, s: State<H, R>, n: nat)
    requires n <= |layers| == |events| && s.arena.None?
    ensures Run(layers, events, s, n).Some? <==> forall i: nat :: i < n ==> !GivesUp(events[i], Carried(events, i))
  {
    hide Next, GivesUp;
    if n > 0 {
      RunCompletes(layers, events, s, n - 1);
      if Run(layers, events, s, n - 1).Some? {
        CarriedIsArena(layers, events, s, n - 1);
        StepGivesUp(layers[n - 1], events[n - 1], Run(layers, events, s, n - 1).value, n - 1);
      }
    }
  }

  /** The layer goes wrong: its input was in the arena only and is not copied back when
      attention bails, or the graph fails after attention has appended its row and the
      feed-forward fallback is not reached or fails. */
  ghost predicate Broken(e: Event, carried: bool) {
    EntersGraph(e, carried)
    && ((!e.attention && !e.restore && carried) || (e.attention && !e.graph && (!e.clone || !e.fallback)))
  }

  ghost predicate NoneBroken(events: seq<Event>) {
    forall i: nat :: i < |events| ==> !Broken(events[i], Carried(events, i))
  }

  lemma {:induction false} CarriedIsArena<H, R>(layers: seq<Layer<H, R>>, events: seq<Event>, s: State<H, R>, n: nat)
    requires n <= |layers| == |events| && s.arena.None? && Run(layers, events, s, n).Some?
    ensures Run(layers, events, s, n).value.arena.Some? <==> Carried(events, n)
  {
    if n > 0 {
      CarriedIsArena(layers, events, s, n - 1);
    }
  }

  /** If no layer goes wrong, a token that is not given up leaves the layers applied in
      order to its embedding and exactly one row more in every layer's mirror. */
  lemma {:induction false} UnbrokenIsIdeal<H, R>(layers: seq<Layer<H, R>>, events: seq<Event>, x: H, kv: seq<seq<R>>, n: nat)
    requires n <= |layers| == |events|
    requires forall i: nat :: i < n ==> !Broken(events[i], Carried(events, i))
    requires Run(layers, events, State(x, None, kv), n).Some?
    ensures var s := Run(layers, events, State(x, None, kv), n).value;
      Current(s) == IdealHidden(layers, events, x, kv, n) && s.kv == IdealRows(layers, events, x, kv, n)
  {
    if n > 0 {
      UnbrokenIsIdeal(layers, events, x, kv, n - 1);
      CarriedIsArena(layers, events, State(x, None, kv), n - 1);
    }
  }

  // ---- When it does not -----------------------------------------------------

  /** The plainest layer: attention passes its input through, the feed-forward block
      adds one. */
  function Counting(): Layer<int, int> {
    Layer((x: int, rows: seq<int>) => x, (x: int) => x, (x: int) => x + 1, (x: int) => x)
  }

  ghost function CountingLayers(n: nat): (r: seq<Layer<int, int>>)
    ensures |r| == n
  {
    seq(n, i => Counting())
  }

  function NoRows(n: nat): (r: seq<seq<int>>)
    ensures |r| == n
  {
    seq(n, i => [])
  }

  ghost function CountingRun(events: seq<Event>, n: nat): Option<State<int, int>>
    requires n <= |events|
  {
    Run(CountingLayers(|events|), events, State(0, None, NoRows(|events|)), n)
  }

  lemma {:induction false} CountingIdeal(events: seq<Event>, n: nat)
    requires n <= |events|
    ensures IdealHidden(CountingLayers(|events|), events, 0, NoRows(|events|), n) == n
    ensures var r := IdealRows(CountingLayers(|events|), events, 0, NoRows(|events|), n);
      forall i: nat :: i < n ==> |r[i]| == 1
  {
    if n > 0 {
      CountingIdeal(events, n - 1);
      assert IdealRows(CountingLayers(|events|), events, 0, NoRows(|events|), n - 1)[n - 1] == NoRows(|events|)[n - 1];
    }
  }

  /** Each layer adds at most one, and a stale copy lags behind the carried state. */
  lemma {:induction false} CountingBounds(events: seq<Event>, n: nat)
    requires n <= |events| && CountingRun(events, n).Some?
    ensures var s := CountingRun(events, n).value;
      Current(s) <= n && (s.arena.Some? ==> s.h < Current(s)) && |s.kv| == |events|
      && forall i: nat :: n <= i < |events| ==> s.kv[i] == []
  {
    if n > 0 {
      CountingBounds(events, n - 1);
    }
  }

  /** A layer that appended two rows keeps them; a lag is never made up. */
  lemma {:induction false} DamageStays(events: seq<Event>, i: nat, n: nat)
    requires i < n <= |events| && Broken(events[i], Carried(events, i)) && CountingRun(events, n).Some?
    ensures var s := CountingRun(events, n).value; |s.kv| == |events| && (|s.kv[i]| == 2 || Current(s) < n)
  {
    CountingBounds(events, n - 1);
    CountingBounds(events, n);
    if i < n - 1 {
      DamageStays(events, i, n - 1);
    } else {
      CarriedIsArena(CountingLayers(|events|), events, State(0, None, NoRows(|events|)), i);
    }
  }

  /** The loop is right for every layer stack, embedding and mirror exactly when no
      layer goes wrong. */
  lemma RightExactlyWhenUnbroken(events: seq<Event>)
    requires forall i: nat :: i < |events| ==> !GivesUp(events[i], Carried(events, i))
    ensures NoneBroken(events) <==>
      forall layers: seq<Layer<int, int>>, x: int, kv: seq<seq<int>> :: |layers| == |events| ==>
        var r := Run(layers, events, State(x, None, kv), |events|);
        r.Some? && Current(r.value) == IdealHidden(layers, events, x, kv, |events|)
        && r.value.kv == IdealRows(layers, events, x, kv, |events|)
  {
    hide Run, IdealHidden, IdealRows, Broken, GivesUp;
    var n := |events|;
    if NoneBroken(events) {
      forall layers: seq<Layer<int, int>>, x: int, kv: seq<seq<int>> | |layers| == n
        ensures var r := Run(layers, events, State(x, None, kv), n);
          r.Some? && Current(r.value) == IdealHidden(layers, events, x, kv, n) && r.value.kv == IdealRows(layers, events, x, kv, n)
      {
        RunCompletes(layers, events, State(x, None, kv), n);
        UnbrokenIsIdeal(layers, events, x, kv, n);
      }
    } else {
      var i: nat :| i < n && Broken(events[i], Carried(events, i));
      RunCompletes(CountingLayers(n), events, State(0, None, NoRows(n)), n);
      DamageStays(events, i, n);
      CountingIdeal(events, n);
      assert |CountingLayers(n)| == n;
      assert Run(CountingLayers(n), events, State(0, None, NoRows(n)), n) == CountingRun(events, n);
    }
  }

  /** The mirror grows by exactly one row per layer exactly when no graph failure after
      attention goes without its fallback: a lost input copy alone still appends once. */
  lemma {:induction false} OneRowEach<H, R>(layers: seq<Layer<H, R>>, events: seq<Event>, x: H, kv: seq<seq<R>>, n: nat)
    requires n <= |layers| == |events| <= |kv| && Run(layers, events, State(x, None, kv), n).Some?
    ensures var s := Run(layers, events, State(x, None, kv), n).value;
      |s.kv| == |kv| && (forall i: nat :: n <= i < |kv| ==> s.kv[i] == kv[i])
      && forall i: nat :: i < n ==> |s.kv[i]| == |kv[i]| + if AppendsTwice(events[i], Carried(events, i)) then 2 else 1
  {
    if n > 0 {
      OneRowEach(layers, events, x, kv, n - 1);
      CarriedIsArena(layers, events, State(x, None, kv), n - 1);
    }
  }

  ghost predicate AppendsTwice(e: Event, carried: bool) {
    EntersGraph(e, carried) && e.attention && !e.graph && (!e.clone || !e.fallback)
  }

  /** Two layers, the second's graph and fallback both failing after the first left its
      result in the arena: the second layer runs on the embedding, and its mirror holds
      two rows. */
  lemma StaleInputExample()
    ensures
      var fine := Event(false, true, true, true, true, true, true, true, true, false, true);
      var failing := fine.(graph := false, fallback := false);
      var s := CountingRun([fine, failing], 2);
      s.Some? && Current(s.value) == 1 && |Rows(s.value.kv, 1)| == 2
      && IdealHidden(CountingLayers(2), [fine, failing], 0, NoRows(2), 2) == 2
  {
    var fine := Event(false, true, true, true, true, true, true, true, true, false, true);
    var failing := fine.(graph := false, fallback := false);
    var events := [fine, failing];
    CountingIdeal(events, 2);
    assert CountingRun(events, 0) == Some(State(0, None, NoRows(2)));
    assert CountingRun(events, 1) == Some(State(0, Some(1), AppendRow(NoRows(2), 0, 0)));
  }
}
