/** The device key/value cache beside the host mirror, over the attention attempts of the
    decode loop. A layer's device cache takes a row only when its cursor is where the
    mirror ends; the mirror takes one only when the attempt succeeds. */
module KvLockstep {
  import opened DecodeLoop
  import opened Wrappers

  /** An attempt at a layer's attention: the row it computes, whether everything but the
      cursor lets the device cache take it, and whether the attempt succeeds. */
  datatype Attempt<R> = Attempt(row: R, appends: bool, ok: bool)

  /** A layer's rows in the mirror and, up to the cursor, on the device. */
  datatype Mirrored<R> = Mirrored(mirror: seq<R>, dev: seq<R>)

  predicate InStep<R>(s: Mirrored<R>) {
    |s.dev| == |s.mirror|
  }

  function Attend<R>(s: Mirrored<R>, a: Attempt<R>): Mirrored<R> {
    Mirrored(if a.ok then s.mirror + [a.row] else s.mirror,
          if a.appends && InStep(s) then s.dev + [a.row] else s.dev)
  }

  ghost function AttendAll<R>(s: Mirrored<R>, attempts: seq<Attempt<R>>): Mirrored<R> {
    if attempts == [] then s
    else Attend(AttendAll(s, attempts[..|attempts| - 1]), attempts[|attempts| - 1])
  }

  /** The rows before attempt i. */
  ghost function Before<R>(s: Mirrored<R>, attempts: seq<Attempt<R>>, i: nat): Mirrored<R>
    requires i <= |attempts|
  {
    AttendAll(s, attempts[..i])
  }

  lemma BeforeLast<R>(s: Mirrored<R>, attempts: seq<Attempt<R>>, i: nat)
    requires i < |attempts|
    ensures Before(s, attempts[..|attempts| - 1], i) == Before(s, attempts, i)
    ensures Before(s, attempts, |attempts|) == AttendAll(s, attempts)
  {
    assert attempts[..|attempts| - 1][..i] == attempts[..i];
    assert attempts[..|attempts|] == attempts;
  }

  // ---- When the two are in lockstep -----------------------------------------

  /** The mirror takes a row that the device does not. */
  ghost predicate Missed<R>(s: Mirrored<R>, attempts: seq<Attempt<R>>, i: nat) {
    i < |attempts| && InStep(Before(s, attempts, i)) && attempts[i].ok && !attempts[i].appends
  }

  /** The device takes a row, and no attempt from there on succeeds. */
  ghost predicate Orphaned<R>(s: Mirrored<R>, attempts: seq<Attempt<R>>, i: nat) {
    i < |attempts| && InStep(Before(s, attempts, i)) && attempts[i].appends
    && forall j :: i <= j < |attempts| ==> !attempts[j].ok
  }

  /** The mirror makes up for an orphaned row with another one. */
  ghost predicate Torn<R>(s: Mirrored<R>, attempts: seq<Attempt<R>>, i: nat) {
    i < |attempts|
    && var p := Before(s, attempts, i);
    |p.dev| == |p.mirror| + 1 && attempts[i].ok && attempts[i].row != p.dev[|p.mirror|]
  }

  ghost predicate NoneMissed<R>(s: Mirrored<R>, attempts: seq<Attempt<R>>) {
    forall i: nat :: !Missed(s, attempts, i)
  }

  ghost predicate SomeOrphan<R>(s: Mirrored<R>, attempts: seq<Attempt<R>>) {
    exists i: nat :: Orphaned(s, attempts, i)
  }

  ghost predicate NoneTorn<R>(s: Mirrored<R>, attempts: seq<Attempt<R>>) {
    forall i: nat :: !Torn(s, attempts, i)
  }

  /** The device is at most one row ahead, which is an orphan; it is behind, for good,
      from the first missed row on. */
  lemma {:induction false} WhereItStands<R>(s: Mirrored<R>, attempts: seq<Attempt<R>>)
    requires InStep(s)
    ensures var r := AttendAll(s, attempts);
      && |r.dev| <= |r.mirror| + 1
      && (|r.dev| < |r.mirror| <==> !NoneMissed(s, attempts))
      && (|r.dev| == |r.mirror| + 1 <==> SomeOrphan(s, attempts))
    decreases |attempts|
  {
    if attempts == [] {
    } else {
      var n := |attempts| - 1;
      var shorter, last := attempts[..n], attempts[n];
      var p := AttendAll(s, shorter);
      WhereItStands(s, shorter);
      BeforeLast(s, attempts, n);
      EarlierEvents(s, attempts);
      assert Before(s, attempts, n) == p;
      assert Missed(s, attempts, n) <==> InStep(p) && last.ok && !last.appends;
      assert Orphaned(s, attempts, n) <==> InStep(p) && last.appends && !last.ok;
    }
  }

  /** What the attempts but the last one say about all of them. */
  lemma EarlierEvents<R>(s: Mirrored<R>, attempts: seq<Attempt<R>>)
    requires attempts != []
    ensures var n := |attempts| - 1; var shorter := attempts[..n];
      && (NoneMissed(s, attempts) <==> NoneMissed(s, shorter) && !Missed(s, attempts, n))
      && (SomeOrphan(s, attempts) <==> (SomeOrphan(s, shorter) && !attempts[n].ok) || Orphaned(s, attempts, n))
      && (NoneTorn(s, attempts) <==> NoneTorn(s, shorter) && !Torn(s, attempts, n))
  {
    var n := |attempts| - 1;
    var shorter := attempts[..n];
    forall i: nat | i < n
      ensures Missed(s, attempts, i) == Missed(s, shorter, i) && Torn(s, attempts, i) == Torn(s, shorter, i)
      ensures Orphaned(s, attempts, i) <==> Orphaned(s, shorter, i) && !attempts[n].ok
    {
      BeforeLast(s, attempts, i);
      assert shorter[i] == attempts[i];
    }
  }

  /** The rows both hold are the same ones. */
  ghost predicate Agree<R>(s: Mirrored<R>) {
    forall k :: 0 <= k < |s.dev| && k < |s.mirror| ==> s.dev[k] == s.mirror[k]
  }

  lemma {:induction false} AgreeExactly<R>(s: Mirrored<R>, attempts: seq<Attempt<R>>)
    requires s.dev == s.mirror
    ensures Agree(AttendAll(s, attempts)) <==> NoneTorn(s, attempts)
    decreases |attempts|
  {
    if attempts != [] {
      var n := |attempts| - 1;
      var p := AttendAll(s, attempts[..n]);
      AgreeExactly(s, attempts[..n]);
      WhereItStands(s, attempts[..n]);
      BeforeLast(s, attempts, n);
      EarlierEvents(s, attempts);
      assert Before(s, attempts, n) == p;
      AgreeStep(p, attempts[n]);
    }
  }

  lemma AgreeStep<R>(p: Mirrored<R>, a: Attempt<R>)
    requires |p.dev| <= |p.mirror| + 1
    ensures Agree(Attend(p, a)) <==>
      Agree(p) && !(|p.dev| == |p.mirror| + 1 && a.ok && a.row != p.dev[|p.mirror|])
  {
    var q := Attend(p, a);
    if Agree(q) {
      forall k | 0 <= k < |p.dev| && k < |p.mirror|
        ensures p.dev[k] == p.mirror[k]
      {
        assert q.dev[k] == q.mirror[k];
      }
      if |p.dev| == |p.mirror| + 1 && a.ok {
        assert q.dev[|p.mirror|] == q.mirror[|p.mirror|];
      }
    }
  }

  /** From equal rows, after any attempts: as many rows on both sides if and only if no
      row was missed and none is orphaned; the same rows if and only if besides no
      orphan was made up for with another row. */
  lemma LockstepExactly<R>(s: Mirrored<R>, attempts: seq<Attempt<R>>)
    requires s.dev == s.mirror
    ensures var r := AttendAll(s, attempts);
      && (InStep(r) <==> NoneMissed(s, attempts) && !SomeOrphan(s, attempts))
      && (r.dev == r.mirror <==> NoneMissed(s, attempts) && !SomeOrphan(s, attempts) && NoneTorn(s, attempts))
  {
    hide NoneMissed, SomeOrphan, NoneTorn;
    WhereItStands(s, attempts);
    AgreeExactly(s, attempts);
  }

  /** Attempts with the same input that follow a failed one count as one. */
  lemma RetryIsOne<R>(s: Mirrored<R>, row: R, first: bool, second: bool)
    requires |s.dev| <= |s.mirror|
    ensures Attend(Attend(s, Attempt(row, first, false)), Attempt(row, second, true)) == Attend(s, Attempt(row, first || second, true))
  {
  }

  // ---- In the decode loop ----------------------------------------------------

  /** Whether the device cache takes the row, the cursor permitting: of the graph path's
      attempt, and of the non-graph path's. */
  datatype Device = Device(first: bool, second: bool)

  ghost function TailAttempt<H, R>(l: Layer<H, R>, f: Device, s: State<H, R>): seq<Attempt<R>> {
    [Attempt(l.row(Current(s)), f.second, true)]
  }

  /** A layer's attempts, along the branches of the loop. */
  ghost function Attempts<H, R>(l: Layer<H, R>, e: Event, f: Device, s: State<H, R>, li: nat): seq<Attempt<R>> {
    var post := l.attention(Current(s), Rows(s.kv, li));
    var kv := AppendRow(s.kv, li, l.row(Current(s)));
    if !EntersGraph(e, s.arena.Some?) then TailAttempt(l, f, s)
    else if !e.attention then
      [Attempt(l.row(Current(s)), f.first, false)] + TailAttempt(l, f, State(if e.restore then Current(s) else s.h, None, s.kv))
    else if e.graph || (e.clone && e.fallback) then [Attempt(l.row(Current(s)), f.first, true)]
    else
      [Attempt(l.row(Current(s)), f.first, true)]
      + TailAttempt(l, f, State(s.h, if s.arena.Some? && !e.clone then Some(post) else None, kv))
  }

  lemma AttendTwo<R>(s: Mirrored<R>, a: Attempt<R>, b: Attempt<R>)
    ensures AttendAll(s, [a]) == Attend(s, a) && AttendAll(s, [a] + [b]) == Attend(Attend(s, a), b)
  {
    assert [a][..0] == [];
    assert ([a] + [b])[..1] == [a];
  }

  /** The loop's mirror is the mirror of its attempts. */
  lemma MirrorOfAttempts<H, R>(l: Layer<H, R>, e: Event, f: Device, s: State<H, R>, li: nat, dev: seq<R>)
    requires li < |s.kv| && Next(l, e, s, li).Some?
    ensures li < |Next(l, e, s, li).value.kv|
    ensures AttendAll(Mirrored(s.kv[li], dev), Attempts(l, e, f, s, li)).mirror == Next(l, e, s, li).value.kv[li]
  {
    hide AttendAll;
    var p := Mirrored(s.kv[li], dev);
    var attempts := Attempts(l, e, f, s, li);
    var a := attempts[0];
    AttendTwo(p, a, attempts[|attempts| - 1]);
    assert attempts == if |attempts| == 1 then [a] else [a] + [attempts[1]];
  }

  /** Whether a layer's device cache keeps up with the mirror. */
  ghost predicate KeepsUp(e: Event, f: Device, carried: bool) {
    if !EntersGraph(e, carried) then f.second
    else if e.attention then f.first
    else f.first || f.second
  }

  /** A layer that does not go wrong: the device rows stay a prefix of the mirror's, and
      all of them if and only if they were and the layer keeps up. */
  lemma LayerLockstep<H, R>(l: Layer<H, R>, e: Event, f: Device, s: State<H, R>, li: nat, dev: seq<R>)
    requires li < |s.kv| && Next(l, e, s, li).Some? && !Broken(e, s.arena.Some?) && dev <= s.kv[li]
    ensures var p := AttendAll(Mirrored(s.kv[li], dev), Attempts(l, e, f, s, li));
      && p.dev <= p.mirror
      && (p.dev == p.mirror <==> dev == s.kv[li] && KeepsUp(e, f, s.arena.Some?))
  {
    hide AttendAll, Attempts, Broken, KeepsUp, Next, Attend;
    var p := Mirrored(s.kv[li], dev);
    var row, keeps := l.row(Current(s)), KeepsUp(e, f, s.arena.Some?);
    OwnRowOnly(l, e, f, s, li);
    OneRow(p, Attempt(row, keeps, true));
    AttendTwo(p, Attempt(row, keeps, true), Attempt(row, keeps, true));
    AttendTwo(p, Attempt(row, f.first, false), Attempt(row, f.second, true));
    RetryIsOne(p, row, f.first, f.second);
  }

  /** The attempts of such a layer all compute the row of its input. */
  lemma OwnRowOnly<H, R>(l: Layer<H, R>, e: Event, f: Device, s: State<H, R>, li: nat)
    requires !Broken(e, s.arena.Some?)
    ensures var row, keeps := l.row(Current(s)), KeepsUp(e, f, s.arena.Some?);
      Attempts(l, e, f, s, li) ==
        if EntersGraph(e, s.arena.Some?) && !e.attention
        then [Attempt(row, f.first, false)] + [Attempt(row, f.second, true)]
        else [Attempt(row, keeps, true)]
    ensures EntersGraph(e, s.arena.Some?) && !e.attention ==> KeepsUp(e, f, s.arena.Some?) == (f.first || f.second)
  {
  }

  lemma OneRow<R>(p: Mirrored<R>, a: Attempt<R>)
    requires p.dev <= p.mirror && a.ok
    ensures var q := Attend(p, a); q.dev <= q.mirror && (q.dev == q.mirror <==> p.dev == p.mirror && a.appends)
  {
  }

  /** An attempt attends over the device's rows where it appends and the two are in step,
      and otherwise over the mirror's, with the new row. In such a layer that makes no
      difference. */
  lemma SameRowsRead<H, R>(l: Layer<H, R>, e: Event, f: Device, s: State<H, R>, li: nat, dev: seq<R>, i: nat)
    requires li < |s.kv| && Next(l, e, s, li).Some? && !Broken(e, s.arena.Some?) && dev <= s.kv[li]
    requires i < |Attempts(l, e, f, s, li)|
    ensures var p := Before(Mirrored(s.kv[li], dev), Attempts(l, e, f, s, li), i);
      var a := Attempts(l, e, f, s, li)[i];
      (if a.appends && |p.dev| == |p.mirror| then p.dev + [a.row] else p.mirror + [a.row]) == p.mirror + [a.row]
  {
    hide AttendAll;
    var p := Mirrored(s.kv[li], dev);
    var attempts := Attempts(l, e, f, s, li);
    AttendTwo(p, attempts[0], attempts[|attempts| - 1]);
    NoAttempts(p);
    if i == 0 {
      assert attempts[..0] == [];
    } else {
      assert attempts[..1] == [attempts[0]];
    }
  }

  lemma NoAttempts<R>(p: Mirrored<R>)
    ensures AttendAll(p, []) == p
  {
  }

  // ---- Over layers and tokens ------------------------------------------------

  /** The device rows of every layer after n layers of a token. */
  ghost function DeviceRun<H, R>(layers: seq<Layer<H, R>>, events: seq<Event>, fs: seq<Device>, s: State<H, R>,
                                 dev: seq<seq<R>>, n: nat): (r: seq<seq<R>>)
    requires n <= |layers| == |events| == |fs| == |dev|
    ensures |r| == |dev| && forall i: nat :: n <= i < |dev| ==> r[i] == dev[i]
  {
    if n == 0 then dev
    else
      var before := Run(layers, events, s, n - 1);
      var devs := DeviceRun(layers, events, fs, s, dev, n - 1);
      if before.None? then devs
      else devs[n - 1 := AttendAll(Mirrored(Rows(before.value.kv, n - 1), devs[n - 1]),
                                   Attempts(layers[n - 1], events[n - 1], fs[n - 1], before.value, n - 1)).dev]
  }

  /** A token: what happens in its layers, and its embedding. */
  datatype Token<H> = Token(events: seq<Event>, devices: seq<Device>, x: H)

  ghost predicate Unbroken<H>(t: Token<H>, layers: nat) {
    |t.events| == |t.devices| == layers && NoneBroken(t.events)
    && forall i: nat :: i < layers ==> !GivesUp(t.events[i], Carried(t.events, i))
  }

  ghost predicate TokenKeepsUp<H>(t: Token<H>, i: nat)
    requires i < |t.events| == |t.devices|
  {
    KeepsUp(t.events[i], t.devices[i], Carried(t.events, i))
  }

  /** After n layers of a token without a broken one. */
  lemma {:induction false} TokenLockstep<H, R>(layers: seq<Layer<H, R>>, t: Token<H>, kv: seq<seq<R>>, dev: seq<seq<R>>, n: nat)
    requires n <= |layers| == |kv| == |dev| && Unbroken(t, |layers|)
    requires forall i: nat :: i < |kv| ==> dev[i] <= kv[i]
    ensures Run(layers, t.events, State(t.x, None, kv), n).Some?
    ensures var kv', dev' := Run(layers, t.events, State(t.x, None, kv), n).value.kv,
                             DeviceRun(layers, t.events, t.devices, State(t.x, None, kv), dev, n);
      && |kv'| == |kv| && (forall i: nat :: n <= i < |kv| ==> kv'[i] == kv[i])
      && (forall i: nat :: i < |kv| ==> dev'[i] <= kv'[i])
      && forall i: nat :: i < n ==> (dev'[i] == kv'[i] <==> dev[i] == kv[i] && TokenKeepsUp(t, i))
  {
    hide Next, Attempts, AttendAll, KeepsUp, GivesUp, Broken;
    var s := State(t.x, None, kv);
    RunCompletes(layers, t.events, s, n);
    OneRowEach(layers, t.events, t.x, kv, n);
    if n > 0 {
      TokenLockstep(layers, t, kv, dev, n - 1);
      CarriedIsArena(layers, t.events, s, n - 1);
      var before := Run(layers, t.events, s, n - 1).value;
      var devs := DeviceRun(layers, t.events, t.devices, s, dev, n - 1);
      MirrorOfAttempts(layers[n - 1], t.events[n - 1], t.devices[n - 1], before, n - 1, devs[n - 1]);
      LayerLockstep(layers[n - 1], t.events[n - 1], t.devices[n - 1], before, n - 1, devs[n - 1]);
      OthersUntouched(layers[n - 1], t.events[n - 1], before, n - 1);
    }
  }

  lemma OthersUntouched<H, R>(l: Layer<H, R>, e: Event, s: State<H, R>, li: nat)
    requires Next(l, e, s, li).Some?
    ensures |Next(l, e, s, li).value.kv| == |s.kv|
    ensures forall i: nat :: i < |s.kv| && i != li ==> Next(l, e, s, li).value.kv[i] == s.kv[i]
  {
  }

  /** The mirror and the device rows after a run of tokens. */
  ghost function Generate<H, R>(layers: seq<Layer<H, R>>, tokens: seq<Token<H>>, kv: seq<seq<R>>, dev: seq<seq<R>>)
    : (seq<seq<R>>, seq<seq<R>>)
    requires |layers| == |kv| == |dev| && forall t :: t in tokens ==> Unbroken(t, |layers|)
    ensures var r := Generate(layers, tokens, kv, dev); |r.0| == |r.1| == |layers|
    decreases |tokens|
  {
    if tokens == [] then (kv, dev)
    else
      var n := |tokens| - 1;
      var r := Generate(layers, tokens[..n], kv, dev);
      var t := tokens[n];
      var s := State(t.x, None, r.0);
      assert Unbroken(t, |layers|);
      RunCompletes(layers, t.events, s, |layers|);
      OneRowEach(layers, t.events, t.x, r.0, |layers|);
      (Run(layers, t.events, s, |layers|).value.kv, DeviceRun(layers, t.events, t.devices, s, r.1, |layers|))
  }

  /** Over any number of tokens without a broken layer, from equal rows: every layer's
      device rows are a prefix of the mirror's; they are all of them if and only if the
      layer kept up in every token. A layer that fell behind once never catches up. */
  lemma {:induction false} GenerationLockstep<H, R>(layers: seq<Layer<H, R>>, tokens: seq<Token<H>>, kv: seq<seq<R>>, i: nat)
    requires i < |layers| == |kv| && forall t :: t in tokens ==> Unbroken(t, |layers|)
    ensures var r := Generate(layers, tokens, kv, kv);
      && (forall j: nat :: j < |layers| ==> r.1[j] <= r.0[j])
      && (r.1[i] == r.0[i] <==> forall t :: t in tokens ==> TokenKeepsUp(t, i))
    decreases |tokens|
  {
    hide TokenKeepsUp, Run, DeviceRun, Unbroken;
    if tokens != [] {
      var n := |tokens| - 1;
      assert tokens == tokens[..n] + [tokens[n]];
      GenerationLockstep(layers, tokens[..n], kv, i);
      var r := Generate(layers, tokens[..n], kv, kv);
      assert tokens[n] in tokens;
      TokenLockstep(layers, tokens[n], r.0, r.1, |layers|);
    }
  }

  /** A broken layer can leave both sides with as many rows and different ones: its input
      was in the arena only, attention fails after the device has taken the row, the
      input is not copied back, and the mirror takes the row of the stale state. */
  lemma TornExample()
    ensures
      var lost := Event(false, true, true, false, false, true, true, true, true, false, true);
      var s := State(0, Some(1), [[]]);
      var p := AttendAll(Mirrored([], []), Attempts(Counting(), lost, Device(true, true), s, 0));
      Broken(lost, true) && InStep(p) && p == Mirrored([0], [1])
  {
    hide AttendAll;
    var start: Mirrored<int> := Mirrored([], []);
    AttendTwo(start, Attempt(1, true, false), Attempt(0, true, true));
  }
}
