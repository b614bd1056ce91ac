/** The lifetime of captured FFN graphs: the generation-scoped cache, the arena slots
    whose addresses the graphs captured, and the handles that keep device buffers
    allocated. No live graph ever refers to a released buffer, at any point of any
    teardown. */
module GraphLifetime {
  import opened FfnGraphState
  import opened Wrappers
  import KvCache

  /** A device address. */
  type Buf = nat

  /** A captured graph with the handles that pin the addresses it captured. */
  datatype Graph = Graph(exec: nat, scratch: multiset<Buf>, weights: multiset<Buf>)

  datatype ArenaSlots = ArenaSlots(a: Buf, b: Buf, generation: nat)

  function Handles(slot: Option<Graph>): multiset<Buf> {
    if slot.Some? then slot.value.scratch + slot.value.weights else multiset{}
  }

  ghost function Held(layers: seq<Option<Graph>>): multiset<Buf> {
    if layers == [] then multiset{} else Held(layers[..|layers| - 1]) + Handles(layers[|layers| - 1])
  }

  function ArenaHandles(arena: Option<ArenaSlots>): multiset<Buf> {
    if arena.Some? then multiset{arena.value.a, arena.value.b} else multiset{}
  }

  /** The greedy head's buffers and its handle on the cached final-norm weight. */
  datatype Workspace = Workspace(buffers: multiset<Buf>, norm: Option<Buf>)

  function WorkspaceHandles(w: Option<Workspace>): multiset<Buf> {
    if w.None? then multiset{} else w.value.buffers + NormHandle(w.value.norm)
  }

  function NormHandle(norm: Option<Buf>): multiset<Buf> {
    if norm.Some? then multiset{norm.value} else multiset{}
  }

  /** Taking one slot's graph releases just that slot's handles. */
  lemma {:induction false} HeldWithout(layers: seq<Option<Graph>>, i: nat)
    requires i < |layers|
    ensures Held(layers) == Held(layers[i := None]) + Handles(layers[i])
  {
    var n := |layers| - 1;
    var without := layers[i := None];
    if i == n {
      assert without[..n] == layers[..n];
    } else {
      HeldWithout(layers[..n], i);
      assert without[..n] == layers[..n][i := None];
    }
  }

  lemma {:induction false} HeldWith(layers: seq<Option<Graph>>, i: nat, g: Graph)
    requires i < |layers| && layers[i] == None
    ensures Held(layers[i := Some(g)]) == Held(layers) + g.scratch + g.weights
  {
    HeldWithout(layers[i := Some(g)], i);
    assert layers[i := Some(g)][i := None] == layers;
  }

  lemma {:induction false} HeldNone(layers: seq<Option<Graph>>)
    requires forall i :: 0 <= i < |layers| ==> layers[i] == None
    ensures Held(layers) == multiset{}
  {
    if layers != [] {
      HeldNone(layers[..|layers| - 1]);
    }
  }

  lemma HandlesHeld(layers: seq<Option<Graph>>, i: nat)
    requires i < |layers|
    ensures Handles(layers[i]) <= Held(layers)
  {
  }

  // ---- Graphs and slots -----------------------------------------------------

  type Captures = map<nat, multiset<Buf>>

  /** No live graph refers to a released buffer. */
  ghost predicate NoneDangling(captured: Captures, handles: multiset<Buf>) {
    forall g :: g in captured ==> forall b :: b in captured[g] ==> b in handles
  }

  ghost predicate Below(handles: multiset<Buf>, bound: nat) {
    forall b :: b in handles ==> b < bound
  }

  ghost predicate InSlot(layers: seq<Option<Graph>>, i: nat, exec: nat) {
    i < |layers| && layers[i].Some? && layers[i].value.exec == exec
  }

  /** The live graphs are those in the slots, one slot each, and what each captured is
      pinned by its own handles and the arena's. */
  ghost predicate SlotsMatch(layers: seq<Option<Graph>>, arena: Option<ArenaSlots>, captured: Captures) {
    && (forall i: nat :: i < |layers| && layers[i].Some? ==>
          layers[i].value.exec in captured
          && captured[layers[i].value.exec] <= Handles(layers[i]) + ArenaHandles(arena))
    && (forall i: nat, j: nat, g: nat :: InSlot(layers, i, g) && InSlot(layers, j, g) ==> i == j)
    && (forall g :: g in captured ==> exists i: nat :: InSlot(layers, i, g))
  }

  lemma MatchedAreSafe(layers: seq<Option<Graph>>, arena: Option<ArenaSlots>, captured: Captures, handles: multiset<Buf>)
    requires SlotsMatch(layers, arena, captured) && Held(layers) + ArenaHandles(arena) <= handles
    ensures NoneDangling(captured, handles)
  {
    forall g, b | g in captured && b in captured[g]
      ensures b in handles
    {
      var i: nat :| InSlot(layers, i, g);
      HandlesHeld(layers, i);
      assert b in Handles(layers[i]) + ArenaHandles(arena);
    }
  }

  function Without(captured: Captures, exec: nat): Captures {
    map g | g in captured && g != exec :: captured[g]
  }

  lemma MatchWithout(layers: seq<Option<Graph>>, arena: Option<ArenaSlots>, captured: Captures, i: nat)
    requires SlotsMatch(layers, arena, captured) && i < |layers| && layers[i].Some?
    ensures SlotsMatch(layers[i := None], arena, Without(captured, layers[i].value.exec))
  {
    var exec, now, left := layers[i].value.exec, layers[i := None], Without(captured, layers[i].value.exec);
    assert InSlot(layers, i, exec);
    forall j: nat, g: nat | InSlot(now, j, g)
      ensures InSlot(layers, j, g) && g != exec
    {
      assert InSlot(layers, j, g);
    }
    forall j: nat | j < |now| && now[j].Some?
      ensures now[j].value.exec in left && left[now[j].value.exec] <= Handles(now[j]) + ArenaHandles(arena)
    {
      assert InSlot(now, j, now[j].value.exec);
    }
    forall g | g in left
      ensures exists j: nat :: InSlot(now, j, g)
    {
      var j: nat :| InSlot(layers, j, g);
      assert InSlot(now, j, g);
    }
  }

  lemma MatchWith(layers: seq<Option<Graph>>, arena: Option<ArenaSlots>, captured: Captures, i: nat, g: Graph, refs: multiset<Buf>)
    requires SlotsMatch(layers, arena, captured) && i < |layers| && layers[i] == None && g.exec !in captured
    requires refs <= g.scratch + g.weights + ArenaHandles(arena)
    ensures SlotsMatch(layers[i := Some(g)], arena, captured[g.exec := refs])
  {
    var now, more := layers[i := Some(g)], captured[g.exec := refs];
    forall j: nat, e: nat | InSlot(now, j, e)
      ensures if j == i then e == g.exec else InSlot(layers, j, e) && e != g.exec
    {
    }
    forall e | e in more
      ensures exists j: nat :: InSlot(now, j, e)
    {
      if e == g.exec {
        assert InSlot(now, i, e);
      } else {
        var j: nat :| InSlot(layers, j, e);
        assert InSlot(now, j, e);
      }
    }
  }

  ghost predicate AllEmpty(layers: seq<Option<Graph>>) {
    forall i: nat :: i < |layers| ==> layers[i] == None
  }

  /** The epoch in which a slot's graph was captured. */
  ghost predicate Stamped(layers: seq<Option<Graph>>, born: map<nat, nat>, epoch: nat) {
    forall i: nat, g: nat :: InSlot(layers, i, g) ==> g in born && born[g] == epoch
  }

  /** Without graphs nothing constrains the arena, the epoch or the buffers. */
  lemma NoGraphs(layers: seq<Option<Graph>>, arena: Option<ArenaSlots>, captured: Captures,
                 layers': seq<Option<Graph>>, arena': Option<ArenaSlots>, born: map<nat, nat>, epoch: nat, handles: multiset<Buf>)
    requires SlotsMatch(layers, arena, captured) && AllEmpty(layers) && AllEmpty(layers')
    ensures captured == map[] && SlotsMatch(layers', arena', captured) && Stamped(layers', born, epoch)
    ensures Held(layers) == Held(layers') == multiset{} && NoneDangling(captured, handles)
  {
    HeldNone(layers);
    HeldNone(layers');
    assert captured.Keys == {};
  }

  lemma StampedWithout(layers: seq<Option<Graph>>, born: map<nat, nat>, epoch: nat, i: nat)
    requires Stamped(layers, born, epoch) && i < |layers|
    ensures Stamped(layers[i := None], born, epoch)
  {
    var now := layers[i := None];
    forall j: nat, g: nat | InSlot(now, j, g)
      ensures g in born && born[g] == epoch
    {
      assert InSlot(layers, j, g);
    }
  }

  lemma StampedWith(layers: seq<Option<Graph>>, born: map<nat, nat>, epoch: nat, i: nat, g: Graph)
    requires Stamped(layers, born, epoch) && i < |layers|
    ensures Stamped(layers[i := Some(g)], born[g.exec := epoch], epoch)
  {
    var now, more := layers[i := Some(g)], born[g.exec := epoch];
    forall j: nat, e: nat | InSlot(now, j, e)
      ensures e in more && more[e] == epoch
    {
      assert e == g.exec || InSlot(layers, j, e);
    }
  }

  lemma BelowAfterAlloc(handles: multiset<Buf>, next: nat)
    requires Below(handles, next)
    ensures Below(handles + multiset{next}, next + 1)
  {
  }

  lemma OneMoreCached(others: multiset<Buf>, workspace: multiset<Buf>, cache: multiset<Buf>, b: Buf)
    ensures others + (workspace + cache) + multiset{b} == others + (workspace + (cache + multiset{b}))
  {
  }

  lemma CacheHandles(others: multiset<Buf>, workspace: multiset<Buf>, cache: multiset<Buf>)
    ensures cache <= others + (workspace + cache)
    ensures others + (workspace + cache) - cache == others + (workspace + multiset{})
    ensures others <= others + (workspace + cache) - cache
  {
  }

  /** The books after the workspace's handles "was" are exchanged for "now". */
  lemma WorkspaceBooks(others: multiset<Buf>, was: multiset<Buf>, now: multiset<Buf>, cache: multiset<Buf>)
    ensures var all := others + (was + cache) + now;
      was <= all && all - was == others + (now + cache) && others <= all - was
  {
  }

  ghost function WithPair(handles: multiset<Buf>, a: Buf): multiset<Buf> {
    handles + multiset{a} + multiset{a + 1}
  }

  /** The books before and after the arena's slots are replaced. */
  lemma ReplacedBooks(layers: seq<Option<Graph>>, arena: Option<ArenaSlots>, captured: Captures, handles: multiset<Buf>,
                      cache: multiset<Buf>, slots: ArenaSlots, born: map<nat, nat>, epoch: nat)
    requires handles == Held(layers) + ArenaHandles(arena) + cache && Below(handles, slots.a) && slots.b == slots.a + 1
    requires SlotsMatch(layers, arena, captured) && AllEmpty(layers)
    ensures var all := WithPair(handles, slots.a);
      && ArenaHandles(arena) <= all && NoneDangling(captured, all - ArenaHandles(arena))
      && all - ArenaHandles(arena) == Held(layers) + ArenaHandles(Some(slots)) + cache
      && Below(all - ArenaHandles(arena), slots.a + 2)
    ensures SlotsMatch(layers, Some(slots), captured)
  {
    hide Held, SlotsMatch, NoneDangling, AllEmpty;
    NoGraphs(layers, arena, captured, layers, Some(slots), born, epoch, WithPair(handles, slots.a) - ArenaHandles(arena));
  }

  lemma ArenaGone(held: multiset<Buf>, was: multiset<Buf>, cache: multiset<Buf>)
    ensures was <= held + was + cache && held + was + cache - was == held + multiset{} + cache
  {
  }

  lemma MoreIsSafe(captured: Captures, handles: multiset<Buf>, more: multiset<Buf>)
    requires NoneDangling(captured, handles)
    ensures NoneDangling(captured, handles + more)
  {
  }

  /** A second handle on a cached weight, and the older one dropped. */
  lemma NormBooks(others: multiset<Buf>, held: Workspace, b: Buf, cache: multiset<Buf>)
    ensures var all, gone := others + (WorkspaceHandles(Some(held)) + cache) + multiset{b}, NormHandle(held.norm);
      && gone <= all && others <= all - gone
      && all - gone == others + (WorkspaceHandles(Some(held.(norm := Some(b)))) + cache)
  {
  }

  lemma FewerBelow(handles: multiset<Buf>, gone: multiset<Buf>, bound: nat)
    requires Below(handles, bound)
    ensures Below(handles - gone, bound)
  {
  }

  lemma OneMoreBelow(handles: multiset<Buf>, b: Buf, bound: nat)
    requires Below(handles, bound) && b in handles
    ensures Below(handles + multiset{b}, bound)
  {
  }

  lemma NoWorkspace()
    ensures WorkspaceHandles(None) == multiset{}
  {
  }

  lemma NoArena()
    ensures ArenaHandles(None) == multiset{}
  {
  }

  ghost predicate Within(some: multiset<Buf>, all: multiset<Buf>) {
    forall b :: b in some ==> b in all
  }

  /** The handles while an entry that holds "weights" and "scratch" is not filed. */
  ghost function InFlight(owned: multiset<Buf>, weights: multiset<Buf>, scratch: multiset<Buf>): multiset<Buf> {
    owned + weights + scratch
  }

  lemma PinnedHandles(held: multiset<Buf>, arena: multiset<Buf>, workspace: multiset<Buf>, cache: multiset<Buf>,
                      weights: multiset<Buf>)
    requires Within(weights, cache)
    ensures Within(weights, held + arena + (workspace + cache))
  {
  }

  lemma CapturableHandles(held: multiset<Buf>, arena: multiset<Buf>, cache: multiset<Buf>,
                          weights: multiset<Buf>, scratch: multiset<Buf>)
    ensures Within(scratch + weights + arena, InFlight(held + arena + cache, weights, scratch))
  {
  }

  /** What a build leaves in the slots: the new entry, or nothing new. */
  ghost predicate Filed(was: seq<Option<Graph>>, now: seq<Option<Graph>>, filed: bool, li: nat, weights: multiset<Buf>) {
    if filed && li < |was| then |now| == |was| && now[li].Some? && now == was[li := now[li]] && now[li].value.weights == weights
    else now == was
  }

  lemma NotFiled(layers: seq<Option<Graph>>, li: nat, weights: multiset<Buf>)
    ensures Filed(layers, layers, false, li, weights)
  {
  }

  /** The books before and after a graph is filed in an empty slot. */
  lemma FiledBooks(layers: seq<Option<Graph>>, arena: Option<ArenaSlots>, captured: Captures, handles: multiset<Buf>,
                   cache: multiset<Buf>, i: nat, g: Graph, born: map<nat, nat>, epoch: nat)
    requires handles == Held(layers) + ArenaHandles(arena) + cache && SlotsMatch(layers, arena, captured)
    requires Stamped(layers, born, epoch) && i < |layers| && layers[i] == None && g.exec !in captured
    ensures var filed := layers[i := Some(g)];
      && InFlight(handles, g.weights, g.scratch) == Held(filed) + ArenaHandles(arena) + cache
      && SlotsMatch(filed, arena, captured[g.exec := g.scratch + g.weights + ArenaHandles(arena)])
      && Stamped(filed, born[g.exec := epoch], epoch)
  {
    hide Held, SlotsMatch, Stamped;
    HeldWith(layers, i, g);
    MatchWith(layers, arena, captured, i, g, g.scratch + g.weights + ArenaHandles(arena));
    StampedWith(layers, born, epoch, i, g);
  }

  /** The order of releases in an entry's teardown, as arithmetic on handles. */
  lemma EntryHandles(handles: multiset<Buf>, held: multiset<Buf>, scratch: multiset<Buf>, weights: multiset<Buf>,
                     arena: multiset<Buf>, cache: multiset<Buf>)
    requires handles == held + (scratch + weights) + arena + cache
    ensures scratch <= handles && weights <= handles - scratch
    ensures handles - scratch - weights == held + arena + cache
    ensures held + arena <= handles - scratch - weights && held + arena <= handles - scratch
  {
  }

  // ---- The resources --------------------------------------------------------

  /** Everything a run of the decode path does to graphs and their buffers. */
  class GraphResources {
    var generation: nat
    var layers: seq<Option<Graph>>
    var arena: Option<ArenaSlots>
    var workspace: Option<Workspace>
    /** The handles of the persistent weight cache. */
    var weightCache: multiset<Buf>
    /** All outstanding handles: a buffer is allocated while it has one. */
    var handles: multiset<Buf>
    /** The live executable graphs and the addresses each captured. */
    var captured: Captures
    var nextBuf: Buf
    var nextExec: nat
    /** Resets so far, resets when the arena was allocated, and the epoch (resets and
        changes of the layer count) in which each graph was captured. */
    ghost var resets: nat
    ghost var arenaReset: nat
    ghost var epoch: nat
    ghost var born: map<nat, nat>

    ghost predicate Safe()
      reads this
    {
      NoneDangling(captured, handles)
    }

    /** The handles that are neither a slot's nor the arena's. */
    ghost function Others(): multiset<Buf>
      reads this`workspace, this`weightCache
    {
      WorkspaceHandles(workspace) + weightCache
    }

    /** The books balance: every handle is owned by a slot, the arena, the greedy
        workspace or the weight cache. */
    ghost predicate Balanced()
      reads this
    {
      && handles == Held(layers) + ArenaHandles(arena) + Others()
      && SlotsMatch(layers, arena, captured)
      && Stamped(layers, born, epoch)
      && (forall g :: g in captured ==> g < nextExec)
      && Below(handles, nextBuf)
    }

    ghost predicate Valid()
      reads this
    {
      && Balanced()
      && generation == resets % U64
      && (arena.Some? ==> arenaReset <= resets && arena.value.generation == arenaReset % U64)
      && (AllEmpty(layers) || (arena.Some? && arenaReset == resets))
    }

    constructor ()
      ensures Valid() && layers == [] && arena == None && workspace == None && handles == multiset{} && resets == 0
    {
      generation, layers, arena, workspace := 0, [], None, None;
      weightCache, handles, captured := multiset{}, multiset{}, map[];
      nextBuf, nextExec := 0, 0;
      resets, arenaReset, epoch, born := 0, 0, 0, map[];
    }

    lemma BalancedIsSafe()
      requires Balanced()
      ensures Safe()
    {
      MatchedAreSafe(layers, arena, captured, handles);
    }

    // ---- Primitive steps: each keeps Safe -----------------------------------

    /** Destroying an executable graph. */
    method DestroyGraph(exec: nat)
      requires Safe()
      modifies `captured
      ensures Safe() && captured == Without(old(captured), exec)
    {
      captured := Without(captured, exec);
    }

    /** Dropping handles. It may only happen when no live graph needs them. */
    method Release(bufs: multiset<Buf>)
      requires bufs <= handles && NoneDangling(captured, handles - bufs)
      modifies `handles
      ensures Safe() && handles == old(handles) - bufs
    {
      handles := handles - bufs;
    }

    /** A fresh allocation. */
    method Alloc() returns (b: Buf)
      requires Safe()
      modifies `handles, `nextBuf
      ensures Safe() && b == old(nextBuf) && nextBuf == b + 1 && handles == old(handles) + multiset{b}
    {
      b := nextBuf;
      nextBuf := nextBuf + 1;
      handles := handles + multiset{b};
    }

    // ---- Teardown ------------------------------------------------------------

    /** Dropping slot i's entry: first the graph, then its scratch, then its weights. */
    method DropEntry(i: nat)
      requires Balanced() && i < |layers|
      modifies `layers, `captured, `handles
      ensures Balanced() && Safe() && layers == old(layers)[i := None]
    {
      hide Others, WorkspaceHandles;
      hide Held, SlotsMatch, Stamped, NoneDangling, ArenaHandles;
      BalancedIsSafe();
      if layers[i].None? {
        assert layers == layers[i := None];
        return;
      }
      var entry := layers[i].value;
      ghost var left := Without(captured, entry.exec);
      HeldWithout(layers, i);
      EntryHandles(handles, Held(layers[i := None]), entry.scratch, entry.weights, ArenaHandles(arena), Others());
      MatchWithout(layers, arena, captured, i);
      MatchedAreSafe(layers[i := None], arena, left, handles - entry.scratch);
      MatchedAreSafe(layers[i := None], arena, left, handles - entry.scratch - entry.weights);
      StampedWithout(layers, born, epoch, i);
      DestroyGraph(entry.exec);
      Release(entry.scratch);
      Release(entry.weights);
      layers := layers[i := None];
    }

    /** Every slot, in order. */
    method DropAll()
      requires Balanced()
      modifies `layers, `captured, `handles
      ensures Balanced() && Safe() && |layers| == |old(layers)| && AllEmpty(layers)
    {
      BalancedIsSafe();
      for i := 0 to |layers|
        invariant Balanced() && Safe() && |layers| == |old(layers)|
        invariant forall j: nat :: j < i ==> layers[j] == None
      {
        DropEntry(i);
      }
    }

    /** A reset of the graph cache: every graph destroyed, the generation advanced. */
    method Reset()
      requires Valid()
      modifies `layers, `captured, `handles, `generation, `resets, `epoch
      ensures Valid() && Safe() && AllEmpty(layers) && |layers| == |old(layers)|
      ensures generation == Next(old(generation)) && resets == old(resets) + 1 && epoch == old(epoch) + 1
    {
      hide Others, WorkspaceHandles;
      hide Held, SlotsMatch, Stamped, NoneDangling, ArenaHandles, AllEmpty;
      DropAll();
      NoGraphs(layers, arena, captured, layers, arena, born, epoch + 1, handles);
      generation := Next(generation);
      resets, epoch := resets + 1, epoch + 1;
    }

    /** The arena's slots go once no graph is left. */
    method TakeArena()
      requires Valid() && AllEmpty(layers)
      modifies `arena, `handles
      ensures Valid() && Safe() && arena == None
    {
      hide Others, WorkspaceHandles;
      hide Held, SlotsMatch, Stamped, NoneDangling, AllEmpty, ArenaHandles;
      NoArena();
      ArenaGone(Held(layers), ArenaHandles(arena), Others());
      NoGraphs(layers, arena, captured, layers, None, born, epoch, handles - ArenaHandles(arena));
      Release(ArenaHandles(arena));
      arena := None;
    }

    /** Flushing the weight cache. A graph's own weight handles survive it. */
    method FlushWeights()
      requires Valid()
      modifies `weightCache, `handles
      ensures Valid() && Safe() && weightCache == multiset{}
    {
      hide WorkspaceHandles, Below;
      hide Held, SlotsMatch, Stamped, NoneDangling, ArenaHandles, AllEmpty;
      CacheHandles(Held(layers) + ArenaHandles(arena), WorkspaceHandles(workspace), weightCache);
      FewerBelow(handles, weightCache, nextBuf);
      MatchedAreSafe(layers, arena, captured, handles - weightCache);
      Release(weightCache);
      weightCache := multiset{};
    }

    /** Dropping the greedy workspace: its buffers and its handle on the norm weight. */
    method TakeWorkspace()
      requires Valid()
      modifies `workspace, `handles
      ensures Valid() && Safe() && workspace == None
    {
      hide Held, SlotsMatch, Stamped, NoneDangling, ArenaHandles, AllEmpty, WorkspaceHandles;
      NoWorkspace();
      WorkspaceBooks(Held(layers) + ArenaHandles(arena), WorkspaceHandles(workspace), multiset{}, weightCache);
      assert handles + multiset{} == handles;
      MatchedAreSafe(layers, arena, captured, handles - WorkspaceHandles(workspace));
      Release(WorkspaceHandles(workspace));
      workspace := None;
    }

    /** Graphs, then arena, then greedy workspace, then weights. */
    method ReleaseAll()
      requires Valid()
      modifies `layers, `captured, `handles, `generation, `resets, `epoch, `arena, `workspace, `weightCache
      ensures Valid() && Safe() && AllEmpty(layers) && |layers| == |old(layers)|
      ensures captured == map[] && handles == multiset{}
      ensures generation == Next(old(generation)) && resets == old(resets) + 1 && epoch == old(epoch) + 1
    {
      hide Balanced, Safe, AllEmpty;
      Reset();
      TakeArena();
      TakeWorkspace();
      FlushWeights();
      NothingHeld();
    }

    lemma NothingHeld()
      requires Balanced() && AllEmpty(layers) && arena == None && workspace == None && weightCache == multiset{}
      ensures handles == multiset{} && captured == map[]
    {
      hide SlotsMatch, Stamped, NoneDangling, AllEmpty, Held;
      NoGraphs(layers, arena, captured, layers, arena, born, epoch, handles);
    }

    /** The generation boundary: everything above is released, and the cursors of the KV
        cache go back. */
    method ResetKvCache(kv: KvCache.CudaKVCache)
      requires Valid() && kv.Valid() && this !in kv.repr
      modifies `layers, `captured, `handles, `generation, `resets, `epoch, `arena, `workspace, `weightCache, kv.repr
      ensures Valid() && Safe() && AllEmpty(layers) && |layers| == |old(layers)|
      ensures captured == map[] && handles == multiset{}
      ensures generation == Next(old(generation)) && resets == old(resets) + 1 && epoch == old(epoch) + 1
      ensures kv.Valid() && kv.present == old(kv.present) && kv.Layers() == KvCache.Cleared(old(kv.Layers()))
    {
      hide Balanced, Safe, AllEmpty, KvCache.StatesOf, KvCache.Cleared, KvCache.AllValid;
      ReleaseAll();
      kv.Clear();
    }

    /** A change of the layer count drops every graph. */
    method EnsureCapacity(numLayers: nat)
      requires Valid()
      modifies `layers, `captured, `handles, `epoch
      ensures Valid() && Safe() && |layers| == numLayers
      ensures numLayers == |old(layers)| ==> layers == old(layers) && captured == old(captured) && epoch == old(epoch)
      ensures numLayers != |old(layers)| ==> AllEmpty(layers) && epoch == old(epoch) + 1
    {
      hide Others, WorkspaceHandles;
      hide Held, SlotsMatch, Stamped, NoneDangling, ArenaHandles;
      BalancedIsSafe();
      if |layers| != numLayers {
        DropAll();
        NoGraphs(layers, arena, captured, seq(numLayers, i => None), arena, born, epoch + 1, handles);
        layers := seq(numLayers, i => None);
        epoch := epoch + 1;
      }
    }

    lemma StaleIsEmpty()
      requires Valid() && (arena.None? || arena.value.generation != generation)
      ensures AllEmpty(layers)
    {
    }

    /** New slots are allocated before the old ones are dropped. */
    method ReplaceArena()
      requires Valid() && Safe() && AllEmpty(layers)
      modifies `arena, `handles, `nextBuf, `arenaReset
      ensures Valid() && Safe() && arena.Some? && arenaReset == resets
    {
      hide Others, WorkspaceHandles;
      hide Held, SlotsMatch, Stamped, NoneDangling, AllEmpty, ArenaHandles, Below, WithPair;
      ghost var before := handles;
      var a := AllocPair();
      var slots := Some(ArenaSlots(a, a + 1, generation));
      ReplacedBooks(layers, arena, captured, before, Others(), slots.value, born, epoch);
      Release(ArenaHandles(arena));
      arena := slots;
      arenaReset := resets;
    }

    method AllocPair() returns (a: Buf)
      requires Safe()
      modifies `handles, `nextBuf
      ensures Safe() && a == old(nextBuf) && nextBuf == a + 2 && handles == WithPair(old(handles), a)
    {
      a := Alloc();
      var b := Alloc();
    }

    /** Arena slots of the current generation: kept if the arena's number matches,
        otherwise allocated anew and the old ones dropped. With fewer than 2^64 resets
        since the arena was allocated, a match means that there was none. */
    method EnsureArena()
      requires Valid() && (arena.Some? ==> resets - arenaReset < U64)
      modifies `arena, `handles, `nextBuf, `arenaReset
      ensures Valid() && Safe() && arena.Some? && arenaReset == resets
      ensures old(arena).Some? && old(arenaReset) == resets ==> arena == old(arena)
    {
      hide Others, WorkspaceHandles;
      hide Held, SlotsMatch, Stamped, NoneDangling, AllEmpty, ArenaHandles, Below;
      BalancedIsSafe();
      if arena.None? || arena.value.generation != generation {
        StaleIsEmpty();
        ReplaceArena();
      } else {
        SameGeneration(resets, arenaReset);
      }
    }

    // ---- Capture and insertion ----------------------------------------------

    /** Uploading a weight that the cache does not hold yet. */
    method UploadWeight() returns (b: Buf)
      requires Valid()
      modifies `weightCache, `handles, `nextBuf
      ensures Valid() && Safe() && weightCache == old(weightCache) + multiset{b}
    {
      hide WorkspaceHandles;
      hide Held, SlotsMatch, Stamped, NoneDangling, AllEmpty, ArenaHandles, Below;
      BalancedIsSafe();
      ghost var others := Held(layers) + ArenaHandles(arena);
      BelowAfterAlloc(handles, nextBuf);
      b := Alloc();
      OneMoreCached(others, WorkspaceHandles(workspace), weightCache, b);
      weightCache := weightCache + multiset{b};
    }

    /** A number of fresh buffers. */
    method AllocMany(count: nat) returns (bufs: multiset<Buf>)
      requires Safe() && Below(handles, nextBuf)
      modifies `handles, `nextBuf
      ensures Safe() && Below(handles, nextBuf) && handles == old(handles) + bufs
      ensures |bufs| == count && forall b :: b in bufs ==> b >= old(nextBuf)
    {
      bufs := multiset{};
      for k := 0 to count
        invariant Safe() && Below(handles, nextBuf) && handles == old(handles) + bufs && nextBuf >= old(nextBuf)
        invariant |bufs| == k && forall b :: b in bufs ==> b >= old(nextBuf)
      {
        var b := Alloc();
        bufs := bufs + multiset{b};
      }
    }

    /** A greedy workspace for a new shape: built before the old one is dropped. */
    method BuildWorkspace(count: nat)
      requires Valid()
      modifies `workspace, `handles, `nextBuf
      ensures Valid() && Safe() && workspace.Some? && workspace.value.norm == None
      ensures |workspace.value.buffers| == count && forall b :: b in workspace.value.buffers ==> b >= old(nextBuf)
    {
      hide Held, SlotsMatch, Stamped, NoneDangling, ArenaHandles, AllEmpty;
      BalancedIsSafe();
      ghost var others := Held(layers) + ArenaHandles(arena);
      var bufs := AllocMany(count);
      ExchangeWorkspace(Some(Workspace(bufs, None)), others);
    }

    /** A handle on a cached norm weight, in place of the one held so far. */
    method HoldNormWeight(b: Buf)
      requires Valid() && workspace.Some? && b in weightCache
      modifies `workspace, `handles
      ensures Valid() && Safe() && workspace == Some(old(workspace).value.(norm := Some(b)))
    {
      hide Held, SlotsMatch, Stamped, NoneDangling, ArenaHandles, AllEmpty, WorkspaceHandles, NormHandle, Below;
      BalancedIsSafe();
      ghost var others := Held(layers) + ArenaHandles(arena);
      var held := workspace.value;
      NormBooks(others, held, b, weightCache);
      MoreIsSafe(captured, handles, multiset{b});
      OneMoreBelow(handles, b, nextBuf);
      handles := handles + multiset{b};
      FewerBelow(handles, NormHandle(held.norm), nextBuf);
      MatchedAreSafe(layers, arena, captured, handles - NormHandle(held.norm));
      Release(NormHandle(held.norm));
      workspace := Some(held.(norm := Some(b)));
    }

    /** The new workspace's handles are already taken; the old one's go. */
    method ExchangeWorkspace(now: Option<Workspace>, ghost others: multiset<Buf>)
      requires others == Held(layers) + ArenaHandles(arena)
      requires handles == others + Others() + WorkspaceHandles(now) && Below(handles, nextBuf)
      requires SlotsMatch(layers, arena, captured)
      modifies `workspace, `handles
      ensures Safe() && workspace == now && handles == others + Others() && Below(handles, nextBuf)
    {
      hide Held, SlotsMatch, NoneDangling, ArenaHandles, WorkspaceHandles;
      WorkspaceBooks(others, WorkspaceHandles(workspace), WorkspaceHandles(now), weightCache);
      MatchedAreSafe(layers, arena, captured, handles - WorkspaceHandles(workspace));
      Release(WorkspaceHandles(workspace));
      workspace := now;
    }

    /** What an entry holds: handles on weights that are already allocated, norm weights
        uploaded for it alone, and scratch of its own. */
    method Acquire(weights: multiset<Buf>, normCount: nat, scratchCount: nat) returns (norms: multiset<Buf>, scratch: multiset<Buf>)
      requires Safe() && Below(handles, nextBuf) && Within(weights, handles)
      modifies `handles, `nextBuf
      ensures Safe() && Below(handles, nextBuf) && handles == InFlight(old(handles), weights + norms, scratch)
      ensures |norms| == normCount && |scratch| == scratchCount
    {
      handles := handles + weights;
      norms := AllocMany(normCount);
      scratch := AllocMany(scratchCount);
    }

    method Capture(refs: multiset<Buf>) returns (exec: nat)
      requires Safe() && (forall g :: g in captured ==> g < nextExec) && Within(refs, handles)
      modifies `captured, `nextExec
      ensures Safe() && exec == old(nextExec) && nextExec == exec + 1 && captured == old(captured)[exec := refs]
    {
      exec := nextExec;
      nextExec := nextExec + 1;
      captured := captured[exec := refs];
    }

    /** Building layer li's graph with the generation number read at reset "readAt". It
        pins cached weights, uploads norm weights of its own, captures its scratch, all
        these weights and the arena's slots, replays once, and files the entry if the generation number is still
        current and the slot still exists; otherwise the entry is torn down in order.
        With fewer than 2^64 resets since the number was read, an entry is filed only
        if there was none. */
    method Build(gen: nat, ghost readAt: nat, li: nat, weights: multiset<Buf>, normCount: nat, scratchCount: nat,
                 captureOk: bool, replayOk: bool)
      returns (ok: bool, ghost retained: multiset<Buf>)
      requires Valid() && (arena.Some? ==> arenaReset == resets)
      requires Within(weights, weightCache) && (li < |layers| ==> layers[li] == None)
      requires readAt <= resets && resets - readAt < U64 && gen == readAt % U64
      modifies `layers, `captured, `handles, `nextBuf, `nextExec, `born
      ensures Valid() && Safe()
      ensures ok == (captureOk && replayOk && arena.Some?)
      ensures Filed(old(layers), layers, ok && readAt == resets, li, retained)
      ensures ok ==> weights <= retained && |retained| == |weights| + normCount
    {
      hide WorkspaceHandles;
      hide Held, SlotsMatch, Stamped, NoneDangling, AllEmpty, ArenaHandles, Below, InFlight, Within, Filed;
      BalancedIsSafe();
      NotFiled(layers, li, weights);
      if arena.None? {
        return false, weights;
      }
      ghost var owned := handles;
      PinnedHandles(Held(layers), ArenaHandles(arena), WorkspaceHandles(workspace), weightCache, weights);
      var norms, scratch := Acquire(weights, normCount, scratchCount);
      retained := weights + norms;
      NotFiled(layers, li, retained);
      if captureOk {
        CaptureAndFile(gen, readAt, li, weights + norms, scratch, replayOk, owned);
      } else {
        DropUnfiled(scratch, weights + norms, owned);
      }
      ok := captureOk && replayOk;
    }

    method CaptureAndFile(gen: nat, ghost readAt: nat, li: nat, weights: multiset<Buf>, scratch: multiset<Buf>,
                          replayOk: bool, ghost owned: multiset<Buf>)
      requires owned == Held(layers) + ArenaHandles(arena) + Others() && handles == InFlight(owned, weights, scratch)
      requires Safe() && SlotsMatch(layers, arena, captured) && Stamped(layers, born, epoch)
      requires NoneDangling(captured, owned) && Below(handles, nextBuf)
      requires (forall g :: g in captured ==> g < nextExec) && (li < |layers| ==> layers[li] == None)
      requires generation == resets % U64 && readAt <= resets && resets - readAt < U64 && gen == readAt % U64
      modifies `layers, `captured, `handles, `nextExec, `born
      ensures Balanced() && Safe()
      ensures Filed(old(layers), layers, replayOk && readAt == resets, li, weights)
    {
      hide Others, WorkspaceHandles;
      hide Held, SlotsMatch, Stamped, NoneDangling, ArenaHandles, Below, InFlight, Within;
      ghost var live := captured;
      CapturableHandles(Held(layers), ArenaHandles(arena), Others(), weights, scratch);
      var exec := Capture(scratch + weights + ArenaHandles(arena));
      var g := Graph(exec, scratch, weights);
      if replayOk && generation == gen && li < |layers| {
        SameGeneration(resets, readAt);
        FileEntry(li, g, owned, live);
      } else {
        assert Without(captured, exec) == live;
        DestroyGraph(exec);
        DropUnfiled(scratch, weights, owned);
      }
    }

    /** The captured entry goes into its slot, stamped with the epoch. */
    method FileEntry(li: nat, g: Graph, ghost owned: multiset<Buf>, ghost live: Captures)
      requires owned == Held(layers) + ArenaHandles(arena) + Others() && handles == InFlight(owned, g.weights, g.scratch)
      requires SlotsMatch(layers, arena, live) && Stamped(layers, born, epoch) && Safe()
      requires captured == live[g.exec := g.scratch + g.weights + ArenaHandles(arena)] && g.exec !in live
      requires (forall e :: e in captured ==> e < nextExec) && Below(handles, nextBuf)
      requires li < |layers| && layers[li] == None
      modifies `layers, `born
      ensures Balanced() && Safe() && layers == old(layers)[li := Some(g)]
    {
      hide Held, SlotsMatch, Stamped, NoneDangling, ArenaHandles, Below, InFlight, Others;
      FiledBooks(layers, arena, live, owned, Others(), li, g, born, epoch);
      layers := layers[li := Some(g)];
      born := born[g.exec := epoch];
    }

    /** Scratch first, then weights. */
    method DropUnfiled(scratch: multiset<Buf>, weights: multiset<Buf>, ghost owned: multiset<Buf>)
      requires handles == InFlight(owned, weights, scratch) && NoneDangling(captured, owned)
      modifies `handles
      ensures Safe() && handles == owned
      ensures Below(old(handles), nextBuf) ==> Below(handles, nextBuf)
    {
      assert handles - scratch == owned + weights;
      Release(scratch);
      assert handles - weights == owned;
      Release(weights);
    }

    /** Looking a layer's graph up. What it returns was captured in the current epoch,
        that is, since the last reset and for the current layer count, and everything it
        captured is still allocated. */
    method Get(layerIndex: nat) returns (g: Option<Graph>)
      requires Valid()
      ensures g == if layerIndex < |layers| then layers[layerIndex] else None
      ensures g.Some? ==> g.value.exec in born && born[g.value.exec] == epoch
      ensures g.Some? ==> g.value.exec in captured && forall b :: b in captured[g.value.exec] ==> b in handles
    {
      BalancedIsSafe();
      if layerIndex >= |layers| {
        return None;
      }
      g := layers[layerIndex];
      assert g.Some? ==> InSlot(layers, layerIndex, g.value.exec);
    }
  }

  lemma SameGeneration(resets: nat, arenaReset: nat)
    requires arenaReset <= resets && resets - arenaReset < U64 && resets % U64 == arenaReset % U64
    ensures resets == arenaReset
  {
  }
}
