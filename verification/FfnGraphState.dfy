/** Graph generations, and the resident decode arena with its ping-pong of two
    hidden-state slots. */
module FfnGraphState {
  import opened Sums

  // ---- Generations ----------------------------------------------------------

  const U64: nat := 0x1_0000_0000_0000_0000

  /** The next generation: a 64-bit counter that wraps. */
  function Next(g: nat): nat {
    (g + 1) % U64
  }

  ghost function After(g: nat, resets: nat): nat {
    if resets == 0 then g else Next(After(g, resets - 1))
  }

  /** A generation number comes back exactly after a multiple of 2^64 resets: below
      that, an older generation never equals the current one. */
  lemma {:induction false} GenerationRecurs(g: nat, resets: nat)
    requires g < U64
    ensures After(g, resets) == (g + resets) % U64
    ensures After(g, resets) == g <==> resets % 0x1_0000_0000_0000_0000 == 0
  {
    if resets > 0 {
      GenerationRecurs(g, resets - 1);
      OneMoreReset(g + resets - 1);
    }
    RoundTheClock(g, resets);
  }

  lemma OneMoreReset(n: nat)
    ensures (n % U64 + 1) % U64 == (n + 1) % U64
  {
  }

  lemma RoundTheClock(g: nat, resets: nat)
    requires g < U64
    ensures (g + resets) % U64 == g <==> resets % U64 == 0
  {
  }

  // ---- The arena ------------------------------------------------------------

  /** One layer, as the two things it adds to the residual stream: the attention
      branch, computed from the layer's input, and the feed-forward branch, computed
      from the post-attention state. */
  datatype Layer = Layer(attention: seq<real> -> seq<real>, feedForward: seq<real> -> seq<real>, multiplier: real)

  ghost function AddScaled(base: seq<real>, m: real, branch: seq<real>): (r: seq<real>)
    requires |branch| == |base|
    ensures |r| == |base|
  {
    seq(|base|, i requires 0 <= i < |base| => base[i] + m * branch[i])
  }

  /** Branches keep the hidden width. */
  ghost predicate Widths(layers: seq<Layer>, hidden: nat) {
    forall l, x: seq<real> :: l in layers && |x| == hidden ==> |l.attention(x)| == hidden && |l.feedForward(x)| == hidden
  }

  ghost function PostAttention(l: Layer, x: seq<real>): (r: seq<real>)
    requires |l.attention(x)| == |x|
    ensures |r| == |x|
  {
    AddScaled(x, l.multiplier, l.attention(x))
  }

  ghost function RunLayer(l: Layer, x: seq<real>): (r: seq<real>)
    requires |l.attention(x)| == |x| && forall y: seq<real> :: |y| == |x| ==> |l.feedForward(y)| == |x|
    ensures |r| == |x|
  {
    AddScaled(PostAttention(l, x), l.multiplier, l.feedForward(PostAttention(l, x)))
  }

  /** The first n layers, in order, on the uploaded embedding. */
  ghost function Compose(layers: seq<Layer>, x: seq<real>, n: nat): (r: seq<real>)
    requires n <= |layers| && Widths(layers, |x|)
    ensures |r| == |x|
  {
    if n == 0 then x else RunLayer(layers[n - 1], Compose(layers, x, n - 1))
  }

  /** What layer k adds to channel i: both of its branches, times its multiplier. */
  ghost function Added(layers: seq<Layer>, x: seq<real>, k: int, i: nat): real
    requires Widths(layers, |x|) && i < |x|
  {
    if 0 <= k < |layers| then
      var l, y := layers[k], Compose(layers, x, k);
      assert l in layers;
      var post := seq(|y|, j requires 0 <= j < |y| => y[j] + l.multiplier * l.attention(y)[j]);
      l.multiplier * l.attention(y)[i] + l.multiplier * l.feedForward(post)[i]
    else 0.0
  }

  /** The residual stream is a sum: the embedding plus what every layer adds. */
  lemma {:induction false} StreamIsSum(layers: seq<Layer>, x: seq<real>, n: nat, i: nat)
    requires n <= |layers| && Widths(layers, |x|) && i < |x|
    ensures Compose(layers, x, n)[i] == x[i] + Sum(k => Added(layers, x, k, i), n)
  {
    hide Added, RunLayer, Sum;
    var added := k => Added(layers, x, k, i);
    SumSteps(added, n);
    if n > 0 {
      StreamIsSum(layers, x, n - 1, i);
      LayerAdds(layers, x, n - 1, i);
      assert Sum(k => Added(layers, x, k, i), n - 1) == Sum(added, n - 1);
    }
  }

  lemma SumSteps(f: int -> real, n: nat)
    ensures Sum(f, n) == if n == 0 then 0.0 else Sum(f, n - 1) + f(n - 1)
  {
  }

  lemma LayerAdds(layers: seq<Layer>, x: seq<real>, k: nat, i: nat)
    requires k < |layers| && Widths(layers, |x|) && i < |x|
    ensures layers[k] in layers
    ensures RunLayer(layers[k], Compose(layers, x, k))[i] == Compose(layers, x, k)[i] + Added(layers, x, k, i)
  {
    hide Compose, RunLayer, Widths;
    assert layers[k] in layers;
    KeepsWidth(layers, layers[k], Compose(layers, x, k));
    BranchesAdd(layers[k], Compose(layers, x, k), i);
  }

  lemma KeepsWidth(layers: seq<Layer>, l: Layer, y: seq<real>)
    requires l in layers && Widths(layers, |y|)
    ensures |l.attention(y)| == |y| && forall z: seq<real> :: |z| == |y| ==> |l.feedForward(z)| == |y|
  {
  }

  lemma BranchesAdd(l: Layer, y: seq<real>, i: nat)
    requires |l.attention(y)| == |y| && (forall z: seq<real> :: |z| == |y| ==> |l.feedForward(z)| == |y|) && i < |y|
    ensures RunLayer(l, y)[i] == y[i] + (l.multiplier * l.attention(y)[i]
      + l.multiplier * l.feedForward(seq(|y|, j requires 0 <= j < |y| => y[j] + l.multiplier * l.attention(y)[j]))[i])
  {
    PostIs(l, y);
  }

  lemma PostIs(l: Layer, y: seq<real>)
    requires |l.attention(y)| == |y|
    ensures PostAttention(l, y) == seq(|y|, j requires 0 <= j < |y| => y[j] + l.multiplier * l.attention(y)[j])
  {
  }

  class ResidentDecodeArena {
    const hiddenA: array<real>
    const hiddenB: array<real>
    const generation: nat

    ghost predicate Valid() {
      hiddenA != hiddenB && hiddenA.Length == hiddenB.Length
    }

    constructor (hidden: nat, generation: nat)
      ensures Valid() && fresh(hiddenA) && fresh(hiddenB)
      ensures hiddenA.Length == hidden && this.generation == generation
    {
      hiddenA := new real[hidden](i => 0.0);
      hiddenB := new real[hidden](i => 0.0);
      this.generation := generation;
    }

    function Input(flip: bool): array<real> {
      if flip then hiddenB else hiddenA
    }

    function Output(flip: bool): array<real> {
      if flip then hiddenA else hiddenB
    }

    /** One layer: the attention residual in place, then the graph's output slot. */
    method LayerStep(l: Layer, flip: bool)
      requires Valid()
      requires |l.attention(Input(flip)[..])| == hiddenA.Length
      requires forall y: seq<real> :: |y| == hiddenA.Length ==> |l.feedForward(y)| == hiddenA.Length
      modifies hiddenA, hiddenB
      ensures Input(flip)[..] == PostAttention(l, old(Input(flip)[..]))
      ensures Output(flip)[..] == RunLayer(l, old(Input(flip)[..]))
    {
      hide AddScaled;
      var branch := l.attention(Input(flip)[..]);
      AddInto(Input(flip), Input(flip), l.multiplier, branch);
      branch := l.feedForward(Input(flip)[..]);
      AddInto(Output(flip), Input(flip), l.multiplier, branch);
    }

    /** The residual kernel: out = base + multiplier * branch, element by element. The
        output may be the base itself. */
    static method AddInto(out: array<real>, base: array<real>, multiplier: real, branch: seq<real>)
      requires out.Length == base.Length == |branch|
      modifies out
      ensures out[..] == AddScaled(old(base[..]), multiplier, branch)
    {
      ghost var sum := AddScaled(base[..], multiplier, branch);
      for i := 0 to out.Length
        invariant forall j :: 0 <= j < i ==> out[j] == sum[j]
        invariant forall j :: i <= j < out.Length ==> base[j] == old(base[j])
      {
        out[i] := base[i] + multiplier * branch[i];
      }
    }

    /** A token: upload the embedding into Input(false), then every layer with
        flip = (its index is odd) and no copy in between. The last layer's output slot
        holds all the layers applied in order. */
    method RunLayers(layers: seq<Layer>, embedding: seq<real>)
      requires Valid() && |embedding| == hiddenA.Length && Widths(layers, |embedding|)
      modifies hiddenA, hiddenB
      ensures |layers| == 0 ==> Input(false)[..] == embedding
      ensures |layers| > 0 ==> Output((|layers| - 1) % 2 == 1)[..] == Compose(layers, embedding, |layers|)
    {
      hide RunLayer, PostAttention;
      for i := 0 to |embedding|
        invariant forall j :: 0 <= j < i ==> hiddenA[j] == embedding[j]
      {
        hiddenA[i] := embedding[i];
      }
      for li := 0 to |layers|
        invariant Input(li % 2 == 1)[..] == Compose(layers, embedding, li)
      {
        assert layers[li] in layers;
        LayerStep(layers[li], li % 2 == 1);
      }
    }
  }
}
