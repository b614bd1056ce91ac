/** Scoring a token sequence with a model of bounded context: a sliding window that
    advances by a stride and scores each target against its predecessor's row. */
module ShannonWindow {
  import opened Arith

  /** NeverEnds: a turn of the loop left everything as it was. EmptyWindow: the model is
      called on no tokens at all; what it makes of that is not part of this model. */
  datatype Outcome = Scored(tokenBits: seq<real>, totalBits: real) | TooShort | StrideTooLarge | NeverEnds | EmptyWindow

  function Min(a: int, b: int): int { if a < b then a else b }

  function Max(a: int, b: int): int { if a < b then b else a }

  /** The bits that a window assigns to a target: window, row, target token. */
  type Bits = (seq<int>, int, int) -> real

  // ---- The window of a target, in closed form -------------------------------

  /** The first target scored together with target p. */
  function GroupStart(p: int, stride: int): int
    requires stride > 0
  {
    1 + (p - 1) / stride * stride
  }

  function WindowEnd(p: int, n: int, stride: int): int
    requires stride > 0
  {
    Min(GroupStart(p, stride) + stride, n)
  }

  function WindowStart(p: int, n: int, context: int, stride: int): int
    requires stride > 0
  {
    Max(WindowEnd(p, n, stride) - context, 0)
  }

  /** Each target lies in its window with its predecessor, the window fits the context,
      and the target sees at least context - stride tokens, or all there are. */
  lemma WindowIsGood(p: int, n: int, context: int, stride: int)
    requires 1 <= p < n && 1 <= stride < context
    ensures var from, to := WindowStart(p, n, context, stride), WindowEnd(p, n, stride);
      && 0 <= from < p < to <= n
      && to - from <= context
      && p - from >= Min(p, context - stride)
  {
  }

  /** What belongs to target p: the bits its predecessor's row gives it. */
  function TargetBits(ids: seq<int>, bits: Bits, context: int, stride: int, p: int): real
    requires 1 <= p < |ids| && 1 <= stride < context
  {
    WindowIsGood(p, |ids|, context, stride);
    var from, to := WindowStart(p, |ids|, context, stride), WindowEnd(p, |ids|, stride);
    bits(ids[from..to], p - 1 - from, ids[p])
  }

  /** The row that scores a target is its predecessor's. */
  lemma RowIsPredecessor(ids: seq<int>, context: int, stride: int, p: int)
    requires 1 <= p < |ids| && 1 <= stride < context
    ensures var from, to := WindowStart(p, |ids|, context, stride), WindowEnd(p, |ids|, stride);
      && 0 <= from <= to <= |ids| && 0 <= p - 1 - from && p - from < to - from
      && ids[from..to][p - 1 - from] == ids[p - 1] && ids[from..to][p - from] == ids[p]
  {
  }

  function Total(s: seq<real>): real {
    if s == [] then 0.0 else Total(s[..|s| - 1]) + s[|s| - 1]
  }

  // ---- The loop -------------------------------------------------------------

  /** A slice bound: negative ones count from the end, and both stop at the ends. */
  function Bound(i: int, n: int): int {
    if i < 0 then Max(i + n, 0) else Min(i, n)
  }

  /** A slice with such bounds. */
  function Slice(s: seq<int>, from: int, to: int): seq<int> {
    if Bound(from, |s|) <= Bound(to, |s|) then s[Bound(from, |s|)..Bound(to, |s|)] else []
  }

  /** Where the next group starts. */
  function NextStart(targetStart: int, stride: int, n: int): int {
    Min(targetStart + stride, n)
  }

  function PrefixStart(targetStart: int, context: int, stride: int, n: int): int {
    Min(Max(NextStart(targetStart, stride, n) - context, 0), targetStart - 1)
  }

  /** The window of the turn that starts at a target. */
  function Window(ids: seq<int>, targetStart: int, context: int, stride: int): seq<int> {
    Slice(ids, PrefixStart(targetStart, context, stride, |ids|), NextStart(targetStart, stride, |ids|))
  }

  ghost function AfterTurns(start: int, stride: int, n: int, turns: nat): int {
    if turns == 0 then start else NextStart(AfterTurns(start, stride, n, turns - 1), stride, n)
  }

  /** With a stride of zero every turn finds the first token as its window and ends
      where it began, short of the end: no target is ever scored. */
  lemma {:induction false} NoHeadway(ids: seq<int>, context: int, turns: nat)
    requires |ids| >= 2 && context > 0
    ensures var start := AfterTurns(1, 0, |ids|, turns);
      start < |ids| && NextStart(start, 0, |ids|) == start && Window(ids, start, context, 0) == [ids[0]]
  {
    if turns > 0 {
      NoHeadway(ids, context, turns - 1);
    }
  }

  /** Which turns find an empty window: the first or the second of a negative stride. */
  lemma WindowFound(ids: seq<int>, start: int, context: int, stride: int, groups: nat)
    requires |ids| >= 2 && stride < context && start < |ids|
    requires stride > 0 ==> 1 <= start
    requires stride <= 0 ==> start == if groups == 0 then 1 else NextStart(1, stride, |ids|)
    ensures stride >= 0 ==> Window(ids, start, context, stride) != []
    ensures stride < 0 && (groups > 0 || stride == -1) ==> Window(ids, start, context, stride) == []
  {
  }

  /** The targets before "upTo" are scored from their own windows. */
  ghost predicate ScoredUpTo(ids: seq<int>, context: int, stride: int, bits: Bits, tokenBits: seq<real>, upTo: int)
    requires upTo <= |ids| && 1 <= stride < context
  {
    |tokenBits| == upTo - 1 && forall p :: 1 <= p < upTo ==> tokenBits[p - 1] == TargetBits(ids, bits, context, stride, p)
  }

  /** The start of a turn: the first target of a group, or the end. */
  ghost predicate GroupAt(start: int, groups: nat, stride: int, n: int) {
    1 <= start && (start == n || start == 1 + groups * stride)
  }

  lemma FirstGroup(stride: int, n: int)
    ensures GroupAt(1, 0, stride, n)
  {
  }

  lemma NextGroup(start: int, groups: nat, stride: int, n: int)
    requires GroupAt(start, groups, stride, n) && stride > 0 && start < n
    ensures GroupAt(NextStart(start, stride, n), groups + 1, stride, n)
  {
  }

  /** The inner loop: the targets of one group. Without headway there are none. */
  method ScoreGroup(ids: seq<int>, context: int, stride: int, bits: Bits, chunk: seq<int>, from: int, to: int, prefixStart: int,
                    tokenBits0: seq<real>, totalBits0: real, ghost groups: nat)
    returns (tokenBits: seq<real>, totalBits: real)
    requires stride < context && from < |ids| && to == NextStart(from, stride, |ids|) && totalBits0 == Total(tokenBits0)
    requires prefixStart == PrefixStart(from, context, stride, |ids|) && chunk == Window(ids, from, context, stride)
    requires stride > 0 ==> GroupAt(from, groups, stride, |ids|) && ScoredUpTo(ids, context, stride, bits, tokenBits0, from)
    ensures totalBits == Total(tokenBits)
    ensures stride > 0 ==> ScoredUpTo(ids, context, stride, bits, tokenBits, to)
    ensures stride <= 0 ==> tokenBits == tokenBits0
  {
    hide Total, TargetBits;
    tokenBits, totalBits := tokenBits0, totalBits0;
    var rowStart := from - prefixStart - 1;
    var pos := from;
    while pos < to
      invariant from <= pos && (stride > 0 ==> pos <= to) && totalBits == Total(tokenBits)
      invariant stride > 0 ==> ScoredUpTo(ids, context, stride, bits, tokenBits, pos)
      invariant stride <= 0 ==> tokenBits == tokenBits0
    {
      OwnWindow(ids, context, stride, bits, pos, from, groups);
      var b := bits(chunk, rowStart + (pos - from), ids[pos]);
      OneMoreTotal(tokenBits, b);
      totalBits := totalBits + b;
      tokenBits := tokenBits + [b];
      pos := pos + 1;
    }
  }

  lemma OneMoreTotal(s: seq<real>, b: real)
    ensures Total(s + [b]) == Total(s) + b
  {
    assert (s + [b])[..|s|] == s;
  }

  /** The loop's window and row for a target are the ones in closed form. */
  lemma OwnWindow(ids: seq<int>, context: int, stride: int, bits: Bits, pos: int, from: int, groups: nat)
    requires 1 <= stride < context && GroupAt(from, groups, stride, |ids|)
    requires from <= pos < NextStart(from, stride, |ids|)
    ensures bits(Window(ids, from, context, stride), pos - 1 - PrefixStart(from, context, stride, |ids|), ids[pos])
         == TargetBits(ids, bits, context, stride, pos)
  {
    SameGroup(pos, from, groups, stride);
  }

  /** The sliding window. Every target from 1 on is scored exactly once, in order, from
      its own window; the loop ends for every positive stride below the context. */
  method Score(ids: seq<int>, context: int, stride: int, bits: Bits) returns (r: Outcome)
    ensures r.TooShort? <==> |ids| < 2
    ensures r.StrideTooLarge? <==> |ids| >= 2 && stride >= context
    ensures r.NeverEnds? <==> |ids| >= 2 && stride < context && stride == 0
    ensures r.EmptyWindow? <==> |ids| >= 2 && stride < context && stride < 0
    ensures r.Scored? ==> |r.tokenBits| == |ids| - 1 && r.totalBits == Total(r.tokenBits)
    ensures r.Scored? ==> forall p :: 1 <= p < |ids| ==> r.tokenBits[p - 1] == TargetBits(ids, bits, context, stride, p)
  {
    hide TargetBits, Slice, GroupAt;
    if |ids| < 2 {
      return TooShort;
    }
    if stride >= context {
      return StrideTooLarge;
    }
    var n := |ids|;
    var totalBits, tokenBits: seq<real> := 0.0, [];
    var targetStart := 1;
    ghost var groups: nat := 0;
    FirstGroup(stride, n);
    while targetStart < n
      invariant targetStart <= n && totalBits == Total(tokenBits)
      invariant stride > 0 ==> GroupAt(targetStart, groups, stride, n) && ScoredUpTo(ids, context, stride, bits, tokenBits, targetStart)
      invariant stride <= 0 ==> targetStart == if groups == 0 then 1 else NextStart(1, stride, n)
      invariant stride <= 0 ==> groups == 0 || (groups == 1 && stride < -1)
      decreases if stride > 0 then n - targetStart else 2 - groups
    {
      var targetEnd := NextStart(targetStart, stride, n);
      var prefixStart := Min(Max(targetEnd - context, 0), targetStart - 1);
      var chunk := Slice(ids, prefixStart, targetEnd);
      assert chunk == Window(ids, targetStart, context, stride);
      WindowFound(ids, targetStart, context, stride, groups);
      if chunk == [] {
        return EmptyWindow;
      }
      tokenBits, totalBits := ScoreGroup(ids, context, stride, bits, chunk, targetStart, targetEnd, prefixStart,
                                         tokenBits, totalBits, groups);
      // Nothing has changed, so the source takes this same turn for ever.
      if targetEnd == targetStart {
        return NeverEnds;
      }
      if stride > 0 {
        NextGroup(targetStart, groups, stride, n);
      }
      groups, targetStart := groups + 1, targetEnd;
    }
    r := Scored(tokenBits, totalBits);
  }

  lemma SameGroup(pos: int, start: int, groups: nat, stride: int)
    requires stride > 0 && start == 1 + groups * stride && start <= pos < start + stride
    ensures GroupStart(pos, stride) == start
  {
    DivModUnique(pos - 1, stride, groups, pos - start);
  }
}
