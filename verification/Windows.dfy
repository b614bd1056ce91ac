/** Outputs that the blocks of a grid fill window by window. */
module Windows {
  import opened Arith
  import opened Sums
  import opened BlockReduce

  /** Window b of width w holds rows[b], for each of the given blocks. */
  ghost predicate WindowsDone(out: seq<real>, w: nat, rows: seq<seq<real>>, blocks: set<nat>) {
    forall b :: b in blocks ==> b < |rows| && WindowIs(out, Times(b, w), w, rows[b])
  }

  ghost predicate WindowIs(out: seq<real>, from: nat, w: nat, row: seq<real>) {
    from + w <= |out| && out[from..from + w] == row
  }

  /** Blocks write disjoint windows. */
  lemma OneMoreWindow(was: seq<real>, out: seq<real>, w: nat, rows: seq<seq<real>>, b: nat, blocks: set<nat>)
    requires b !in blocks && b < |rows| && WindowsDone(was, w, rows, blocks)
    requires WindowIs(out, Times(b, w), w, rows[b]) && SameOutside(out, was, Times(b, w), Times(b, w) + w)
    ensures WindowsDone(out, w, rows, blocks + {b})
  {
    forall o | o in blocks
      ensures WindowIs(out, Times(o, w), w, rows[o])
    {
      if o < b { TimesOrdered(o, b, w); } else { TimesOrdered(b, o, w); }
      assert out[Times(o, w)..Times(o, w) + w] == was[Times(o, w)..Times(o, w) + w];
    }
  }

  lemma WindowElem(out: seq<real>, rows: seq<seq<real>>, w: nat, h: nat)
    requires WindowsDone(out, w, rows, Threads(|rows|)) && h < |rows|
    ensures |rows[h]| == w && Times(h, w) + w <= |out|
    ensures forall d :: 0 <= d < w ==> Elem(out, Times(h, w), d) == rows[h][d]
  {
  }

  /** Windows that cover an output determine it. */
  lemma WindowsDetermine(out: seq<real>, out': seq<real>, rows: seq<seq<real>>, w: nat)
    requires |out| == |out'| == Times(|rows|, w)
    requires WindowsDone(out, w, rows, Threads(|rows|)) && WindowsDone(out', w, rows, Threads(|rows|))
    ensures out == out'
  {
    hide WindowsDone;
    forall x | 0 <= x < |out|
      ensures out[x] == out'[x]
    {
      var h, d := LocateBlock(x, |rows|, w);
      WindowElem(out, rows, w, h);
      WindowElem(out', rows, w, h);
      assert Elem(out, Times(h, w), d) == Elem(out', Times(h, w), d);
    }
  }
}
