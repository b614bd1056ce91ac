/** The strided loops of the kernels' threads, with the 32-bit index that the device
    gives them: for (i = tid; i < len; i += block). */
module Strides {
  import opened Arith

  function NextIndex(i: nat, block: nat): (next: nat)
    ensures next < U32
  {
    (i + block) % U32
  }

  ghost function IndexAfter(tid: nat, block: nat, turns: nat): nat {
    if turns == 0 then tid else NextIndex(IndexAfter(tid, block, turns - 1), block)
  }

  /** The loop of thread tid ends: some turn finds its index at or past the length. */
  ghost predicate Ends(tid: nat, block: nat, len: nat) {
    exists turns: nat :: IndexAfter(tid, block, turns) >= len
  }

  /** Block sizes for which wrapping is settled: those that divide 2^32, as every launch
      has; any other as long as no index wraps. */
  ghost predicate Settled(block: nat, len: nat) {
    0 < block <= U32 && (len + block <= U32 || U32 % block == 0)
  }

  lemma {:induction false} IndexInOrder(tid: nat, block: nat, turns: nat)
    requires tid + Times(turns, block) < U32
    ensures IndexAfter(tid, block, turns) == tid + Times(turns, block)
  {
    if turns > 0 {
      IndexInOrder(tid, block, turns - 1);
    }
  }

  lemma Rounds(block: nat) returns (q: nat)
    requires 0 < block <= U32 && U32 % block == 0
    ensures q > 0 && Times(q, block) == U32
  {
    q := U32 / block;
    TimesIsProduct(q, block);
  }

  /** With a block size that divides 2^32 the indices go round. */
  lemma {:induction false} IndexGoesRound(tid: nat, block: nat, q: nat, turns: nat) returns (r: nat)
    requires q > 0 && Times(q, block) == U32 && tid < block
    ensures r < q && IndexAfter(tid, block, turns) == tid + Times(r, block)
  {
    hide Times;
    if turns == 0 {
      NoTimes(block);
      r := 0;
    } else {
      r := IndexGoesRound(tid, block, q, turns - 1);
      r := OneRound(tid, block, q, r);
    }
  }

  lemma OneRound(tid: nat, block: nat, q: nat, r: nat) returns (r': nat)
    requires r < q && Times(q, block) == U32 && tid < block
    ensures r' < q && NextIndex(tid + Times(r, block), block) == tid + Times(r', block)
    ensures r' == if r + 1 < q then r + 1 else 0
  {
    assert Times(r + 1, block) == Times(r, block) + block;
    r' := if r + 1 < q then r + 1 else 0;
    if r + 1 < q {
      TimesOrdered(r + 1, q, block);
    }
  }

  /** The number of turns after which an unwrapped index reaches the length. */
  lemma {:induction false} TurnsNeeded(tid: nat, block: nat, len: nat) returns (turns: nat)
    requires tid < block
    ensures len <= tid + Times(turns, block)
    ensures turns == 0 || tid + Times(turns - 1, block) < len
    decreases len
  {
    if len <= tid {
      turns := 0;
    } else {
      turns := TurnsNeeded(tid, block, len - 1);
      if tid + Times(turns, block) < len {
        turns := turns + 1;
      }
    }
  }

  /** A thread's loop ends if and only if its last index below 2^32 is not below the
      length. */
  lemma EndsExactly(tid: nat, block: nat, len: nat)
    requires Settled(block, len) && tid < block
    ensures Ends(tid, block, len) <==> len + block <= U32 + tid
  {
    hide IndexAfter, Times;
    if len + block <= U32 + tid {
      var turns := TurnsNeeded(tid, block, len);
      BelowTheEnd(tid, block, len, turns);
      IndexInOrder(tid, block, turns);
    } else {
      var q := Rounds(block);
      forall turns: nat
        ensures IndexAfter(tid, block, turns) < len
      {
        var r := IndexGoesRound(tid, block, q, turns);
        TimesOrdered(r, q, block);
      }
    }
  }

  lemma BelowTheEnd(tid: nat, block: nat, len: nat, turns: nat)
    requires Settled(block, len) && tid < block && len + block <= U32 + tid
    requires turns == 0 || tid + Times(turns - 1, block) < len
    ensures tid + Times(turns, block) < U32
  {
    if turns > 0 && len + block > U32 {
      assert Times(turns, block) == Times(turns - 1, block) + block;
      var q := Rounds(block);
      hide Times;
      if turns > q {
        TimesOrdered(q, turns, block);
      } else if turns < q {
        TimesOrdered(turns, q, block);
      }
    }
  }

  /** So all the threads' loops end if and only if the length stays a block below 2^32. */
  lemma AllEndExactly(block: nat, len: nat)
    requires Settled(block, len)
    ensures (forall tid: nat :: tid < block ==> Ends(tid, block, len)) <==> len + block <= 0x1_0000_0000
  {
    hide Ends;
    EndsExactly(0, block, len);
    forall tid: nat | tid < block
      ensures len + block <= U32 ==> Ends(tid, block, len)
    {
      EndsExactly(tid, block, len);
    }
  }

  /** One turn: either the index goes up by a block, or it has wrapped and the loop does
      not end. */
  lemma Turn(i: nat, tid: nat, block: nat, len: nat)
    requires Settled(block, len) && tid < block && i < len && i < U32 && i % block == tid
    ensures NextIndex(i, block) > i ==> NextIndex(i, block) == i + block
    ensures NextIndex(i, block) <= i ==> !Ends(tid, block, len)
    ensures (i + block) % block == tid
  {
    hide Ends;
    SameRemainder(i, block);
    EndsExactly(tid, block, len);
    if i + block >= U32 && U32 % block == 0 {
      LastIndex(i, tid, block);
    }
  }

  lemma LastIndex(i: nat, tid: nat, block: nat)
    requires 0 < block <= U32 && U32 % block == 0 && i < U32 <= i + block && i % block == tid
    ensures i + block == U32 + tid
  {
    var q := Rounds(block);
    var r := RoundOf(i, tid, block, q);
    LastRound(r, block, q, tid);
  }

  lemma RoundOf(i: nat, tid: nat, block: nat, q: nat) returns (r: nat)
    requires block > 0 && i < Times(q, block) && i % block == tid
    ensures r < q && i == Times(r, block) + tid
  {
    var e;
    r, e := LocateBlock(i, q, block);
    TimesIsProduct(r, block);
    DivModUnique(i, block, r, e);
  }

  lemma LastRound(r: nat, block: nat, q: nat, tid: nat)
    requires r < q && tid < block && Times(r, block) + tid + block >= Times(q, block)
    ensures Times(r, block) + block == Times(q, block)
  {
    var next: nat := r + 1;
    assert Times(next, block) == Times(r, block) + block;
    if next < q {
      TimesOrdered(next, q, block);
    }
  }

  /** An index at or past the length, reached without wrapping: the loop has ended. */
  lemma Ended(i: nat, tid: nat, block: nat, len: nat)
    requires block > 0 && i % block == tid && len <= i < U32
    ensures Ends(tid, block, len)
  {
    TimesIsProduct(i / block, block);
    IndexInOrder(tid, block, i / block);
    assert IndexAfter(tid, block, i / block) == i;
  }

  /** Below the limit no index wraps. */
  lemma NoWrap(i: nat, block: nat, len: nat)
    requires i < len && len + block <= U32
    ensures NextIndex(i, block) == i + block
  {
  }
}
