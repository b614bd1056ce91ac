/** The byte layouts of the Q4_K and Q6_K super-blocks, and the proof that their
    bit packing loses nothing. */
module QuantFormats {
  import opened Arith

  /** w[i], or zero outside the sequence. */
  function Byte(w: seq<bv8>, i: int): bv8 {
    if 0 <= i < |w| then w[i] else 0
  }

  // ---- Q4_K: eight 6-bit scales and eight 6-bit minima in 12 bytes ---------

  function Scale6(w: seq<bv8>, packed: int, j: nat): bv8 {
    if j < 4 then Byte(w, packed + j) & 0x3F
    else (Byte(w, packed + j + 4) & 0x0F) | ((Byte(w, packed + j - 4) >> 6) << 4)
  }

  function Min6(w: seq<bv8>, packed: int, j: nat): bv8 {
    if j < 4 then Byte(w, packed + j + 4) & 0x3F
    else (Byte(w, packed + j + 4) >> 4) | ((Byte(w, packed + j) >> 6) << 4)
  }

  /** A nibble of a quant byte: groups with odd index read the high one. */
  function Nibble(b: bv8, high: bool): bv8 {
    if high then (b >> 4) & 0x0F else b & 0x0F
  }

  /** The packing that the unpack inverts. */
  function PackByte(scales: seq<bv8>, mins: seq<bv8>, i: nat): bv8
    requires |scales| == |mins| == 8 && i < 12
  {
    if i < 4 then scales[i] | ((scales[i + 4] >> 4) << 6)
    else if i < 8 then mins[i - 4] | ((mins[i] >> 4) << 6)
    else (scales[i - 4] & 0x0F) | ((mins[i - 4] & 0x0F) << 4)
  }

  function Pack(scales: seq<bv8>, mins: seq<bv8>): (p: seq<bv8>)
    requires |scales| == |mins| == 8
    ensures |p| == 12
  {
    seq(12, i requires 0 <= i < 12 => PackByte(scales, mins, i))
  }

  function Scales(p: seq<bv8>): (s: seq<bv8>)
    ensures |s| == 8
  {
    seq(8, j requires 0 <= j < 8 => Scale6(p, 0, j))
  }

  function Mins(p: seq<bv8>): (s: seq<bv8>)
    ensures |s| == 8
  {
    seq(8, j requires 0 <= j < 8 => Min6(p, 0, j))
  }

  ghost predicate SixBit(s: seq<bv8>) {
    |s| == 8 && forall j :: 0 <= j < 8 ==> s[j] < 64
  }

  /** Every 12 bytes are the packing of what they unpack to. */
  lemma PackUnpacks(p: seq<bv8>)
    requires |p| == 12
    ensures SixBit(Scales(p)) && SixBit(Mins(p))
    ensures Pack(Scales(p), Mins(p)) == p
  {
    forall j | 0 <= j < 8
      ensures Scale6(p, 0, j) < 64 && Min6(p, 0, j) < 64
    {
      if j < 4 { FieldBits(p[j], p[j + 4]); } else { FieldBits(p[j + 4], p[j - 4]); FieldBits(p[j + 4], p[j]); }
    }
    forall i | 0 <= i < 12
      ensures PackByte(Scales(p), Mins(p), i) == p[i]
    {
      if i < 4 {
        RejoinTop(p[i], p[i + 8]);
      } else if i < 8 {
        RejoinTopHigh(p[i], p[i + 4]);
      } else {
        RejoinNibbles(p[i], p[i - 8], p[i - 4]);
      }
    }
  }

  lemma FieldBits(a: bv8, b: bv8)
    ensures a & 0x3F < 64 && b & 0x3F < 64
    ensures (a & 0x0F) | ((b >> 6) << 4) < 64 && (a >> 4) | ((b >> 6) << 4) < 64
  {
  }

  lemma RejoinTop(low: bv8, other: bv8)
    ensures (low & 0x3F) | ((((other & 0x0F) | ((low >> 6) << 4)) >> 4) << 6) == low
  {
  }

  lemma RejoinTopHigh(low: bv8, other: bv8)
    ensures (low & 0x3F) | ((((other >> 4) | ((low >> 6) << 4)) >> 4) << 6) == low
  {
  }

  lemma RejoinNibbles(b: bv8, s: bv8, m: bv8)
    ensures (((b & 0x0F) | ((s >> 6) << 4)) & 0x0F) | ((((b >> 4) | ((m >> 6) << 4)) & 0x0F) << 4) == b
  {
  }

  /** Every eight scales and eight minima of six bits survive packing. */
  lemma UnpackPacks(scales: seq<bv8>, mins: seq<bv8>)
    requires SixBit(scales) && SixBit(mins)
    ensures Scales(Pack(scales, mins)) == scales && Mins(Pack(scales, mins)) == mins
  {
    var p := Pack(scales, mins);
    forall j | 0 <= j < 8
      ensures Scale6(p, 0, j) == scales[j] && Min6(p, 0, j) == mins[j]
    {
      if j < 4 {
        LowField(scales[j], scales[j + 4]);
        LowField(mins[j], mins[j + 4]);
      } else {
        HighFields(scales[j - 4], mins[j - 4], scales[j], mins[j]);
      }
    }
  }

  lemma LowField(low: bv8, high: bv8)
    requires low < 64
    ensures (low | ((high >> 4) << 6)) & 0x3F == low
  {
  }

  lemma HighFields(sLow: bv8, mLow: bv8, s: bv8, m: bv8)
    requires sLow < 64 && mLow < 64 && s < 64 && m < 64
    ensures (((s & 0x0F) | ((m & 0x0F) << 4)) & 0x0F) | (((sLow | ((s >> 4) << 6)) >> 6) << 4) == s
    ensures (((s & 0x0F) | ((m & 0x0F) << 4)) >> 4) | (((mLow | ((m >> 4) << 6)) >> 6) << 4) == m
  {
  }

  // ---- Q6_K: 256 six-bit quants in 128 + 64 bytes --------------------------

  /** The six bits of quant idx: four from ql, two from qh. */
  function Quant6(w: seq<bv8>, ql: int, qh: int, idx: nat): bv8 {
    var low := if idx % 2 == 0 then Byte(w, ql + idx / 2) & 0x0F else (Byte(w, ql + idx / 2) >> 4) & 0x0F;
    var high := (Byte(w, qh + idx / 4) >> (idx % 4 * 2)) & 0x03;
    low | (high << 4)
  }

  /** The device's subtraction of unsigned 32-bit integers. */
  function SubU32(a: int, b: int): int {
    (a - b) % U32
  }

  /** The cast from unsigned to signed 32-bit integer. */
  function AsSigned(u: int): int {
    if u < 0x8000_0000 then u else u - U32
  }

  /** The quant's value, as the kernel computes it: unsigned subtraction, then cast. */
  function Value6(w: seq<bv8>, ql: int, qh: int, idx: nat): int {
    AsSigned(SubU32(Quant6(w, ql, qh, idx) as int, 32))
  }

  /** The 256 values of the 192 quant bytes of a super-block. */
  function Values6(b: seq<bv8>): (v: seq<int>)
    ensures |v| == 256
  {
    seq(256, idx requires 0 <= idx < 256 => Value6(b, 0, 128, idx))
  }

  ghost predicate InRange6(v: seq<int>) {
    |v| == 256 && forall i :: 0 <= i < 256 ==> -32 <= v[i] < 32
  }

  function Code6(v: int): bv8 {
    if -32 <= v < 32 then (v + 32) as bv8 else 0
  }

  function PackByte6(v: seq<int>, i: nat): bv8
    requires |v| == 256 && i < 192
  {
    if i < 128 then (Code6(v[2 * i]) & 0x0F) | ((Code6(v[2 * i + 1]) & 0x0F) << 4)
    else
      var q := 4 * (i - 128);
      (Code6(v[q]) >> 4) | ((Code6(v[q + 1]) >> 4) << 2) | ((Code6(v[q + 2]) >> 4) << 4) | ((Code6(v[q + 3]) >> 4) << 6)
  }

  function Pack6(v: seq<int>): (b: seq<bv8>)
    requires |v| == 256
    ensures |b| == 192
  {
    seq(192, i requires 0 <= i < 192 => PackByte6(v, i))
  }

  /** The unsigned detour yields the signed difference. */
  lemma Value6IsSigned(w: seq<bv8>, ql: int, qh: int, idx: nat)
    ensures Quant6(w, ql, qh, idx) < 64
    ensures Value6(w, ql, qh, idx) == Quant6(w, ql, qh, idx) as int - 32
    ensures -32 <= Value6(w, ql, qh, idx) < 32
    ensures Code6(Value6(w, ql, qh, idx)) == Quant6(w, ql, qh, idx)
  {
    hide Quant6, SubU32, AsSigned;
    Quant6Bits(w, ql, qh, idx);
    SixBitsAsInt(Quant6(w, ql, qh, idx));
    SignedDifference(Quant6(w, ql, qh, idx) as int);
  }

  lemma SignedDifference(q: int)
    requires 0 <= q < 64
    ensures AsSigned(SubU32(q, 32)) == q - 32
  {
  }

  lemma Quant6Bits(w: seq<bv8>, ql: int, qh: int, idx: nat)
    ensures Quant6(w, ql, qh, idx) < 64
  {
  }

  lemma SixBitsAsInt(q: bv8)
    requires q < 64
    ensures 0 <= q as int < 64 && (q as int) as bv8 == q
  {
  }

  /** Every 192 quant bytes are the packing of the values they decode to, and these
      lie in [-32, 31]. */
  lemma PackUnpacks6(b: seq<bv8>)
    requires |b| == 192
    ensures InRange6(Values6(b)) && Pack6(Values6(b)) == b
  {
    hide Value6, Code6;
    forall idx | 0 <= idx < 256
      ensures -32 <= Value6(b, 0, 128, idx) < 32
      ensures Code6(Values6(b)[idx]) == Quant6(b, 0, 128, idx)
    {
      Value6IsSigned(b, 0, 128, idx);
    }
    forall i | 0 <= i < 192
      ensures PackByte6(Values6(b), i) == b[i]
    {
      if i < 128 {
        PairRejoined(b, i);
      } else {
        QuadRejoined(b, i - 128);
      }
    }
  }

  lemma PairRejoined(b: seq<bv8>, i: nat)
    requires |b| == 192 && i < 128
    ensures (Quant6(b, 0, 128, 2 * i) & 0x0F) | ((Quant6(b, 0, 128, 2 * i + 1) & 0x0F) << 4) == b[i]
  {
    assert 2 * i / 2 == i == (2 * i + 1) / 2;
    LowBits(b[i] & 0x0F, Byte(b, 128 + 2 * i / 4) >> (2 * i % 4 * 2));
    LowBits((b[i] >> 4) & 0x0F, Byte(b, 128 + (2 * i + 1) / 4) >> ((2 * i + 1) % 4 * 2));
    NibblesRejoined(b[i]);
  }

  lemma LowBits(low: bv8, shifted: bv8)
    requires low < 16
    ensures (low | ((shifted & 0x03) << 4)) & 0x0F == low
    ensures (low | ((shifted & 0x03) << 4)) >> 4 == shifted & 0x03
  {
  }

  lemma NibblesRejoined(b: bv8)
    ensures (b & 0x0F) | (((b >> 4) & 0x0F) << 4) == b
  {
  }

  /** The high bits of quant 4 * i + r. */
  lemma HighBits(b: seq<bv8>, i: nat, r: nat)
    requires |b| == 192 && i < 64 && r < 4
    ensures Quant6(b, 0, 128, 4 * i + r) >> 4 == (b[128 + i] >> (r * 2)) & 0x03
  {
    var idx := 4 * i + r;
    assert idx / 4 == i && idx % 4 == r;
    var low := if idx % 2 == 0 then Byte(b, idx / 2) & 0x0F else (Byte(b, idx / 2) >> 4) & 0x0F;
    LowBits(low, b[128 + i] >> (r * 2));
  }

  lemma QuadRejoined(b: seq<bv8>, i: nat)
    requires |b| == 192 && i < 64
    ensures (Quant6(b, 0, 128, 4 * i) >> 4) | ((Quant6(b, 0, 128, 4 * i + 1) >> 4) << 2)
          | ((Quant6(b, 0, 128, 4 * i + 2) >> 4) << 4) | ((Quant6(b, 0, 128, 4 * i + 3) >> 4) << 6) == b[128 + i]
  {
    hide Quant6;
    HighBits(b, i, 0);
    HighBits(b, i, 1);
    HighBits(b, i, 2);
    HighBits(b, i, 3);
    PairsRejoined(b[128 + i]);
  }

  lemma PairsRejoined(b: bv8)
    ensures ((b >> 0) & 0x03) | (((b >> 2) & 0x03) << 2) | (((b >> 4) & 0x03) << 4) | (((b >> 6) & 0x03) << 6) == b
  {
  }

  /** Every 256 values in [-32, 31] survive packing. */
  lemma UnpackPacks6(v: seq<int>)
    requires InRange6(v)
    ensures Values6(Pack6(v)) == v
  {
    hide Quant6, Value6, Code6;
    var b := Pack6(v);
    forall idx | 0 <= idx < 256
      ensures Value6(b, 0, 128, idx) == v[idx]
    {
      QuantPacked(v, idx);
      Value6IsSigned(b, 0, 128, idx);
      CodeValue(v[idx]);
    }
  }

  lemma CodeValue(v: int)
    requires -32 <= v < 32
    ensures Code6(v) < 64 && Code6(v) as int - 32 == v
  {
    SmallByte(v + 32);
    SmallByteBound((v + 32) as bv8);
  }

  lemma SmallByte(n: nat)
    requires n < 64
    ensures (n as bv8) as int == n
  {
  }

  lemma SmallByteBound(c: bv8)
    requires c as int < 64
    ensures c < 64
  {
  }

  lemma QuantPacked(v: seq<int>, idx: nat)
    requires InRange6(v) && idx < 256
    ensures Quant6(Pack6(v), 0, 128, idx) == Code6(v[idx])
  {
    hide Code6;
    CodeValue(v[idx]);
    LowPacked(v, idx);
    HighPacked(v, idx / 4, idx % 4);
    Rejoin6(Code6(v[idx]));
  }

  lemma LowPacked(v: seq<int>, idx: nat)
    requires |v| == 256 && idx < 256
    ensures var b := Pack6(v)[idx / 2];
      (if idx % 2 == 0 then b & 0x0F else (b >> 4) & 0x0F) == Code6(v[idx]) & 0x0F
  {
    hide Code6;
    NibblesOut(Code6(v[idx / 2 * 2]), Code6(v[idx / 2 * 2 + 1]));
  }

  lemma HighPacked(v: seq<int>, q: nat, r: nat)
    requires InRange6(v) && q < 64 && r < 4
    ensures (Pack6(v)[128 + q] >> (r * 2)) & 0x03 == Code6(v[4 * q + r]) >> 4
  {
    hide Code6;
    CodeValue(v[4 * q]);
    CodeValue(v[4 * q + 1]);
    CodeValue(v[4 * q + 2]);
    CodeValue(v[4 * q + 3]);
    PairsOut(Code6(v[4 * q]), Code6(v[4 * q + 1]), Code6(v[4 * q + 2]), Code6(v[4 * q + 3]));
  }

  lemma NibblesOut(lo: bv8, hi: bv8)
    ensures ((lo & 0x0F) | ((hi & 0x0F) << 4)) & 0x0F == lo & 0x0F
    ensures (((lo & 0x0F) | ((hi & 0x0F) << 4)) >> 4) & 0x0F == hi & 0x0F
  {
  }

  lemma PairsOut(a: bv8, b: bv8, c: bv8, d: bv8)
    requires a < 64 && b < 64 && c < 64 && d < 64
    ensures var p := (a >> 4) | ((b >> 4) << 2) | ((c >> 4) << 4) | ((d >> 4) << 6);
      && (p >> 0) & 0x03 == a >> 4 && (p >> 2) & 0x03 == b >> 4
      && (p >> 4) & 0x03 == c >> 4 && (p >> 6) & 0x03 == d >> 4
  {
  }

  lemma Rejoin6(c: bv8)
    requires c < 64
    ensures (c & 0x0F) | ((c >> 4) << 4) == c
  {
  }
}
