/** The writing half of the quantisers: how scales and quants, once chosen, become the
    bytes of a block. The kernels read back exactly what was written. */
module QuantBlocks {
  import opened Arith
  import opened Sums
  import opened QuantFormats
  import Q4kMeaning
  import Q6kKernel
  import Q4Transpose

  /** The bytes stand in w at byte "at". */
  ghost predicate BytesAt(w: seq<bv8>, at: int, bytes: seq<bv8>) {
    forall i :: 0 <= i < |bytes| ==> Byte(w, at + i) == bytes[i]
  }

  // ---- Q4_K ------------------------------------------------------------------

  /** A super-block before packing: the halves' bytes, and 256 quants in groups of 32. */
  datatype Q4k = Q4k(d: (bv8, bv8), dmin: (bv8, bv8), scales: seq<bv8>, mins: seq<bv8>, quants: seq<bv8>)

  ghost predicate Nibbles(q: seq<bv8>, n: nat) {
    |q| == n && forall i :: 0 <= i < n ==> q[i] < 16
  }

  ghost predicate ValidQ4k(b: Q4k) {
    SixBit(b.scales) && SixBit(b.mins) && Nibbles(b.quants, 256)
  }

  /** Byte i of the quants: groups 2g and 2g + 1 share the bytes 32g to 32g + 31. */
  function SharedByte(q: seq<bv8>, i: nat): bv8
    requires |q| == 256 && i < 128
  {
    q[i / 32 * 64 + i % 32] | (q[i / 32 * 64 + 32 + i % 32] << 4)
  }

  function PackQ4k(b: Q4k): (p: seq<bv8>)
    requires |b.scales| == |b.mins| == 8 && |b.quants| == 256
    ensures |p| == 144
  {
    [b.d.0, b.d.1, b.dmin.0, b.dmin.1] + Pack(b.scales, b.mins)
    + seq(128, i requires 0 <= i < 128 => SharedByte(b.quants, i))
  }

  /** quantize_q4_k's packing: the fields into twelve bytes, then the quants chunk by chunk. */
  method WriteQ4k(b: Q4k) returns (out: seq<bv8>)
    requires ValidQ4k(b)
    ensures out == PackQ4k(b)
  {
    hide SharedByte;
    var packed := WriteFields(b.scales, b.mins);
    out := [b.d.0, b.d.1, b.dmin.0, b.dmin.1] + packed[..];
    for g := 0 to 4
      invariant out == PackQ4k(b)[..16 + 32 * g]
    {
      out := WriteChunk(b, g, out);
    }
  }

  method WriteFields(scales: seq<bv8>, mins: seq<bv8>) returns (packed: array<bv8>)
    requires SixBit(scales) && SixBit(mins)
    ensures fresh(packed) && packed[..] == Pack(scales, mins)
  {
    packed := new bv8[12](i => 0);
    for j := 0 to 4
      invariant forall i :: 0 <= i < j || 4 <= i < 4 + j || 8 <= i < 8 + j ==> packed[i] == PackByte(scales, mins, i)
    {
      MasksKeep(scales[j], scales[j + 4]);
      MasksKeep(mins[j], mins[j + 4]);
      packed[j] := (scales[j] & 0x3F) | (((scales[j + 4] >> 4) & 0x03) << 6);
      packed[j + 4] := (mins[j] & 0x3F) | (((mins[j + 4] >> 4) & 0x03) << 6);
      packed[j + 8] := (scales[j + 4] & 0x0F) | ((mins[j + 4] & 0x0F) << 4);
    }
  }

  /** The quantiser's masks do nothing to six-bit values. */
  lemma MasksKeep(low: bv8, high: bv8)
    requires low < 64 && high < 64
    ensures (low & 0x3F) | (((high >> 4) & 0x03) << 6) == low | ((high >> 4) << 6)
  {
  }

  method WriteChunk(b: Q4k, g: nat, start: seq<bv8>) returns (out: seq<bv8>)
    requires ValidQ4k(b) && g < 4 && start == PackQ4k(b)[..16 + 32 * g]
    ensures out == PackQ4k(b)[..16 + 32 * (g + 1)]
  {
    out := start;
    for l := 0 to 32
      invariant out == PackQ4k(b)[..16 + 32 * g + l]
    {
      var i := 32 * g + l;
      assert i / 32 == g && i % 32 == l;
      assert PackQ4k(b)[16 + i] == SharedByte(b.quants, i);
      out := out + [b.quants[2 * g * 32 + l] | (b.quants[(2 * g + 1) * 32 + l] << 4)];
    }
  }

  /** Element c of a row whose super-block sb was packed from b: scale times quant less the
      minimum, each of its group. */
  lemma Q4kReadsBack(half: (bv8, bv8) -> real, w: seq<bv8>, row: int, sb: nat, b: Q4k, c: nat)
    requires ValidQ4k(b) && BytesAt(w, row + 144 * sb, PackQ4k(b)) && c < 256
    ensures Q4kMeaning.Dequant(half, w, row, 256 * sb + c)
         == Mul(Mul(half(b.d.0, b.d.1), b.scales[c / 32] as int as real), b.quants[c] as int as real)
            - Mul(half(b.dmin.0, b.dmin.1), b.mins[c / 32] as int as real)
  {
    hide BytesAt, Mul, Q4kMeaning.Dequant, Q4kMeaning.Weight, PackQ4k;
    ElementOfBlock(half, w, row, sb, c);
    PackedWeight(half, w, row + 144 * sb, b, c);
  }

  lemma PackedWeight(half: (bv8, bv8) -> real, w: seq<bv8>, block: int, b: Q4k, c: nat)
    requires ValidQ4k(b) && BytesAt(w, block, PackQ4k(b)) && c < 256
    ensures Q4kMeaning.Weight(half, w, block, c / 32, c % 32)
         == Mul(Mul(half(b.d.0, b.d.1), Q4kMeaning.AsReal(b.scales[c / 32])), Q4kMeaning.AsReal(b.quants[c]))
            - Mul(half(b.dmin.0, b.dmin.1), Q4kMeaning.AsReal(b.mins[c / 32]))
  {
    hide BytesAt, Nibble, Scale6, Min6, Byte, Mul, Q4kMeaning.AsReal, PackQ4k;
    HeaderBytes(w, block, b);
    FieldsReadBack(w, block, b, c / 32);
    QuantReadsBack(w, block, b, c);
  }

  lemma ElementOfBlock(half: (bv8, bv8) -> real, w: seq<bv8>, row: int, sb: nat, c: nat)
    requires c < 256
    ensures Q4kMeaning.Dequant(half, w, row, 256 * sb + c) == Q4kMeaning.Weight(half, w, row + 144 * sb, c / 32, c % 32)
  {
    hide Q4kMeaning.Weight;
    InBlock(sb, 256, c);
    InBlock(8 * sb + c / 32, 32, c % 32);
  }

  /** Element c of block k, of n elements each. */
  lemma InBlock(k: nat, n: nat, c: nat)
    requires c < n
    ensures (n * k + c) / n == k && (n * k + c) % n == c
  {
    DivModUnique(n * k + c, n, k, c);
  }

  lemma HeaderBytes(w: seq<bv8>, block: int, b: Q4k)
    requires ValidQ4k(b) && BytesAt(w, block, PackQ4k(b))
    ensures Byte(w, block) == b.d.0 && Byte(w, block + 1) == b.d.1
    ensures Byte(w, block + 2) == b.dmin.0 && Byte(w, block + 3) == b.dmin.1
    ensures BytesAt(w, block + 4, Pack(b.scales, b.mins))
  {
    var p := PackQ4k(b);
    assert Byte(w, block + 0) == p[0] && Byte(w, block + 1) == p[1] && Byte(w, block + 2) == p[2] && Byte(w, block + 3) == p[3];
    forall i | 0 <= i < 12
      ensures Byte(w, block + 4 + i) == Pack(b.scales, b.mins)[i]
    {
      assert Byte(w, block + (4 + i)) == p[4 + i];
    }
  }

  lemma FieldsReadBack(w: seq<bv8>, block: int, b: Q4k, j: nat)
    requires ValidQ4k(b) && BytesAt(w, block + 4, Pack(b.scales, b.mins)) && j < 8
    ensures Scale6(w, block + 4, j) == b.scales[j] && Min6(w, block + 4, j) == b.mins[j]
  {
    hide PackByte;
    var p := Pack(b.scales, b.mins);
    UnpackPacks(b.scales, b.mins);
    assert forall i :: 0 <= i < 12 ==> Byte(w, block + 4 + i) == Byte(p, i);
    assert Scale6(p, 0, j) == b.scales[j] && Min6(p, 0, j) == b.mins[j] by {
      assert Scales(p)[j] == b.scales[j] && Mins(p)[j] == b.mins[j];
    }
  }

  lemma QuantReadsBack(w: seq<bv8>, block: int, b: Q4k, c: nat)
    requires ValidQ4k(b) && BytesAt(w, block, PackQ4k(b)) && c < 256
    ensures Nibble(Byte(w, block + 16 + c / 32 / 2 * 32 + c % 32), c / 32 % 2 == 1) == b.quants[c]
  {
    hide Byte, Pack;
    var i := c / 32 / 2 * 32 + c % 32;
    assert i / 32 == c / 32 / 2 && i % 32 == c % 32;
    assert Byte(w, block + (16 + i)) == PackQ4k(b)[16 + i] == SharedByte(b.quants, i);
    var lo, hi := i / 32 * 64 + i % 32, i / 32 * 64 + 32 + i % 32;
    assert c == if c / 32 % 2 == 1 then hi else lo;
    NibblesOf(b.quants[lo], b.quants[hi]);
  }

  lemma NibblesOf(lo: bv8, hi: bv8)
    requires lo < 16 && hi < 16
    ensures Nibble(lo | (hi << 4), false) == lo && Nibble(lo | (hi << 4), true) == hi
  {
  }

  /** What a super-block of any bytes says. */
  function ReadQ4k(p: seq<bv8>): (b: Q4k)
    requires |p| == 144
  {
    Q4k((p[0], p[1]), (p[2], p[3]), Scales(p[4..16]), Mins(p[4..16]),
        seq(256, c requires 0 <= c < 256 => Nibble(p[16 + c / 64 * 32 + c % 32], c / 32 % 2 == 1)))
  }

  /** Nothing is lost: any 144 bytes are the packing of what they say. */
  lemma Q4kIsLossless(p: seq<bv8>)
    requires |p| == 144
    ensures ValidQ4k(ReadQ4k(p)) && PackQ4k(ReadQ4k(p)) == p
  {
    hide Scales, Mins, Pack, SharedByte, Nibble;
    var b := ReadQ4k(p);
    PackUnpacks(p[4..16]);
    forall c | 0 <= c < 256
      ensures b.quants[c] < 16
    {
      NibbleBound(p[16 + c / 64 * 32 + c % 32]);
    }
    forall i | 0 <= i < 128
      ensures SharedByte(b.quants, i) == p[16 + i]
    {
      SharedByteRejoins(p, i);
    }
    assert PackQ4k(b) == p[..4] + p[4..16] + p[16..];
  }

  lemma SharedByteRejoins(p: seq<bv8>, i: nat)
    requires |p| == 144 && i < 128
    ensures SharedByte(ReadQ4k(p).quants, i) == p[16 + i]
  {
    hide ReadQ4k, Nibble;
    var g, l := i / 32, i % 32;
    QuantsOfByte(p, g, l);
    NibblesRejoin(p[16 + i]);
  }

  lemma QuantsOfByte(p: seq<bv8>, g: nat, l: nat)
    requires |p| == 144 && g < 4 && l < 32
    ensures ReadQ4k(p).quants[g * 64 + l] == Nibble(p[16 + (g * 32 + l)], false)
    ensures ReadQ4k(p).quants[g * 64 + 32 + l] == Nibble(p[16 + (g * 32 + l)], true)
  {
    hide Scales, Mins, Nibble;
    HomeOfQuant(g, l);
  }

  /** Where the quants of byte 32g + l go. */
  lemma HomeOfQuant(g: nat, l: nat)
    requires l < 32
    ensures (g * 64 + l) / 64 == g && (g * 64 + l) % 32 == l && (g * 64 + l) / 32 % 2 == 0
    ensures (g * 64 + 32 + l) / 64 == g && (g * 64 + 32 + l) % 32 == l && (g * 64 + 32 + l) / 32 % 2 == 1
  {
    InBlock(g, 64, l);
    InBlock(g, 64, 32 + l);
    InBlock(2 * g, 32, l);
    InBlock(2 * g + 1, 32, l);
  }

  lemma NibbleBound(x: bv8)
    ensures Nibble(x, false) < 16 && Nibble(x, true) < 16
  {
  }

  lemma NibblesRejoin(x: bv8)
    ensures Nibble(x, false) | (Nibble(x, true) << 4) == x
  {
  }

  // ---- Q6_K ------------------------------------------------------------------

  /** A super-block before packing: signed scales of 16 groups of 16 signed quants. */
  datatype Q6k = Q6k(d: (bv8, bv8), scales: seq<int>, quants: seq<int>)

  ghost predicate ValidQ6k(b: Q6k) {
    InRange6(b.quants) && |b.scales| == 16 && forall j :: 0 <= j < 16 ==> -128 <= b.scales[j] < 128
  }

  /** A signed byte as it is stored. */
  function StoredByte(s: int): bv8
    requires -128 <= s < 128
  {
    (if s < 0 then s + 256 else s) as bv8
  }

  ghost function PackQ6k(b: Q6k): (p: seq<bv8>)
    requires ValidQ6k(b)
    ensures |p| == 210
  {
    Pack6(b.quants) + seq(16, j requires 0 <= j < 16 => StoredByte(b.scales[j])) + [b.d.0, b.d.1]
  }

  /** quantize_q6_k's packing: low nibbles in pairs, high bits ored into place, scales, half. */
  method WriteQ6k(b: Q6k) returns (out: seq<bv8>)
    requires ValidQ6k(b)
    ensures out == PackQ6k(b)
  {
    hide PackByte6, StoredByte;
    var ql := WriteLow(b.quants);
    var qh := WriteHigh(b.quants);
    assert ql[..] + qh[..] == Pack6(b.quants);
    out := ql[..] + qh[..];
    for j := 0 to 16
      invariant out == PackQ6k(b)[..192 + j]
    {
      assert PackQ6k(b)[192 + j] == StoredByte(b.scales[j]);
      out := out + [StoredByte(b.scales[j])];
    }
    out := out + [b.d.0, b.d.1];
  }

  method WriteLow(v: seq<int>) returns (ql: array<bv8>)
    requires |v| == 256
    ensures fresh(ql) && ql.Length == 128 && forall i :: 0 <= i < 128 ==> ql[i] == PackByte6(v, i)
  {
    hide Code6;
    ql := new bv8[128](i => 0);
    for i := 0 to 128
      invariant forall k :: 0 <= k < i ==> ql[k] == PackByte6(v, k)
    {
      ql[i] := (Code6(v[2 * i]) & 0x0F) | ((Code6(v[2 * i + 1]) & 0x0F) << 4);
    }
  }

  /** The first n of the four high-bit pairs of byte q. */
  function HighPairs(v: seq<int>, q: nat, n: nat): bv8
    requires |v| == 256 && q < 64 && n <= 4
  {
    if n == 0 then 0 else HighPairs(v, q, n - 1) | (((Code6(v[4 * q + n - 1]) >> 4) & 0x03) << (2 * (n - 1)))
  }

  /** How many of byte q's pairs are among the first i quants. */
  function PairsWritten(i: nat, q: nat): (n: nat)
    ensures n <= 4
  {
    if i <= 4 * q then 0 else if i >= 4 * q + 4 then 4 else i - 4 * q
  }

  lemma NoPairs(v: seq<int>)
    requires |v| == 256
    ensures forall q :: 0 <= q < 64 ==> HighPairs(v, q, 0) == 0
  {
  }

  lemma OneMorePair(v: seq<int>, q: nat, r: nat)
    requires |v| == 256 && q < 64 && r < 4
    ensures HighPairs(v, q, r + 1) == HighPairs(v, q, r) | (((Code6(v[4 * q + r]) >> 4) & 0x03) << (r * 2))
  {
    hide Code6;
  }

  method WriteHigh(v: seq<int>) returns (qh: array<bv8>)
    requires InRange6(v)
    ensures fresh(qh) && qh.Length == 64 && forall q :: 0 <= q < 64 ==> qh[q] == PackByte6(v, 128 + q)
  {
    hide Code6, PackByte6, HighPairs;
    NoPairs(v);
    qh := new bv8[64](i => 0);
    for i := 0 to 256
      invariant forall q :: 0 <= q < 64 ==> qh[q] == HighPairs(v, q, PairsWritten(i, q))
    {
      var q, r := i / 4, i % 4;
      assert 4 * q + r == i && PairsWritten(i, q) == r;
      OneMorePair(v, q, r);
      qh[i / 4] := qh[i / 4] | (((Code6(v[i]) >> 4) & 0x03) << (i % 4 * 2));
      assert forall o :: 0 <= o < 64 ==> PairsWritten(i + 1, o) == if o == q then r + 1 else PairsWritten(i, o);
    }
    forall q | 0 <= q < 64
      ensures qh[q] == PackByte6(v, 128 + q)
    {
      AllPairs(v, q);
    }
  }

  lemma AllPairs(v: seq<int>, q: nat)
    requires InRange6(v) && q < 64
    ensures HighPairs(v, q, 4) == PackByte6(v, 128 + q)
  {
    hide Code6;
    CodeValue(v[4 * q]);
    CodeValue(v[4 * q + 1]);
    CodeValue(v[4 * q + 2]);
    CodeValue(v[4 * q + 3]);
    assert HighPairs(v, q, 4) == HighPairs(v, q, 3) | (((Code6(v[4 * q + 3]) >> 4) & 0x03) << 6);
    assert HighPairs(v, q, 3) == HighPairs(v, q, 2) | (((Code6(v[4 * q + 2]) >> 4) & 0x03) << 4);
    assert HighPairs(v, q, 2) == HighPairs(v, q, 1) | (((Code6(v[4 * q + 1]) >> 4) & 0x03) << 2);
    assert HighPairs(v, q, 1) == HighPairs(v, q, 0) | (((Code6(v[4 * q]) >> 4) & 0x03) << 0);
    JoinedPairs(Code6(v[4 * q]), Code6(v[4 * q + 1]), Code6(v[4 * q + 2]), Code6(v[4 * q + 3]));
  }

  lemma JoinedPairs(a: bv8, b: bv8, c: bv8, d: bv8)
    requires a < 64 && b < 64 && c < 64 && d < 64
    ensures (((0 | (((a >> 4) & 0x03) << 0)) | (((b >> 4) & 0x03) << 2)) | (((c >> 4) & 0x03) << 4)) | (((d >> 4) & 0x03) << 6)
         == (a >> 4) | ((b >> 4) << 2) | ((c >> 4) << 4) | ((d >> 4) << 6)
  {
  }

  /** Element c of a row whose super-block sb was packed from b: the half times the group's
      scale times the quant. */
  lemma Q6kReadsBack(half: (bv8, bv8) -> real, w: seq<bv8>, row: int, sb: nat, b: Q6k, c: nat)
    requires ValidQ6k(b) && BytesAt(w, row + 210 * sb, PackQ6k(b)) && c < 256
    ensures Q6kKernel.Dequant(half, w, row, 256 * sb + c)
         == half(b.d.0, b.d.1) * b.scales[c / 16] as real * b.quants[c] as real
  {
    hide BytesAt, Value6, Byte, PackQ6k, Q6kKernel.SignedByte, Q6kKernel.Dequant, Mul;
    var block := row + 210 * sb;
    ScaleReadsBack(w, block, b, c / 16);
    Quant6ReadsBack(w, block, b, c);
    HalfReadsBack(w, block, b);
    ElementOfBlock6(half, w, row, sb, c);
    Product(half(b.d.0, b.d.1), b.scales[c / 16] as real, b.quants[c] as real);
  }

  lemma Product(d: real, s: real, q: real)
    ensures Mul(Mul(d, s), q) == d * s * q
  {
  }

  lemma ElementOfBlock6(half: (bv8, bv8) -> real, w: seq<bv8>, row: int, sb: nat, c: nat)
    requires c < 256
    ensures Q6kKernel.Dequant(half, w, row, 256 * sb + c)
         == Mul(Q6kKernel.GroupScale(half, w, row + 210 * sb, c / 16), Q6kKernel.QuantValue(w, row + 210 * sb, c))
  {
    hide Q6kKernel.GroupScale, Q6kKernel.QuantValue, Mul;
    InBlock(sb, 256, c);
  }

  lemma HalfReadsBack(w: seq<bv8>, block: int, b: Q6k)
    requires ValidQ6k(b) && BytesAt(w, block, PackQ6k(b))
    ensures Byte(w, block + 208) == b.d.0 && Byte(w, block + 209) == b.d.1
  {
    hide Byte, Pack6, StoredByte;
    var p := PackQ6k(b);
    assert Byte(w, block + 208) == p[208] && Byte(w, block + 209) == p[209];
  }

  lemma ScaleReadsBack(w: seq<bv8>, block: int, b: Q6k, j: nat)
    requires ValidQ6k(b) && BytesAt(w, block, PackQ6k(b)) && j < 16
    ensures Q6kKernel.SignedByte(Byte(w, block + 192 + j)) == b.scales[j]
  {
    hide Byte, Pack6, StoredByte, Q6kKernel.SignedByte;
    assert Byte(w, block + (192 + j)) == PackQ6k(b)[192 + j] == StoredByte(b.scales[j]);
    StoredByteReadsBack(b.scales[j]);
  }

  lemma StoredByteReadsBack(s: int)
    requires -128 <= s < 128
    ensures Q6kKernel.SignedByte(StoredByte(s)) == s
  {
  }

  lemma Quant6ReadsBack(w: seq<bv8>, block: int, b: Q6k, c: nat)
    requires ValidQ6k(b) && BytesAt(w, block, PackQ6k(b)) && c < 256
    ensures Value6(w, block, block + 128, c) == b.quants[c]
  {
    hide PackByte6, StoredByte, Value6, Byte;
    var p := Pack6(b.quants);
    UnpackPacks6(b.quants);
    assert Value6(p, 0, 128, c) == Values6(p)[c] == b.quants[c];
    QuantByteAt(w, block, b, c / 2);
    QuantByteAt(w, block, b, 128 + c / 4);
    TwoBytes(w, block, p, c);
  }

  lemma QuantByteAt(w: seq<bv8>, block: int, b: Q6k, i: nat)
    requires ValidQ6k(b) && BytesAt(w, block, PackQ6k(b)) && i < 192
    ensures Byte(w, block + i) == Byte(Pack6(b.quants), i)
  {
    hide PackByte6, StoredByte;
    assert Byte(w, block + i) == PackQ6k(b)[i] == Pack6(b.quants)[i];
  }

  /** A quant is made of two bytes. */
  lemma TwoBytes(w: seq<bv8>, block: int, p: seq<bv8>, c: nat)
    requires Byte(w, block + c / 2) == Byte(p, c / 2) && Byte(w, block + (128 + c / 4)) == Byte(p, 128 + c / 4)
    ensures Value6(w, block, block + 128, c) == Value6(p, 0, 128, c)
  {
    hide Byte, AsSigned, SubU32;
    assert block + (128 + c / 4) == block + 128 + c / 4;
    assert Quant6(w, block, block + 128, c) == Quant6(p, 0, 128, c);
  }

  // ---- Q4_0 ------------------------------------------------------------------

  datatype Q40 = Q40(d: (bv8, bv8), quants: seq<bv8>)

  function PairByte(q: seq<bv8>, j: nat): bv8
    requires |q| == 32 && j < 16
  {
    q[2 * j] | (q[2 * j + 1] << 4)
  }

  function PackQ40(b: Q40): (p: seq<bv8>)
    requires |b.quants| == 32
    ensures |p| == 18
  {
    [b.d.0, b.d.1] + seq(16, j requires 0 <= j < 16 => PairByte(b.quants, j))
  }

  /** quantize_q4_0's packing. */
  method WriteQ40(b: Q40) returns (out: seq<bv8>)
    requires Nibbles(b.quants, 32)
    ensures out == PackQ40(b)
  {
    out := [b.d.0, b.d.1];
    for j := 0 to 16
      invariant out == PackQ40(b)[..2 + j]
    {
      assert PackQ40(b)[2 + j] == PairByte(b.quants, j);
      out := out + [b.quants[j * 2] | (b.quants[j * 2 + 1] << 4)];
    }
  }

  /** Element e of a row whose block k was packed from b: the quant less eight, times the half. */
  lemma Q40ReadsBack(half: (bv8, bv8) -> real, w: seq<bv8>, row: int, k: nat, b: Q40, e: nat)
    requires Nibbles(b.quants, 32) && BytesAt(w, row + 18 * k, PackQ40(b)) && e < 32
    ensures Q4Transpose.Weight(half, w, row, 32 * k + e) == (b.quants[e] as int - 8) as real * half(b.d.0, b.d.1)
  {
    hide Q4Transpose.Weight, Q4Transpose.Quant, Q4Transpose.BlockScale, BytesAt;
    var block := row + 18 * k;
    Element40(half, w, row, k, e);
    Half40(half, w, block, b);
    Quant40(w, block, b, e);
  }

  lemma Element40(half: (bv8, bv8) -> real, w: seq<bv8>, row: int, k: nat, e: nat)
    requires e < 32
    ensures Q4Transpose.Weight(half, w, row, 32 * k + e)
         == Mul(Q4Transpose.Quant(w, row + 18 * k, e), Q4Transpose.BlockScale(half, w, row + 18 * k))
  {
    hide Q4Transpose.Quant, Q4Transpose.BlockScale;
    InBlock(k, 32, e);
  }

  lemma Half40(half: (bv8, bv8) -> real, w: seq<bv8>, block: int, b: Q40)
    requires |b.quants| == 32 && BytesAt(w, block, PackQ40(b))
    ensures Q4Transpose.BlockScale(half, w, block) == half(b.d.0, b.d.1)
  {
    hide Byte, PairByte;
    var p := PackQ40(b);
    assert Byte(w, block + 0) == p[0] && Byte(w, block + 1) == p[1];
  }

  lemma Quant40(w: seq<bv8>, block: int, b: Q40, e: nat)
    requires Nibbles(b.quants, 32) && BytesAt(w, block, PackQ40(b)) && e < 32
    ensures Q4Transpose.Quant(w, block, e) == (b.quants[e] as int - 8) as real
  {
    hide Byte, Nibble;
    var j := e / 2;
    assert Byte(w, block + (2 + j)) == PackQ40(b)[2 + j] == PairByte(b.quants, j);
    assert e == if e % 2 == 1 then 2 * j + 1 else 2 * j;
    NibblesOf(b.quants[2 * j], b.quants[2 * j + 1]);
  }
}
