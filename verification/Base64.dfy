/** The base64 encoder, and the decoder of section 4 of RFC 4648 that inverts it. */
module Base64 {

  /** The alphabet, by value: A-Z, a-z, 0-9, +, /. */
  function CharOf(v: nat): char
    requires v < 64
  {
    if v < 26 then ('A' as int + v) as char
    else if v < 52 then ('a' as int + v - 26) as char
    else if v < 62 then ('0' as int + v - 52) as char
    else if v == 62 then '+' else '/'
  }

  /** The value of a character of the alphabet. */
  function ValueOf(c: char): (v: nat)
    ensures v < 64
  {
    if 'A' <= c <= 'Z' then c as int - 'A' as int
    else if 'a' <= c <= 'z' then c as int - 'a' as int + 26
    else if '0' <= c <= '9' then c as int - '0' as int + 52
    else if c == '+' then 62 else 63
  }

  lemma AlphabetInverts(v: nat)
    requires v < 64
    ensures ValueOf(CharOf(v)) == v && CharOf(v) != '='
  {
  }

  /** Table 1 of RFC 4648. */
  lemma AlphabetIs(v: nat)
    requires v < 64
    ensures CharOf(0) == 'A' && CharOf(25) == 'Z' && CharOf(26) == 'a' && CharOf(51) == 'z'
    ensures CharOf(52) == '0' && CharOf(61) == '9' && CharOf(62) == '+' && CharOf(63) == '/'
    ensures v !in {25, 51, 61, 62, 63} ==> CharOf(v + 1) as int == CharOf(v) as int + 1
  {
  }

  // ---- Bits -----------------------------------------------------------------

  /** Three bytes in one word. */
  function Triple(b0: bv8, b1: bv8, b2: bv8): bv32 {
    ((b0 as bv32) << 16) | ((b1 as bv32) << 8) | (b2 as bv32)
  }

  /** Six of its bits. */
  function Sextet(t: bv32, shift: nat): bv8
    requires shift <= 18
  {
    ((t >> shift) & 0x3F) as bv8
  }

  function SextetChar(t: bv32, shift: nat): char
    requires shift <= 18
  {
    SmallSextet(t, shift);
    CharOf(Sextet(t, shift) as int)
  }

  lemma SmallSextet(t: bv32, shift: nat)
    requires shift <= 18
    ensures Sextet(t, shift) < 64 && (Sextet(t, shift) as int) < 64
  {
  }

  function FirstByte(s0: bv8, s1: bv8): bv8 { (s0 << 2) | (s1 >> 4) }

  function SecondByte(s1: bv8, s2: bv8): bv8 { ((s1 & 0x0F) << 4) | (s2 >> 2) }

  function ThirdByte(s2: bv8, s3: bv8): bv8 { ((s2 & 0x03) << 6) | s3 }

  /** The four sextets hold the three bytes. */
  lemma SextetsHoldBytes(b0: bv8, b1: bv8, b2: bv8)
    ensures var t := Triple(b0, b1, b2);
      && FirstByte(Sextet(t, 18), Sextet(t, 12)) == b0
      && SecondByte(Sextet(t, 12), Sextet(t, 6)) == b1
      && ThirdByte(Sextet(t, 6), Sextet(t, 0)) == b2
  {
    hide Triple, Sextet, FirstByte, SecondByte, ThirdByte;
    HoldsFirst(b0, b1, b2);
    HoldsSecond(b0, b1, b2);
    HoldsThird(b0, b1, b2);
  }

  lemma HoldsFirst(b0: bv8, b1: bv8, b2: bv8)
    ensures FirstByte(Sextet(Triple(b0, b1, b2), 18), Sextet(Triple(b0, b1, b2), 12)) == b0
  {
  }

  lemma HoldsSecond(b0: bv8, b1: bv8, b2: bv8)
    ensures SecondByte(Sextet(Triple(b0, b1, b2), 12), Sextet(Triple(b0, b1, b2), 6)) == b1
  {
  }

  lemma HoldsThird(b0: bv8, b1: bv8, b2: bv8)
    ensures ThirdByte(Sextet(Triple(b0, b1, b2), 6), Sextet(Triple(b0, b1, b2), 0)) == b2
  {
  }

  // ---- Encoding -------------------------------------------------------------

  /** A chunk of one to three bytes, missing bytes read as zero, missing sextets
      written as padding. */
  function Group(chunk: seq<bv8>): (s: string)
    requires 1 <= |chunk| <= 3
    ensures |s| == 4
  {
    var t := Triple(chunk[0], if |chunk| > 1 then chunk[1] else 0, if |chunk| > 2 then chunk[2] else 0);
    [SextetChar(t, 18), SextetChar(t, 12),
     if |chunk| > 1 then SextetChar(t, 6) else '=', if |chunk| > 2 then SextetChar(t, 0) else '=']
  }

  function Chunk(bytes: seq<bv8>): (c: seq<bv8>)
    requires bytes != []
    ensures 1 <= |c| <= 3
  {
    if |bytes| < 3 then bytes else bytes[..3]
  }

  ghost function Encoding(bytes: seq<bv8>): string {
    if bytes == [] then [] else Group(Chunk(bytes)) + Encoding(bytes[|Chunk(bytes)|..])
  }

  lemma EncodingStep(bytes: seq<bv8>, i: nat)
    requires i < |bytes|
    ensures var chunk := Chunk(bytes[i..]);
      Encoding(bytes[i..]) == Group(chunk) + Encoding(bytes[i + |chunk|..])
  {
    hide Group;
    assert bytes[i..][|Chunk(bytes[i..])|..] == bytes[i + |Chunk(bytes[i..])|..];
  }

  /** Section 10 of RFC 4648: the encodings of "f", "fo" and "foo". */
  lemma TestVectors()
    ensures Encoding([0x66]) == "Zg=="
    ensures Encoding([0x66, 0x6F]) == "Zm8="
    ensures Encoding([0x66, 0x6F, 0x6F]) == "Zm9v"
  {
    EncodingOfChunk([0x66]);
    EncodingOfChunk([0x66, 0x6F]);
    EncodingOfChunk([0x66, 0x6F, 0x6F]);
    SextetsOf(0x66, 0, 0, 25, 32, 0, 0);
    SextetsOf(0x66, 0x6F, 0, 25, 38, 60, 0);
    SextetsOf(0x66, 0x6F, 0x6F, 25, 38, 61, 47);
  }

  lemma EncodingOfChunk(chunk: seq<bv8>)
    requires 1 <= |chunk| <= 3
    ensures Encoding(chunk) == Group(chunk)
  {
    hide Group;
    assert Chunk(chunk) == chunk && chunk[|chunk|..] == [];
  }

  lemma SextetsOf(b0: bv8, b1: bv8, b2: bv8, s0: bv8, s1: bv8, s2: bv8, s3: bv8)
    requires b0 == (s0 << 2) | (s1 >> 4) && b1 == (s1 << 4) | (s2 >> 2) && b2 == (s2 << 6) | s3
    requires s0 < 64 && s1 < 64 && s2 < 64 && s3 < 64
    ensures var t := Triple(b0, b1, b2);
      Sextet(t, 18) == s0 && Sextet(t, 12) == s1 && Sextet(t, 6) == s2 && Sextet(t, 0) == s3
  {
  }

  method Encode(bytes: seq<bv8>) returns (out: string)
    ensures out == Encoding(bytes)
  {
    hide Encoding, Group;
    out := [];
    var i := 0;
    assert bytes[0..] == bytes;
    while i < |bytes|
      invariant 0 <= i <= |bytes| && out + Encoding(bytes[i..]) == Encoding(bytes)
    {
      EncodingStep(bytes, i);
      var chunk := Chunk(bytes[i..]);
      out := out + Group(chunk);
      i := i + |chunk|;
    }
    assert bytes[|bytes|..] == [];
    NothingLeft();
  }

  lemma NothingLeft()
    ensures Encoding([]) == []
  {
  }

  // ---- Decoding -------------------------------------------------------------

  function SextetOf(c: char): bv8 {
    ValueOf(c) as bv8
  }

  lemma SextetOfChar(t: bv32, shift: nat)
    requires shift <= 18
    ensures SextetOf(SextetChar(t, shift)) == Sextet(t, shift) && SextetChar(t, shift) != '='
  {
    hide Sextet;
    SmallSextet(t, shift);
    AlphabetInverts(Sextet(t, shift) as int);
  }

  /** Four characters stand for three bytes, less one for each padding character. */
  function DecodeGroup(s: string): seq<bv8>
    requires |s| == 4
  {
    var s0, s1, s2, s3 := SextetOf(s[0]), SextetOf(s[1]), SextetOf(s[2]), SextetOf(s[3]);
    [FirstByte(s0, s1)]
    + (if s[2] == '=' then [] else [SecondByte(s1, s2)])
    + (if s[3] == '=' then [] else [ThirdByte(s2, s3)])
  }

  function Decode(s: string): seq<bv8> {
    if |s| < 4 then [] else DecodeGroup(s[..4]) + Decode(s[4..])
  }

  lemma GroupInverts(chunk: seq<bv8>)
    requires 1 <= |chunk| <= 3
    ensures DecodeGroup(Group(chunk)) == chunk
  {
    hide Triple, Sextet, SextetChar, SextetOf, FirstByte, SecondByte, ThirdByte;
    var b1, b2 := if |chunk| > 1 then chunk[1] else 0, if |chunk| > 2 then chunk[2] else 0;
    var t := Triple(chunk[0], b1, b2);
    SextetsHoldBytes(chunk[0], b1, b2);
    SextetOfChar(t, 18);
    SextetOfChar(t, 12);
    SextetOfChar(t, 6);
    SextetOfChar(t, 0);
  }

  /** Decoding inverts encoding on every byte sequence. */
  lemma {:induction false} DecodeInvertsEncode(bytes: seq<bv8>)
    ensures Decode(Encoding(bytes)) == bytes
  {
    hide Group, DecodeGroup;
    if bytes != [] {
      var chunk, rest := Chunk(bytes), bytes[|Chunk(bytes)|..];
      DecodeInvertsEncode(rest);
      GroupInverts(chunk);
      var s := Encoding(bytes);
      assert s[..4] == Group(chunk) && s[4..] == Encoding(rest);
      assert bytes == chunk + rest;
    }
  }

  /** The output has four characters per three bytes begun. */
  lemma {:induction false} EncodingLength(bytes: seq<bv8>)
    ensures |Encoding(bytes)| == 4 * ((|bytes| + 2) / 3)
  {
    hide Group;
    if bytes != [] {
      EncodingLength(bytes[|Chunk(bytes)|..]);
    }
  }

  function Padding(bytes: seq<bv8>): nat {
    (3 - |bytes| % 3) % 3
  }

  /** Padding fills exactly the one or two places that have no sextet, at the very end. */
  lemma {:induction false} PaddingPlaces(bytes: seq<bv8>, i: nat)
    requires bytes != [] && i < |Encoding(bytes)|
    ensures Encoding(bytes)[i] == '=' <==> i >= |Encoding(bytes)| - Padding(bytes)
  {
    hide Group, Chunk, Encoding, Padding;
    var chunk := Chunk(bytes);
    ChunkSize(bytes);
    assert bytes[0..] == bytes;
    EncodingStep(bytes, 0);
    var rest := bytes[|chunk|..];
    GroupShape(chunk);
    PaddingOfRest(bytes, rest);
    if i < 4 {
      assert Encoding(bytes)[i] == Group(chunk)[i];
    } else {
      assert Encoding(bytes)[i] == Encoding(rest)[i - 4];
      PaddingPlaces(rest, i - 4);
    }
  }

  /** Only the last chunk is padded. */
  lemma PaddingOfRest(bytes: seq<bv8>, rest: seq<bv8>)
    requires bytes != [] && |rest| == if |bytes| < 3 then 0 else |bytes| - 3
    ensures rest != [] ==> Padding(bytes) == Padding(rest) && |Encoding(rest)| >= Padding(rest)
    ensures rest == [] ==> Padding(bytes) == 3 - |bytes| && Encoding(rest) == []
  {
    hide Encoding;
    EncodingLength(rest);
  }

  lemma ChunkSize(bytes: seq<bv8>)
    requires bytes != []
    ensures |Chunk(bytes)| == if |bytes| < 3 then |bytes| else 3
  {
  }

  lemma GroupShape(chunk: seq<bv8>)
    requires 1 <= |chunk| <= 3
    ensures forall i :: 0 <= i < 4 ==> (Group(chunk)[i] == '=' <==> i > |chunk|)
  {
  }
}
