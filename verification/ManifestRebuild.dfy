/** Rebuilding a weight file: gate and up matrices are copied, down matrices are
    re-read, padded row by row to whole super-blocks, and quantised again. */
module ManifestRebuild {
  import opened Arith
  import opened BlockReduce
  import Q6kKernel
  import opened Wrappers

  datatype Entry = Entry(key: string, shape: seq<nat>, format: string, offset: nat, length: nat)

  /** A tensor of the source model: its bytes are rows of 16-bit values. */
  datatype Tensor = Tensor(rows: nat, cols: nat, isBf16: bool, data: seq<bv8>)

  const SUPER: nat := 256
  const SUPER_BYTES: nat := 210

  // ---- Padding --------------------------------------------------------------

  /** cols rounded up to whole super-blocks. */
  function PaddedCols(cols: nat): nat {
    (cols + 255) / 256 * 256
  }

  /** The bits of the single-precision value that two brain-float bytes stand for. */
  function WidenBf16(b0: bv8, b1: bv8): bv32 {
    ((b0 as bv32) | ((b1 as bv32) << 8)) << 16
  }

  /** The least whole number of super-blocks that holds a row. */
  lemma PaddedColsIsLeast(cols: nat, n: nat)
    ensures PaddedCols(cols) % 256 == 0 && cols <= PaddedCols(cols) < cols + 256
    ensures n % 256 == 0 && cols <= n ==> PaddedCols(cols) <= n
  {
  }

  /** The two bytes become the upper two of the single-precision value; the lower two are
      zero. */
  lemma WideningKeepsBytes(b0: bv8, b1: bv8)
    ensures WidenBf16(b0, b1) & 0xFFFF == 0
    ensures ((WidenBf16(b0, b1) >> 16) & 0xFF) as bv8 == b0 && ((WidenBf16(b0, b1) >> 24) & 0xFF) as bv8 == b1
  {
  }

  ghost function PaddedAt(t: Tensor, r: nat, c: nat): bv32 {
    var i := Times(r, 2 * t.cols) + 2 * c;
    if c < t.cols && i + 1 < |t.data| then WidenBf16(t.data[i], t.data[i + 1]) else 0
  }

  ghost function PaddedRow(t: Tensor, r: nat): (s: seq<bv32>)
    ensures |s| == PaddedCols(t.cols)
  {
    seq(PaddedCols(t.cols), c requires 0 <= c < PaddedCols(t.cols) => PaddedAt(t, r, c))
  }

  /** The first n rows, padded, one after the other. */
  ghost function PaddedRows(t: Tensor, n: nat): (s: seq<bv32>)
    ensures |s| == Times(n, PaddedCols(t.cols))
  {
    if n == 0 then [] else PaddedRows(t, n - 1) + PaddedRow(t, n - 1)
  }

  /** Element (r, c) of the padded matrix, row-major: the tensor's element, or zero beyond
      its columns. */
  lemma {:induction false} PaddedElement(t: Tensor, n: nat, r: nat, c: nat)
    requires r < n && c < PaddedCols(t.cols) && |t.data| == 2 * Times(n, t.cols)
    ensures Times(r, PaddedCols(t.cols)) + c < |PaddedRows(t, n)|
    ensures c < t.cols ==> 2 * (Times(r, t.cols) + c) + 1 < |t.data|
    ensures PaddedRows(t, n)[Times(r, PaddedCols(t.cols)) + c]
         == if c < t.cols then WidenBf16(t.data[2 * (Times(r, t.cols) + c)], t.data[2 * (Times(r, t.cols) + c) + 1]) else 0
  {
    TimesOrdered(r, n, t.cols);
    TimesOrdered(r, n, PaddedCols(t.cols));
    TwiceTimes(r, t.cols);
    RowAt(t, n, r);
    assert PaddedRow(t, r)[c] == PaddedAt(t, r, c);
  }

  lemma {:induction false} TwiceTimes(r: nat, cols: nat)
    ensures Times(r, 2 * cols) == 2 * Times(r, cols)
  {
    if r > 0 {
      TwiceTimes(r - 1, cols);
    }
  }

  lemma {:induction false} RowAt(t: Tensor, n: nat, r: nat)
    requires r < n
    ensures Times(r, PaddedCols(t.cols)) + PaddedCols(t.cols) <= |PaddedRows(t, n)|
    ensures PaddedRows(t, n)[Times(r, PaddedCols(t.cols))..Times(r, PaddedCols(t.cols)) + PaddedCols(t.cols)] == PaddedRow(t, r)
  {
    hide PaddedRow, PaddedCols;
    TimesOrdered(r, n, PaddedCols(t.cols));
    if r < n - 1 {
      RowAt(t, n - 1, r);
    }
  }

  method PadRow(padded: array<bv32>, from: nat, t: Tensor, r: nat)
    requires r < t.rows && |t.data| == Times(t.rows, 2 * t.cols) && from + PaddedCols(t.cols) <= padded.Length
    requires forall j :: from <= j < padded.Length ==> padded[j] == 0
    modifies padded
    ensures padded[from..from + PaddedCols(t.cols)] == PaddedRow(t, r)
    ensures SameOutside(padded[..], old(padded[..]), from, from + PaddedCols(t.cols))
  {
    hide Times, WidenBf16, PaddedRow;
    TimesOrdered(r, t.rows, 2 * t.cols);
    TimesIsProduct(r, 2 * t.cols);
    var srcRow := t.data[r * (2 * t.cols)..r * (2 * t.cols) + 2 * t.cols];
    ghost var row := PaddedRow(t, r);
    for i := 0 to t.cols
      invariant forall j :: 0 <= j < i ==> padded[from + j] == row[j]
      invariant forall j :: from + i <= j < padded.Length ==> padded[j] == 0
      invariant SameOutside(padded[..], old(padded[..]), from, from + PaddedCols(t.cols))
    {
      InsideRow(t, r, i);
      padded[from + i] := WidenBf16(srcRow[2 * i], srcRow[2 * i + 1]);
    }
    BeyondRow(t, r);
  }

  lemma InsideRow(t: Tensor, r: nat, i: nat)
    requires i < t.cols && Times(r, 2 * t.cols) + 2 * t.cols <= |t.data|
    ensures PaddedRow(t, r)[i] == WidenBf16(t.data[Times(r, 2 * t.cols) + 2 * i], t.data[Times(r, 2 * t.cols) + 2 * i + 1])
  {
    hide WidenBf16;
  }

  lemma BeyondRow(t: Tensor, r: nat)
    ensures forall c :: t.cols <= c < PaddedCols(t.cols) ==> PaddedRow(t, r)[c] == 0
  {
  }

  /** All rows into a zeroed buffer. */
  method PadRows(t: Tensor) returns (padded: array<bv32>)
    requires |t.data| == Times(t.rows, 2 * t.cols)
    ensures fresh(padded) && padded[..] == PaddedRows(t, t.rows)
  {
    hide PaddedRow, SameOutside;
    TimesIsProduct(t.rows, PaddedCols(t.cols));
    padded := new bv32[t.rows * PaddedCols(t.cols)](i => 0);
    for r := 0 to t.rows
      invariant Times(r, PaddedCols(t.cols)) <= padded.Length
      invariant padded[..Times(r, PaddedCols(t.cols))] == PaddedRows(t, r)
      invariant forall j :: Times(r, PaddedCols(t.cols)) <= j < padded.Length ==> padded[j] == 0
    {
      TimesOrdered(r, t.rows, PaddedCols(t.cols));
      TimesIsProduct(r, PaddedCols(t.cols));
      ghost var was := padded[..];
      PadRow(padded, r * PaddedCols(t.cols), t, r);
      OneMoreRow(was, padded[..], Times(r, PaddedCols(t.cols)), PaddedCols(t.cols), PaddedRows(t, r), PaddedRow(t, r));
    }
  }

  lemma OneMoreRow(was: seq<bv32>, now: seq<bv32>, from: nat, width: nat, rows: seq<bv32>, row: seq<bv32>)
    requires from + width <= |now| && SameOutside(now, was, from, from + width)
    requires was[..from] == rows && now[from..from + width] == row
    ensures now[..from + width] == rows + row
    ensures (forall j :: from <= j < |was| ==> was[j] == 0) ==> forall j :: from + width <= j < |now| ==> now[j] == 0
  {
  }

  // ---- Quantising -----------------------------------------------------------

  /** A quantiser turns each super-block of 256 values into 210 bytes. */
  ghost predicate IsQuantizer(q: seq<bv32> -> seq<bv8>) {
    forall s: seq<bv32> :: |s| == SUPER ==> |q(s)| == SUPER_BYTES
  }

  function Quantize(q: seq<bv32> -> seq<bv8>, s: seq<bv32>): seq<bv8> {
    if |s| < SUPER then [] else q(s[..SUPER]) + Quantize(q, s[SUPER..])
  }

  lemma {:induction false} QuantizeLength(q: seq<bv32> -> seq<bv8>, s: seq<bv32>)
    requires IsQuantizer(q)
    ensures |Quantize(q, s)| == |s| / SUPER * SUPER_BYTES
    decreases |s|
  {
    if |s| >= SUPER {
      QuantizeLength(q, s[SUPER..]);
      assert |s[..SUPER]| == SUPER;
    }
  }

  lemma {:induction false} QuantizeSplit(q: seq<bv32> -> seq<bv8>, a: seq<bv32>, b: seq<bv32>)
    requires |a| % SUPER == 0
    ensures Quantize(q, a + b) == Quantize(q, a) + Quantize(q, b)
    decreases |a|
  {
    if a == [] {
      assert a + b == b;
    } else {
      QuantizeSplit(q, a[SUPER..], b);
      assert (a + b)[..SUPER] == a[..SUPER] && (a + b)[SUPER..] == a[SUPER..] + b;
    }
  }

  /** Row r of the padded matrix occupies bytes of its own, in order. */
  lemma {:induction false} QuantizedRow(q: seq<bv32> -> seq<bv8>, t: Tensor, n: nat, r: nat)
    requires IsQuantizer(q) && r < n
    ensures var w := Q6kKernel.RowBytes(PaddedCols(t.cols)); var all := Quantize(q, PaddedRows(t, n));
      |all| == Times(n, w) && Times(r, w) + w <= |all| && all[Times(r, w)..Times(r, w) + w] == Quantize(q, PaddedRow(t, r))
  {
    hide PaddedRow, Quantize;
    var w := Q6kKernel.RowBytes(PaddedCols(t.cols));
    var before, last := Quantize(q, PaddedRows(t, n - 1)), Quantize(q, PaddedRow(t, n - 1));
    QuantizedLength(q, t, n - 1);
    QuantizeLength(q, PaddedRow(t, n - 1));
    WholeRows(n - 1, PaddedCols(t.cols));
    QuantizeSplit(q, PaddedRows(t, n - 1), PaddedRow(t, n - 1));
    assert Quantize(q, PaddedRows(t, n)) == before + last;
    if r < n - 1 {
      QuantizedRow(q, t, n - 1, r);
      assert (before + last)[Times(r, w)..Times(r, w) + w] == before[Times(r, w)..Times(r, w) + w];
    }
  }

  lemma {:induction false} WholeRows(n: nat, w: nat)
    requires w % SUPER == 0
    ensures Times(n, w) % SUPER == 0
  {
    if n > 0 {
      WholeRows(n - 1, w);
    }
  }

  lemma {:induction false} QuantizedLength(q: seq<bv32> -> seq<bv8>, t: Tensor, n: nat)
    requires IsQuantizer(q)
    ensures |Quantize(q, PaddedRows(t, n))| == Times(n, Q6kKernel.RowBytes(PaddedCols(t.cols)))
  {
    hide PaddedRow;
    if n > 0 {
      QuantizedLength(q, t, n - 1);
      WholeRows(n - 1, PaddedCols(t.cols));
      QuantizeSplit(q, PaddedRows(t, n - 1), PaddedRow(t, n - 1));
      QuantizeLength(q, PaddedRow(t, n - 1));
    } else {
      assert Quantize(q, []) == [];
    }
  }

  // ---- The new file ---------------------------------------------------------

  predicate EndsWith(s: string, suffix: string) {
    |suffix| <= |s| && s[|s| - |suffix|..] == suffix
  }

  predicate InFile(e: Entry, file: seq<bv8>) {
    e.offset + e.length <= |file|
  }

  function BytesOf(e: Entry, file: seq<bv8>): (b: seq<bv8>)
    requires InFile(e, file)
  {
    file[e.offset..e.offset + e.length]
  }

  ghost function DownBytes(q: seq<bv32> -> seq<bv8>, t: Tensor): seq<bv8> {
    Quantize(q, PaddedRows(t, t.rows))
  }

  /** Everything the code asserts or unwraps about one layer. */
  ghost predicate LayerReadable(q: seq<bv32> -> seq<bv8>, entries: seq<Entry>, file: seq<bv8>, hf: seq<Option<Tensor>>, l: nat)
    requires 3 * l + 3 <= |entries|
  {
    && EndsWith(entries[3 * l].key, ".mlp.gate_proj.weight")
    && EndsWith(entries[3 * l + 1].key, ".mlp.up_proj.weight")
    && EndsWith(entries[3 * l + 2].key, ".mlp.down_proj.weight")
    && InFile(entries[3 * l], file) && InFile(entries[3 * l + 1], file)
    && l < |hf| && hf[l].Some? && hf[l].value.isBf16
    && |hf[l].value.data| == Times(hf[l].value.rows, 2 * hf[l].value.cols)
    && |DownBytes(q, hf[l].value)| == Times(hf[l].value.rows, Q6kKernel.RowBytes(PaddedCols(hf[l].value.cols)))
  }

  ghost predicate Readable(q: seq<bv32> -> seq<bv8>, entries: seq<Entry>, file: seq<bv8>, hf: seq<Option<Tensor>>, layers: nat)
    requires 3 * layers <= |entries|
  {
    forall l: nat :: l < layers ==> LayerReadable(q, entries, file, hf, l)
  }

  /** The bytes of one rebuilt layer: gate, up, down. */
  ghost function LayerBytes(q: seq<bv32> -> seq<bv8>, entries: seq<Entry>, file: seq<bv8>, hf: seq<Option<Tensor>>, l: nat): seq<bv8>
    requires 3 * l + 3 <= |entries| && LayerReadable(q, entries, file, hf, l)
  {
    BytesOf(entries[3 * l], file) + BytesOf(entries[3 * l + 1], file) + DownBytes(q, hf[l].value)
  }

  ghost function LayerEntries(q: seq<bv32> -> seq<bv8>, entries: seq<Entry>, file: seq<bv8>, hf: seq<Option<Tensor>>, l: nat, at: nat)
    : (e: seq<Entry>)
    requires 3 * l + 3 <= |entries| && LayerReadable(q, entries, file, hf, l)
    ensures |e| == 3
  {
    var gate, up, t := entries[3 * l], entries[3 * l + 1], hf[l].value;
    [gate.(offset := at), up.(offset := at + gate.length),
     Entry(entries[3 * l + 2].key, [t.rows, PaddedCols(t.cols)], "Q6_K", at + gate.length + up.length, |DownBytes(q, t)|)]
  }

  ghost function NewBytes(q: seq<bv32> -> seq<bv8>, entries: seq<Entry>, file: seq<bv8>, hf: seq<Option<Tensor>>, n: nat): seq<bv8>
    requires 3 * n <= |entries| && Readable(q, entries, file, hf, n)
  {
    if n == 0 then [] else NewBytes(q, entries, file, hf, n - 1) + LayerBytes(q, entries, file, hf, n - 1)
  }

  ghost function NewEntries(q: seq<bv32> -> seq<bv8>, entries: seq<Entry>, file: seq<bv8>, hf: seq<Option<Tensor>>, n: nat)
    : (e: seq<Entry>)
    requires 3 * n <= |entries| && Readable(q, entries, file, hf, n)
    ensures |e| == 3 * n
  {
    if n == 0 then [] else
      NewEntries(q, entries, file, hf, n - 1)
      + LayerEntries(q, entries, file, hf, n - 1, |NewBytes(q, entries, file, hf, n - 1)|)
  }

  /** One turn of the layer loop, on the bytes and entries so far. */
  method RebuildLayer(q: seq<bv32> -> seq<bv8>, entries: seq<Entry>, file: seq<bv8>, hf: seq<Option<Tensor>>, l: nat,
                      entries0: seq<Entry>, bytes0: seq<bv8>)
    returns (r: Result<(seq<Entry>, seq<bv8>)>)
    requires 3 * l + 3 <= |entries|
    ensures r.Ok? <==> LayerReadable(q, entries, file, hf, l)
    ensures r.Ok? ==> r.value.0 == entries0 + LayerEntries(q, entries, file, hf, l, |bytes0|)
    ensures r.Ok? ==> r.value.1 == bytes0 + LayerBytes(q, entries, file, hf, l)
  {
    hide PaddedRows, Quantize, Times;
    var gate, up, down := entries[3 * l], entries[3 * l + 1], entries[3 * l + 2];
    if !EndsWith(gate.key, ".mlp.gate_proj.weight") || !EndsWith(up.key, ".mlp.up_proj.weight")
       || !EndsWith(down.key, ".mlp.down_proj.weight") {
      return Err;
    }
    if !InFile(gate, file) || !InFile(up, file) || l >= |hf| || hf[l].None? {
      return Err;
    }
    var t := hf[l].value;
    TimesIsProduct(t.rows, 2 * t.cols);
    if !t.isBf16 || |t.data| != t.rows * (2 * t.cols) {
      return Err;
    }
    var newEntries, newBytes := entries0, bytes0;
    newEntries := newEntries + [Entry(gate.key, gate.shape, gate.format, |newBytes|, gate.length)];
    newBytes := newBytes + BytesOf(gate, file);
    newEntries := newEntries + [Entry(up.key, up.shape, up.format, |newBytes|, up.length)];
    newBytes := newBytes + BytesOf(up, file);
    var padded := PadRows(t);
    var quantized := Quantize(q, padded[..]);
    TimesIsProduct(t.rows, Q6kKernel.RowBytes(PaddedCols(t.cols)));
    if |quantized| != t.rows * (PaddedCols(t.cols) / 256 * 210) {
      return Err;
    }
    newEntries := newEntries + [Entry(down.key, [t.rows, PaddedCols(t.cols)], "Q6_K", |newBytes|, |quantized|)];
    newBytes := newBytes + quantized;
    r := Ok((newEntries, newBytes));
  }

  /** The rebuild. On any unreadable layer it stops before anything is written; entries
      beyond a multiple of three are not carried over. */
  method Rebuild(q: seq<bv32> -> seq<bv8>, entries: seq<Entry>, file: seq<bv8>, hf: seq<Option<Tensor>>)
    returns (r: Result<(seq<Entry>, seq<bv8>)>)
    ensures r.Ok? <==> Readable(q, entries, file, hf, |entries| / 3)
    ensures r.Ok? ==> r.value.0 == NewEntries(q, entries, file, hf, |entries| / 3)
    ensures r.Ok? ==> r.value.1 == NewBytes(q, entries, file, hf, |entries| / 3)
  {
    hide LayerEntries, LayerBytes, LayerReadable;
    var newEntries: seq<Entry>, newBytes: seq<bv8> := [], [];
    for l := 0 to |entries| / 3
      invariant Readable(q, entries, file, hf, l)
      invariant newEntries == NewEntries(q, entries, file, hf, l) && newBytes == NewBytes(q, entries, file, hf, l)
    {
      var layer := RebuildLayer(q, entries, file, hf, l, newEntries, newBytes);
      if layer.Err? {
        return Err;
      }
      newEntries, newBytes := layer.value.0, layer.value.1;
    }
    r := Ok((newEntries, newBytes));
  }

  // ---- What the new file is -------------------------------------------------

  /** The assertion on the quantised length never fails for a quantiser of 210-byte
      super-blocks: a layer is readable exactly when its old entries and tensor are. */
  lemma LengthAsserted(q: seq<bv32> -> seq<bv8>, t: Tensor)
    requires IsQuantizer(q)
    ensures |DownBytes(q, t)| == Times(t.rows, Q6kKernel.RowBytes(PaddedCols(t.cols)))
  {
    QuantizedLength(q, t, t.rows);
  }

  /** Every entry has a successor in the new manifest if and only if there are whole
      layers of them; otherwise the last one or two are dropped. */
  lemma EntriesDropped(q: seq<bv32> -> seq<bv8>, entries: seq<Entry>, file: seq<bv8>, hf: seq<Option<Tensor>>)
    requires Readable(q, entries, file, hf, |entries| / 3)
    ensures var made := NewEntries(q, entries, file, hf, |entries| / 3);
      (|made| == |entries| <==> |entries| % 3 == 0) && |made| == |entries| - |entries| % 3
      && forall i :: 0 <= i < |made| ==> made[i].key == entries[i].key
  {
    hide LayerReadable, NewEntries, NewBytes, LayerEntries;
    var n := |entries| / 3;
    var made := NewEntries(q, entries, file, hf, n);
    forall i | 0 <= i < |made|
      ensures made[i].key == entries[i].key
    {
      SameKey(q, entries, file, hf, n, i);
    }
  }

  lemma SameKey(q: seq<bv32> -> seq<bv8>, entries: seq<Entry>, file: seq<bv8>, hf: seq<Option<Tensor>>, n: nat, i: nat)
    requires 3 * n <= |entries| && Readable(q, entries, file, hf, n) && i < 3 * n
    ensures NewEntries(q, entries, file, hf, n)[i].key == entries[i].key
  {
    hide NewBytes, NewEntries, DownBytes, EndsWith;
    var l, m := i / 3, i % 3;
    ReadableUpTo(q, entries, file, hf, n, l);
    LayerPlaced(q, entries, file, hf, n, l);
    assert NewEntries(q, entries, file, hf, n)[3 * l..3 * l + 3][m] == NewEntries(q, entries, file, hf, n)[i];
  }

  /** The entries of layer l and its bytes, found again in the whole. */
  lemma {:induction false} LayerPlaced(q: seq<bv32> -> seq<bv8>, entries: seq<Entry>, file: seq<bv8>, hf: seq<Option<Tensor>>,
                                       n: nat, l: nat)
    requires l < n && 3 * n <= |entries| && Readable(q, entries, file, hf, n)
    ensures var all, before := NewBytes(q, entries, file, hf, n), NewBytes(q, entries, file, hf, l);
      var mine := LayerBytes(q, entries, file, hf, l);
      && NewEntries(q, entries, file, hf, n)[3 * l..3 * l + 3] == LayerEntries(q, entries, file, hf, l, |before|)
      && |before| + |mine| <= |all| && all[|before|..|before| + |mine|] == mine
      && |before| + |mine| == |NewBytes(q, entries, file, hf, l + 1)|
  {
    hide LayerBytes, LayerEntries;
    if l < n - 1 {
      LayerPlaced(q, entries, file, hf, n - 1, l);
      var before, mine := NewBytes(q, entries, file, hf, l), LayerBytes(q, entries, file, hf, l);
      var shorter, all := NewBytes(q, entries, file, hf, n - 1), NewBytes(q, entries, file, hf, n);
      assert all[|before|..|before| + |mine|] == shorter[|before|..|before| + |mine|];
      assert NewEntries(q, entries, file, hf, n)[3 * l..3 * l + 3] == NewEntries(q, entries, file, hf, n - 1)[3 * l..3 * l + 3];
    }
  }

  /** The entries tile the new file: each starts where the one before ends, the first at
      zero, the last ending at the end. */
  lemma EntriesTile(q: seq<bv32> -> seq<bv8>, entries: seq<Entry>, file: seq<bv8>, hf: seq<Option<Tensor>>, n: nat, i: nat)
    requires 3 * n <= |entries| && Readable(q, entries, file, hf, n) && i < 3 * n
    ensures var made, bytes := NewEntries(q, entries, file, hf, n), NewBytes(q, entries, file, hf, n);
      && (i == 0 ==> made[i].offset == 0)
      && (i > 0 ==> made[i].offset == made[i - 1].offset + made[i - 1].length)
      && (i == 3 * n - 1 ==> made[i].offset + made[i].length == |bytes|)
  {
    hide Readable, LayerReadable, NewBytes, NewEntries;
    var l, m := i / 3, i % 3;
    assert i == 3 * l + m;
    OwnOffsets(q, entries, file, hf, n, l);
    if m == 0 {
      if l > 0 {
        OwnOffsets(q, entries, file, hf, n, l - 1);
      } else {
        NoBytes(q, entries, file, hf);
      }
    }
  }

  lemma NoBytes(q: seq<bv32> -> seq<bv8>, entries: seq<Entry>, file: seq<bv8>, hf: seq<Option<Tensor>>)
    ensures Readable(q, entries, file, hf, 0) && NewBytes(q, entries, file, hf, 0) == []
  {
  }

  lemma ReadableUpTo(q: seq<bv32> -> seq<bv8>, entries: seq<Entry>, file: seq<bv8>, hf: seq<Option<Tensor>>, n: nat, m: nat)
    requires m <= n && 3 * n <= |entries| && Readable(q, entries, file, hf, n)
    ensures Readable(q, entries, file, hf, m) && (m < n ==> LayerReadable(q, entries, file, hf, m))
  {
  }

  lemma OwnOffsets(q: seq<bv32> -> seq<bv8>, entries: seq<Entry>, file: seq<bv8>, hf: seq<Option<Tensor>>, n: nat, l: nat)
    requires l < n && 3 * n <= |entries| && Readable(q, entries, file, hf, n)
    ensures Readable(q, entries, file, hf, l) && Readable(q, entries, file, hf, l + 1)
    ensures var made := NewEntries(q, entries, file, hf, n);
      && made[3 * l].offset == |NewBytes(q, entries, file, hf, l)|
      && made[3 * l + 1].offset == made[3 * l].offset + made[3 * l].length
      && made[3 * l + 2].offset == made[3 * l + 1].offset + made[3 * l + 1].length
      && made[3 * l + 2].offset + made[3 * l + 2].length == |NewBytes(q, entries, file, hf, l + 1)|
  {
    hide NewBytes, NewEntries, DownBytes, EndsWith;
    ReadableUpTo(q, entries, file, hf, n, l);
    ReadableUpTo(q, entries, file, hf, n, l + 1);
    LayerPlaced(q, entries, file, hf, n, l);
    var all := NewEntries(q, entries, file, hf, n);
    var mine := all[3 * l..3 * l + 3];
    assert mine[0] == all[3 * l] && mine[1] == all[3 * l + 1] && mine[2] == all[3 * l + 2];
  }

  /** Gate and up matrices read through the new manifest are what they were through the
      old one, names, shapes and formats included. */
  lemma GateAndUpKept(q: seq<bv32> -> seq<bv8>, entries: seq<Entry>, file: seq<bv8>, hf: seq<Option<Tensor>>, n: nat, l: nat, i: nat)
    requires l < n && 3 * n <= |entries| && Readable(q, entries, file, hf, n) && (i == 3 * l || i == 3 * l + 1)
    ensures LayerReadable(q, entries, file, hf, l)
    ensures var made, bytes := NewEntries(q, entries, file, hf, n), NewBytes(q, entries, file, hf, n);
      && InFile(made[i], bytes) && BytesOf(made[i], bytes) == BytesOf(entries[i], file)
      && made[i] == entries[i].(offset := made[i].offset)
  {
    hide NewBytes, NewEntries, DownBytes;
    ReadableUpTo(q, entries, file, hf, n, l);
    LayerPlaced(q, entries, file, hf, n, l);
    var made, bytes := NewEntries(q, entries, file, hf, n), NewBytes(q, entries, file, hf, n);
    var from, mine := |NewBytes(q, entries, file, hf, l)|, LayerBytes(q, entries, file, hf, l);
    var gate, up := BytesOf(entries[3 * l], file), BytesOf(entries[3 * l + 1], file);
    assert made[3 * l..3 * l + 3][0] == made[3 * l] && made[3 * l..3 * l + 3][1] == made[3 * l + 1];
    if i == 3 * l {
      SubSlice(bytes, from, mine, 0, gate);
    } else {
      SubSlice(bytes, from, mine, |gate|, up);
    }
  }

  lemma SubSlice(bytes: seq<bv8>, from: nat, mine: seq<bv8>, at: nat, part: seq<bv8>)
    requires from + |mine| <= |bytes| && bytes[from..from + |mine|] == mine
    requires at + |part| <= |mine| && mine[at..at + |part|] == part
    ensures bytes[from + at..from + at + |part|] == part
  {
    forall j | 0 <= j < |part|
      ensures bytes[from + at + j] == part[j]
    {
      assert bytes[from..from + |mine|][at + j] == mine[at..at + |part|][j];
    }
  }

  /** Row r of the rebuilt down matrix, read through the new manifest: the quantised
      padded row, at exactly the bytes q6k_matvec reads for row r of a matrix with the
      stored number of columns. */
  lemma DownRows(q: seq<bv32> -> seq<bv8>, entries: seq<Entry>, file: seq<bv8>, hf: seq<Option<Tensor>>, n: nat, l: nat, r: nat)
    requires IsQuantizer(q) && l < n && 3 * n <= |entries| && Readable(q, entries, file, hf, n)
    requires LayerReadable(q, entries, file, hf, l) && r < hf[l].value.rows
    ensures var t, e, bytes := hf[l].value, NewEntries(q, entries, file, hf, n)[3 * l + 2], NewBytes(q, entries, file, hf, n);
      && e.key == entries[3 * l + 2].key && e.shape == [t.rows, PaddedCols(t.cols)] && e.format == "Q6_K"
      && InFile(e, bytes)
      && var w, k := BytesOf(e, bytes), e.shape[1];
      && k % Q6kKernel.SUPER == 0 && t.cols <= k < t.cols + 256
      && |w| == Times(e.shape[0], Q6kKernel.RowBytes(k))
      && Times(r, Q6kKernel.RowBytes(k)) + Q6kKernel.RowBytes(k) <= |w|
      && w[Times(r, Q6kKernel.RowBytes(k))..Times(r, Q6kKernel.RowBytes(k)) + Q6kKernel.RowBytes(k)] == Quantize(q, PaddedRow(t, r))
  {
    hide NewBytes, NewEntries, PaddedRows, PaddedRow, Quantize, Times;
    LayerPlaced(q, entries, file, hf, n, l);
    var t, made, bytes := hf[l].value, NewEntries(q, entries, file, hf, n), NewBytes(q, entries, file, hf, n);
    var from, mine := |NewBytes(q, entries, file, hf, l)|, LayerBytes(q, entries, file, hf, l);
    assert made[3 * l..3 * l + 3][2] == made[3 * l + 2];
    SubSlice(bytes, from, mine, entries[3 * l].length + entries[3 * l + 1].length, DownBytes(q, t));
    QuantizedRow(q, t, t.rows, r);
  }

  /** So the kernel multiplies the padded row's quantised values: nothing of another row
      enters, whatever the number of columns was. */
  lemma DownRowProduct(half: (bv8, bv8) -> real, q: seq<bv32> -> seq<bv8>, t: Tensor, w: seq<bv8>, x: seq<real>, r: nat)
    requires IsQuantizer(q) && r < t.rows && w == DownBytes(q, t)
    requires Times(r, Q6kKernel.RowBytes(PaddedCols(t.cols))) < U32
    ensures Q6kKernel.RowResult(half, w, x, PaddedCols(t.cols), r)
         == Q6kKernel.RowDotProduct(half, Quantize(q, PaddedRow(t, r)), 0, x, PaddedCols(t.cols))
  {
    hide PaddedRows, PaddedRow, Quantize, Times, Q6kKernel.RowDotProduct;
    var k := PaddedCols(t.cols);
    QuantizedRow(q, t, t.rows, r);
    Q6kKernel.RowLocal(half, w, Times(r, Q6kKernel.RowBytes(k)), x, k);
  }
}
