/** The payload layout (tools/go-export-model.ts): the encoder writes each tensor block in place and
 * the result is the concatenation of the blocks, filling the computed length exactly. */
module ArtifactLayout {
  import opened HalfFloat
  import opened Powers
  import opened RowQuantization

  datatype Storage = Q8 | F16

  /** One runtime tensor with its bias. */
  datatype Block = Block(values: seq<Word>, rows: nat, columns: nat, bias: seq<Word>, storage: Storage)

  /** `Math.fround`: the binary32 word nearest to a real. */
  type Narrow = real -> Word

  predicate Shaped(b: Block) {
    b.storage.Q8? ==> |b.values| == b.rows * b.columns
  }

  // ---------- the bytes a block stands for ----------

  /** The real value of a finite word. */
  function Value(w: Word): real {
    var magnitude := Exact(w) as real / Pow2(149) as real;
    if Sign(w) == 1 then -magnitude else magnitude
  }

  function Values(words: seq<Word>): seq<real> {
    seq(|words|, k requires 0 <= k < |words| => Value(words[k]))
  }

  function LittleEndian(w: Word): (s: seq<Byte>)
    ensures |s| == 4
  {
    [w % 256, w / 256 % 256, w / 65536 % 256, w / 16777216]
  }

  function HalfBytes(words: seq<Word>): (s: seq<Byte>)
    ensures |s| == 2 * |words|
  {
    if words == [] then []
    else HalfBytes(words[..|words| - 1]) + HalfPair(words[|words| - 1])
  }

  function HalfPair(w: Word): (s: seq<Byte>)
    ensures |s| == 2
  {
    HalfFits(w);
    [FloatToHalf(w) % 256, FloatToHalf(w) / 256]
  }

  lemma HalfFits(w: Word)
    ensures FloatToHalf(w) < 0x1_0000
  {
    hide Pow2, ShiftedRight, Round13;
    var e, m := Exponent(w), Mantissa(w);
    if 102 <= e <= 112 {
      SubnormalCode(e, m);
      Split(e, m);
      Round13Split(Kept(e, m));
    } else if 113 <= e <= 142 {
      NormalCode(e, m);
    }
  }

  function RowScale(row: seq<Word>, narrow: Narrow): Word {
    narrow(WantedScale(Values(row)))
  }

  function Code(w: Word, scale: Word): Byte {
    QuantizeInRange(Value(w), Value(scale));
    ToByte(Quantize(Value(w), Value(scale)))
  }

  function RowCodes(row: seq<Word>, scale: Word): (s: seq<Byte>)
    ensures |s| == |row|
  {
    seq(|row|, k requires 0 <= k < |row| => Code(row[k], scale))
  }

  function RowOf(values: seq<Word>, columns: nat, r: nat): (row: seq<Word>)
    requires (r + 1) * columns <= |values|
    ensures |row| == columns
  {
    NextRow(r, columns);
    values[r * columns..r * columns + columns]
  }

  lemma NextRow(r: nat, columns: nat)
    ensures 0 <= r * columns && (r + 1) * columns == r * columns + columns
  {}

  /** The weights of the first `rows` rows. */
  function Codes(values: seq<Word>, rows: nat, columns: nat, narrow: Narrow): (s: seq<Byte>)
    requires rows * columns <= |values|
    ensures |s| == rows * columns
  {
    if rows == 0 then []
    else
      NextRow(rows - 1, columns);
      var row := RowOf(values, columns, rows - 1);
      Codes(values, rows - 1, columns, narrow) + RowCodes(row, RowScale(row, narrow))
  }

  /** Their scales. */
  function Scales(values: seq<Word>, rows: nat, columns: nat, narrow: Narrow): (s: seq<Byte>)
    requires rows * columns <= |values|
    ensures |s| == 4 * rows
  {
    if rows == 0 then []
    else
      NextRow(rows - 1, columns);
      Scales(values, rows - 1, columns, narrow) + LittleEndian(RowScale(RowOf(values, columns, rows - 1), narrow))
  }

  function BlockBytes(b: Block, narrow: Narrow): seq<Byte>
    requires Shaped(b)
  {
    (if b.storage.Q8? then Codes(b.values, b.rows, b.columns, narrow) + Scales(b.values, b.rows, b.columns, narrow)
     else HalfBytes(b.values))
    + HalfBytes(b.bias)
  }

  function Payload(blocks: seq<Block>, narrow: Narrow): seq<Byte>
    requires forall b <- blocks :: Shaped(b)
  {
    if blocks == [] then []
    else Payload(blocks[..|blocks| - 1], narrow) + BlockBytes(blocks[|blocks| - 1], narrow)
  }

  // ---------- the length computed up front ----------

  function Q8BlockBytes(rows: nat, columns: nat): int {
    rows * columns + rows * 4
  }

  function BlockLength(b: Block): int {
    (if b.storage.Q8? then Q8BlockBytes(b.rows, b.columns) else |b.values| * 2) + |b.bias| * 2
  }

  function TotalLength(blocks: seq<Block>): int {
    if blocks == [] then 0 else TotalLength(blocks[..|blocks| - 1]) + BlockLength(blocks[|blocks| - 1])
  }

  lemma BlockLengthIsExact(b: Block, narrow: Narrow)
    requires Shaped(b)
    ensures |BlockBytes(b, narrow)| == BlockLength(b)
  {}

  lemma {:induction false} TotalIsPayloadLength(blocks: seq<Block>, narrow: Narrow)
    requires forall b <- blocks :: Shaped(b)
    ensures TotalLength(blocks) == |Payload(blocks, narrow)|
  {
    hide BlockBytes, BlockLength;
    if blocks != [] {
      BlockLengthIsExact(blocks[|blocks| - 1], narrow);
      TotalIsPayloadLength(blocks[..|blocks| - 1], narrow);
    }
  }

  /** Each block occupies its own slice of the payload, starting where the blocks before it end. */
  lemma {:induction false} BlocksAreAdjacent(blocks: seq<Block>, narrow: Narrow, n: nat)
    requires n < |blocks| && forall b <- blocks :: Shaped(b)
    ensures var from := TotalLength(blocks[..n]);
      && 0 <= from && from + BlockLength(blocks[n]) == TotalLength(blocks[..n + 1]) <= |Payload(blocks, narrow)|
      && |BlockBytes(blocks[n], narrow)| == BlockLength(blocks[n])
      && Payload(blocks, narrow)[from..from + BlockLength(blocks[n])] == BlockBytes(blocks[n], narrow)
    decreases |blocks|
  {
    hide BlockBytes, BlockLength;
    var shorter, last := blocks[..|blocks| - 1], blocks[|blocks| - 1];
    BlockLengthIsExact(blocks[n], narrow);
    assert blocks[..n + 1][..n] == blocks[..n];
    TotalIsPayloadLength(blocks[..n], narrow);
    TotalIsPayloadLength(blocks[..n + 1], narrow);
    assert Payload(blocks, narrow) == Payload(shorter, narrow) + BlockBytes(last, narrow);
    if n < |blocks| - 1 {
      assert shorter[..n] == blocks[..n] && shorter[..n + 1] == blocks[..n + 1] && shorter[n] == blocks[n];
      BlocksAreAdjacent(shorter, narrow, n);
      var from := TotalLength(blocks[..n]);
      SliceOfFirst(Payload(shorter, narrow), BlockBytes(last, narrow), from, from + BlockLength(blocks[n]));
    } else {
      assert blocks[..n + 1] == blocks && blocks[..n] == shorter;
      AllOfSecond(Payload(shorter, narrow), BlockBytes(last, narrow));
    }
  }

  lemma SliceOfFirst(a: seq<Byte>, b: seq<Byte>, from: nat, until: nat)
    requires from <= until <= |a|
    ensures (a + b)[from..until] == a[from..until]
  {}

  lemma AllOfSecond(a: seq<Byte>, b: seq<Byte>)
    ensures (a + b)[|a|..|a| + |b|] == b
  {}

  // ---------- reading weights back ----------

  function FromLittleEndian(s: seq<Byte>): Word
    requires |s| == 4
  {
    var a: int, b: int, c: int, d: int := s[0], s[1], s[2], s[3];
    a + 256 * b + 65536 * c + 16777216 * d
  }

  lemma LittleEndianReadsBack(w: Word)
    ensures FromLittleEndian(LittleEndian(w)) == w
  {
    assert w / 65536 / 256 == w / 16777216;
  }

  /** The weight of one row and column of an eight-bit block whose bytes begin at `from`: its code times the scale
      of its row. */
  function Decoded(bytes: seq<Byte>, from: nat, rows: nat, columns: nat, r: nat, c: nat): real
    requires r < rows && c < columns && from + rows * columns + 4 * rows <= |bytes|
  {
    RowsFit(r + 1, rows, columns);
    NextRow(r, columns);
    var scaleAt := from + rows * columns + 4 * r;
    FromByte(bytes[from + r * columns + c]) as real * Value(FromLittleEndian(bytes[scaleAt..scaleAt + 4]))
  }

  lemma RowsFit(r: nat, rows: nat, columns: nat)
    requires r <= rows
    ensures r * columns <= rows * columns
  {}

  lemma {:induction false} CodeAt(values: seq<Word>, rows: nat, columns: nat, narrow: Narrow, r: nat, c: nat)
    requires r < rows && c < columns && rows * columns <= |values|
    ensures 0 <= r * columns && r * columns + c < rows * columns && (r + 1) * columns <= |values|
    ensures var row := RowOf(values, columns, r);
      Codes(values, rows, columns, narrow)[r * columns + c] == Code(row[c], RowScale(row, narrow))
  {
    hide Code, RowScale;
    NextRow(rows - 1, columns);
    NextRow(r, columns);
    RowsFit(r + 1, rows, columns);
    if r < rows - 1 {
      CodeAt(values, rows - 1, columns, narrow, r, c);
    }
  }

  lemma {:induction false} ScaleAt(values: seq<Word>, rows: nat, columns: nat, narrow: Narrow, r: nat)
    requires r < rows && rows * columns <= |values|
    ensures 0 <= r * columns && (r + 1) * columns <= |values|
    ensures Scales(values, rows, columns, narrow)[4 * r..4 * r + 4]
      == LittleEndian(RowScale(RowOf(values, columns, r), narrow))
  {
    hide LittleEndian, RowScale;
    NextRow(rows - 1, columns);
    NextRow(r, columns);
    RowsFit(r + 1, rows, columns);
    if r < rows - 1 {
      ScaleAt(values, rows - 1, columns, narrow, r);
    }
  }

  /** What a block's bytes decode to: each weight quantized with the binary32 scale of its row. */
  lemma BlockDecodes(b: Block, narrow: Narrow, r: nat, c: nat)
    requires Shaped(b) && b.storage.Q8? && r < b.rows && c < b.columns
    ensures 0 <= r * b.columns && (r + 1) * b.columns <= |b.values|
    ensures b.rows * b.columns + 4 * b.rows <= |BlockBytes(b, narrow)|
    ensures var row := RowOf(b.values, b.columns, r);
      var scale := Value(RowScale(row, narrow));
      Decoded(BlockBytes(b, narrow), 0, b.rows, b.columns, r, c) == Quantize(Value(row[c]), scale) as real * scale
  {
    hide Codes, Scales, RowScale, LittleEndian, FromLittleEndian, Value, Quantize, HalfBytes, ToByte, FromByte;
    RowsFit(r + 1, b.rows, b.columns);
    NextRow(r, b.columns);
    CodeAt(b.values, b.rows, b.columns, narrow, r, c);
    ScaleAt(b.values, b.rows, b.columns, narrow, r);
    var row := RowOf(b.values, b.columns, r);
    var scale := RowScale(row, narrow);
    LittleEndianReadsBack(scale);
    QuantizeInRange(Value(row[c]), Value(scale));
    var codes, scales := Codes(b.values, b.rows, b.columns, narrow), Scales(b.values, b.rows, b.columns, narrow);
    var bytes := BlockBytes(b, narrow);
    assert bytes[r * b.columns + c] == codes[r * b.columns + c];
    assert bytes[|codes| + 4 * r..|codes| + 4 * r + 4] == scales[4 * r..4 * r + 4];
  }

  /** A relative error of at most 2^-24, as binary32 gives a scale in its normal range. */
  ghost predicate Near(x: real, wanted: real) {
    Abs(x - wanted) * 16777216.0 <= wanted
  }

  /** A weight and the scale of its row. */
  ghost predicate WithinHalfAScale(decoded: real, b: Block, narrow: Narrow, r: nat, c: nat)
    requires c < b.columns && (r + 1) * b.columns <= |b.values|
  {
    var row := RowOf(b.values, b.columns, r);
    Abs(decoded - Value(row[c])) <= 0.5 * Value(RowScale(row, narrow))
  }

  ghost predicate ScaleIsNear(b: Block, narrow: Narrow, r: nat)
    requires (r + 1) * b.columns <= |b.values|
  {
    var row := RowOf(b.values, b.columns, r);
    Near(Value(RowScale(row, narrow)), WantedScale(Values(row)))
  }

  lemma BlockDecodesNear(b: Block, narrow: Narrow, r: nat, c: nat)
    requires Shaped(b) && b.storage.Q8? && r < b.rows && c < b.columns
    requires (r + 1) * b.columns <= |b.values| && ScaleIsNear(b, narrow, r)
    ensures b.rows * b.columns + 4 * b.rows <= |BlockBytes(b, narrow)|
    ensures WithinHalfAScale(Decoded(BlockBytes(b, narrow), 0, b.rows, b.columns, r, c), b, narrow, r, c)
  {
    hide BlockBytes, Decoded, RowScale, Value, Quantize, WantedScale, Near, Values;
    BlockDecodes(b, narrow, r, c);
    var row := RowOf(b.values, b.columns, r);
    WeightInRow(row, c);
    NearIsEnough(Values(row), Value(RowScale(row, narrow)), Value(row[c]));
  }

  /** Every weight of every eight-bit block, read back from the payload where its block lies, is within half of
      its row's scale, when that scale is near the one the row asks for. */
  lemma PayloadDecodes(blocks: seq<Block>, narrow: Narrow, n: nat, r: nat, c: nat)
    requires n < |blocks| && forall b <- blocks :: Shaped(b)
    requires blocks[n].storage.Q8? && r < blocks[n].rows && c < blocks[n].columns
    requires (r + 1) * blocks[n].columns <= |blocks[n].values| && ScaleIsNear(blocks[n], narrow, r)
    ensures var b, from := blocks[n], TotalLength(blocks[..n]);
      && 0 <= from && from + b.rows * b.columns + 4 * b.rows <= |Payload(blocks, narrow)|
      && WithinHalfAScale(Decoded(Payload(blocks, narrow), from, b.rows, b.columns, r, c), b, narrow, r, c)
  {
    hide *;
    var b, from := blocks[n], TotalLength(blocks[..n]);
    BlocksAreAdjacent(blocks, narrow, n);
    assert Shaped(b);
    BlockDecodesNear(b, narrow, r, c);
    SameWeight(Payload(blocks, narrow), from, BlockBytes(b, narrow), b.rows, b.columns, r, c);
  }

  lemma WeightInRow(row: seq<Word>, c: nat)
    requires c < |row|
    ensures Value(row[c]) in Values(row)
  {
    hide Value;
    assert Values(row)[c] == Value(row[c]);
  }

  lemma SameWeight(bytes: seq<Byte>, from: nat, block: seq<Byte>, rows: nat, columns: nat, r: nat, c: nat)
    requires r < rows && c < columns && 0 <= rows * columns && rows * columns + 4 * rows <= |block|
    requires from + |block| <= |bytes| && bytes[from..from + |block|] == block
    ensures Decoded(bytes, from, rows, columns, r, c) == Decoded(block, 0, rows, columns, r, c)
  {
    hide Value, FromByte, FromLittleEndian;
    RowsFit(r + 1, rows, columns);
    NextRow(r, columns);
    var at, scaleAt := r * columns + c, rows * columns + 4 * r;
    assert bytes[from + at] == block[at];
    SliceOfSlice(bytes, from, |block|, scaleAt, 4);
  }

  lemma SliceOfSlice(bytes: seq<Byte>, from: nat, length: nat, at: nat, n: nat)
    requires from + length <= |bytes| && at + n <= length
    ensures bytes[from..from + length][at..at + n] == bytes[from + at..from + at + n]
  {
    var x, y := bytes[from..from + length][at..at + n], bytes[from + at..from + at + n];
    assert forall k | 0 <= k < n :: x[k] == bytes[from + at + k] == y[k];
  }

  lemma NearIsEnough(row: seq<real>, scale: real, v: real)
    requires v in row && Near(scale, WantedScale(row))
    ensures Abs(Quantize(v, scale) as real * scale - v) <= 0.5 * scale
  {
    hide Quantize;
    var wanted := WantedScale(row);
    assert 0.0 < wanted;
    RowIsFaithful(row, scale, v);
  }

  // ---------- the encoder ----------

  function Spliced(s: seq<Byte>, at: nat, data: seq<Byte>): seq<Byte>
    requires at + |data| <= |s|
  {
    s[..at] + data + s[at + |data|..]
  }

  /** Splicing twice in a row is splicing once. */
  lemma SpliceOn(s: seq<Byte>, at: nat, a: seq<Byte>, b: seq<Byte>)
    requires at + |a| + |b| <= |s|
    ensures Spliced(Spliced(s, at, a), at + |a|, b) == Spliced(s, at, a + b)
  {}

  method EncodeF16(values: seq<Word>, bytes: array<Byte>, start: nat) returns (offset: nat)
    requires start + 2 * |values| <= bytes.Length
    modifies bytes
    ensures offset == start + 2 * |values|
    ensures bytes[..] == Spliced(old(bytes[..]), start, HalfBytes(values))
  {
    hide FloatToHalf, HalfPair;
    offset := start;
    for k := 0 to |values|
      invariant offset == start + 2 * k
      invariant bytes[..] == Spliced(old(bytes[..]), start, HalfBytes(values[..k]))
    {
      EncodeHalf(values[k], bytes, offset);
      assert values[..k + 1][..k] == values[..k];
      SpliceOn(old(bytes[..]), start, HalfBytes(values[..k]), HalfPair(values[k]));
      offset := offset + 2;
    }
    assert values[..|values|] == values;
  }

  method EncodeHalf(w: Word, bytes: array<Byte>, at: nat)
    requires at + 2 <= bytes.Length
    modifies bytes
    ensures bytes[..] == Spliced(old(bytes[..]), at, HalfPair(w))
  {
    hide FloatToHalf;
    HalfFits(w);
    var half := FloatToHalf(w);
    bytes[at] := half % 256;
    bytes[at + 1] := half / 256;
  }

  /** The weights of one row, written at `at`. */
  method EncodeRow(row: seq<Word>, scale: Word, bytes: array<Byte>, at: nat)
    requires at + |row| <= bytes.Length
    modifies bytes
    ensures bytes[..] == Spliced(old(bytes[..]), at, RowCodes(row, scale))
  {
    hide Code, Spliced;
    ghost var codes := RowCodes(row, scale);
    SpliceNothing(bytes[..], at);
    for column := 0 to |row|
      invariant bytes[..] == Spliced(old(bytes[..]), at, codes[..column])
    {
      ghost var before := bytes[..];
      bytes[at + column] := Code(row[column], scale);
      SpliceOne(old(bytes[..]), before, bytes[..], at, codes[..column], Code(row[column], scale));
      assert codes[..column + 1] == codes[..column] + [Code(row[column], scale)];
    }
    assert codes[..|row|] == codes;
  }

  lemma SpliceNothing(s: seq<Byte>, at: nat)
    requires at <= |s|
    ensures Spliced(s, at, []) == s
  {}

  lemma SpliceOne(initial: seq<Byte>, before: seq<Byte>, after: seq<Byte>, at: nat, data: seq<Byte>, next: Byte)
    requires at + |data| < |initial| && before == Spliced(initial, at, data)
    requires after == before[at + |data| := next]
    ensures after == Spliced(initial, at, data + [next])
  {}

  method EncodeScale(scale: Word, bytes: array<Byte>, at: nat)
    requires at + 4 <= bytes.Length
    modifies bytes
    ensures bytes[..] == Spliced(old(bytes[..]), at, LittleEndian(scale))
  {
    bytes[at] := scale % 256;
    bytes[at + 1] := scale / 256 % 256;
    bytes[at + 2] := scale / 65536 % 256;
    bytes[at + 3] := scale / 16777216;
  }

  /** The buffer with `codes` at `start`, `scales` `n` bytes further on, and the rest as before. */
  ghost predicate Laid(now: seq<Byte>, before: seq<Byte>, start: nat, n: nat, codes: seq<Byte>, scales: seq<Byte>)
    requires |codes| <= n && start + n + |scales| <= |before|
  {
    now == before[..start] + codes + before[start + |codes|..start + n] + scales + before[start + n + |scales|..]
  }

  /** A weight row and its scale, written into the two growing regions of one buffer. */
  lemma LayBoth(
    initial: seq<Byte>, before: seq<Byte>, middle: seq<Byte>, after: seq<Byte>, start: nat, n: nat,
    codes: seq<Byte>, scales: seq<Byte>, row: seq<Byte>, scale: seq<Byte>)
    requires |codes| + |row| <= n && start + n + |scales| + |scale| <= |initial|
    requires Laid(before, initial, start, n, codes, scales)
    requires middle == Spliced(before, start + n + |scales|, scale)
    requires after == Spliced(middle, start + |codes|, row)
    ensures Laid(after, initial, start, n, codes + row, scales + scale)
  {
    hide Laid, Spliced;
    LayScale(initial, before, middle, start, n, codes, scales, scale);
    LayRow(initial, middle, after, start, n, codes, scales + scale, row);
  }

  lemma LayScale(
    initial: seq<Byte>, before: seq<Byte>, after: seq<Byte>, start: nat, n: nat,
    codes: seq<Byte>, scales: seq<Byte>, scale: seq<Byte>)
    requires |codes| <= n && start + n + |scales| + |scale| <= |initial|
    requires Laid(before, initial, start, n, codes, scales)
    requires after == Spliced(before, start + n + |scales|, scale)
    ensures Laid(after, initial, start, n, codes, scales + scale) && |after| == |initial|
  {}

  lemma LayRow(
    initial: seq<Byte>, before: seq<Byte>, after: seq<Byte>, start: nat, n: nat,
    codes: seq<Byte>, scales: seq<Byte>, row: seq<Byte>)
    requires |codes| + |row| <= n && start + n + |scales| <= |initial|
    requires Laid(before, initial, start, n, codes, scales)
    requires after == Spliced(before, start + |codes|, row)
    ensures Laid(after, initial, start, n, codes + row, scales)
  {}

  /** One row and its scale. */
  method EncodeQ8Row(
    row: seq<Word>, narrow: Narrow, bytes: array<Byte>, at: nat, scaleAt: nat,
    ghost initial: seq<Byte>, ghost start: nat, ghost n: nat, ghost codes: seq<Byte>, ghost scales: seq<Byte>)
    requires |codes| + |row| <= n && start + n + |scales| + 4 <= |initial| == bytes.Length
    requires at == start + |codes| && scaleAt == start + n + |scales|
    requires Laid(bytes[..], initial, start, n, codes, scales)
    modifies bytes
    ensures Laid(bytes[..], initial, start, n, codes + RowCodes(row, RowScale(row, narrow)),
                 scales + LittleEndian(RowScale(row, narrow)))
  {
    hide RowCodes, LittleEndian, RowScale;
    var scale := RowScale(row, narrow);
    ghost var before := bytes[..];
    EncodeScale(scale, bytes, scaleAt);
    ghost var middle := bytes[..];
    EncodeRow(row, scale, bytes, at);
    LayBoth(initial, before, middle, bytes[..], start, n, codes, scales, RowCodes(row, scale), LittleEndian(scale));
  }

  method EncodeQ8Rows(values: seq<Word>, rows: nat, columns: nat, narrow: Narrow, bytes: array<Byte>, start: nat)
    returns (offset: nat)
    requires |values| == rows * columns
    requires start + |values| + 4 * rows <= bytes.Length
    modifies bytes
    ensures offset == start + |values| + 4 * rows
    ensures bytes[..] == Spliced(old(bytes[..]), start,
                                 Codes(values, rows, columns, narrow) + Scales(values, rows, columns, narrow))
  {
    hide RowCodes, LittleEndian, RowScale, Codes, Scales, Laid;
    var scalesOffset := start + |values|;
    NoRows(values, columns, narrow);
    LaidNothing(bytes[..], start, |values|);
    for r := 0 to rows
      invariant r * columns <= |values|
      invariant Laid(bytes[..], old(bytes[..]), start, |values|, Codes(values, r, columns, narrow),
        Scales(values, r, columns, narrow))
    {
      NextRow(r, columns);
      RowsFit(r + 1, rows, columns);
      OneRowMore(values, columns, r, narrow);
      EncodeQ8Row(RowOf(values, columns, r), narrow, bytes, start + r * columns, scalesOffset + 4 * r,
                  old(bytes[..]), start, |values|, Codes(values, r, columns, narrow),
                    Scales(values, r, columns, narrow));
    }
    LaidAll(bytes[..], old(bytes[..]), start, |values|, Codes(values, rows, columns, narrow),
      Scales(values, rows, columns, narrow));
    offset := scalesOffset + rows * 4;
  }

  lemma LaidNothing(now: seq<Byte>, start: nat, n: nat)
    requires start + n <= |now|
    ensures Laid(now, now, start, n, [], [])
  {}

  lemma LaidAll(now: seq<Byte>, before: seq<Byte>, start: nat, n: nat, codes: seq<Byte>, scales: seq<Byte>)
    requires |codes| == n && start + n + |scales| <= |before| && Laid(now, before, start, n, codes, scales)
    ensures now == Spliced(before, start, codes + scales)
  {}

  lemma NoRows(values: seq<Word>, columns: nat, narrow: Narrow)
    ensures 0 * columns == 0
    ensures Codes(values, 0, columns, narrow) == [] && Scales(values, 0, columns, narrow) == []
  {}

  lemma OneRowMore(values: seq<Word>, columns: nat, r: nat, narrow: Narrow)
    requires r * columns <= (r + 1) * columns <= |values|
    ensures var row := RowOf(values, columns, r); var scale := RowScale(row, narrow);
      && Codes(values, r + 1, columns, narrow) == Codes(values, r, columns, narrow) + RowCodes(row, scale)
      && Scales(values, r + 1, columns, narrow) == Scales(values, r, columns, narrow) + LittleEndian(scale)
  {
    hide RowCodes, LittleEndian, RowScale;
  }

  datatype Result<T> = Ok(value: T) | SizeMismatch

  /** One block, written at `start`. */
  method EncodeBlock(b: Block, narrow: Narrow, bytes: array<Byte>, start: nat) returns (offset: nat)
    requires Shaped(b) && start + |BlockBytes(b, narrow)| <= bytes.Length
    modifies bytes
    ensures offset == start + |BlockBytes(b, narrow)|
    ensures bytes[..] == Spliced(old(bytes[..]), start, BlockBytes(b, narrow))
  {
    hide BlockBytes, Codes, Scales, HalfBytes;
    ghost var weights := BlockParts(b, narrow);
    if b.storage.Q8? {
      offset := EncodeQ8Rows(b.values, b.rows, b.columns, narrow, bytes, start);
    } else {
      offset := EncodeF16(b.values, bytes, start);
    }
    SpliceOn(old(bytes[..]), start, weights, HalfBytes(b.bias));
    offset := EncodeF16(b.bias, bytes, offset);
  }

  lemma BlockParts(b: Block, narrow: Narrow) returns (weights: seq<Byte>)
    requires Shaped(b)
    ensures weights == if b.storage.Q8?
                       then Codes(b.values, b.rows, b.columns, narrow) + Scales(b.values, b.rows, b.columns, narrow)
                       else HalfBytes(b.values)
    ensures BlockBytes(b, narrow) == weights + HalfBytes(b.bias)
    ensures |weights| == if b.storage.Q8? then |b.values| + 4 * b.rows else 2 * |b.values|
  {
    weights := if b.storage.Q8?
               then Codes(b.values, b.rows, b.columns, narrow) + Scales(b.values, b.rows, b.columns, narrow)
               else HalfBytes(b.values);
  }

  /** Encode every block into a buffer of the precomputed length. The size check never fires. */
  method Encode(blocks: seq<Block>, narrow: Narrow) returns (r: Result<array<Byte>>)
    requires forall b <- blocks :: Shaped(b)
    ensures r.Ok? && fresh(r.value) && r.value[..] == Payload(blocks, narrow)
  {
    hide BlockBytes, TotalLength;
    TotalIsPayloadLength(blocks, narrow);
    var bytes := new Byte[TotalLength(blocks)](_ => 0);
    var offset := 0;
    assert blocks[..0] == [];
    for n := 0 to |blocks|
      invariant offset == |Payload(blocks[..n], narrow)| <= bytes.Length
      invariant bytes[..offset] == Payload(blocks[..n], narrow)
    {
      assert blocks[..n + 1][..n] == blocks[..n];
      PrefixFits(blocks, narrow, n + 1);
      offset := EncodeBlock(blocks[n], narrow, bytes, offset);
    }
    assert blocks[..|blocks|] == blocks;
    if offset != bytes.Length { return SizeMismatch; }
    assert bytes[..offset] == bytes[..];
    r := Ok(bytes);
  }

  lemma {:induction false} PrefixFits(blocks: seq<Block>, narrow: Narrow, n: nat)
    requires n <= |blocks| && forall b <- blocks :: Shaped(b)
    ensures |Payload(blocks[..n], narrow)| <= |Payload(blocks, narrow)|
    decreases |blocks| - n
  {
    if n < |blocks| {
      assert blocks[..n + 1][..n] == blocks[..n];
      PrefixFits(blocks, narrow, n + 1);
    } else {
      assert blocks[..n] == blocks;
    }
  }
}
