/** The runtime loads what the exporter writes (tools/go-export-model.ts against
 * shared/strategy/go/neural/artifact.ts). */
module ArtifactRoundTrip {
  import opened ArtifactLayout
  import opened HalfFloat
  import opened HalfWidening
  import opened RowQuantization
  import Layout = ArtifactLayout
  import Loader = ArtifactLoader

  // ---------- bytes that go on are read alike ----------

  lemma {:induction false} RowsExtend(bytes: seq<Byte>, more: seq<Byte>, at: nat, scales: nat, rows: nat, columns: nat,
      narrow: Narrow)
    requires at + Loader.Entries(rows, columns) <= |bytes| && scales + 4 * rows <= |bytes|
    ensures Loader.RowsAt(bytes + more, at, scales, rows, columns, narrow)
      == Loader.RowsAt(bytes, at, scales, rows, columns, narrow)
    ensures forall r: nat | r < rows :: Loader.Scale(bytes + more, scales, r) == Loader.Scale(bytes, scales, r)
  {
    hide FromLittleEndian, Loader.Expanded;
    if rows > 0 {
      NextRow(rows - 1, columns);
      RowsExtend(bytes, more, at, scales, rows - 1, columns, narrow);
      var last := scales + 4 * (rows - 1);
      assert (bytes + more)[last..last + 4] == bytes[last..last + 4];
    }
  }

  lemma TensorExtends(bytes: seq<Byte>, more: seq<Byte>, at: nat, s: Loader.Shape, narrow: Narrow)
    requires at + Loader.Size(s) <= |bytes|
    ensures Loader.TensorAt(bytes + more, at, s, narrow) == Loader.TensorAt(bytes, at, s, narrow)
  {
    hide Loader.RowsAt, Loader.Scale, Loader.GoodScale, Widened;
    if s.Rows? {
      RowsExtend(bytes, more, at, at + Loader.Count(s), s.rows, s.columns, narrow);
    } else {
      assert Loader.HalvesAt(bytes + more, at, s.count) == Loader.HalvesAt(bytes, at, s.count);
    }
  }

  lemma {:induction false} ReadingExtends(bytes: seq<Byte>, more: seq<Byte>, plan: seq<Loader.Shape>, narrow: Narrow)
    requires Loader.Sizes(plan) <= |bytes|
    ensures Loader.Reading(bytes + more, plan, narrow) == Loader.Reading(bytes, plan, narrow)
  {
    hide Loader.TensorAt, Loader.Size;
    if plan != [] {
      var shorter, last := plan[..|plan| - 1], plan[|plan| - 1];
      ReadingExtends(bytes, more, shorter, narrow);
      TensorExtends(bytes, more, Loader.Sizes(shorter), last, narrow);
    }
  }

  // ---------- one block ----------

  /** The weights of the first `rows` rows as the runtime holds them. */
  function Requantized(values: seq<Word>, rows: nat, columns: nat, narrow: Narrow): (t: seq<Word>)
    requires Loader.Entries(rows, columns) <= |values|
    ensures |t| == Loader.Entries(rows, columns)
  {
    if rows == 0 then []
    else
      NextRow(rows - 1, columns);
      Requantized(values, rows - 1, columns, narrow) + RequantizedRow(RowOf(values, columns, rows - 1), narrow)
  }

  function RequantizedRow(row: seq<Word>, narrow: Narrow): (t: seq<Word>)
    ensures |t| == |row|
  {
    var scale := RowScale(row, narrow);
    seq<Word>(|row|, c requires 0 <= c < |row| => Loader.Expanded(Layout.Code(row[c], scale), scale, narrow))
  }

  /** Words sent through a half and back. */
  function Rehalved(words: seq<Word>): (t: seq<Word>)
    ensures |t| == |words|
  {
    seq<Word>(|words|, k requires 0 <= k < |words| => Rehalf(words[k]))
  }

  function Rehalf(w: Word): Word {
    HalfFits(w);
    Widened(FloatToHalf(w))
  }

  /** The scale one row of a tensor is stored with. */
  function ScaleOf(values: seq<Word>, rows: nat, columns: nat, r: nat, narrow: Narrow): Word
    requires r < rows && Loader.Entries(rows, columns) <= |values|
  {
    RowsFit(r + 1, rows, columns);
    RowScale(RowOf(values, columns, r), narrow)
  }

  /** The first `rows` scales stored are those of their rows. */
  ghost predicate ScalesAre(bytes: seq<Byte>, scales: nat, values: seq<Word>, rows: nat, columns: nat, narrow: Narrow)
    requires Loader.Entries(rows, columns) <= |values| && scales + 4 * rows <= |bytes|
  {
    forall r: nat | r < rows :: Loader.Scale(bytes, scales, r) == ScaleOf(values, rows, columns, r, narrow)
  }

  lemma FewerScales(bytes: seq<Byte>, scales: nat, values: seq<Word>, rows: nat, columns: nat, narrow: Narrow)
    requires 0 < rows && Loader.Entries(rows, columns) <= |values| && scales + 4 * rows <= |bytes|
    requires ScalesAre(bytes, scales, values, rows, columns, narrow)
    ensures Loader.Entries(rows - 1, columns) + columns == Loader.Entries(rows, columns)
    ensures ScalesAre(bytes, scales, values, rows - 1, columns, narrow)
    ensures Loader.Scale(bytes, scales, rows - 1) == RowScale(RowOf(values, columns, rows - 1), narrow)
  {
    hide RowScale, Loader.Scale;
    NextRow(rows - 1, columns);
    forall r: nat | r < rows - 1
      ensures Loader.Scale(bytes, scales, r) == ScaleOf(values, rows - 1, columns, r, narrow)
    {
      assert Loader.Scale(bytes, scales, r) == ScaleOf(values, rows, columns, r, narrow);
    }
    assert Loader.Scale(bytes, scales, rows - 1) == ScaleOf(values, rows, columns, rows - 1, narrow);
  }

  lemma {:induction false} RowsReadBack(bytes: seq<Byte>, at: nat, values: seq<Word>, rows: nat, columns: nat,
      scales: nat, narrow: Narrow)
    requires Loader.Entries(rows, columns) <= |values|
    requires at + Loader.Entries(rows, columns) <= |bytes| && scales + 4 * rows <= |bytes|
    requires bytes[at..at + Loader.Entries(rows, columns)] == Layout.Codes(values, rows, columns, narrow)
    requires ScalesAre(bytes, scales, values, rows, columns, narrow)
    ensures Loader.RowsAt(bytes, at, scales, rows, columns, narrow) == Requantized(values, rows, columns, narrow)
  {
    hide RowScale, Layout.Code, Loader.Expanded, Loader.Scale, ScalesAre, RowCodes, RequantizedRow, RowOf, Loader.RowAt;
    if rows > 0 {
      var n := Loader.Entries(rows - 1, columns);
      FewerScales(bytes, scales, values, rows, columns, narrow);
      var row := RowOf(values, columns, rows - 1);
      var before := Layout.Codes(values, rows - 1, columns, narrow);
      FirstOf(bytes[at..at + n + columns], before, RowCodes(row, RowScale(row, narrow)), bytes, at);
      RowsReadBack(bytes, at, values, rows - 1, columns, scales, narrow);
      RowReadsBack(bytes, at + n, row, RowScale(row, narrow), narrow);
    }
  }

  /** A stretch that is two joined, cut in two. */
  lemma FirstOf(stretch: seq<Byte>, a: seq<Byte>, b: seq<Byte>, bytes: seq<Byte>, at: nat)
    requires stretch == a + b && at + |a| + |b| <= |bytes| && bytes[at..at + |a| + |b|] == stretch
    ensures bytes[at..at + |a|] == a && bytes[at + |a|..at + |a| + |b|] == b
  {
    assert bytes[at..at + |a|] == stretch[..|a|];
    assert bytes[at + |a|..at + |a| + |b|] == stretch[|a|..];
  }

  lemma {:induction false} ScalesReadBack(bytes: seq<Byte>, scales: nat, values: seq<Word>, rows: nat, columns: nat,
      narrow: Narrow)
    requires Loader.Entries(rows, columns) <= |values| && scales + 4 * rows <= |bytes|
    requires bytes[scales..scales + 4 * rows] == Scales(values, rows, columns, narrow)
    ensures ScalesAre(bytes, scales, values, rows, columns, narrow)
  {
    hide RowScale, LittleEndian, Loader.Scale;
    if rows > 0 {
      NextRow(rows - 1, columns);
      var scale := ScaleOf(values, rows, columns, rows - 1, narrow);
      assert bytes[scales..scales + 4 * (rows - 1)] == bytes[scales..scales + 4 * rows][..4 * (rows - 1)]
        == Scales(values, rows - 1, columns, narrow);
      ScalesReadBack(bytes, scales, values, rows - 1, columns, narrow);
      LastScale(bytes, scales, rows - 1, Scales(values, rows - 1, columns, narrow), scale);
      forall r: nat | r < rows ensures Loader.Scale(bytes, scales, r) == ScaleOf(values, rows, columns, r, narrow) {
        if r < rows - 1 {
          assert ScaleOf(values, rows, columns, r, narrow) == ScaleOf(values, rows - 1, columns, r, narrow);
        }
      }
    }
  }

  lemma LastScale(bytes: seq<Byte>, scales: nat, r: nat, before: seq<Byte>, scale: Word)
    requires |before| == 4 * r && scales + 4 * r + 4 <= |bytes|
    requires bytes[scales..scales + 4 * (r + 1)] == before + LittleEndian(scale)
    ensures Loader.Scale(bytes, scales, r) == scale
  {
    hide LittleEndian, FromLittleEndian;
    var marks := bytes[scales..scales + 4 * (r + 1)];
    assert bytes[scales + 4 * r..scales + 4 * r + 4] == marks[4 * r..] == LittleEndian(scale);
    LittleEndianReadsBack(scale);
  }

  lemma RowReadsBack(bytes: seq<Byte>, at: nat, row: seq<Word>, scale: Word, narrow: Narrow)
    requires at + |row| <= |bytes| && bytes[at..at + |row|] == RowCodes(row, scale)
    requires scale == RowScale(row, narrow)
    ensures Loader.RowAt(bytes, at, |row|, scale, narrow) == RequantizedRow(row, narrow)
  {
    hide RowScale, Layout.Code, Loader.Expanded;
    forall c | 0 <= c < |row| ensures bytes[at + c] == Layout.Code(row[c], scale) {
      assert bytes[at..at + |row|][c] == bytes[at + c];
    }
  }

  lemma {:induction false} HalvesReadBack(bytes: seq<Byte>, at: nat, words: seq<Word>)
    requires at + 2 * |words| <= |bytes| && bytes[at..at + 2 * |words|] == HalfBytes(words)
    ensures Loader.HalvesAt(bytes, at, |words|) == Rehalved(words)
  {
    hide FloatToHalf, Widened, HalfPair, Rehalf, Rehalved, Loader.HalvesAt;
    if words == [] {
      NoHalves(bytes, at);
    } else {
      var n := |words| - 1;
      FirstOf(bytes[at..at + 2 * |words|], HalfBytes(words[..n]), HalfPair(words[n]), bytes, at);
      HalvesReadBack(bytes, at, words[..n]);
      HalfPairReadsBack(bytes, at + 2 * n, words[n]);
      OneHalfMore(bytes, at, words);
    }
  }

  lemma NoHalves(bytes: seq<Byte>, at: nat)
    requires at <= |bytes|
    ensures Loader.HalvesAt(bytes, at, 0) == Rehalved([])
  {
  }

  lemma OneHalfMore(bytes: seq<Byte>, at: nat, words: seq<Word>)
    requires words != [] && at + 2 * |words| <= |bytes|
    ensures var n := |words| - 1;
      Loader.HalvesAt(bytes, at, n + 1) == Loader.HalvesAt(bytes, at, n) + [Widened(Loader.HalfAt(bytes, at + 2 * n))]
    ensures var n := |words| - 1;
      Rehalved(words) == Rehalved(words[..n]) + [Rehalf(words[n])]
  {
    hide Rehalf, Widened;
  }

  lemma HalfPairReadsBack(bytes: seq<Byte>, at: nat, w: Word)
    requires at + 2 <= |bytes| && bytes[at..at + 2] == HalfPair(w)
    ensures Widened(Loader.HalfAt(bytes, at)) == Rehalf(w)
  {
    hide FloatToHalf, Widened;
    HalfFits(w);
    var pair := bytes[at..at + 2];
    assert bytes[at] == pair[0] && bytes[at + 1] == pair[1];
  }

  /** How a block's weights are stored. */
  function Weighed(b: Block): Loader.Shape {
    if b.storage.Q8? then Loader.Rows(b.rows, b.columns) else Loader.Halves(|b.values|)
  }

  /** What a block adds to the plan: its weights, and its bias unless it has none. */
  function Stored(b: Block): seq<Loader.Shape> {
    [Weighed(b)] + if b.bias == [] then [] else [Loader.Halves(|b.bias|)]
  }

  /** What the runtime holds of a block's weights. */
  function Restored(b: Block, narrow: Narrow): (t: seq<Word>)
    requires Shaped(b)
  {
    if b.storage.Q8? then Requantized(b.values, b.rows, b.columns, narrow) else Rehalved(b.values)
  }

  function Tensors(b: Block, narrow: Narrow): seq<seq<Word>>
    requires Shaped(b)
  {
    [Restored(b, narrow)] + if b.bias == [] then [] else [Rehalved(b.bias)]
  }

  /** Every row of an eight-bit block has a scale the loader accepts. */
  ghost predicate Scaled(b: Block, narrow: Narrow)
    requires Shaped(b)
  {
    b.storage.Q8? ==>
      forall r: nat | r < b.rows :: Loader.GoodScale(ScaleOf(b.values, b.rows, b.columns, r, narrow))
  }

  lemma RowBlockReadsBack(before: seq<Byte>, b: Block, narrow: Narrow)
    requires Shaped(b) && b.storage.Q8?
    ensures Loader.TensorAt(before + BlockBytes(b, narrow), |before|, Weighed(b), narrow)
      == if Scaled(b, narrow) then Loader.Read(Restored(b, narrow)) else Loader.Failed(Loader.InvalidScale)
  {
    hide Layout.Codes, Scales, HalfBytes, Loader.RowsAt, Requantized, Loader.GoodScale, Loader.Scale, ScaleOf;
    var (bytes, at, n) := (before + BlockBytes(b, narrow), |before|, Loader.Entries(b.rows, b.columns));
    var (codes, marks) := (Layout.Codes(b.values, b.rows, b.columns, narrow),
                           Scales(b.values, b.rows, b.columns, narrow));
    assert bytes[at..at + n] == codes;
    assert bytes[at + n..at + n + 4 * b.rows] == marks;
    ScalesReadBack(bytes, at + n, b.values, b.rows, b.columns, narrow);
    RowsReadBack(bytes, at, b.values, b.rows, b.columns, at + n, narrow);
  }

  lemma WeightsReadBack(before: seq<Byte>, b: Block, narrow: Narrow)
    requires Shaped(b)
    ensures Loader.TensorAt(before + BlockBytes(b, narrow), |before|, Weighed(b), narrow)
      == if Scaled(b, narrow) then Loader.Read(Restored(b, narrow)) else Loader.Failed(Loader.InvalidScale)
    ensures |BlockBytes(b, narrow)| == Loader.Size(Weighed(b)) + 2 * |b.bias|
  {
    hide Layout.Codes, Scales, HalfBytes, Loader.HalvesAt, Rehalved, Requantized;
    if b.storage.Q8? {
      RowBlockReadsBack(before, b, narrow);
    } else {
      var (bytes, at) := (before + BlockBytes(b, narrow), |before|);
      assert bytes[at..at + 2 * |b.values|] == HalfBytes(b.values);
      HalvesReadBack(bytes, at, b.values);
    }
  }

  lemma BiasReadsBack(before: seq<Byte>, b: Block, narrow: Narrow)
    requires Shaped(b)
    ensures Loader.TensorAt(before + BlockBytes(b, narrow), |before| + Loader.Size(Weighed(b)),
                            Loader.Halves(|b.bias|), narrow)
      == Loader.Read(Rehalved(b.bias))
  {
    hide Layout.Codes, Scales, HalfBytes, Loader.HalvesAt, Rehalved;
    var bytes := before + BlockBytes(b, narrow);
    var at := |before| + Loader.Size(Weighed(b));
    assert bytes[at..at + 2 * |b.bias|] == HalfBytes(b.bias);
    HalvesReadBack(bytes, at, b.bias);
  }

  // ---------- the whole payload ----------

  function AllStored(blocks: seq<Block>): seq<Loader.Shape> {
    if blocks == [] then [] else AllStored(blocks[..|blocks| - 1]) + Stored(blocks[|blocks| - 1])
  }

  function AllTensors(blocks: seq<Block>, narrow: Narrow): seq<seq<Word>>
    requires forall b <- blocks :: Shaped(b)
  {
    if blocks == [] then [] else AllTensors(blocks[..|blocks| - 1], narrow) + Tensors(blocks[|blocks| - 1], narrow)
  }

  ghost predicate AllScaled(blocks: seq<Block>, narrow: Narrow)
    requires forall b <- blocks :: Shaped(b)
  {
    forall b <- blocks :: Scaled(b, narrow)
  }

  lemma SizesAppend(plan: seq<Loader.Shape>, s: Loader.Shape)
    ensures Loader.Sizes(plan + [s]) == Loader.Sizes(plan) + Loader.Size(s)
  {
    assert (plan + [s])[..|plan|] == plan;
  }

  /** Reading one tensor more. */
  lemma ReadOneMore(bytes: seq<Byte>, plan: seq<Loader.Shape>, s: Loader.Shape, narrow: Narrow)
    ensures var (before, t) := (Loader.Reading(bytes, plan, narrow),
                                Loader.TensorAt(bytes, Loader.Sizes(plan), s, narrow));
      Loader.Reading(bytes, plan + [s], narrow)
      == if before.Failed? then before
         else if t.Failed? then Loader.Failed(t.error) else Loader.Read(before.value + [t.value])
  {
    hide Loader.TensorAt, Loader.Sizes;
    assert (plan + [s])[..|plan|] == plan;
  }

  /** A block after a payload already read. */
  lemma BlockReads(before: seq<Byte>, plan: seq<Loader.Shape>, tensors: seq<seq<Word>>, b: Block, narrow: Narrow)
    requires Shaped(b) && Loader.Sizes(plan) == |before|
    requires Loader.Reading(before, plan, narrow) == Loader.Read(tensors)
    ensures Loader.Sizes(plan + Stored(b)) == |before + BlockBytes(b, narrow)|
    ensures Loader.Reading(before + BlockBytes(b, narrow), plan + Stored(b), narrow)
      == if Scaled(b, narrow) then Loader.Read(tensors + Tensors(b, narrow)) else Loader.Failed(Loader.InvalidScale)
  {
    hide Loader.Reading, Loader.TensorAt, Loader.Sizes, Loader.Size, BlockBytes, Restored, Rehalved, Scaled, Weighed;
    var bytes := before + BlockBytes(b, narrow);
    ReadingExtends(before, BlockBytes(b, narrow), plan, narrow);
    WeightsReadBack(before, b, narrow);
    ReadOneMore(bytes, plan, Weighed(b), narrow);
    SizesAppend(plan, Weighed(b));
    if b.bias != [] {
      var bias := Loader.Halves(|b.bias|);
      BiasReadsBack(before, b, narrow);
      BiasSize(b);
      ReadOneMore(bytes, plan + [Weighed(b)], bias, narrow);
      SizesAppend(plan + [Weighed(b)], bias);
      assert plan + Stored(b) == plan + [Weighed(b)] + [bias];
      assert tensors + Tensors(b, narrow) == tensors + [Restored(b, narrow)] + [Rehalved(b.bias)];
    } else {
      assert plan + Stored(b) == plan + [Weighed(b)];
      assert tensors + Tensors(b, narrow) == tensors + [Restored(b, narrow)];
    }
  }

  lemma BiasSize(b: Block)
    ensures Loader.Size(Loader.Halves(|b.bias|)) == 2 * |b.bias|
  {
  }

  lemma FailedBefore(bytes: seq<Byte>, plan: seq<Loader.Shape>, more: seq<Loader.Shape>, narrow: Narrow)
    requires Loader.Reading(bytes, plan, narrow).Failed?
    ensures Loader.Reading(bytes, plan + more, narrow) == Loader.Reading(bytes, plan, narrow)
  {
    hide Loader.Reading;
    assert (plan + more)[..|plan|] == plan;
    Loader.FailureStays(bytes, plan + more, |plan|, narrow);
  }

  /** A payload reads back block by block: as its blocks' tensors if every eight-bit row has a usable scale, and as an
      invalid scale otherwise. */
  lemma {:induction false} PayloadReads(blocks: seq<Block>, narrow: Narrow)
    requires forall b <- blocks :: Shaped(b)
    ensures Loader.Sizes(AllStored(blocks)) == |Payload(blocks, narrow)|
    ensures Loader.Reading(Payload(blocks, narrow), AllStored(blocks), narrow)
      == if AllScaled(blocks, narrow) then Loader.Read(AllTensors(blocks, narrow))
         else Loader.Failed(Loader.InvalidScale)
  {
    hide BlockBytes, Stored, Tensors, Scaled, Loader.TensorAt, Shaped;
    if blocks != [] {
      var (shorter, last) := (blocks[..|blocks| - 1], blocks[|blocks| - 1]);
      assert blocks == shorter + [last];
      PayloadReads(shorter, narrow);
      ScaledMore(shorter, last, narrow);
      PayloadGrows(shorter, last, narrow);
      var (before, plan) := (Payload(shorter, narrow), AllStored(shorter));
      if AllScaled(shorter, narrow) {
        BlockReads(before, plan, AllTensors(shorter, narrow), last, narrow);
      } else {
        StoredSize(before, plan, last, narrow);
        ReadingExtends(before, BlockBytes(last, narrow), plan, narrow);
        FailedBefore(before + BlockBytes(last, narrow), plan, Stored(last), narrow);
      }
    }
  }

  lemma PayloadGrows(shorter: seq<Block>, last: Block, narrow: Narrow)
    requires Shaped(last) && forall b <- shorter :: Shaped(b)
    ensures var blocks := shorter + [last];
      && Payload(blocks, narrow) == Payload(shorter, narrow) + BlockBytes(last, narrow)
      && AllStored(blocks) == AllStored(shorter) + Stored(last)
      && AllTensors(blocks, narrow) == AllTensors(shorter, narrow) + Tensors(last, narrow)
  {
    hide BlockBytes, Stored, Tensors;
    assert (shorter + [last])[..|shorter|] == shorter;
  }

  lemma ScaledMore(shorter: seq<Block>, last: Block, narrow: Narrow)
    requires Shaped(last) && forall b <- shorter :: Shaped(b)
    ensures AllScaled(shorter + [last], narrow) <==> AllScaled(shorter, narrow) && Scaled(last, narrow)
  {
    hide Scaled, Shaped;
    if AllScaled(shorter + [last], narrow) {
      assert last in shorter + [last];
      forall b <- shorter ensures Scaled(b, narrow) { assert b in shorter + [last]; }
    }
  }

  lemma StoredSize(before: seq<Byte>, plan: seq<Loader.Shape>, b: Block, narrow: Narrow)
    requires Shaped(b) && Loader.Sizes(plan) == |before|
    ensures Loader.Sizes(plan + Stored(b)) == |before + BlockBytes(b, narrow)|
  {
    hide Loader.TensorAt, Loader.Sizes, Loader.Size, BlockBytes, Scaled, Weighed;
    WeightsReadBack(before, b, narrow);
    SizesAppend(plan, Weighed(b));
    if b.bias != [] {
      BiasSize(b);
      SizesAppend(plan + [Weighed(b)], Loader.Halves(|b.bias|));
      assert plan + Stored(b) == plan + [Weighed(b)] + [Loader.Halves(|b.bias|)];
    } else {
      assert plan + Stored(b) == plan + [Weighed(b)];
    }
  }
}
