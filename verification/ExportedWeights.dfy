/** Which weights the runtime holds of an exported checkpoint, tensor by tensor (tools/go-export-model.ts,
 * shared/strategy/go/neural/artifact.ts). Nothing here speaks of blocks, plans or offsets until the proofs. */
module ExportedWeights {
  import opened ArtifactLayout
  import opened ArtifactRoundTrip
  import opened GoOpponents
  import opened HalfFloat
  import opened HalfWidening
  import opened ModelExport
  import opened RowQuantization
  import opened Wrappers
  import C = CheckpointText
  import Layout = ArtifactLayout
  import Loader = ArtifactLoader
  import Rounding = ScaleRounding

  // ---------- two ways to keep a tensor ----------

  /** The tensor went through halves: every weight is a half of the word nearest the one in the checkpoint. */
  ghost predicate HalfCopy(t: seq<Word>, v: seq<real>, narrow: Narrow) {
    |t| == |v| && forall k | 0 <= k < |v| :: t[k] == Rehalf(narrow(v[k]))
  }

  function Slice<T>(s: seq<T>, rows: nat, columns: nat, r: nat): (part: seq<T>)
    requires r < rows && |s| == rows * columns
    ensures |part| == columns
  {
    RowsFit(r + 1, rows, columns);
    NextRow(r, columns);
    s[r * columns..r * columns + columns]
  }

  /** A weight in whole units of a scale, clamped to seven bits and a sign. */
  function InScales(w: Word, scale: real): real {
    Quantize(Value(w), scale) as real * scale
  }

  /** A row went through eight-bit codes: every weight is the binary32 nearest to a code times the row's scale. */
  ghost predicate RowCopy(part: seq<Word>, row: seq<real>, narrow: Narrow) {
    var words := C.Words(row, narrow);
    var scale := Value(narrow(WantedScale(Values(words))));
    && |part| == |row| && 0.0 < scale
    && forall c | 0 <= c < |row| :: part[c] == narrow(InScales(words[c], scale))
  }

  ghost predicate RowsCopy(t: seq<Word>, v: seq<real>, rows: nat, columns: nat, narrow: Narrow) {
    && |t| == |v| == rows * columns
    && forall r: nat | r < rows :: RowCopy(Slice(t, rows, columns, r), Slice(v, rows, columns, r), narrow)
  }

  ghost predicate TensorCopy(t: seq<Word>, v: seq<real>, rows: nat, columns: nat, q8: bool, narrow: Narrow) {
    if q8 then RowsCopy(t, v, rows, columns, narrow) else HalfCopy(t, v, narrow)
  }

  // ---------- what the runtime must hold ----------

  /** The trunk is stored in eight bits exactly when there is no global policy; biases always go through halves. */
  ghost predicate TrunkIs(t: Loader.Trunk, c: C.Checkpoint, narrow: Narrow)
    requires C.Accepted(c)
  {
    C.HeadsPresent(c);
    var (h, v, q8) := (c.header, c.vectors, c.header.globalPolicyRank == 0);
    && TensorCopy(t.stem, v[0], h.channels, h.InputChannels() * 9, q8, narrow) && HalfCopy(t.stemBias, v[1], narrow)
    && TensorCopy(t.residual, v[2], h.residualBlocks * 2 * h.channels, h.channels * 9, q8, narrow)
    && HalfCopy(t.residualBias, v[3], narrow)
    && TensorCopy(t.conditioningW, v[4], h.residualBlocks * h.channels, h.behaviorFeatures, q8, narrow)
    && HalfCopy(t.conditioningB, v[5], narrow)
  }

  /** The value head is always stored in eight bits, its dense layer whole or in two factors. */
  ghost predicate ValueIs(t: Loader.ValueHead, c: C.Checkpoint, factor: Option<C.Factor>, narrow: Narrow)
    requires C.Accepted(c)
  {
    C.HeadsPresent(c);
    var (h, v) := (c.header, c.vectors);
    && (if factor.Some? then
          && RowsCopy(t.valueW1, factor.value.left, h.hidden, factor.value.rank, narrow)
          && RowsCopy(t.valueW1Right, factor.value.right, factor.value.rank, h.Pooled(), narrow)
        else RowsCopy(t.valueW1, v[6], h.hidden, h.Pooled(), narrow) && t.valueW1Right == [])
    && HalfCopy(t.valueB1, v[7], narrow)
    && RowsCopy(t.valueW2, v[8], h.valueTower, h.hidden, narrow) && HalfCopy(t.valueB2, v[9], narrow)
    && RowsCopy(t.valueOutW, v[10], 3, h.valueTower, narrow) && HalfCopy(t.valueOutB, v[11], narrow)
  }

  /** The policy is stored like the trunk; a global policy goes through halves, and is absent at rank zero. */
  ghost predicate PolicyIs(t: Loader.PolicyHead, c: C.Checkpoint, narrow: Narrow)
    requires C.Accepted(c)
  {
    C.HeadsPresent(c);
    var (h, v, q8) := (c.header, c.vectors, c.header.globalPolicyRank == 0);
    && TensorCopy(t.policyW, v[12], 1, h.channels, q8, narrow) && HalfCopy(t.policyB, v[13], narrow)
    && (if q8 then t.globalPolicyW1 == t.globalPolicyB1 == t.globalPolicyW2 == t.globalPolicyB2 == []
        else
          && |v| == 24
          && HalfCopy(t.globalPolicyW1, v[20], narrow) && HalfCopy(t.globalPolicyB1, v[21], narrow)
          && HalfCopy(t.globalPolicyW2, v[22], narrow) && HalfCopy(t.globalPolicyB2, v[23], narrow))
    && TensorCopy(t.passW, v[14], 1, h.Pooled(), q8, narrow) && HalfCopy(t.passB, v[15], narrow)
  }

  // ---------- blocks as copies ----------

  lemma RehalvedIsCopy(v: seq<real>, narrow: Narrow)
    ensures HalfCopy(Rehalved(C.Words(v, narrow)), v, narrow)
  {
    hide Rehalf;
  }

  /** Each row of a requantized tensor is that row requantized. */
  lemma {:induction false} RequantizedAt(values: seq<Word>, rows: nat, columns: nat, r: nat, narrow: Narrow)
    requires r < rows && Loader.Entries(rows, columns) <= |values|
    ensures 0 <= r * columns && (r + 1) * columns == r * columns + columns <= Loader.Entries(rows, columns)
    ensures Requantized(values, rows, columns, narrow)[r * columns..r * columns + columns]
      == RequantizedRow(RowOf(values, columns, r), narrow)
  {
    hide RequantizedRow;
    NextRow(rows - 1, columns);
    NextRow(r, columns);
    RowsFit(r + 1, rows, columns);
    var n := Loader.Entries(rows - 1, columns);
    var (front, last) := (Requantized(values, rows - 1, columns, narrow),
                          RequantizedRow(RowOf(values, columns, rows - 1), narrow));
    if r < rows - 1 {
      RequantizedAt(values, rows - 1, columns, r, narrow);
      assert (front + last)[r * columns..r * columns + columns] == front[r * columns..r * columns + columns];
    } else {
      assert (front + last)[n..n + columns] == last;
    }
  }

  lemma ExpandedCode(w: Word, scale: Word, narrow: Narrow)
    ensures Loader.Expanded(Layout.Code(w, scale), scale, narrow)
      == narrow(InScales(w, Value(scale)))
  {
    hide Quantize, Value;
    QuantizeInRange(Value(w), Value(scale));
    assert Loader.Multiplied(Layout.Code(w, scale), scale) == InScales(w, Value(scale));
  }

  lemma RequantizedRowIsCopy(row: seq<real>, narrow: Narrow)
    requires Loader.GoodScale(RowScale(C.Words(row, narrow), narrow))
    ensures RowCopy(RequantizedRow(C.Words(row, narrow), narrow), row, narrow)
  {
    hide Value, InScales, WantedScale, Finite, Layout.Code, Loader.Expanded;
    var words := C.Words(row, narrow);
    var scale := RowScale(words, narrow);
    forall c | 0 <= c < |row|
      ensures RequantizedRow(words, narrow)[c] == narrow(InScales(words[c], Value(scale)))
    {
      ExpandedCode(words[c], scale, narrow);
    }
  }

  lemma RequantizedIsCopy(v: seq<real>, rows: nat, columns: nat, narrow: Narrow)
    requires |v| == rows * columns
    requires forall r: nat | r < rows :: Loader.GoodScale(ScaleOf(C.Words(v, narrow), rows, columns, r, narrow))
    ensures RowsCopy(Requantized(C.Words(v, narrow), rows, columns, narrow), v, rows, columns, narrow)
  {
    hide RowCopy, RequantizedRow, RowScale, Loader.GoodScale, Requantized;
    var (words, t) := (C.Words(v, narrow), Requantized(C.Words(v, narrow), rows, columns, narrow));
    forall r: nat | r < rows ensures RowCopy(Slice(t, rows, columns, r), Slice(v, rows, columns, r), narrow) {
      RequantizedAt(words, rows, columns, r, narrow);
      var row := Slice(v, rows, columns, r);
      assert RowOf(words, columns, r) == C.Words(row, narrow);
      assert Loader.GoodScale(ScaleOf(words, rows, columns, r, narrow));
      RequantizedRowIsCopy(row, narrow);
    }
  }

  /** What the runtime holds of a scaled block is a copy of its tensor. */
  lemma BlockIsCopy(v: seq<real>, rows: nat, columns: nat, bias: seq<real>, storage: Storage, narrow: Narrow)
    requires storage.Q8? ==> |v| == rows * columns
    requires Scaled(C.Tensor(v, rows, columns, bias, storage, narrow), narrow)
    ensures var t := Restored(C.Tensor(v, rows, columns, bias, storage, narrow), narrow);
      TensorCopy(t, v, rows, columns, storage.Q8?, narrow)
    ensures HalfCopy(Rehalved(C.Words(bias, narrow)), bias, narrow)
    ensures Tensors(C.Tensor(v, rows, columns, bias, storage, narrow), narrow)
      == [Restored(C.Tensor(v, rows, columns, bias, storage, narrow), narrow)]
         + if bias == [] then [] else [Rehalved(C.Words(bias, narrow))]
  {
    hide RowsCopy, HalfCopy, Requantized, Rehalved, Loader.GoodScale, ScaleOf;
    if storage.Q8? { RequantizedIsCopy(v, rows, columns, narrow); } else { RehalvedIsCopy(v, narrow); }
    RehalvedIsCopy(bias, narrow);
  }

  // ---------- the groups taken apart ----------

  lemma {:induction false} TensorsConcat(a: seq<Block>, b: seq<Block>, narrow: Narrow)
    requires forall x <- a + b :: Shaped(x)
    ensures forall x <- a :: Shaped(x)
    ensures forall x <- b :: Shaped(x)
    ensures AllTensors(a + b, narrow) == AllTensors(a, narrow) + AllTensors(b, narrow)
    ensures AllScaled(a + b, narrow) <==> AllScaled(a, narrow) && AllScaled(b, narrow)
    decreases |b|
  {
    hide *;
    ShapedParts(a, b);
    if b == [] {
      assert a + b == a;
      NoTensors(narrow);
    } else {
      var (shorter, last) := (b[..|b| - 1], b[|b| - 1]);
      assert b == shorter + [last] && a + b == (a + shorter) + [last];
      ShapedParts(a + shorter, [last]);
      ShapedParts(shorter, [last]);
      assert last in [last];
      TensorsConcat(a, shorter, narrow);
      PayloadGrows(a + shorter, last, narrow);
      PayloadGrows(shorter, last, narrow);
      ScaledMore(a + shorter, last, narrow);
      ScaledMore(shorter, last, narrow);
      assert AllTensors(a + b, narrow) == AllTensors(a, narrow) + AllTensors(shorter, narrow) + Tensors(last, narrow);
    }
  }

  lemma NoTensors(narrow: Narrow)
    ensures AllTensors([], narrow) == [] && AllScaled([], narrow)
  {
  }

  lemma ShapedParts(a: seq<Block>, b: seq<Block>)
    requires forall x <- a + b :: Shaped(x)
    ensures forall x <- a :: Shaped(x)
    ensures forall x <- b :: Shaped(x)
  {
    hide Shaped;
    forall x <- a ensures Shaped(x) { assert x in a + b; }
    forall x <- b ensures Shaped(x) { assert x in a + b; }
  }

  lemma OneTensors(b: Block, narrow: Narrow)
    requires Shaped(b)
    ensures AllTensors([b], narrow) == Tensors(b, narrow)
    ensures AllScaled([b], narrow) <==> Scaled(b, narrow)
  {
    hide Tensors, Scaled, Shaped;
    assert [] + [b] == [b];
    PayloadGrows([], b, narrow);
    ScaledMore([], b, narrow);
  }

  lemma TwoTensors(b: Block, d: Block, narrow: Narrow)
    requires Shaped(b) && Shaped(d)
    ensures AllTensors([b, d], narrow) == Tensors(b, narrow) + Tensors(d, narrow)
    ensures AllScaled([b, d], narrow) <==> Scaled(b, narrow) && Scaled(d, narrow)
  {
    hide Tensors, Scaled, Shaped;
    assert [b] + [d] == [b, d];
    TensorsConcat([b], [d], narrow);
    OneTensors(b, narrow);
    OneTensors(d, narrow);
  }

  /** A block with a bias, found as two tensors. */
  lemma PairIsCopied(v: seq<real>, rows: nat, columns: nat, bias: seq<real>, storage: Storage, narrow: Narrow,
      weights: seq<Word>, biases: seq<Word>)
    requires storage.Q8? ==> |v| == rows * columns
    requires bias != [] && Scaled(C.Tensor(v, rows, columns, bias, storage, narrow), narrow)
    requires [weights, biases] == Tensors(C.Tensor(v, rows, columns, bias, storage, narrow), narrow)
    ensures TensorCopy(weights, v, rows, columns, storage.Q8?, narrow) && HalfCopy(biases, bias, narrow)
  {
    hide TensorCopy, HalfCopy, Scaled, Restored, Rehalved, Tensors;
    BlockIsCopy(v, rows, columns, bias, storage, narrow);
    var t := Tensors(C.Tensor(v, rows, columns, bias, storage, narrow), narrow);
    assert weights == t[0] && biases == t[1];
  }

  lemma PairLength(b: Block, narrow: Narrow)
    requires Shaped(b) && b.bias != []
    ensures |Tensors(b, narrow)| == 2
  {
    hide Restored, Rehalved;
  }

  lemma CutPairs(l: seq<seq<Word>>, a: seq<seq<Word>>, b: seq<seq<Word>>)
    requires l == a + b
    ensures a == l[..|a|] && b == l[|a|..]
  {
  }

  lemma TrunkIsCopied(c: C.Checkpoint, t: Loader.Trunk, narrow: Narrow)
    requires C.Accepted(c) && forall b <- C.TrunkBlocks(c, narrow) :: Shaped(b)
    requires AllScaled(C.TrunkBlocks(c, narrow), narrow)
    requires t.Listed() == AllTensors(C.TrunkBlocks(c, narrow), narrow)
    ensures TrunkIs(t, c, narrow)
  {
    hide AllTensors, AllScaled, Tensors, Scaled, C.Words, Restored, Rehalved, TensorCopy, HalfCopy;
    var (h, v, s, b) := (c.header, c.vectors, C.Sizes(c.header), C.TrunkBlocks(c, narrow));
    TrunkSizes(c);
    var (x, y, z) := (b[0], b[1], b[2]);
    assert b == [x] + [y, z];
    TensorsConcat([x], [y, z], narrow);
    OneTensors(x, narrow);
    TwoTensors(y, z, narrow);
    PairLength(x, narrow);
    PairLength(y, narrow);
    PairLength(z, narrow);
    CutPairs(t.Listed(), Tensors(x, narrow), Tensors(y, narrow) + Tensors(z, narrow));
    CutPairs(t.Listed()[2..], Tensors(y, narrow), Tensors(z, narrow));
    var policy := C.PolicyStorage(h);
    PairIsCopied(v[0], h.channels, h.InputChannels() * 9, v[1], policy, narrow, t.stem, t.stemBias);
    PairIsCopied(v[2], h.residualBlocks * 2 * h.channels, h.channels * 9, v[3], policy, narrow, t.residual,
      t.residualBias);
    PairIsCopied(v[4], h.residualBlocks * h.channels, h.behaviorFeatures, v[5], policy, narrow, t.conditioningW,
      t.conditioningB);
  }

  lemma TrunkSizes(c: C.Checkpoint)
    requires C.Accepted(c)
    ensures var (h, v) := (c.header, c.vectors);
      && 20 <= |v|
      && |v[0]| == h.channels * (h.InputChannels() * 9) && 0 < |v[1]|
      && |v[2]| == h.residualBlocks * 2 * h.channels * (h.channels * 9) && 0 < |v[3]|
      && |v[4]| == h.residualBlocks * h.channels * h.behaviorFeatures && 0 < |v[5]|
  {
    var (h, v, s) := (c.header, c.vectors, C.Sizes(c.header));
    assert |v[0]| == s[0] && |v[1]| == s[1] && |v[2]| == s[2] && |v[3]| == s[3] && |v[4]| == s[4] && |v[5]| == s[5];
    C.ProductShapes(h);
    Positive(h.residualBlocks, h.channels);
    Positive(h.residualBlocks * 2, h.channels);
  }

  lemma ValueSizes(c: C.Checkpoint)
    requires C.Accepted(c)
    ensures var (h, v) := (c.header, c.vectors);
      && 20 <= |v|
      && |v[6]| == h.hidden * h.Pooled() && |v[7]| == h.hidden
      && |v[8]| == h.valueTower * h.hidden && 0 < |v[9]|
      && |v[10]| == 3 * h.valueTower && 0 < |v[11]|
  {
    var (h, v, s) := (c.header, c.vectors, C.Sizes(c.header));
    assert |v[6]| == s[6] && |v[7]| == s[7] && |v[8]| == s[8] && |v[9]| == s[9] && |v[10]| == s[10] && |v[11]| == s[11];
  }

  /** A block without a bias, found as one tensor. */
  lemma LoneIsCopied(v: seq<real>, rows: nat, columns: nat, narrow: Narrow, weights: seq<Word>)
    requires |v| == rows * columns && Scaled(C.Tensor(v, rows, columns, [], Q8, narrow), narrow)
    requires [weights] == Tensors(C.Tensor(v, rows, columns, [], Q8, narrow), narrow)
    ensures RowsCopy(weights, v, rows, columns, narrow)
  {
    hide RowsCopy, HalfCopy, Scaled, Restored, Rehalved, Tensors;
    BlockIsCopy(v, rows, columns, [], Q8, narrow);
    var t := Tensors(C.Tensor(v, rows, columns, [], Q8, narrow), narrow);
    assert weights == t[0];
  }

  lemma LoneLength(b: Block, narrow: Narrow)
    requires Shaped(b) && b.bias == []
    ensures |Tensors(b, narrow)| == 1
  {
    hide Restored, Rehalved;
  }

  /** The tower's two blocks, at the end of the value head. */
  lemma TowerIsCopied(c: C.Checkpoint, t: Loader.ValueHead, y: Block, z: Block, narrow: Narrow)
    requires C.Accepted(c) && 20 <= |c.vectors| && Shaped(y) && Shaped(z)
    requires y == C.Tensor(c.vectors[8], c.header.valueTower, c.header.hidden, c.vectors[9], Q8, narrow)
    requires z == C.Tensor(c.vectors[10], 3, c.header.valueTower, c.vectors[11], Q8, narrow)
    requires Scaled(y, narrow) && Scaled(z, narrow)
    requires [t.valueW2, t.valueB2, t.valueOutW, t.valueOutB] == Tensors(y, narrow) + Tensors(z, narrow)
    ensures var (h, v) := (c.header, c.vectors);
      && RowsCopy(t.valueW2, v[8], h.valueTower, h.hidden, narrow) && HalfCopy(t.valueB2, v[9], narrow)
      && RowsCopy(t.valueOutW, v[10], 3, h.valueTower, narrow) && HalfCopy(t.valueOutB, v[11], narrow)
  {
    hide Tensors, Scaled, C.Words, Restored, Rehalved, RowsCopy, HalfCopy, C.Sizes;
    var (h, v) := (c.header, c.vectors);
    ValueSizes(c);
    PairLength(y, narrow);
    PairLength(z, narrow);
    CutPairs([t.valueW2, t.valueB2, t.valueOutW, t.valueOutB], Tensors(y, narrow), Tensors(z, narrow));
    PairIsCopied(v[8], h.valueTower, h.hidden, v[9], Q8, narrow, t.valueW2, t.valueB2);
    PairIsCopied(v[10], 3, h.valueTower, v[11], Q8, narrow, t.valueOutW, t.valueOutB);
  }

  lemma ValueIsCopied(c: C.Checkpoint, factor: Option<C.Factor>, t: Loader.ValueHead, narrow: Narrow)
    requires C.Accepted(c) && (factor.Some? ==> C.Fits(factor.value, c.header))
    requires forall b <- C.ValueBlocks(c, factor, narrow) :: Shaped(b)
    requires AllScaled(C.ValueBlocks(c, factor, narrow), narrow)
    requires t.Listed(factor.Some?) == AllTensors(C.ValueBlocks(c, factor, narrow), narrow)
    requires factor.None? ==> t.valueW1Right == []
    ensures ValueIs(t, c, factor, narrow)
  {
    hide AllTensors, AllScaled, Tensors, Scaled, C.Words, Restored, Rehalved, RowsCopy, HalfCopy, C.Sizes, Shaped;
    var (h, v, b) := (c.header, c.vectors, C.ValueBlocks(c, factor, narrow));
    ValueSizes(c);
    var k := |b| - 2;
    var (y, z, l) := (b[k], b[k + 1], t.Listed(factor.Some?));
    assert b == b[..k] + [y, z];
    TensorsConcat(b[..k], [y, z], narrow);
    TwoTensors(y, z, narrow);
    if factor.Some? {
      var (f, x) := (b[0], b[1]);
      assert b[..k] == [f, x];
      TwoTensors(f, x, narrow);
      LoneLength(f, narrow);
      PairLength(x, narrow);
      CutPairs(l, Tensors(f, narrow) + Tensors(x, narrow), Tensors(y, narrow) + Tensors(z, narrow));
      CutPairs(l[..3], Tensors(f, narrow), Tensors(x, narrow));
      LoneIsCopied(factor.value.left, h.hidden, factor.value.rank, narrow, t.valueW1);
      PairIsCopied(factor.value.right, factor.value.rank, h.Pooled(), v[7], Q8, narrow, t.valueW1Right, t.valueB1);
      assert l[3..] == [t.valueW2, t.valueB2, t.valueOutW, t.valueOutB];
    } else {
      var x := b[0];
      assert b[..k] == [x];
      OneTensors(x, narrow);
      PairLength(x, narrow);
      CutPairs(l, Tensors(x, narrow), Tensors(y, narrow) + Tensors(z, narrow));
      PairIsCopied(v[6], h.hidden, h.Pooled(), v[7], Q8, narrow, t.valueW1, t.valueB1);
      assert l[2..] == [t.valueW2, t.valueB2, t.valueOutW, t.valueOutB];
    }
    TowerIsCopied(c, t, y, z, narrow);
  }

  lemma PolicySizes(c: C.Checkpoint)
    requires C.Accepted(c)
    ensures var (h, v) := (c.header, c.vectors);
      && |v| == (if h.globalPolicyRank == 0 then 20 else 24)
      && |v[12]| == h.channels && |v[13]| == 1 && |v[14]| == h.Pooled() && |v[15]| == 1
      && (h.globalPolicyRank != 0 ==> 0 < |v[21]| && 0 < |v[23]|)
  {
    var (h, v, s) := (c.header, c.vectors, C.Sizes(c.header));
    assert |v[12]| == s[12] && |v[13]| == s[13] && |v[14]| == s[14] && |v[15]| == s[15];
    if h.globalPolicyRank != 0 {
      assert |v[21]| == s[21] && |v[23]| == s[23];
      Positive(h.extent, h.extent);
    }
  }

  /** The point and pass heads, from the two ends of the policy head. */
  lemma HeadIsCopied(v: seq<real>, columns: nat, bias: seq<real>, b: Block, storage: Storage, narrow: Narrow,
      weights: seq<Word>, biases: seq<Word>)
    requires |v| == columns && bias != [] && Shaped(b)
    requires b == C.Tensor(v, 1, columns, bias, storage, narrow)
    requires AllScaled([b], narrow) && [weights, biases] == AllTensors([b], narrow)
    ensures TensorCopy(weights, v, 1, columns, storage.Q8?, narrow) && HalfCopy(biases, bias, narrow)
  {
    hide AllTensors, AllScaled, Tensors, Scaled, C.Words, TensorCopy, HalfCopy;
    OneTensors(b, narrow);
    PairIsCopied(v, 1, columns, bias, storage, narrow, weights, biases);
  }

  lemma GlobalIsCopied(c: C.Checkpoint, t: Loader.PolicyHead, narrow: Narrow)
    requires C.Accepted(c) && c.header.globalPolicyRank != 0 && |c.vectors| == 24
    requires forall b <- C.GlobalBlocks(c, narrow) :: Shaped(b)
    requires AllScaled(C.GlobalBlocks(c, narrow), narrow)
    requires [t.globalPolicyW1, t.globalPolicyB1, t.globalPolicyW2, t.globalPolicyB2]
      == AllTensors(C.GlobalBlocks(c, narrow), narrow)
    ensures var v := c.vectors;
      && HalfCopy(t.globalPolicyW1, v[20], narrow) && HalfCopy(t.globalPolicyB1, v[21], narrow)
      && HalfCopy(t.globalPolicyW2, v[22], narrow) && HalfCopy(t.globalPolicyB2, v[23], narrow)
  {
    hide AllTensors, AllScaled, Tensors, Scaled, C.Words, HalfCopy, C.Sizes;
    var (h, v, b) := (c.header, c.vectors, C.GlobalBlocks(c, narrow));
    PolicySizes(c);
    var (y, z) := (b[0], b[1]);
    TwoTensors(y, z, narrow);
    PairLength(y, narrow);
    PairLength(z, narrow);
    CutPairs([t.globalPolicyW1, t.globalPolicyB1, t.globalPolicyW2, t.globalPolicyB2], Tensors(y, narrow),
      Tensors(z, narrow));
    PairIsCopied(v[20], h.globalPolicyRank, h.Pooled(), v[21], F16, narrow, t.globalPolicyW1, t.globalPolicyB1);
    PairIsCopied(v[22], h.extent * h.extent, h.globalPolicyRank, v[23], F16, narrow, t.globalPolicyW2,
      t.globalPolicyB2);
  }

  lemma PolicyIsCopied(c: C.Checkpoint, t: Loader.PolicyHead, point: Block, pass: Block, narrow: Narrow)
    requires C.Accepted(c) && 20 <= |c.vectors|
    requires point == C.Tensor(c.vectors[12], 1, c.header.channels, c.vectors[13], C.PolicyStorage(c.header), narrow)
    requires pass == C.Tensor(c.vectors[14], 1, c.header.Pooled(), c.vectors[15], C.PolicyStorage(c.header), narrow)
    requires forall b <- [point] + (C.GlobalBlocks(c, narrow) + [pass]) :: Shaped(b)
    requires AllScaled([point] + (C.GlobalBlocks(c, narrow) + [pass]), narrow)
    requires t.Listed(c.header.globalPolicyRank != 0)
      == AllTensors([point] + (C.GlobalBlocks(c, narrow) + [pass]), narrow)
    requires c.header.globalPolicyRank == 0 ==>
      t.globalPolicyW1 == t.globalPolicyB1 == t.globalPolicyW2 == t.globalPolicyB2 == []
    ensures PolicyIs(t, c, narrow)
  {
    hide AllTensors, AllScaled, C.Words, HalfCopy, TensorCopy, C.Sizes, Shaped, C.GlobalBlocks;
    var (h, v, global) := (c.header, c.vectors, C.GlobalBlocks(c, narrow));
    var l := t.Listed(h.globalPolicyRank != 0);
    PolicySizes(c);
    TensorsConcat([point], global + [pass], narrow);
    TensorsConcat(global, [pass], narrow);
    assert point in [point] && pass in [pass];
    HeadLength(point, narrow);
    HeadLength(pass, narrow);
    CutPairs(l, AllTensors([point], narrow), AllTensors(global, narrow) + AllTensors([pass], narrow));
    GlobalLength(c, narrow);
    CutPairs(l[2..], AllTensors(global, narrow), AllTensors([pass], narrow));
    HeadIsCopied(v[12], h.channels, v[13], point, C.PolicyStorage(h), narrow, t.policyW, t.policyB);
    HeadIsCopied(v[14], h.Pooled(), v[15], pass, C.PolicyStorage(h), narrow, t.passW, t.passB);
    if h.globalPolicyRank != 0 {
      GlobalIsCopied(c, t, narrow);
    }
  }

  lemma HeadLength(b: Block, narrow: Narrow)
    requires Shaped(b) && b.bias != []
    ensures |AllTensors([b], narrow)| == 2
  {
    hide Restored, Rehalved;
    OneTensors(b, narrow);
  }

  lemma GlobalLength(c: C.Checkpoint, narrow: Narrow)
    requires C.Accepted(c) && forall b <- C.GlobalBlocks(c, narrow) :: Shaped(b)
    ensures |AllTensors(C.GlobalBlocks(c, narrow), narrow)| == if c.header.globalPolicyRank == 0 then 0 else 4
  {
    hide Restored, Rehalved, AllTensors, C.Sizes, C.Words, Tensors, Shaped;
    var b := C.GlobalBlocks(c, narrow);
    if c.header.globalPolicyRank != 0 {
      PolicySizes(c);
      TwoTensors(b[0], b[1], narrow);
      PairLength(b[0], narrow);
      PairLength(b[1], narrow);
    } else {
      NoTensors(narrow);
    }
  }

  /** The runtime's tensors, in the loader's three groups. */
  lemma GroupsAreListed(c: C.Checkpoint, factor: Option<C.Factor>, stripValue: bool, narrow: Narrow, w: Loader.Weights,
      a: Loader.Artifact)
    requires C.Accepted(c) && (factor.Some? ==> C.Fits(factor.value, c.header) && !stripValue)
    requires forall b <- C.Blocks(c, factor, stripValue, narrow) :: Shaped(b)
    requires AllScaled(C.Blocks(c, factor, stripValue, narrow), narrow)
    requires a.Stripped() == stripValue && a.valueRank == Rank(factor)
    requires a.globalPolicyRank == c.header.globalPolicyRank
    requires Loader.Listed(w, a) == AllTensors(C.Blocks(c, factor, stripValue, narrow), narrow)
    requires Loader.AbsentIsEmpty(w, a)
    ensures TrunkIs(w.trunk, c, narrow) && PolicyIs(w.policy, c, narrow)
    ensures if stripValue then w.value == Loader.NO_VALUE else ValueIs(w.value, c, factor, narrow)
  {
    hide AllTensors, AllScaled, C.Words, C.Sizes, Shaped, C.GlobalBlocks, C.TrunkBlocks, C.ValueBlocks, C.Blocks;
    hide TrunkIs, PolicyIs, ValueIs, Loader.Trunk.Listed, Loader.ValueHead.Listed, Loader.PolicyHead.Listed;
    var point, pass := Grouped(c, factor, stripValue, narrow);
    var trunk := C.TrunkBlocks(c, narrow);
    var value := if stripValue then [] else C.ValueBlocks(c, factor, narrow);
    var policy := [point] + (C.GlobalBlocks(c, narrow) + [pass]);
    TensorsConcat(trunk, value + policy, narrow);
    TensorsConcat(value, policy, narrow);
    NoTensors(narrow);
    TrunkLength(c, narrow);
    var l := Loader.Listed(w, a);
    CutPairs(l, AllTensors(trunk, narrow), AllTensors(value, narrow) + AllTensors(policy, narrow));
    CutPairs(l, w.trunk.Listed(), l[6..]);
    TrunkIsCopied(c, w.trunk, narrow);
    if stripValue {
      assert l[6..] == w.policy.Listed(a.globalPolicyRank != 0) == AllTensors(policy, narrow);
    } else {
      ValueLength(c, factor, narrow);
      var k := |AllTensors(value, narrow)|;
      CutPairs(l[6..], w.value.Listed(a.valueRank != 0), w.policy.Listed(a.globalPolicyRank != 0));
      CutPairs(l[6..], AllTensors(value, narrow), AllTensors(policy, narrow));
      ValueIsCopied(c, factor, w.value, narrow);
    }
    PolicyIsCopied(c, w.policy, point, pass, narrow);
  }

  lemma TrunkLength(c: C.Checkpoint, narrow: Narrow)
    requires C.Accepted(c) && forall b <- C.TrunkBlocks(c, narrow) :: Shaped(b)
    ensures |AllTensors(C.TrunkBlocks(c, narrow), narrow)| == 6
  {
    hide Restored, Rehalved, AllTensors, C.Sizes, C.Words, Tensors, Shaped;
    var b := C.TrunkBlocks(c, narrow);
    TrunkSizes(c);
    assert b == [b[0]] + [b[1], b[2]];
    TensorsConcat([b[0]], [b[1], b[2]], narrow);
    OneTensors(b[0], narrow);
    TwoTensors(b[1], b[2], narrow);
    PairLength(b[0], narrow);
    PairLength(b[1], narrow);
    PairLength(b[2], narrow);
  }

  lemma ValueLength(c: C.Checkpoint, factor: Option<C.Factor>, narrow: Narrow)
    requires C.Accepted(c) && (factor.Some? ==> C.Fits(factor.value, c.header))
    requires forall b <- C.ValueBlocks(c, factor, narrow) :: Shaped(b)
    ensures |AllTensors(C.ValueBlocks(c, factor, narrow), narrow)| == if factor.Some? then 7 else 6
  {
    hide Restored, Rehalved, AllTensors, C.Sizes, C.Words, Tensors, Shaped;
    var b := C.ValueBlocks(c, factor, narrow);
    ValueSizes(c);
    var k := |b| - 2;
    assert b == b[..k] + [b[k], b[k + 1]];
    TensorsConcat(b[..k], [b[k], b[k + 1]], narrow);
    TwoTensors(b[k], b[k + 1], narrow);
    PairLength(b[k], narrow);
    PairLength(b[k + 1], narrow);
    if factor.Some? {
      assert b[..k] == [b[0], b[1]];
      TwoTensors(b[0], b[1], narrow);
      LoneLength(b[0], narrow);
      PairLength(b[1], narrow);
    } else {
      assert b[..k] == [b[0]];
      OneTensors(b[0], narrow);
      PairLength(b[0], narrow);
    }
  }

  // ---------- the runtime holds the checkpoint ----------

  /** Loading what was exported gives back the checkpoint: the trunk and the policy from eight-bit rows without a
      global policy and from halves with one, the value head from eight-bit rows or not at all if it was stripped,
      every bias from halves. It fails exactly when the scale of some eight-bit row rounds to zero. */
  lemma RuntimeHoldsTheCheckpoint(profile: Profile, c: C.Checkpoint, factor: Option<C.Factor>, stripValue: bool,
      ofChampion: bool, narrow: Narrow, a: Loader.Artifact, r: Loader.Reads<Loader.Weights>)
    requires C.Accepted(c) && (factor.Some? ==> C.Fits(factor.value, c.header))
    requires Exportable(profile, c, factor, stripValue, narrow)
    requires forall b <- C.Blocks(c, factor, stripValue, narrow) :: Shaped(b)
    requires a == Generated(c.header, factor, Derived(stripValue, ofChampion),
                            Payload(C.Blocks(c, factor, stripValue, narrow), narrow))
    requires Loader.Refusal(a).None? ==> Loader.Loads(a, narrow, r)
    ensures Loader.Refusal(a).None?
    ensures r.Read? <==> ScalesSurvive(c, factor, stripValue, narrow)
    ensures r.Failed? ==> r.error == Loader.InvalidScale
    ensures r.Read? ==>
      && TrunkIs(r.value.trunk, c, narrow) && PolicyIs(r.value.policy, c, narrow)
      && (if stripValue then r.value.value == Loader.NO_VALUE else ValueIs(r.value.value, c, factor, narrow))
  {
    hide AllTensors, AllScaled, C.Sizes, Shaped, C.Blocks, TrunkIs, PolicyIs, ValueIs, Loader.Listed;
    hide Loader.AbsentIsEmpty, Payload, Loader.Loads, Loader.Refusal, C.Fits;
    var payload := Payload(C.Blocks(c, factor, stripValue, narrow), narrow);
    ExportIsRecognized(profile, c, factor, stripValue, ofChampion, payload, narrow);
    ExportIsRead(profile, c, factor, stripValue, ofChampion, narrow, r);
    if r.Read? {
      var empty := Generated(c.header, factor, Derived(stripValue, ofChampion), []);
      GroupsAreListed(c, factor, stripValue, narrow, r.value, empty);
    }
  }

  /** A weight that went through eight-bit codes is the binary32 nearest to a number within half a scale of it,
      whenever the scale its row asks for is a normal number. */
  lemma CopiedWithinHalfAScale(part: seq<Word>, row: seq<real>, narrow: Narrow, c: nat)
    requires Rounding.Narrows(narrow) && RowCopy(part, row, narrow) && c < |row|
    requires forall w <- C.Words(row, narrow) :: Finite(w)
    requires Rounding.LeastNormal() <= WantedScale(Values(C.Words(row, narrow)))
    ensures var (w, scale) := (narrow(row[c]), Value(narrow(WantedScale(Values(C.Words(row, narrow))))));
      part[c] == narrow(InScales(w, scale)) && Abs(InScales(w, scale) - Value(w)) <= 0.5 * scale
  {
    hide Value, Quantize, WantedScale, Rounding.Narrows, Abs, Near, Finite, InScales, Rounding.LeastNormal;
    var words := C.Words(row, narrow);
    Rounding.WantedIsFinite(words);
    Rounding.NormalIsNear(narrow, WantedScale(Values(words)));
    CodeWithinHalf(words, Value(narrow(WantedScale(Values(words)))), c);
  }

  lemma CodeWithinHalf(words: seq<Word>, scale: real, c: nat)
    requires c < |words| && Near(scale, WantedScale(Values(words)))
    ensures Abs(InScales(words[c], scale) - Value(words[c])) <= 0.5 * scale
  {
    hide Value, Quantize, WantedScale, Abs, Near;
    WeightInRow(words, c);
    NearIsEnough(Values(words), scale, Value(words[c]));
  }

  /** A weight that went through halves keeps its sign and becomes the half its word converts to: roundTiesToEven but
      for the truncated ties, and exactly that half's magnitude unless it overflowed. */
  lemma RehalfIsNearest(w: Word)
    requires Finite(w)
    ensures var code := FloatToHalf(w) % 0x8000;
      && code <= INFINITY && Sign(Rehalf(w)) == Sign(w)
      && (code < INFINITY ==> Finite(Rehalf(w)) && Exact(Rehalf(w)) == HalfExact(code))
      && (NearestEven(Exact(w), code) <==> !TruncatedTie(Exponent(w), Mantissa(w)))
  {
    hide FloatToHalf, Widened, Exact, HalfExact, NearestEven, TruncatedTie, Sign, Exponent, Mantissa, Finite;
    HalfFits(w);
    FloatToHalfIsRoundTiesToEven(w);
    WideningIsExact(FloatToHalf(w));
  }

  // ---------- how long the artifact is ----------

  /** The bytes of a tensor of `count` weights: one a weight and four a row in eight bits, two a weight in halves. */
  function Weight(q8: bool, count: int, rows: int): int {
    if q8 then count + 4 * rows else 2 * count
  }

  function TrunkBytes(h: C.Header): int {
    var (q8, c, b) := (h.globalPolicyRank == 0, h.channels, h.residualBlocks);
    Weight(q8, c * ((if h.kind == C.TacticalGlobalPolicy then 16 else 8) * 9), c) + 2 * c
    + Weight(q8, b * 2 * c * (c * 9), b * 2 * c) + 2 * (b * 2 * c)
    + Weight(q8, b * c * h.behaviorFeatures, b * c) + 2 * (b * c)
  }

  function ValueBytes(h: C.Header, rank: nat): int {
    var pooled := h.channels * 25;
    (if rank == 0 then Weight(true, h.hidden * pooled, h.hidden)
     else Weight(true, h.hidden * rank, h.hidden) + Weight(true, rank * pooled, rank))
    + 2 * h.hidden + Weight(true, h.valueTower * h.hidden, h.valueTower) + 2 * h.valueTower
    + Weight(true, 3 * h.valueTower, 3) + 6
  }

  function PolicyBytes(h: C.Header): int {
    var (q8, pooled, points) := (h.globalPolicyRank == 0, h.channels * 25, h.extent * h.extent);
    Weight(q8, h.channels, 1) + 2
    + (if q8 then 0
       else 2 * (h.globalPolicyRank * pooled) + 2 * h.globalPolicyRank + 2 * (points * h.globalPolicyRank) + 2 * points)
    + Weight(q8, pooled, 1) + 2
  }

  /** The length of an exported artifact, from the dimensions of its checkpoint. */
  function ExportedLength(h: C.Header, rank: nat, stripValue: bool): int {
    TrunkBytes(h) + (if stripValue then 0 else ValueBytes(h, rank)) + PolicyBytes(h)
  }

  lemma {:induction false} LengthConcat(a: seq<Block>, b: seq<Block>)
    ensures TotalLength(a + b) == TotalLength(a) + TotalLength(b)
    decreases |b|
  {
    hide BlockLength;
    if b == [] {
      assert a + b == a;
    } else {
      assert (a + b)[..|a + b| - 1] == a + b[..|b| - 1];
      LengthConcat(a, b[..|b| - 1]);
    }
  }

  lemma OneLength(b: Block)
    ensures TotalLength([b]) == BlockLength(b)
  {
    hide BlockLength;
    assert [b][..0] == [];
  }

  lemma TwoLengths(b: Block, d: Block)
    ensures TotalLength([b, d]) == BlockLength(b) + BlockLength(d)
  {
    hide BlockLength, TotalLength;
    assert [b, d] == [b] + [d];
    LengthConcat([b], [d]);
    OneLength(b);
    OneLength(d);
  }

  lemma TrunkBlockBytes(c: C.Checkpoint, narrow: Narrow)
    requires C.Accepted(c)
    ensures TotalLength(C.TrunkBlocks(c, narrow)) == TrunkBytes(c.header)
  {
    hide TotalLength, C.Words;
    var (v, s, b) := (c.vectors, C.Sizes(c.header), C.TrunkBlocks(c, narrow));
    TrunkSizes(c);
    assert |v[1]| == s[1] && |v[3]| == s[3] && |v[5]| == s[5];
    assert b == [b[0]] + [b[1], b[2]];
    LengthConcat([b[0]], [b[1], b[2]]);
    OneLength(b[0]);
    TwoLengths(b[1], b[2]);
  }

  lemma ValueBlockBytes(c: C.Checkpoint, factor: Option<C.Factor>, narrow: Narrow)
    requires C.Accepted(c) && (factor.Some? ==> C.Fits(factor.value, c.header))
    ensures TotalLength(C.ValueBlocks(c, factor, narrow)) == ValueBytes(c.header, Rank(factor))
  {
    hide TotalLength, C.Words;
    var (v, s, b) := (c.vectors, C.Sizes(c.header), C.ValueBlocks(c, factor, narrow));
    assert |v[7]| == s[7] && |v[9]| == s[9] && |v[11]| == s[11];
    var k := |b| - 2;
    assert b == b[..k] + [b[k], b[k + 1]];
    LengthConcat(b[..k], [b[k], b[k + 1]]);
    TwoLengths(b[k], b[k + 1]);
    if factor.Some? {
      assert b[..k] == [b[0], b[1]];
      TwoLengths(b[0], b[1]);
    } else {
      assert b[..k] == [b[0]];
      OneLength(b[0]);
    }
  }

  lemma PolicyBlockBytes(c: C.Checkpoint, point: Block, pass: Block, narrow: Narrow)
    requires C.Accepted(c) && 20 <= |c.vectors|
    requires point == C.Tensor(c.vectors[12], 1, c.header.channels, c.vectors[13], C.PolicyStorage(c.header), narrow)
    requires pass == C.Tensor(c.vectors[14], 1, c.header.Pooled(), c.vectors[15], C.PolicyStorage(c.header), narrow)
    ensures TotalLength([point] + (C.GlobalBlocks(c, narrow) + [pass])) == PolicyBytes(c.header)
  {
    hide TotalLength, C.Words;
    var (h, v, s, global) := (c.header, c.vectors, C.Sizes(c.header), C.GlobalBlocks(c, narrow));
    PolicySizes(c);
    LengthConcat([point], global + [pass]);
    LengthConcat(global, [pass]);
    OneLength(point);
    OneLength(pass);
    if h.globalPolicyRank != 0 {
      assert |v[20]| == s[20] && |v[21]| == s[21] && |v[22]| == s[22] && |v[23]| == s[23];
      TwoLengths(global[0], global[1]);
    } else {
      NoLength();
    }
  }

  lemma NoLength()
    ensures TotalLength([]) == 0
  {
  }

  /** Every export has the length its header says. */
  lemma PayloadLength(c: C.Checkpoint, factor: Option<C.Factor>, stripValue: bool, narrow: Narrow)
    requires C.Accepted(c) && (factor.Some? ==> C.Fits(factor.value, c.header))
    requires forall b <- C.Blocks(c, factor, stripValue, narrow) :: Shaped(b)
    ensures |Payload(C.Blocks(c, factor, stripValue, narrow), narrow)|
      == ExportedLength(c.header, Rank(factor), stripValue)
  {
    hide TotalLength, Payload, C.Blocks, C.TrunkBlocks, C.ValueBlocks, C.GlobalBlocks, C.Fits, ExportedLength, C.Sizes;
    hide Shaped, TrunkBytes, ValueBytes, PolicyBytes, C.GoodHeader;
    var point, pass := Grouped(c, factor, stripValue, narrow);
    var (trunk, policy) := (C.TrunkBlocks(c, narrow), [point] + (C.GlobalBlocks(c, narrow) + [pass]));
    var value := if stripValue then [] else C.ValueBlocks(c, factor, narrow);
    TotalIsPayloadLength(C.Blocks(c, factor, stripValue, narrow), narrow);
    LengthConcat(trunk, value + policy);
    LengthConcat(value, policy);
    NoLength();
    TrunkBlockBytes(c, narrow);
    ValueBlockBytes(c, factor, narrow);
    PolicyBlockBytes(c, point, pass, narrow);
    LengthIsSum(c.header, Rank(factor), stripValue);
  }

  lemma LengthIsSum(h: C.Header, rank: nat, stripValue: bool)
    ensures ExportedLength(h, rank, stripValue)
      == TrunkBytes(h) + (if stripValue then 0 else ValueBytes(h, rank)) + PolicyBytes(h)
  {
    hide TrunkBytes, ValueBytes, PolicyBytes;
  }
}
