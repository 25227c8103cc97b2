/** Exporting a checkpoint (tools/go-export-model.ts), and what the runtime then holds of it
 * (shared/strategy/go/neural/artifact.ts). */
module ModelExport {
  import opened ArtifactLayout
  import opened ArtifactRoundTrip
  import opened GoOpponents
  import opened HalfFloat
  import opened RowQuantization
  import opened Wrappers
  import C = CheckpointText
  import Loader = ArtifactLoader

  // ---------- what may be exported ----------

  /** The runtime envelope of a profile. */
  predicate FitsProfile(profile: Profile, h: C.Header) {
    && (match profile
        case Small5 => h.extent == 5 && h.behaviorFeatures == 31 && h.channels <= 32 && h.residualBlocks <= 4
        case Daemon19 => h.extent == 19 && h.behaviorFeatures == 30 && h.channels <= 48 && h.residualBlocks <= 8)
    && 32 <= h.hidden <= 256 && 8 <= h.channels && 1 <= h.residualBlocks && 8 <= h.valueTower <= 64
    && h.channels % 4 == 0
  }

  /** The envelope in whole groups of four channels: two to eight of them on the small board, to twelve on the large. */
  lemma EnvelopeInGroups(profile: Profile, h: C.Header)
    ensures var (groups, small) := (h.channels / 4, profile == Small5);
      FitsProfile(profile, h) <==> (
        && h.channels == 4 * groups && 2 <= groups <= (if small then 8 else 12)
        && 1 <= h.residualBlocks <= (if small then 4 else 8)
        && 32 <= h.hidden <= 256 && 8 <= h.valueTower <= 64
        && h.extent == (if small then 5 else 19) && h.behaviorFeatures == (if small then 31 else 30))
  {
  }

  ghost predicate Zeros(v: seq<real>, narrow: Narrow) {
    forall x <- v :: Value(narrow(x)) == 0.0
  }

  /** A value head of zeros only, which stripping loses nothing of. */
  ghost predicate Neutral(c: C.Checkpoint, narrow: Narrow)
    requires C.Accepted(c)
  {
    forall k | 6 <= k < 12 :: Zeros(c.vectors[k], narrow)
  }

  ghost predicate Exportable(profile: Profile, c: C.Checkpoint, factor: Option<C.Factor>, stripValue: bool,
      narrow: Narrow)
    requires C.Accepted(c)
  {
    && FitsProfile(profile, c.header)
    && (factor.Some? ==> profile == Small5 && !stripValue)
    && (stripValue ==> Neutral(c, narrow))
  }

  datatype ExportError = OutsideProfile | FactorNotProven | StripWithFactor | ValueHeadNotNeutral

  datatype Export = Exported(artifact: Loader.Artifact) | Refused(error: ExportError)

  /** What the artifact says it was derived by. */
  function Derived(stripValue: bool, ofChampion: bool): Option<Loader.Derivative> {
    if stripValue then
      Some(Loader.Derivative(if ofChampion then Loader.PolicyDistillStrip else Loader.StripNeutralValue, true))
    else if ofChampion then Some(Loader.Derivative(Loader.StructuredDistill, true))
    else None
  }

  function Rank(factor: Option<C.Factor>): nat {
    if factor.Some? then factor.value.rank else 0
  }

  /** The generated module. */
  function Generated(h: C.Header, factor: Option<C.Factor>, derivative: Option<Loader.Derivative>, payload: seq<Byte>):
      Loader.Artifact {
    var global := h.globalPolicyRank != 0;
    Loader.Artifact(
      true, if global then Loader.MixedPolicy else Loader.Q8Rows,
      h.extent, h.hidden, h.channels, h.residualBlocks, h.valueTower, h.behaviorFeatures,
      if h.InputChannels() == 16 then Loader.TacticalV1 else Loader.Original,
      Rank(factor), h.globalPolicyRank, global, payload, |payload|, derivative)
  }

  /** The kind of a checkpoint and its global policy decide how the artifact is read. */
  lemma DeclaredByKind(h: C.Header, factor: Option<C.Factor>, derivative: Option<Loader.Derivative>,
      payload: seq<Byte>)
    ensures var a := Generated(h, factor, derivative, payload);
      && (a.inputFeatures == Loader.TacticalV1 <==> h.kind == C.TacticalGlobalPolicy)
      && (a.inputFeatures == Loader.Original <==> h.kind == C.Plain || h.kind == C.GlobalPolicy)
      && (a.encoding == Loader.Q8Rows <==> h.globalPolicyRank == 0)
  {
  }

  /** An export counts as stripped for the loader exactly when its value head was, as distilled exactly when it was
      derived from the champion, and as no derivative when neither. */
  lemma DerivedForACause(h: C.Header, factor: Option<C.Factor>, stripValue: bool, ofChampion: bool, payload: seq<Byte>)
    ensures var a := Generated(h, factor, Derived(stripValue, ofChampion), payload);
      && (a.Stripped() <==> stripValue) && (a.derivative.Some? <==> stripValue || ofChampion)
      && (ofChampion <==> a.derivative.Some? && a.derivative.value.transform != Loader.StripNeutralValue)
  {
  }

  /** A header is good exactly when every dimension is a positive safe integer and the global rank, nought without a
      global policy, is at most 256. */
  lemma GoodHeaders(h: C.Header)
    ensures C.GoodHeader(h)
      <==> (forall d <- [h.extent, h.channels, h.residualBlocks, h.hidden, h.valueTower, h.behaviorFeatures] ::
              1 <= d < 9_007_199_254_740_992)
           && h.globalPolicyRank < 257 && (h.kind != C.Plain || h.globalPolicyRank < 1)
  {
    var dims := [h.extent, h.channels, h.residualBlocks, h.hidden, h.valueTower, h.behaviorFeatures];
    if forall d <- dims :: 1 <= d < 9_007_199_254_740_992 {
      assert dims[0] in dims && dims[1] in dims && dims[2] in dims && dims[3] in dims && dims[4] in dims
        && dims[5] in dims;
    }
  }

  method OnlyZeros(v: seq<real>, narrow: Narrow) returns (ok: bool)
    ensures ok <==> Zeros(v, narrow)
  {
    hide Exact, Sign;
    for n := 0 to |v|
      invariant forall x <- v[..n] :: Value(narrow(x)) == 0.0
    {
      var x := v[n];
      if Value(narrow(x)) != 0.0 {
        assert x in v && !Zeros(v, narrow);
        return false;
      }
    }
    assert v[..|v|] == v;
    ok := true;
  }

  method NeutralValueHead(c: C.Checkpoint, narrow: Narrow) returns (neutral: bool)
    requires C.Accepted(c)
    ensures neutral <==> Neutral(c, narrow)
  {
    hide C.Sizes, C.GoodHeader, Zeros;
    assert 20 <= |c.vectors| by { C.HeadsPresent(c); }
    for k := 6 to 12
      invariant forall j | 6 <= j < k :: Zeros(c.vectors[j], narrow)
    {
      var zeros := OnlyZeros(c.vectors[k], narrow);
      if !zeros { return false; }
    }
    neutral := true;
  }

  /** Export a parsed checkpoint, or say why not. */
  method ExportModel(profile: Profile, c: C.Checkpoint, factor: Option<C.Factor>, stripValue: bool, ofChampion: bool,
      narrow: Narrow) returns (r: Export)
    requires C.Accepted(c) && (factor.Some? ==> C.Fits(factor.value, c.header))
    ensures r.Exported? <==> Exportable(profile, c, factor, stripValue, narrow)
    ensures forall b <- C.Blocks(c, factor, stripValue, narrow) :: Shaped(b)
    ensures r.Exported? ==>
      r.artifact == Generated(c.header, factor, Derived(stripValue, ofChampion),
                              Payload(C.Blocks(c, factor, stripValue, narrow), narrow))
  {
    hide C.Blocks, C.Accepted, Neutral;
    C.AcceptedBlocksAreShaped(c, factor, stripValue, narrow);
    if !FitsProfile(profile, c.header) { return Refused(OutsideProfile); }
    if factor.Some? && profile != Small5 { return Refused(FactorNotProven); }
    if factor.Some? && stripValue { return Refused(StripWithFactor); }
    if stripValue {
      var neutral := NeutralValueHead(c, narrow);
      if !neutral { return Refused(ValueHeadNotNeutral); }
    }
    var payload := C.EncodeCheckpoint(c, factor, stripValue, narrow);
    r := Exported(Generated(c.header, factor, Derived(stripValue, ofChampion), payload.value[..]));
  }

  // ---------- the layouts agree ----------

  lemma {:induction false} StoredConcat(a: seq<Block>, b: seq<Block>)
    ensures AllStored(a + b) == AllStored(a) + AllStored(b)
    decreases |b|
  {
    hide Stored;
    if b == [] {
      assert a + b == a;
    } else {
      assert (a + b)[..|a + b| - 1] == a + b[..|b| - 1];
      StoredConcat(a, b[..|b| - 1]);
    }
  }

  lemma OneStored(b: Block)
    ensures AllStored([b]) == Stored(b)
  {
    hide Stored;
    assert [b][..0] == [];
  }

  lemma TwoStored(b: Block, d: Block)
    ensures AllStored([b, d]) == Stored(b) + Stored(d)
  {
    hide Stored, AllStored;
    assert [b, d] == [b] + [d];
    StoredConcat([b], [d]);
    OneStored(b);
    OneStored(d);
  }

  lemma TrunkIsStored(c: C.Checkpoint, a: Loader.Artifact, factor: Option<C.Factor>,
      derivative: Option<Loader.Derivative>, narrow: Narrow)
    requires C.Accepted(c) && a == Generated(c.header, factor, derivative, a.weights)
    ensures Loader.GoodDimensions(a)
    ensures AllStored(C.TrunkBlocks(c, narrow)) == Loader.TrunkPlan(a)
  {
    hide C.Words, AllStored;
    var (h, v, s, b) := (c.header, c.vectors, C.Sizes(c.header), C.TrunkBlocks(c, narrow));
    assert |v[0]| == s[0] && |v[1]| == s[1] && |v[2]| == s[2] && |v[3]| == s[3] && |v[4]| == s[4] && |v[5]| == s[5];
    assert b == [b[0]] + [b[1], b[2]];
    StoredConcat([b[0]], [b[1], b[2]]);
    OneStored(b[0]);
    TwoStored(b[1], b[2]);
    Positive(h.residualBlocks, h.channels);
    Positive(h.residualBlocks * 2, h.channels);
  }

  lemma Positive(a: nat, b: nat)
    requires 0 < a && 0 < b
    ensures 0 < a * b
  {
  }

  lemma ValueIsStored(c: C.Checkpoint, a: Loader.Artifact, factor: Option<C.Factor>,
      derivative: Option<Loader.Derivative>, narrow: Narrow)
    requires C.Accepted(c) && a == Generated(c.header, factor, derivative, a.weights)
    requires factor.Some? ==> C.Fits(factor.value, c.header)
    ensures Loader.GoodDimensions(a)
    ensures AllStored(C.ValueBlocks(c, factor, narrow)) == Loader.DensePlan(a) + Loader.TowerPlan(a)
  {
    hide C.Words, AllStored;
    var (h, v, s, b) := (c.header, c.vectors, C.Sizes(c.header), C.ValueBlocks(c, factor, narrow));
    assert |v[7]| == s[7] && |v[9]| == s[9] && |v[11]| == s[11];
    var k := |b| - 2;
    assert b == b[..k] + [b[k], b[k + 1]];
    StoredConcat(b[..k], [b[k], b[k + 1]]);
    TwoStored(b[k], b[k + 1]);
    if factor.Some? {
      assert b[..k] == [b[0], b[1]];
      TwoStored(b[0], b[1]);
    } else {
      assert b[..k] == [b[0]];
      OneStored(b[0]);
    }
  }

  lemma GlobalIsStored(c: C.Checkpoint, a: Loader.Artifact, factor: Option<C.Factor>,
      derivative: Option<Loader.Derivative>, narrow: Narrow)
    requires C.Accepted(c) && a == Generated(c.header, factor, derivative, a.weights)
    ensures Loader.GoodDimensions(a)
    ensures AllStored(C.GlobalBlocks(c, narrow)) == Loader.GlobalPlan(a)
  {
    hide C.Words, AllStored;
    var (h, v, s, b) := (c.header, c.vectors, C.Sizes(c.header), C.GlobalBlocks(c, narrow));
    if h.globalPolicyRank != 0 {
      assert |v[20]| == s[20] && |v[21]| == s[21] && |v[22]| == s[22] && |v[23]| == s[23];
      TwoStored(b[0], b[1]);
      Positive(h.extent, h.extent);
    } else {
      NoneStored();
    }
  }

  lemma NoneStored()
    ensures AllStored([]) == []
  {
  }

  /** The blocks in the groups the loader takes them in. */
  lemma Grouped(c: C.Checkpoint, factor: Option<C.Factor>, stripValue: bool, narrow: Narrow)
      returns (point: Block, pass: Block)
    requires C.Accepted(c)
    ensures 20 <= |c.vectors|
    ensures point == C.Tensor(c.vectors[12], 1, c.header.channels, c.vectors[13], C.PolicyStorage(c.header), narrow)
    ensures pass == C.Tensor(c.vectors[14], 1, c.header.Pooled(), c.vectors[15], C.PolicyStorage(c.header), narrow)
    ensures C.Blocks(c, factor, stripValue, narrow)
      == C.TrunkBlocks(c, narrow)
         + ((if stripValue then [] else C.ValueBlocks(c, factor, narrow))
            + ([point] + (C.GlobalBlocks(c, narrow) + [pass])))
  {
    hide C.TrunkBlocks, C.ValueBlocks, C.GlobalBlocks, C.Words, C.Sizes, C.GoodHeader;
    C.HeadsPresent(c);
    point := C.Tensor(c.vectors[12], 1, c.header.channels, c.vectors[13], C.PolicyStorage(c.header), narrow);
    pass := C.Tensor(c.vectors[14], 1, c.header.Pooled(), c.vectors[15], C.PolicyStorage(c.header), narrow);
  }

  lemma PointIsStored(c: C.Checkpoint, a: Loader.Artifact, point: Block, pass: Block, factor: Option<C.Factor>,
      derivative: Option<Loader.Derivative>, narrow: Narrow)
    requires C.Accepted(c) && a == Generated(c.header, factor, derivative, a.weights) && 20 <= |c.vectors|
    requires point == C.Tensor(c.vectors[12], 1, c.header.channels, c.vectors[13], C.PolicyStorage(c.header), narrow)
    requires pass == C.Tensor(c.vectors[14], 1, c.header.Pooled(), c.vectors[15], C.PolicyStorage(c.header), narrow)
    ensures Loader.GoodDimensions(a)
    ensures AllStored([point]) == Loader.PointPlan(a) && AllStored([pass]) == Loader.PassPlan(a)
  {
    hide C.Words, AllStored;
    var (v, s) := (c.vectors, C.Sizes(c.header));
    assert |v[12]| == s[12] && |v[13]| == s[13] && |v[14]| == s[14] && |v[15]| == s[15];
    OneStored(point);
    OneStored(pass);
  }

  /** What the exporter stores is what the loader plans to take. */
  lemma LayoutsAgree(c: C.Checkpoint, a: Loader.Artifact, factor: Option<C.Factor>, stripValue: bool, ofChampion: bool,
      narrow: Narrow)
    requires C.Accepted(c) && (factor.Some? ==> C.Fits(factor.value, c.header))
    requires a == Generated(c.header, factor, Derived(stripValue, ofChampion), a.weights)
    ensures Loader.GoodDimensions(a) && 0 <= a.valueRank && 0 <= a.globalPolicyRank
    ensures AllStored(C.Blocks(c, factor, stripValue, narrow)) == Loader.Plan(a)
  {
    hide C.Blocks, C.TrunkBlocks, C.ValueBlocks, C.GlobalBlocks, AllStored, Loader.TrunkPlan, Loader.DensePlan;
    hide Loader.TowerPlan, Loader.PointPlan, Loader.GlobalPlan, Loader.PassPlan, C.Sizes, C.Fits, Loader.GoodDimensions;
    var point, pass := Grouped(c, factor, stripValue, narrow);
    var value := if stripValue then [] else C.ValueBlocks(c, factor, narrow);
    var global := C.GlobalBlocks(c, narrow);
    TrunkIsStored(c, a, factor, Derived(stripValue, ofChampion), narrow);
    ValueIsStored(c, a, factor, Derived(stripValue, ofChampion), narrow);
    GlobalIsStored(c, a, factor, Derived(stripValue, ofChampion), narrow);
    PointIsStored(c, a, point, pass, factor, Derived(stripValue, ofChampion), narrow);
    StoredConcat(C.TrunkBlocks(c, narrow), value + ([point] + (global + [pass])));
    StoredConcat(value, [point] + (global + [pass]));
    StoredConcat([point], global + [pass]);
    StoredConcat(global, [pass]);
    NoneStored();
  }

  // ---------- the loader against the exporter ----------

  /** Nothing in the metadata of an export is refused. */
  lemma ExportIsRecognized(profile: Profile, c: C.Checkpoint, factor: Option<C.Factor>, stripValue: bool,
      ofChampion: bool, payload: seq<Byte>, narrow: Narrow)
    requires C.Accepted(c) && (factor.Some? ==> C.Fits(factor.value, c.header))
    requires Exportable(profile, c, factor, stripValue, narrow)
    ensures Loader.Refusal(Generated(c.header, factor, Derived(stripValue, ofChampion), payload)).None?
  {
    hide C.Sizes, Neutral;
  }

  /** Every eight-bit row of the export has a scale that binary32 does not round to nothing. */
  ghost predicate ScalesSurvive(c: C.Checkpoint, factor: Option<C.Factor>, stripValue: bool, narrow: Narrow)
    requires C.Accepted(c) && (factor.Some? ==> C.Fits(factor.value, c.header))
  {
    C.AcceptedBlocksAreShaped(c, factor, stripValue, narrow);
    AllScaled(C.Blocks(c, factor, stripValue, narrow), narrow)
  }

  /** The loader reads an export to its last byte and takes exactly the exporter's tensors, unless the scale of some
      eight-bit row rounds to zero: then, and only then, it refuses the artifact. */
  lemma ExportIsRead(profile: Profile, c: C.Checkpoint, factor: Option<C.Factor>, stripValue: bool, ofChampion: bool,
      narrow: Narrow, r: Loader.Reads<Loader.Weights>)
    requires C.Accepted(c) && (factor.Some? ==> C.Fits(factor.value, c.header))
    requires Exportable(profile, c, factor, stripValue, narrow)
    requires forall b <- C.Blocks(c, factor, stripValue, narrow) :: Shaped(b)
    requires var payload := Payload(C.Blocks(c, factor, stripValue, narrow), narrow);
      var a := Generated(c.header, factor, Derived(stripValue, ofChampion), payload);
      Loader.Refusal(a).None? ==> Loader.Loads(a, narrow, r)
    ensures ScalesSurvive(c, factor, stripValue, narrow) <==> r.Read?
    ensures !ScalesSurvive(c, factor, stripValue, narrow) <==> r == Loader.Failed(Loader.InvalidScale)
    ensures r.Read? ==>
      var a := Generated(c.header, factor, Derived(stripValue, ofChampion), []);
      && Loader.Listed(r.value, a) == AllTensors(C.Blocks(c, factor, stripValue, narrow), narrow)
      && Loader.AbsentIsEmpty(r.value, a)
      && r.value.flat == Loader.Joined(AllTensors(C.Blocks(c, factor, stripValue, narrow), narrow))
  {
    hide C.Blocks, C.Fits, Exportable, AllStored, AllTensors, AllScaled, Shaped, Loader.Reading, Loader.Joined;
    hide Loader.Sizes, Loader.Plan, Payload, Loader.Refusal;
    var blocks := C.Blocks(c, factor, stripValue, narrow);
    var a := Generated(c.header, factor, Derived(stripValue, ofChampion), Payload(blocks, narrow));
    ExportIsRecognized(profile, c, factor, stripValue, ofChampion, Payload(blocks, narrow), narrow);
    LayoutsAgree(c, a, factor, stripValue, ofChampion, narrow);
    PayloadReads(blocks, narrow);
  }
}
