/** The runtime's loader (shared/strategy/go/neural/artifact.ts): it checks an artifact's metadata and expands its
 * bytes into the network's tensors. */
module ArtifactLoader {
  import opened ArtifactLayout
  import opened HalfFloat
  import opened HalfWidening
  import opened RowQuantization
  import opened Wrappers

  datatype Encoding = Q8Rows | MixedPolicy | OtherEncoding

  datatype InputFeatures = Original | TacticalV1 | OtherFeatures

  datatype Transform = StripNeutralValue | StructuredDistill | PolicyDistillStrip | OtherTransform

  /** `bound` says that the champion named is a SHA-256. */
  datatype Derivative = Derivative(transform: Transform, bound: bool)

  /** `known` says that format and topology are the ones supported, `policyIsF16` that the global policy declares its
      f16 encoding; the ranks and dimensions are whatever integers the metadata holds. */
  datatype Artifact = Artifact(
    known: bool, encoding: Encoding,
    extent: int, hidden: int, channels: int, residualBlocks: int, valueTower: int, behaviorFeatures: int,
    inputFeatures: InputFeatures, valueRank: int, globalPolicyRank: int, policyIsF16: bool,
    weights: seq<Byte>, byteLength: int, derivative: Option<Derivative>)
  {
    function InputChannels(): nat {
      if inputFeatures.TacticalV1? then 16 else 8
    }

    predicate Stripped() {
      derivative.Some? && (derivative.value.transform.StripNeutralValue?
                           || derivative.value.transform.PolicyDistillStrip?)
    }
  }

  datatype LoadError =
    | Unsupported | MissingDimensions | Incompatible | InvalidValueRank | InvalidPolicyRank | PolicyNeedsF16
    | UnsupportedFeatures | UnknownDerivative | UnboundDerivative | StrippedFactor | WrongLength
    | Truncated | InvalidScale | TrailingBytes | InconsistentLayout

  datatype Reads<T> = Read(value: T) | Failed(error: LoadError) {
    predicate IsFailure() {
      Failed?
    }

    function PropagateFailure<U>(): Reads<U>
      requires Failed?
    {
      Failed(error)
    }

    function Extract(): T
      requires Read?
    {
      value
    }
  }

  const LARGEST_SAFE := 9007199254740991
  const VALUE_OUTPUTS: nat := 3

  predicate PositiveSafe(n: int) {
    0 < n <= LARGEST_SAFE
  }

  predicate GoodDimensions(a: Artifact) {
    && PositiveSafe(a.extent) && PositiveSafe(a.hidden) && PositiveSafe(a.channels)
    && PositiveSafe(a.residualBlocks) && PositiveSafe(a.valueTower) && PositiveSafe(a.behaviorFeatures)
  }

  /** Why the metadata alone is refused, in the order the checks are made. */
  function Refusal(a: Artifact): Option<LoadError> {
    if !a.known || a.encoding.OtherEncoding? then Some(Unsupported)
    else if !GoodDimensions(a) then Some(MissingDimensions)
    else if a.channels % 4 != 0 || a.hidden > 256 || a.valueTower > 256 then Some(Incompatible)
    else if a.valueRank < 0 || a.valueRank >= a.hidden || a.valueRank >= a.channels * 25 then Some(InvalidValueRank)
    else if a.globalPolicyRank < 0 || a.globalPolicyRank > 256 then Some(InvalidPolicyRank)
    else if a.globalPolicyRank > 0 && !(a.encoding.MixedPolicy? && a.policyIsF16) then Some(PolicyNeedsF16)
    else if a.inputFeatures.OtherFeatures? then Some(UnsupportedFeatures)
    else if a.derivative.Some? && a.derivative.value.transform.OtherTransform? then Some(UnknownDerivative)
    else if a.derivative.Some? && !a.derivative.value.bound then Some(UnboundDerivative)
    else if a.Stripped() && a.valueRank != 0 then Some(StrippedFactor)
    else if |a.weights| != a.byteLength then Some(WrongLength)
    else None
  }

  // ---------- what a stretch of bytes reads as ----------

  /** A tensor as it is stored: rows of eight-bit codes and their scales, or halves. */
  datatype Shape = Rows(rows: nat, columns: nat) | Halves(count: nat)

  function Count(s: Shape): nat {
    match s
    case Rows(rows, columns) => Entries(rows, columns)
    case Halves(count) => count
  }

  function Entries(rows: nat, columns: nat): (n: nat)
    ensures n == rows * columns
  {
    RowsFit(0, rows, columns);
    rows * columns
  }

  function Size(s: Shape): nat {
    match s
    case Rows(rows, _) => Count(s) + 4 * rows
    case Halves(count) => 2 * count
  }

  function Sizes(plan: seq<Shape>): nat {
    if plan == [] then 0 else Sizes(plan[..|plan| - 1]) + Size(plan[|plan| - 1])
  }

  function Counts(plan: seq<Shape>): nat {
    if plan == [] then 0 else Counts(plan[..|plan| - 1]) + Count(plan[|plan| - 1])
  }

  /** The scale of one row, of those that begin at `scales`. */
  function Scale(bytes: seq<Byte>, scales: nat, r: nat): Word
    requires scales + 4 * r + 4 <= |bytes|
  {
    FromLittleEndian(bytes[scales + 4 * r..scales + 4 * r + 4])
  }

  /** A scale the loader accepts: a positive number. */
  predicate GoodScale(scale: Word) {
    Finite(scale) && 0.0 < Value(scale)
  }

  predicate GoodScales(bytes: seq<Byte>, at: nat, rows: nat)
    requires at + 4 * rows <= |bytes|
  {
    forall r: nat | r < rows :: GoodScale(Scale(bytes, at, r))
  }

  /** A signed code times its scale. */
  function Multiplied(code: Byte, scale: Word): real {
    FromByte(code) as real * Value(scale)
  }

  /** One weight, stored as binary32. */
  function Expanded(code: Byte, scale: Word, narrow: Narrow): Word {
    narrow(Multiplied(code, scale))
  }

  function RowAt(bytes: seq<Byte>, at: nat, columns: nat, scale: Word, narrow: Narrow): (row: seq<Word>)
    requires at + columns <= |bytes|
    ensures |row| == columns
  {
    seq<Word>(columns, c requires 0 <= c < columns => Expanded(bytes[at + c], scale, narrow))
  }

  function RowsAt(bytes: seq<Byte>, at: nat, scales: nat, rows: nat, columns: nat, narrow: Narrow): (t: seq<Word>)
    requires at + Entries(rows, columns) <= |bytes| && scales + 4 * rows <= |bytes|
    ensures |t| == Entries(rows, columns)
  {
    if rows == 0 then []
    else
      NextRow(rows - 1, columns);
      RowsAt(bytes, at, scales, rows - 1, columns, narrow)
      + RowAt(bytes, at + Entries(rows - 1, columns), columns, Scale(bytes, scales, rows - 1), narrow)
  }

  function HalfAt(bytes: seq<Byte>, at: nat): HalfWord
    requires at + 2 <= |bytes|
  {
    var low: int, high: int := bytes[at], bytes[at + 1];
    low + 256 * high
  }

  function HalvesAt(bytes: seq<Byte>, at: nat, n: nat): (t: seq<Word>)
    requires at + 2 * n <= |bytes|
    ensures |t| == n
  {
    seq<Word>(n, k requires 0 <= k < n => Widened(HalfAt(bytes, at + 2 * k)))
  }

  function TensorAt(bytes: seq<Byte>, at: nat, s: Shape, narrow: Narrow): (r: Reads<seq<Word>>)
    ensures r.Read? ==> |r.value| == Count(s) && at + Size(s) <= |bytes|
  {
    if at + Size(s) > |bytes| then Failed(Truncated)
    else
      match s
      case Rows(rows, columns) =>
        var scales := at + Count(s);
        if GoodScales(bytes, scales, rows) then Read(RowsAt(bytes, at, scales, rows, columns, narrow))
        else Failed(InvalidScale)
      case Halves(count) => Read(HalvesAt(bytes, at, count))
  }

  /** The tensors of a plan, one after the other from the first byte, or the first failure. */
  function Reading(bytes: seq<Byte>, plan: seq<Shape>, narrow: Narrow): (r: Reads<seq<seq<Word>>>)
    ensures r.Read? ==> |r.value| == |plan| && Sizes(plan) <= |bytes|
  {
    if plan == [] then Read([])
    else
      var shorter, last := plan[..|plan| - 1], plan[|plan| - 1];
      var before := Reading(bytes, shorter, narrow);
      if before.Failed? then before
      else
        var tensor := TensorAt(bytes, Sizes(shorter), last, narrow);
        if tensor.Failed? then Failed(tensor.error) else Read(before.value + [tensor.value])
  }

  /** A failure is the failure of every longer plan. */
  lemma {:induction false} FailureStays(bytes: seq<Byte>, plan: seq<Shape>, n: nat, narrow: Narrow)
    requires n <= |plan| && Reading(bytes, plan[..n], narrow).Failed?
    ensures Reading(bytes, plan, narrow) == Reading(bytes, plan[..n], narrow)
    decreases |plan|
  {
    hide TensorAt;
    if n < |plan| {
      assert plan[..|plan| - 1][..n] == plan[..n];
      FailureStays(bytes, plan[..|plan| - 1], n, narrow);
    } else {
      assert plan[..n] == plan;
    }
  }

  lemma OneMoreTensor(bytes: seq<Byte>, plan: seq<Shape>, n: nat, narrow: Narrow)
    requires n < |plan| && Reading(bytes, plan[..n], narrow).Read?
    ensures Sizes(plan[..n + 1]) == Sizes(plan[..n]) + Size(plan[n])
    ensures Counts(plan[..n + 1]) == Counts(plan[..n]) + Count(plan[n])
    ensures var (before, tensor) := (Reading(bytes, plan[..n], narrow),
                                     TensorAt(bytes, Sizes(plan[..n]), plan[n], narrow));
      && (tensor.Failed? ==> Reading(bytes, plan[..n + 1], narrow) == Failed(tensor.error))
      && (tensor.Read? ==> Reading(bytes, plan[..n + 1], narrow) == Read(before.value + [tensor.value]))
  {
    hide TensorAt;
    assert plan[..n + 1][..n] == plan[..n];
  }

  // ---------- the two takers ----------

  function Joined(tensors: seq<seq<Word>>): seq<Word> {
    if tensors == [] then [] else Joined(tensors[..|tensors| - 1]) + tensors[|tensors| - 1]
  }

  /** Whether the plan goes on with `part` from place `n`. */
  ghost predicate From(plan: seq<Shape>, n: nat, part: seq<Shape>) {
    n + |part| <= |plan| && plan[n..n + |part|] == part
  }

  lemma FromBoth(plan: seq<Shape>, n: nat, a: seq<Shape>, b: seq<Shape>)
    requires From(plan, n, a + b)
    ensures From(plan, n, a) && From(plan, n + |a|, b)
  {
    assert plan[n..n + |a|] == plan[n..n + |a + b|][..|a|] == a;
    assert plan[n + |a|..n + |a| + |b|] == plan[n..n + |a + b|][|a|..] == b;
  }

  lemma FromAt(plan: seq<Shape>, n: nat, part: seq<Shape>)
    requires From(plan, n, part)
    ensures forall k | 0 <= k < |part| :: plan[n + k] == part[k]
  {
    forall k | 0 <= k < |part| ensures plan[n + k] == part[k] {
      assert plan[n..n + |part|][k] == plan[n + k];
    }
  }

  /** The cursor the loader's two takers share, and the flat allocation they fill. `plan` is everything the loader
      is going to take, of which it has taken `tensors`. */
  class Reader {
    const bytes: seq<Byte>
    const narrow: Narrow
    var offset: nat
    var flat: seq<Word>
    ghost const plan: seq<Shape>
    ghost var tensors: seq<seq<Word>>

    ghost predicate Valid()
      reads this
    {
      && |tensors| <= |plan| && Reading(bytes, plan[..|tensors|], narrow) == Read(tensors)
      && offset == Sizes(plan[..|tensors|])
      && flat == Joined(tensors) && |flat| == Counts(plan[..|tensors|])
    }

    constructor (bytes: seq<Byte>, narrow: Narrow, ghost plan: seq<Shape>)
      ensures Valid() && tensors == []
      ensures this.bytes == bytes && this.narrow == narrow && this.plan == plan
    {
      this.bytes, this.narrow, this.offset, this.flat := bytes, narrow, 0, [];
      this.plan, this.tensors := plan, [];
    }

    /** Whether `s` is what the plan takes next. */
    ghost predicate Due(s: Shape)
      reads this
    {
      |tensors| < |plan| && plan[|tensors|] == s
    }

    /** Whether `part` is what the plan takes next. */
    ghost predicate Ahead(part: seq<Shape>)
      reads this
    {
      From(plan, |tensors|, part)
    }

    /** Take note of a tensor read, or of the failure. */
    lemma Taken(s: Shape)
      requires Valid() && Due(s)
      ensures var tensor := TensorAt(bytes, offset, s, narrow);
        && (tensor.Failed? ==> Reading(bytes, plan, narrow) == Failed(tensor.error))
        && (tensor.Read? ==>
              && Reading(bytes, plan[..|tensors| + 1], narrow) == Read(tensors + [tensor.value])
              && Sizes(plan[..|tensors| + 1]) == offset + Size(s)
              && Counts(plan[..|tensors| + 1]) == |flat| + Count(s)
              && Joined(tensors + [tensor.value]) == flat + tensor.value)
    {
      hide TensorAt, Size, Count;
      OneMoreTensor(bytes, plan, |tensors|, narrow);
      var tensor := TensorAt(bytes, offset, s, narrow);
      if tensor.Failed? {
        FailureStays(bytes, plan, |tensors| + 1, narrow);
      } else {
        assert (tensors + [tensor.value])[..|tensors|] == tensors;
      }
    }

    /** The rows of one tensor, each multiplied out with its scale. */
    method ExpandRows(scales: nat, rows: nat, columns: nat) returns (r: Reads<seq<Word>>)
      requires scales == offset + Entries(rows, columns) && scales + 4 * rows <= |bytes|
      ensures r == if GoodScales(bytes, scales, rows) then Read(RowsAt(bytes, offset, scales, rows, columns, narrow))
                   else Failed(InvalidScale)
    {
      hide Expanded, Scale, GoodScale;
      var result: seq<Word> := [];
      for row := 0 to rows
        invariant Entries(row, columns) <= Entries(rows, columns)
        invariant forall k: nat | k < row :: GoodScale(Scale(bytes, scales, k))
        invariant result == RowsAt(bytes, offset, scales, row, columns, narrow)
      {
        NextRow(row, columns);
        RowsFit(row + 1, rows, columns);
        var scale := Scale(bytes, scales, row);
        if !GoodScale(scale) { return Failed(InvalidScale); }
        var start := offset + row * columns;
        ghost var done := result;
        for column := 0 to columns
          invariant result == done + RowAt(bytes, start, columns, scale, narrow)[..column]
        {
          result := result + [Expanded(bytes[start + column], scale, narrow)];
        }
      }
      r := Read(result);
    }

    method TakeQ8(rows: nat, columns: nat) returns (r: Reads<seq<Word>>)
      requires Valid() && Due(Rows(rows, columns))
      modifies this`offset, this`flat, this`tensors
      ensures r.Read? ==> Valid() && tensors == old(tensors) + [r.value]
      ensures r.Failed? ==> Reading(bytes, plan, narrow) == r.PropagateFailure()
    {
      hide Reading, Joined, Counts, Sizes, RowsAt, GoodScales;
      Taken(Rows(rows, columns));
      var count := Entries(rows, columns);
      var scales := offset + count;
      if scales + rows * 4 > |bytes| { return Failed(Truncated); }
      var result :- ExpandRows(scales, rows, columns);
      offset := scales + rows * 4;
      flat := flat + result;
      tensors := tensors + [result];
      r := Read(result);
    }

    /** Once everything planned is taken, the whole plan is read. */
    lemma AllTaken()
      requires Valid() && |tensors| == |plan|
      ensures Reading(bytes, plan, narrow) == Read(tensors) && offset == Sizes(plan)
      ensures flat == Joined(tensors) && |flat| == Counts(plan)
    {
      hide Reading, Joined, Sizes, Counts;
      assert plan[..|plan|] == plan;
    }

    method ExpandHalves(count: nat) returns (result: seq<Word>)
      requires offset + 2 * count <= |bytes|
      modifies this`offset
      ensures offset == old(offset) + 2 * count && result == HalvesAt(bytes, old(offset), count)
    {
      hide Widened;
      result := [];
      for index := 0 to count
        invariant offset == old(offset) + 2 * index
        invariant result == HalvesAt(bytes, old(offset), count)[..index]
      {
        var word := HalfToFloat(HalfAt(bytes, offset));
        result := result + [word];
        offset := offset + 2;
      }
    }

    method TakeF16(count: nat) returns (r: Reads<seq<Word>>)
      requires Valid() && Due(Halves(count))
      modifies this`offset, this`flat, this`tensors
      ensures r.Read? ==> Valid() && tensors == old(tensors) + [r.value]
      ensures r.Failed? ==> Reading(bytes, plan, narrow) == r.PropagateFailure()
    {
      hide Reading, Joined, Counts, Sizes, HalvesAt;
      Taken(Halves(count));
      if offset + count * 2 > |bytes| { return Failed(Truncated); }
      var result := ExpandHalves(count);
      flat := flat + result;
      tensors := tensors + [result];
      r := Read(result);
    }
  }

  // ---------- the artifact's own layout ----------

  /** A trunk or policy tensor, of which the two encodings state the size in their own way. */
  function Tensor(f16: bool, count: nat, rows: nat, columns: nat): Shape {
    if f16 then Halves(count) else Rows(rows, columns)
  }

  function TrunkPlan(a: Artifact): (plan: seq<Shape>)
    requires GoodDimensions(a)
    ensures |plan| == 6
  {
    var (f16, input) := (a.encoding.MixedPolicy?, a.InputChannels());
    var c: nat, r: nat := a.channels, a.residualBlocks;
    var both := Entries(r * 2, c);
    [ Tensor(f16, Entries(Entries(c, input), 9), c, input * 9), Halves(c),
      Tensor(f16, Entries(Entries(both, c), 9), both, c * 9), Halves(both),
      Tensor(f16, Entries(Entries(r, c), a.behaviorFeatures), Entries(r, c), a.behaviorFeatures),
      Halves(Entries(r, c)) ]
  }

  /** The dense layer of the value head is split in two at a positive rank. */
  function DensePlan(a: Artifact): (plan: seq<Shape>)
    requires GoodDimensions(a) && 0 <= a.valueRank
  {
    if a.valueRank != 0 then [Rows(a.hidden, a.valueRank), Rows(a.valueRank, a.channels * 25)]
    else [Rows(a.hidden, a.channels * 25)]
  }

  function TowerPlan(a: Artifact): (plan: seq<Shape>)
    requires GoodDimensions(a)
    ensures |plan| == 5
  {
    [ Halves(a.hidden), Rows(a.valueTower, a.hidden), Halves(a.valueTower), Rows(VALUE_OUTPUTS, a.valueTower),
      Halves(VALUE_OUTPUTS) ]
  }

  function ValuePlan(a: Artifact): (plan: seq<Shape>)
    requires GoodDimensions(a) && 0 <= a.valueRank
    ensures |plan| == if a.Stripped() then 0 else if a.valueRank != 0 then 7 else 6
  {
    if a.Stripped() then [] else DensePlan(a) + TowerPlan(a)
  }

  function PointPlan(a: Artifact): (plan: seq<Shape>)
    requires GoodDimensions(a)
  {
    [Tensor(a.encoding.MixedPolicy?, a.channels, 1, a.channels), Halves(1)]
  }

  function GlobalPlan(a: Artifact): (plan: seq<Shape>)
    requires GoodDimensions(a) && 0 <= a.globalPolicyRank
  {
    var pooled: nat, rank: nat, points := a.channels * 25, a.globalPolicyRank, Entries(a.extent, a.extent);
    if rank != 0 then [Halves(Entries(rank, pooled)), Halves(rank), Halves(Entries(points, rank)), Halves(points)]
    else []
  }

  function PassPlan(a: Artifact): (plan: seq<Shape>)
    requires GoodDimensions(a)
  {
    [Tensor(a.encoding.MixedPolicy?, a.channels * 25, 1, a.channels * 25), Halves(1)]
  }

  function PolicyPlan(a: Artifact): (plan: seq<Shape>)
    requires GoodDimensions(a) && 0 <= a.globalPolicyRank
    ensures |plan| == if a.globalPolicyRank != 0 then 8 else 4
  {
    PointPlan(a) + (GlobalPlan(a) + PassPlan(a))
  }

  function Plan(a: Artifact): seq<Shape>
    requires GoodDimensions(a) && 0 <= a.valueRank && 0 <= a.globalPolicyRank
  {
    TrunkPlan(a) + (ValuePlan(a) + PolicyPlan(a))
  }

  /** How many weights the flat allocation holds. */
  function ParameterCount(a: Artifact): int {
    var pooled := a.channels * 25;
    a.channels * a.InputChannels() * 9 + a.channels
    + a.residualBlocks * 2 * a.channels * a.channels * 9 + a.residualBlocks * 2 * a.channels
    + a.residualBlocks * a.channels * a.behaviorFeatures + a.residualBlocks * a.channels
    + (if a.Stripped() then 0
       else
         (if a.valueRank != 0 then a.hidden * a.valueRank + a.valueRank * pooled else a.hidden * pooled)
         + a.hidden + a.valueTower * a.hidden + a.valueTower + VALUE_OUTPUTS * a.valueTower + VALUE_OUTPUTS)
    + a.channels + 1
    + (if a.globalPolicyRank != 0 then
         a.globalPolicyRank * pooled + a.globalPolicyRank + a.extent * a.extent * a.globalPolicyRank
         + a.extent * a.extent
       else 0)
    + pooled + 1
  }

  datatype Trunk = Trunk(
    stem: seq<Word>, stemBias: seq<Word>, residual: seq<Word>, residualBias: seq<Word>,
    conditioningW: seq<Word>, conditioningB: seq<Word>)
  {
    function Listed(): (l: seq<seq<Word>>)
      ensures |l| == 6
    {
      [stem, stemBias, residual, residualBias, conditioningW, conditioningB]
    }
  }

  datatype ValueHead = ValueHead(
    valueW1: seq<Word>, valueW1Right: seq<Word>, valueB1: seq<Word>, valueW2: seq<Word>, valueB2: seq<Word>,
    valueOutW: seq<Word>, valueOutB: seq<Word>)
  {
    function Listed(split: bool): (l: seq<seq<Word>>)
      ensures |l| == if split then 7 else 6
    {
      (if split then [valueW1, valueW1Right] else [valueW1]) + [valueB1, valueW2, valueB2, valueOutW, valueOutB]
    }
  }

  datatype PolicyHead = PolicyHead(
    policyW: seq<Word>, policyB: seq<Word>, globalPolicyW1: seq<Word>, globalPolicyB1: seq<Word>,
    globalPolicyW2: seq<Word>, globalPolicyB2: seq<Word>, passW: seq<Word>, passB: seq<Word>)
  {
    function Listed(global: bool): (l: seq<seq<Word>>)
      ensures |l| == if global then 8 else 4
    {
      [policyW, policyB]
      + ((if global then [globalPolicyW1, globalPolicyB1, globalPolicyW2, globalPolicyB2] else []) + [passW, passB])
    }
  }

  /** The tensors by name, and all of them in one allocation. An absent tensor is empty. */
  datatype Weights = Weights(trunk: Trunk, value: ValueHead, policy: PolicyHead, flat: seq<Word>, valueTrained: bool)

  const NO_VALUE := ValueHead([], [], [], [], [], [], [])

  /** The tensors present, in the order they are stored. */
  function Listed(w: Weights, a: Artifact): seq<seq<Word>> {
    w.trunk.Listed()
    + ((if a.Stripped() then [] else w.value.Listed(a.valueRank != 0)) + w.policy.Listed(a.globalPolicyRank != 0))
  }

  ghost predicate AbsentIsEmpty(w: Weights, a: Artifact) {
    && (a.Stripped() ==> w.value == NO_VALUE)
    && (a.valueRank == 0 ==> w.value.valueW1Right == [])
    && (a.globalPolicyRank == 0 ==>
          && w.policy.globalPolicyW1 == w.policy.globalPolicyB1 == []
          && w.policy.globalPolicyW2 == w.policy.globalPolicyB2 == [])
  }

  method TakeTensor(reader: Reader, f16: bool, count: nat, rows: nat, columns: nat) returns (r: Reads<seq<Word>>)
    requires reader.Valid() && reader.Due(Tensor(f16, count, rows, columns))
    modifies reader`offset, reader`flat, reader`tensors
    ensures r.Read? ==> reader.Valid() && reader.tensors == old(reader.tensors) + [r.value]
    ensures r.Failed? ==> Reading(reader.bytes, reader.plan, reader.narrow) == r.PropagateFailure()
  {
    if f16 { r := reader.TakeF16(count); } else { r := reader.TakeQ8(rows, columns); }
  }

  method TakeTrunk(reader: Reader, a: Artifact) returns (r: Reads<Trunk>)
    requires GoodDimensions(a) && reader.Valid() && reader.Ahead(TrunkPlan(a))
    modifies reader`offset, reader`flat, reader`tensors
    ensures r.Read? ==> reader.Valid() && reader.tensors == old(reader.tensors) + r.value.Listed()
    ensures r.Failed? ==> Reading(reader.bytes, reader.plan, reader.narrow) == r.PropagateFailure()
  {
    hide Reading, Tensor, Reader.Valid;
    ghost var p := TrunkPlan(a);
    ghost var n := |reader.tensors|;
    FromAt(reader.plan, n, p);
    assert reader.plan[n + 0] == p[0] && reader.plan[n + 1] == p[1] && reader.plan[n + 2] == p[2];
    assert reader.plan[n + 3] == p[3] && reader.plan[n + 4] == p[4] && reader.plan[n + 5] == p[5];
    var f16, input := a.encoding.MixedPolicy?, a.InputChannels();
    var c: nat, blocks: nat := a.channels, a.residualBlocks;
    var both := Entries(blocks * 2, c);
    var stem :- TakeTensor(reader, f16, Entries(Entries(c, input), 9), c, input * 9);
    var stemBias :- reader.TakeF16(c);
    var residual :- TakeTensor(reader, f16, Entries(Entries(both, c), 9), both, c * 9);
    var residualBias :- reader.TakeF16(both);
    var conditioningW :- TakeTensor(reader, f16, Entries(Entries(blocks, c), a.behaviorFeatures), Entries(blocks, c),
      a.behaviorFeatures);
    var conditioningB :- reader.TakeF16(Entries(blocks, c));
    r := Read(Trunk(stem, stemBias, residual, residualBias, conditioningW, conditioningB));
  }

  method TakeDense(reader: Reader, a: Artifact) returns (r: Reads<(seq<Word>, seq<Word>)>)
    requires GoodDimensions(a) && 0 <= a.valueRank
    requires reader.Valid() && reader.Ahead(DensePlan(a))
    modifies reader`offset, reader`flat, reader`tensors
    ensures r.Read? ==> reader.Valid()
    ensures r.Read? ==>
      if a.valueRank != 0 then reader.tensors == old(reader.tensors) + [r.value.0, r.value.1]
      else reader.tensors == old(reader.tensors) + [r.value.0] && r.value.1 == []
    ensures r.Failed? ==> Reading(reader.bytes, reader.plan, reader.narrow) == r.PropagateFailure()
  {
    hide Reading, Reader.Valid;
    ghost var n := |reader.tensors|;
    FromAt(reader.plan, n, DensePlan(a));
    assert reader.plan[n + 0] == DensePlan(a)[0];
    assert a.valueRank != 0 ==> reader.plan[n + 1] == DensePlan(a)[1];
    var valueW1 :- reader.TakeQ8(a.hidden, if a.valueRank != 0 then a.valueRank else a.channels * 25);
    var valueW1Right := [];
    if a.valueRank != 0 {
      valueW1Right :- reader.TakeQ8(a.valueRank, a.channels * 25);
    }
    r := Read((valueW1, valueW1Right));
  }

  method TakeTower(reader: Reader, a: Artifact) returns (r: Reads<seq<seq<Word>>>)
    requires GoodDimensions(a)
    requires reader.Valid() && reader.Ahead(TowerPlan(a))
    modifies reader`offset, reader`flat, reader`tensors
    ensures r.Read? ==> reader.Valid() && |r.value| == 5 && reader.tensors == old(reader.tensors) + r.value
    ensures r.Failed? ==> Reading(reader.bytes, reader.plan, reader.narrow) == r.PropagateFailure()
  {
    hide Reading, Reader.Valid;
    ghost var (p, n) := (TowerPlan(a), |reader.tensors|);
    FromAt(reader.plan, n, p);
    assert reader.plan[n + 0] == p[0] && reader.plan[n + 1] == p[1] && reader.plan[n + 2] == p[2];
    assert reader.plan[n + 3] == p[3] && reader.plan[n + 4] == p[4];
    var valueB1 :- reader.TakeF16(a.hidden);
    var valueW2 :- reader.TakeQ8(a.valueTower, a.hidden);
    var valueB2 :- reader.TakeF16(a.valueTower);
    var valueOutW :- reader.TakeQ8(VALUE_OUTPUTS, a.valueTower);
    var valueOutB :- reader.TakeF16(VALUE_OUTPUTS);
    r := Read([valueB1, valueW2, valueB2, valueOutW, valueOutB]);
  }

  method TakeTrained(reader: Reader, a: Artifact) returns (r: Reads<ValueHead>)
    requires GoodDimensions(a) && 0 <= a.valueRank
    requires reader.Valid() && reader.Ahead(DensePlan(a))
    requires From(reader.plan, |reader.tensors| + |DensePlan(a)|, TowerPlan(a))
    modifies reader`offset, reader`flat, reader`tensors
    ensures r.Read? ==> reader.Valid() && reader.tensors == old(reader.tensors) + r.value.Listed(a.valueRank != 0)
    ensures r.Read? && a.valueRank == 0 ==> r.value.valueW1Right == []
    ensures r.Failed? ==> Reading(reader.bytes, reader.plan, reader.narrow) == r.PropagateFailure()
  {
    hide Reading, Reader.Valid, DensePlan, TowerPlan, From, GoodDimensions, ValueHead.Listed;
    DenseLength(a);
    ghost var before := reader.tensors;
    var dense :- TakeDense(reader, a);
    ghost var first := reader.tensors;
    var tower :- TakeTower(reader, a);
    var head := ValueHead(dense.0, dense.1, tower[0], tower[1], tower[2], tower[3], tower[4]);
    HeadListed(head, tower, before, first, a.valueRank != 0);
    r := Read(head);
  }

  /** The value head, or nothing of it if it was stripped. */
  method TakeValueHead(reader: Reader, a: Artifact) returns (r: Reads<ValueHead>)
    requires GoodDimensions(a) && 0 <= a.valueRank
    requires reader.Valid() && reader.Ahead(ValuePlan(a))
    modifies reader`offset, reader`flat, reader`tensors
    ensures r.Read? ==> reader.Valid()
    ensures r.Read? ==>
      if a.Stripped() then r.value == NO_VALUE && reader.tensors == old(reader.tensors)
      else
        && reader.tensors == old(reader.tensors) + r.value.Listed(a.valueRank != 0)
        && (a.valueRank == 0 ==> r.value.valueW1Right == [])
    ensures r.Failed? ==> Reading(reader.bytes, reader.plan, reader.narrow) == r.PropagateFailure()
  {
    hide Reading, Reader.Valid, DensePlan, TowerPlan, From, GoodDimensions, ValueHead.Listed;
    if a.Stripped() { return Read(NO_VALUE); }
    FromBoth(reader.plan, |reader.tensors|, DensePlan(a), TowerPlan(a));
    r := TakeTrained(reader, a);
  }

  lemma HeadListed(head: ValueHead, tower: seq<seq<Word>>, before: seq<seq<Word>>, first: seq<seq<Word>>, split: bool)
    requires |tower| == 5 && tower[0] == head.valueB1 && tower[1] == head.valueW2 && tower[2] == head.valueB2
    requires tower[3] == head.valueOutW && tower[4] == head.valueOutB
    requires first == if split then before + [head.valueW1, head.valueW1Right] else before + [head.valueW1]
    ensures first + tower == before + head.Listed(split)
  {
    assert tower == [head.valueB1, head.valueW2, head.valueB2, head.valueOutW, head.valueOutB];
  }

  lemma DenseLength(a: Artifact)
    requires GoodDimensions(a) && 0 <= a.valueRank
    ensures |DensePlan(a)| == if a.valueRank != 0 then 2 else 1
  {
  }

  method TakePair(reader: Reader, f16: bool, count: nat, rows: nat, columns: nat, biases: nat)
    returns (r: Reads<(seq<Word>, seq<Word>)>)
    requires reader.Valid() && reader.Ahead([Tensor(f16, count, rows, columns), Halves(biases)])
    modifies reader`offset, reader`flat, reader`tensors
    ensures r.Read? ==> reader.Valid() && reader.tensors == old(reader.tensors) + [r.value.0, r.value.1]
    ensures r.Failed? ==> Reading(reader.bytes, reader.plan, reader.narrow) == r.PropagateFailure()
  {
    hide Reading, Reader.Valid, Tensor;
    ghost var n := |reader.tensors|;
    ghost var part := [Tensor(f16, count, rows, columns), Halves(biases)];
    FromAt(reader.plan, n, part);
    assert reader.plan[n + 0] == part[0] && reader.plan[n + 1] == part[1];
    var weights :- TakeTensor(reader, f16, count, rows, columns);
    var bias :- reader.TakeF16(biases);
    r := Read((weights, bias));
  }

  method TakeGlobal(reader: Reader, a: Artifact) returns (r: Reads<seq<seq<Word>>>)
    requires GoodDimensions(a) && 0 < a.globalPolicyRank
    requires reader.Valid() && reader.Ahead(GlobalPlan(a))
    modifies reader`offset, reader`flat, reader`tensors
    ensures r.Read? ==> reader.Valid() && |r.value| == 4 && reader.tensors == old(reader.tensors) + r.value
    ensures r.Failed? ==> Reading(reader.bytes, reader.plan, reader.narrow) == r.PropagateFailure()
  {
    hide Reading, Reader.Valid;
    ghost var (p, n) := (GlobalPlan(a), |reader.tensors|);
    FromAt(reader.plan, n, p);
    assert reader.plan[n + 0] == p[0] && reader.plan[n + 1] == p[1] && reader.plan[n + 2] == p[2];
    assert reader.plan[n + 3] == p[3];
    var points := Entries(a.extent, a.extent);
    var w1 :- reader.TakeF16(Entries(a.globalPolicyRank, a.channels * 25));
    var b1 :- reader.TakeF16(a.globalPolicyRank);
    var w2 :- reader.TakeF16(Entries(points, a.globalPolicyRank));
    var b2 :- reader.TakeF16(points);
    r := Read([w1, b1, w2, b2]);
  }

  method TakePolicyHead(reader: Reader, a: Artifact) returns (r: Reads<PolicyHead>)
    requires GoodDimensions(a) && 0 <= a.globalPolicyRank
    requires reader.Valid() && reader.Ahead(PolicyPlan(a))
    modifies reader`offset, reader`flat, reader`tensors
    ensures r.Read? ==> reader.Valid()
    ensures r.Read? ==> reader.tensors == old(reader.tensors) + r.value.Listed(a.globalPolicyRank != 0)
    ensures r.Read? && a.globalPolicyRank == 0 ==>
      r.value.globalPolicyW1 == r.value.globalPolicyB1 == r.value.globalPolicyW2 == r.value.globalPolicyB2 == []
    ensures r.Failed? ==> Reading(reader.bytes, reader.plan, reader.narrow) == r.PropagateFailure()
  {
    hide Reading, Reader.Valid, Tensor, From, GlobalPlan;
    ghost var n := |reader.tensors|;
    FromBoth(reader.plan, n, PointPlan(a), GlobalPlan(a) + PassPlan(a));
    FromBoth(reader.plan, n + 2, GlobalPlan(a), PassPlan(a));
    GlobalLength(a);
    var f16 := a.encoding.MixedPolicy?;
    var point :- TakePair(reader, f16, a.channels, 1, a.channels, 1);
    var global: seq<seq<Word>> := [[], [], [], []];
    if a.globalPolicyRank != 0 {
      global :- TakeGlobal(reader, a);
    }
    var pass :- TakePair(reader, f16, a.channels * 25, 1, a.channels * 25, 1);
    r := Read(PolicyHead(point.0, point.1, global[0], global[1], global[2], global[3], pass.0, pass.1));
    assert global == [global[0], global[1], global[2], global[3]];
  }

  lemma GlobalLength(a: Artifact)
    requires GoodDimensions(a) && 0 <= a.globalPolicyRank
    ensures |GlobalPlan(a)| == if a.globalPolicyRank != 0 then 4 else 0
  {
  }

  lemma CountsConcat(a: seq<Shape>, b: seq<Shape>)
    ensures Counts(a + b) == Counts(a) + Counts(b)
    decreases |b|
  {
    hide Count;
    if b == [] {
      assert a + b == a;
    } else {
      assert (a + b)[..|a + b| - 1] == a + b[..|b| - 1];
      CountsConcat(a, b[..|b| - 1]);
    }
  }

  lemma OneCount(s: Shape)
    ensures Counts([s]) == Count(s)
  {
    assert [s][..0] == [];
  }

  lemma TwoCounts(s: Shape, t: Shape)
    ensures Counts([s, t]) == Count(s) + Count(t)
  {
    hide Count, Counts;
    assert [s, t] == [s] + [t];
    CountsConcat([s], [t]);
    OneCount(s);
    OneCount(t);
  }

  lemma TrunkCounts(a: Artifact)
    requires GoodDimensions(a)
    ensures Counts(TrunkPlan(a))
      == a.channels * a.InputChannels() * 9 + a.channels
         + a.residualBlocks * 2 * a.channels * a.channels * 9 + a.residualBlocks * 2 * a.channels
         + a.residualBlocks * a.channels * a.behaviorFeatures + a.residualBlocks * a.channels
  {
    hide Counts;
    var p := TrunkPlan(a);
    assert p == [p[0], p[1]] + ([p[2], p[3]] + [p[4], p[5]]);
    CountsConcat([p[0], p[1]], [p[2], p[3]] + [p[4], p[5]]);
    CountsConcat([p[2], p[3]], [p[4], p[5]]);
    TwoCounts(p[0], p[1]);
    TwoCounts(p[2], p[3]);
    TwoCounts(p[4], p[5]);
    assert a.channels * (a.InputChannels() * 9) == a.channels * a.InputChannels() * 9;
    assert a.residualBlocks * 2 * a.channels * (a.channels * 9) == a.residualBlocks * 2 * a.channels * a.channels * 9;
  }

  lemma ValueCounts(a: Artifact)
    requires GoodDimensions(a) && 0 <= a.valueRank
    ensures Counts(ValuePlan(a)) == if a.Stripped() then 0 else
        (if a.valueRank != 0 then a.hidden * a.valueRank + a.valueRank * (a.channels * 25)
         else a.hidden * (a.channels * 25))
        + a.hidden + a.valueTower * a.hidden + a.valueTower + VALUE_OUTPUTS * a.valueTower + VALUE_OUTPUTS
  {
    hide Counts;
    if !a.Stripped() {
      var (d, p) := (DensePlan(a), TowerPlan(a));
      CountsConcat(d, p);
      assert p == [p[0]] + ([p[1], p[2]] + [p[3], p[4]]);
      CountsConcat([p[0]], [p[1], p[2]] + [p[3], p[4]]);
      CountsConcat([p[1], p[2]], [p[3], p[4]]);
      OneCount(p[0]);
      TwoCounts(p[1], p[2]);
      TwoCounts(p[3], p[4]);
      if a.valueRank != 0 { TwoCounts(d[0], d[1]); } else { OneCount(d[0]); }
    } else {
      NoCounts();
    }
  }

  lemma NoCounts()
    ensures Counts([]) == 0
  {
  }

  lemma PolicyCounts(a: Artifact)
    requires GoodDimensions(a) && 0 <= a.globalPolicyRank
    ensures Counts(PolicyPlan(a)) == a.channels + 1
      + (if a.globalPolicyRank != 0 then
           a.globalPolicyRank * (a.channels * 25) + a.globalPolicyRank + a.extent * a.extent * a.globalPolicyRank
           + a.extent * a.extent
         else 0)
      + a.channels * 25 + 1
  {
    hide Counts;
    var (p, g, q) := (PointPlan(a), GlobalPlan(a), PassPlan(a));
    CountsConcat(p, g + q);
    CountsConcat(g, q);
    TwoCounts(p[0], p[1]);
    TwoCounts(q[0], q[1]);
    if a.globalPolicyRank != 0 {
      assert g == [g[0], g[1]] + [g[2], g[3]];
      CountsConcat([g[0], g[1]], [g[2], g[3]]);
      TwoCounts(g[0], g[1]);
      TwoCounts(g[2], g[3]);
    } else {
      NoCounts();
    }
  }

  /** The plan fills the flat allocation exactly. */
  lemma PlanFillsTheAllocation(a: Artifact)
    requires GoodDimensions(a) && 0 <= a.valueRank && 0 <= a.globalPolicyRank
    ensures Counts(Plan(a)) == ParameterCount(a)
  {
    hide Counts, TrunkPlan, ValuePlan, PolicyPlan;
    TrunkCounts(a);
    ValueCounts(a);
    PolicyCounts(a);
    CountsConcat(TrunkPlan(a), ValuePlan(a) + PolicyPlan(a));
    CountsConcat(ValuePlan(a), PolicyPlan(a));
  }

  /** What loading comes to once the metadata is accepted: the first tensor that cannot be read, or bytes left over,
      or the tensors. */
  ghost predicate Loads(a: Artifact, narrow: Narrow, r: Reads<Weights>)
    requires Refusal(a).None?
  {
    match Reading(a.weights, Plan(a), narrow)
    case Failed(e) => r == Failed(e)
    case Read(tensors) =>
      if Sizes(Plan(a)) != |a.weights| then r == Failed(TrailingBytes)
      else
        && r.Read? && Listed(r.value, a) == tensors && AbsentIsEmpty(r.value, a)
        && r.value.flat == Joined(tensors) && (r.value.valueTrained <==> !a.Stripped())
  }

  /** Load an artifact; the metadata is checked first. The check that the layout is consistent never fires. */
  method LoadGoValueWeights(a: Artifact, narrow: Narrow) returns (r: Reads<Weights>)
    ensures Refusal(a).Some? ==> r == Failed(Refusal(a).value)
    ensures Refusal(a).None? ==> Loads(a, narrow, r)
  {
    hide Loads;
    var refusal := Refusal(a);
    if refusal.Some? { return Failed(refusal.value); }
    r := ReadTensors(a, narrow);
  }

  method ReadTensors(a: Artifact, narrow: Narrow) returns (r: Reads<Weights>)
    requires Refusal(a).None?
    ensures Loads(a, narrow, r)
  {
    hide Reading, Joined, Sizes, Counts, TrunkPlan, ValuePlan, PolicyPlan, From, ParameterCount, Refusal, Reader.Valid;
    hide Loads, Plan, Trunk.Listed, ValueHead.Listed, PolicyHead.Listed, GoodDimensions, Artifact.Stripped, Listed;
    Accepted(a);
    var reader := new Reader(a.weights, narrow, Plan(a));
    StartOfPlan(a);
    var trunk := TakeTrunk(reader, a);
    if trunk.Failed? { FailedToLoad(a, narrow, trunk.error); return Failed(trunk.error); }
    var value := TakeValueHead(reader, a);
    if value.Failed? { FailedToLoad(a, narrow, value.error); return Failed(value.error); }
    var policy := TakePolicyHead(reader, a);
    if policy.Failed? { FailedToLoad(a, narrow, policy.error); return Failed(policy.error); }
    var weights := Weights(trunk.value, value.value, policy.value, reader.flat, !a.Stripped());
    ListedParts(weights, a);
    assert [] + trunk.value.Listed() == trunk.value.Listed();
    assert reader.tensors == Listed(weights, a);
    reader.AllTaken();
    PlanFillsTheAllocation(a);
    AllLoaded(a, narrow, weights);
    if reader.offset != |a.weights| { return Failed(TrailingBytes); }
    if |reader.flat| != ParameterCount(a) { return Failed(InconsistentLayout); }
    r := Read(weights);
  }

  lemma ListedParts(w: Weights, a: Artifact)
    ensures a.Stripped() ==> Listed(w, a) == w.trunk.Listed() + w.policy.Listed(a.globalPolicyRank != 0)
    ensures !a.Stripped() ==>
      Listed(w, a) == w.trunk.Listed() + w.value.Listed(a.valueRank != 0) + w.policy.Listed(a.globalPolicyRank != 0)
  {
    hide Trunk.Listed, ValueHead.Listed, PolicyHead.Listed, Artifact.Stripped;
  }

  lemma AllLoaded(a: Artifact, narrow: Narrow, w: Weights)
    requires Refusal(a).None? && Reading(a.weights, Plan(a), narrow) == Read(Listed(w, a))
    requires AbsentIsEmpty(w, a) && w.flat == Joined(Listed(w, a)) && (w.valueTrained <==> !a.Stripped())
    ensures Loads(a, narrow, if Sizes(Plan(a)) != |a.weights| then Failed(TrailingBytes) else Read(w))
  {
    hide Reading, Plan, Refusal, Joined, Sizes, Listed, Artifact.Stripped;
  }

  lemma FailedToLoad(a: Artifact, narrow: Narrow, e: LoadError)
    requires Refusal(a).None? && Reading(a.weights, Plan(a), narrow) == Failed(e)
    ensures Loads(a, narrow, Failed(e))
  {
    hide Reading, Plan, Refusal;
  }

  lemma Accepted(a: Artifact)
    requires Refusal(a).None?
    ensures GoodDimensions(a) && 0 <= a.valueRank && 0 <= a.globalPolicyRank
  {
  }

  lemma StartOfPlan(a: Artifact)
    requires GoodDimensions(a) && 0 <= a.valueRank && 0 <= a.globalPolicyRank
    ensures From(Plan(a), 0, TrunkPlan(a)) && From(Plan(a), 6, ValuePlan(a))
    ensures From(Plan(a), 6 + |ValuePlan(a)|, PolicyPlan(a))
    ensures |Plan(a)| == 6 + |ValuePlan(a)| + |PolicyPlan(a)|
  {
    hide TrunkPlan, ValuePlan, PolicyPlan;
    var plan := Plan(a);
    assert plan[0..|plan|] == plan;
    FromBoth(plan, 0, TrunkPlan(a), ValuePlan(a) + PolicyPlan(a));
    FromBoth(plan, 6, ValuePlan(a), PolicyPlan(a));
  }
}
