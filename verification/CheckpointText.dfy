/** The checkpoint text (tools/go-export-model.ts): what the parser accepts, and why every accepted
 * checkpoint encodes without a size mismatch. */
module CheckpointText {
  import opened HalfFloat
  import opened RowQuantization
  import opened ArtifactLayout
  import opened Wrappers

  datatype Kind = Plain | GlobalPolicy | TacticalGlobalPolicy

  /** A whitespace-separated token; `Other` is anything that is not a finite number. */
  datatype Token = Magic(kind: Kind) | Num(value: real) | Other

  datatype Header = Header(
    kind: Kind, extent: nat, channels: nat, residualBlocks: nat, hidden: nat, valueTower: nat,
    behaviorFeatures: nat, globalPolicyRank: nat)
  {
    function InputChannels(): nat {
      if kind.TacticalGlobalPolicy? then 16 else 8
    }

    function Pooled(): nat {
      channels * 25
    }
  }

  const RESPONSE_BRANCHES := 13
  const MAX_SAFE_INTEGER := 9007199254740991

  predicate Dimension(n: int) {
    0 < n <= MAX_SAFE_INTEGER
  }

  predicate GoodHeader(h: Header) {
    && Dimension(h.extent) && Dimension(h.channels) && Dimension(h.residualBlocks) && Dimension(h.hidden)
    && Dimension(h.valueTower) && Dimension(h.behaviorFeatures)
    && h.globalPolicyRank <= 256 && (h.kind.Plain? ==> h.globalPolicyRank == 0)
  }

  /** The length each vector must declare, in file order. */
  function Sizes(h: Header): (s: seq<nat>)
    ensures |s| == if h.globalPolicyRank == 0 then 20 else 24
  {
    var c, r := h.channels, h.residualBlocks;
    [ c * h.InputChannels() * 9, c,                      // stem, stemBias
      r * 2 * c * c * 9, r * 2 * c,                      // residual, residualBias
      r * c * h.behaviorFeatures, r * c,                 // conditioningW, conditioningB
      h.hidden * h.Pooled(), h.hidden,                   // valueW1, valueB1
      h.valueTower * h.hidden, h.valueTower,             // valueW2, valueB2
      3 * h.valueTower, 3,                               // valueOutW, valueOutB
      c, 1,                                              // policyW, policyB
      h.Pooled(), 1,                                     // passW, passB
      RESPONSE_BRANCHES * c, RESPONSE_BRANCHES,          // branchW, branchB
      RESPONSE_BRANCHES * h.Pooled(), RESPONSE_BRANCHES  // passBranchW, passBranchB
    ]
    + if h.globalPolicyRank == 0 then []
      else [ h.globalPolicyRank * h.Pooled(), h.globalPolicyRank,
             h.extent * h.extent * h.globalPolicyRank, h.extent * h.extent ]
  }

  datatype Checkpoint = Checkpoint(header: Header, vectors: seq<seq<real>>)

  ghost predicate Accepted(c: Checkpoint) {
    && GoodHeader(c.header) && |c.vectors| == |Sizes(c.header)|
    && forall k | 0 <= k < |c.vectors| :: |c.vectors[k]| == Sizes(c.header)[k]
  }

  lemma HeadsPresent(c: Checkpoint)
    requires Accepted(c)
    ensures 20 <= |c.vectors|
  {
  }

  // ---------- the text of a checkpoint ----------

  function Count(n: nat): Token {
    Num(n as real)
  }

  function HeaderTokens(h: Header): seq<Token> {
    [Magic(h.kind), Count(h.extent), Count(h.channels), Count(h.residualBlocks), Count(h.hidden),
     Count(h.valueTower), Count(h.behaviorFeatures), Count(RESPONSE_BRANCHES)]
    + if h.kind.Plain? then [] else [Count(h.globalPolicyRank)]
  }

  function VectorTokens(v: seq<real>): seq<Token> {
    [Count(|v|)] + seq(|v|, k requires 0 <= k < |v| => Num(v[k]))
  }

  function AllVectors(vs: seq<seq<real>>): seq<Token> {
    if vs == [] then [] else AllVectors(vs[..|vs| - 1]) + VectorTokens(vs[|vs| - 1])
  }

  function Text(c: Checkpoint): seq<Token> {
    HeaderTokens(c.header) + AllVectors(c.vectors)
  }

  // ---------- the token cursor ----------

  function NumberAt(tokens: seq<Token>, cursor: nat): Option<real> {
    if cursor < |tokens| && tokens[cursor].Num? then Some(tokens[cursor].value) else None
  }

  function IntegerAt(tokens: seq<Token>, cursor: nat): Option<int> {
    match NumberAt(tokens, cursor)
    case None => None
    case Some(x) => if x == x.Floor as real then Some(x.Floor) else None
  }

  /** A vector is its own length followed by that many finite numbers. */
  method ParseVector(tokens: seq<Token>, start: nat, expected: nat) returns (r: Option<seq<real>>, cursor: nat)
    requires start <= |tokens|
    ensures r.Some? ==> |r.value| == expected && cursor == start + 1 + expected <= |tokens|
                        && tokens[start..cursor] == VectorTokens(r.value)
    ensures r.None? ==> forall v: seq<real>, rest | |v| == expected :: tokens[start..] != VectorTokens(v) + rest
  {
    forall v: seq<real>, rest | |v| == expected && tokens[start..] == VectorTokens(v) + rest
      ensures NumberAt(tokens, start) == Some(expected as real)
      ensures forall k | 0 <= k < expected :: NumberAt(tokens, start + 1 + k) == Some(v[k])
    {
      VectorShown(tokens, start, v, rest);
    }
    hide VectorTokens;
    cursor := start;
    var count := NumberAt(tokens, cursor);
    if count != Some(expected as real) { return None, cursor; }
    cursor := cursor + 1;
    var v: seq<real> := [];
    while |v| < expected
      invariant |v| <= expected && cursor == start + 1 + |v| <= |tokens|
      invariant forall k | 0 <= k < |v| :: tokens[start + 1 + k] == Num(v[k])
    {
      var next := NumberAt(tokens, start + 1 + |v|);
      if next.None? { return None, cursor; }
      v := v + [next.value];
      cursor := cursor + 1;
    }
    VectorRead(tokens, start, v);
    r := Some(v);
  }

  lemma VectorShown(tokens: seq<Token>, start: nat, v: seq<real>, rest: seq<Token>)
    requires start <= |tokens| && tokens[start..] == VectorTokens(v) + rest
    ensures NumberAt(tokens, start) == Some(|v| as real)
    ensures forall k | 0 <= k < |v| :: NumberAt(tokens, start + 1 + k) == Some(v[k])
  {
    var t := VectorTokens(v);
    assert tokens[start] == tokens[start..][0] == t[0];
    forall k | 0 <= k < |v| ensures NumberAt(tokens, start + 1 + k) == Some(v[k]) {
      assert tokens[start + 1 + k] == tokens[start..][1 + k] == t[1 + k];
    }
  }

  lemma VectorRead(tokens: seq<Token>, start: nat, v: seq<real>)
    requires start + 1 + |v| <= |tokens| && tokens[start] == Count(|v|)
    requires forall k | 0 <= k < |v| :: tokens[start + 1 + k] == Num(v[k])
    ensures tokens[start..start + 1 + |v|] == VectorTokens(v)
  {
    var slice := tokens[start..start + 1 + |v|];
    forall k | 0 <= k < |slice| ensures slice[k] == VectorTokens(v)[k] {
      if k > 0 { assert slice[k] == tokens[start + 1 + (k - 1)]; }
    }
  }

  lemma SameVector(v: seq<real>, w: seq<real>)
    requires VectorTokens(v) == VectorTokens(w) && |v| == |w|
    ensures v == w
  {
    forall k | 0 <= k < |v| ensures v[k] == w[k] {
      assert VectorTokens(v)[k + 1] == Num(v[k]) && VectorTokens(w)[k + 1] == Num(w[k]);
    }
  }

  /** What a text that starts with a header's tokens shows at each cursor. */
  lemma HeaderAt(tokens: seq<Token>, h: Header, rest: seq<Token>)
    requires tokens == HeaderTokens(h) + rest
    ensures |tokens| >= |HeaderTokens(h)| && tokens[0] == Magic(h.kind)
    ensures IntegerAt(tokens, 1) == Some(h.extent) && IntegerAt(tokens, 2) == Some(h.channels)
    ensures IntegerAt(tokens, 3) == Some(h.residualBlocks) && IntegerAt(tokens, 4) == Some(h.hidden)
    ensures IntegerAt(tokens, 5) == Some(h.valueTower) && IntegerAt(tokens, 6) == Some(h.behaviorFeatures)
    ensures IntegerAt(tokens, 7) == Some(RESPONSE_BRANCHES)
    ensures !h.kind.Plain? ==> IntegerAt(tokens, 8) == Some(h.globalPolicyRank)
  {
    var t := HeaderTokens(h);
    assert tokens[1] == t[1] && tokens[2] == t[2] && tokens[3] == t[3] && tokens[4] == t[4]
        && tokens[5] == t[5] && tokens[6] == t[6] && tokens[7] == t[7];
    if !h.kind.Plain? { assert tokens[8] == t[8]; }
  }

  function Field(x: Option<int>): int {
    if x.Some? then x.value else -1
  }

  method ParseHeader(tokens: seq<Token>) returns (r: Option<Header>, cursor: nat)
    ensures r.Some? ==> GoodHeader(r.value) && cursor <= |tokens| && tokens[..cursor] == HeaderTokens(r.value)
    ensures r.None? ==> forall h, rest | GoodHeader(h) :: tokens != HeaderTokens(h) + rest
    ensures r.Some? ==> forall h, rest | GoodHeader(h) && tokens == HeaderTokens(h) + rest :: h == r.value
  {
    cursor := 0;
    forall h, rest | GoodHeader(h) && tokens == HeaderTokens(h) + rest
      ensures |tokens| >= |HeaderTokens(h)| && tokens[0] == Magic(h.kind)
           && h.extent == Field(IntegerAt(tokens, 1)) && h.channels == Field(IntegerAt(tokens, 2))
           && h.residualBlocks == Field(IntegerAt(tokens, 3)) && h.hidden == Field(IntegerAt(tokens, 4))
           && h.valueTower == Field(IntegerAt(tokens, 5)) && h.behaviorFeatures == Field(IntegerAt(tokens, 6))
           && RESPONSE_BRANCHES == Field(IntegerAt(tokens, 7))
           && (!h.kind.Plain? ==> h.globalPolicyRank == Field(IntegerAt(tokens, 8)))
    {
      HeaderAt(tokens, h, rest);
    }
    if |tokens| == 0 || !tokens[0].Magic? { return None, cursor; }
    var kind := tokens[0].kind;
    var extent, channels, residualBlocks := IntegerAt(tokens, 1), IntegerAt(tokens, 2), IntegerAt(tokens, 3);
    var hidden, valueTower, features := IntegerAt(tokens, 4), IntegerAt(tokens, 5), IntegerAt(tokens, 6);
    var branches := IntegerAt(tokens, 7);
    var rank := if kind.Plain? then Some(0) else IntegerAt(tokens, 8);
    if !Dimension(Field(extent)) || !Dimension(Field(channels)) || !Dimension(Field(residualBlocks))
       || !Dimension(Field(hidden)) || !Dimension(Field(valueTower)) || !Dimension(Field(features))
       || Field(branches) != RESPONSE_BRANCHES || !(0 <= Field(rank) <= 256) {
      return None, cursor;
    }
    cursor := if kind.Plain? then 8 else 9;
    var h := Header(kind, extent.value, channels.value, residualBlocks.value, hidden.value, valueTower.value,
                    features.value, rank.value);
    HeaderRead(tokens, h);
    r := Some(h);
  }

  lemma HeaderRead(tokens: seq<Token>, h: Header)
    requires |tokens| >= |HeaderTokens(h)| && tokens[0] == Magic(h.kind)
    requires IntegerAt(tokens, 1) == Some(h.extent) && IntegerAt(tokens, 2) == Some(h.channels)
    requires IntegerAt(tokens, 3) == Some(h.residualBlocks) && IntegerAt(tokens, 4) == Some(h.hidden)
    requires IntegerAt(tokens, 5) == Some(h.valueTower) && IntegerAt(tokens, 6) == Some(h.behaviorFeatures)
    requires IntegerAt(tokens, 7) == Some(RESPONSE_BRANCHES)
    requires !h.kind.Plain? ==> IntegerAt(tokens, 8) == Some(h.globalPolicyRank)
    ensures tokens[..|HeaderTokens(h)|] == HeaderTokens(h)
  {}

  lemma {:induction false} VectorsConcat(a: seq<seq<real>>, b: seq<seq<real>>)
    ensures AllVectors(a + b) == AllVectors(a) + AllVectors(b)
    decreases |b|
  {
    hide VectorTokens;
    if b == [] {
      assert a + b == a;
    } else {
      assert (a + b)[..|a + b| - 1] == a + b[..|b| - 1];
      VectorsConcat(a, b[..|b| - 1]);
    }
  }

  lemma VectorAt(vs: seq<seq<real>>, k: nat)
    requires k < |vs|
    ensures AllVectors(vs) == AllVectors(vs[..k]) + VectorTokens(vs[k]) + AllVectors(vs[k + 1..])
  {
    hide VectorTokens, AllVectors;
    CutVectors(vs, k);
    VectorsConcat(vs[..k] + [vs[k]], vs[k + 1..]);
    OneVectorMore(vs[..k], vs[k]);
  }

  lemma CutVectors(vs: seq<seq<real>>, k: nat)
    requires k < |vs|
    ensures vs == vs[..k] + [vs[k]] + vs[k + 1..]
  {
  }

  lemma OneVectorMore(vs: seq<seq<real>>, v: seq<real>)
    ensures AllVectors(vs + [v]) == AllVectors(vs) + VectorTokens(v)
  {
    hide VectorTokens;
    assert (vs + [v])[..|vs|] == vs;
  }

  /** Any accepted checkpoint this text could be agrees with the header and the vectors read. */
  ghost predicate Pinned(tokens: seq<Token>, h: Header, vs: seq<seq<real>>) {
    forall c | Accepted(c) && Text(c) == tokens :: Agrees(c, h, vs)
  }

  predicate Agrees(c: Checkpoint, h: Header, vs: seq<seq<real>>) {
    c.header == h && |vs| <= |c.vectors| && c.vectors[..|vs|] == vs
  }

  lemma NextVector(tokens: seq<Token>, h: Header, vs: seq<seq<real>>, cursor: nat, c: Checkpoint)
    requires Text(c) == tokens && Agrees(c, h, vs) && |vs| < |c.vectors|
    requires cursor == |HeaderTokens(h) + AllVectors(vs)| <= |tokens|
    ensures tokens[cursor..] == VectorTokens(c.vectors[|vs|]) + AllVectors(c.vectors[|vs| + 1..])
  {
    hide HeaderTokens, VectorTokens;
    VectorAt(c.vectors, |vs|);
  }

  /** One vector of a text whose header and earlier vectors are known. */
  method ParseNext(tokens: seq<Token>, h: Header, vs: seq<seq<real>>, start: nat)
    returns (r: Option<seq<real>>, cursor: nat)
    requires |vs| < |Sizes(h)| && start == |HeaderTokens(h) + AllVectors(vs)| <= |tokens|
    requires tokens[..start] == HeaderTokens(h) + AllVectors(vs)
    requires Pinned(tokens, h, vs)
    ensures r.Some? ==>
      && |r.value| == Sizes(h)[|vs|] && start <= cursor <= |tokens|
      && tokens[..cursor] == HeaderTokens(h) + AllVectors(vs + [r.value])
      && Pinned(tokens, h, vs + [r.value])
    ensures r.None? ==> forall c | Accepted(c) :: tokens != Text(c)
  {
    hide HeaderTokens, VectorTokens, Sizes, Text;
    r, cursor := ParseVector(tokens, start, Sizes(h)[|vs|]);
    forall c | Accepted(c) && Text(c) == tokens ensures r.Some? && Agrees(c, h, vs + [r.value]) {
      assert Agrees(c, h, vs);
      NextVector(tokens, h, vs, start, c);
      if r.Some? { ReadTheSame(tokens, h, vs, start, cursor, r.value, c); }
    }
    if r.Some? { VectorsGrow(tokens, h, vs, start, cursor, r.value); }
  }

  lemma ReadTheSame(tokens: seq<Token>, h: Header, vs: seq<seq<real>>, start: nat, cursor: nat, v: seq<real>,
      c: Checkpoint)
    requires Agrees(c, h, vs) && |vs| < |c.vectors| && |c.vectors[|vs|]| == |v|
    requires start <= cursor == start + 1 + |v| <= |tokens| && tokens[start..cursor] == VectorTokens(v)
    requires tokens[start..] == VectorTokens(c.vectors[|vs|]) + AllVectors(c.vectors[|vs| + 1..])
    ensures Agrees(c, h, vs + [v])
  {
    hide AllVectors;
    var w := c.vectors[|vs|];
    assert tokens[start..cursor] == tokens[start..][..|VectorTokens(w)|] == VectorTokens(w);
    SameVector(v, w);
  }

  lemma VectorsGrow(tokens: seq<Token>, h: Header, vs: seq<seq<real>>, start: nat, cursor: nat, v: seq<real>)
    requires start <= cursor <= |tokens| && tokens[..start] == HeaderTokens(h) + AllVectors(vs)
    requires tokens[start..cursor] == VectorTokens(v)
    ensures tokens[..cursor] == HeaderTokens(h) + AllVectors(vs + [v])
  {
    hide HeaderTokens, VectorTokens, AllVectors;
    OneVectorMore(vs, v);
    assert tokens[..cursor] == tokens[..start] + tokens[start..cursor];
  }

  /** The parser accepts exactly the texts of accepted checkpoints, and reads each one back. */
  method ParseCheckpoint(tokens: seq<Token>) returns (r: Option<Checkpoint>)
    ensures r.Some? ==> Accepted(r.value) && tokens == Text(r.value)
    ensures r.None? ==> forall c | Accepted(c) :: tokens != Text(c)
  {
    hide HeaderTokens, Sizes, GoodHeader;
    var header, cursor := ParseHeader(tokens);
    if header.None? { return None; }
    var h := header.value;
    var sizes := Sizes(h);
    var vectors: seq<seq<real>> := [];
    while |vectors| < |sizes|
      invariant |vectors| <= |sizes| && 0 <= cursor <= |tokens|
      invariant tokens[..cursor] == HeaderTokens(h) + AllVectors(vectors)
      invariant forall k | 0 <= k < |vectors| :: |vectors[k]| == sizes[k]
      invariant Pinned(tokens, h, vectors)
    {
      var vector, next := ParseNext(tokens, h, vectors, cursor);
      if vector.None? { return None; }
      vectors := vectors + [vector.value];
      cursor := next;
    }
    var c := Checkpoint(h, vectors);
    if cursor != |tokens| {
      assert |Text(c)| == cursor;
      forall d | Accepted(d) && Text(d) == tokens ensures d == c {
        assert Agrees(d, h, vectors);
        assert |d.vectors| == |vectors|;
      }
      return None;
    }
    assert tokens[..cursor] == tokens;
    r := Some(c);
  }

  // ---------- the runtime blocks ----------

  /** A low-rank value factor, as `parseValueFactor` accepts one for a checkpoint. */
  datatype Factor = Factor(rank: nat, left: seq<real>, right: seq<real>)

  predicate Fits(f: Factor, h: Header) {
    && 0 < f.rank < h.hidden && f.rank < h.Pooled()
    && |f.left| == h.hidden * f.rank && |f.right| == f.rank * h.Pooled()
  }

  function Words(v: seq<real>, narrow: Narrow): (w: seq<Word>)
    ensures |w| == |v|
  {
    seq(|v|, k requires 0 <= k < |v| => narrow(v[k]))
  }

  function Tensor(v: seq<real>, rows: nat, columns: nat, bias: seq<real>, storage: Storage, narrow: Narrow): Block {
    Block(Words(v, narrow), rows, columns, Words(bias, narrow), storage)
  }

  /** How the trunk and the policy are stored. */
  function PolicyStorage(h: Header): Storage {
    if h.globalPolicyRank != 0 then F16 else Q8
  }

  function TrunkBlocks(c: Checkpoint, narrow: Narrow): seq<Block>
    requires |c.vectors| == |Sizes(c.header)|
  {
    var h, v, policy := c.header, c.vectors, PolicyStorage(c.header);
    [ Tensor(v[0], h.channels, h.InputChannels() * 9, v[1], policy, narrow),
      Tensor(v[2], h.residualBlocks * 2 * h.channels, h.channels * 9, v[3], policy, narrow),
      Tensor(v[4], h.residualBlocks * h.channels, h.behaviorFeatures, v[5], policy, narrow) ]
  }

  function ValueBlocks(c: Checkpoint, factor: Option<Factor>, narrow: Narrow): seq<Block>
    requires |c.vectors| == |Sizes(c.header)|
  {
    var h, v := c.header, c.vectors;
    (if factor.Some? then
       [ Tensor(factor.value.left, h.hidden, factor.value.rank, [], Q8, narrow),
         Tensor(factor.value.right, factor.value.rank, h.Pooled(), v[7], Q8, narrow) ]
     else [Tensor(v[6], h.hidden, h.Pooled(), v[7], Q8, narrow)])
    + [ Tensor(v[8], h.valueTower, h.hidden, v[9], Q8, narrow),
        Tensor(v[10], 3, h.valueTower, v[11], Q8, narrow) ]
  }

  function GlobalBlocks(c: Checkpoint, narrow: Narrow): seq<Block>
    requires |c.vectors| == |Sizes(c.header)|
  {
    var h, v := c.header, c.vectors;
    if h.globalPolicyRank != 0 then
      [ Tensor(v[20], h.globalPolicyRank, h.Pooled(), v[21], F16, narrow),
        Tensor(v[22], h.extent * h.extent, h.globalPolicyRank, v[23], F16, narrow) ]
    else []
  }

  /** The tensors production needs; the response-branch head is an auxiliary training objective. */
  function Blocks(c: Checkpoint, factor: Option<Factor>, stripValue: bool, narrow: Narrow): seq<Block>
    requires |c.vectors| == |Sizes(c.header)|
  {
    var h, v, policy := c.header, c.vectors, PolicyStorage(c.header);
    TrunkBlocks(c, narrow)
    + (if stripValue then [] else ValueBlocks(c, factor, narrow))
    + [Tensor(v[12], 1, h.channels, v[13], policy, narrow)]
    + GlobalBlocks(c, narrow)
    + [Tensor(v[14], 1, h.Pooled(), v[15], policy, narrow)]
  }

  lemma ProductShapes(h: Header)
    ensures h.channels * h.InputChannels() * 9 == h.channels * (h.InputChannels() * 9)
    ensures h.residualBlocks * 2 * h.channels * h.channels * 9 == (h.residualBlocks * 2 * h.channels) * (h.channels * 9)
    ensures h.residualBlocks * h.channels * h.behaviorFeatures == (h.residualBlocks * h.channels) * h.behaviorFeatures
  {
    Regroup(h.channels, h.InputChannels(), 9);
    Regroup(h.residualBlocks * 2 * h.channels, h.channels, 9);
  }

  /** Every tensor of an accepted checkpoint has the shape its block declares, with or without a
      factor, a value strip or a global policy. */
  lemma AcceptedBlocksAreShaped(c: Checkpoint, factor: Option<Factor>, stripValue: bool, narrow: Narrow)
    requires Accepted(c) && (factor.Some? ==> Fits(factor.value, c.header))
    ensures forall b <- Blocks(c, factor, stripValue, narrow) :: Shaped(b)
  {
    hide Words;
    var h, v := c.header, c.vectors;
    ProductShapes(h);
    var s := Sizes(h);
    assert |v[0]| == s[0] && |v[2]| == s[2] && |v[4]| == s[4] && |v[6]| == s[6] && |v[8]| == s[8]
        && |v[10]| == s[10] && |v[12]| == s[12] && |v[14]| == s[14];
  }

  /** So for every accepted checkpoint the artifact is the concatenation of its blocks, and the size
      mismatch error is unreachable. */
  method EncodeCheckpoint(c: Checkpoint, factor: Option<Factor>, stripValue: bool, narrow: Narrow)
    returns (r: Result<array<Byte>>)
    requires Accepted(c) && (factor.Some? ==> Fits(factor.value, c.header))
    ensures r.Ok?
    ensures (forall b <- Blocks(c, factor, stripValue, narrow) :: Shaped(b))
            && r.value[..] == Payload(Blocks(c, factor, stripValue, narrow), narrow)
  {
    hide Blocks;
    AcceptedBlocksAreShaped(c, factor, stripValue, narrow);
    r := Encode(Blocks(c, factor, stripValue, narrow), narrow);
  }
}
