/** The lexicographic promotion gate (tools/go-promotion-statistics.ts). */
module PromotionGate {
  import opened GoOpponents
  import opened PairedGames
  import opened PairedStatistics
  import opened SignTest
  import opened Wrappers

  // ---------- what the gate reads of a pair ----------

  predicate CandidateWon(p: Pair) { p.candidate.won }

  predicate IncumbentWon(p: Pair) { p.incumbent.won }

  predicate Favorable(p: Pair) { p.candidate.won && !p.incumbent.won }

  predicate Unfavorable(p: Pair) { !p.candidate.won && p.incumbent.won }

  predicate BothLost(p: Pair) { !p.candidate.won && !p.incumbent.won }

  function CandidateRatio(p: Pair): Ratio { Ratio(p.candidate.power, p.candidate.turns as real) }

  function IncumbentRatio(p: Pair): Ratio { Ratio(p.incumbent.power, p.incumbent.turns as real) }

  function TurnsSaved(p: Pair): real { p.incumbent.turns as real - p.candidate.turns as real }

  function TurnsAdded(p: Pair): real { p.candidate.turns as real - p.incumbent.turns as real }

  function ScoreMargin(g: Game): real { g.blackScore - g.whiteScore }

  function MarginGain(p: Pair): real { ScoreMargin(p.candidate) - ScoreMargin(p.incumbent) }

  predicate CandidateCloser(p: Pair) { ScoreMargin(p.incumbent) < ScoreMargin(p.candidate) }

  predicate IncumbentCloser(p: Pair) { ScoreMargin(p.candidate) < ScoreMargin(p.incumbent) }

  predicate EqualMargin(p: Pair) { ScoreMargin(p.candidate) == ScoreMargin(p.incumbent) }

  function Against(opponent: Opponent): Pair -> bool {
    (p: Pair) => p.candidate.key.opponent == opponent
  }

  function Count(p: Pair -> bool, pairs: seq<Pair>): nat {
    |Filter(p, pairs)|
  }

  // ---------- evidence ----------

  /** Diagnostics on the games both sides lost. */
  datatype LossFloor = LossFloor(
    matchedLosses: nat, candidateCloser: nat, incumbentCloser: nat, equalMargin: nat,
    closerMarginSignPValue: real, meanScoreMarginDelta: Extended, scoreMarginLower95: Extended,
    powerPerTurn: Estimate, fewerTurnsLower95: Extended)

  datatype OpponentEvidence = OpponentEvidence(
    opponent: Opponent, games: nat, candidateWins: nat, incumbentWins: nat,
    favorableWinFlips: nat, unfavorableWinFlips: nat, oneSidedWinPValue: real,
    powerPerTurn: Estimate, fewerTurnsLower95: Extended, lossFloor: LossFloor)

  datatype Criterion = Wins | PowerPerTurn | FewerTurns | Nothing

  datatype Evidence = Evidence(
    games: nat, gamesPerOpponent: seq<nat>, minimumGamesPerOpponent: nat, minimumSampleMet: bool,
    candidateWins: nat, incumbentWins: nat, winDelta: int,
    favorableWinFlips: nat, unfavorableWinFlips: nat, oneSidedWinPValue: real,
    powerPerTurn: Estimate, meanTurnsDelta: Extended, fewerTurnsLower95: Extended,
    promotionGatePassed: bool, criterion: Criterion,
    opponents: seq<OpponentEvidence>, lossFloor: LossFloor)

  function PowerEstimate(pairs: seq<Pair>, root: real -> real): Estimate {
    RatioLower95(Map(CandidateRatio, pairs), Map(IncumbentRatio, pairs), root)
  }

  function FewerTurnsBound(pairs: seq<Pair>, root: real -> real): Extended {
    Lower95(Map(TurnsSaved, pairs), root)
  }

  function MeanOf(values: seq<real>): Extended {
    if values == [] then NotANumber else Finite(Mean(values))
  }

  ghost function LossFloorOf(pairs: seq<Pair>, root: real -> real): LossFloor {
    var losses := Filter(BothLost, pairs);
    LossFloor(
      |losses|, Count(CandidateCloser, losses), Count(IncumbentCloser, losses), Count(EqualMargin, losses),
      PValue(Count(CandidateCloser, losses), Count(IncumbentCloser, losses)),
      MeanOf(Map(MarginGain, losses)), Lower95(Map(MarginGain, losses), root),
      PowerEstimate(losses, root), FewerTurnsBound(losses, root))
  }

  ghost function Summary(opponent: Opponent, pairs: seq<Pair>, root: real -> real): OpponentEvidence {
    OpponentEvidence(
      opponent, |pairs|, Count(CandidateWon, pairs), Count(IncumbentWon, pairs),
      Count(Favorable, pairs), Count(Unfavorable, pairs),
      PValue(Count(Favorable, pairs), Count(Unfavorable, pairs)),
      PowerEstimate(pairs, root), FewerTurnsBound(pairs, root), LossFloorOf(pairs, root))
  }

  function Minimum(profile: Profile): nat {
    match profile case Small5 => 2048 case Daemon19 => 512
  }

  function GamesPerOpponent(opponents: seq<Opponent>, pairs: seq<Pair>): (games: seq<nat>)
    ensures |games| == |opponents|
  {
    seq(|opponents|, i requires 0 <= i < |opponents| => Count(Against(opponents[i]), pairs))
  }

  predicate SampleMet(games: seq<nat>, minimum: nat) {
    forall i | 0 <= i < |games| :: games[i] == games[0] && minimum <= games[i]
  }

  function CriterionOf(candidateWins: nat, incumbentWins: nat, p: real, power: Estimate,
      fewerTurns: Extended): Criterion {
    if incumbentWins < candidateWins && p <= 0.05 then Wins
    else if candidateWins == incumbentWins && Positive(power.difference) && Positive(power.lower95) then PowerPerTurn
    else if candidateWins == incumbentWins && Zero(power.difference) && Positive(fewerTurns) then FewerTurns
    else Nothing
  }

  ghost function CriterionFor(pairs: seq<Pair>, root: real -> real): Criterion {
    CriterionOf(
      Count(CandidateWon, pairs), Count(IncumbentWon, pairs),
      PValue(Count(Favorable, pairs), Count(Unfavorable, pairs)),
      PowerEstimate(pairs, root), FewerTurnsBound(pairs, root))
  }

  ghost function EvidenceOf(profile: Profile, pairs: seq<Pair>, root: real -> real): Evidence {
    var expected := Opponents(profile);
    var games := GamesPerOpponent(expected, pairs);
    var met := SampleMet(games, Minimum(profile));
    var won, lost := Count(CandidateWon, pairs), Count(IncumbentWon, pairs);
    var criterion := CriterionFor(pairs, root);
    Evidence(
      |pairs|, games, Minimum(profile), met,
      won, lost, won - lost,
      Count(Favorable, pairs), Count(Unfavorable, pairs),
      PValue(Count(Favorable, pairs), Count(Unfavorable, pairs)),
      PowerEstimate(pairs, root), MeanOf(Map(TurnsAdded, pairs)), FewerTurnsBound(pairs, root),
      met && criterion != Nothing, criterion,
      seq(|expected|, i requires 0 <= i < |expected| =>
        Summary(expected[i], Filter(Against(expected[i]), pairs), root)),
      LossFloorOf(pairs, root))
  }

  // ---------- the arena-level verdict ----------

  ghost predicate Expected(profile: Profile, games: seq<Game>) {
    forall g <- games :: g.key.opponent in Opponents(profile)
  }

  /** What two arenas are judged to be: nothing unless they pair up and hold expected opponents only. */
  ghost function Judged(profile: Profile, candidate: seq<Game>, incumbent: seq<Game>,
      root: real -> real): Option<Evidence> {
    if Pairable(candidate, incumbent) && Expected(profile, candidate)
    then Some(EvidenceOf(profile, PairingOf(candidate, incumbent), root))
    else None
  }

  ghost predicate Promotes(profile: Profile, candidate: seq<Game>, incumbent: seq<Game>, root: real -> real) {
    var judged := Judged(profile, candidate, incumbent, root);
    judged.Some? && judged.value.promotionGatePassed
  }

  // ---------- the code's evaluation ----------

  method TallyMargins(losses: seq<Pair>)
    returns (candidateCloser: nat, incumbentCloser: nat, equalMargin: nat, differences: seq<real>)
    ensures candidateCloser == Count(CandidateCloser, losses)
    ensures incumbentCloser == Count(IncumbentCloser, losses)
    ensures equalMargin == Count(EqualMargin, losses)
    ensures differences == Map(MarginGain, losses)
  {
    hide Filter;
    candidateCloser, incumbentCloser, equalMargin, differences := 0, 0, 0, [];
    NothingToCount();
    for i := 0 to |losses|
      invariant candidateCloser == Count(CandidateCloser, losses[..i])
      invariant incumbentCloser == Count(IncumbentCloser, losses[..i])
      invariant equalMargin == Count(EqualMargin, losses[..i])
      invariant differences == Map(MarginGain, losses[..i])
    {
      var candidateMargin, incumbentMargin := ScoreMargin(losses[i].candidate), ScoreMargin(losses[i].incumbent);
      assert losses[..i + 1] == losses[..i] + [losses[i]];
      FilterAppend(CandidateCloser, losses[..i], losses[i]);
      FilterAppend(IncumbentCloser, losses[..i], losses[i]);
      FilterAppend(EqualMargin, losses[..i], losses[i]);
      MapAppend(MarginGain, losses[..i], losses[i]);
      if incumbentMargin < candidateMargin {
        candidateCloser := candidateCloser + 1;
      } else if candidateMargin < incumbentMargin {
        incumbentCloser := incumbentCloser + 1;
      } else {
        equalMargin := equalMargin + 1;
      }
      differences := differences + [candidateMargin - incumbentMargin];
    }
    assert losses[..|losses|] == losses;
  }

  lemma NothingToCount()
    ensures Count(CandidateCloser, []) == Count(IncumbentCloser, []) == Count(EqualMargin, []) == 0
  {
  }

  method LossDiagnostics(pairs: seq<Pair>, root: real -> real) returns (r: LossFloor)
    ensures r == LossFloorOf(pairs, root)
  {
    hide Filter, Map, Lower95, PowerEstimate, FewerTurnsBound, PValue, MeanOf, Count;
    var losses := Filter(BothLost, pairs);
    var candidateCloser, incumbentCloser, equalMargin, differences := TallyMargins(losses);
    var p := OneSidedSignTest(candidateCloser, incumbentCloser);
    r := LossFloor(
      |losses|, candidateCloser, incumbentCloser, equalMargin, p, MeanOf(differences), Lower95(differences, root),
      PowerEstimate(losses, root), FewerTurnsBound(losses, root));
  }

  method SummarizePairs(opponent: Opponent, pairs: seq<Pair>, root: real -> real) returns (r: OpponentEvidence)
    ensures r == Summary(opponent, pairs, root)
  {
    hide Count, PowerEstimate, FewerTurnsBound, PValue, LossFloorOf;
    var favorable, unfavorable := Count(Favorable, pairs), Count(Unfavorable, pairs);
    var p := OneSidedSignTest(favorable, unfavorable);
    var lossFloor := LossDiagnostics(pairs, root);
    r := OpponentEvidence(
      opponent, |pairs|, Count(CandidateWon, pairs), Count(IncumbentWon, pairs), favorable, unfavorable, p,
      PowerEstimate(pairs, root), FewerTurnsBound(pairs, root), lossFloor);
  }

  datatype GateError = Pairing(error: PairingError) | UnexpectedOpponent

  datatype Outcome = Judgement(evidence: Evidence) | Rejected(error: GateError)

  method Summaries(expected: seq<Opponent>, pairs: seq<Pair>, root: real -> real) returns (r: seq<OpponentEvidence>)
    ensures |r| == |expected|
    ensures forall i | 0 <= i < |r| :: r[i] == Summary(expected[i], Filter(Against(expected[i]), pairs), root)
  {
    hide Summary, Filter;
    r := [];
    for i := 0 to |expected|
      invariant |r| == i
      invariant forall k | 0 <= k < i :: r[k] == Summary(expected[k], Filter(Against(expected[k]), pairs), root)
    {
      var summary := SummarizePairs(expected[i], Filter(Against(expected[i]), pairs), root);
      r := r + [summary];
    }
  }

  method OnlyExpected(expected: seq<Opponent>, pairs: seq<Pair>) returns (ok: bool)
    ensures ok <==> forall k | 0 <= k < |pairs| :: pairs[k].candidate.key.opponent in expected
  {
    for i := 0 to |pairs|
      invariant forall k | 0 <= k < i :: pairs[k].candidate.key.opponent in expected
    {
      if pairs[i].candidate.key.opponent !in expected { return false; }
    }
    ok := true;
  }

  /** All the numbers of the verdict, from the pairs. */
  method Evaluate(profile: Profile, pairs: seq<Pair>, root: real -> real) returns (r: Evidence)
    ensures r == EvidenceOf(profile, pairs, root)
  {
    hide Opponents, Minimum, GamesPerOpponent, SampleMet, Count, Map, MeanOf, PowerEstimate, FewerTurnsBound, PValue;
    hide CriterionOf, Summary, LossFloorOf, Filter;
    var expected := Opponents(profile);
    var games := GamesPerOpponent(expected, pairs);
    var met := SampleMet(games, Minimum(profile));
    var candidateWins, incumbentWins := Count(CandidateWon, pairs), Count(IncumbentWon, pairs);
    var winDelta := (candidateWins as int) - (incumbentWins as int);
    var favorable, unfavorable := Count(Favorable, pairs), Count(Unfavorable, pairs);
    var p := OneSidedSignTest(favorable, unfavorable);
    var power, fewerTurns := PowerEstimate(pairs, root), FewerTurnsBound(pairs, root);
    var criterion := CriterionOf(candidateWins, incumbentWins, p, power, fewerTurns);
    var opponents := Summaries(expected, pairs, root);
    var lossFloor := LossDiagnostics(pairs, root);
    r := Evidence(
      |pairs|, games, Minimum(profile), met, candidateWins, incumbentWins, winDelta,
      favorable, unfavorable, p, power, MeanOf(Map(TurnsAdded, pairs)), fewerTurns,
      met && criterion != Nothing, criterion, opponents, lossFloor);
    assert opponents == EvidenceOf(profile, pairs, root).opponents;
  }

  method PairedPromotionEvidence(profile: Profile, candidate: seq<Game>, incumbent: seq<Game>, root: real -> real)
    returns (r: Outcome)
    ensures r.Judgement? <==> Judged(profile, candidate, incumbent, root).Some?
    ensures r.Judgement? ==> r.evidence == Judged(profile, candidate, incumbent, root).value
    ensures r.Rejected? && r.error.Pairing? <==> !Pairable(candidate, incumbent)
  {
    hide EvidenceOf;
    var paired := PairGames(candidate, incumbent);
    if paired.Failed? { return Rejected(Pairing(paired.error)); }
    var pairs := paired.value;
    PairingIsUnique(pairs, PairingOf(candidate, incumbent), candidate, incumbent);
    var ok := OnlyExpected(Opponents(profile), pairs);
    ExpectedPairs(profile, pairs, candidate, incumbent);
    if !ok { return Rejected(UnexpectedOpponent); }
    var evidence := Evaluate(profile, pairs, root);
    r := Judgement(evidence);
  }

  lemma ExpectedPairs(profile: Profile, pairs: seq<Pair>, candidate: seq<Game>, incumbent: seq<Game>)
    requires PairsOf(pairs, candidate, incumbent)
    ensures Expected(profile, candidate)
      <==> forall k | 0 <= k < |pairs| :: pairs[k].candidate.key.opponent in Opponents(profile)
  {
    if forall k | 0 <= k < |pairs| :: pairs[k].candidate.key.opponent in Opponents(profile) {
      forall g <- candidate ensures g.key.opponent in Opponents(profile) {
        var k :| 0 <= k < |candidate| && candidate[k] == g;
        assert pairs[k].candidate == g;
      }
    }
    if Expected(profile, candidate) {
      forall k | 0 <= k < |pairs| ensures pairs[k].candidate.key.opponent in Opponents(profile) {
        assert candidate[k] in candidate;
      }
    }
  }
}
