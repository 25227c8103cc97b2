/** What the promotion gate guarantees (tools/go-promotion-statistics.ts). */
module PromotionLaws {
  import opened Collections
  import opened GoOpponents
  import opened PairedGames
  import opened PairedStatistics
  import opened PromotionGate
  import opened SignTest

  // ---------- the order of the games does not matter ----------

  lemma LossFloorPermutes(a: seq<Pair>, b: seq<Pair>, root: real -> real)
    requires multiset(a) == multiset(b)
    ensures LossFloorOf(a, root) == LossFloorOf(b, root)
  {
    hide Filter, Map, Lower95, RatioLower95, PValue, MeanOf;
    FilterPermutes(BothLost, a, b);
    var x, y := Filter(BothLost, a), Filter(BothLost, b);
    FilterPermutes(CandidateCloser, x, y);
    FilterPermutes(IncumbentCloser, x, y);
    FilterPermutes(EqualMargin, x, y);
    MapPermutes(MarginGain, x, y);
    MeanPermutes(Map(MarginGain, x), Map(MarginGain, y));
    Lower95Permutes(Map(MarginGain, x), Map(MarginGain, y), root);
    RatesPermute(x, y, root);
  }

  lemma RatesPermute(a: seq<Pair>, b: seq<Pair>, root: real -> real)
    requires multiset(a) == multiset(b)
    ensures PowerEstimate(a, root) == PowerEstimate(b, root) && FewerTurnsBound(a, root) == FewerTurnsBound(b, root)
  {
    hide Map, Lower95, RatioLower95;
    RatioPermutes(CandidateRatio, IncumbentRatio, a, b, root);
    MapPermutes(TurnsSaved, a, b);
    Lower95Permutes(Map(TurnsSaved, a), Map(TurnsSaved, b), root);
  }

  lemma MeanPermutes(a: seq<real>, b: seq<real>)
    requires multiset(a) == multiset(b)
    ensures MeanOf(a) == MeanOf(b)
  {
    SameSize(a, b);
    SumPermutes(a, b);
  }

  lemma CountsPermute(a: seq<Pair>, b: seq<Pair>)
    requires multiset(a) == multiset(b)
    ensures |a| == |b| && Count(CandidateWon, a) == Count(CandidateWon, b)
    ensures Count(IncumbentWon, a) == Count(IncumbentWon, b)
    ensures Count(Favorable, a) == Count(Favorable, b) && Count(Unfavorable, a) == Count(Unfavorable, b)
  {
    hide Filter;
    SameSize(a, b);
    FilterPermutes(CandidateWon, a, b);
    FilterPermutes(IncumbentWon, a, b);
    FilterPermutes(Favorable, a, b);
    FilterPermutes(Unfavorable, a, b);
  }

  lemma SummaryPermutes(opponent: Opponent, a: seq<Pair>, b: seq<Pair>, root: real -> real)
    requires multiset(a) == multiset(b)
    ensures Summary(opponent, Filter(Against(opponent), a), root)
      == Summary(opponent, Filter(Against(opponent), b), root)
    ensures Count(Against(opponent), a) == Count(Against(opponent), b)
  {
    hide Filter, PowerEstimate, FewerTurnsBound, LossFloorOf, PValue;
    FilterPermutes(Against(opponent), a, b);
    var x, y := Filter(Against(opponent), a), Filter(Against(opponent), b);
    CountsPermute(x, y);
    RatesPermute(x, y, root);
    LossFloorPermutes(x, y, root);
  }

  /** Every number of the evidence depends on which pairs there are, not on their order. */
  lemma EvidencePermutes(profile: Profile, a: seq<Pair>, b: seq<Pair>, root: real -> real)
    requires multiset(a) == multiset(b)
    ensures EvidenceOf(profile, a, root) == EvidenceOf(profile, b, root)
  {
    hide Filter, Map, PowerEstimate, FewerTurnsBound, LossFloorOf, Summary, MeanOf, PValue, Count, SampleMet;
    hide CriterionOf, Opponents, Minimum;
    CountsPermute(a, b);
    RatesPermute(a, b, root);
    LossFloorPermutes(a, b, root);
    MapPermutes(TurnsAdded, a, b);
    MeanPermutes(Map(TurnsAdded, a), Map(TurnsAdded, b));
    var expected := Opponents(profile);
    forall i | 0 <= i < |expected|
      ensures Summary(expected[i], Filter(Against(expected[i]), a), root)
        == Summary(expected[i], Filter(Against(expected[i]), b), root)
      ensures Count(Against(expected[i]), a) == Count(Against(expected[i]), b)
    {
      SummaryPermutes(expected[i], a, b, root);
    }
    assert GamesPerOpponent(expected, a) == GamesPerOpponent(expected, b);
    assert EvidenceOf(profile, a, root).opponents == EvidenceOf(profile, b, root).opponents;
  }

  /** Reordering either arena changes neither whether there is a verdict nor any part of it. */
  lemma VerdictIgnoresOrder(
    profile: Profile, a: seq<Game>, b: seq<Game>, a': seq<Game>, b': seq<Game>, root: real -> real)
    requires multiset(a) == multiset(a') && multiset(b) == multiset(b')
    ensures Judged(profile, a, b, root) == Judged(profile, a', b', root)
  {
    hide EvidenceOf, Pairable;
    SameMembers(a, a');
    SameMembers(a', a);
    if Pairable(a, b) {
      PairableIgnoresOrder(a, b, a', b');
      PairingIgnoresOrder(PairingOf(a, b), PairingOf(a', b'), a, b, a', b');
      EvidencePermutes(profile, PairingOf(a, b), PairingOf(a', b'), root);
    } else if Pairable(a', b') {
      PairableIgnoresOrder(a', b', a, b);
    }
  }

  // ---------- flips ----------

  /** The win difference is the difference of the flips. */
  lemma {:induction false} DeltaIsFlips(pairs: seq<Pair>)
    ensures Count(CandidateWon, pairs) - Count(IncumbentWon, pairs)
      == Count(Favorable, pairs) - Count(Unfavorable, pairs)
    ensures Count(BothLost, pairs) + Count(CandidateWon, pairs) + Count(Unfavorable, pairs) == |pairs|
  {
    if pairs != [] {
      DeltaIsFlips(pairs[..|pairs| - 1]);
    }
  }

  lemma {:induction false} MarginsPartition(losses: seq<Pair>)
    ensures Count(CandidateCloser, losses) + Count(IncumbentCloser, losses) + Count(EqualMargin, losses) == |losses|
  {
    if losses != [] {
      MarginsPartition(losses[..|losses| - 1]);
    }
  }

  /** The matched losses are the games nobody won, each counted under exactly one margin. */
  lemma LossFloorPartitions(profile: Profile, pairs: seq<Pair>, root: real -> real)
    ensures var e := EvidenceOf(profile, pairs, root);
      && e.winDelta == e.favorableWinFlips - e.unfavorableWinFlips
      && e.lossFloor.matchedLosses == e.games - e.candidateWins - e.unfavorableWinFlips
      && e.lossFloor.matchedLosses == e.lossFloor.candidateCloser + e.lossFloor.incumbentCloser
        + e.lossFloor.equalMargin
  {
    DeltaIsFlips(pairs);
    MarginsPartition(Filter(BothLost, pairs));
  }

  /** The criterion is decided by the bounds alone: the guards on the win counts and on the sign of the
      power difference follow from them. */
  lemma CriterionIsTheBounds(pairs: seq<Pair>, root: real -> real)
    requires SquareRoot(root)
    ensures var p := PValue(Count(Favorable, pairs), Count(Unfavorable, pairs));
      var level := Count(CandidateWon, pairs) == Count(IncumbentWon, pairs);
      var power := PowerEstimate(pairs, root);
      && (CriterionFor(pairs, root) == Wins <==> p <= 0.05)
      && (CriterionFor(pairs, root) == PowerPerTurn <==> level && Positive(power.lower95))
      && (CriterionFor(pairs, root) == FewerTurns
          <==> level && Zero(power.difference) && Positive(FewerTurnsBound(pairs, root)))
  {
    hide Filter, Map, PValue, FewerTurnsBound, SquareRoot, Count;
    DeltaIsFlips(pairs);
    if PValue(Count(Favorable, pairs), Count(Unfavorable, pairs)) <= 0.05 {
      SignificantMeansMajority(Count(Favorable, pairs), Count(Unfavorable, pairs));
    }
    if Positive(PowerEstimate(pairs, root).lower95) {
      RatioBoundIsBelowDifference(Map(CandidateRatio, pairs), Map(IncumbentRatio, pairs), root);
    }
  }

  /** A promotion on wins rests on at least five changed games, most of them won by the candidate; no
      promotion loses games. */
  lemma PromotionLosesNoGames(profile: Profile, pairs: seq<Pair>, root: real -> real)
    requires SquareRoot(root) && EvidenceOf(profile, pairs, root).promotionGatePassed
    ensures var e := EvidenceOf(profile, pairs, root);
      && e.minimumSampleMet && e.unfavorableWinFlips <= e.favorableWinFlips
      && (e.criterion == Wins ==>
        e.unfavorableWinFlips < e.favorableWinFlips && 5 <= e.favorableWinFlips + e.unfavorableWinFlips)
  {
    hide Filter, Map, PValue, FewerTurnsBound, PowerEstimate, SquareRoot, Summary, LossFloorOf, Count;
    DeltaIsFlips(pairs);
    CriterionIsTheBounds(pairs, root);
    if CriterionFor(pairs, root) == Wins {
      SignificantMeansMajority(Count(Favorable, pairs), Count(Unfavorable, pairs));
    }
  }

  // ---------- the gate never passes both ways ----------

  lemma {:induction false} CountSwapped(p: Pair -> bool, q: Pair -> bool, pairs: seq<Pair>)
    requires forall x: Pair :: q(Swap(x)) == p(x)
    ensures Count(q, Swapped(pairs)) == Count(p, pairs)
  {
    if pairs != [] {
      var rest := pairs[..|pairs| - 1];
      CountSwapped(p, q, rest);
      assert pairs == rest + [pairs[|pairs| - 1]];
      assert Swapped(pairs) == Swapped(rest) + [Swap(pairs[|pairs| - 1])];
      FilterAppend(p, rest, pairs[|pairs| - 1]);
      FilterAppend(q, Swapped(rest), Swap(pairs[|pairs| - 1]));
    }
  }

  lemma SameImage<A>(f: Pair -> A, a: seq<Pair>, g: Pair -> A, b: seq<Pair>)
    requires |a| == |b| && forall i | 0 <= i < |a| :: f(a[i]) == g(b[i])
    ensures Map(f, a) == Map(g, b)
  {
  }

  /** Exchanging the sides negates the power difference, and leaves it undefined where it was. */
  lemma PowerNegates(pairs: seq<Pair>, root: real -> real)
    ensures var d, e := PowerEstimate(pairs, root).difference, PowerEstimate(Swapped(pairs), root).difference;
      d.Finite? == e.Finite? && (d.Finite? ==> e.value == -d.value)
  {
    hide Sum;
    var others := Swapped(pairs);
    forall i | 0 <= i < |pairs|
      ensures CandidateRatio(others[i]) == IncumbentRatio(pairs[i])
      ensures IncumbentRatio(others[i]) == CandidateRatio(pairs[i])
    {
    }
    SameImage(CandidateRatio, others, IncumbentRatio, pairs);
    SameImage(IncumbentRatio, others, CandidateRatio, pairs);
  }

  lemma {:induction false} SumNegates(a: seq<real>, b: seq<real>)
    requires |a| == |b| && forall i | 0 <= i < |a| :: b[i] == -a[i]
    ensures Sum(b) == -Sum(a)
  {
    if a != [] {
      SumNegates(a[..|a| - 1], b[..|b| - 1]);
    }
  }

  lemma NegatedQuotient(a: real, b: real)
    requires 0.0 < b && 0.0 < a / b
    ensures -a / b < 0.0
  {
    QuotientSign(a, b);
    QuotientSign(-a, b);
    assert -a < 0.0;
    if 0.0 <= -a / b {
      assert -a / b * b == -a;
    }
  }

  /** Turns saved one way are turns added the other: both bounds cannot be positive. */
  lemma TurnsOneWay(pairs: seq<Pair>, root: real -> real)
    requires SquareRoot(root) && Positive(FewerTurnsBound(pairs, root))
    ensures !Positive(FewerTurnsBound(Swapped(pairs), root))
  {
    hide SquareRoot;
    var saved, added := Map(TurnsSaved, pairs), Map(TurnsSaved, Swapped(pairs));
    LowerBoundIsBelowMean(saved, root);
    SumNegates(saved, added);
    NegatedQuotient(Sum(saved), |saved| as real);
    if Positive(FewerTurnsBound(Swapped(pairs), root)) {
      LowerBoundIsBelowMean(added, root);
    }
  }

  lemma CriterionOneWay(pairs: seq<Pair>, root: real -> real)
    requires SquareRoot(root) && CriterionFor(pairs, root) != Nothing
    ensures CriterionFor(Swapped(pairs), root) == Nothing
  {
    hide Filter, PValue, SquareRoot, FewerTurnsBound, PowerEstimate, Count;
    CountSwapped(IncumbentWon, CandidateWon, pairs);
    CountSwapped(CandidateWon, IncumbentWon, pairs);
    PowerNegates(pairs, root);
    if Positive(FewerTurnsBound(pairs, root)) {
      TurnsOneWay(pairs, root);
    }
  }

  lemma CriterionPermutes(a: seq<Pair>, b: seq<Pair>, root: real -> real)
    requires multiset(a) == multiset(b)
    ensures CriterionFor(a, root) == CriterionFor(b, root)
  {
    hide Filter, PValue, FewerTurnsBound, PowerEstimate, Count;
    CountsPermute(a, b);
    RatesPermute(a, b, root);
  }

  /** If the candidate is promoted over the incumbent, the incumbent is not promoted over the candidate;
      in particular nothing is promoted over itself. */
  lemma NeverPromotesBothWays(profile: Profile, a: seq<Game>, b: seq<Game>, root: real -> real)
    requires SquareRoot(root) && Promotes(profile, a, b, root)
    ensures !Promotes(profile, b, a, root)
  {
    hide Filter, SquareRoot, Summary, LossFloorOf, CriterionFor, Pairable;
    if Pairable(b, a) {
      PairingIsSymmetric(PairingOf(a, b), PairingOf(b, a), a, b);
      CriterionPermutes(PairingOf(b, a), Swapped(PairingOf(a, b)), root);
      CriterionOneWay(PairingOf(a, b), root);
    }
  }

  // ---------- per-opponent evidence adds up ----------

  /** One count, summed over the opponents. */
  ghost function Tally(f: OpponentEvidence -> nat, opponents: seq<OpponentEvidence>): nat {
    if opponents == [] then 0
    else Tally(f, opponents[..|opponents| - 1]) + f(opponents[|opponents| - 1])
  }

  ghost function SumOver(opponents: seq<Opponent>, p: Pair -> bool, pairs: seq<Pair>): nat {
    if opponents == [] then 0
    else
      SumOver(opponents[..|opponents| - 1], p, pairs) + Count(p, Filter(Against(opponents[|opponents| - 1]), pairs))
  }

  lemma {:induction false} OnePairMore(opponents: seq<Opponent>, p: Pair -> bool, pairs: seq<Pair>, x: Pair)
    requires Distinct(opponents)
    ensures SumOver(opponents, p, pairs + [x])
      == SumOver(opponents, p, pairs) + if p(x) && x.candidate.key.opponent in opponents then 1 else 0
  {
    hide Filter, Distinct;
    if opponents != [] {
      var rest, last := opponents[..|opponents| - 1], opponents[|opponents| - 1];
      DistinctPrefix(opponents);
      OnePairMore(rest, p, pairs, x);
      LastIsNew(opponents);
      assert opponents == rest + [last];
      FilterAppend(Against(last), pairs, x);
      FilterAppend(p, Filter(Against(last), pairs), x);
      assert Filter(Against(last), pairs) + [] == Filter(Against(last), pairs);
    }
  }

  lemma DistinctPrefix(opponents: seq<Opponent>)
    requires Distinct(opponents) && opponents != []
    ensures Distinct(opponents[..|opponents| - 1])
  {
  }

  lemma LastIsNew(opponents: seq<Opponent>)
    requires Distinct(opponents) && opponents != []
    ensures opponents[|opponents| - 1] !in opponents[..|opponents| - 1]
  {
  }

  lemma {:induction false} OpponentsPartition(opponents: seq<Opponent>, p: Pair -> bool, pairs: seq<Pair>)
    requires Distinct(opponents) && forall x <- pairs :: x.candidate.key.opponent in opponents
    ensures SumOver(opponents, p, pairs) == Count(p, pairs)
  {
    if pairs == [] {
      NoPairs(opponents, p);
    } else {
      var rest, last := pairs[..|pairs| - 1], pairs[|pairs| - 1];
      assert pairs == rest + [last] && last in pairs;
      forall x <- rest ensures x.candidate.key.opponent in opponents {
        assert x in pairs;
      }
      OpponentsPartition(opponents, p, rest);
      OnePairMore(opponents, p, rest, last);
      FilterAppend(p, rest, last);
    }
  }

  lemma {:induction false} NoPairs(opponents: seq<Opponent>, p: Pair -> bool)
    ensures SumOver(opponents, p, []) == 0
  {
    if opponents != [] {
      NoPairs(opponents[..|opponents| - 1], p);
    }
  }

  lemma {:induction false} TallyIsSum(
    f: OpponentEvidence -> nat, p: Pair -> bool, evidence: seq<OpponentEvidence>, opponents: seq<Opponent>,
      pairs: seq<Pair>)
    requires |evidence| == |opponents|
    requires forall i | 0 <= i < |evidence| :: f(evidence[i]) == Count(p, Filter(Against(opponents[i]), pairs))
    ensures Tally(f, evidence) == SumOver(opponents, p, pairs)
  {
    if evidence != [] {
      TallyIsSum(f, p, evidence[..|evidence| - 1], opponents[..|opponents| - 1], pairs);
    }
  }

  function GamesOf(o: OpponentEvidence): nat { o.games }

  function CandidateWinsOf(o: OpponentEvidence): nat { o.candidateWins }

  function IncumbentWinsOf(o: OpponentEvidence): nat { o.incumbentWins }

  function FavorableOf(o: OpponentEvidence): nat { o.favorableWinFlips }

  function UnfavorableOf(o: OpponentEvidence): nat { o.unfavorableWinFlips }

  predicate AnyPair(p: Pair) { true }

  lemma {:induction false} EveryPairCounts(pairs: seq<Pair>)
    ensures Count(AnyPair, pairs) == |pairs|
  {
    if pairs != [] {
      EveryPairCounts(pairs[..|pairs| - 1]);
    }
  }

  /** Games, wins and flips of the opponents add up to the totals. */
  lemma OpponentsAddUp(profile: Profile, pairs: seq<Pair>, root: real -> real)
    requires forall x <- pairs :: x.candidate.key.opponent in Opponents(profile)
    ensures var e := EvidenceOf(profile, pairs, root);
      && Tally(GamesOf, e.opponents) == e.games
      && Tally(CandidateWinsOf, e.opponents) == e.candidateWins
      && Tally(IncumbentWinsOf, e.opponents) == e.incumbentWins
      && Tally(FavorableOf, e.opponents) == e.favorableWinFlips
      && Tally(UnfavorableOf, e.opponents) == e.unfavorableWinFlips
  {
    hide Filter, PValue, FewerTurnsBound, PowerEstimate, LossFloorOf, CriterionFor, Tally;
    var e, expected := EvidenceOf(profile, pairs, root), Opponents(profile);
    assert Distinct(expected);
    forall i | 0 <= i < |expected| ensures Count(AnyPair, Filter(Against(expected[i]), pairs)) == e.opponents[i].games {
      EveryPairCounts(Filter(Against(expected[i]), pairs));
    }
    EveryPairCounts(pairs);
    OneTally(GamesOf, AnyPair, e.opponents, expected, pairs);
    OneTally(CandidateWinsOf, CandidateWon, e.opponents, expected, pairs);
    OneTally(IncumbentWinsOf, IncumbentWon, e.opponents, expected, pairs);
    OneTally(FavorableOf, Favorable, e.opponents, expected, pairs);
    OneTally(UnfavorableOf, Unfavorable, e.opponents, expected, pairs);
  }

  lemma OneTally(
    f: OpponentEvidence -> nat, p: Pair -> bool, evidence: seq<OpponentEvidence>, opponents: seq<Opponent>,
      pairs: seq<Pair>)
    requires Distinct(opponents) && forall x <- pairs :: x.candidate.key.opponent in opponents
    requires |evidence| == |opponents|
    requires forall i | 0 <= i < |evidence| :: f(evidence[i]) == Count(p, Filter(Against(opponents[i]), pairs))
    ensures Tally(f, evidence) == Count(p, pairs)
  {
    TallyIsSum(f, p, evidence, opponents, pairs);
    OpponentsPartition(opponents, p, pairs);
  }

  lemma {:induction false} TallyOfEqual(f: OpponentEvidence -> nat, evidence: seq<OpponentEvidence>, c: nat)
    requires forall i | 0 <= i < |evidence| :: f(evidence[i]) == c
    ensures Tally(f, evidence) == |evidence| * c
  {
    if evidence != [] {
      TallyOfEqual(f, evidence[..|evidence| - 1], c);
    }
  }

  /** A sample that is met is balanced: the games are the opponents times what each has, and that is enough. */
  lemma MetSamplesAreBalanced(profile: Profile, pairs: seq<Pair>, root: real -> real)
    requires forall x <- pairs :: x.candidate.key.opponent in Opponents(profile)
    requires EvidenceOf(profile, pairs, root).minimumSampleMet
    ensures var e := EvidenceOf(profile, pairs, root);
      && e.games == |Opponents(profile)| * e.gamesPerOpponent[0]
      && (profile == Small5 ==> 12_288 <= e.games) && (profile == Daemon19 ==> 512 <= e.games)
  {
    hide Filter, PValue, FewerTurnsBound, PowerEstimate, LossFloorOf, CriterionFor, Tally;
    OpponentsAddUp(profile, pairs, root);
    var e := EvidenceOf(profile, pairs, root);
    SampleIsEven(e.gamesPerOpponent, Minimum(profile));
    forall i | 0 <= i < |e.opponents| ensures GamesOf(e.opponents[i]) == e.gamesPerOpponent[0] {
      assert e.gamesPerOpponent[i] == Count(Against(Opponents(profile)[i]), pairs);
    }
    TallyOfEqual(GamesOf, e.opponents, e.gamesPerOpponent[0]);
  }

  lemma SampleIsEven(games: seq<nat>, minimum: nat)
    requires SampleMet(games, minimum)
    ensures forall i | 0 <= i < |games| :: games[i] == games[0] >= minimum
  {
  }

  // ---------- score margins cannot promote ----------

  /** The same game up to its scores. */
  predicate SameButScores(g: Game, h: Game) {
    g.key == h.key && g.completed == h.completed && g.won == h.won && g.power == h.power && g.turns == h.turns
  }

  predicate AllSameButScores(a: seq<Game>, b: seq<Game>) {
    |a| == |b| && forall i | 0 <= i < |a| :: SameButScores(a[i], b[i])
  }

  ghost predicate PairsSameButScores(a: seq<Pair>, b: seq<Pair>) {
    && |a| == |b|
    && forall i | 0 <= i < |a| ::
         SameButScores(a[i].candidate, b[i].candidate) && SameButScores(a[i].incumbent, b[i].incumbent)
  }

  lemma CountLast(p: Pair -> bool, s: seq<Pair>)
    requires s != []
    ensures Count(p, s) == Count(p, s[..|s| - 1]) + if p(s[|s| - 1]) then 1 else 0
  {
  }

  lemma {:induction false} CountBlind(p: Pair -> bool, a: seq<Pair>, b: seq<Pair>)
    requires |a| == |b| && forall i | 0 <= i < |a| :: p(a[i]) == p(b[i])
    ensures Count(p, a) == Count(p, b)
  {
    hide Count;
    if a != [] {
      var shorter, other := a[..|a| - 1], b[..|b| - 1];
      CountLast(p, a);
      CountLast(p, b);
      forall i | 0 <= i < |shorter| ensures p(shorter[i]) == p(other[i]) {
        assert shorter[i] == a[i] && other[i] == b[i];
      }
      CountBlind(p, shorter, other);
    }
  }

  lemma VerdictBlind(profile: Profile, a: seq<Pair>, b: seq<Pair>, root: real -> real)
    requires PairsSameButScores(a, b)
    ensures EvidenceOf(profile, a, root).criterion == EvidenceOf(profile, b, root).criterion
    ensures EvidenceOf(profile, a, root).promotionGatePassed == EvidenceOf(profile, b, root).promotionGatePassed
  {
    hide Filter, PValue, Lower95, RatioLower95, LossFloorOf, Summary, SampleMet, Count;
    CountBlind(CandidateWon, a, b);
    CountBlind(IncumbentWon, a, b);
    CountBlind(Favorable, a, b);
    CountBlind(Unfavorable, a, b);
    assert Map(CandidateRatio, a) == Map(CandidateRatio, b);
    assert Map(IncumbentRatio, a) == Map(IncumbentRatio, b);
    assert Map(TurnsSaved, a) == Map(TurnsSaved, b);
    var expected := Opponents(profile);
    forall i | 0 <= i < |expected| ensures Count(Against(expected[i]), a) == Count(Against(expected[i]), b) {
      CountBlind(Against(expected[i]), a, b);
    }
    assert GamesPerOpponent(expected, a) == GamesPerOpponent(expected, b);
  }

  lemma PairableBlind(a: seq<Game>, b: seq<Game>, a': seq<Game>, b': seq<Game>)
    requires Pairable(a, b) && AllSameButScores(a, a') && AllSameButScores(b, b')
    ensures Pairable(a', b')
  {
    SoundBlind(a, a');
    SoundBlind(b, b');
  }

  lemma SoundBlind(a: seq<Game>, a': seq<Game>)
    requires AllSameButScores(a, a')
    ensures Sound(a) ==> Sound(a')
    ensures Keys(a) == Keys(a')
  {
    KeysBlind(a, a');
    KeysBlind(a', a);
    if Sound(a) {
      forall g <- a' ensures g.completed {
        var i :| 0 <= i < |a'| && a'[i] == g;
        assert a[i] in a;
      }
      forall i, j | 0 <= i < j < |a'| ensures a'[i].key != a'[j].key {
        assert a[i].key != a[j].key;
      }
    }
  }

  lemma KeysBlind(a: seq<Game>, a': seq<Game>)
    requires AllSameButScores(a, a')
    ensures Keys(a) <= Keys(a')
  {
    forall k <- Keys(a) ensures k in Keys(a') {
      var i := KeyedGame(a, k);
      assert a'[i] in a';
    }
  }

  lemma PairingBlind(a: seq<Game>, b: seq<Game>, a': seq<Game>, b': seq<Game>)
    requires Pairable(a, b) && Pairable(a', b') && AllSameButScores(a, a') && AllSameButScores(b, b')
    ensures PairsSameButScores(PairingOf(a, b), PairingOf(a', b'))
  {
    var x, y := PairingOf(a, b), PairingOf(a', b');
    forall i | 0 <= i < |x| ensures SameButScores(x[i].incumbent, y[i].incumbent) {
      var k :| 0 <= k < |b| && b[k] == x[i].incumbent;
      assert b'[k] in b';
      SameKeySameGame(b', b'[k], y[i].incumbent);
    }
  }

  /** Changing the scores of any games, in either arena, changes neither verdict nor criterion. */
  lemma ScoresCannotPromote(
    profile: Profile, a: seq<Game>, b: seq<Game>, a': seq<Game>, b': seq<Game>, root: real -> real)
    requires AllSameButScores(a, a') && AllSameButScores(b, b')
    ensures Promotes(profile, a, b, root) <==> Promotes(profile, a', b', root)
  {
    hide EvidenceOf, Pairable;
    ExpectedBlind(profile, a, a');
    if Pairable(a, b) {
      PairableBlind(a, b, a', b');
      PairingBlind(a, b, a', b');
      VerdictBlind(profile, PairingOf(a, b), PairingOf(a', b'), root);
    } else if Pairable(a', b') {
      PairableBlind(a', b', a, b);
    }
  }

  lemma ExpectedBlind(profile: Profile, a: seq<Game>, a': seq<Game>)
    requires AllSameButScores(a, a')
    ensures Expected(profile, a) <==> Expected(profile, a')
  {
    hide Opponents;
    if Expected(profile, a) {
      forall g <- a' ensures g.key.opponent in Opponents(profile) {
        var i :| 0 <= i < |a'| && a'[i] == g;
        assert a[i] in a;
      }
    }
    if Expected(profile, a') {
      forall g <- a ensures g.key.opponent in Opponents(profile) {
        var i :| 0 <= i < |a| && a[i] == g;
        assert a'[i] in a';
      }
    }
  }
}
