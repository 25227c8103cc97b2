/** Which side the evidence favours, read off the games (tools/go-promotion-statistics.ts). */
module PromotionDirections {
  import opened Collections
  import opened GoOpponents
  import opened PairedGames
  import opened PairedStatistics
  import opened PromotionGate
  import opened PromotionLaws
  import opened SignTest

  // ---------- totals of one arena ----------

  function TotalPower(games: seq<Game>): real {
    if games == [] then 0.0 else TotalPower(games[..|games| - 1]) + games[|games| - 1].power
  }

  function TotalTurns(games: seq<Game>): nat {
    if games == [] then 0 else TotalTurns(games[..|games| - 1]) + games[|games| - 1].turns
  }

  function TotalWins(games: seq<Game>): nat {
    if games == [] then 0 else TotalWins(games[..|games| - 1]) + if games[|games| - 1].won then 1 else 0
  }

  /** How far Black was ahead, over all games. */
  function TotalMargin(games: seq<Game>): real {
    if games == [] then 0.0
    else TotalMargin(games[..|games| - 1]) + games[|games| - 1].blackScore - games[|games| - 1].whiteScore
  }

  ghost function Candidates(pairs: seq<Pair>): seq<Game> {
    seq(|pairs|, i requires 0 <= i < |pairs| => pairs[i].candidate)
  }

  function PowerOf(g: Game): real { g.power }

  function TurnsOf(g: Game): real { g.turns as real }

  predicate WonBy(g: Game) { g.won }

  lemma {:induction false} TotalsAreSums(games: seq<Game>)
    ensures TotalPower(games) == Sum(Map(PowerOf, games))
    ensures TotalTurns(games) as real == Sum(Map(TurnsOf, games))
    ensures TotalMargin(games) == Sum(Map(ScoreMargin, games))
    ensures TotalWins(games) == |Filter(WonBy, games)|
  {
    if games != [] {
      var rest, last := games[..|games| - 1], games[|games| - 1];
      assert games == rest + [last];
      TotalsAreSums(rest);
      SumMapAppend(PowerOf, rest, last);
      SumMapAppend(TurnsOf, rest, last);
      SumMapAppend(ScoreMargin, rest, last);
      FilterAppend(WonBy, rest, last);
    }
  }

  /** Totals do not depend on the order of the games. */
  lemma TotalsPermute(a: seq<Game>, b: seq<Game>)
    requires multiset(a) == multiset(b)
    ensures TotalPower(a) == TotalPower(b) && TotalTurns(a) == TotalTurns(b) && TotalWins(a) == TotalWins(b)
  {
    hide Sum, Map, Filter;
    TotalsAreSums(a);
    TotalsAreSums(b);
    MapPermutes(PowerOf, a, b);
    SumPermutes(Map(PowerOf, a), Map(PowerOf, b));
    MapPermutes(TurnsOf, a, b);
    SumPermutes(Map(TurnsOf, a), Map(TurnsOf, b));
    FilterPermutes(WonBy, a, b);
  }

  // ---------- what the pairs sum to ----------

  lemma RatioTotals(pairs: seq<Pair>)
    ensures Total(Map(CandidateRatio, pairs))
      == Ratio(TotalPower(Candidates(pairs)), TotalTurns(Candidates(pairs)) as real)
    ensures Total(Map(IncumbentRatio, pairs))
      == Ratio(TotalPower(Incumbents(pairs)), TotalTurns(Incumbents(pairs)) as real)
  {
    hide Sum;
    var c, i := Candidates(pairs), Incumbents(pairs);
    assert Map(Numerator, Map(CandidateRatio, pairs)) == Map(PowerOf, c);
    assert Map(Denominator, Map(CandidateRatio, pairs)) == Map(TurnsOf, c);
    assert Map(Numerator, Map(IncumbentRatio, pairs)) == Map(PowerOf, i);
    assert Map(Denominator, Map(IncumbentRatio, pairs)) == Map(TurnsOf, i);
    TotalsAreSums(c);
    TotalsAreSums(i);
  }

  lemma DifferenceTotals(pairs: seq<Pair>)
    ensures Sum(Map(TurnsSaved, pairs))
      == TotalTurns(Incumbents(pairs)) as real - TotalTurns(Candidates(pairs)) as real
    ensures Sum(Map(TurnsAdded, pairs))
      == TotalTurns(Candidates(pairs)) as real - TotalTurns(Incumbents(pairs)) as real
    ensures Sum(Map(MarginGain, pairs)) == TotalMargin(Candidates(pairs)) - TotalMargin(Incumbents(pairs))
  {
    hide Sum;
    var c, i := Candidates(pairs), Incumbents(pairs);
    TotalsAreSums(c);
    TotalsAreSums(i);
    DifferencesSum(Map(TurnsOf, i), Map(TurnsOf, c), Map(TurnsSaved, pairs));
    DifferencesSum(Map(TurnsOf, c), Map(TurnsOf, i), Map(TurnsAdded, pairs));
    DifferencesSum(Map(ScoreMargin, c), Map(ScoreMargin, i), Map(MarginGain, pairs));
  }

  lemma {:induction false} WinTotals(pairs: seq<Pair>)
    ensures Count(CandidateWon, pairs) == TotalWins(Candidates(pairs))
    ensures Count(IncumbentWon, pairs) == TotalWins(Incumbents(pairs))
  {
    if pairs != [] {
      var rest := pairs[..|pairs| - 1];
      WinTotals(rest);
      assert Candidates(pairs)[..|pairs| - 1] == Candidates(rest);
      assert Incumbents(pairs)[..|pairs| - 1] == Incumbents(rest);
    }
  }

  // ---------- signs ----------

  /** A rate difference has the sign of the cross products. */
  lemma RatesCompare(p: real, t: real, q: real, u: real, d: real)
    requires 0.0 < t && 0.0 < u && d == p / t - q / u
    ensures d * (t * u) == p * u - q * t
    ensures (0.0 < d <==> q * t < p * u) && (d == 0.0 <==> p * u == q * t)
  {
    var a, b := p / t, q / u;
    assert a * t == p && b * u == q;
    CrossProducts(a, t, b, u, p * u, q * t);
    PositiveProduct(t, u, t * u);
    SignOfProduct(d, t * u, p * u - q * t);
  }

  lemma CrossProducts(a: real, t: real, b: real, u: real, x: real, y: real)
    requires x == a * t * u && y == b * u * t
    ensures (a - b) * (t * u) == x - y
  {
  }

  lemma SignOfProduct(d: real, w: real, product: real)
    requires 0.0 < w && product == d * w
    ensures (0.0 < d <==> 0.0 < product) && (d == 0.0 <==> product == 0.0)
  {
    if 0.0 < d { PositiveProduct(d, w, product); }
    if d < 0.0 { PositiveProduct(-d, w, -product); }
  }

  lemma MeanTimesCount(values: seq<real>)
    requires values != []
    ensures Mean(values) * |values| as real == Sum(values)
    ensures 0.0 < Mean(values) <==> 0.0 < Sum(values)
  {
    QuotientSign(Sum(values), |values| as real);
  }

  /** A positive lower bound is a positive total. */
  lemma PositiveBound(values: seq<real>, root: real -> real)
    requires SquareRoot(root) && Positive(Lower95(values, root))
    ensures 0.0 < Sum(values)
  {
    hide SquareRoot, Sum, Mean;
    LowerBoundIsBelowMean(values, root);
    MeanTimesCount(values);
  }

  // ---------- the estimates ----------

  /** The power difference is a number exactly when there are two pairs and both sides took turns, and then it is the
      candidate's power per turn less the incumbent's. */
  lemma PowerIsCandidateLessIncumbent(pairs: seq<Pair>, root: real -> real)
    ensures var (c, i, d) := (Candidates(pairs), Incumbents(pairs), PowerEstimate(pairs, root).difference);
      var (t, u) := (TotalTurns(c) as real, TotalTurns(i) as real);
      && (d.Finite? <==> 2 <= |pairs| && 0 < TotalTurns(c) && 0 < TotalTurns(i))
      && (d.Finite? ==> d.value * (t * u) == TotalPower(c) * u - TotalPower(i) * t)
      && (d.Finite? ==> (Positive(d) <==> TotalPower(i) * t < TotalPower(c) * u))
      && (d.Finite? ==> (Zero(d) <==> TotalPower(c) * u == TotalPower(i) * t))
  {
    hide Sum, TotalPower, TotalTurns, Influences, Margin, Spread, Mean;
    RatioTotals(pairs);
    var d := PowerEstimate(pairs, root).difference;
    if d.Finite? {
      var c, i := Candidates(pairs), Incumbents(pairs);
      RatesCompare(TotalPower(c), TotalTurns(c) as real, TotalPower(i), TotalTurns(i) as real, d.value);
    }
  }

  /** A positive turns bound means the candidate took fewer turns. */
  lemma FewerTurnsIsFewer(pairs: seq<Pair>, root: real -> real)
    requires SquareRoot(root) && Positive(FewerTurnsBound(pairs, root))
    ensures TotalTurns(Candidates(pairs)) < TotalTurns(Incumbents(pairs))
  {
    hide SquareRoot, Sum, Map, Lower95, TotalTurns;
    PositiveBound(Map(TurnsSaved, pairs), root);
    DifferenceTotals(pairs);
  }

  /** The mean turns difference is the candidate's turns less the incumbent's, per game. */
  lemma TurnsDeltaIsCandidateLessIncumbent(pairs: seq<Pair>)
    ensures var delta := MeanOf(Map(TurnsAdded, pairs));
      && (delta.Finite? <==> pairs != [])
      && (delta.Finite? ==>
            delta.value * |pairs| as real
              == TotalTurns(Candidates(pairs)) as real - TotalTurns(Incumbents(pairs)) as real)
  {
    hide Sum, TotalTurns, Mean;
    DifferenceTotals(pairs);
    if pairs != [] {
      MeanTimesCount(Map(TurnsAdded, pairs));
    }
  }

  // ---------- the verdict on two arenas ----------

  lemma PairedSides(candidate: seq<Game>, incumbent: seq<Game>)
    requires Pairable(candidate, incumbent)
    ensures var pairs := PairingOf(candidate, incumbent);
      Candidates(pairs) == candidate && multiset(Incumbents(pairs)) == multiset(incumbent)
  {
    PairingIsABijection(PairingOf(candidate, incumbent), candidate, incumbent);
  }

  /** The power difference of two arenas is a number exactly when there are two games and both sides took turns, and
      then it is the candidate's power per turn less the incumbent's. */
  lemma PowerIsOfTheGames(profile: Profile, candidate: seq<Game>, incumbent: seq<Game>, root: real -> real)
    requires Judged(profile, candidate, incumbent, root).Some?
    ensures var d := Judged(profile, candidate, incumbent, root).value.powerPerTurn.difference;
      var (p, t) := (TotalPower(candidate), TotalTurns(candidate) as real);
      var (q, u) := (TotalPower(incumbent), TotalTurns(incumbent) as real);
      && (d.Finite? <==> (2 <= |candidate| && 0.0 < t && 0.0 < u))
      && (d.Finite? ==> d.value * (t * u) == p * u - q * t)
      && (d.Finite? ==> (Positive(d) <==> q * t < p * u) && (Zero(d) <==> p * u == q * t))
  {
    hide *;
    JudgedPairs(profile, candidate, incumbent, root);
    var pairs := PairingOf(candidate, incumbent);
    PairedSides(candidate, incumbent);
    TotalsPermute(Incumbents(pairs), incumbent);
    PowerIsCandidateLessIncumbent(pairs, root);
  }

  lemma JudgedPairs(profile: Profile, candidate: seq<Game>, incumbent: seq<Game>, root: real -> real)
    requires Judged(profile, candidate, incumbent, root).Some?
    ensures Pairable(candidate, incumbent)
    ensures var (pairs, e) := (PairingOf(candidate, incumbent), Judged(profile, candidate, incumbent, root).value);
      && |pairs| == |candidate| == e.games
      && e.candidateWins == Count(CandidateWon, pairs) && e.incumbentWins == Count(IncumbentWon, pairs)
      && e.powerPerTurn == PowerEstimate(pairs, root) && e.meanTurnsDelta == MeanOf(Map(TurnsAdded, pairs))
  {
    hide Pairable, PValue, PowerEstimate, FewerTurnsBound, LossFloorOf, Summary, CriterionFor, Count, SampleMet, MeanOf;
    hide Map, Opponents, Minimum;
  }

  /** Games, wins and the mean turns difference are those of the two arenas, each read candidate first. */
  lemma CountsAreOfTheGames(profile: Profile, candidate: seq<Game>, incumbent: seq<Game>, root: real -> real)
    requires Judged(profile, candidate, incumbent, root).Some?
    ensures var e := Judged(profile, candidate, incumbent, root).value;
      && e.games == |candidate|
      && e.candidateWins == TotalWins(candidate) && e.incumbentWins == TotalWins(incumbent)
      && (e.meanTurnsDelta.Finite? <==> candidate != [])
      && (e.meanTurnsDelta.Finite? ==>
            e.meanTurnsDelta.value * |candidate| as real
              == TotalTurns(candidate) as real - TotalTurns(incumbent) as real)
  {
    hide *;
    JudgedPairs(profile, candidate, incumbent, root);
    var pairs := PairingOf(candidate, incumbent);
    PairedSides(candidate, incumbent);
    TotalsPermute(Incumbents(pairs), incumbent);
    WinTotals(pairs);
    TurnsDeltaIsCandidateLessIncumbent(pairs);
  }

  /** A promotion is a lexicographic improvement over the games played: more wins, or as many wins and more power per
      turn, or as many wins, the same power per turn and fewer turns. */
  lemma PromotionImproves(profile: Profile, candidate: seq<Game>, incumbent: seq<Game>, root: real -> real)
    requires SquareRoot(root) && Promotes(profile, candidate, incumbent, root)
    ensures var criterion := Judged(profile, candidate, incumbent, root).value.criterion;
      var (gained, kept) := (TotalPower(candidate) * TotalTurns(incumbent) as real,
                             TotalPower(incumbent) * TotalTurns(candidate) as real);
      && (criterion == Wins ==> TotalWins(incumbent) < TotalWins(candidate))
      && (criterion == PowerPerTurn ==> TotalWins(candidate) == TotalWins(incumbent) && kept < gained)
      && (criterion == FewerTurns ==>
            && TotalWins(candidate) == TotalWins(incumbent) && gained == kept
            && TotalTurns(candidate) < TotalTurns(incumbent))
      && criterion != Nothing
  {
    hide Pairable, PValue, PowerEstimate, FewerTurnsBound, LossFloorOf, Summary, Count, SampleMet, MeanOf, SquareRoot;
    hide Map, TotalPower, TotalTurns, TotalWins, Opponents, Minimum;
    var pairs := PairingOf(candidate, incumbent);
    PairedSides(candidate, incumbent);
    TotalsPermute(Incumbents(pairs), incumbent);
    WinTotals(pairs);
    PowerIsCandidateLessIncumbent(pairs, root);
    if Positive(FewerTurnsBound(pairs, root)) {
      FewerTurnsIsFewer(pairs, root);
    }
  }

  // ---------- the games both sides lost ----------

  lemma {:induction false} FilterKeepsAll<A>(p: A -> bool, s: seq<A>)
    requires forall x <- s :: p(x)
    ensures Filter(p, s) == s
  {
    if s != [] {
      assert s == s[..|s| - 1] + [s[|s| - 1]];
      assert s[|s| - 1] in s;
      FilterKeepsAll(p, s[..|s| - 1]);
    }
  }

  lemma FilterMembers<A>(p: A -> bool, s: seq<A>, x: A)
    ensures x in Filter(p, s) <==> x in s && p(x)
  {
    FilterCounts(p, s, x);
  }

  /** The loss floor speaks of the pairs neither side won, and of nothing else. */
  lemma LossFloorIgnoresWins(pairs: seq<Pair>, root: real -> real)
    ensures var losses := Filter(BothLost, pairs);
      && (forall x :: x in losses <==> x in pairs && !x.candidate.won && !x.incumbent.won)
      && LossFloorOf(pairs, root) == LossFloorOf(losses, root)
      && LossFloorOf(pairs, root).matchedLosses == |losses|
  {
    hide Filter, Map, Lower95, PowerEstimate, FewerTurnsBound, PValue, MeanOf, Count;
    var losses := Filter(BothLost, pairs);
    forall x ensures x in losses <==> x in pairs && !x.candidate.won && !x.incumbent.won {
      FilterMembers(BothLost, pairs, x);
    }
    FilterKeepsAll(BothLost, losses);
  }

  lemma MarginDelta(pairs: seq<Pair>)
    ensures var delta := MeanOf(Map(MarginGain, pairs));
      && (delta.Finite? <==> pairs != [])
      && (delta.Finite? ==>
            delta.value * |pairs| as real == TotalMargin(Candidates(pairs)) - TotalMargin(Incumbents(pairs)))
  {
    hide Sum, TotalMargin, Mean;
    DifferenceTotals(pairs);
    if pairs != [] {
      MeanTimesCount(Map(MarginGain, pairs));
    }
  }

  /** Losses in which no incumbent came closer add up to a gain, and to none exactly when no candidate did either. */
  lemma {:induction false} CloserGains(losses: seq<Pair>)
    requires Count(IncumbentCloser, losses) == 0
    ensures 0.0 <= Sum(Map(MarginGain, losses))
    ensures 0.0 < Sum(Map(MarginGain, losses)) <==> 0 < Count(CandidateCloser, losses)
  {
    if losses != [] {
      var rest, last := losses[..|losses| - 1], losses[|losses| - 1];
      assert losses == rest + [last];
      CountLast(IncumbentCloser, losses);
      CountLast(CandidateCloser, losses);
      SumMapAppend(MarginGain, rest, last);
      CloserGains(rest);
    }
  }

  /** On matched losses too the candidate is read first: the margin is Black's lead, a significant closeness or a
      positive bound is the candidate's, and closeness all on one side is a gain. */
  lemma LossFloorIsOfTheLosses(pairs: seq<Pair>, root: real -> real)
    requires SquareRoot(root)
    ensures var (losses, f) := (Filter(BothLost, pairs), LossFloorOf(pairs, root));
      var (c, i) := (Candidates(losses), Incumbents(losses));
      && (f.meanScoreMarginDelta.Finite? <==> losses != [])
      && (losses != [] ==>
            f.meanScoreMarginDelta.value * |losses| as real == TotalMargin(c) - TotalMargin(i))
      && (Positive(f.scoreMarginLower95) ==> TotalMargin(i) < TotalMargin(c))
      && (Positive(f.fewerTurnsLower95) ==> TotalTurns(c) < TotalTurns(i))
      && (f.closerMarginSignPValue <= 0.05 ==> f.incumbentCloser < f.candidateCloser)
      && (f.incumbentCloser == 0 ==> (0 < f.candidateCloser <==> TotalMargin(i) < TotalMargin(c)))
      && f.powerPerTurn == PowerEstimate(losses, root)
  {
    hide Sum, TotalMargin, TotalTurns, Mean, Filter, Map, PowerEstimate, FewerTurnsBound, PValue, Count, SquareRoot;
    hide Lower95, MeanOf;
    var losses := Filter(BothLost, pairs);
    MarginDelta(losses);
    DifferenceTotals(losses);
    if Positive(Lower95(Map(MarginGain, losses), root)) {
      PositiveBound(Map(MarginGain, losses), root);
    }
    if Positive(FewerTurnsBound(losses, root)) {
      FewerTurnsIsFewer(losses, root);
    }
    if PValue(Count(CandidateCloser, losses), Count(IncumbentCloser, losses)) <= 0.05 {
      SignificantMeansMajority(Count(CandidateCloser, losses), Count(IncumbentCloser, losses));
    }
    if Count(IncumbentCloser, losses) == 0 {
      CloserGains(losses);
    }
  }

  // ---------- one opponent ----------

  /** What is reported of an opponent is the whole evidence of the games against it alone. */
  lemma OpponentIsItsOwnArena(profile: Profile, pairs: seq<Pair>, root: real -> real, k: nat)
    requires k < |Opponents(profile)|
    ensures var all := EvidenceOf(profile, pairs, root);
      |all.opponents| == |Opponents(profile)| && all.opponents[k].opponent == Opponents(profile)[k]
    ensures var one := EvidenceOf(profile, pairs, root).opponents[k];
      var own := EvidenceOf(profile, Filter(Against(Opponents(profile)[k]), pairs), root);
      && one.games == own.games
      && one.candidateWins == own.candidateWins && one.incumbentWins == own.incumbentWins
      && one.favorableWinFlips == own.favorableWinFlips && one.unfavorableWinFlips == own.unfavorableWinFlips
      && one.oneSidedWinPValue == own.oneSidedWinPValue
      && one.powerPerTurn == own.powerPerTurn && one.fewerTurnsLower95 == own.fewerTurnsLower95
      && one.lossFloor == own.lossFloor
  {
    hide Filter, Map, PowerEstimate, FewerTurnsBound, LossFloorOf, MeanOf, PValue, Count, SampleMet, CriterionFor;
    hide Opponents, Minimum;
  }

  /** A significant number of flips is the candidate's. */
  lemma SignificantFlipsFavorTheCandidate(profile: Profile, pairs: seq<Pair>, root: real -> real)
    requires EvidenceOf(profile, pairs, root).oneSidedWinPValue <= 0.05
    ensures TotalWins(Incumbents(pairs)) < TotalWins(Candidates(pairs))
  {
    hide Filter, Map, PowerEstimate, FewerTurnsBound, LossFloorOf, MeanOf, PValue, Count, SampleMet, CriterionFor;
    hide Opponents, Minimum, TotalWins, Summary;
    SignificantMeansMajority(Count(Favorable, pairs), Count(Unfavorable, pairs));
    DeltaIsFlips(pairs);
    WinTotals(pairs);
  }

  // ---------- how many games a verdict needs ----------

  function Played(opponent: Opponent, games: seq<Game>): nat {
    if games == [] then 0
    else Played(opponent, games[..|games| - 1]) + if games[|games| - 1].key.opponent == opponent then 1 else 0
  }

  lemma {:induction false} AgainstIsPlayed(opponent: Opponent, pairs: seq<Pair>)
    ensures Count(Against(opponent), pairs) == Played(opponent, Candidates(pairs))
  {
    if pairs != [] {
      var n := |pairs| - 1;
      AgainstIsPlayed(opponent, pairs[..n]);
      assert pairs == pairs[..n] + [pairs[n]];
      assert Candidates(pairs)[..n] == Candidates(pairs[..n]);
      FilterAppend(Against(opponent), pairs[..n], pairs[n]);
    }
  }

  /** A sample suffices just when every opponent was played equally often, and often enough for the profile. */
  lemma SampleIsOfTheGames(profile: Profile, candidate: seq<Game>, incumbent: seq<Game>, root: real -> real)
    requires Judged(profile, candidate, incumbent, root).Some?
    ensures var e := Judged(profile, candidate, incumbent, root).value;
      var opponents := Opponents(profile);
      && |e.gamesPerOpponent| == |opponents|
      && (forall k | 0 <= k < |opponents| :: e.gamesPerOpponent[k] == Played(opponents[k], candidate))
      && (e.minimumSampleMet <==> forall opponent <- opponents ::
           && (if profile.Small5? then 2048 else 512) <= Played(opponent, candidate)
           && Played(opponent, candidate) == Played(opponents[0], candidate))
  {
    hide Filter, Played, CriterionFor, Summary, LossFloorOf, PowerEstimate, FewerTurnsBound, MeanOf, PValue;
    JudgedPairs(profile, candidate, incumbent, root);
    PairedSides(candidate, incumbent);
    var (pairs, opponents) := (PairingOf(candidate, incumbent), Opponents(profile));
    forall opponent | opponent in opponents
      ensures Count(Against(opponent), pairs) == Played(opponent, candidate) {
      AgainstIsPlayed(opponent, pairs);
    }
    var e := Judged(profile, candidate, incumbent, root).value;
    assert forall k | 0 <= k < |opponents| :: opponents[k] in opponents;
    assert forall k | 0 <= k < |opponents| :: e.gamesPerOpponent[k] == Count(Against(opponents[k]), pairs);
    assert e.minimumSampleMet <==> SampleMet(e.gamesPerOpponent, Minimum(profile));
  }
}
