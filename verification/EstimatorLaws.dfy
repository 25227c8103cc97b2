/** How wide the bounds are, and what the ratio estimate is in the plain cases (tools/go-promotion-statistics.ts). */
module EstimatorLaws {
  import opened PairedStatistics

  /** Squared distances from a centre, added up. */
  function Scatter(values: seq<real>, centre: real): real {
    if values == [] then 0.0
    else
      var last := values[|values| - 1];
      Scatter(values[..|values| - 1], centre) + (last - centre) * (last - centre)
  }

  lemma {:induction false} SpreadIsScatter(values: seq<real>, mean: real)
    ensures Spread(values, mean) == Scatter(values, mean)
  {
    if values == [] {
      assert Spread([], mean) == 0.0 by { NoSpread(mean); }
    } else {
      var rest, last := values[..|values| - 1], values[|values| - 1];
      assert values == rest + [last];
      SpreadIsScatter(rest, mean);
      SumMapAppend(Deviation(mean), rest, last);
      assert Deviation(mean)(last) == Square(last - mean);
    }
  }

  lemma NoSpread(mean: real)
    ensures Spread([], mean) == 0.0
  {
  }

  lemma MarginSquared(spread: real, n: nat, root: real -> real)
    requires 2 <= n && 0.0 <= spread && SquareRoot(root)
    ensures Margin(spread, n, root) * Margin(spread, n, root) * (n as real * (n - 1) as real) == 1.96 * 1.96 * spread
  {
    var variance := spread / (n - 1) as real;
    var x := variance / n as real;
    QuotientSign(spread, (n - 1) as real);
    QuotientSign(variance, n as real);
    assert root(x) * root(x) == x;
    SquaredProduct(root(x), x, spread, n as real, (n - 1) as real);
  }

  lemma SquaredProduct(r: real, x: real, spread: real, n: real, m: real)
    requires 0.0 < n && 0.0 < m && r * r == x && x == spread / m / n
    ensures 1.96 * r * (1.96 * r) * (n * m) == 1.96 * 1.96 * spread
  {
    assert x * n == spread / m;
    assert spread / m * m == spread;
    Regroup(r, x, n, m, x * n * m);
  }

  lemma Regroup(r: real, x: real, n: real, m: real, whole: real)
    requires r * r == x && whole == x * n * m
    ensures 1.96 * r * (1.96 * r) * (n * m) == 1.96 * 1.96 * whole
  {
    assert 1.96 * r * (1.96 * r) == 1.96 * 1.96 * (r * r);
    assert x * (n * m) == x * n * m;
  }

  /** There is a bound from two values on. It lies 1.96 standard errors below the mean: the squared distance times
      n(n - 1) is 1.96 squared times the scatter about the mean. */
  lemma BoundIsExact(values: seq<real>, root: real -> real)
    requires SquareRoot(root)
    ensures var bound := Lower95(values, root);
      if |values| < 2 then bound == MinusInfinity
      else
        var n := |values|;
        var mean := Sum(values) / n as real;
        && bound.Finite? && bound.value <= mean
        && (mean - bound.value) * (mean - bound.value) * (n as real * (n - 1) as real)
             == 1.96 * 1.96 * Scatter(values, mean)
  {
    hide SquareRoot, Margin, Spread, Scatter;
    if 2 <= |values| {
      LowerBoundIsBelowMean(values, root);
      SpreadVanishes(values, Mean(values));
      SpreadIsScatter(values, Mean(values));
      MarginSquared(Spread(values, Mean(values)), |values|, root);
    }
  }

  /** So does the ratio bound below the difference, by the scatter of the influences about nought. */
  lemma RatioBoundIsExact(candidate: seq<Ratio>, incumbent: seq<Ratio>, root: real -> real)
    requires Estimable(candidate, incumbent) && SquareRoot(root)
    ensures var (e, n) := (RatioLower95(candidate, incumbent, root), |candidate|);
      && e.difference.Finite? && e.lower95.Finite?
      && var gap := e.difference.value - e.lower95.value;
         && 0.0 <= gap
         && gap * gap * (n as real * (n - 1) as real) == 1.96 * 1.96 * Scatter(Influences(candidate, incumbent), 0.0)
  {
    hide SquareRoot, Margin, Spread, Scatter, Influences;
    var influences := Influences(candidate, incumbent);
    InfluencesCancel(candidate, incumbent);
    SpreadVanishes(influences, 0.0);
    SpreadIsScatter(influences, 0.0);
    MarginVanishes(Spread(influences, 0.0), |influences|, root);
    MarginSquared(Spread(influences, 0.0), |influences|, root);
  }

  // ---------- games of one length ----------

  /** Every game of either side has denominator `t`. */
  predicate SameLength(values: seq<Ratio>, t: real) {
    forall v <- values :: v.denominator == t
  }

  function PerGame(candidate: seq<Ratio>, incumbent: seq<Ratio>, t: real): (values: seq<real>)
    requires |candidate| == |incumbent| && t != 0.0
    ensures |values| == |candidate|
  {
    seq(|candidate|, k requires 0 <= k < |candidate| => (candidate[k].numerator - incumbent[k].numerator) / t)
  }

  lemma {:induction false} LengthsAddUp(values: seq<Ratio>, t: real)
    requires SameLength(values, t)
    ensures Total(values).denominator == |values| as real * t
  {
    if values != [] {
      var rest, last := values[..|values| - 1], values[|values| - 1];
      assert values == rest + [last] && last in values;
      LengthsAddUp(rest, t);
      SumMapAppend(Denominator, rest, last);
      OneLengthMore(|rest|, t);
    }
  }

  lemma OneLengthMore(n: nat, t: real)
    ensures (n + 1) as real * t == n as real * t + t
  {
  }

  lemma {:induction false} PerGameSum(candidate: seq<Ratio>, incumbent: seq<Ratio>, t: real)
    requires |candidate| == |incumbent| && 0.0 < t
    ensures Sum(PerGame(candidate, incumbent, t)) == (Total(candidate).numerator - Total(incumbent).numerator) / t
  {
    if candidate != [] {
      var n := |candidate| - 1;
      var (c, i) := (candidate[..n], incumbent[..n]);
      assert candidate == c + [candidate[n]] && incumbent == i + [incumbent[n]];
      PerGameSum(c, i, t);
      SumMapAppend(Numerator, c, candidate[n]);
      SumMapAppend(Numerator, i, incumbent[n]);
      var d := (candidate[n].numerator - incumbent[n].numerator) / t;
      assert PerGame(candidate, incumbent, t) == PerGame(c, i, t) + [d];
      SumAppend(PerGame(c, i, t), d);
      QuotientsAdd(Total(c).numerator - Total(i).numerator, candidate[n].numerator - incumbent[n].numerator, t);
    }
  }

  lemma RateOfLength(p: real, n: real, t: real)
    requires 0.0 < n && 0.0 < t
    ensures 0.0 < n * t && p / (n * t) == p / t / n
  {
    PositiveProduct(n, t, n * t);
    var a := p / t / n;
    assert a * n == p / t && a * n * t == p;
    assert a * (n * t) == a * n * t;
  }

  lemma LinearOfLength(x: real, n: real, t: real, p: real)
    requires 0.0 < n && 0.0 < t
    ensures n * t / n == t
    ensures (x - p / t / n * t) / t == x / t - p / t / n
  {
    var r := p / t / n;
    assert (x - r * t) / t * t == x - r * t;
    assert (x / t - r) * t == x - r * t;
  }

  lemma SideInfluence(values: seq<Ratio>, t: real, k: nat)
    requires k < |values| && 0.0 < t && SameLength(values, t)
    requires 0.0 < Total(values).denominator
    ensures Part(Total(values), |values|)(values[k])
      == values[k].numerator / t - Total(values).numerator / t / |values| as real
  {
    hide Total, Sum;
    var (n, p) := (|values| as real, Total(values).numerator);
    LengthsAddUp(values, t);
    RateOfLength(p, n, t);
    LinearOfLength(values[k].numerator, n, t, p);
    assert values[k].denominator == t;
  }

  lemma QuotientsSubtract(a: real, b: real, t: real)
    requires 0.0 < t
    ensures a / t - b / t == (a - b) / t
  {
  }

  /** With every game of one length the influences are the differences per game about their mean. */
  lemma InfluencesOfLength(candidate: seq<Ratio>, incumbent: seq<Ratio>, t: real, k: nat)
    requires Estimable(candidate, incumbent) && 0.0 < t && k < |candidate|
    requires SameLength(candidate, t) && SameLength(incumbent, t)
    ensures var values := PerGame(candidate, incumbent, t);
      Influences(candidate, incumbent)[k] == values[k] - Mean(values)
  {
    hide Total, Sum, Part;
    var (n, p, q) := (|candidate| as real, Total(candidate).numerator, Total(incumbent).numerator);
    SideInfluence(candidate, t, k);
    SideInfluence(incumbent, t, k);
    PerGameSum(candidate, incumbent, t);
    QuotientsSubtract(candidate[k].numerator, incumbent[k].numerator, t);
    QuotientsSubtract(p, q, t);
    QuotientsSubtract(p / t, q / t, n);
  }

  lemma {:induction false} ScatterShifts(a: seq<real>, b: seq<real>, mean: real)
    requires |a| == |b| && forall k | 0 <= k < |a| :: a[k] == b[k] - mean
    ensures Scatter(a, 0.0) == Scatter(b, mean)
  {
    if a != [] {
      ScatterShifts(a[..|a| - 1], b[..|b| - 1], mean);
    }
  }

  lemma RatesOfLength(candidate: seq<Ratio>, incumbent: seq<Ratio>, t: real)
    requires Estimable(candidate, incumbent) && 0.0 < t
    requires SameLength(candidate, t) && SameLength(incumbent, t)
    ensures Rate(candidate) - Rate(incumbent) == Mean(PerGame(candidate, incumbent, t))
  {
    hide Total, Sum, SameLength;
    var (n, p, q) := (|candidate| as real, Total(candidate).numerator, Total(incumbent).numerator);
    PerGameSum(candidate, incumbent, t);
    LengthsAddUp(candidate, t);
    LengthsAddUp(incumbent, t);
    RateOfLength(p, n, t);
    RateOfLength(q, n, t);
    QuotientsSubtract(p, q, t);
    QuotientsSubtract(p / t, q / t, n);
  }

  /** When every game is equally long the ratio estimate is the plain paired one, on the differences per game. */
  lemma EqualLengthsAreThePlainBound(candidate: seq<Ratio>, incumbent: seq<Ratio>, t: real, root: real -> real)
    requires Estimable(candidate, incumbent) && 0.0 < t
    requires SameLength(candidate, t) && SameLength(incumbent, t)
    ensures var (e, values) := (RatioLower95(candidate, incumbent, root), PerGame(candidate, incumbent, t));
      e == Estimate(Finite(Mean(values)), Lower95(values, root))
  {
    hide Total, Sum, Part, Spread, Scatter, Margin, SameLength, Influences, Mean, Rate, PerGame;
    var (influences, values) := (Influences(candidate, incumbent), PerGame(candidate, incumbent, t));
    forall k | 0 <= k < |influences| ensures influences[k] == values[k] - Mean(values) {
      InfluencesOfLength(candidate, incumbent, t, k);
    }
    InfluencesCancel(candidate, incumbent);
    ScatterShifts(influences, values, Mean(values));
    SpreadIsScatter(influences, 0.0);
    SpreadIsScatter(values, Mean(values));
    RatesOfLength(candidate, incumbent, t);
  }

  // ---------- games at one rate ----------

  /** Every game yields exactly `rate` per unit of its denominator. */
  predicate Steady(values: seq<Ratio>, rate: real) {
    forall v <- values :: v.numerator == rate * v.denominator
  }

  lemma {:induction false} SteadyTotal(values: seq<Ratio>, rate: real)
    requires Steady(values, rate)
    ensures Total(values).numerator == rate * Total(values).denominator
  {
    if values != [] {
      var rest, last := values[..|values| - 1], values[|values| - 1];
      assert values == rest + [last] && last in values;
      SteadyTotal(rest, rate);
      SumMapAppend(Numerator, rest, last);
      SumMapAppend(Denominator, rest, last);
      assert rate * (Total(rest).denominator + last.denominator)
        == rate * Total(rest).denominator + rate * last.denominator;
    }
  }

  lemma RateIsSteady(values: seq<Ratio>, rate: real)
    requires Steady(values, rate) && 0.0 < Total(values).denominator
    ensures Rate(values) == rate
  {
    hide Total;
    SteadyTotal(values, rate);
  }

  lemma SteadyInfluence(values: seq<Ratio>, rate: real, k: nat)
    requires k < |values| && Steady(values, rate) && 0.0 < Total(values).denominator
    ensures Part(Total(values), |values|)(values[k]) == 0.0
  {
    hide Total;
    RateIsSteady(values, rate);
    QuotientSign(Total(values).denominator, |values| as real);
    assert values[k].numerator - rate * values[k].denominator == 0.0;
    QuotientSign(0.0, Total(values).denominator / |values| as real);
  }

  /** When each side scores at one rate in every game, however long, nothing is uncertain: the bound is the
      difference of the two rates. */
  lemma SteadyRatesAreCertain(candidate: seq<Ratio>, incumbent: seq<Ratio>, c: real, i: real, root: real -> real)
    requires Estimable(candidate, incumbent) && SquareRoot(root) && Steady(candidate, c) && Steady(incumbent, i)
    ensures RatioLower95(candidate, incumbent, root) == Estimate(Finite(c - i), Finite(c - i))
  {
    hide Total, Steady, SquareRoot, Part, Margin, Spread;
    RateIsSteady(candidate, c);
    RateIsSteady(incumbent, i);
    RatioBoundIsBelowDifference(candidate, incumbent, root);
    forall k | 0 <= k < |candidate| ensures Influences(candidate, incumbent)[k] == 0.0 {
      SteadyInfluence(candidate, c, k);
      SteadyInfluence(incumbent, i, k);
    }
  }
}
