/** Sums, lower bounds and ratio estimates over paired samples (tools/go-promotion-statistics.ts).
    Numbers are exact reals; the square root is any function that is one. */
module PairedStatistics {

  /** A number as the statistics report it. */
  datatype Extended = NotANumber | MinusInfinity | Finite(value: real)

  predicate Positive(x: Extended) {
    x.Finite? && 0.0 < x.value
  }

  predicate Zero(x: Extended) {
    x.Finite? && x.value == 0.0
  }

  ghost predicate SquareRoot(root: real -> real) {
    forall x | 0.0 <= x :: 0.0 <= root(x) && root(x) * root(x) == x
  }

  // ---------- lists ----------

  function Map<A, B>(f: A -> B, s: seq<A>): seq<B> {
    seq(|s|, i requires 0 <= i < |s| => f(s[i]))
  }

  function Filter<A>(p: A -> bool, s: seq<A>): (kept: seq<A>)
    ensures |kept| <= |s| && forall x <- kept :: p(x) && x in s
  {
    if s == [] then []
    else
      var last := s[|s| - 1];
      assert last in s;
      Filter(p, s[..|s| - 1]) + if p(last) then [last] else []
  }

  function Sum(values: seq<real>): real {
    if values == [] then 0.0 else Sum(values[..|values| - 1]) + values[|values| - 1]
  }

  lemma FilterAppend<A>(p: A -> bool, s: seq<A>, last: A)
    ensures Filter(p, s + [last]) == Filter(p, s) + if p(last) then [last] else []
  {
    assert (s + [last])[..|s|] == s;
  }

  lemma MapAppend<A, B>(f: A -> B, s: seq<A>, last: A)
    ensures Map(f, s + [last]) == Map(f, s) + [f(last)]
  {
  }

  lemma SumAppend(values: seq<real>, last: real)
    ensures Sum(values + [last]) == Sum(values) + last
  {
    assert (values + [last])[..|values|] == values;
  }

  // ---------- order does not matter ----------

  lemma {:induction false} FilterCounts<A>(p: A -> bool, s: seq<A>, x: A)
    ensures multiset(Filter(p, s))[x] == if p(x) then multiset(s)[x] else 0
  {
    if s != [] {
      FilterCounts(p, s[..|s| - 1], x);
      assert s == s[..|s| - 1] + [s[|s| - 1]];
    }
  }

  lemma SameCounts<A>(m: multiset<A>, n: multiset<A>)
    requires forall x: A :: m[x] == n[x]
    ensures m == n
  {
  }

  lemma FilterPermutes<A>(p: A -> bool, a: seq<A>, b: seq<A>)
    requires multiset(a) == multiset(b)
    ensures multiset(Filter(p, a)) == multiset(Filter(p, b)) && |Filter(p, a)| == |Filter(p, b)|
  {
    var m, n := multiset(Filter(p, a)), multiset(Filter(p, b));
    forall x: A ensures m[x] == n[x] {
      FilterCounts(p, a, x);
      FilterCounts(p, b, x);
    }
    SameCounts(m, n);
    SameSize(Filter(p, a), Filter(p, b));
  }

  lemma SameSize<A>(a: seq<A>, b: seq<A>)
    requires multiset(a) == multiset(b)
    ensures |a| == |b|
  {
    assert |multiset(a)| == |a| && |multiset(b)| == |b|;
  }

  /** Where the last element of one arrangement sits in another, and what is left without it. */
  lemma Rearranged<A>(a: seq<A>, b: seq<A>) returns (k: nat)
    requires multiset(a) == multiset(b) && a != []
    ensures k < |b| && b[k] == a[|a| - 1]
    ensures multiset(a[..|a| - 1]) == multiset(b[..k] + b[k + 1..])
  {
    var last := a[|a| - 1];
    assert a == a[..|a| - 1] + [last];
    assert last in multiset(b);
    k :| 0 <= k < |b| && b[k] == last;
    Without(b, k);
    Cancel(multiset(a[..|a| - 1]), multiset(b[..k] + b[k + 1..]), last);
  }

  lemma Without<A>(b: seq<A>, k: nat)
    requires k < |b|
    ensures multiset(b) == multiset(b[..k] + b[k + 1..]) + multiset{b[k]}
  {
    assert b == b[..k] + [b[k]] + b[k + 1..];
  }

  lemma Cancel<A>(m: multiset<A>, n: multiset<A>, x: A)
    requires m + multiset{x} == n + multiset{x}
    ensures m == n
  {
    forall y: A ensures m[y] == n[y] {
      assert (m + multiset{x})[y] == (n + multiset{x})[y];
    }
  }

  lemma MapSplit<A, B>(f: A -> B, b: seq<A>, k: nat)
    requires k < |b|
    ensures multiset(Map(f, b)) == multiset(Map(f, b[..k] + b[k + 1..])) + multiset{f(b[k])}
  {
    assert Map(f, b) == Map(f, b[..k]) + [f(b[k])] + Map(f, b[k + 1..]);
    assert Map(f, b[..k] + b[k + 1..]) == Map(f, b[..k]) + Map(f, b[k + 1..]);
  }

  lemma {:induction false} MapPermutes<A, B>(f: A -> B, a: seq<A>, b: seq<A>)
    requires multiset(a) == multiset(b)
    ensures multiset(Map(f, a)) == multiset(Map(f, b))
    decreases |a|
  {
    SameSize(a, b);
    if a != [] {
      var k := Rearranged(a, b);
      MapPermutes(f, a[..|a| - 1], b[..k] + b[k + 1..]);
      MapSplit(f, b, k);
      assert a == a[..|a| - 1] + [a[|a| - 1]];
      MapAppend(f, a[..|a| - 1], a[|a| - 1]);
    }
  }

  lemma {:induction false} SumConcat(a: seq<real>, b: seq<real>)
    ensures Sum(a + b) == Sum(a) + Sum(b)
  {
    if b == [] {
      assert a + b == a;
    } else {
      SumConcat(a, b[..|b| - 1]);
      assert a + b == (a + b[..|b| - 1]) + [b[|b| - 1]];
      SumAppend(a + b[..|b| - 1], b[|b| - 1]);
    }
  }

  lemma {:induction false} SumPermutes(a: seq<real>, b: seq<real>)
    requires multiset(a) == multiset(b)
    ensures Sum(a) == Sum(b)
    decreases |a|
  {
    SameSize(a, b);
    if a != [] {
      var k := Rearranged(a, b);
      SumPermutes(a[..|a| - 1], b[..k] + b[k + 1..]);
      SumConcat(b[..k], b[k + 1..]);
      SumConcat(b[..k], [b[k]]);
      SumConcat(b[..k] + [b[k]], b[k + 1..]);
      assert b == b[..k] + [b[k]] + b[k + 1..];
    }
  }

  // ---------- spread ----------

  function Square(x: real): real {
    x * x
  }

  function Deviation(mean: real): real -> real {
    (v: real) => Square(v - mean)
  }

  function Spread(values: seq<real>, mean: real): real {
    Sum(Map(Deviation(mean), values))
  }

  lemma {:induction false} NonNegativeSum(values: seq<real>)
    requires forall v <- values :: 0.0 <= v
    ensures 0.0 <= Sum(values)
    ensures Sum(values) == 0.0 <==> forall v <- values :: v == 0.0
  {
    if values != [] {
      var rest := values[..|values| - 1];
      var last := values[|values| - 1];
      assert values == rest + [last] && last in values;
      forall v <- rest ensures v in values {}
      NonNegativeSum(rest);
      if Sum(values) == 0.0 {
        forall v <- values ensures v == 0.0 {
          assert v == last || v in rest;
        }
      }
    }
  }

  /** The spread is never negative and vanishes exactly when every value is the mean. */
  lemma SpreadVanishes(values: seq<real>, mean: real)
    ensures 0.0 <= Spread(values, mean)
    ensures Spread(values, mean) == 0.0 <==> forall v <- values :: v == mean
  {
    hide Deviation;
    var squares := Map(Deviation(mean), values);
    forall s <- squares ensures 0.0 <= s {
      var i :| 0 <= i < |squares| && squares[i] == s;
      DeviationSign(values[i], mean);
    }
    NonNegativeSum(squares);
    if forall s <- squares :: s == 0.0 {
      forall v <- values ensures v == mean {
        var i :| 0 <= i < |values| && values[i] == v;
        assert squares[i] in squares;
        DeviationSign(v, mean);
      }
    }
    if forall v <- values :: v == mean {
      forall s <- squares ensures s == 0.0 {
        var i :| 0 <= i < |squares| && squares[i] == s;
        assert values[i] in values;
        DeviationSign(values[i], mean);
      }
    }
  }

  lemma DeviationSign(v: real, mean: real)
    ensures v != mean ==> 0.0 < Deviation(mean)(v)
    ensures v == mean ==> Deviation(mean)(v) == 0.0
  {
    hide Square;
    SquareSign(v - mean);
  }

  lemma SquareSign(x: real)
    ensures x != 0.0 ==> 0.0 < Square(x)
    ensures x == 0.0 ==> Square(x) == 0.0
  {
    hide Square;
    if 0.0 < x {
      PositiveSquare(x);
    } else if x < 0.0 {
      NegativeSquare(x);
    } else {
      ZeroSquare();
    }
  }

  lemma PositiveSquare(x: real)
    requires 0.0 < x
    ensures 0.0 < Square(x)
  {
    PositiveProduct(x, x, Square(x));
  }

  lemma NegativeSquare(x: real)
    requires x < 0.0
    ensures 0.0 < Square(x)
  {
    PositiveProduct(-x, -x, Square(x));
  }

  lemma PositiveProduct(x: real, y: real, product: real)
    requires 0.0 < x && 0.0 < y && product == x * y
    ensures 0.0 < product
  {
  }

  lemma ZeroSquare()
    ensures Square(0.0) == 0.0
  {
  }

  // ---------- lower bound of a mean ----------

  function Margin(spread: real, n: nat, root: real -> real): real
    requires 2 <= n
  {
    1.96 * root(spread / (n - 1) as real / n as real)
  }

  function Mean(values: seq<real>): real
    requires values != []
  {
    Sum(values) / |values| as real
  }

  function Lower95(values: seq<real>, root: real -> real): Extended {
    if |values| < 2 then MinusInfinity
    else Finite(Mean(values) - Margin(Spread(values, Mean(values)), |values|, root))
  }

  /** The margin is never negative, and vanishes exactly with the spread. */
  lemma MarginVanishes(spread: real, n: nat, root: real -> real)
    requires 2 <= n && 0.0 <= spread && SquareRoot(root)
    ensures 0.0 <= Margin(spread, n, root)
    ensures Margin(spread, n, root) == 0.0 <==> spread == 0.0
  {
    var variance := spread / (n - 1) as real;
    var x := variance / n as real;
    QuotientSign(spread, (n - 1) as real);
    QuotientSign(variance, n as real);
    RootSign(root(x), x);
  }

  lemma RootSign(r: real, x: real)
    requires 0.0 <= r && r * r == x
    ensures 0.0 < x ==> 0.0 < r
    ensures x == 0.0 ==> r == 0.0
  {
    SquareSign(r);
  }

  lemma QuotientSign(a: real, b: real)
    requires 0.0 < b
    ensures 0.0 < a / b <==> 0.0 < a
    ensures a / b == 0.0 <==> a == 0.0
  {
    assert a / b * b == a;
  }

  /** The bound never exceeds the mean, and reaches it exactly when all values agree. */
  lemma LowerBoundIsBelowMean(values: seq<real>, root: real -> real)
    requires 2 <= |values| && SquareRoot(root)
    ensures var bound := Lower95(values, root);
      bound.Finite? && bound.value <= Mean(values)
      && (bound.value == Mean(values) <==> forall v <- values :: v == Mean(values))
  {
    SpreadVanishes(values, Mean(values));
    MarginVanishes(Spread(values, Mean(values)), |values|, root);
  }

  lemma Lower95Permutes(a: seq<real>, b: seq<real>, root: real -> real)
    requires multiset(a) == multiset(b)
    ensures Lower95(a, root) == Lower95(b, root)
  {
    SameSize(a, b);
    if 2 <= |a| {
      SpreadPermutes(a, b);
    }
  }

  // ---------- ratio estimate ----------

  datatype Ratio = Ratio(numerator: real, denominator: real)

  datatype Estimate = Estimate(difference: Extended, lower95: Extended)

  function Numerator(r: Ratio): real { r.numerator }

  function Denominator(r: Ratio): real { r.denominator }

  function Total(values: seq<Ratio>): Ratio {
    Ratio(Sum(Map(Numerator, values)), Sum(Map(Denominator, values)))
  }

  /** One side's contribution of one game. */
  function Part(total: Ratio, n: nat): Ratio -> real
    requires 0.0 < total.denominator && 0 < n
  {
    var rate := total.numerator / total.denominator;
    var mean := total.denominator / n as real;
    QuotientSign(total.denominator, n as real);
    (v: Ratio) => Linear(v.numerator, v.denominator, rate, mean)
  }

  function Influences(candidate: seq<Ratio>, incumbent: seq<Ratio>): (values: seq<real>)
    requires |candidate| == |incumbent| && 0 < |candidate|
    requires 0.0 < Total(candidate).denominator && 0.0 < Total(incumbent).denominator
    ensures |values| == |candidate|
  {
    var f := Part(Total(candidate), |candidate|);
    var g := Part(Total(incumbent), |incumbent|);
    seq(|candidate|, i requires 0 <= i < |candidate| => f(candidate[i]) - g(incumbent[i]))
  }

  predicate Estimable(candidate: seq<Ratio>, incumbent: seq<Ratio>) {
    && |candidate| == |incumbent| && 2 <= |candidate|
    && 0.0 < Total(candidate).denominator && 0.0 < Total(incumbent).denominator
  }

  function Rate(values: seq<Ratio>): real
    requires 0.0 < Total(values).denominator
  {
    Total(values).numerator / Total(values).denominator
  }

  function RatioLower95(candidate: seq<Ratio>, incumbent: seq<Ratio>, root: real -> real): Estimate {
    if !Estimable(candidate, incumbent) then Estimate(NotANumber, MinusInfinity)
    else
      var influences := Influences(candidate, incumbent);
      var difference := Rate(candidate) - Rate(incumbent);
      Estimate(
        Finite(difference),
        Finite(difference - Margin(Spread(influences, Mean(influences)), |influences|, root)))
  }

  /** A linear image of a list sums to the image of the sums. */
  lemma {:induction false} PartsSum(f: Ratio -> real, values: seq<Ratio>, rate: real, mean: real)
    requires 0.0 < mean && forall v: Ratio :: f(v) == Linear(v.numerator, v.denominator, rate, mean)
    ensures Sum(Map(f, values)) == Linear(Total(values).numerator, Total(values).denominator, rate, mean)
  {
    hide Linear;
    if values == [] {
      LinearZero(rate, mean);
    } else {
      var rest, last := values[..|values| - 1], values[|values| - 1];
      assert values == rest + [last];
      PartsSum(f, rest, rate, mean);
      SumMapAppend(f, rest, last);
      SumMapAppend(Numerator, rest, last);
      SumMapAppend(Denominator, rest, last);
      LinearStep(Total(rest).numerator, Total(rest).denominator, last.numerator, last.denominator, rate, mean);
    }
  }

  lemma SumMapAppend<A>(f: A -> real, s: seq<A>, last: A)
    ensures Sum(Map(f, s + [last])) == Sum(Map(f, s)) + f(last)
  {
    MapAppend(f, s, last);
    SumAppend(Map(f, s), f(last));
  }

  function Linear(n: real, d: real, rate: real, mean: real): real
    requires mean != 0.0
  {
    (n - rate * d) / mean
  }

  lemma LinearZero(rate: real, mean: real)
    requires 0.0 < mean
    ensures Linear(0.0, 0.0, rate, mean) == 0.0
  {
    QuotientSign(0.0, mean);
  }

  lemma LinearStep(n: real, d: real, m: real, e: real, rate: real, mean: real)
    requires 0.0 < mean
    ensures Linear(n, d, rate, mean) + Linear(m, e, rate, mean) == Linear(n + m, d + e, rate, mean)
  {
    assert rate * (d + e) == rate * d + rate * e;
    QuotientsAdd(n - rate * d, m - rate * e, mean);
  }

  lemma QuotientsAdd(a: real, b: real, mean: real)
    requires 0.0 < mean
    ensures a / mean + b / mean == (a + b) / mean
  {
  }

  lemma RateTimesTotal(n: real, d: real)
    requires 0.0 < d
    ensures n - n / d * d == 0.0
  {
  }

  lemma {:induction false} DifferencesSum(a: seq<real>, b: seq<real>, c: seq<real>)
    requires |a| == |b| == |c| && forall i | 0 <= i < |a| :: c[i] == a[i] - b[i]
    ensures Sum(c) == Sum(a) - Sum(b)
  {
    if a != [] {
      DifferencesSum(a[..|a| - 1], b[..|b| - 1], c[..|c| - 1]);
    }
  }

  lemma PartsCancel(values: seq<Ratio>)
    requires values != [] && 0.0 < Total(values).denominator
    ensures Sum(Map(Part(Total(values), |values|), values)) == 0.0
  {
    var total := Total(values);
    var mean := total.denominator / |values| as real;
    QuotientSign(total.denominator, |values| as real);
    PartsSum(Part(total, |values|), values, Rate(values), mean);
    RateTimesTotal(total.numerator, total.denominator);
    QuotientSign(total.numerator - Rate(values) * total.denominator, mean);
  }

  /** The influences cancel: the mean the code subtracts from each of them is zero. */
  lemma InfluencesCancel(candidate: seq<Ratio>, incumbent: seq<Ratio>)
    requires Estimable(candidate, incumbent)
    ensures Sum(Influences(candidate, incumbent)) == 0.0 && Mean(Influences(candidate, incumbent)) == 0.0
  {
    PartsCancel(candidate);
    PartsCancel(incumbent);
    DifferencesSum(Map(Part(Total(candidate), |candidate|), candidate),
                   Map(Part(Total(incumbent), |incumbent|), incumbent),
                   Influences(candidate, incumbent));
    QuotientSign(Sum(Influences(candidate, incumbent)), |candidate| as real);
  }

  /** The ratio bound never exceeds the difference, and reaches it exactly when no game has influence. */
  lemma RatioBoundIsBelowDifference(candidate: seq<Ratio>, incumbent: seq<Ratio>, root: real -> real)
    requires Estimable(candidate, incumbent) && SquareRoot(root)
    ensures var e := RatioLower95(candidate, incumbent, root);
      e.difference.Finite? && e.lower95.Finite? && e.lower95.value <= e.difference.value
      && (e.lower95.value == e.difference.value <==> forall v <- Influences(candidate, incumbent) :: v == 0.0)
  {
    var influences := Influences(candidate, incumbent);
    InfluencesCancel(candidate, incumbent);
    SpreadVanishes(influences, Mean(influences));
    MarginVanishes(Spread(influences, Mean(influences)), |influences|, root);
  }

  lemma TotalPermutes(a: seq<Ratio>, b: seq<Ratio>)
    requires multiset(a) == multiset(b)
    ensures Total(a) == Total(b)
  {
    MapPermutes(Numerator, a, b);
    MapPermutes(Denominator, a, b);
    SumPermutes(Map(Numerator, a), Map(Numerator, b));
    SumPermutes(Map(Denominator, a), Map(Denominator, b));
  }

  function Influence<P>(f: P -> Ratio, g: P -> Ratio, candidate: Ratio, incumbent: Ratio, n: nat): P -> real
    requires 0.0 < candidate.denominator && 0.0 < incumbent.denominator && 0 < n
  {
    var c, i := Part(candidate, n), Part(incumbent, n);
    (p: P) => c(f(p)) - i(g(p))
  }

  /** Reordering the pairs leaves the ratio estimate alone. */
  lemma RatioPermutes<P>(f: P -> Ratio, g: P -> Ratio, a: seq<P>, b: seq<P>, root: real -> real)
    requires multiset(a) == multiset(b)
    ensures RatioLower95(Map(f, a), Map(g, a), root) == RatioLower95(Map(f, b), Map(g, b), root)
  {
    hide Sum, Mean, Spread, Margin;
    SameSize(a, b);
    MapPermutes(f, a, b);
    MapPermutes(g, a, b);
    TotalPermutes(Map(f, a), Map(f, b));
    TotalPermutes(Map(g, a), Map(g, b));
    if Estimable(Map(f, a), Map(g, a)) {
      var h := Influence(f, g, Total(Map(f, a)), Total(Map(g, a)), |a|);
      assert Influences(Map(f, a), Map(g, a)) == Map(h, a);
      assert Influences(Map(f, b), Map(g, b)) == Map(h, b);
      MapPermutes(h, a, b);
      SpreadPermutes(Map(h, a), Map(h, b));
    }
  }

  lemma SpreadPermutes(a: seq<real>, b: seq<real>)
    requires multiset(a) == multiset(b) && a != [] && b != []
    ensures Mean(a) == Mean(b) && Spread(a, Mean(a)) == Spread(b, Mean(b))
  {
    SameSize(a, b);
    SumPermutes(a, b);
    MapPermutes(Deviation(Mean(a)), a, b);
    SumPermutes(Map(Deviation(Mean(a)), a), Map(Deviation(Mean(a)), b));
  }
}
