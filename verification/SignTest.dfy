/** The one-sided sign test (tools/go-promotion-statistics.ts), with exact arithmetic in place of
 * logarithms: the recurrence it sums is the upper tail of a fair binomial. */
module SignTest {
  import opened Powers

  /** Pascal's rule. */
  function Choose(n: nat, k: nat): nat {
    if k == 0 then 1 else if n == 0 then 0 else Choose(n - 1, k - 1) + Choose(n - 1, k)
  }

  /** How many of the 2^n outcomes of n fair coins have at least `from` heads. */
  function Tail(n: nat, from: nat): nat
    decreases n + 1 - from
  {
    if from > n then 0 else Choose(n, from) + Tail(n, from + 1)
  }

  function Head(n: nat, last: nat): nat {
    if last == 0 then Choose(n, 0) else Choose(n, last) + Head(n, last - 1)
  }

  lemma {:induction false} ChooseBeyond(n: nat, k: nat)
    requires n < k
    ensures Choose(n, k) == 0
  {
    if n > 0 {
      ChooseBeyond(n - 1, k - 1);
      ChooseBeyond(n - 1, k);
    }
  }

  lemma {:induction false} ChoosePositive(n: nat, k: nat)
    requires k <= n
    ensures 0 < Choose(n, k)
  {
    if k > 0 {
      ChoosePositive(n - 1, k - 1);
    }
  }

  /** The factor the loop multiplies by: k C(n, k) = (n - k + 1) C(n, k - 1). */
  lemma {:induction false} Absorption(n: nat, k: nat)
    requires 1 <= k <= n
    ensures k * Choose(n, k) == (n - k + 1) * Choose(n, k - 1)
  {
    var a, b := Choose(n - 1, k - 1), Choose(n - 1, k);
    if k == n {
      ChooseBeyond(n - 1, n);
    } else {
      Absorption(n - 1, k);
    }
    assert k * b == (n - k) * a;
    if k > 1 {
      var c := Choose(n - 1, k - 2);
      Absorption(n - 1, k - 1);
      assert (k - 1) * a == (n - k + 1) * c;
      Combine(n, k, a, b, c);
    }
  }

  lemma Combine(n: nat, k: nat, a: nat, b: nat, c: nat)
    requires k <= n && k * b == (n - k) * a && (k - 1) * a == (n - k + 1) * c
    ensures k * (a + b) == (n - k + 1) * (c + a)
  {}

  lemma {:induction false} AllHeads(n: nat)
    ensures Choose(n, n) == 1
  {
    if n > 0 {
      AllHeads(n - 1);
      ChooseBeyond(n - 1, n);
    }
  }

  lemma {:induction false} Symmetric(n: nat, k: nat)
    requires k <= n
    ensures Choose(n, k) == Choose(n, n - k)
  {
    if 0 < k < n {
      Symmetric(n - 1, k - 1);
      Symmetric(n - 1, k);
    } else if 0 < n {
      AllHeads(n);
    }
  }

  /** The lower tail mirrors the upper one. */
  lemma {:induction false} HeadIsTail(n: nat, last: nat)
    requires last <= n
    ensures Head(n, last) == Tail(n, n - last)
  {
    Symmetric(n, last);
    if last > 0 {
      HeadIsTail(n, last - 1);
    }
  }

  lemma {:induction false} HeadAndTail(n: nat, last: nat)
    requires last <= n
    ensures Head(n, last) + Tail(n, last + 1) == Tail(n, 0)
  {
    if last > 0 {
      HeadAndTail(n, last - 1);
    }
  }

  lemma {:induction false} TailPascal(n: nat, from: nat)
    requires 0 < n
    ensures Tail(n, from) == Tail(n - 1, from) + if from == 0 then Tail(n - 1, 0) else Tail(n - 1, from - 1)
    decreases n + 1 - from
  {
    if from <= n {
      TailPascal(n, from + 1);
      if from == n { ChooseBeyond(n - 1, n); }
    }
  }

  /** All 2^n outcomes are counted. */
  lemma {:induction false} WholeTail(n: nat)
    ensures Tail(n, 0) == Pow2(n)
  {
    if n == 0 {
      assert Tail(0, 0) == Choose(0, 0) + Tail(0, 1);
    } else {
      WholeTail(n - 1);
      TailPascal(n, 0);
    }
  }

  lemma {:induction false} TailShrinks(n: nat, from: nat, later: nat)
    requires from <= later
    ensures Tail(n, later) <= Tail(n, from)
    decreases later - from
  {
    if from < later {
      TailShrinks(n, from, later - 1);
    }
  }

  /** With a strict majority of favourable flips the tail is at most half of all outcomes. */
  lemma MajorityTail(favorable: nat, unfavorable: nat)
    requires unfavorable < favorable
    ensures 2 * Tail(favorable + unfavorable, favorable) <= Pow2(favorable + unfavorable)
  {
    var n := favorable + unfavorable;
    HeadIsTail(n, unfavorable);
    HeadAndTail(n, unfavorable);
    TailShrinks(n, unfavorable + 1, favorable);
    WholeTail(n);
  }

  // ---------- the loop ----------

  ghost function PValue(favorable: nat, unfavorable: nat): real {
    if favorable <= unfavorable then 1.0
    else Tail(favorable + unfavorable, favorable) as real / Pow2(favorable + unfavorable) as real
  }

  lemma NextTerm(n: nat, k: nat, previous: real)
    requires 1 <= k <= n && previous == Choose(n, k - 1) as real / Pow2(n) as real
    ensures previous * (n - k + 1) as real / k as real == Choose(n, k) as real / Pow2(n) as real
  {
    hide Choose, Pow2;
    Absorption(n, k);
    RealProducts(k, Choose(n, k), n - k + 1, Choose(n, k - 1));
    Quotients(Choose(n, k - 1) as real, (n - k + 1) as real, k as real, Choose(n, k) as real, Pow2(n) as real);
  }

  lemma RealProducts(a: nat, b: nat, c: nat, d: nat)
    requires a * b == c * d
    ensures a as real * b as real == c as real * d as real
  {
    RealProduct(a, b);
    RealProduct(c, d);
  }

  lemma RealProduct(a: nat, b: nat)
    ensures a as real * b as real == (a * b) as real
  {
  }

  lemma Quotients(a: real, b: real, c: real, d: real, p: real)
    requires 0.0 < c && 0.0 < p && c * d == b * a
    ensures a / p * b / c == d / p
  {
    var x := a / p;
    assert x * p == a;
    var y := d / p;
    assert y * p == d;
    Factor(c * y, b * x, p);
  }

  lemma Factor(s: real, t: real, p: real)
    requires 0.0 < p && s * p == t * p
    ensures s == t
  {}

  /** The exact upper tail when favourable flips are the strict majority, and 1 otherwise. */
  method OneSidedSignTest(favorable: nat, unfavorable: nat) returns (p: real)
    ensures p == PValue(favorable, unfavorable)
  {
    var discordant := favorable + unfavorable;
    if discordant == 0 || favorable <= unfavorable { return 1.0; }
    hide Choose, Tail, Pow2;
    var total := Pow2(discordant) as real;
    var probability := 1.0 / total;
    FirstTerm(discordant);
    for index := 1 to favorable + 1
      invariant probability == Choose(discordant, index - 1) as real / total
    {
      NextTerm(discordant, index, probability);
      probability := probability * (discordant - index + 1) as real / index as real;
    }
    var sum := probability;
    FirstPart(discordant, favorable, total);
    for wins := favorable + 1 to discordant + 1
      invariant probability == Choose(discordant, wins - 1) as real / total
      invariant sum + Tail(discordant, wins) as real / total == Tail(discordant, favorable) as real / total
    {
      NextTerm(discordant, wins, probability);
      probability := probability * (discordant - wins + 1) as real / wins as real;
      FirstPart(discordant, wins, total);
      sum := sum + probability;
    }
    NoTail(discordant, total);
    AtMostHalf(favorable, unfavorable);
    p := if sum < 1.0 then sum else 1.0;
  }

  lemma FirstTerm(n: nat)
    ensures Choose(n, 0) == 1
  {}

  lemma FirstPart(n: nat, k: nat, total: real)
    requires k <= n && 0.0 < total
    ensures Tail(n, k) as real / total == Choose(n, k) as real / total + Tail(n, k + 1) as real / total
  {
    SumOfQuotients(Choose(n, k) as real, Tail(n, k + 1) as real, total);
  }

  lemma NoTail(n: nat, total: real)
    requires 0.0 < total
    ensures Tail(n, n + 1) as real / total == 0.0
  {}

  lemma SumOfQuotients(a: real, b: real, p: real)
    requires 0.0 < p
    ensures (a + b) / p == a / p + b / p
  {}

  lemma QuotientOrder(a: real, b: real, p: real)
    requires 0.0 < p
    ensures a < b <==> a / p < b / p
  {
    var x, y := a / p, b / p;
    assert x * p == a && y * p == b;
    if x < y { ProductOrder(x, y, p); }
    if y < x { ProductOrder(y, x, p); }
  }

  lemma ProductOrder(x: real, y: real, p: real)
    requires 0.0 < p && x < y
    ensures x * p < y * p
  {}

  /** The cap at one never binds on the computed branch. */
  lemma AtMostHalf(favorable: nat, unfavorable: nat)
    requires unfavorable < favorable
    ensures 0.0 < PValue(favorable, unfavorable) <= 0.5
  {
    var n := favorable + unfavorable;
    var p, t := Pow2(n) as real, Tail(n, favorable) as real;
    MajorityTail(favorable, unfavorable);
    ChoosePositive(n, favorable);
    QuotientOrder(0.0, t, p);
    QuotientOrder(0.5 * p, t, p);
    Half(p);
  }

  lemma Half(p: real)
    requires 0.0 < p
    ensures 0.5 * p / p == 0.5 && 0.0 / p == 0.0
  {}

  /** For a fixed number of discordant pairs, one more favourable flip is strictly stronger evidence. */
  lemma MoreFavorableIsStronger(favorable: nat, unfavorable: nat)
    requires unfavorable < favorable && 0 < unfavorable
    ensures PValue(favorable + 1, unfavorable - 1) < PValue(favorable, unfavorable)
  {
    var n := favorable + unfavorable;
    ChoosePositive(n, favorable);
    QuotientOrder(Tail(n, favorable + 1) as real, Tail(n, favorable) as real, Pow2(n) as real);
  }

  /** A significant p-value by itself means a strict majority of favourable flips, and at least five
      discordant pairs: with fewer even a clean sweep is not significant. */
  lemma SignificantMeansMajority(favorable: nat, unfavorable: nat)
    requires PValue(favorable, unfavorable) <= 0.05
    ensures unfavorable < favorable && 5 <= favorable + unfavorable
  {
    var n := favorable + unfavorable;
    if n < 5 {
      ChoosePositive(n, favorable);
      FirstPowers();
      var p, t := Pow2(n) as real, Tail(n, favorable) as real;
      assert 1.0 <= t && p <= 16.0;
      QuotientOrder(0.05 * p, t, p);
      Twentieth(p);
    }
  }

  lemma Twentieth(p: real)
    requires 0.0 < p
    ensures 0.05 * p / p == 0.05
  {}

  lemma FirstPowers()
    ensures Pow2(0) == 1 && Pow2(1) == 2 && Pow2(2) == 4 && Pow2(3) == 8 && Pow2(4) == 16
  {}

  /** Five favourable flips and none against are significant. */
  lemma CleanSweepOfFive()
    ensures PValue(5, 0) == 0.03125
  {
    AllHeads(5);
    FirstPowers();
    assert Pow2(5) == 32;
    assert Tail(5, 5) == Choose(5, 5) + Tail(5, 6);
  }
}
