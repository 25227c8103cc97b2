/** `floatToHalf` (tools/go-export-model.ts): a binary32 word to a binary16 code. The reference is
 * roundTiesToEven of section 4.3.1 of IEEE 754-2019, stated on exact magnitudes. */
module HalfFloat {
  import opened Powers

  lemma {:induction false} Pow2Add(a: nat, b: nat)
    ensures Pow2(a + b) == Pow2(a) * Pow2(b)
  {
    if a > 0 {
      Pow2Add(a - 1, b);
      Twice(Pow2(a - 1), Pow2(b));
    }
  }

  lemma Twice(n: nat, k: nat)
    ensures n * (2 * k) == (n + n) * k == 2 * (n * k)
  {}

  lemma {:induction false} Pow2Grows(a: nat, b: nat)
    requires a <= b
    ensures Pow2(a) <= Pow2(b)
  {
    if a < b {
      Pow2Grows(a, b - 1);
    }
  }

  // ---------- the conversion ----------

  type Word = w: nat | w < 0x1_0000_0000

  function Sign(w: Word): nat { w / 0x8000_0000 }

  function Exponent(w: Word): nat { w / 0x80_0000 % 256 }

  function Mantissa(w: Word): nat { w % 0x80_0000 }

  /** Drop 13 bits, rounding the half up exactly when the kept part is odd. */
  function Round13(x: nat): nat {
    (x + 0xfff + x / 0x2000 % 2) / 0x2000
  }

  function ShiftedRight(x: nat, bits: nat): nat {
    QuotientIsNatural(x, Pow2(bits));
    x / Pow2(bits)
  }

  lemma QuotientIsNatural(x: nat, p: nat)
    requires 0 < p
    ensures 0 <= x / p
  {
    var q := x / p;
    assert x == q * p + x % p && x % p < p;
    if q < 0 { SignedLe(q, -1, p); }
  }

  lemma SignedLe(a: int, b: int, k: nat)
    requires a <= b
    ensures a * k <= b * k
  {}

  /** A result below the smallest normal half: the shift truncates before the rounding. */
  function SubnormalHalf(exponent: nat, mantissa: nat): nat
    requires 102 <= exponent <= 112
  {
    Round13(ShiftedRight(mantissa + 0x80_0000, 113 - exponent))
  }

  function NormalHalf(exponent: nat, mantissa: nat): nat
    requires 113 <= exponent
  {
    var halfExponent := exponent - 127 + 15;
    var rounded := mantissa + 0xfff + mantissa / 0x2000 % 2;
    if rounded >= 0x80_0000 then
      var carried := halfExponent + 1;
      if carried >= 0x1f then 0x7c00 else carried * 0x400
    else halfExponent * 0x400 + rounded / 0x2000
  }

  function Unsigned(exponent: nat, mantissa: nat): nat {
    if exponent == 0xff then (if mantissa != 0 then 0x7e00 else 0x7c00)
    else
      var halfExponent := exponent - 127 + 15;
      if halfExponent >= 0x1f then 0x7c00
      else if halfExponent <= 0 then
        if halfExponent < -10 then 0 else SubnormalHalf(exponent, mantissa)
      else NormalHalf(exponent, mantissa)
  }

  function FloatToHalf(w: Word): nat {
    0x8000 * Sign(w) + Unsigned(Exponent(w), Mantissa(w))
  }

  // ---------- what the codes mean ----------

  /** The magnitude of a finite binary32 word, in units of 2^-149. */
  function Magnitude(e: nat, m: nat): nat {
    if e == 0 then m else (0x80_0000 + m) * Pow2(e - 1)
  }

  function Exact(w: Word): nat {
    Magnitude(Exponent(w), Mantissa(w))
  }

  /** Non-negative binary16 codes up to infinity, whose code continues the finite ones at 2^16. */
  type Code = h: nat | h <= 0x7c00

  const INFINITY: Code := 0x7c00

  /** One unit in the last place of a binary16 code with exponent field `e`, in units of 2^-149. */
  function HalfUlp(e: nat): nat {
    if e == 0 then Pow2(125 + e) else Pow2(124 + e)
  }

  /** The magnitude of a binary16 code, in units of 2^-149. */
  function HalfExact(h: Code): nat {
    var e, m := h / 0x400, h % 0x400;
    (if e == 0 then m else 0x400 + m) * HalfUlp(e)
  }

  /** `h` is the code nearest to magnitude `x`: no farther than either neighbour, and even if tied. */
  ghost predicate NearestEven(x: nat, h: Code) {
    && (0 < h ==> Below(HalfExact(h - 1) + HalfExact(h), 2 * x, h))
    && (h < INFINITY ==> Below(2 * x, HalfExact(h) + HalfExact(h + 1), h))
  }

  predicate Below(a: nat, b: nat, h: Code) {
    a < b || (a == b && h % 2 == 0)
  }

  // ---------- the reference is roundTiesToEven ----------

  /** Neighbouring codes are one unit apart, across the exponent boundary too. */
  lemma HalfExactStep(h: Code)
    requires h < INFINITY
    ensures HalfExact(h + 1) == HalfExact(h) + HalfUlp(h / 0x400)
  {
    var e, m := h / 0x400, h % 0x400;
    var ulp := HalfUlp(e);
    var n := if e == 0 then m else 0x400 + m;
    OneMore(n, ulp);
    if m == 0x3ff {
      assert (h + 1) / 0x400 == e + 1 && (h + 1) % 0x400 == 0;
      UlpDoubles(e);
      if e > 0 { Twice(0x400, ulp); }
    } else {
      assert (h + 1) / 0x400 == e && (h + 1) % 0x400 == m + 1;
    }
  }

  lemma SameProduct(a: int, b: int, k: int)
    requires a == b
    ensures a * k == b * k
  {}

  lemma OneMore(n: nat, k: nat)
    ensures (n + 1) * k == n * k + k
  {}

  lemma UlpDoubles(e: nat)
    ensures HalfUlp(e + 1) == if e == 0 then HalfUlp(e) else 2 * HalfUlp(e)
  {}

  lemma UlpIsPositive(e: nat)
    ensures 0 < HalfUlp(e)
  {}

  lemma {:induction false} HalfExactGrows(g: Code, h: Code)
    requires g < h
    ensures HalfExact(g) < HalfExact(h)
    decreases h - g
  {
    hide HalfExact, HalfUlp;
    HalfExactStep(h - 1);
    UlpIsPositive((h - 1) / 0x400);
    if g < h - 1 {
      HalfExactGrows(g, h - 1);
    }
  }

  function Distance(a: nat, b: nat): nat {
    if a < b then b - a else a - b
  }

  /** The nearest code is at least as close as every other code, and a tie means it is even. */
  lemma NearestIsClosest(x: nat, h: Code, other: Code)
    requires NearestEven(x, h) && other != h
    ensures Distance(x, HalfExact(h)) <= Distance(x, HalfExact(other))
    ensures Distance(x, HalfExact(h)) == Distance(x, HalfExact(other)) ==> h % 2 == 0
  {
    hide HalfExact;
    if other < h {
      HalfExactGrows(h - 1, h);
      if other < h - 1 { HalfExactGrows(other, h - 1); }
    } else {
      HalfExactGrows(h, h + 1);
      if h + 1 < other { HalfExactGrows(h + 1, other); }
    }
  }

  /** There is only one nearest code. */
  lemma NearestIsUnique(x: nat, g: Code, h: Code)
    requires NearestEven(x, g) && NearestEven(x, h)
    ensures g == h
  {
    hide HalfExact;
    if g != h {
      var low, high := if g < h then g else h, if g < h then h else g;
      if low + 1 < high {
        HalfExactGrows(low, high - 1);
        HalfExactGrows(low + 1, high);
      }
    }
  }

  // ---------- normal results ----------

  /** The code of a normal result, carry and overflow included: exponent field plus rounded mantissa. */
  lemma NormalCode(e: nat, m: nat)
    requires 113 <= e <= 142 && m < 0x80_0000
    ensures Round13(m) <= 0x400
    ensures Unsigned(e, m) == (e - 112) * 0x400 + Round13(m)
  {}

  lemma ScaleLe(a: nat, b: nat, k: nat)
    requires a <= b
    ensures a * k <= b * k
  {}

  lemma ScaleLt(a: nat, b: nat, k: nat)
    requires a < b && 0 < k
    ensures a * k < b * k
  {}

  lemma Regroup(a: nat, b: nat, k: nat)
    ensures a * (b * k) == (a * b) * k
  {}

  lemma WordUnit(e: nat)
    requires 113 <= e <= 142
    ensures HalfUlp(e - 112) == 0x2000 * Pow2(e - 1)
  {
    Pow2Add(13, e - 1);
    Thirteen();
  }

  lemma Thirteen()
    ensures Pow2(13) == 0x2000
  {}

  lemma NormalExact(e: nat, r: nat, ulp: nat)
    requires 1 <= e <= 30 && r <= 0x400 && ulp == HalfUlp(e)
    ensures HalfExact(e * 0x400 + r) == (0x400 + r) * ulp
  {
    hide HalfUlp;
    var h := e * 0x400 + r;
    if r == 0x400 {
      assert h / 0x400 == e + 1 && h % 0x400 == 0;
      UlpDoubles(e);
      Twice(0x400, HalfUlp(e));
    } else {
      assert h / 0x400 == e && h % 0x400 == r;
    }
  }

  /** The neighbours of the normal code with exponent field `e` and rounded mantissa `r`. */
  lemma NormalNeighbours(e: nat, r: nat)
    requires 1 <= e <= 30 && r <= 0x400
    ensures var h := e * 0x400 + r;
      && HalfExact(h - 1) < HalfExact(h)
      && (0 < r ==> HalfExact(h - 1) + HalfUlp(e) == HalfExact(h))
      && (h < INFINITY ==> HalfExact(h) < HalfExact(h + 1))
      && (r < 0x400 ==> HalfExact(h + 1) == HalfExact(h) + HalfUlp(e))
  {
    hide HalfExact, HalfUlp;
    var h := e * 0x400 + r;
    HalfExactGrows(h - 1, h);
    HalfExactStep(h - 1);
    if 0 < r { assert (h - 1) / 0x400 == e; }
    if h < INFINITY {
      HalfExactGrows(h, h + 1);
      HalfExactStep(h);
      if r < 0x400 { assert h / 0x400 == e; }
    }
  }

  /** The signed offset `s` of the mantissa from its rounding, scaled, against half a unit. */
  lemma ScaledOffset(s: int, unit: nat, offset: int)
    requires 0 < unit && offset == s * unit
    ensures s < 0x1000 ==> offset < 0x1000 * unit
    ensures s == 0x1000 ==> offset == 0x1000 * unit
    ensures -0x1000 < s ==> -0x1000 * unit < offset
    ensures s == -0x1000 ==> offset == -0x1000 * unit
    ensures 0 <= s <==> 0 <= offset
  {
    if s < 0x1000 { SignedLt(s, 0x1000, unit); }
    if -0x1000 < s { SignedLt(-0x1000, s, unit); }
    if s < 0 { SignedLt(s, 0, unit); }
  }

  lemma SignedLt(a: int, b: int, k: nat)
    requires a < b && 0 < k
    ensures a * k < b * k
  {}

  /** The heart of the normal case, with every product named: the value is `offset` from the code's
      own magnitude and half a unit in its last place is 0x1000 * unit. */
  lemma NormalArithmetic(h: Code, r: nat, s: int, offset: int, unit: nat)
    requires 0 < unit && 0 < h && h % 2 == r % 2 && r <= 0x400
    requires -0x1000 <= s <= 0x1000 && (r == 0 ==> 0 <= s) && (r == 0x400 ==> s < 0)
    requires s == 0x1000 || s == -0x1000 ==> r % 2 == 0
    requires s < 0x1000 ==> offset < 0x1000 * unit
    requires s == 0x1000 ==> offset == 0x1000 * unit
    requires -0x1000 < s ==> -0x1000 * unit < offset
    requires s == -0x1000 ==> offset == -0x1000 * unit
    requires (0 <= s ==> 0 <= offset) && (s < 0 ==> offset < 0)
    requires HalfExact(h - 1) < HalfExact(h) && 0 <= HalfExact(h) + offset
    requires 0 < r ==> HalfExact(h - 1) + 0x2000 * unit == HalfExact(h)
    requires h < INFINITY ==> HalfExact(h) < HalfExact(h + 1)
    requires r < 0x400 ==> h < INFINITY && HalfExact(h + 1) == HalfExact(h) + 0x2000 * unit
    ensures NearestEven(HalfExact(h) + offset, h)
  {
    hide HalfExact;
  }

  lemma OffsetOf(m: nat, r: nat, unit: nat, ulp: nat, s: int)
    requires ulp == 0x2000 * unit && s == m - 0x2000 * r
    ensures (0x80_0000 + m) * unit == (0x400 + r) * ulp + s * unit
  {
    assert 0x80_0000 + m == (0x400 + r) * 0x2000 + s;
    SignedDistribute((0x400 + r) * 0x2000, s, unit);
    Regroup(0x400 + r, 0x2000, unit);
  }

  lemma SignedDistribute(a: int, b: int, k: nat)
    ensures (a + b) * k == a * k + b * k
  {}

  /** A normal result below the overflow threshold is roundTiesToEven of the exact value. */
  lemma NormalIsNearest(e: nat, m: nat)
    requires 113 <= e <= 142 && m < 0x80_0000
    ensures Unsigned(e, m) <= INFINITY
    ensures NearestEven((0x80_0000 + m) * Pow2(e - 1), Unsigned(e, m))
  {
    hide *;
    var r, unit := Round13(m), Pow2(e - 1);
    NormalCode(e, m);
    Round13Offset(m);
    WordUnit(e);
    var s, ulp := m - 0x2000 * r, HalfUlp(e - 112);
    NormalExact(e - 112, r, ulp);
    NormalNeighbours(e - 112, r);
    OffsetOf(m, r, unit, ulp, s);
    var offset := s * unit;
    ScaledOffset(s, unit, offset);
    Infinity();
    NormalArithmetic((e - 112) * 0x400 + r, r, s, offset, unit);
  }

  lemma Infinity()
    ensures INFINITY == 0x7c00
  {}

  lemma Round13Offset(m: nat)
    requires m < 0x80_0000
    ensures var r := Round13(m); var s := m - 0x2000 * r;
      && -0x1000 <= s <= 0x1000 && (r == 0 ==> 0 <= s) && (r == 0x400 ==> s < 0)
      && (s == 0x1000 || s == -0x1000 ==> r % 2 == 0)
  {}

  /** 2^16, the value one past the largest half, in words' units. */
  lemma InfinityExact()
    ensures HalfExact(INFINITY) == 0x80_0000 * Pow2(142)
  {
    hide HalfUlp, Pow2;
    Pow2Add(13, 142);
    Thirteen();
    LastUlp();
    assert HalfExact(INFINITY) == 0x400 * HalfUlp(31);
  }

  lemma LastUlp()
    ensures HalfUlp(31) == Pow2(155)
  {}

  lemma ProductGrows(a: nat, b: nat, j: nat, k: nat)
    requires a <= b && j <= k
    ensures a * j <= b * k
  {
    ScaleLe(a, b, k);
    ScaleLe(j, k, a);
  }

  /** From 2^16 on every finite word overflows, as roundTiesToEven does. */
  lemma OverflowIsNearest(e: nat, m: nat)
    requires 143 <= e <= 254 && m < 0x80_0000
    ensures Unsigned(e, m) == INFINITY
    ensures NearestEven((0x80_0000 + m) * Pow2(e - 1), INFINITY)
  {
    hide HalfExact, Pow2;
    InfinityExact();
    Pow2Grows(142, e - 1);
    ProductGrows(0x80_0000, 0x80_0000 + m, Pow2(142), Pow2(e - 1));
    HalfExactGrows(INFINITY - 1, INFINITY);
  }

  // ---------- subnormal results ----------

  /** The kept and the dropped bits of a subnormal result before its rounding. */
  function Kept(e: nat, m: nat): nat
    requires 102 <= e <= 112
  {
    ShiftedRight(m + 0x80_0000, 113 - e)
  }

  function Dropped(e: nat, m: nat): nat
    requires 102 <= e <= 112
  {
    (m + 0x80_0000) % Pow2(113 - e)
  }

  /** The truncated value is an exact tie with an even neighbour below it, and bits were lost. */
  predicate TruncatedTie(e: nat, m: nat) {
    102 <= e <= 112 && Kept(e, m) % 0x2000 == 0x1000 && Kept(e, m) / 0x2000 % 2 == 0 && Dropped(e, m) != 0
  }

  lemma SubnormalUnit(e: nat)
    requires 102 <= e <= 112
    ensures Pow2(125) == 0x2000 * (Pow2(113 - e) * Pow2(e - 1))
  {
    hide Pow2;
    Pow2Add(113 - e, e - 1);
    Pow2Add(13, 112);
    Thirteen();
  }

  lemma Divides(x: nat, p: nat)
    requires 0 < p
    ensures x == x / p * p + x % p && x % p < p
  {}

  /** Kept and dropped bits make up the significand. */
  lemma Split(e: nat, m: nat)
    requires 102 <= e <= 112 && m < 0x80_0000
    ensures m + 0x80_0000 == Kept(e, m) * Pow2(113 - e) + Dropped(e, m)
    ensures Dropped(e, m) < Pow2(113 - e) && Kept(e, m) < 0x80_0000
  {
    hide Pow2;
    Divides(m + 0x80_0000, Pow2(113 - e));
    Pow2AtLeastTwo(113 - e);
    Halves(m + 0x80_0000, Pow2(113 - e));
  }

  lemma Pow2AtLeastTwo(n: nat)
    requires 0 < n
    ensures 2 <= Pow2(n)
  {}

  lemma Halves(x: nat, p: nat)
    requires 2 <= p && x < 0x100_0000
    ensures x / p < 0x80_0000
  {
    Divides(x, p);
    if x / p >= 0x80_0000 {
      ProductGrows(0x80_0000, x / p, 2, p);
    }
  }

  /** Rounding 13 bits away, in quotient and remainder. */
  lemma Round13Split(kept: nat)
    requires kept < 0x80_0000
    ensures var q, t := kept / 0x2000, kept % 0x2000;
      Round13(kept) == (if t > 0x1000 || (t == 0x1000 && q % 2 == 1) then q + 1 else q) <= 0x400
  {}

  /** The remainder `t` of the kept bits, scaled by `p`, against half a unit. */
  lemma ScaledRemainder(t: nat, p: nat, rest: nat)
    requires t < 0x2000 && rest == t * p
    ensures t < 0x1000 ==> rest + p <= 0x1000 * p
    ensures t == 0x1000 ==> rest == 0x1000 * p
    ensures t > 0x1000 ==> 0x1000 * p + p <= rest
    ensures rest + p <= 0x2000 * p
  {
    OneMore(t, p);
    ScaleLe(t + 1, 0x2000, p);
    if t < 0x1000 { ScaleLe(t + 1, 0x1000, p); }
    if t > 0x1000 { OneMore(0x1000, p); ScaleLe(0x1001, t, p); }
  }

  /** The heart of the subnormal case, with every product named: the value is `base` whole units,
      `rest` kept and `lost` dropped below it, and a unit is 0x2000 * p. */
  lemma SubnormalArithmetic(q: nat, t: nat, r: Code, base: nat, rest: nat, lost: nat, p: nat)
    requires t < 0x2000 && lost < p
    requires t < 0x1000 ==> rest + p <= 0x1000 * p
    requires t == 0x1000 ==> rest == 0x1000 * p
    requires t > 0x1000 ==> 0x1000 * p + p <= rest
    requires rest + p <= 0x2000 * p
    requires r == (if t > 0x1000 || (t == 0x1000 && q % 2 == 1) then q + 1 else q) <= 0x400
    requires HalfExact(q) == base && HalfExact(q + 1) == base + 0x2000 * p && HalfExact(q + 2) == base + 0x4000 * p
    requires 0 < q ==> HalfExact(q - 1) + 0x2000 * p == base
    ensures NearestEven(base + rest + lost, r) <==> !(t == 0x1000 && q % 2 == 0 && lost != 0)
    ensures 0x2000 * Distance(base + rest + lost, HalfExact(r)) <= 0x1001 * (0x2000 * p)
  {
    hide HalfExact;
  }

  /** A subnormal result is roundTiesToEven exactly when it is not a truncated tie, and even then it
      is within 1/2 + 2^-13 units in the last place. */
  lemma SubnormalNearest(e: nat, m: nat)
    requires 102 <= e <= 112 && m < 0x80_0000
    ensures Unsigned(e, m) <= 0x400
    ensures NearestEven((0x80_0000 + m) * Pow2(e - 1), Unsigned(e, m)) <==> !TruncatedTie(e, m)
    ensures 0x2000 * Distance((0x80_0000 + m) * Pow2(e - 1), HalfExact(Unsigned(e, m))) <= 0x1001 * Pow2(125)
  {
    hide *;
    SubnormalCode(e, m);
    var kept, dropped := Kept(e, m), Dropped(e, m);
    var q, t := kept / 0x2000, kept % 0x2000;
    var p, unit := Pow2(113 - e), Pow2(e - 1);
    Split(e, m);
    Round13Split(kept);
    SubnormalUnit(e);
    assert kept == q * 0x2000 + t;
    SameProduct(0x80_0000 + m, (q * 0x2000 + t) * p + dropped, unit);
    var u, base, rest, lost := SplitUnits(q, t, dropped, p, unit);
    SubnormalCodes(q, u, base);
    ScaledRemainder(t, u, rest);
    SubnormalArithmetic(q, t, Round13(kept), base, rest, lost, u);
  }

  lemma SubnormalCode(e: nat, m: nat)
    requires 102 <= e <= 112
    ensures Unsigned(e, m) == Round13(Kept(e, m))
    ensures TruncatedTie(e, m) <==> Kept(e, m) % 0x2000 == 0x1000 && Kept(e, m) / 0x2000 % 2 == 0 && Dropped(e, m) != 0
  {
    hide ShiftedRight, Round13, Dropped;
  }

  lemma SubnormalCodes(q: nat, p: nat, base: nat)
    requires q <= 0x3ff && Pow2(125) == 0x2000 * p && base == q * (0x2000 * p)
    ensures HalfExact(q) == base
    ensures HalfExact(q + 1) == base + 0x2000 * p
    ensures HalfExact(q + 2) == base + 0x4000 * p
    ensures 0 < q ==> HalfExact(q - 1) + 0x2000 * p == base
  {
    hide HalfExact, Pow2, HalfUlp;
    FirstUlps();
    HalfExactSmall(q);
    HalfExactStep(q);
    HalfExactStep(q + 1);
    if 0 < q { HalfExactStep(q - 1); }
  }

  lemma FirstUlps()
    ensures HalfUlp(0) == Pow2(125) && HalfUlp(1) == Pow2(125)
  {
    UlpDoubles(0);
  }

  lemma HalfExactSmall(q: nat)
    requires q <= 0x3ff
    ensures HalfExact(q) == q * HalfUlp(0)
  {
    hide HalfUlp;
  }

  /** The significand in word units: whole result units, kept bits below them, dropped bits. */
  lemma SplitUnits(q: nat, t: nat, dropped: nat, p: nat, unit: nat) returns (u: nat, base: nat, rest: nat, lost: nat)
    requires dropped < p && 0 < unit
    ensures u == p * unit && base == q * (0x2000 * u) && rest == t * u && lost == dropped * unit
    ensures ((q * 0x2000 + t) * p + dropped) * unit == base + rest + lost
    ensures lost < u && (lost == 0 <==> dropped == 0)
  {
    u := p * unit;
    base, rest, lost := q * (0x2000 * u), t * u, dropped * unit;
    var kept := q * 0x2000 + t;
    Regroup(kept, p, unit);
    Distribute(kept * p, dropped, unit);
    Distribute(q * 0x2000, t, u);
    Regroup(q, 0x2000, u);
    ScaleLt(dropped, p, unit);
  }

  lemma Distribute(a: nat, b: nat, k: nat)
    ensures (a + b) * k == a * k + b * k
  {}

  // ---------- every finite word ----------

  predicate Finite(w: Word) {
    Exponent(w) != 0xff
  }

  lemma TinyIsNearest(w: Word)
    requires Exponent(w) < 102
    ensures Unsigned(Exponent(w), Mantissa(w)) == 0 && NearestEven(Exact(w), 0)
  {
    hide HalfExact, Pow2;
    var e, m := Exponent(w), Mantissa(w);
    FirstCodes();
    Pow2Add(24, 100);
    TwentyFour();
    if e > 0 {
      Pow2Grows(e - 1, 100);
      ScaleLt(0x80_0000 + m, 0x100_0000, Pow2(e - 1));
      ScaleLe(Pow2(e - 1), Pow2(100), 0x100_0000);
    } else {
      Pow2AtLeastTwo(100);
    }
  }

  lemma TwentyFour()
    ensures Pow2(24) == 0x100_0000
  {
    hide Pow2;
    Pow2Add(13, 11);
    Thirteen();
    Eleven();
  }

  lemma Eleven()
    ensures Pow2(11) == 0x800
  {}

  lemma FirstCodes()
    ensures HalfExact(0) == 0 && HalfExact(1) == 2 * Pow2(124)
  {
    hide Pow2;
    HalfExactStep(0);
    FirstUlps();
    Doubling();
  }

  lemma Doubling()
    ensures Pow2(125) == 2 * Pow2(124)
  {}

  /** The conversion is roundTiesToEven on every finite word but the truncated ties, and there it
      is not. The sign bit is carried over unchanged. */
  lemma FloatToHalfIsRoundTiesToEven(w: Word)
    requires Finite(w)
    ensures FloatToHalf(w) / 0x8000 == Sign(w) && FloatToHalf(w) % 0x8000 <= INFINITY
    ensures NearestEven(Exact(w), FloatToHalf(w) % 0x8000) <==> !TruncatedTie(Exponent(w), Mantissa(w))
  {
    hide NearestEven, HalfExact, Pow2, Round13, ShiftedRight, Unsigned;
    var e, m := Exponent(w), Mantissa(w);
    if e < 102 { TinyIsNearest(w); }
    else if e <= 112 { SubnormalNearest(e, m); }
    else if e <= 142 { NormalIsNearest(e, m); }
    else { OverflowIsNearest(e, m); }
  }

  /** The word with exponent field `e` and mantissa field `m`. */
  function Assemble(e: nat, m: nat): (w: Word)
    requires e < 256 && m < 0x80_0000
    ensures Sign(w) == 0 && Exponent(w) == e && Mantissa(w) == m
  {
    e * 0x80_0000 + m
  }

  /** 2^-25 + 2^-48 is nearer to the smallest half than to zero, but converts to zero. */
  lemma TruncatedTieExample()
    ensures var w := Assemble(102, 1);
      && TruncatedTie(Exponent(w), Mantissa(w)) && FloatToHalf(w) == 0 && NearestEven(Exact(w), 1)
  {
    hide Pow2, HalfExact, Round13, NearestEven;
    Eleven();
    assert Kept(102, 1) == 0x1000 && Dropped(102, 1) == 1;
    SubnormalCode(102, 1);
    Round13Split(0x1000);
    ExampleNearest();
  }

  lemma ExampleNearest()
    ensures NearestEven(0x80_0001 * Pow2(101), 1)
  {
    hide HalfExact, Pow2;
    FirstCodes();
    HalfExactStep(1);
    FirstUlps();
    Doubling();
    Pow2Add(23, 101);
    Pow2Add(11, 12);
    Eleven();
    Twelve();
    Pow2AtLeastTwo(101);
  }

  lemma Twelve()
    ensures Pow2(12) == 0x1000
  {}

  // ---------- monotonicity ----------

  lemma Round13Grows(x: nat, y: nat)
    requires x <= y
    ensures Round13(x) <= Round13(y)
  {}

  /** Across a whole exponent, the kept bits of a subnormal result stay in one binade. */
  lemma KeptBinade(e: nat, m: nat)
    requires 102 <= e <= 112 && m < 0x80_0000
    ensures Pow2(e - 90) <= Kept(e, m) < 2 * Pow2(e - 90)
  {
    hide Pow2;
    var p := Pow2(113 - e);
    var q := Pow2(e - 90);
    Pow2Add(e - 90, 113 - e);
    Pow2Add(11, 12);
    Eleven();
    Twelve();
    DivideBetween(m + 0x80_0000, p, q);
  }

  lemma DivideBetween(x: nat, p: nat, q: nat)
    requires 0 < p && q * p <= x < 2 * (q * p)
    ensures q <= x / p < 2 * q
  {
    Divides(x, p);
    if x / p < q { ProductGrows(x / p + 1, q, p, p); OneMore(x / p, p); }
    if 2 * q <= x / p { ProductGrows(2 * q, x / p, p, p); Twice(p, q); }
  }

  /** Unsigned conversion grows with the word. */
  lemma UnsignedGrows(e: nat, m: nat, f: nat, n: nat)
    requires m < 0x80_0000 && n < 0x80_0000 && f <= 254
    requires e < f || (e == f && m <= n)
    ensures Unsigned(e, m) <= Unsigned(f, n)
  {
    hide Pow2, ShiftedRight, Round13;
    if 102 <= e <= 112 { SubnormalCode(e, m); Split(e, m); Round13Split(Kept(e, m)); }
    if 102 <= f <= 112 {
      SubnormalCode(f, n);
      if 102 <= e { KeptGrows(e, m, f, n); Round13Grows(Kept(e, m), Kept(f, n)); }
    }
    if 113 <= e <= 142 { NormalCode(e, m); }
    if 113 <= f <= 142 {
      NormalCode(f, n);
      if e == f { Round13Grows(m, n); }
    }
  }

  lemma KeptGrows(e: nat, m: nat, f: nat, n: nat)
    requires 102 <= e <= f <= 112 && m < 0x80_0000 && n < 0x80_0000
    requires e < f || m <= n
    ensures Kept(e, m) <= Kept(f, n)
  {
    hide Pow2;
    if e < f {
      KeptBinade(e, m);
      KeptBinade(f, n);
      Pow2Grows(e - 89, f - 90);
      NextPow2(e - 90);
    } else {
      DivideGrows(m + 0x80_0000, n + 0x80_0000, Pow2(113 - e));
    }
  }

  lemma NextPow2(n: nat)
    ensures Pow2(n + 1) == 2 * Pow2(n)
  {}

  lemma DivideGrows(x: nat, y: nat, p: nat)
    requires x <= y && 0 < p
    ensures x / p <= y / p
  {
    Divides(x, p);
    Divides(y, p);
    if y / p < x / p {
      OneMore(y / p, p);
      ProductGrows(y / p + 1, x / p, p, p);
    }
  }

  /** The magnitude of a word grows with its exponent and mantissa fields. */
  lemma {:induction false} ExactGrows(e: nat, m: nat, f: nat, n: nat)
    requires m < 0x80_0000 && n < 0x80_0000 && f <= 254
    requires e < f || (e == f && m < n)
    ensures Magnitude(e, m) < Magnitude(f, n)
    decreases f - e
  {
    hide Pow2;
    if e == f {
      if 0 < e { ScaleLt(0x80_0000 + m, 0x80_0000 + n, Pow2(e - 1)); }
    } else if e + 1 < f {
      ExactGrows(e, m, e + 1, 0);
      ExactGrows(e + 1, 0, f, n);
    } else {
      ScaleLe(0x80_0000, 0x80_0000 + n, Pow2(e));
      if 0 < e {
        ScaleLt(0x80_0000 + m, 0x100_0000, Pow2(e - 1));
        NextPow2(e - 1);
        Twice(0x80_0000, Pow2(e - 1));
      } else {
        First();
      }
    }
  }

  lemma First()
    ensures Pow2(0) == 1
  {}

  /** Conversion is monotone over all finite words of one sign, subnormal, normal and overflowing
      ranges together, and is odd in the sign. */
  lemma FloatToHalfIsMonotone(a: Word, b: Word)
    requires Finite(a) && Finite(b) && Exact(a) <= Exact(b)
    ensures FloatToHalf(a) % 0x8000 <= FloatToHalf(b) % 0x8000
    ensures Sign(a) != Sign(b) && Exact(a) == Exact(b) ==> Distance(FloatToHalf(a), FloatToHalf(b)) == 0x8000
  {
    hide Unsigned, Pow2, Magnitude, NearestEven, TruncatedTie, Sign, Exponent, Mantissa;
    var e, m, f, n := Exponent(a), Mantissa(a), Exponent(b), Mantissa(b);
    Fields(a);
    Fields(b);
    Codes(a);
    Codes(b);
    if e < f || (e == f && m <= n) {
      UnsignedGrows(e, m, f, n);
    }
    if f < e || (f == e && n < m) {
      ExactGrows(f, n, e, m);
    }
    if e < f || (e == f && m < n) {
      ExactGrows(e, m, f, n);
    }
  }

  lemma Fields(w: Word)
    requires Finite(w)
    ensures Exponent(w) < 255 && Mantissa(w) < 0x80_0000
    ensures Exact(w) == Magnitude(Exponent(w), Mantissa(w))
  {
  }

  /** The code is the sign bit over the rounded magnitude. */
  lemma Codes(w: Word)
    requires Finite(w)
    ensures FloatToHalf(w) % 0x8000 == Unsigned(Exponent(w), Mantissa(w))
    ensures FloatToHalf(w) == Sign(w) * 0x8000 + Unsigned(Exponent(w), Mantissa(w)) && Sign(w) <= 1
  {
    hide Unsigned, Pow2, Magnitude, NearestEven, TruncatedTie;
    FloatToHalfIsRoundTiesToEven(w);
  }
}
