/** `halfToFloat` (shared/strategy/go/neural/artifact.ts): a binary16 code back to a binary32 word. */
module HalfWidening {
  import opened HalfFloat
  import opened Powers

  type HalfWord = h: nat | h < 0x1_0000

  /** A subnormal significand doubled until its leading bit is in place, the exponent counted down with it. */
  function Normalized(e: int, m: nat): (r: (int, nat))
    requires 0 < m < 0x800 && -9 <= e && 0x400 <= m * Pow2(e + 9)
    ensures -9 <= r.0 <= e && 0x400 <= r.1 < 0x800 && r.1 * Pow2(r.0 + 9) == m * Pow2(e + 9)
    decreases 0x800 - m
  {
    if m >= 0x400 then (e, m)
    else
      StillRoom(e, m);
      Normalized(e - 1, 2 * m)
  }

  lemma StillRoom(e: int, m: nat)
    requires 0 < m < 0x400 && -9 <= e && 0x400 <= m * Pow2(e + 9)
    ensures -9 <= e - 1 && 2 * m * Pow2(e - 1 + 9) == m * Pow2(e + 9)
  {
    if e > -9 {
      Twice(m, Pow2(e + 8));
      assert Pow2(e + 9) == 2 * Pow2(e + 8);
    }
  }

  lemma FirstRoom(m: nat)
    requires 0 < m
    ensures Pow2(10) == 0x400 && 0x400 <= m * Pow2(1 + 9)
  {
  }

  function WordOf(sign: nat, exponent: nat, mantissa: nat): (w: Word)
    requires sign <= 1 && exponent < 256 && mantissa < 0x80_0000
    ensures Sign(w) == sign && Exponent(w) == exponent && Mantissa(w) == mantissa
  {
    sign * 0x8000_0000 + exponent * 0x80_0000 + mantissa
  }

  function Widened(half: HalfWord): Word {
    WidenedFields(half / 0x8000, half / 0x400 % 0x20, half % 0x400)
  }

  function WidenedFields(sign: nat, exponent: nat, mantissa: nat): Word
    requires sign <= 1 && exponent < 0x20 && mantissa < 0x400
  {
    if exponent == 0 then
      if mantissa == 0 then WordOf(sign, 0, 0)
      else
        FirstRoom(mantissa);
        var (e, m) := Normalized(1, mantissa);
        WordOf(sign, e - 15 + 127, (m - 0x400) * 0x2000)
    else if exponent == 0x1f then WordOf(sign, 0xff, mantissa * 0x2000)
    else WordOf(sign, exponent - 15 + 127, mantissa * 0x2000)
  }

  method HalfToFloat(half: HalfWord) returns (word: Word)
    ensures word == Widened(half)
  {
    var sign := half / 0x8000;
    var exponent: int, mantissa: nat := half / 0x400 % 0x20, half % 0x400;
    if exponent == 0 {
      if mantissa == 0 {
        word := WordOf(sign, 0, 0);
      } else {
        FirstRoom(mantissa);
        exponent := 1;
        ghost var settled := Normalized(1, mantissa);
        while mantissa < 0x400
          invariant 0 < mantissa < 0x800 && -9 <= exponent <= 1 && 0x400 <= mantissa * Pow2(exponent + 9)
          invariant Normalized(exponent, mantissa) == settled
          decreases 0x800 - mantissa
        {
          StillRoom(exponent, mantissa);
          mantissa, exponent := 2 * mantissa, exponent - 1;
        }
        word := WordOf(sign, exponent - 15 + 127, (mantissa - 0x400) * 0x2000);
      }
    } else if exponent == 0x1f {
      word := WordOf(sign, 0xff, mantissa * 0x2000);
    } else {
      word := WordOf(sign, exponent - 15 + 127, mantissa * 0x2000);
    }
  }

  /** The bits of a widened significand: thirteen more than it had, at the same magnitude. */
  lemma WidenedMagnitude(e: int, m: nat)
    requires -9 <= e <= 30 && 0x400 <= m < 0x800
    ensures Magnitude(e + 112, (m - 0x400) * 0x2000) == m * Pow2(e + 9) * Pow2(115)
  {
    hide Pow2;
    var whole := m * 0x2000;
    assert 0x80_0000 + (m - 0x400) * 0x2000 == whole;
    Thirteen();
    Pow2Add(e + 9, 102);
    Pow2Add(13, 102);
    Regrouped(m, Pow2(13), Pow2(102), Pow2(e + 9), Pow2(115), Pow2(e + 111));
  }

  lemma Regrouped(m: nat, thirteen: nat, b: nat, c: nat, d: nat, f: nat)
    requires thirteen == 0x2000 && d == thirteen * b && f == c * b
    ensures m * 0x2000 * f == m * c * d
  {
    assert m * 0x2000 * f == m * thirteen * (c * b);
    assert m * c * d == m * c * (thirteen * b);
    Associate(m, thirteen, c, b);
  }

  lemma Associate(m: nat, t: nat, c: nat, b: nat)
    ensures m * t * (c * b) == m * c * (t * b)
  {
    assert m * t * (c * b) == m * (t * (c * b));
    assert m * c * (t * b) == m * (c * (t * b));
    assert t * (c * b) == c * (t * b);
  }

  /** Every finite half is a binary32 number: widening keeps sign and magnitude exactly. The infinities and the NaNs
      stay what they are. */
  lemma WideningIsExact(half: HalfWord)
    ensures var (w, code) := (Widened(half), half % 0x8000);
      && Sign(w) == half / 0x8000
      && (Finite(w) <==> code < INFINITY)
      && (code < INFINITY ==> Exact(w) == HalfExact(code))
      && (code == INFINITY <==> Exponent(w) == 0xff && Mantissa(w) == 0)
  {
    hide *;
    HalfFields(half);
    WideningKeeps(half / 0x8000, half / 0x400 % 0x20, half % 0x400, half % 0x8000);
  }

  lemma HalfFields(half: HalfWord)
    ensures half / 0x8000 <= 1 && half / 0x400 % 0x20 < 0x20
    ensures Widened(half) == WidenedFields(half / 0x8000, half / 0x400 % 0x20, half % 0x400)
    ensures half % 0x8000 == half / 0x400 % 0x20 * 0x400 + half % 0x400
  {
    hide WidenedFields;
  }

  lemma WideningKeeps(sign: nat, e: nat, m: nat, code: nat)
    requires sign <= 1 && e < 0x20 && m < 0x400 && code == e * 0x400 + m
    ensures var w := WidenedFields(sign, e, m);
      && Sign(w) == sign
      && (Finite(w) <==> code < INFINITY)
      && (code < INFINITY ==> Exact(w) == HalfExact(code))
      && (code == INFINITY <==> Exponent(w) == 0xff && Mantissa(w) == 0)
  {
    hide Pow2, Normalized, WordOf, Sign, Exponent, Mantissa, HalfExact, Magnitude;
    if e == 0 && m == 0 {
      HalfZero();
      NothingAtAll();
    } else if e == 0 {
      FirstRoom(m);
      var (f, n) := Normalized(1, m);
      WidenedMagnitude(f, n);
      SubnormalUnits(m, n * Pow2(f + 9));
    } else if e < 0x1f {
      WidenedMagnitude(e, 0x400 + m);
      NormalUnits(e, m);
    }
  }

  lemma NothingAtAll()
    ensures Magnitude(0, 0) == 0
  {
  }

  lemma HalfZero()
    ensures HalfExact(0) == 0
  {
    hide Pow2;
  }

  lemma SubnormalUnits(m: nat, scaled: nat)
    requires m < 0x400 && scaled == m * Pow2(10)
    ensures scaled * Pow2(115) == HalfExact(m)
  {
    hide Pow2;
    Pow2Add(10, 115);
    assert m * Pow2(10) * Pow2(115) == m * (Pow2(10) * Pow2(115));
  }

  lemma NormalUnits(e: nat, m: nat)
    requires 0 < e < 0x1f && m < 0x400
    ensures (0x400 + m) * Pow2(e + 9) * Pow2(115) == HalfExact(e * 0x400 + m)
  {
    hide Pow2;
    Pow2Add(e + 9, 115);
    assert (0x400 + m) * Pow2(e + 9) * Pow2(115) == (0x400 + m) * (Pow2(e + 9) * Pow2(115));
  }

  // ---------- narrowing what was widened ----------

  lemma OwnMagnitudeIsNearest(code: Code)
    requires code < INFINITY
    ensures NearestEven(HalfExact(code), code)
  {
    hide HalfExact;
    if 0 < code { HalfExactGrows(code - 1, code); }
    HalfExactGrows(code, code + 1);
  }

  lemma MultipleDrops(k: nat, p: nat, q: nat)
    requires 0 < p && p * q == 0x2000
    ensures k * 0x2000 % p == 0
  {
    assert k * 0x2000 == k * q * p;
    Multiple(k * q, p);
  }

  lemma Multiple(k: nat, p: nat)
    requires 0 < p
    ensures k * p % p == 0
  {
    var r := k * p % p;
    Divides(k * p, p);
    SignedDistribute(k, k * p / p, p);
    var d := k - k * p / p;
    assert d * p == r;
    if d >= 1 { SignedLe(1, d, p); }
    if d <= -1 { SignedLe(d, -1, p); }
  }

  /** A widened significand has nothing to drop. */
  lemma WidenedDropsNothing(half: HalfWord)
    ensures !TruncatedTie(Exponent(Widened(half)), Mantissa(Widened(half)))
  {
    hide Pow2, Kept, WordOf, Sign, Exponent, Mantissa, Normalized;
    var w := Widened(half);
    var (e, m) := (Exponent(w), Mantissa(w));
    if 102 <= e <= 112 {
      var k := WidenedMantissa(half);
      assert m + 0x80_0000 == (k + 0x400) * 0x2000;
      Pow2Add(113 - e, e - 100);
      Thirteen();
      MultipleDrops(k + 0x400, Pow2(113 - e), Pow2(e - 100));
    }
  }

  lemma WidenedMantissa(half: HalfWord) returns (k: nat)
    ensures Mantissa(Widened(half)) == k * 0x2000
  {
    hide Pow2, WordOf, Sign, Exponent, Mantissa;
    HalfFields(half);
    var (e, m) := (half / 0x400 % 0x20, half % 0x400);
    if e == 0 && m != 0 {
      FirstRoom(m);
      k := Normalized(1, m).1 - 0x400;
    } else {
      k := m;
    }
  }

  /** `floatToHalf` undoes `halfToFloat` on every finite half. */
  lemma NarrowingUndoesWidening(half: HalfWord)
    requires half % 0x8000 < INFINITY
    ensures FloatToHalf(Widened(half)) == half
  {
    hide Pow2, Widened, FloatToHalf, HalfExact, Exact, NearestEven, TruncatedTie, Sign, Exponent, Mantissa;
    var w := Widened(half);
    WideningIsExact(half);
    WidenedDropsNothing(half);
    FloatToHalfIsRoundTiesToEven(w);
    OwnMagnitudeIsNearest(half % 0x8000);
    NearestIsUnique(Exact(w), FloatToHalf(w) % 0x8000, half % 0x8000);
    SameParts(FloatToHalf(w), half);
  }

  lemma SameParts(a: nat, b: nat)
    requires a / 0x8000 == b / 0x8000 && a % 0x8000 == b % 0x8000
    ensures a == b
  {
  }
}
