/** The binary32 rounding of a row's scale (tools/go-export-model.ts), and what it leaves of the half-scale bound.
    Nothing is assumed of the rounding but that it gives a nearest finite word. */
module ScaleRounding {
  import opened ArtifactLayout
  import opened HalfFloat
  import opened Powers
  import opened RowQuantization

  /** No finite word is closer. */
  ghost predicate Nearest(w: Word, x: real) {
    Finite(w) && forall v: Word | Finite(v) :: Abs(Value(w) - x) <= Abs(Value(v) - x)
  }

  /** `Math.fround` on the positive numbers that do not overflow. */
  ghost predicate Narrows(narrow: Narrow) {
    forall x: real | 0.0 < x <= LargestFinite() :: Nearest(narrow(x), x)
  }

  ghost function Unit(): (u: real)
    ensures 0.0 < u
  {
    1.0 / Pow2(149) as real
  }

  ghost function LargestFinite(): real {
    Magnitude(254, 0x7f_ffff) as real * Unit()
  }

  /** The least normal number, 2^-126. */
  ghost function LeastNormal(): real {
    0x80_0000 as real * Unit()
  }

  // ---------- there is such a rounding ----------

  /** A word below `n` that no finite word below `n` beats. */
  lemma {:induction false} NearestBelow(x: real, n: nat) returns (w: Word)
    requires 0 < n <= 0x1_0000_0000
    ensures Finite(w) && forall v: Word | v < n && Finite(v) :: Abs(Value(w) - x) <= Abs(Value(v) - x)
  {
    hide Value, Abs, Finite;
    ZeroIsFinite();
    if n == 1 {
      w := 0;
    } else {
      w := NearestBelow(x, n - 1);
      if Finite(n - 1) && Abs(Value(n - 1) - x) < Abs(Value(w) - x) { w := n - 1; }
    }
  }

  lemma ZeroIsFinite()
    ensures Finite(0)
  {
  }

  ghost function Rounded(x: real): (w: Word)
    ensures Nearest(w, x)
  {
    SomeNearest(x);
    var w: Word :| Nearest(w, x);
    w
  }

  lemma SomeNearest(x: real)
    ensures exists w: Word :: Nearest(w, x)
  {
    var w := NearestBelow(x, 0x1_0000_0000);
    assert Nearest(w, x);
  }

  lemma NarrowingExists()
    ensures exists narrow :: Narrows(narrow)
  {
    ghost var narrow: Narrow := x => Rounded(x);
    assert Narrows(narrow);
  }

  // ---------- normal numbers are rounded to within a relative 2^-24 ----------

  lemma WordOfFields(e: nat, m: nat) returns (w: Word)
    requires e <= 254 && m < 0x80_0000
    ensures Finite(w) && Sign(w) == 0 && Exact(w) == Magnitude(e, m)
  {
    hide Magnitude;
    w := e * 0x80_0000 + m;
    assert Exponent(w) == e && Mantissa(w) == m;
  }

  lemma PlainValue(w: Word)
    requires Sign(w) == 0
    ensures Value(w) == Exact(w) as real * Unit()
  {
    hide Exact;
    Divided(Exact(w) as real, Pow2(149) as real);
  }

  lemma Divided(a: real, p: real)
    requires 0.0 < p
    ensures a / p == a * (1.0 / p)
  {
  }

  /** `q` whole units of `u`, together `low`, fit below `x`. */
  lemma Units(x: real, u: real) returns (q: int, low: real)
    requires 0.0 < u
    ensures low == q as real * u && low + u == (q + 1) as real * u && low <= x < low + u
  {
    q := (x / u).Floor;
    low := q as real * u;
    Undivide(x, u);
    OneMoreUnit(q, u, low);
    Between(q as real, low, x / u, (q + 1) as real, low + u, u, x);
  }

  lemma OneMoreUnit(q: int, u: real, low: real)
    requires low == q as real * u
    ensures low + u == (q + 1) as real * u
  {
    assert (q + 1) as real == q as real + 1.0;
  }

  lemma Between(a: real, low: real, y: real, b: real, high: real, u: real, x: real)
    requires 0.0 < u && low == a * u && high == b * u && x == y * u && a <= y < b
    ensures low <= x < high
  {
    ScaleOrder(a, y, u);
    ScaleOrder(y, b, u);
  }

  /** The exponent field of a magnitude from the least normal on, in units of 2^-149. */
  lemma {:induction false} Octave(x: real, from: nat) returns (e: nat)
    requires 1 <= from <= 254 && 0x80_0000 as real * Pow2(from - 1) as real <= x
    requires x <= 0xff_ffff as real * Pow2(253) as real
    ensures from <= e <= 254
    ensures 0x80_0000 as real * Pow2(e - 1) as real <= x < 0x100_0000 as real * Pow2(e - 1) as real
    decreases 254 - from
  {
    hide Pow2;
    if x < 0x100_0000 as real * Pow2(from - 1) as real {
      e := from;
    } else {
      if from == 254 {
        Below(x, Pow2(253) as real);
      }
      NextPow2(from - 1);
      e := Octave(x, from + 1);
    }
  }

  lemma Below(x: real, u: real)
    requires 0.0 < u && x <= 0xff_ffff as real * u
    ensures x < 0x100_0000 as real * u
  {
  }

  lemma WholeUnits(q: int, low: real, high: real, x: real, u: real)
    requires 0.0 < u && low * u <= x < high * u && q as real * u <= x < (q + 1) as real * u
    ensures low < (q + 1) as real && q as real < high
  {
    ScaleOrder(low, (q + 1) as real, u);
    ScaleOrder(q as real, high, u);
  }

  /** Half a unit of the octave is a relative 2^-24 at most. */
  lemma HalfAUnit(error: real, x: real, u: real)
    requires 0.0 < u && 2.0 * error <= u && 0x80_0000 as real * u <= x
    ensures error * 16777216.0 <= x
  {
  }

  /** Some finite word is as close as half a unit in the last place. */
  lemma CloseWord(x: real) returns (w: Word)
    requires 0x80_0000 as real <= x <= 0xff_ffff as real * Pow2(253) as real
    ensures Finite(w) && Sign(w) == 0 && Abs(Exact(w) as real - x) * 16777216.0 <= x
  {
    hide *;
    First();
    var e := Octave(x, 1);
    var u := Pow2(e - 1) as real;
    var q, low := Units(x, u);
    WholeUnits(q, 0x80_0000 as real, 0x100_0000 as real, x, u);
    if 2.0 * (x - low) <= u {
      w := FieldsWord(e, q, low);
      Distance2(low, x, u);
    } else {
      if q == 0xff_ffff && e == 254 { Below2(x, low, u); }
      w := FieldsWord(e, q + 1, low + u);
      Distance2(low + u, x, u);
    }
  }

  lemma Below2(x: real, low: real, u: real)
    requires 0.0 < u && low == 0xff_ffff as real * u && x <= 0xff_ffff as real * u
    ensures 2.0 * (x - low) <= u
  {
  }

  lemma Distance2(y: real, x: real, u: real)
    requires 0.0 < u && 0x80_0000 as real * u <= x && -u <= 2.0 * (y - x) <= u
    ensures Abs(y - x) * 16777216.0 <= x
  {
    HalfAUnit(Abs(y - x), x, u);
  }

  /** The word of `q` units of an octave, the carry into the next one included. */
  lemma FieldsWord(e: nat, q: int, magnitude: real) returns (w: Word)
    requires 1 <= e <= 254 && 0x80_0000 <= q <= 0x100_0000 && (q == 0x100_0000 ==> e < 254)
    requires magnitude == q as real * Pow2(e - 1) as real
    ensures Finite(w) && Sign(w) == 0 && Exact(w) as real == magnitude
  {
    hide Pow2, Exact, Finite;
    AsReals(q, Pow2(e - 1));
    if q < 0x100_0000 {
      w := WordOfFields(e, q - 0x80_0000);
    } else {
      w := WordOfFields(e + 1, 0);
      NextPow2(e - 1);
    }
  }

  lemma AsReals(a: nat, b: nat)
    ensures (a * b) as real == a as real * b as real
  {
  }

  lemma LargestInUnits()
    ensures Magnitude(254, 0x7f_ffff) as real == 0xff_ffff as real * Pow2(253) as real
  {
    hide Pow2;
    AsReals(0xff_ffff, Pow2(253));
  }

  /** So every normal number is narrowed to within a relative 2^-24. */
  lemma NormalIsNear(narrow: Narrow, x: real)
    requires Narrows(narrow) && LeastNormal() <= x <= LargestFinite()
    ensures Near(Value(narrow(x)), x)
  {
    hide Value, Exact, Abs, Finite, Unit, LargestFinite, LeastNormal;
    var units := InUnits(x);
    var w := CloseWord(units);
    ValueInUnits(w, units, Unit(), x);
    LeastIsPositive();
    NearestIsNear(narrow(x), w, x);
  }

  lemma NearestIsNear(w: Word, other: Word, x: real)
    requires Nearest(w, x) && Finite(other) && Abs(Value(other) - x) * 16777216.0 <= x
    ensures Near(Value(w), x)
  {
    hide Value, Finite;
    assert Abs(Value(w) - x) <= Abs(Value(other) - x);
  }

  lemma LeastIsPositive()
    ensures 0.0 < LeastNormal()
  {
  }

  lemma InUnits(x: real) returns (units: real)
    requires LeastNormal() <= x <= LargestFinite()
    ensures x == units * Unit() && 0x80_0000 as real <= units <= 0xff_ffff as real * Pow2(253) as real
  {
    hide Pow2, Magnitude, Unit;
    units := x / Unit();
    Undivide(x, Unit());
    LargestInUnits();
    Unscaled(0x80_0000 as real, units, 0xff_ffff as real * Pow2(253) as real, Unit(), x);
  }

  lemma Unscaled(low: real, y: real, high: real, u: real, x: real)
    requires 0.0 < u && y * u == x && low * u <= x <= high * u
    ensures low <= y <= high
  {
    ScaleOrder(low, y, u);
    ScaleOrder(y, high, u);
  }

  lemma ValueInUnits(w: Word, units: real, u: real, x: real)
    requires Sign(w) == 0 && u == Unit() && x == units * u
    requires Abs(Exact(w) as real - units) * 16777216.0 <= units
    ensures Abs(Value(w) - x) * 16777216.0 <= x
  {
    hide Value, Exact, Abs, Unit;
    PlainValue(w);
    ScaledError(Value(w), Exact(w) as real, Exact(w) as real - units, units, u, x);
  }

  lemma ScaledError(v: real, exact: real, d: real, units: real, u: real, x: real)
    requires 0.0 < u && v == exact * u && x == units * u && d == exact - units && Abs(d) * 16777216.0 <= units
    ensures Abs(v - x) * 16777216.0 <= x
  {
    hide Abs;
    ScaleDifference(exact, units, u);
    var e := v - x;
    assert e == d * u;
    ScaleAbs(d, u);
    Rescaled(Abs(d), units, u);
  }

  lemma Rescaled(error: real, units: real, u: real)
    requires 0.0 < u && error * 16777216.0 <= units
    ensures error * u * 16777216.0 <= units * u
  {
    ScaleOrder(error * 16777216.0, units, u);
  }

  // ---------- the half-scale bound ----------

  lemma ValueIsSigned(w: Word) returns (k: int)
    ensures Value(w) == k as real * Unit()
    ensures k == if Sign(w) == 1 then 0 - Exact(w) else Exact(w)
  {
    hide Exact, Pow2;
    var exact: int := Exact(w);
    k := if Sign(w) == 1 then -exact else exact;
    Divided(exact as real, Pow2(149) as real);
    SignedUnits(exact, Unit(), Value(w), Sign(w) == 1);
  }

  lemma SignedUnits(exact: int, u: real, value: real, negative: bool)
    requires value == if negative then -(exact as real * u) else exact as real * u
    ensures value == (if negative then -exact else exact) as real * u
  {
    assert (-exact) as real == -(exact as real);
  }

  lemma FiniteIsBounded(w: Word)
    requires Finite(w)
    ensures Abs(Value(w)) <= LargestFinite()
  {
    hide Value, Exact, Magnitude, Finite, Unit;
    var k := ValueIsSigned(w);
    Fields(w);
    AtMostLargest(Exponent(w), Mantissa(w));
    ScaleAbs(k as real, Unit());
    ScaleOrder(Abs(k as real), Magnitude(254, 0x7f_ffff) as real, Unit());
  }

  lemma AtMostLargest(e: nat, m: nat)
    requires e < 255 && m < 0x80_0000
    ensures Magnitude(e, m) <= Magnitude(254, 0x7f_ffff)
  {
    hide Magnitude;
    if e < 254 || m < 0x7f_ffff { ExactGrows(e, m, 254, 0x7f_ffff); }
  }

  lemma OneIsFinite()
    ensures 1.0 <= LargestFinite()
  {
    hide Pow2;
    LargestInUnits();
    Pow2Grows(149, 253);
    Undivide(1.0, Pow2(149) as real);
    ScaleOrder(Pow2(149) as real, 0xff_ffff as real * Pow2(253) as real, Unit());
  }

  /** The scale a row of finite weights asks for can be narrowed. */
  lemma WantedIsFinite(row: seq<Word>)
    requires forall w <- row :: Finite(w)
    ensures 0.0 < WantedScale(Values(row)) <= LargestFinite()
  {
    hide Value, Finite, LargestFinite, Largest;
    OneIsFinite();
    var values := Values(row);
    if Largest(values) != 0.0 {
      LargestIsReached(values);
      var v :| v in values && Abs(v) == Largest(values);
      var k :| 0 <= k < |values| && values[k] == v;
      FiniteIsBounded(row[k]);
    }
  }

  lemma LargestIsReached(row: seq<real>)
    ensures 0.0 <= Largest(row)
    ensures Largest(row) != 0.0 ==> exists v <- row :: Abs(v) == Largest(row)
  {
  }

  /** Every weight of a row of finite weights whose wanted scale is normal is read back from the payload within
      half of its row's scale: for a largest weight of at least 127 * 2^-126. */
  lemma NormalRowDecodes(blocks: seq<Block>, narrow: Narrow, n: nat, r: nat, c: nat)
    requires Narrows(narrow) && n < |blocks| && forall b <- blocks :: Shaped(b)
    requires blocks[n].storage.Q8? && r < blocks[n].rows && c < blocks[n].columns
    requires (r + 1) * blocks[n].columns <= |blocks[n].values|
    requires forall w <- RowOf(blocks[n].values, blocks[n].columns, r) :: Finite(w)
    requires LeastNormal() <= WantedScale(Values(RowOf(blocks[n].values, blocks[n].columns, r)))
    ensures var b, from := blocks[n], TotalLength(blocks[..n]);
      && 0 <= from && from + b.rows * b.columns + 4 * b.rows <= |Payload(blocks, narrow)|
      && WithinHalfAScale(Decoded(Payload(blocks, narrow), from, b.rows, b.columns, r, c), b, narrow, r, c)
  {
    hide *;
    var row := RowOf(blocks[n].values, blocks[n].columns, r);
    WantedIsFinite(row);
    NormalIsNear(narrow, WantedScale(Values(row)));
    RowIsNear(blocks[n], narrow, r);
    PayloadDecodes(blocks, narrow, n, r, c);
  }

  lemma RowIsNear(b: Block, narrow: Narrow, r: nat)
    requires (r + 1) * b.columns <= |b.values|
    requires var wanted := WantedScale(Values(RowOf(b.values, b.columns, r))); Near(Value(narrow(wanted)), wanted)
    ensures ScaleIsNear(b, narrow, r)
  {
    hide Value, WantedScale, Values, Near, RowOf;
  }

  /** Whatever the scale, as long as it is positive, the bound holds exactly for the weights of at most 127.5 scales. */
  lemma DecodesExactly(b: Block, narrow: Narrow, r: nat, c: nat)
    requires Shaped(b) && b.storage.Q8? && r < b.rows && c < b.columns
    requires (r + 1) * b.columns <= |b.values| && 0.0 < Value(RowScale(RowOf(b.values, b.columns, r), narrow))
    ensures b.rows * b.columns + 4 * b.rows <= |BlockBytes(b, narrow)|
    ensures WithinHalfAScale(Decoded(BlockBytes(b, narrow), 0, b.rows, b.columns, r, c), b, narrow, r, c)
      <==> Abs(Value(RowOf(b.values, b.columns, r)[c]))
           <= 127.5 * Value(RowScale(RowOf(b.values, b.columns, r), narrow))
  {
    hide BlockBytes, Decoded, RowScale, Value, Quantize, RowOf;
    BlockDecodes(b, narrow, r, c);
    var row := RowOf(b.values, b.columns, r);
    QuantizeIsFaithful(Value(row[c]), Value(RowScale(row, narrow)));
  }

  /** A subnormal scale can break it. The one weight 177 * 2^-149 asks for a scale of 177/127 * 2^-149, which is
      narrowed to 2^-149; the weight meets the clamp and is read back 50 scales short. */
  lemma SubnormalScaleClamps(narrow: Narrow)
    requires Narrows(narrow)
    ensures var b := Block([177], 1, 1, [], Q8);
      && Shaped(b) && Value(RowScale(RowOf(b.values, 1, 0), narrow)) == Unit() && |BlockBytes(b, narrow)| == 5
      && Value(177) - Decoded(BlockBytes(b, narrow), 0, 1, 1, 0, 0) == 50.0 * Unit()
      && !WithinHalfAScale(Decoded(BlockBytes(b, narrow), 0, 1, 1, 0, 0), b, narrow, 0, 0)
  {
    hide BlockBytes, Decoded, Value, Quantize, Unit, Narrows;
    var b := Block([177], 1, 1, [], Q8);
    assert RowOf(b.values, 1, 0) == [177];
    SmallWordsMean();
    NarrowedToOne(narrow);
    BlockLengthIsExact(b, narrow);
    BlockDecodes(b, narrow, 0, 0);
    ClampedTo127(Unit());
  }

  lemma SmallWordsMean()
    ensures Finite(1) && Value(1) == Unit() && Value(177) == 177.0 * Unit()
  {
    hide Value, Unit, Pow2;
    assert Exponent(1) == 0 && Mantissa(1) == 1 && Sign(1) == 0;
    assert Exponent(177) == 0 && Mantissa(177) == 177 && Sign(177) == 0;
    PlainValue(1);
    PlainValue(177);
  }

  lemma NarrowedToOne(narrow: Narrow)
    requires Narrows(narrow)
    ensures Value(RowScale([177], narrow)) == Unit()
  {
    hide Value, Unit, LargestFinite, WantedScale, Nearest, RowScale;
    SmallWordsMean();
    var x := WantedScale([177.0 * Unit()]);
    WantedOf177(Unit());
    SmallIsNarrowed(x);
    ScaleOfOne(narrow);
    ClosestToOne(narrow(x), x);
  }

  lemma ScaleOfOne(narrow: Narrow)
    ensures RowScale([177], narrow) == narrow(WantedScale([Value(177)]))
  {
    hide Value, WantedScale;
    assert Values([177]) == [Value(177)];
  }

  lemma ClosestToOne(w: Word, x: real)
    requires Nearest(w, x) && x * 127.0 == 177.0 * Unit()
    ensures Value(w) == Unit()
  {
    hide Value, Unit, Finite, Abs;
    SmallWordsMean();
    assert Abs(Value(w) - x) <= Abs(Value(1) - x);
    var k := ValueIsSigned(w);
    OnlyOne(k, Value(w), Unit(), x);
  }

  lemma WantedOf177(u: real)
    requires 0.0 < u
    ensures WantedScale([177.0 * u]) * 127.0 == 177.0 * u
  {
    assert [177.0 * u][..0] == [];
    assert Largest([177.0 * u]) == 177.0 * u;
  }

  lemma SmallIsNarrowed(x: real)
    requires x * 127.0 == 177.0 * Unit()
    ensures 0.0 < x <= LargestFinite()
  {
    hide Unit, LargestFinite;
    OneIsFinite();
    TwoUnits();
  }

  lemma TwoUnits()
    ensures 2.0 * Unit() <= 1.0
  {
    assert Pow2(1) == 2 by { First(); NextPow2(0); }
    hide Pow2;
    Pow2Grows(1, 149);
    Twofold(Pow2(149) as real);
  }

  lemma Twofold(p: real)
    requires 2.0 <= p
    ensures 2.0 * (1.0 / p) <= 1.0
  {
    Undivide(1.0, p);
    ScaleOrder(2.0, p, 1.0 / p);
  }

  lemma OnlyOne(k: int, ku: real, u: real, x: real)
    requires 0.0 < u && x * 127.0 == 177.0 * u && ku == k as real * u && Abs(ku - x) <= Abs(u - x)
    ensures k == 1
  {
    if k <= 0 {
      ScaleOrder(k as real, 0.0, u);
      FarBelow(ku, u, x);
    }
    if 2 <= k {
      ScaleOrder(2.0, k as real, u);
      FarAbove(ku, u, x);
    }
  }

  lemma FarBelow(ku: real, u: real, x: real)
    requires 0.0 < u && x * 127.0 == 177.0 * u && ku <= 0.0
    ensures Abs(u - x) < Abs(ku - x)
  {
  }

  lemma FarAbove(ku: real, u: real, x: real)
    requires 0.0 < u && x * 127.0 == 177.0 * u && 2.0 * u <= ku
    ensures Abs(u - x) < Abs(ku - x)
  {
  }

  lemma ClampedTo127(u: real)
    requires 0.0 < u
    ensures Quantize(177.0 * u, u) == 127
  {
    assert 177.0 * u / u == 177.0 by { Cancel(177.0, u); }
    assert RoundHalfUp(177.0) == 177;
  }
}
