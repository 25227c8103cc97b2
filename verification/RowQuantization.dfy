/** Eight-bit row quantization (tools/go-export-model.ts): one scale a row, weights rounded to it. */
module RowQuantization {

  type Byte = b: int | 0 <= b < 256

  function Abs(x: real): real {
    if x < 0.0 then -x else x
  }

  /** The largest magnitude of a row. */
  function Largest(row: seq<real>): (m: real)
    ensures 0.0 <= m
    ensures forall v <- row :: Abs(v) <= m
    ensures m == 0.0 || exists v <- row :: Abs(v) == m
  {
    if row == [] then 0.0
    else
      var rest := Largest(row[..|row| - 1]);
      var last := row[|row| - 1];
      assert row == row[..|row| - 1] + [last];
      if Abs(last) > rest then Abs(last) else rest
  }

  /** `Math.round`: halves go up. */
  function RoundHalfUp(x: real): int {
    (x + 0.5).Floor
  }

  /** A weight in units of the scale, clamped to seven bits and a sign. A zero scale, which only
      underflow produces, sends every non-zero weight to the clamp as division by zero does. */
  function Quantize(v: real, scale: real): int {
    if scale == 0.0 then (if v > 0.0 then 127 else if v < 0.0 then -127 else 0)
    else
      Clamped(RoundHalfUp(v / scale))
  }

  /** The scale a row asks for, before it is rounded to binary32. */
  function WantedScale(row: seq<real>): real {
    if Largest(row) == 0.0 then 1.0 else Largest(row) / 127.0
  }

  /** `q & 0xff`. */
  function ToByte(q: int): Byte
    requires -128 <= q < 128
  {
    if q < 0 then q + 256 else q
  }

  function FromByte(b: Byte): int {
    if b < 128 then b else b - 256
  }

  lemma QuantizeInRange(v: real, scale: real)
    ensures -127 <= Quantize(v, scale) <= 127
    ensures FromByte(ToByte(Quantize(v, scale))) == Quantize(v, scale)
  {}

  function Clamped(q: int): int {
    if q > 127 then 127 else if q < -127 then -127 else q
  }

  /** In units of the scale, clamping is idle on [-127.5, 127.5) and costs no more than half a unit
      on [-127.5, 127.5], and nowhere else. */
  lemma ClampInUnits(x: real, q: int)
    requires q == Clamped(RoundHalfUp(x))
    ensures q == RoundHalfUp(x) <==> -127.5 <= x < 127.5
    ensures Abs(q as real - x) <= 0.5 <==> Abs(x) <= 127.5
  {
    var n := RoundHalfUp(x);
    assert n as real <= x + 0.5 < n as real + 1.0;
  }

  /** Multiplying by a positive scale keeps order, both ways. */
  lemma ScaleOrder(a: real, b: real, k: real)
    requires 0.0 < k
    ensures a <= b <==> a * k <= b * k
    ensures a < b <==> a * k < b * k
  {
    Product(a, b, k);
    Product(b, a, k);
  }

  lemma Product(a: real, b: real, k: real)
    requires 0.0 < k
    ensures a < b ==> a * k < b * k
    ensures a == b ==> a * k == b * k
  {}

  lemma ScaleDifference(a: real, b: real, k: real)
    ensures (a - b) * k == a * k - b * k
  {}

  lemma ScaleAbs(a: real, k: real)
    requires 0.0 < k
    ensures Abs(a * k) == Abs(a) * k
  {
    ScaleOrder(a, 0.0, k);
  }

  /** The clamp is idle exactly when the weight lies in [-127.5, 127.5) scales, and the decoded
      weight is within half a scale exactly when its magnitude is at most 127.5 scales. */
  lemma QuantizeIsFaithful(v: real, scale: real)
    requires 0.0 < scale
    ensures Quantize(v, scale) == RoundHalfUp(v / scale) <==> -127.5 * scale <= v < 127.5 * scale
    ensures Abs(Quantize(v, scale) as real * scale - v) <= 0.5 * scale <==> Abs(v) <= 127.5 * scale
  {
    hide RoundHalfUp, Clamped;
    Undivide(v, scale);
    QuantizeInUnits(v, scale);
    ClampInUnits(v / scale, Quantize(v, scale));
    RangeInUnits(v / scale, v, scale);
    ErrorInUnits(Quantize(v, scale), v / scale, v, scale);
  }

  lemma RangeInUnits(x: real, v: real, scale: real)
    requires 0.0 < scale && x * scale == v
    ensures -127.5 <= x < 127.5 <==> -127.5 * scale <= v < 127.5 * scale
    ensures Abs(x) <= 127.5 <==> Abs(v) <= 127.5 * scale
  {
    hide Abs;
    ScaleOrder(-127.5, x, scale);
    ScaleOrder(x, 127.5, scale);
    ScaleAbs(x, scale);
    ScaleOrder(Abs(x), 127.5, scale);
  }

  lemma ErrorInUnits(q: int, x: real, v: real, scale: real)
    requires 0.0 < scale && x * scale == v
    ensures Abs(q as real - x) <= 0.5 <==> Abs(q as real * scale - v) <= 0.5 * scale
  {
    hide Abs;
    var d, e := q as real - x, q as real * scale - v;
    ScaleDifference(q as real, x, scale);
    assert d * scale == e;
    ScaleAbs(d, scale);
    ScaleOrder(Abs(d), 0.5, scale);
  }

  lemma Undivide(v: real, scale: real)
    requires 0.0 < scale
    ensures v / scale * scale == v
  {}

  lemma QuantizeInUnits(v: real, scale: real)
    requires 0.0 < scale
    ensures Quantize(v, scale) == Clamped(RoundHalfUp(v / scale))
  {}

  /** A row quantized with a scale close enough to the one it wants decodes within half a scale
      everywhere and never meets the clamp: binary32 rounding of a normal scale, whose relative
      error is at most 2^-24, is far inside the margin. */
  lemma RowIsFaithful(row: seq<real>, scale: real, v: real)
    requires v in row && 0.0 < scale
    requires WantedScale(row) * 254.0 < scale * 255.0
    ensures Quantize(v, scale) == RoundHalfUp(v / scale)
    ensures Abs(Quantize(v, scale) as real * scale - v) <= 0.5 * scale
  {
    var m := Largest(row);
    assert Abs(v) <= m;
    assert m < 127.5 * scale;
    QuantizeIsFaithful(v, scale);
  }

  /** With the exact scale the row's largest weights decode exactly. */
  lemma LargestIsExact(row: seq<real>, v: real)
    requires v in row && Largest(row) > 0.0 && Abs(v) == Largest(row)
    ensures Quantize(v, WantedScale(row)) as real * WantedScale(row) == v
  {
    var scale := WantedScale(row);
    var n := if v < 0.0 then -127 else 127;
    assert n as real * scale == v;
    Cancel(n as real, scale);
    assert v / scale == n as real;
    assert RoundHalfUp(n as real) == n;
  }

  lemma Cancel(a: real, k: real)
    requires 0.0 < k
    ensures a * k / k == a
  {}
}
