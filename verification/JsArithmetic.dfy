/** JavaScript's remainder on integers, and draws from [0, 1) scaled to a range. */
module JsArithmetic {

  /** The remainder takes the sign of the dividend. */
  function Remainder(a: int, m: int): int
    requires 0 < m
  {
    if 0 <= a then a % m else -(-a % m)
  }

  /** Adding the modulus and taking the remainder again gives the residue, for either sign. */
  lemma ResidueOfRemainder(a: int, m: int)
    requires 0 < m
    ensures Remainder(Remainder(a, m) + m, m) == a % m
  {
    if a < 0 {
      NegativeResidue(a, m, -a % m, -a / m);
    } else {
      ShiftedResidue(a % m, m);
    }
  }

  /** The remainder is congruent to its dividend, and is the residue of a dividend that is not negative. */
  lemma RemainderIsCongruent(a: int, m: int)
    requires 0 < m
    ensures Remainder(a, m) % m == a % m
    ensures 0 <= a ==> Remainder(a, m) == a % m
  {
    if a < 0 {
      var r, q := -a % m, -a / m;
      assert a == -q * m - r;
      if r == 0 {
        MultipleResidue(-q, 0, m);
        MultipleResidue(0, 0, m);
      } else {
        OneBelow(a, q, m, r);
        MultipleResidue(-q - 1, m - r, m);
        MultipleResidue(-1, m - r, m);
      }
    } else {
      MultipleResidue(0, a % m, m);
    }
  }

  lemma OneBelow(a: int, q: int, m: int, r: int)
    requires a == -q * m - r
    ensures a == (-q - 1) * m + (m - r)
  {
  }

  lemma NegativeResidue(a: int, m: int, r: int, q: int)
    requires 0 < m && 0 <= r < m && -a == q * m + r
    ensures (m - r) % m == a % m
  {
    if r == 0 {
      MultipleResidue(-q, 0, m);
      MultipleResidue(1, 0, m);
    } else {
      assert a == (-q - 1) * m + (m - r);
      MultipleResidue(-q - 1, m - r, m);
      MultipleResidue(0, m - r, m);
    }
  }

  lemma MultipleResidue(k: int, r: int, m: int)
    requires 0 < m && 0 <= r < m
    ensures (k * m + r) % m == r
  {
    var n := k * m + r;
    var q, s := n / m, n % m;
    assert n == q * m + s;
    NoSmallMultiple(q - k, m, (q - k) * m, r - s);
  }

  lemma NoSmallMultiple(d: int, m: int, product: int, e: int)
    requires 0 < m && product == d * m && product == e && -m < e < m
    ensures e == 0
  {
    Multiples(d, m);
  }

  lemma Multiples(d: int, m: int)
    requires 0 < m
    ensures 1 <= d ==> m <= d * m
    ensures d <= -1 ==> d * m <= -m
    ensures d == 0 ==> d * m == 0
  {
  }

  lemma ShiftedResidue(r: int, m: int)
    requires 0 < m && 0 <= r < m
    ensures (r + m) % m == r
  {
    MultipleResidue(1, r, m);
  }

  lemma Scaled(draw: real, n: real)
    requires 0.0 <= draw < 1.0 && 0.0 < n
    ensures 0.0 <= draw * n < n
  {
  }
}
