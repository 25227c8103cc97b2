/** The deterministic seed streams of the Go arenas (sim/go-arena.ts). */
module GoSeeds {
  import opened Collections
  import opened GoOpponents
  import opened JsArithmetic
  import opened Powers

  // ---------- 32-bit words ----------

  const WORDS := 0x1_0000_0000

  function Put(odd: bool, place: bv32, rest: bv32): bv32 {
    (if odd then place else 0) | rest
  }

  /** The binary digits of `n`, the lowest at `place`. */
  function Digits(n: nat, left: nat, place: bv32): bv32 {
    if left == 0 then 0 else Put(n % 2 == 1, place, Digits(n / 2, left - 1, place << 1))
  }

  /** The unsigned 32-bit word of an integer: its residue modulo 2^32. */
  function Word(n: int): bv32 {
    Digits(n % WORDS, 32, 1)
  }

  predicate PowerOfTwo(w: bv32) { w != 0 && w & (w - 1) == 0 }

  predicate Above(rest: bv32, place: bv32) { rest & (place - 1) == 0 }

  /** Exactly `left` doublings of `place` fit the word. */
  predicate Room(left: nat, place: bv32) {
    if left == 0 then place == 0 else PowerOfTwo(place) && Room(left - 1, place << 1)
  }

  lemma WordHasRoom()
    ensures Room(32, 1)
  {
    assert Room(2, 0x4000_0000);
    assert Room(4, 0x1000_0000);
    assert Room(6, 0x400_0000);
    assert Room(8, 0x100_0000);
    assert Room(10, 0x40_0000);
    assert Room(12, 0x10_0000);
    assert Room(14, 0x4_0000);
    assert Room(16, 0x1_0000);
    assert Room(18, 0x4000);
    assert Room(20, 0x1000);
    assert Room(22, 0x400);
    assert Room(24, 0x100);
    assert Room(26, 0x40);
    assert Room(28, 0x10);
    assert Room(30, 0x4);
  }

  lemma {:induction false} HigherDigits(n: nat, left: nat, place: bv32)
    requires Room(left, place)
    ensures Above(Digits(n, left, place), place)
  {
    hide Put, Above, PowerOfTwo;
    if left == 0 {
      NothingAbove(place);
    } else {
      HigherDigits(n / 2, left - 1, place << 1);
      PutAbove(n % 2 == 1, Digits(n / 2, left - 1, place << 1), place);
    }
  }

  lemma NothingAbove(place: bv32)
    ensures Above(0, place)
  {
  }

  lemma PutAbove(odd: bool, rest: bv32, place: bv32)
    requires Above(rest, place << 1) && PowerOfTwo(place)
    ensures Above(Put(odd, place, rest), place)
  {
  }

  lemma TakeApart(a: bv32, b: bv32, place: bv32, p: bool, q: bool)
    requires Above(a, place << 1) && Above(b, place << 1) && PowerOfTwo(place)
    requires Put(p, place, a) == Put(q, place, b)
    ensures p == q && a == b
  {
  }

  lemma {:induction false} DigitsDiffer(n: nat, m: nat, left: nat, place: bv32)
    requires Room(left, place) && n < Pow2(left) && m < Pow2(left)
    requires Digits(n, left, place) == Digits(m, left, place)
    ensures n == m
  {
    hide Put, Above, PowerOfTwo;
    if left > 0 {
      var a, b := Digits(n / 2, left - 1, place << 1), Digits(m / 2, left - 1, place << 1);
      HigherDigits(n / 2, left - 1, place << 1);
      HigherDigits(m / 2, left - 1, place << 1);
      TakeApart(a, b, place, n % 2 == 1, m % 2 == 1);
      DigitsDiffer(n / 2, m / 2, left - 1, place << 1);
    }
  }

  lemma WordSize()
    ensures Pow2(32) == 0x1_0000_0000
  {
    assert Pow2(8) == 256;
    assert Pow2(16) == 65536;
    assert Pow2(24) == 0x100_0000;
  }

  /** Two integers have the same word exactly when they are congruent modulo 2^32. */
  lemma WordsAreResidues(n: int, m: int)
    ensures Word(n) == Word(m) <==> n % WORDS == m % WORDS
  {
    hide Digits, Room;
    if Word(n) == Word(m) {
      WordSize();
      WordHasRoom();
      DigitsDiffer(n % WORDS, m % WORDS, 32, 1);
    }
  }

  // ---------- sums of words ----------

  predicate Added(a: bv32, b: bv32, sum: bv32) { sum == a + b }

  function Add(a: bv32, b: bv32): (sum: bv32) ensures Added(a, b, sum) { a + b }

  function AddThree(a: bv32, b: bv32, c: bv32): bv32 { a + b + c }

  lemma OneSum(a: bv32, b: bv32, s: bv32, t: bv32)
    requires Added(a, b, s) && Added(a, b, t)
    ensures s == t
  {
  }

  lemma SumThenThird(a: bv32, b: bv32, c: bv32, ab: bv32)
    requires Added(a, b, ab)
    ensures Added(ab, c, AddThree(a, b, c))
  {
  }

  lemma FirstThenSum(a: bv32, b: bv32, c: bv32, bc: bv32)
    requires Added(b, c, bc)
    ensures Added(a, bc, AddThree(a, b, c))
  {
  }

  lemma Associates(a: bv32, b: bv32, c: bv32)
    ensures Add(Add(a, b), c) == Add(a, Add(b, c))
  {
    hide *;
    SumThenThird(a, b, c, Add(a, b));
    FirstThenSum(a, b, c, Add(b, c));
    OneSum(Add(a, b), c, Add(Add(a, b), c), AddThree(a, b, c));
    OneSum(a, Add(b, c), Add(a, Add(b, c)), AddThree(a, b, c));
  }

  lemma Commutes(a: bv32, b: bv32)
    ensures Add(a, b) == Add(b, a)
  {
  }

  lemma AddNothing(a: bv32)
    ensures Add(a, 0) == a && Add(0, a) == a
  {
  }

  lemma Doubled(a: bv32)
    ensures Add(a, a) == a << 1
  {
  }

  lemma Regroup(a: bv32, x: bv32, b: bv32, y: bv32)
    ensures Add(Add(a, x), Add(b, y)) == Add(Add(a, b), Add(x, y))
  {
    hide *;
    Associates(a, x, Add(b, y));
    Associates(x, b, y);
    Commutes(x, b);
    Associates(b, x, y);
    Associates(a, b, Add(x, y));
  }

  lemma RegroupFive(a: bv32, x: bv32, b: bv32, y: bv32, c: bv32)
    ensures Add(Add(Add(a, x), Add(b, y)), c) == Add(Add(Add(a, b), c), Add(x, y))
  {
    hide *;
    Regroup(a, x, b, y);
    Associates(Add(a, b), Add(x, y), c);
    Commutes(Add(x, y), c);
    Associates(Add(a, b), c, Add(x, y));
  }

  function Carry(c: bool, place: bv32): bv32 { if c then place else 0 }

  lemma PutIsAdd(odd: bool, place: bv32, rest: bv32)
    requires PowerOfTwo(place) && Above(rest, place << 1)
    ensures Put(odd, place, rest) == Add(Carry(odd, place), rest)
  {
    if odd { PutOne(place, rest); } else { AddNothing(rest); }
  }

  lemma PutOne(place: bv32, rest: bv32)
    requires PowerOfTwo(place) && Above(rest, place << 1)
    ensures place | rest == place + rest
  {
  }

  predicate Majority(p: bool, q: bool, c: bool) { (p && q) || (c && (p || q)) }

  /** Adding one column. */
  lemma Column(p: bool, q: bool, c: bool, place: bv32)
    ensures Add(Add(Carry(p, place), Carry(q, place)), Carry(c, place))
      == Add(Carry((p != q) != c, place), Carry(Majority(p, q, c), place << 1))
  {
    hide Add, Added;
    Doubled(place);
    AddNothing(place);
    AddNothing(0);
    AddNothing(place << 1);
    Commutes(place << 1, place);
  }

  /** Words are added as numbers are, column by column. */
  lemma {:induction false} DigitsAdd(n: nat, m: nat, c: bool, left: nat, place: bv32)
    requires Room(left, place)
    ensures Add(Add(Digits(n, left, place), Digits(m, left, place)), Carry(c, place))
      == Digits(n + m + (if c then 1 else 0), left, place)
  {
    hide Put, Above, PowerOfTwo, Add, Added, Carry, Majority;
    if left == 0 {
      NoCarryOut(c);
      AddNothing(0);
    } else {
      var sum := n + m + (if c then 1 else 0);
      var more := Majority(n % 2 == 1, m % 2 == 1, c);
      var x, y := Digits(n / 2, left - 1, place << 1), Digits(m / 2, left - 1, place << 1);
      ColumnOfSum(n, m, c);
      DigitsAdd(n / 2, m / 2, more, left - 1, place << 1);
      HigherDigits(n / 2, left - 1, place << 1);
      HigherDigits(m / 2, left - 1, place << 1);
      HigherDigits(sum / 2, left - 1, place << 1);
      AddColumns(n % 2 == 1, m % 2 == 1, c, place, x, y, Digits(sum / 2, left - 1, place << 1));
    }
  }

  lemma NoCarryOut(c: bool)
    ensures Carry(c, 0) == 0
  {
  }

  lemma ColumnOfSum(n: nat, m: nat, c: bool)
    ensures var sum := n + m + (if c then 1 else 0);
      var p, q := n % 2 == 1, m % 2 == 1;
      (sum % 2 == 1 <==> (p != q) != c) && sum / 2 == n / 2 + m / 2 + (if Majority(p, q, c) then 1 else 0)
  {
  }

  lemma AddColumns(p: bool, q: bool, c: bool, place: bv32, x: bv32, y: bv32, z: bv32)
    requires PowerOfTwo(place) && Above(x, place << 1) && Above(y, place << 1) && Above(z, place << 1)
    requires Add(Add(x, y), Carry(Majority(p, q, c), place << 1)) == z
    ensures Add(Add(Put(p, place, x), Put(q, place, y)), Carry(c, place)) == Put((p != q) != c, place, z)
  {
    hide Put, Above, PowerOfTwo, Add, Added, Carry, Majority;
    var a, b, e := Carry(p, place), Carry(q, place), Carry(c, place);
    var s, t := Carry((p != q) != c, place), Carry(Majority(p, q, c), place << 1);
    PutIsAdd(p, place, x);
    PutIsAdd(q, place, y);
    PutIsAdd((p != q) != c, place, z);
    RegroupFive(a, x, b, y, e);
    Column(p, q, c, place);
    Associates(s, t, Add(x, y));
    Commutes(t, Add(x, y));
  }

  lemma {:induction false} DigitsWrap(n: nat, m: nat, k: nat, left: nat, place: bv32)
    requires n == m + k * Pow2(left)
    ensures Digits(n, left, place) == Digits(m, left, place)
  {
    hide Put;
    if left > 0 {
      var half := k * Pow2(left - 1);
      assert n == m + 2 * half;
      DigitsWrap(n / 2, m / 2, k, left - 1, place << 1);
    }
  }

  /** The word of a sum is the sum of the words. */
  lemma WordsAdd(n: int, m: int)
    ensures Add(Word(n), Word(m)) == Word(n + m)
  {
    hide Digits, Room, Add, Added, Carry;
    var a, b, c := n % WORDS, m % WORDS, (n + m) % WORDS;
    WordHasRoom();
    DigitsAdd(a, b, false, 32, 1);
    NoCarry(1);
    AddNothing(Add(Word(n), Word(m)));
    WordSize();
    DigitsWrap(a + b, c, if a + b < WORDS then 0 else 1, 32, 1);
  }

  lemma NoCarry(place: bv32)
    ensures Carry(false, place) == 0
  {
  }

  // ---------- the mixer ----------

  // Each round is stated as a relation, which the solver can invert, and as the function it defines.

  predicate Folded16(x: bv32, y: bv32) { y == x ^ (x >> 16) }

  predicate Folded15(x: bv32, y: bv32) { y == x ^ (x >> 15) }

  predicate Unfolded15(x: bv32, y: bv32) { y == x ^ (x >> 15) ^ (x >> 30) }

  predicate First(x: bv32, y: bv32) { y == x * 0x7feb352d }

  predicate FirstBack(x: bv32, y: bv32) { y == x * 0x1d69e2a5 }

  predicate Second(x: bv32, y: bv32) { y == x * 0x846ca68b }

  predicate SecondBack(x: bv32, y: bv32) { y == x * 0x43021123 }

  function Fold16(x: bv32): (y: bv32) ensures Folded16(x, y) { x ^ (x >> 16) }

  function Fold15(x: bv32): (y: bv32) ensures Folded15(x, y) { x ^ (x >> 15) }

  function Unfold15(x: bv32): (y: bv32) ensures Unfolded15(x, y) { x ^ (x >> 15) ^ (x >> 30) }

  function TimesFirst(x: bv32): (y: bv32) ensures First(x, y) { x * 0x7feb352d }

  function OverFirst(x: bv32): (y: bv32) ensures FirstBack(x, y) { x * 0x1d69e2a5 }

  function TimesSecond(x: bv32): (y: bv32) ensures Second(x, y) { x * 0x846ca68b }

  function OverSecond(x: bv32): (y: bv32) ensures SecondBack(x, y) { x * 0x43021123 }

  function Mix(value: bv32): bv32 {
    Fold16(TimesSecond(Fold15(TimesFirst(Fold16(value)))))
  }

  /** The inverse rounds, last to first. */
  function Unmix(mixed: bv32): bv32 {
    Fold16(OverFirst(Unfold15(OverSecond(Fold16(mixed)))))
  }

  lemma Fold16Undoes(x: bv32, y: bv32, z: bv32)
    requires Folded16(x, y) && Folded16(y, z)
    ensures z == x
  {
  }

  lemma Fold15Undoes(x: bv32, y: bv32, z: bv32)
    requires Folded15(x, y) && Unfolded15(y, z)
    ensures z == x
  {
  }

  lemma Unfold15Undoes(x: bv32, y: bv32, z: bv32)
    requires Unfolded15(x, y) && Folded15(y, z)
    ensures z == x
  {
  }

  lemma FirstUndoes(x: bv32, y: bv32, z: bv32)
    requires (First(x, y) && FirstBack(y, z)) || (FirstBack(x, y) && First(y, z))
    ensures z == x
  {
  }

  lemma SecondUndoes(x: bv32, y: bv32, z: bv32)
    requires (Second(x, y) && SecondBack(y, z)) || (SecondBack(x, y) && Second(y, z))
    ensures z == x
  {
  }

  /** The mixer is a bijection on 32-bit words. */
  lemma MixIsABijection(x: bv32)
    ensures Unmix(Mix(x)) == x && Mix(Unmix(x)) == x
  {
    Undone(x);
    Redone(x);
  }

  lemma Undone(x: bv32)
    ensures Unmix(Mix(x)) == x
  {
    hide Folded16, Folded15, Unfolded15, First, FirstBack, Second, SecondBack;
    hide Fold16, Fold15, Unfold15, TimesFirst, OverFirst, TimesSecond, OverSecond;
    var a := TimesFirst(Fold16(x));
    var b := TimesSecond(Fold15(a));
    Fold16Undoes(b, Fold16(b), Fold16(Fold16(b)));
    SecondUndoes(Fold15(a), b, OverSecond(b));
    Fold15Undoes(a, Fold15(a), Unfold15(Fold15(a)));
    FirstUndoes(Fold16(x), a, OverFirst(a));
    Fold16Undoes(x, Fold16(x), Fold16(Fold16(x)));
  }

  lemma Redone(x: bv32)
    ensures Mix(Unmix(x)) == x
  {
    hide Folded16, Folded15, Unfolded15, First, FirstBack, Second, SecondBack;
    hide Fold16, Fold15, Unfold15, TimesFirst, OverFirst, TimesSecond, OverSecond;
    var b := OverSecond(Fold16(x));
    var a := OverFirst(Unfold15(b));
    Fold16Undoes(a, Fold16(a), Fold16(Fold16(a)));
    FirstUndoes(Unfold15(b), a, TimesFirst(a));
    Unfold15Undoes(b, Unfold15(b), Fold15(Unfold15(b)));
    SecondUndoes(Fold16(x), b, TimesSecond(b));
    Fold16Undoes(x, Fold16(x), Fold16(Fold16(x)));
  }

  // ---------- rings ----------

  lemma Congruent(a: int, b: int, m: int) returns (k: int)
    requires 0 < m && a % m == b % m
    ensures a - b == k * m
  {
    k := a / m - b / m;
  }

  lemma SameResidue(a: int, b: int, k: int, m: int)
    requires 0 < m && a - b == k * m
    ensures a % m == b % m
  {
    var q, r := b / m, b % m;
    assert a == (k + q) * m + r;
    MultipleResidue(k + q, r, m);
  }

  lemma TicksToSteps(e: int, d: int, k: int, gap: int, q: int, ring: int, stride: int, inverse: int, turns: int)
    requires stride * inverse == turns * ring + 1
    requires gap == d * inverse - q * ring && e * stride - d == k * ring
    ensures e - gap == (k * inverse - turns * e + q) * ring
  {
    calc {
      (k * inverse - turns * e + q) * ring;
      (k * ring) * inverse - turns * e * ring + q * ring;
      (e * stride - d) * inverse - turns * e * ring + q * ring;
      e * (stride * inverse) - d * inverse - turns * e * ring + q * ring;
      e - d * inverse + q * ring;
    }
  }

  lemma StepsToTicks(e: int, d: int, k: int, gap: int, q: int, ring: int, stride: int, inverse: int, turns: int)
    requires stride * inverse == turns * ring + 1
    requires gap == d * inverse - q * ring && e - gap == k * ring
    ensures e * stride - d == (k * stride + d * turns - q * stride) * ring
  {
    calc {
      e * stride - d;
      (d * inverse - q * ring + k * ring) * stride - d;
      d * (stride * inverse) - q * ring * stride + k * ring * stride - d;
      (k * stride + d * turns - q * stride) * ring;
    }
  }

  /** How many strides from `a` lead to `b` around a ring. */
  function Ahead(a: int, b: int, inverse: int, ring: int): (gap: int)
    requires 0 < ring
    ensures 0 <= gap < ring
  {
    (b - a) * inverse % ring
  }

  lemma StepsAreLevel(i: int, x: int, j: int, y: int, d: int, k: int,
      ring: int, stride: int, inverse: int, turns: int)
    requires 0 < ring && stride * inverse == turns * ring + 1
    requires x == i * stride && y == j * stride && x - y - d == k * ring
    ensures i % ring == (d * inverse % ring + j) % ring
  {
    var q, gap := d * inverse / ring, d * inverse % ring;
    assert (i - j) * stride == x - y;
    TicksToSteps(i - j, d, k, gap, q, ring, stride, inverse, turns);
    SameResidue(i, gap + j, k * inverse - turns * (i - j) + q, ring);
  }

  lemma TicksAreLevel(a: int, i: int, x: int, b: int, j: int, y: int, k: int,
      ring: int, stride: int, inverse: int, turns: int)
    requires 0 < ring && stride * inverse == turns * ring + 1
    requires x == i * stride && y == j * stride && i - ((b - a) * inverse % ring + j) == k * ring
    ensures (a + x) % ring == (b + y) % ring
  {
    var d := b - a;
    var q, gap := d * inverse / ring, d * inverse % ring;
    assert (i - j) * stride == x - y;
    StepsToTicks(i - j, d, k, gap, q, ring, stride, inverse, turns);
    SameResidue(a + x, b + y, k * stride + d * turns - q * stride, ring);
  }

  /** Walks of one stride around a ring are level exactly when their step counts differ by the gap. */
  lemma LevelAtTheGap(a: int, i: int, b: int, j: int, ring: int, stride: int, inverse: int, turns: int)
    requires 0 < ring && stride * inverse == turns * ring + 1
    ensures (a + i * stride) % ring == (b + j * stride) % ring <==> i % ring == (Ahead(a, b, inverse, ring) + j) % ring
  {
    if (a + i * stride) % ring == (b + j * stride) % ring {
      var k := Congruent(a + i * stride, b + j * stride, ring);
      StepsAreLevel(i, i * stride, j, j * stride, b - a, k, ring, stride, inverse, turns);
    }
    if i % ring == (Ahead(a, b, inverse, ring) + j) % ring {
      var k := Congruent(i, Ahead(a, b, inverse, ring) + j, ring);
      TicksAreLevel(a, i, i * stride, b, j, j * stride, k, ring, stride, inverse, turns);
    }
  }

  /** Two arcs of a ring, of `n` and `m` steps, the second beginning `gap` steps after the first, overlap. */
  predicate Overlap(n: int, m: int, gap: int, ring: int) {
    0 < n && 0 < m && (gap < n || ring < gap + m)
  }

  /** Steps at which two arcs are level. */
  predicate Level(i: int, j: int, gap: int, ring: int)
    requires 0 < ring
  {
    i % ring == (gap + j) % ring
  }

  lemma LevelOverlaps(n: int, m: int, gap: int, ring: int, i: int, j: int)
    requires 0 <= gap < ring && 0 <= i < n && 0 <= j < m && Level(i, j, gap, ring)
    ensures Overlap(n, m, gap, ring)
  {
    if n <= gap && gap + m <= ring {
      MultipleResidue(0, i, ring);
      MultipleResidue(0, gap + j, ring);
    }
  }

  lemma OverlapLevels(n: int, m: int, gap: int, ring: int) returns (i: nat, j: nat)
    requires 0 <= gap < ring && Overlap(n, m, gap, ring)
    ensures i < n && j < m && Level(i, j, gap, ring)
  {
    if gap < n {
      i, j := gap, 0;
    } else {
      i, j := 0, ring - gap;
      MultipleResidue(1, 0, ring);
      MultipleResidue(0, 0, ring);
    }
  }

  ghost predicate Meet(left: seq<int>, right: seq<int>) {
    exists v :: v in left && v in right
  }

  lemma MeetAt(left: seq<int>, right: seq<int>, i: nat, j: nat)
    requires i < |left| && j < |right| && left[i] == right[j]
    ensures Meet(left, right)
  {
    assert left[i] in left && right[j] in right;
  }

  lemma MeetingPlaces(left: seq<int>, right: seq<int>) returns (i: nat, j: nat)
    requires Meet(left, right)
    ensures i < |left| && j < |right| && left[i] == right[j]
  {
    var v :| v in left && v in right;
    i :| 0 <= i < |left| && left[i] == v;
    j :| 0 <= j < |right| && right[j] == v;
  }

  // ---------- handicap and defense seeds ----------

  const WORD_STRIDE := 0x9e37_79b9

  predicate Strides(x: bv32, y: bv32) { y == x * 0x9e37_79b9 }

  function Stride(x: bv32): (y: bv32) ensures Strides(x, y) { x * 0x9e37_79b9 }

  function HandicapSeed(start: int, index: nat): bv32 {
    Mix(Add(Word(start), Stride(Word(index))))
  }

  /** A word as the number the arena stores. */
  function Number(w: bv32): (n: int)
    ensures 0 <= n < WORDS
  {
    w as int
  }

  function HandicapSeeds(count: int, start: int): (seeds: seq<int>)
    ensures |seeds| == if count < 0 then 0 else count
  {
    seq(if count < 0 then 0 else count, i requires 0 <= i => Number(HandicapSeed(start, i)))
  }

  function StrideThenAdd(x: bv32, v: bv32): bv32 { x * 0x9e37_79b9 + v }

  function StrideBoth(x: bv32, y: bv32): bv32 { x * 0x9e37_79b9 + y * 0x9e37_79b9 }

  lemma StrideOfSum(x: bv32, y: bv32, sum: bv32)
    requires Added(x, y, sum)
    ensures Strides(sum, StrideBoth(x, y))
  {
  }

  lemma SecondStride(x: bv32, y: bv32, v: bv32)
    requires Strides(y, v)
    ensures StrideThenAdd(x, v) == StrideBoth(x, y)
  {
  }

  lemma FirstStride(x: bv32, u: bv32, v: bv32)
    requires Strides(x, u)
    ensures Added(u, v, StrideThenAdd(x, v))
  {
  }

  lemma OneStride(x: bv32, y: bv32, z: bv32)
    requires Strides(x, y) && Strides(x, z)
    ensures y == z
  {
  }

  lemma StrideAdds(x: bv32, y: bv32)
    ensures Stride(Add(x, y)) == Add(Stride(x), Stride(y))
  {
    hide *;
    StrideOfSum(x, y, Add(x, y));
    OneStride(Add(x, y), Stride(Add(x, y)), StrideBoth(x, y));
    SecondStride(x, y, Stride(y));
    FirstStride(x, Stride(x), Stride(y));
    OneSum(Stride(x), Stride(y), Add(Stride(x), Stride(y)), StrideThenAdd(x, Stride(y)));
  }

  lemma {:induction false} NoDigits(left: nat, place: bv32)
    ensures Digits(0, left, place) == 0
  {
    if left > 0 { NoDigits(left - 1, place << 1); }
  }

  lemma SmallWords()
    ensures Word(0) == 0 && Stride(0) == 0 && Word(1) == 1
  {
    NoDigits(32, 1);
    NoDigits(31, 2);
  }

  lemma WordOfStride()
    ensures Word(WORD_STRIDE) == Stride(1)
  {
    assert Digits(0x2, 2, 0x4000_0000) == 0x8000_0000;
    assert Digits(0x9, 4, 0x1000_0000) == 0x9000_0000;
    assert Digits(0x27, 6, 0x400_0000) == 0x9c00_0000;
    assert Digits(0x9e, 8, 0x100_0000) == 0x9e00_0000;
    assert Digits(0x278, 10, 0x40_0000) == 0x9e00_0000;
    assert Digits(0x9e3, 12, 0x10_0000) == 0x9e30_0000;
    assert Digits(0x278d, 14, 0x4_0000) == 0x9e34_0000;
    assert Digits(0x9e37, 16, 0x1_0000) == 0x9e37_0000;
    assert Digits(0x2_78dd, 18, 0x4000) == 0x9e37_4000;
    assert Digits(0x9_e377, 20, 0x1000) == 0x9e37_7000;
    assert Digits(0x27_8dde, 22, 0x400) == 0x9e37_7800;
    assert Digits(0x9e_3779, 24, 0x100) == 0x9e37_7900;
    assert Digits(0x278_dde6, 26, 0x40) == 0x9e37_7980;
    assert Digits(0x9e3_779b, 28, 0x10) == 0x9e37_79b0;
    assert Digits(0x278d_de6e, 30, 0x4) == 0x9e37_79b8;
  }

  /** The multiplication in the mixer's argument is a walk of one stride per game. */
  lemma {:induction false} StrideOfWord(index: nat)
    ensures Stride(Word(index)) == Word(index * WORD_STRIDE)
  {
    hide Word, Stride, Strides, Add, Added;
    SmallWords();
    if index > 0 {
      StrideOfWord(index - 1);
      WordOfStride();
      WordsAdd(index - 1, 1);
      StrideAdds(Word(index - 1), Word(1));
      WordsAdd((index - 1) * WORD_STRIDE, WORD_STRIDE);
    }
  }

  /** Two entries of any two streams agree exactly when their steps differ by the gap of the starts. */
  lemma HandicapsAgree(s: int, i: nat, t: int, j: nat)
    ensures HandicapSeed(s, i) == HandicapSeed(t, j) <==> Level(i, j, HandicapGap(s, t), WORDS)
  {
    hide Word, Mix, Unmix, Stride, Strides, Add, Added, Ahead;
    StrideOfWord(i);
    StrideOfWord(j);
    WordsAdd(s, i * WORD_STRIDE);
    WordsAdd(t, j * WORD_STRIDE);
    var x, y := s + i * WORD_STRIDE, t + j * WORD_STRIDE;
    WordsAreResidues(x, y);
    LevelAtTheGap(s, i, t, j, WORDS, WORD_STRIDE, WORD_INVERSE, WORD_TURNS);
    MixIsABijection(Word(x));
    MixIsABijection(Word(y));
  }

  const WORD_INVERSE := 0x144c_bc89
  const WORD_TURNS := 210_485_888

  /** How many games into the first stream the second one begins. */
  function HandicapGap(s: int, t: int): (gap: int)
    ensures 0 <= gap < WORDS
  {
    Ahead(s, t, WORD_INVERSE, WORDS)
  }

  /** Two entries of a stream agree exactly when their positions are congruent modulo 2^32. */
  lemma HandicapsRepeatEveryWord(start: int, i: nat, j: nat)
    ensures HandicapSeed(start, i) == HandicapSeed(start, j) <==> i % WORDS == j % WORDS
  {
    hide HandicapSeed;
    HandicapsAgree(start, i, start, j);
  }

  function WordOf(n: int): bv32
    requires 0 <= n < WORDS
  {
    n as bv32
  }

  lemma WordOfNumber(w: bv32)
    ensures WordOf(Number(w)) == w
  {
  }

  lemma SameNumberSameWord(x: bv32, y: bv32)
    requires Number(x) == Number(y)
    ensures x == y
  {
    hide WordOf, Number;
    WordOfNumber(x);
    WordOfNumber(y);
  }

  /** Handicap and defense seeds are pairwise distinct exactly up to 2^32 games, from every start. */
  lemma HandicapsAreDistinct(count: int, start: int)
    ensures Distinct(HandicapSeeds(count, start)) <==> count <= WORDS
  {
    hide HandicapSeed, Number;
    var seeds := HandicapSeeds(count, start);
    if count <= WORDS {
      forall i, j | 0 <= i < j < |seeds| ensures seeds[i] != seeds[j] {
        HandicapsRepeatEveryWord(start, i, j);
        if seeds[i] == seeds[j] {
          SameNumberSameWord(HandicapSeed(start, i), HandicapSeed(start, j));
        }
      }
    } else {
      HandicapsRepeatEveryWord(start, 0, WORDS);
      assert seeds[0] == seeds[WORDS];
    }
  }

  /** Two handicap streams share a seed exactly when, as arcs of the ring of words, they overlap. */
  lemma HandicapsMeetAsArcs(n: int, s: int, m: int, t: int)
    ensures Meet(HandicapSeeds(n, s), HandicapSeeds(m, t)) <==> Overlap(n, m, HandicapGap(s, t), WORDS)
  {
    hide HandicapSeed, Number, HandicapGap, Level, Overlap, Meet;
    var left, right, gap := HandicapSeeds(n, s), HandicapSeeds(m, t), HandicapGap(s, t);
    if Meet(left, right) {
      var i, j := MeetingPlaces(left, right);
      SameNumberSameWord(HandicapSeed(s, i), HandicapSeed(t, j));
      HandicapsAgree(s, i, t, j);
      LevelOverlaps(n, m, gap, WORDS, i, j);
    }
    if Overlap(n, m, gap, WORDS) {
      var i, j := OverlapLevels(n, m, gap, WORDS);
      HandicapsAgree(s, i, t, j);
      MeetAt(left, right, i, j);
    }
  }

  // ---------- playtime seeds ----------

  const PERIOD := 150_000
  const STRIDE := 104_729
  const CYCLE_MS := 200
  const INVERSE := 95_369
  const TURNS := 66_586

  function StartTick(start: int): int {
    start / CYCLE_MS
  }

  /** The tick an entry stands for, before it is reduced to the period. */
  function Tick(start: int, index: int): int {
    StartTick(start) + index * STRIDE
  }

  function PlaytimeSeed(start: int, index: nat): int {
    Remainder(Tick(start, index), PERIOD) * CYCLE_MS
  }

  function PlaytimeSeeds(count: int, start: int): (seeds: seq<int>)
    ensures |seeds| == if count < 0 then 0 else count
  {
    seq(if count < 0 then 0 else count, i requires 0 <= i => PlaytimeSeed(start, i))
  }

  /** The game phase a playtime seed selects. */
  function Phase(seed: int): int {
    seed / CYCLE_MS % PERIOD
  }

  /** The phase of an entry, whatever the sign of the start. */
  lemma PlaytimePhase(start: int, i: nat)
    ensures Phase(PlaytimeSeed(start, i)) == Tick(start, i) % PERIOD
  {
    hide Tick;
    RemainderIsCongruent(Tick(start, i), PERIOD);
  }

  /** A seed is its phase's own time, or, before time zero and off the phase zero, the time one period earlier. */
  lemma SeedOfPhase(start: int, i: nat)
    ensures var phase := Phase(PlaytimeSeed(start, i));
      PlaytimeSeed(start, i) == (if Tick(start, i) < 0 && phase != 0 then phase - PERIOD else phase) * CYCLE_MS
  {
    hide Phase, Tick;
    PlaytimePhase(start, i);
    RemainderBelowZero(Tick(start, i));
  }

  lemma RemainderBelowZero(a: int)
    ensures Remainder(a, PERIOD) == if a < 0 && a % PERIOD != 0 then a % PERIOD - PERIOD else a % PERIOD
  {
  }

  /** How many games into the first stream the second one begins. */
  function Gap(s: int, t: int): (gap: int)
    ensures 0 <= gap < PERIOD
  {
    Ahead(StartTick(s), StartTick(t), INVERSE, PERIOD)
  }

  /** Two entries of any two streams share a phase exactly when their steps differ by the gap of the starts. */
  lemma PhasesAgree(s: int, i: nat, t: int, j: nat)
    ensures Phase(PlaytimeSeed(s, i)) == Phase(PlaytimeSeed(t, j)) <==> Level(i, j, Gap(s, t), PERIOD)
  {
    hide Phase, PlaytimeSeed;
    PlaytimePhase(s, i);
    PlaytimePhase(t, j);
    LevelAtTheGap(StartTick(s), i, StartTick(t), j, PERIOD, STRIDE, INVERSE, TURNS);
  }

  /** They share a seed exactly when moreover the phase is zero or both lie on the same side of time zero. */
  lemma SeedsAgree(s: int, i: nat, t: int, j: nat)
    ensures PlaytimeSeed(s, i) == PlaytimeSeed(t, j)
      <==> (Level(i, j, Gap(s, t), PERIOD)
            && (Tick(s, i) % PERIOD == 0 || (Tick(s, i) < 0 <==> Tick(t, j) < 0)))
  {
    hide PlaytimeSeed, Level, Gap, Tick;
    SeedOfPhase(s, i);
    SeedOfPhase(t, j);
    PlaytimePhase(s, i);
    PlaytimePhase(t, j);
    PhasesAgree(s, i, t, j);
  }

  /** Positions of one stream share a phase exactly when they are a period apart. */
  lemma PhasesRepeatEveryPeriod(start: int, i: nat, j: nat)
    ensures Phase(PlaytimeSeed(start, i)) == Phase(PlaytimeSeed(start, j)) <==> i % PERIOD == j % PERIOD
  {
    hide Phase, PlaytimeSeed;
    PhasesAgree(start, i, start, j);
  }

  /** Up to a full period the playtime seeds are distinct, even as phases, from every start. */
  lemma PlaytimesAreDistinct(count: int, start: int)
    requires count <= PERIOD
    ensures Distinct(PlaytimeSeeds(count, start))
  {
    hide PlaytimeSeed, Phase;
    var seeds := PlaytimeSeeds(count, start);
    forall i, j | 0 <= i < j < |seeds| ensures seeds[i] != seeds[j] {
      PhasesRepeatEveryPeriod(start, i, j);
    }
  }

  /** From a start at or after time zero they are distinct exactly up to a full period. */
  lemma PlaytimesRepeat(count: int, start: int)
    requires 0 <= start
    ensures Distinct(PlaytimeSeeds(count, start)) <==> count <= PERIOD
  {
    hide PlaytimeSeed;
    if count <= PERIOD {
      PlaytimesAreDistinct(count, start);
    } else {
      SeedsAgree(start, 0, start, PERIOD);
      assert PlaytimeSeeds(count, start)[0] == PlaytimeSeeds(count, start)[PERIOD];
    }
  }

  /** Where a phase first occurs in a stream. */
  function Position(start: int, phase: int): (i: int)
    ensures 0 <= i < PERIOD
  {
    Ahead(StartTick(start), phase, INVERSE, PERIOD)
  }

  lemma PositionFinds(start: int, phase: int, i: nat)
    requires 0 <= phase < PERIOD
    ensures Phase(PlaytimeSeed(start, i)) == phase <==> i % PERIOD == Position(start, phase)
  {
    hide Phase, PlaytimeSeed;
    PlaytimePhase(start, i);
    LevelAtTheGap(StartTick(start), i, phase, 0, PERIOD, STRIDE, INVERSE, TURNS);
  }

  /** A full period of games visits every phase of the ring, from every start. */
  lemma PlaytimesCoverTheRing(count: int, start: int, phase: int)
    requires PERIOD <= count && 0 <= phase < PERIOD
    ensures exists i | 0 <= i < |PlaytimeSeeds(count, start)| :: Phase(PlaytimeSeeds(count, start)[i]) == phase
  {
    hide Phase, PlaytimeSeed;
    PositionFinds(start, phase, Position(start, phase));
    assert PlaytimeSeeds(count, start)[Position(start, phase)] == PlaytimeSeed(start, Position(start, phase));
  }

  /** From a start at or after time zero a seed is its phase's own time. */
  lemma PlaytimeIsItsPhase(start: int, i: nat)
    requires 0 <= start
    ensures 0 <= PlaytimeSeed(start, i) < PERIOD * CYCLE_MS
    ensures PlaytimeSeed(start, i) == Phase(PlaytimeSeed(start, i)) * CYCLE_MS
  {
  }

  // ---------- when two playtime streams meet ----------

  ghost predicate MeetInPhase(left: seq<int>, right: seq<int>) {
    exists i, j | 0 <= i < |left| && 0 <= j < |right| :: Phase(left[i]) == Phase(right[j])
  }

  /** Two playtime streams share a phase exactly when, as arcs of the ring, they overlap. */
  lemma PhasesMeetAsArcs(n: int, s: int, m: int, t: int)
    ensures MeetInPhase(PlaytimeSeeds(n, s), PlaytimeSeeds(m, t)) <==> Overlap(n, m, Gap(s, t), PERIOD)
  {
    hide PlaytimeSeed, Phase, Gap, Level, Overlap;
    var left, right, gap := PlaytimeSeeds(n, s), PlaytimeSeeds(m, t), Gap(s, t);
    if MeetInPhase(left, right) {
      var i, j :| 0 <= i < |left| && 0 <= j < |right| && Phase(left[i]) == Phase(right[j]);
      PhasesAgree(s, i, t, j);
      LevelOverlaps(n, m, gap, PERIOD, i, j);
    }
    if Overlap(n, m, gap, PERIOD) {
      var i, j := OverlapLevels(n, m, gap, PERIOD);
      PhasesAgree(s, i, t, j);
      assert Phase(left[i]) == Phase(right[j]);
    }
  }

  /** How many entries of a stream stand before time zero. */
  function Lead(start: int): (lead: nat)
    ensures forall i: nat :: Tick(start, i) < 0 <==> i < lead
  {
    if 0 <= StartTick(start) then 0 else (STRIDE - 1 - StartTick(start)) / STRIDE
  }

  function Least(a: int, b: int): int {
    if a <= b then a else b
  }

  /** The arcs of two streams overlap before time zero, or after it, or both streams visit the phase zero,
      whose seed is the same on either side. */
  predicate StreamsOverlap(n: int, s: int, m: int, t: int) {
    || Overlap(Least(n, Lead(s)), Least(m, Lead(t)), Gap(s, t), PERIOD)
    || Overlap(n - Lead(s), m - Lead(t), (Gap(s, t) + Lead(t) - Lead(s)) % PERIOD, PERIOD)
    || (Position(s, 0) < n && Position(t, 0) < m)
  }

  lemma Shifted(i: int, j: int, gap: int, p: int, q: int)
    ensures Level(i + p, j + q, gap, PERIOD) <==> Level(i, j, (gap + q - p) % PERIOD, PERIOD)
  {
  }

  lemma MeetingOverlaps(n: int, s: int, m: int, t: int, i: nat, j: nat)
    requires i < n && j < m && PlaytimeSeed(s, i) == PlaytimeSeed(t, j)
    ensures StreamsOverlap(n, s, m, t)
  {
    hide PlaytimeSeed, Gap, Level, Overlap, Position, Lead, Tick;
    SeedsAgree(s, i, t, j);
    var a, b, gap := Lead(s), Lead(t), Gap(s, t);
    if Tick(s, i) % PERIOD == 0 {
      ZeroFound(s, i);
      PhasesAgree(s, i, t, j);
      PlaytimePhase(s, i);
      PlaytimePhase(t, j);
      ZeroFound(t, j);
    } else if Tick(s, i) < 0 {
      LevelOverlaps(Least(n, a), Least(m, b), gap, PERIOD, i, j);
    } else {
      Shifted(i - a, j - b, gap, a, b);
      LevelOverlaps(n - a, m - b, (gap + b - a) % PERIOD, PERIOD, i - a, j - b);
    }
  }

  lemma ZeroFound(start: int, i: nat)
    requires Tick(start, i) % PERIOD == 0
    ensures Position(start, 0) <= i
  {
    hide PlaytimeSeed, Position, Tick;
    PlaytimePhase(start, i);
    PositionFinds(start, 0, i);
  }

  lemma OverlappingMeets(n: int, s: int, m: int, t: int) returns (i: nat, j: nat)
    requires StreamsOverlap(n, s, m, t)
    ensures i < n && j < m && PlaytimeSeed(s, i) == PlaytimeSeed(t, j)
  {
    hide PlaytimeSeed, Gap, Level, Overlap, Position, Lead, Tick;
    var a, b, gap := Lead(s), Lead(t), Gap(s, t);
    if Overlap(Least(n, a), Least(m, b), gap, PERIOD) {
      i, j := OverlapLevels(Least(n, a), Least(m, b), gap, PERIOD);
    } else if Overlap(n - a, m - b, (gap + b - a) % PERIOD, PERIOD) {
      i, j := OverlapLevels(n - a, m - b, (gap + b - a) % PERIOD, PERIOD);
      Shifted(i, j, gap, a, b);
      i, j := i + a, j + b;
    } else {
      i, j := Position(s, 0), Position(t, 0);
      PositionFinds(s, 0, i);
      PositionFinds(t, 0, j);
      PlaytimePhase(s, i);
      PhasesAgree(s, i, t, j);
    }
    SeedsAgree(s, i, t, j);
  }

  /** Two playtime streams, of any lengths from any starts, share a seed exactly when their arcs overlap. */
  lemma SeedsMeetAsArcs(n: int, s: int, m: int, t: int)
    ensures Meet(PlaytimeSeeds(n, s), PlaytimeSeeds(m, t)) <==> StreamsOverlap(n, s, m, t)
  {
    hide PlaytimeSeed, StreamsOverlap, Meet;
    var left, right := PlaytimeSeeds(n, s), PlaytimeSeeds(m, t);
    if Meet(left, right) {
      var i, j := MeetingPlaces(left, right);
      MeetingOverlaps(n, s, m, t, i, j);
    }
    if StreamsOverlap(n, s, m, t) {
      var i, j := OverlappingMeets(n, s, m, t);
      MeetAt(left, right, i, j);
    }
  }

  /** From starts at or after time zero, sharing a seed and sharing a phase are the same. */
  lemma StreamsMeetAsArcs(n: int, s: int, m: int, t: int)
    requires 0 <= s && 0 <= t
    ensures Meet(PlaytimeSeeds(n, s), PlaytimeSeeds(m, t)) <==> Overlap(n, m, Gap(s, t), PERIOD)
  {
    hide PlaytimeSeed, Phase, Gap, Level, Overlap, Meet;
    var left, right, gap := PlaytimeSeeds(n, s), PlaytimeSeeds(m, t), Gap(s, t);
    if Meet(left, right) {
      var i, j := MeetingPlaces(left, right);
      SeedsAgree(s, i, t, j);
      LevelOverlaps(n, m, gap, PERIOD, i, j);
    }
    if Overlap(n, m, gap, PERIOD) {
      var i, j := OverlapLevels(n, m, gap, PERIOD);
      SeedsAgree(s, i, t, j);
      MeetAt(left, right, i, j);
    }
  }

  /** Before time zero they are not: here one phase has two seeds. */
  lemma NegativeStartHidesAPhase()
    ensures Phase(PlaytimeSeed(-200, 0)) == Phase(PlaytimeSeed(29_999_800, 0))
    ensures PlaytimeSeed(-200, 0) != PlaytimeSeed(29_999_800, 0)
  {
    assert PlaytimeSeed(-200, 0) == -200;
    assert PlaytimeSeed(29_999_800, 0) == 29_999_800;
  }

  // ---------- corpora ----------

  datatype Case = Case(seed: int, handicapSeed: int, defenseSeed: int)

  datatype Corpus = Corpus(opponent: Opponent, cases: seq<Case>)

  function SeedPairs(count: int, playtimeStart: int, handicapStart: int, defenseStart: int): (cases: seq<Case>)
    ensures |cases| == if count < 0 then 0 else count
  {
    var seeds := PlaytimeSeeds(count, playtimeStart);
    var handicaps := HandicapSeeds(count, handicapStart);
    var defenses := HandicapSeeds(count, defenseStart);
    seq(|seeds|, i requires 0 <= i < |seeds| => Case(seeds[i], handicaps[i], defenses[i]))
  }

  /** The fixed corpus of a profile: each opponent's streams start at their own offset. */
  function SeedCases(profile: Profile, games: int, playtimeStart: int, handicapStart: int, defenseStart: int):
      (corpora: seq<Corpus>)
    ensures |corpora| == |Opponents(profile)|
  {
    var selected := Opponents(profile);
    seq(|selected|, k requires 0 <= k < |selected| =>
      Corpus(selected[k],
        SeedPairs(games, playtimeStart + k * 20_003, handicapStart + k * 104_729, defenseStart + k * 65_537)))
  }

  /** Where the streams of two games of one corpus agree: the handicap and the defense seeds at positions
      congruent modulo 2^32, the phases at positions congruent modulo the period. */
  lemma CasesAgree(count: int, p: int, h: int, d: int, i: nat, j: nat)
    requires i < |SeedPairs(count, p, h, d)| && j < |SeedPairs(count, p, h, d)|
    ensures var a, b := SeedPairs(count, p, h, d)[i], SeedPairs(count, p, h, d)[j];
      && (a.handicapSeed == b.handicapSeed <==> i % WORDS == j % WORDS)
      && (a.defenseSeed == b.defenseSeed <==> i % WORDS == j % WORDS)
      && (Phase(a.seed) == Phase(b.seed) <==> i % PERIOD == j % PERIOD)
      && (a.seed == b.seed ==> i % PERIOD == j % PERIOD)
      && (0 <= p ==> (a.seed == b.seed <==> i % PERIOD == j % PERIOD))
  {
    hide PlaytimeSeed, HandicapSeed, Phase, Number;
    PhasesRepeatEveryPeriod(p, i, j);
    SameHandicap(h, i, j);
    SameHandicap(d, i, j);
    if 0 <= p { SeedsAgree(p, i, p, j); }
  }

  lemma SameHandicap(start: int, i: nat, j: nat)
    ensures Number(HandicapSeed(start, i)) == Number(HandicapSeed(start, j)) <==> i % WORDS == j % WORDS
  {
    hide HandicapSeed, Number;
    HandicapsRepeatEveryWord(start, i, j);
    if Number(HandicapSeed(start, i)) == Number(HandicapSeed(start, j)) {
      SameNumberSameWord(HandicapSeed(start, i), HandicapSeed(start, j));
    }
  }

  /** The least number that both 2^32 and the period divide. */
  const LAP := 9_375 * WORDS

  lemma BothRings(i: nat, j: nat)
    ensures i % WORDS == j % WORDS && i % PERIOD == j % PERIOD <==> i % LAP == j % LAP
  {
    if i % WORDS == j % WORDS && i % PERIOD == j % PERIOD {
      var a := Congruent(i, j, WORDS);
      var b := Congruent(i, j, PERIOD);
      SameResidue(i, j, 6_106 * 16 * b - 2_797_340_833 * a, LAP);
    }
    if i % LAP == j % LAP {
      var c := Congruent(i, j, LAP);
      SameResidue(i, j, c * 9_375, WORDS);
      SameResidue(i, j, c * 268_435_456, PERIOD);
    }
  }

  /** No two games of one corpus are the same in all three streams, up to 9,375 * 2^32 games; from a playtime
      start at or after time zero exactly up to that many. */
  lemma CasesAreDistinct(count: int, p: int, h: int, d: int)
    ensures count <= LAP ==> Distinct(SeedPairs(count, p, h, d))
    ensures 0 <= p ==> (Distinct(SeedPairs(count, p, h, d)) <==> count <= LAP)
  {
    hide SeedPairs;
    var cases := SeedPairs(count, p, h, d);
    if count <= LAP {
      forall i, j | 0 <= i < j < |cases| ensures cases[i] != cases[j] {
        CasesAgree(count, p, h, d, i, j);
        BothRings(i, j);
      }
    } else if 0 <= p {
      CasesAgree(count, p, h, d, 0, LAP);
      BothRings(0, LAP);
      assert cases[0] == cases[LAP];
    }
  }
}
