/** Facts about sets, duplicate-free lists and sums over maps. */
module Collections {

  ghost predicate Distinct<T>(s: seq<T>) {
    forall i, j | 0 <= i < j < |s| :: s[i] != s[j]
  }

  lemma {:induction false} SmallerSubset<T>(a: set<T>, b: set<T>)
    requires a <= b
    ensures |a| <= |b|
  {
    if a != {} {
      var x :| x in a;
      SmallerSubset(a - {x}, b - {x});
    }
  }

  lemma DisjointUnion<T>(a: set<T>, b: set<T>)
    requires a !! b
    ensures |a + b| == |a| + |b|
  {
  }

  lemma Member<T>(s: set<T>) returns (x: T)
    requires s != {}
    ensures x in s
  {
    x :| x in s;
  }

  lemma SubsetOfEqualSize<T>(a: set<T>, b: set<T>)
    requires a <= b && |a| == |b|
    ensures a == b
  {
    if x :| x in b && x !in a {
      SmallerSubset(a, b - {x});
    }
  }

  /** A list has as many different elements as places exactly when it repeats none. */
  lemma {:induction false} SizeOfElements<T>(s: seq<T>)
    ensures |(set v | v in s)| <= |s|
    ensures |(set v | v in s)| == |s| <==> Distinct(s)
  {
    if s != [] {
      var rest, last := s[..|s| - 1], s[|s| - 1];
      SizeOfElements(rest);
      assert s == rest + [last];
      assert (set v | v in s) == (set v | v in rest) + {last};
      if last in rest {
        var i :| 0 <= i < |rest| && rest[i] == last;
        assert s[i] == s[|s| - 1];
        assert (set v | v in s) == (set v | v in rest);
      }
    }
  }

  /** A quantity summed over the entries of a map. */
  ghost function MapSum<K, V>(m: map<K, V>, f: V -> real): real {
    if m == map[] then 0.0
    else
      var k :| k in m;
      f(m[k]) + MapSum(m - {k}, f)
  }

  /** The sum does not depend on the order in which entries are taken. */
  lemma {:induction false} SumWithout<K, V>(m: map<K, V>, f: V -> real, k: K)
    requires k in m
    ensures MapSum(m, f) == f(m[k]) + MapSum(m - {k}, f)
    decreases |m|
  {
    var g :| g in m && MapSum(m, f) == f(m[g]) + MapSum(m - {g}, f);
    if g != k {
      SumWithout(m - {g}, f, k);
      SumWithout(m - {k}, f, g);
      assert m - {g} - {k} == m - {k} - {g};
    }
  }

  lemma SumWith<K, V>(m: map<K, V>, f: V -> real, k: K, v: V)
    requires k !in m
    ensures MapSum(m[k := v], f) == f(v) + MapSum(m, f)
  {
    SumWithout(m[k := v], f, k);
    assert m[k := v] - {k} == m;
  }
}
