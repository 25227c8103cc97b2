/** What the random stream decides about a host, draw by draw (sim/network.ts). */
module NetworkDraws {
  import opened NetworkGenerator
  import opened Wrappers

  /** Every value of a range has an equal share of the draws, in increasing order. */
  lemma SharesAreEqual(r: real, range: Range, v: int)
    requires 0.0 <= r < 1.0 && range.min <= v <= range.max
    ensures var (n, k) := ((range.max - range.min + 1) as real, (v - range.min) as real);
      RandomInt(r, range) == v <==> k <= r * n < k + 1.0
  {
    var scaled := r * (range.max - range.min + 1) as real;
    assert RandomInt(r, range) == (scaled + range.min as real).Floor;
    assert scaled + range.min as real < v as real + 1.0 <==> scaled < (v - range.min) as real + 1.0;
    assert v as real <= scaled + range.min as real <==> (v - range.min) as real <= scaled;
  }

  /** The address is the first one of the stream that is not taken, and there is none only when all are taken. */
  lemma {:induction false} AddressIsTheFirstFree(values: seq<real>, at: nat, ipOf: real -> string, taken: set<string>,
      k: nat)
    requires at <= k < |values|
    ensures IpFrom(values, at, ipOf, taken) == Some((ipOf(values[k]), k + 1))
      <==> (ipOf(values[k]) !in taken && forall j | at <= j < k :: ipOf(values[j]) in taken)
    ensures IpFrom(values, at, ipOf, taken).None? ==> ipOf(values[k]) in taken
    decreases k - at
  {
    if ipOf(values[at]) in taken {
      if at < k {
        AddressIsTheFirstFree(values, at + 1, ipOf, taken, k);
      } else {
        NeverBefore(values, at + 1, ipOf, taken);
      }
    }
  }

  lemma {:induction false} NeverBefore(values: seq<real>, at: nat, ipOf: real -> string, taken: set<string>)
    ensures IpFrom(values, at, ipOf, taken).Some? ==> at < IpFrom(values, at, ipOf, taken).value.1 <= |values|
    decreases |values| - at
  {
    if at < |values| {
      NeverBefore(values, at + 1, ipOf, taken);
    }
  }

  predicate Draws(field: Field) { field.range.Some? && field.randomized }

  /** How many of the first `n` fields take a draw. */
  function DrawsUpTo(fields: seq<Field>, n: nat): nat
    requires n <= |fields|
  {
    if n == 0 then 0 else DrawsUpTo(fields, n - 1) + if Draws(fields[n - 1]) then 1 else 0
  }

  /** A field without a range is its fallback, a fixed one the low end of its range, a rolled one the share its own
      draw falls in; the draws are taken in field order, one for each rolled field. */
  lemma {:induction false} StatsByDraw(values: seq<real>, at: nat, fields: seq<Field>, i: nat)
    requires at <= |values| && i < |fields|
    ensures var (stats, before) := (StatsFrom(values, at, fields), at + DrawsUpTo(fields, i));
      && (stats.Some? <==> at + DrawsUpTo(fields, |fields|) <= |values|)
      && (stats.Some? ==> |stats.value.0| == |fields| && stats.value.1 == at + DrawsUpTo(fields, |fields|))
      && (stats.Some? && fields[i].range.None? ==> stats.value.0[i] == fields[i].fallback)
      && (stats.Some? && fields[i].range.Some? && !fields[i].randomized ==>
            stats.value.0[i] == fields[i].range.value.min)
      && (stats.Some? && Draws(fields[i]) ==>
            before < |values| && stats.value.0[i] == RandomInt(values[before], fields[i].range.value))
    decreases |fields|
  {
    hide RandomInt;
    var last := |fields| - 1;
    var rest := fields[..last];
    DrawsOfPrefix(fields, last, last);
    DrawsOfPrefix(fields, last, if i < last then i else last);
    if last == 0 {
      assert StatsFrom(values, at, rest) == Some(([], at));
    } else {
      StatsByDraw(values, at, rest, if i < last then i else 0);
    }
  }

  lemma {:induction false} DrawsOfPrefix(fields: seq<Field>, m: nat, n: nat)
    requires n <= m <= |fields|
    ensures DrawsUpTo(fields[..m], n) == DrawsUpTo(fields, n)
    ensures n + 1 <= |fields| ==> DrawsUpTo(fields, n) <= DrawsUpTo(fields, n + 1)
  {
    if 0 < n {
      DrawsOfPrefix(fields, m, n - 1);
    }
  }

  /** Cores: one below layer one, without a draw; otherwise an equal share of the upper half of the layer. */
  lemma CoresByDraw(values: seq<real>, at: nat, coreLayer: int, cores: int)
    requires at < |values| && 0.0 <= values[at] < 1.0
    requires 0 < coreLayer ==> (coreLayer + 1) / 2 <= cores <= coreLayer
    ensures coreLayer <= 0 ==> CoresFrom(values, at, coreLayer) == Some((1, at))
    ensures 0 < coreLayer ==> (
      var (low, n) := ((coreLayer + 1) / 2, (coreLayer / 2 + 1) as real);
      CoresFrom(values, at, coreLayer) == Some((cores, at + 1)) <==>
      (cores - low) as real <= values[at] * n < (cores - low) as real + 1.0)
  {
    if 0 < coreLayer {
      SharesAreEqual(values[at], Range((coreLayer + 1) / 2, coreLayer), cores);
      assert coreLayer - (coreLayer + 1) / 2 == coreLayer / 2;
    }
  }
}
