/** Capacity stranded by restarts, summed over open outages (sim/dnet-farm.ts). */
module RestartLedger {
  import opened Collections

  type Host = string

  /** A host whose resident a restart killed: since when it is charged, and the capacity it strands. */
  datatype Outage = Outage(at: int, usableGb: real)

  function Usable(): Outage -> real {
    (o: Outage) => o.usableGb
  }

  function GbMs(gb: real, ms: int): real {
    gb * ms as real
  }

  /** What an outage is charged if it is closed at `clock`. */
  function Charge(clock: int): Outage -> real {
    (o: Outage) => GbMs(o.usableGb, clock - o.at)
  }

  lemma {:induction false} ChargeGrows(outages: map<Host, Outage>, clock: int, later: int)
    ensures MapSum(outages, Charge(later)) == MapSum(outages, Charge(clock))
      + GbMs(MapSum(outages, Usable()), later - clock)
    decreases |outages|
  {
    hide GbMs, MapSum;
    if outages == map[] {
      NothingOpen(Charge(later));
      NothingOpen(Charge(clock));
      NothingOpen(Usable());
      NoCapacity(later - clock);
    } else {
      var h :| h in outages;
      var rest := outages - {h};
      ChargeGrows(rest, clock, later);
      SumWithout(outages, Charge(later), h);
      SumWithout(outages, Charge(clock), h);
      SumWithout(outages, Usable(), h);
      var o := outages[h];
      MoreTime(o.usableGb, clock - o.at, later - clock);
      MoreCapacity(o.usableGb, MapSum(rest, Usable()), later - clock);
    }
  }

  lemma NothingOpen(f: Outage -> real)
    ensures MapSum<Host, Outage>(map[], f) == 0.0
  {
  }

  lemma NoCapacity(ms: int)
    ensures GbMs(0.0, ms) == 0.0
  {
  }

  lemma NoTime(gb: real)
    ensures GbMs(gb, 0) == 0.0
  {
  }

  lemma MoreTime(gb: real, ms: int, more: int)
    ensures GbMs(gb, ms + more) == GbMs(gb, ms) + GbMs(gb, more)
  {
    assert (ms + more) as real == ms as real + more as real;
  }

  lemma MoreCapacity(gb: real, others: real, ms: int)
    ensures GbMs(gb + others, ms) == GbMs(gb, ms) + GbMs(others, ms)
  {
  }

  /** Closing an outage takes its charge out of the total. */
  lemma CloseOne(outages: map<Host, Outage>, clock: int, name: Host)
    requires name in outages
    ensures |outages - {name}| == |outages| - 1
    ensures MapSum(outages, Charge(clock))
      == MapSum(outages - {name}, Charge(clock)) + GbMs(outages[name].usableGb, clock - outages[name].at)
  {
    hide GbMs, MapSum;
    SumWithout(outages, Charge(clock), name);
    assert (outages - {name}).Keys == outages.Keys - {name};
    assert |outages.Keys - {name}| == |outages.Keys| - 1;
  }

  /** Opening one adds nothing yet. */
  lemma OpenOne(outages: map<Host, Outage>, clock: int, name: Host, usableGb: real)
    requires name !in outages
    ensures var later := outages[name := Outage(clock, usableGb)];
      |later| == |outages| + 1 && MapSum(later, Charge(clock)) == MapSum(outages, Charge(clock))
  {
    hide GbMs, MapSum;
    SumWith(outages, Charge(clock), name, Outage(clock, usableGb));
    NoTime(usableGb);
  }

  ghost predicate AllSince(outages: map<Host, Outage>, clock: int) {
    forall h <- outages :: outages[h].at == clock
  }

  /** Outages stamped now are charged nothing yet. */
  lemma {:induction false} NothingCharged(outages: map<Host, Outage>, clock: int)
    requires AllSince(outages, clock)
    ensures MapSum(outages, Charge(clock)) == 0.0
    decreases |outages|
  {
    if outages != map[] {
      var h :| h in outages;
      NothingCharged(outages - {h}, clock);
      SumWithout(outages, Charge(clock), h);
      NoTime(outages[h].usableGb);
    }
  }

  // ---------- the measured window, slice by slice ----------

  /** One advance of the clock, with what stood while it lasted. */
  datatype Slice = Slice(from: int, until: int, armoured: set<Host>, outages: map<Host, Outage>)

  /** The capacity stranded while a slice lasts. */
  ghost function StrandedGb(slice: Slice): real {
    MapSum(slice.outages, Usable())
  }

  ghost predicate Contiguous(window: seq<Slice>, from: int, until: int) {
    if window == [] then from == until
    else
      var last := window[|window| - 1];
      last.until == until && last.from <= until && Contiguous(window[..|window| - 1], from, last.from)
  }

  ghost function StrandedGbMs(window: seq<Slice>): real {
    if window == [] then 0.0
    else
      var last := window[|window| - 1];
      StrandedGbMs(window[..|window| - 1]) + GbMs(StrandedGb(last), last.until - last.from)
  }

  ghost function ArmouredMs(window: seq<Slice>): int {
    if window == [] then 0
    else
      var last := window[|window| - 1];
      ArmouredMs(window[..|window| - 1]) + |last.armoured| * (last.until - last.from)
  }

  lemma EmptyWindow(clock: int, gb: real)
    ensures Contiguous([], clock, clock) && StrandedGbMs([]) == 0.0 && GbMs(gb, ArmouredMs([])) == 0.0
  {
    NoTime(gb);
  }

  /** One more slice adds its own time and stranded capacity. */
  lemma SliceAdds(window: seq<Slice>, from: int, last: Slice)
    requires Contiguous(window, from, last.from) && last.from <= last.until
    ensures Contiguous(window + [last], from, last.until)
    ensures StrandedGbMs(window + [last]) == StrandedGbMs(window) + GbMs(StrandedGb(last), last.until - last.from)
    ensures ArmouredMs(window + [last]) == ArmouredMs(window) + |last.armoured| * (last.until - last.from)
  {
    hide GbMs, StrandedGb;
    assert (window + [last])[..|window|] == window;
  }
}
