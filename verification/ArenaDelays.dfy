/** The delays of the Go arena's timing model (sim/ipvgobruteforce-arena.ts): what the two probes and the random draws
    can cost. */
module ArenaDelays {
  import opened ArenaTiming

  /** A uniform draw gives each of its `count` values an equal share of [0, 1). */
  lemma UniformShares(draw: real, low: int, count: int, v: int)
    requires 0 < count
    ensures Uniform(draw, low, count) == v
      <==> (v - low) as real <= draw * count as real < (v - low) as real + 1.0
  {
  }

  /** Every value of a uniform draw comes up, the lowest at nought. */
  lemma UniformCovers(low: int, count: int, v: int) returns (draw: real)
    requires 0 < count && low <= v < low + count
    ensures 0.0 <= draw < 1.0 && Uniform(draw, low, count) == v && (v == low ==> draw == 0.0)
  {
    draw := (v - low) as real / count as real;
    Share((v - low) as real, count as real, draw);
    UniformShares(draw, low, count, v);
  }

  lemma Share(a: real, n: real, draw: real)
    requires 0.0 <= a < n && draw == a / n
    ensures draw * n == a && 0.0 <= draw < 1.0 && (a == 0.0 ==> draw == 0.0)
  {
    Proportion(draw, n, a);
  }

  lemma Proportion(draw: real, n: real, a: real)
    requires 0.0 < n && draw * n == a
    ensures draw < 0.0 ==> a < 0.0
    ensures 1.0 <= draw ==> n <= a
    ensures a == 0.0 ==> draw == 0.0
  {
  }

  /** Ordinary processing takes 5 to 90 ms: the probes are the two ends, and a draw can take every value between. */
  lemma ProcessingRange(ms: int, any: real) returns (draw: real)
    requires 5 <= ms <= 90
    ensures Processing(Minimum, any) == 5 && Processing(Maximum, any) == 90
    ensures 0.0 <= draw < 1.0 && Processing(Random, draw) == ms
  {
    draw := UniformCovers(5, 86, ms);
  }

  /** A reply begins 0 to 199 ms into an engine cycle. */
  lemma OffsetRange(ms: int, any: real) returns (draw: real)
    requires 0 <= ms <= 199
    ensures EngineOffset(Minimum, any) == 0 && EngineOffset(Maximum, any) == 199
    ensures 0.0 <= draw < 1.0 && EngineOffset(Random, draw) == ms
  {
    draw := UniformCovers(0, 200, ms);
  }

  /** Bonus-time processing takes 5 to 50 ms. */
  lemma AcceleratedRange(ms: int, any: real) returns (draw: real)
    requires 5 <= ms <= 50
    ensures AcceleratedProcessing(Minimum, any) == 5 && AcceleratedProcessing(Maximum, any) == 50
    ensures 0.0 <= draw < 1.0 && AcceleratedProcessing(Random, draw) == ms
  {
    draw := UniformCovers(5, 46, ms);
  }

  /** A controlled reply's processing takes 5 ms to the whole drift budget of 20. */
  lemma ControlledRange(ms: int, any: real) returns (draw: real)
    requires 5 <= ms <= 20
    ensures ControlledProcessing(Minimum, any) == 5 && ControlledProcessing(Maximum, any) == 20
    ensures 0.0 <= draw < 1.0 && ControlledProcessing(Random, draw) == ms
  {
    draw := UniformCovers(5, 16, ms);
  }

  /** An ordinary reply takes the whole cycles of its offset, wait and processing, and never less than one: so never
      less than under the quick probe and never more than under the slow one. */
  lemma OrdinaryBounds(timing: Timing, processingDraw: real, offsetDraw: real, waitMs: int, any: real)
    requires 0.0 <= processingDraw < 1.0 && 0.0 <= offsetDraw < 1.0 && 0 <= waitMs
    ensures var (ticks, total) := (OrdinaryTicks(timing, processingDraw, offsetDraw, waitMs),
        EngineOffset(timing, offsetDraw) + waitMs + Processing(timing, processingDraw));
      if total < 400 then ticks == 1 else ticks * 200 <= total < (ticks + 1) * 200
    ensures (if waitMs + 5 < 400 then 1 else (waitMs + 5) / 200)
      == OrdinaryTicks(Minimum, any, any, waitMs)
      <= OrdinaryTicks(timing, processingDraw, offsetDraw, waitMs)
      <= OrdinaryTicks(Maximum, any, any, waitMs)
      == (if waitMs + 289 < 400 then 1 else (waitMs + 289) / 200)
  {
    OrdinaryRanges(timing, processingDraw, offsetDraw);
  }

  /** A stone costs its placement on top of the sleeps: 200 ms, or 40 while bonus cycles are stored. */
  lemma StoneCosts(clock: GameClock, reply: Reply)
    ensures clock.WaitOf(reply.(places := false)) == reply.sleepsMs
    ensures clock.WaitOf(reply.(places := true))
      == reply.sleepsMs + if clock.bonusTime && 1 <= reply.storedCycles then 40 else 200
  {
  }
}
