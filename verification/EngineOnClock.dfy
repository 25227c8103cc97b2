/** The engine sharing one clock with arbitrary other events: stopped at any horizon, it has
 * processed exactly the whole cycles that fit before it. */
module EngineOnClock {
  import opened Scheduler
  import opened GameEngine

  /** The timebase after the engine's ticks among the executed events. */
  ghost function After(start: Timebase, trace: seq<Event>, tickFn: int): Timebase {
    if trace == [] then start
    else
      var last := trace[|trace| - 1];
      var before := After(start, trace[..|trace| - 1], tickFn);
      if last.fn == tickFn then Tick(before, last.time).0 else before
  }

  ghost predicate Schedules(op: Op, tickFn: int) {
    !op.Cancel? && op.fn == tickFn
  }

  /** The callbacks contain this engine: its tick ends by rescheduling itself as `start` does,
      whatever its subsystems did first, and nobody else schedules under its label. */
  ghost predicate RunsEngine(react: Callbacks, start: Timebase, tickFn: int) {
    forall trace: seq<Event> | trace != [] ::
      var ops := react(trace).ops;
      var last := trace[|trace| - 1];
      if last.fn == tickFn then
        && ops != []
        && ops[|ops| - 1] == In(Finite(Tick(After(start, trace[..|trace| - 1], tickFn), last.time).1), tickFn)
        && (forall op <- ops[..|ops| - 1] :: !Schedules(op, tickFn))
      else
        forall op <- ops :: !Schedules(op, tickFn)
  }

  /** Cancelling a handle that was really issued and is not the engine's pending tick. */
  ghost predicate Spares(s: Sched, op: Op, tickFn: int) {
    op.Cancel? ==> op.id < s.nextId && forall e <- s.live | e.fn == tickFn :: e.id != op.id
  }

  ghost predicate SparesAll(s: Sched, ops: seq<Op>, tickFn: int)
    decreases |ops|
  {
    ops != [] ==> Spares(s, ops[0], tickFn) && SparesAll(Apply(s, ops[0]), ops[1..], tickFn)
  }

  /** Along a whole run, the engine's private handle is never cancelled. */
  ghost predicate NeverStopped(
    s: Sched, trace: seq<Event>, react: Callbacks, until: Goal, horizon: int, bound: nat, tickFn: int)
    requires Valid(s)
    decreases horizon - s.now, bound - s.same
  {
    if until(trace) || !Take(s, horizon, bound).1.Next? then true
    else
      var (s1, taken) := Take(s, horizon, bound);
      TakeValid(s, horizon, bound);
      var trace1 := trace + [taken.event];
      ApplyAllValid(s1, react(trace1).ops);
      && SparesAll(s1, react(trace1).ops, tickFn)
      && (react(trace1).throws
          || NeverStopped(ApplyAll(s1, react(trace1).ops), trace1, react, until, horizon, bound, tickFn))
  }

  /** Exactly one tick is pending, at the boundary after the cycles already processed. */
  ghost predicate OneTickPending(s: Sched, t: Timebase, tickFn: int) {
    && InStep(t) && t.lastUpdate <= s.now
    && (forall id <- s.revoked :: id < s.nextId)
    && (exists e <- s.live :: e.fn == tickFn)
    && (forall e <- s.live | e.fn == tickFn :: e.time == MILLI_PER_CYCLE * (t.cyclesProcessed + 1))
    && (forall a <- s.live, b <- s.live | a.fn == tickFn && b.fn == tickFn :: a == b)
  }

  /** No tick is pending; the state between taking one and rescheduling it. */
  ghost predicate NoTickPending(s: Sched, tickFn: int) {
    && (forall id <- s.revoked :: id < s.nextId)
    && (forall e <- s.live :: e.fn != tickFn)
  }

  lemma {:induction false} OthersKeepTheTick(s: Sched, ops: seq<Op>, t: Timebase, tickFn: int)
    requires Valid(s) && OneTickPending(s, t, tickFn)
    requires SparesAll(s, ops, tickFn) && forall op <- ops :: !Schedules(op, tickFn)
    ensures OneTickPending(ApplyAll(s, ops), t, tickFn)
    decreases |ops|
  {
    if ops != [] {
      ApplyValid(s, ops[0]);
      assert !Schedules(ops[0], tickFn);
      var s1 := Apply(s, ops[0]);
      var e :| e in s.live && e.fn == tickFn;
      assert e in s1.live;
      OthersKeepTheTick(s1, ops[1..], t, tickFn);
    }
  }

  lemma {:induction false} SubsystemsAddNoTick(s: Sched, ops: seq<Op>, tickFn: int)
    requires Valid(s) && NoTickPending(s, tickFn)
    requires SparesAll(s, ops, tickFn) && forall op <- ops :: !Schedules(op, tickFn)
    ensures NoTickPending(ApplyAll(s, ops), tickFn)
    decreases |ops|
  {
    if ops != [] {
      ApplyValid(s, ops[0]);
      assert !Schedules(ops[0], tickFn);
      SubsystemsAddNoTick(Apply(s, ops[0]), ops[1..], tickFn);
    }
  }

  lemma {:induction false} SparesPrefix(s: Sched, ops: seq<Op>, k: nat, tickFn: int)
    requires k <= |ops| && SparesAll(s, ops, tickFn)
    ensures SparesAll(s, ops[..k], tickFn)
    ensures ApplyAll(s, ops) == ApplyAll(ApplyAll(s, ops[..k]), ops[k..])
    decreases |ops|
  {
    if k == 0 {
      assert ops[0..] == ops;
    } else {
      assert ops[..k][0] == ops[0] && ops[..k][1..] == ops[1..][..k - 1] && ops[k..] == ops[1..][k - 1..];
      SparesPrefix(Apply(s, ops[0]), ops[1..], k - 1, tickFn);
    }
  }

  /** The tick reschedules itself exactly one cycle later and stays in step. */
  lemma TickReschedules(s: Sched, ops: seq<Op>, t: Timebase, tickFn: int)
    requires Valid(s) && NoTickPending(s, tickFn) && SparesAll(s, ops, tickFn)
    requires InStep(t) && t.lastUpdate <= s.now
    requires ops != [] && ops[|ops| - 1] == In(Finite(Tick(t, s.now).1), tickFn)
    requires forall op <- ops[..|ops| - 1] :: !Schedules(op, tickFn)
    ensures OneTickPending(ApplyAll(s, ops), Tick(t, s.now).0, tickFn)
  {
    hide Valid;
    var n := |ops| - 1;
    SparesPrefix(s, ops, n, tickFn);
    var mid := ApplyAll(s, ops[..n]);
    ApplyAllValid(s, ops[..n]);
    SubsystemsAddNoTick(s, ops[..n], tickFn);
    TickStaysInStep(t, s.now);
    var last := ops[n];
    assert ops[n..] == [last] && [last][1..] == [];
    var end := Apply(mid, last);
    assert ApplyAll(mid, [last]) == ApplyAll(end, []) == end;
    var e := Event(s.now + Tick(t, s.now).1, mid.nextId, tickFn);
    assert mid.nextId !in mid.revoked;
    assert e in end.live;
    assert forall x <- end.live :: x in mid.live || x == e;
  }

  /** One executed event, the engine's own or not, leaves exactly one tick pending. */
  lemma EventKeepsTheTick(
    s: Sched, e: Event, s1: Sched, trace: seq<Event>, react: Callbacks, start: Timebase, tickFn: int)
    requires Valid(s) && Valid(s1) && RunsEngine(react, start, tickFn)
    requires OneTickPending(s, After(start, trace, tickFn), tickFn)
    requires e in s.live && s1.live == s.live - {e} && s.now <= e.time == s1.now
    requires s1.nextId == s.nextId && s1.revoked == s.revoked
    requires SparesAll(s1, react(trace + [e]).ops, tickFn)
    ensures OneTickPending(ApplyAll(s1, react(trace + [e]).ops), After(start, trace + [e], tickFn), tickFn)
  {
    var trace1 := trace + [e];
    assert trace1[..|trace1| - 1] == trace && trace1[|trace1| - 1] == e;
    var t := After(start, trace, tickFn);
    var ops := react(trace1).ops;
    var pending :| pending in s.live && pending.fn == tickFn;
    if e.fn == tickFn {
      TickReschedules(s1, ops, t, tickFn);
    } else {
      assert pending in s1.live;
      OthersKeepTheTick(s1, ops, t, tickFn);
    }
  }

  /** For every set of callbacks sharing the clock, a run keeps exactly one tick pending. Stopped at
      a horizon, the engine has processed exactly the whole cycles that fit in it. */
  lemma {:induction false} EngineCountsEveryCycle(
    s: Sched, trace: seq<Event>, react: Callbacks, until: Goal, horizon: int, bound: nat,
    start: Timebase, tickFn: int)
    requires Valid(s) && RunsEngine(react, start, tickFn)
    requires NeverStopped(s, trace, react, until, horizon, bound, tickFn)
    requires OneTickPending(s, After(start, trace, tickFn), tickFn)
    requires s.now <= horizon
    ensures var run := Play(s, trace, react, until, horizon, bound);
      var t := After(start, run.trace, tickFn);
      && InStep(t) && run.why != RanDry
      && (run.why == ReachedHorizon ==> t.cyclesProcessed == horizon / MILLI_PER_CYCLE)
    decreases horizon - s.now, bound - s.same
  {
    if !until(trace) && Take(s, horizon, bound).1.Next? {
      var e, s1, s2 := Step(s, trace, react, horizon, bound);
      EventKeepsTheTick(s, e, s1, trace, react, start, tickFn);
      if !react(trace + [e]).throws {
        EngineCountsEveryCycle(s2, trace + [e], react, until, horizon, bound, start, tickFn);
      }
    } else {
      var pending :| pending in s.live && pending.fn == tickFn;
      assert s.live != {};
    }
  }

  /** The documented promise of `Engine.start`: called once at any time on a clock already shared
      with other events, stopped at any later horizon, it has processed exactly
      floor(horizon / 200) cycles, with nothing lost in the remainder. */
  lemma StartedEngineLosesNoCycle(
    s: Sched, react: Callbacks, until: Goal, horizon: int, bound: nat, tickFn: int)
    requires Valid(s) && NoTickPending(s, tickFn) && 0 <= s.now <= horizon
    requires RunsEngine(react, Tick(Timebase(0, 0, 0), s.now).0, tickFn)
    ensures var (start, delay) := Tick(Timebase(0, 0, 0), s.now);
      var started := Apply(s, In(Finite(delay), tickFn));
      && Valid(started)
      && (NeverStopped(started, [], react, until, horizon, bound, tickFn) ==>
            var run := Play(started, [], react, until, horizon, bound);
            var t := After(start, run.trace, tickFn);
            && run.why != RanDry
            && t.lastUpdate == MILLI_PER_CYCLE * t.cyclesProcessed
            && (run.why == ReachedHorizon ==> t.cyclesProcessed == horizon / MILLI_PER_CYCLE))
  {
    var (start, delay) := Tick(Timebase(0, 0, 0), s.now);
    var op := In(Finite(delay), tickFn);
    ApplyValid(s, op);
    assert [op][1..] == [];
    assert ApplyAll(s, [op]) == ApplyAll(Apply(s, op), []) == Apply(s, op);
    TickReschedules(s, [op], Timebase(0, 0, 0), tickFn);
    if NeverStopped(Apply(s, op), [], react, until, horizon, bound, tickFn) {
      EngineCountsEveryCycle(Apply(s, op), [], react, until, horizon, bound, start, tickFn);
    }
  }
}
