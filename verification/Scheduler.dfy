/** The reference scheduler that `Clock` (Clock.dfy) refines.
 *
 * There is no heap and no lazy deletion here: the state is the set of events that are still
 * due, and a step removes the least of them in (time, id) order. Callbacks are an arbitrary
 * function from the events executed so far to the list of clock operations the latest of them
 * performs, so every theorem below holds for every program run on the clock.
 *
 * Virtual time is an integer number of ticks of one fixed resolution. */
module Scheduler {

  /** `fn` is an opaque label for the scheduled callback. */
  datatype Event = Event(time: int, id: int, fn: int)

  /** A deadline as a caller may pass it; NaN and the infinities are `NonFinite`. */
  datatype Deadline = NonFinite | Finite(t: int)

  datatype Op =
    | At(deadline: Deadline, fn: int)
    | In(delay: Deadline, fn: int)
    | Cancel(id: int)

  /** What one callback does: its clock operations, in order, and whether it then throws. */
  datatype Reaction = Reaction(ops: seq<Op>, throws: bool)

  type Callbacks = seq<Event> -> Reaction
  type Goal = seq<Event> -> bool

  /** Deadline order with ties broken by registration. */
  predicate Before(a: Event, b: Event) {
    a.time < b.time || (a.time == b.time && a.id < b.id)
  }

  /** `live` holds the events still due, `revoked` every id ever cancelled, and `same` counts
      the events run since virtual time last moved. */
  datatype Sched = Sched(now: int, nextId: int, live: set<Event>, revoked: set<int>, same: nat)

  ghost predicate Valid(s: Sched) {
    && 1 <= s.nextId
    && (forall e <- s.live :: s.now <= e.time && 1 <= e.id < s.nextId && e.id !in s.revoked)
    && (forall a <- s.live, b <- s.live :: a.id == b.id ==> a == b)
  }

  function Resolve(now: int, op: Op): Deadline
    requires !op.Cancel?
  {
    match op
    case At(d, _) => d
    case In(NonFinite, _) => NonFinite
    case In(Finite(d), _) => Finite(now + d)
  }

  /** Whether the clock accepts a deadline: finite and not in the past. */
  predicate Accepts(now: int, d: Deadline) {
    d.Finite? && now <= d.t
  }

  ghost function Apply(s: Sched, op: Op): Sched {
    if op.Cancel? then
      s.(live := (set e | e in s.live && e.id != op.id), revoked := s.revoked + {op.id})
    else
      var d := Resolve(s.now, op);
      if !Accepts(s.now, d) then s
      else
        s.(nextId := s.nextId + 1,
           live := if s.nextId in s.revoked then s.live else s.live + {Event(d.t, s.nextId, op.fn)})
  }

  ghost function ApplyAll(s: Sched, ops: seq<Op>): Sched
    decreases |ops|
  {
    if ops == [] then s else ApplyAll(Apply(s, ops[0]), ops[1..])
  }

  ghost predicate IsLeast(e: Event, live: set<Event>) {
    e in live && forall x <- live :: x == e || Before(e, x)
  }

  lemma LeastExists(live: set<Event>)
    requires live != {}
    requires forall a <- live, b <- live :: a.id == b.id ==> a == b
    ensures exists e :: IsLeast(e, live)
  {
    var e :| e in live;
    var rest := live - {e};
    assert live == rest + {e};
    if rest == {} {
      assert IsLeast(e, live);
    } else {
      LeastExists(rest);
      var m :| IsLeast(m, rest);
      assert IsLeast(if Before(e, m) then e else m, live);
    }
  }

  ghost function Least(live: set<Event>): (e: Event)
    requires live != {}
    requires forall a <- live, b <- live :: a.id == b.id ==> a == b
    ensures IsLeast(e, live)
  {
    LeastExists(live);
    var e :| IsLeast(e, live);
    e
  }

  /** The outcome of asking for one event. */
  datatype Taken = Empty | Horizon | Stalled(event: Event) | Next(event: Event)

  ghost function Take(s: Sched, horizon: int, bound: nat): (Sched, Taken)
    requires Valid(s)
  {
    if s.live == {} then (s, Empty)
    else
      var e := Least(s.live);
      if e.time > horizon then (s.(now := horizon), Horizon)
      else
        var rest := s.(live := s.live - {e});
        if e.time != s.now then (rest.(now := e.time, same := 0), Next(e))
        else if s.same + 1 > bound then (rest.(same := s.same + 1), Stalled(e))
        else (rest.(same := s.same + 1), Next(e))
  }

  /** Why a run ended. `ClockStalled` names the event that was taken but not run, as the error
      does; `Threw` is a callback's own uncaught error. */
  datatype Why = ReachedGoal | RanDry | ReachedHorizon | ClockStalled(event: Event) | Threw

  datatype Run = Run(end: Sched, trace: seq<Event>, why: Why)

  /** The whole run, from a state and the events executed so far. Its termination measure is the
      reason `Clock.Run` cannot hang: time left before the horizon, then the same-instant events
      still allowed. */
  ghost function Play(s: Sched, trace: seq<Event>, react: Callbacks, until: Goal, horizon: int, bound: nat): Run
    requires Valid(s)
    decreases horizon - s.now, bound - s.same
  {
    if until(trace) then Run(s, trace, ReachedGoal)
    else
      var (s1, taken) := Take(s, horizon, bound);
      match taken
      case Empty => Run(s1, trace, RanDry)
      case Horizon => Run(s1, trace, ReachedHorizon)
      case Stalled(e) => Run(s1, trace, ClockStalled(e))
      case Next(e) =>
        TakeValid(s, horizon, bound);
        var trace1 := trace + [e];
        ApplyAllValid(s1, react(trace1).ops);
        var s2 := ApplyAll(s1, react(trace1).ops);
        if react(trace1).throws then Run(s2, trace1, Threw)
        else Play(s2, trace1, react, until, horizon, bound)
  }

  // ---------- every step keeps the invariant ----------

  lemma ApplyValid(s: Sched, op: Op)
    requires Valid(s)
    ensures Valid(Apply(s, op))
    ensures Apply(s, op).now == s.now && Apply(s, op).same == s.same
    ensures s.nextId <= Apply(s, op).nextId && s.revoked <= Apply(s, op).revoked
  {}

  lemma {:induction false} ApplyAllValid(s: Sched, ops: seq<Op>)
    requires Valid(s)
    ensures Valid(ApplyAll(s, ops))
    ensures ApplyAll(s, ops).now == s.now && ApplyAll(s, ops).same == s.same
    ensures s.nextId <= ApplyAll(s, ops).nextId && s.revoked <= ApplyAll(s, ops).revoked
    decreases |ops|
  {
    if ops != [] {
      ApplyValid(s, ops[0]);
      ApplyAllValid(Apply(s, ops[0]), ops[1..]);
    }
  }

  lemma TakeValid(s: Sched, horizon: int, bound: nat)
    requires Valid(s)
    ensures Valid(Take(s, horizon, bound).0)
  {}

  // ---------- what every run of the scheduler promises ----------

  /** Strictly increasing in (time, id): no event runs twice and ties run first come, first served. */
  ghost predicate Ordered(trace: seq<Event>) {
    forall i, j | 0 <= i < j < |trace| :: Before(trace[i], trace[j])
  }

  /** Everything already executed precedes everything still due or yet to be scheduled. */
  ghost predicate Behind(trace: seq<Event>, s: Sched) {
    && Ordered(trace)
    && (forall d <- trace, e <- s.live :: Before(d, e))
    && (forall d <- trace :: d.time <= s.now && d.id < s.nextId)
  }

  lemma ApplyBehind(s: Sched, op: Op, trace: seq<Event>)
    requires Valid(s) && Behind(trace, s)
    ensures Behind(trace, Apply(s, op))
  {}

  lemma {:induction false} ApplyAllBehind(s: Sched, ops: seq<Op>, trace: seq<Event>)
    requires Valid(s) && Behind(trace, s)
    ensures Behind(trace, ApplyAll(s, ops))
    decreases |ops|
  {
    if ops != [] {
      ApplyValid(s, ops[0]);
      ApplyBehind(s, ops[0], trace);
      ApplyAllBehind(Apply(s, ops[0]), ops[1..], trace);
    }
  }

  lemma TakeBehind(s: Sched, horizon: int, bound: nat, trace: seq<Event>)
    requires Valid(s) && Behind(trace, s)
    requires Take(s, horizon, bound).1.Next?
    ensures Behind(trace + [Take(s, horizon, bound).1.event], Take(s, horizon, bound).0)
  {}

  lemma EndIsBehind(s: Sched, horizon: int, bound: nat, trace: seq<Event>)
    requires Valid(s) && Behind(trace, s) && !Take(s, horizon, bound).1.Next?
    requires Take(s, horizon, bound).1.Horizon? ==> s.now <= horizon
    ensures Behind(trace, Take(s, horizon, bound).0)
  {}

  /** One executed event: the facts every induction over a run starts from. */
  lemma Step(s: Sched, trace: seq<Event>, react: Callbacks, horizon: int, bound: nat)
    returns (e: Event, s1: Sched, s2: Sched)
    requires Valid(s)
    requires Take(s, horizon, bound).1.Next?
    ensures Take(s, horizon, bound) == (s1, Next(e))
    ensures s2 == ApplyAll(s1, react(trace + [e]).ops)
    ensures Valid(s1) && Valid(s2)
    ensures e in s.live && s1.live == s.live - {e} && s.now <= e.time <= horizon
    ensures s1.now == e.time == s2.now && s1.same == s2.same <= bound
    ensures s1.nextId == s.nextId <= s2.nextId && s1.revoked == s.revoked <= s2.revoked
    ensures e.time == s.now ==> s1.same == s.same + 1
    ensures e.time != s.now ==> s1.same == 0
    ensures forall x <- s1.live :: Before(e, x)
  {
    TakeValid(s, horizon, bound);
    s1 := Take(s, horizon, bound).0;
    e := Take(s, horizon, bound).1.event;
    s2 := ApplyAll(s1, react(trace + [e]).ops);
    ApplyAllValid(s1, react(trace + [e]).ops);
  }

  /** A run that takes an event goes on after it, unless its callback threw. */
  lemma Goes(s: Sched, trace: seq<Event>, react: Callbacks, until: Goal, horizon: int, bound: nat,
      e: Event, s1: Sched, s2: Sched)
    requires Valid(s) && Valid(s2) && !until(trace)
    requires Take(s, horizon, bound) == (s1, Next(e)) && s2 == ApplyAll(s1, react(trace + [e]).ops)
    ensures Play(s, trace, react, until, horizon, bound)
      == if react(trace + [e]).throws then Run(s2, trace + [e], Threw)
         else Play(s2, trace + [e], react, until, horizon, bound)
  {
    hide Take, ApplyAll;
  }

  /** Any other ends. */
  lemma Ends(s: Sched, trace: seq<Event>, react: Callbacks, until: Goal, horizon: int, bound: nat)
    requires Valid(s) && (until(trace) || !Take(s, horizon, bound).1.Next?)
    ensures var (s1, taken) := Take(s, horizon, bound);
      Play(s, trace, react, until, horizon, bound)
      == if until(trace) then Run(s, trace, ReachedGoal)
         else Run(s1, trace, if taken.Empty? then RanDry else if taken.Horizon? then ReachedHorizon
                             else ClockStalled(taken.event))
  {
    hide Take;
  }

  /** Every run executes events in strictly increasing (time, id) order, none of them after the
      horizon, extends what ran before, and leaves only later events behind. */
  lemma {:induction false} PlayOrdered(
    s: Sched, trace: seq<Event>, react: Callbacks, until: Goal, horizon: int, bound: nat)
    requires Valid(s) && Behind(trace, s)
    ensures var run := Play(s, trace, react, until, horizon, bound);
      && Valid(run.end) && trace <= run.trace && Ordered(run.trace)
      && (forall d <- run.trace[|trace|..] :: s.now <= d.time <= horizon)
      && ((run.why.ReachedHorizon? ==> s.now <= horizon) ==> Behind(run.trace, run.end))
    decreases horizon - s.now, bound - s.same
  {
    hide Apply, ApplyAll, IsLeast, Play, Take;
    if !until(trace) && Take(s, horizon, bound).1.Next? {
      var e, s1, s2 := Step(s, trace, react, horizon, bound);
      Goes(s, trace, react, until, horizon, bound, e, s1, s2);
      TakeBehind(s, horizon, bound, trace);
      ApplyAllBehind(s1, react(trace + [e]).ops, trace + [e]);
      if !react(trace + [e]).throws {
        PlayOrdered(s2, trace + [e], react, until, horizon, bound);
      }
    } else {
      TakeValid(s, horizon, bound);
      Ends(s, trace, react, until, horizon, bound);
      if !until(trace) && (Take(s, horizon, bound).1.Horizon? ==> s.now <= horizon) {
        EndIsBehind(s, horizon, bound, trace);
      }
    }
  }

  /** A run stops for exactly the reason it reports: nothing due is ever left unrun. */
  lemma {:induction false} PlayStops(
    s: Sched, trace: seq<Event>, react: Callbacks, until: Goal, horizon: int, bound: nat)
    requires Valid(s)
    ensures var run := Play(s, trace, react, until, horizon, bound);
      match run.why
      case ReachedGoal => until(run.trace)
      case RanDry => run.end.live == {}
      case ReachedHorizon =>
        run.end.live != {} && run.end.now == horizon && forall e <- run.end.live :: horizon < e.time
      case ClockStalled(e) => bound < run.end.same && e.time == run.end.now && forall x <- run.end.live :: Before(e, x)
      case Threw => run.trace != [] && react(run.trace).throws
    decreases horizon - s.now, bound - s.same
  {
    hide Apply, ApplyAll;
    if !until(trace) && Take(s, horizon, bound).1.Next? {
      var e, s1, s2 := Step(s, trace, react, horizon, bound);
      if !react(trace + [e]).throws {
        PlayStops(s2, trace + [e], react, until, horizon, bound);
      }
    }
  }

  /** A run moves time to its horizon only when something due lies beyond it. Every other stop leaves the clock at
      the last event the run executed, or where it stood if it executed none; a stall names an event of that time. */
  lemma {:induction false} EndTime(
    s: Sched, trace: seq<Event>, react: Callbacks, until: Goal, horizon: int, bound: nat)
    requires Valid(s)
    ensures var run := Play(s, trace, react, until, horizon, bound);
      && trace <= run.trace
      && run.end.now == (if run.why.ReachedHorizon? then horizon
                         else if |trace| < |run.trace| then run.trace[|run.trace| - 1].time
                         else s.now)
      && (run.why.ClockStalled? ==> run.why.event.time == run.end.now)
    decreases horizon - s.now, bound - s.same
  {
    hide Apply, ApplyAll, IsLeast, Play;
    if !until(trace) && Take(s, horizon, bound).1.Next? {
      var e, s1, s2 := Step(s, trace, react, horizon, bound);
      Goes(s, trace, react, until, horizon, bound, e, s1, s2);
      if !react(trace + [e]).throws {
        EndTime(s2, trace + [e], react, until, horizon, bound);
      }
    } else {
      Ends(s, trace, react, until, horizon, bound);
    }
  }

  /** Running a clock with nothing due changes nothing, whatever the horizon. */
  lemma IdleRun(s: Sched, trace: seq<Event>, react: Callbacks, until: Goal, horizon: int, bound: nat)
    requires Valid(s) && s.live == {}
    ensures Play(s, trace, react, until, horizon, bound)
      == Run(s, trace, if until(trace) then ReachedGoal else RanDry)
  {
    hide Apply, ApplyAll, IsLeast;
    Ends(s, trace, react, until, horizon, bound);
  }

  /** Virtual time moves backwards in exactly one case: something is due, the goal is not yet reached, and the
      horizon asked for is already behind the clock. */
  lemma {:induction false} TimeMovesForward(
    s: Sched, trace: seq<Event>, react: Callbacks, until: Goal, horizon: int, bound: nat)
    requires Valid(s)
    ensures var run := Play(s, trace, react, until, horizon, bound);
      run.end.now < s.now <==> horizon < s.now && s.live != {} && !until(trace)
    decreases horizon - s.now, bound - s.same
  {
    if !until(trace) && Take(s, horizon, bound).1.Next? {
      var e, s1, s2 := Step(s, trace, react, horizon, bound);
      if !react(trace + [e]).throws {
        TimeMovesForward(s2, trace + [e], react, until, horizon, bound);
      }
    }
  }

  /** At 10 with an event due at 12, a run to horizon 5 sets the clock back to 5. */
  lemma RewoundClock(react: Callbacks, bound: nat)
    ensures var s := Sched(10, 2, {Event(12, 1, 0)}, {}, 0);
      Valid(s) && Play(s, [], react, _ => false, 5, bound).end.now == 5
  {
    var s := Sched(10, 2, {Event(12, 1, 0)}, {}, 0);
    assert Valid(s);
    OnlyOneDue(s, Event(12, 1, 0));
  }

  lemma OnlyOneDue(s: Sched, e: Event)
    requires Valid(s) && s.live == {e}
    ensures Least(s.live) == e
  {
  }

  /** Where the event behind an issued handle is: executed, still due, or cancelled. */
  ghost predicate Accounted(id: int, trace: seq<Event>, s: Sched) {
    || (exists d <- trace :: d.id == id)
    || (exists e <- s.live :: e.id == id)
    || id in s.revoked
  }

  ghost predicate AllAccounted(trace: seq<Event>, s: Sched) {
    forall id | 1 <= id < s.nextId :: Accounted(id, trace, s)
  }

  lemma ApplyAccounts(s: Sched, op: Op, trace: seq<Event>)
    requires Valid(s) && AllAccounted(trace, s)
    ensures AllAccounted(trace, Apply(s, op))
  {
    var s' := Apply(s, op);
    forall id | 1 <= id < s'.nextId ensures Accounted(id, trace, s') {
      if id < s.nextId {
        assert Accounted(id, trace, s);
        if e :| e in s.live && e.id == id {
          assert e in s'.live || id in s'.revoked;
        }
      } else if id !in s.revoked {
        assert Event(Resolve(s.now, op).t, id, op.fn) in s'.live;
      }
    }
  }

  lemma {:induction false} ApplyAllAccounts(s: Sched, ops: seq<Op>, trace: seq<Event>)
    requires Valid(s) && AllAccounted(trace, s)
    ensures AllAccounted(trace, ApplyAll(s, ops))
    decreases |ops|
  {
    if ops != [] {
      ApplyValid(s, ops[0]);
      ApplyAccounts(s, ops[0], trace);
      ApplyAllAccounts(Apply(s, ops[0]), ops[1..], trace);
    }
  }

  /** No event is lost: whatever the callbacks do, every handle ever issued was executed, is still
      due or was cancelled, except the single event a stall names. */
  lemma {:induction false} NothingIsLost(
    s: Sched, trace: seq<Event>, react: Callbacks, until: Goal, horizon: int, bound: nat)
    requires Valid(s) && AllAccounted(trace, s)
    ensures var run := Play(s, trace, react, until, horizon, bound);
      forall id | 1 <= id < run.end.nextId ::
        Accounted(id, run.trace, run.end) || (run.why.ClockStalled? && run.why.event.id == id)
    decreases horizon - s.now, bound - s.same
  {
    hide Apply, ApplyAll, IsLeast;
    if !until(trace) && Take(s, horizon, bound).1.Next? {
      var e, s1, s2 := Step(s, trace, react, horizon, bound);
      forall id | 1 <= id < s1.nextId ensures Accounted(id, trace + [e], s1) {
        assert Accounted(id, trace, s);
        if d :| d in trace && d.id == id {
          assert d in trace + [e];
        } else if x :| x in s.live && x.id == id {
          assert x == e || x in s1.live;
          assert e in trace + [e];
        }
      }
      ApplyAllAccounts(s1, react(trace + [e]).ops, trace + [e]);
      if !react(trace + [e]).throws {
        NothingIsLost(s2, trace + [e], react, until, horizon, bound);
        assert Play(s, trace, react, until, horizon, bound) == Play(s2, trace + [e], react, until, horizon, bound);
      } else {
        var run := Play(s, trace, react, until, horizon, bound);
        assert run == Run(s2, trace + [e], Threw);
        forall id | 1 <= id < run.end.nextId ensures Accounted(id, run.trace, run.end) {
          assert Accounted(id, trace + [e], s2);
        }
      }
    } else if !until(trace) {
      var (s1, taken) := Take(s, horizon, bound);
      forall id | 1 <= id < s1.nextId && !(taken.Stalled? && taken.event.id == id)
        ensures Accounted(id, trace, s1)
      {
        assert Accounted(id, trace, s);
        if x :| x in s.live && x.id == id {
          assert x in s1.live;
        }
      }
    }
  }

  /** A handle cancelled before a run starts is never executed by it. */
  lemma {:induction false} CancelledNeverRuns(
    s: Sched, trace: seq<Event>, react: Callbacks, until: Goal, horizon: int, bound: nat)
    requires Valid(s)
    ensures var run := Play(s, trace, react, until, horizon, bound);
      trace <= run.trace && forall d <- run.trace[|trace|..] :: d.id !in s.revoked
    decreases horizon - s.now, bound - s.same
  {
    if !until(trace) && Take(s, horizon, bound).1.Next? {
      var e, s1, s2 := Step(s, trace, react, horizon, bound);
      if !react(trace + [e]).throws {
        CancelledNeverRuns(s2, trace + [e], react, until, horizon, bound);
      }
    }
  }

  function CountAt(trace: seq<Event>, t: int): nat {
    if trace == [] then 0
    else CountAt(trace[..|trace| - 1], t) + if trace[|trace| - 1].time == t then 1 else 0
  }

  lemma CountAtAppend(trace: seq<Event>, e: Event, t: int)
    ensures CountAt(trace + [e], t) == CountAt(trace, t) + if e.time == t then 1 else 0
  {
    assert (trace + [e])[..|trace|] == trace;
  }

  lemma {:induction false} CountAtFuture(trace: seq<Event>, t: int)
    requires forall d <- trace :: d.time < t
    ensures CountAt(trace, t) == 0
  {
    if trace != [] {
      assert forall d <- trace[..|trace| - 1] :: d in trace;
      assert trace[|trace| - 1] in trace;
      CountAtFuture(trace[..|trace| - 1], t);
    }
  }

  /** What the same-instant counter knows about the events already executed. */
  ghost predicate Throttled(trace: seq<Event>, s: Sched, bound: nat) {
    && Behind(trace, s)
    && CountAt(trace, s.now) <= s.same + 1
    && forall t :: CountAt(trace, t) <= bound + 1
  }

  /** An executed event keeps the count right. */
  lemma NextIsThrottled(trace: seq<Event>, s: Sched, e: Event, after: Sched, bound: nat)
    requires Throttled(trace, s, bound) && Behind(trace + [e], after)
    requires s.now <= e.time == after.now && after.same <= bound
    requires after.same == if e.time == s.now then s.same + 1 else 0
    ensures Throttled(trace + [e], after, bound)
  {
    forall t ensures CountAt(trace + [e], t) <= bound + 1
      && (t == after.now ==> CountAt(trace + [e], t) <= after.same + 1)
    {
      CountAtAppend(trace, e, t);
      if s.now < e.time { CountAtFuture(trace, e.time); }
    }
  }

  /** So does a run's last take, when it executes nothing and does not turn the clock back. */
  lemma EndIsThrottled(s: Sched, trace: seq<Event>, horizon: int, bound: nat)
    requires Valid(s) && Throttled(trace, s, bound) && !Take(s, horizon, bound).1.Next?
    requires Take(s, horizon, bound).1.Horizon? ==> s.now <= horizon
    ensures Throttled(trace, Take(s, horizon, bound).0, bound)
  {
    if s.now < horizon { CountAtFuture(trace, horizon); }
  }

  /** At most bound + 1 events ever run at one instant, whatever the callbacks do. */
  lemma {:induction false} InstantsAreBounded(
    s: Sched, trace: seq<Event>, react: Callbacks, until: Goal, horizon: int, bound: nat)
    requires Valid(s) && Throttled(trace, s, bound)
    ensures var run := Play(s, trace, react, until, horizon, bound);
      && (forall t :: CountAt(run.trace, t) <= bound + 1)
      && ((run.why.ReachedHorizon? ==> s.now <= horizon) ==> Throttled(run.trace, run.end, bound))
    decreases horizon - s.now, bound - s.same
  {
    hide Apply, ApplyAll, IsLeast, Play, Take, Behind;
    if !until(trace) && Take(s, horizon, bound).1.Next? {
      var e, s1, s2 := Step(s, trace, react, horizon, bound);
      Goes(s, trace, react, until, horizon, bound, e, s1, s2);
      TakeBehind(s, horizon, bound, trace);
      ApplyAllBehind(s1, react(trace + [e]).ops, trace + [e]);
      NextIsThrottled(trace, s, e, s2, bound);
      if !react(trace + [e]).throws {
        InstantsAreBounded(s2, trace + [e], react, until, horizon, bound);
      }
    } else {
      Ends(s, trace, react, until, horizon, bound);
      if !until(trace) && (Take(s, horizon, bound).1.Horizon? ==> s.now <= horizon) {
        EndIsThrottled(s, trace, horizon, bound);
      }
    }
  }

  /** How many events ran at the instant a stall names, exactly: bound + 1 at an instant the run moved to, and at
      the instant it began in only what the counter had left. The latter needs something due at that very instant. */
  lemma {:induction false} StallsCountExactly(
    s: Sched, trace: seq<Event>, react: Callbacks, until: Goal, horizon: int, bound: nat)
    requires Valid(s) && s.same <= bound && forall d <- trace :: d.time <= s.now
    ensures var run := Play(s, trace, react, until, horizon, bound);
      run.why.ClockStalled? ==>
        && CountAt(run.trace, run.end.now)
           == (if run.end.now == s.now then CountAt(trace, s.now) + bound - s.same else bound + 1)
        && (run.end.now == s.now ==> exists e <- s.live :: e.time == s.now)
    decreases horizon - s.now, bound - s.same
  {
    hide Apply, ApplyAll, IsLeast, Play;
    if !until(trace) && Take(s, horizon, bound).1.Next? {
      var e, s1, s2 := Step(s, trace, react, horizon, bound);
      Goes(s, trace, react, until, horizon, bound, e, s1, s2);
      CountAtAppend(trace, e, e.time);
      if s.now < e.time { CountAtFuture(trace, e.time); }
      if !react(trace + [e]).throws {
        StallsCountExactly(s2, trace + [e], react, until, horizon, bound);
        PlayAdvances(s2, trace + [e], react, until, horizon, bound);
        var run := Play(s2, trace + [e], react, until, horizon, bound);
        if run.why.ClockStalled? && run.end.now == s.now {
          assert e in s.live && e.time == s.now;
        }
      }
    } else {
      Ends(s, trace, react, until, horizon, bound);
      if Take(s, horizon, bound).1.Stalled? { StalledIsDue(s, horizon, bound); }
    }
  }

  lemma StalledIsDue(s: Sched, horizon: int, bound: nat)
    requires Valid(s) && Take(s, horizon, bound).1.Stalled?
    ensures Take(s, horizon, bound).1.event in s.live && Take(s, horizon, bound).1.event.time == s.now
  {
  }

  lemma {:induction false} PlayAdvances(
    s: Sched, trace: seq<Event>, react: Callbacks, until: Goal, horizon: int, bound: nat)
    requires Valid(s)
    ensures var run := Play(s, trace, react, until, horizon, bound);
      run.why.ClockStalled? ==> s.now <= run.end.now
    decreases horizon - s.now, bound - s.same
  {
    hide Apply, ApplyAll, IsLeast;
    if !until(trace) && Take(s, horizon, bound).1.Next? {
      var e, s1, s2 := Step(s, trace, react, horizon, bound);
      if !react(trace + [e]).throws {
        PlayAdvances(s2, trace + [e], react, until, horizon, bound);
      }
    }
  }

  /** A run begun when nothing is due at the present instant, as a horizon stop leaves it, stalls only after
      bound + 1 of its events ran at the instant it names. */
  lemma StallsAreReal(s: Sched, react: Callbacks, until: Goal, horizon: int, bound: nat)
    requires Valid(s) && forall e <- s.live :: s.now < e.time
    ensures var run := Play(s, [], react, until, horizon, bound);
      run.why.ClockStalled? ==> CountAt(run.trace, run.end.now) == bound + 1
  {
    hide Apply, ApplyAll, IsLeast, Play, Take;
    if !until([]) && Take(s, horizon, bound).1.Next? {
      var e, s1, s2 := Step(s, [], react, horizon, bound);
      Goes(s, [], react, until, horizon, bound, e, s1, s2);
      assert [] + [e] == [e];
      CountAtAppend([], e, e.time);
      if !react([e]).throws {
        StallsCountExactly(s2, [e], react, until, horizon, bound);
      }
    } else {
      Ends(s, [], react, until, horizon, bound);
      if Take(s, horizon, bound).1.Stalled? { StalledIsDue(s, horizon, bound); }
    }
  }

  /** A run on a new clock stalls only after at least `bound` events at the instant. */
  lemma FirstStallsAreReal(s: Sched, react: Callbacks, until: Goal, horizon: int, bound: nat)
    requires Valid(s) && s.same == 0
    ensures var run := Play(s, [], react, until, horizon, bound);
      run.why.ClockStalled? ==> bound <= CountAt(run.trace, run.end.now)
  {
    StallsCountExactly(s, [], react, until, horizon, bound);
  }

  /** A horizon stop moves the clock and keeps the counter, so one event scheduled at that very instant stalls the
      next run before anything ran there exactly when the counter was spent before the stop. */
  lemma HorizonKeepsTheCounter(s: Sched, stop: int, fn: int, react: Callbacks, horizon: int, bound: nat)
    requires Valid(s) && Take(s, stop, bound).1.Horizon? && stop <= horizon && s.now <= stop
    requires s.nextId !in s.revoked
    ensures var stopped := Take(s, stop, bound).0;
      var later := Apply(stopped, At(Finite(stop), fn));
      && stopped == s.(now := stop) && Valid(later)
      && var run := Play(later, [], react, _ => false, horizon, bound);
         (run.trace == [] && run.why == ClockStalled(Event(stop, s.nextId, fn)) <==> bound <= s.same)
  {
    var stopped := Take(s, stop, bound).0;
    var e := Event(stop, s.nextId, fn);
    var later := Apply(stopped, At(Finite(stop), fn));
    TakeValid(s, stop, bound);
    ApplyValid(stopped, At(Finite(stop), fn));
    assert e in later.live && IsLeast(e, later.live);
    assert Least(later.live) == e;
    if s.same < bound {
      var f, s1, s2 := Step(later, [], react, horizon, bound);
      TraceGrows(s2, [] + [f], react, _ => false, horizon, bound);
    }
  }

  lemma {:induction false} TraceGrows(
    s: Sched, trace: seq<Event>, react: Callbacks, until: Goal, horizon: int, bound: nat)
    requires Valid(s)
    ensures |trace| <= |Play(s, trace, react, until, horizon, bound).trace|
    decreases horizon - s.now, bound - s.same
  {
    hide Apply, ApplyAll, IsLeast;
    if !until(trace) && Take(s, horizon, bound).1.Next? {
      var e, s1, s2 := Step(s, trace, react, horizon, bound);
      if !react(trace + [e]).throws {
        TraceGrows(s2, trace + [e], react, until, horizon, bound);
      }
    }
  }

  function Quiet(): Callbacks { _ => Reaction([], false) }

  function Never(): Goal { _ => false }

  /** What taking does when the least event is known. */
  lemma TakeLeast(s: Sched, e: Event, horizon: int, bound: nat)
    requires Valid(s) && IsLeast(e, s.live)
    ensures Take(s, horizon, bound)
      == if e.time > horizon then (s.(now := horizon), Horizon)
         else if e.time != s.now then (s.(live := s.live - {e}, now := e.time, same := 0), Next(e))
         else (s.(live := s.live - {e}, same := s.same + 1), if s.same + 1 > bound then Stalled(e) else Next(e))
  {
    assert Least(s.live) == e;
  }

  /** A quiet run goes on from what is left. */
  lemma QuietStep(s: Sched, trace: seq<Event>, e: Event, horizon: int, bound: nat)
    requires Valid(s) && Take(s, horizon, bound).1 == Next(e)
    ensures Valid(Take(s, horizon, bound).0)
    ensures Play(s, trace, Quiet(), Never(), horizon, bound)
      == Play(Take(s, horizon, bound).0, trace + [e], Quiet(), Never(), horizon, bound)
  {
    TakeValid(s, horizon, bound);
    assert ApplyAll(Take(s, horizon, bound).0, []) == Take(s, horizon, bound).0;
  }

  /** From a new clock with bound 1: two events at 5 and one at 20, run to 10, then one scheduled at 10. The next run
      stalls at 10 although nothing has ever run there. */
  lemma FalseStall()
    ensures var s := ApplyAll(Sched(0, 1, {}, {}, 0), [At(Finite(5), 0), At(Finite(5), 0), At(Finite(20), 0)]);
      && Valid(s)
      && var first := Play(s, [], Quiet(), Never(), 10, 1);
         && first.why == ReachedHorizon && CountAt(first.trace, 10) == 0 && Valid(first.end)
         && var later := Apply(first.end, At(Finite(10), 0));
            Valid(later) && var second := Play(later, first.trace, Quiet(), Never(), 30, 1);
              second.why == ClockStalled(Event(10, 4, 0)) && second.trace == first.trace
  {
    hide Apply, ApplyAll, Play, Take;
    ThreeScheduled();
    var a, b := Event(5, 1, 0), Event(5, 2, 0);
    RunToTen();
    CountAtAppend([a], b, 10);
    CountAtAppend([], a, 10);
    StallAtTen([a, b]);
  }

  lemma QuietStop(s: Sched, trace: seq<Event>, horizon: int, bound: nat)
    requires Valid(s) && Take(s, horizon, bound).1 == Horizon
    ensures Play(s, trace, Quiet(), Never(), horizon, bound)
      == Run(Take(s, horizon, bound).0, trace, ReachedHorizon)
  {
    hide Take;
  }

  lemma RunToTen()
    ensures var s := Sched(0, 4, {Event(5, 1, 0), Event(5, 2, 0), Event(20, 3, 0)}, {}, 0);
      Valid(s) && Play(s, [], Quiet(), Never(), 10, 1)
        == Run(Sched(10, 4, {Event(20, 3, 0)}, {}, 1), [Event(5, 1, 0), Event(5, 2, 0)], ReachedHorizon)
  {
    hide Apply, ApplyAll, Take, Play;
    var a, b, c := Event(5, 1, 0), Event(5, 2, 0), Event(20, 3, 0);
    var s, s1, s2 := Sched(0, 4, {a, b, c}, {}, 0), Sched(5, 4, {b, c}, {}, 0), Sched(5, 4, {c}, {}, 1);
    assert s.live - {a} == s1.live && s1.live - {b} == s2.live;
    TakeLeast(s, a, 10, 1);
    QuietStep(s, [], a, 10, 1);
    TakeLeast(s1, b, 10, 1);
    QuietStep(s1, [a], b, 10, 1);
    TakeLeast(s2, c, 10, 1);
    QuietStop(s2, [a, b], 10, 1);
    assert [] + [a] == [a] && [a] + [b] == [a, b];
  }

  lemma StallAtTen(trace: seq<Event>)
    ensures var stopped := Sched(10, 4, {Event(20, 3, 0)}, {}, 1);
      var later := Apply(stopped, At(Finite(10), 0));
      && Valid(stopped) && Valid(later)
      && Play(later, trace, Quiet(), Never(), 30, 1).why == ClockStalled(Event(10, 4, 0))
      && Play(later, trace, Quiet(), Never(), 30, 1).trace == trace
  {
    hide ApplyAll, Take;
    var stopped := Sched(10, 4, {Event(20, 3, 0)}, {}, 1);
    var later := Apply(stopped, At(Finite(10), 0));
    assert later == Sched(10, 5, {Event(20, 3, 0), Event(10, 4, 0)}, {}, 1);
    TakeLeast(later, Event(10, 4, 0), 30, 1);
  }

  lemma ThreeScheduled()
    ensures var s := ApplyAll(Sched(0, 1, {}, {}, 0), [At(Finite(5), 0), At(Finite(5), 0), At(Finite(20), 0)]);
      s == Sched(0, 4, {Event(5, 1, 0), Event(5, 2, 0), Event(20, 3, 0)}, {}, 0) && Valid(s)
  {
    var s0, at5, at20 := Sched(0, 1, {}, {}, 0), At(Finite(5), 0), At(Finite(20), 0);
    var ops := [at5, at5, at20];
    assert ops[1..] == [at5, at20] && [at5, at20][1..] == [at20] && [at20][1..] == [];
    var s1 := Apply(s0, at5);
    var s2 := Apply(s1, at5);
    assert ApplyAll(s0, ops) == ApplyAll(s1, [at5, at20]) == ApplyAll(s2, [at20]) == ApplyAll(Apply(s2, at20), []);
    assert s1 == Sched(0, 2, {Event(5, 1, 0)}, {}, 0);
    assert s2 == Sched(0, 3, {Event(5, 1, 0), Event(5, 2, 0)}, {}, 0);
  }

  /** After a horizon stop the next take is what it would have been without it. */
  lemma HorizonAgain(s: Sched, h1: int, h2: int, bound: nat)
    requires Valid(s) && s.now <= h1 <= h2 && Take(s, h1, bound).1.Horizon?
    ensures Take(s, h1, bound).0 == s.(now := h1) && Valid(s.(now := h1))
    ensures Take(s.(now := h1), h2, bound) == Take(s, h2, bound)
  {
    TakeValid(s, h1, bound);
  }

  lemma SameTake(s: Sched, t: Sched, trace: seq<Event>, react: Callbacks, until: Goal, horizon: int, bound: nat)
    requires Valid(s) && Valid(t) && !until(trace) && Take(s, horizon, bound) == Take(t, horizon, bound)
    ensures Play(s, trace, react, until, horizon, bound) == Play(t, trace, react, until, horizon, bound)
  {
    hide Take, ApplyAll;
  }

  /** Stopping at a horizon and resuming is invisible: the two runs together are the single run. */
  lemma {:induction false} HorizonsCompose(
    s: Sched, trace: seq<Event>, react: Callbacks, until: Goal, h1: int, h2: int, bound: nat)
    requires Valid(s) && s.now <= h1 <= h2
    requires Play(s, trace, react, until, h1, bound).why == ReachedHorizon
    ensures var first := Play(s, trace, react, until, h1, bound);
      && Valid(first.end)
      && Play(first.end, first.trace, react, until, h2, bound) == Play(s, trace, react, until, h2, bound)
    decreases h1 - s.now, bound - s.same
  {
    hide Apply, ApplyAll, IsLeast, Play;
    TakeValid(s, h1, bound);
    if until(trace) || !Take(s, h1, bound).1.Next? {
      Ends(s, trace, react, until, h1, bound);
      if !until(trace) {
        HorizonAgain(s, h1, h2, bound);
        SameTake(s.(now := h1), s, trace, react, until, h2, bound);
      }
    } else {
      var e, s1, s2 := Step(s, trace, react, h1, bound);
      Goes(s, trace, react, until, h1, bound, e, s1, s2);
      Goes(s, trace, react, until, h2, bound, e, s1, s2);
      HorizonsCompose(s2, trace + [e], react, until, h1, h2, bound);
    }
  }
}
