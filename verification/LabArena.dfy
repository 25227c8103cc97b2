/** The labyrinth protocol loop and its player (sim/dnet-lab.ts), for every route policy. */
module LabArena {
  import opened Labyrinth
  import opened Wrappers

  // ---------- the player ----------

  type NonNegative = r: real | r >= 0.0
  type AtLeastOne = r: real | r >= 1.0 witness 1.0

  /** The gate charisma of a labyrinth stage. */
  datatype Stage = Stage(cha: NonNegative)

  /** `skill` is the skill curve at the player's multiplier; `intelligenceFactor` is
      1 + intelligence^0.8 / 2400, at least 1. */
  datatype Timing =
    | Fixed(authenticationMs: real)
    | Trained(
        skill: real -> real, startExp: real, threads: real, hasBoots: bool, sf15Level: int,
        backdoorFactor: real, intelligenceFactor: AtLeastOne, expMultiplier: real, bonusTime: bool)

  datatype LabError = InvalidTiming | BelowGate | BadThreads | ExitUnreachable

  datatype Result<T> = Ok(value: T) | Failed(error: LabError)

  /** `labAuthenticationMs` at one charisma. */
  function AuthenticationMs(stage: Stage, t: Timing, charisma: real): Result<real>
    requires t.Trained?
  {
    if charisma < stage.cha then Failed(BelowGate)
    else if t.threads <= 0.0 then Failed(BadThreads)
    else
      var skillFactor := (5.0 * stage.cha + 1100.0) / (charisma + 150.0);
      Ok(850.0 * skillFactor * Haste(t) / t.intelligenceFactor)
  }

  /** The factors of the delay that do not depend on charisma. */
  function Haste(t: Timing): real
    requires t.Trained? && 0.0 < t.threads
  {
    var threadFactor := 1.0 / (1.0 + 0.2 * (t.threads - 1.0));
    var bootsFactor := if t.hasBoots then 0.8 else 1.0;
    var sf15Factor := if t.sf15Level > 2 then 0.8 else 1.0;
    threadFactor * bootsFactor * sf15Factor * t.backdoorFactor
  }

  /** Charisma experience for one failed authentication: (3 + 1.1^10) per thread, with bonuses. */
  function FailedExp(t: Timing): real
    requires t.Trained?
  {
    5.5937424601 * t.threads * t.expMultiplier * (if t.bonusTime then 1.5 else 1.0)
  }

  /** Charisma experience after a number of failed authentications. */
  function ExpAfter(t: Timing, failed: nat): real
    requires t.Trained?
  {
    if failed == 0 then t.startExp else ExpAfter(t, failed - 1) + FailedExp(t)
  }

  /** The delay after a number of failed authentications. */
  ghost function Delays(stage: Stage, t: Timing): nat -> Result<real> {
    (failed: nat) =>
      if t.Fixed? then Ok(t.authenticationMs)
      else AuthenticationMs(stage, t, t.skill(ExpAfter(t, failed)))
  }

  /** The player a run starts with, or why there is none. */
  ghost function Ready(stage: Stage, t: Timing): Result<()> {
    match t
    case Fixed(ms) => if ms < 0.0 then Failed(InvalidTiming) else Ok(())
    case Trained(skill, startExp, _, _, _, _, _, _, _) =>
      if skill(startExp) < stage.cha then Failed(BelowGate) else Ok(())
  }

  class LabPlayer {
    const stage: Stage
    const timing: Timing
    var charismaExp: real
    var charisma: real
    ghost var failures: nat
    /** The delay this player is charged after each number of failures. */
    ghost const delay: nat -> Result<real>

    ghost predicate Valid()
      reads this
    {
      && delay == Delays(stage, timing)
      && (timing.Trained? ==> charismaExp == ExpAfter(timing, failures) && charisma == timing.skill(charismaExp))
    }

    constructor (stage: Stage, timing: Timing)
      ensures Valid() && failures == 0 && this.stage == stage && this.timing == timing
      ensures delay == Delays(stage, timing)
    {
      this.stage, this.timing := stage, timing;
      failures, delay := 0, Delays(stage, timing);
      charismaExp := if timing.Trained? then timing.startExp else 0.0;
      charisma := if timing.Trained? then timing.skill(timing.startExp) else 0.0;
    }

    method AuthMs() returns (r: Result<real>)
      requires Valid()
      ensures r == delay(failures)
    {
      r := if timing.Fixed? then Ok(timing.authenticationMs) else AuthenticationMs(stage, timing, charisma);
    }

    /** A wall or an ordinary step: only the exit authenticates. */
    method FailedMove()
      requires Valid()
      modifies this`charismaExp, this`charisma, this`failures
      ensures Valid() && failures == old(failures) + 1
    {
      failures := failures + 1;
      if timing.Trained? {
        charismaExp := charismaExp + FailedExp(timing);
        charisma := timing.skill(charismaExp);
      }
    }
  }

  // ---------- the delay only ever shrinks ----------

  /** Failed moves teach: the skill curve is monotone and no factor is negative. */
  ghost predicate Teaches(t: Timing) {
    t.Trained? ==>
      && (forall a: real, b: real | a <= b :: t.skill(a) <= t.skill(b))
      && 0.0 <= t.expMultiplier && 0.0 < t.threads && 0.0 <= t.backdoorFactor
  }

  lemma Scaled(a: real, b: real, k: real)
    requires a <= b && 0.0 <= k
    ensures a * k <= b * k
  {}

  lemma StrictlyScaled(a: real, b: real, k: real)
    requires a < b && 0.0 < k
    ensures a * k < b * k
  {}

  lemma Divided(a: real, b: real, k: real)
    requires a <= b && 0.0 < k
    ensures a / k <= b / k
  {
    var x, y := a / k, b / k;
    assert x * k == a && y * k == b;
    if y < x {
      StrictlyScaled(y, x, k);
    }
  }

  lemma Quotient(n: real, a: real, b: real)
    requires 0.0 <= n && 0.0 < a <= b
    ensures 0.0 <= n / b <= n / a
  {
    var x, y := n / b, n / a;
    assert x * b == n && y * a == n;
    Divided(0.0, n, b);
    Scaled(a, b, x);
    if y < x {
      StrictlyScaled(y, x, a);
    }
  }

  lemma HasteIsNotNegative(t: Timing)
    requires t.Trained? && 0.0 < t.threads && 0.0 <= t.backdoorFactor
    ensures 0.0 <= Haste(t)
  {
    var threadFactor := 1.0 / (1.0 + 0.2 * (t.threads - 1.0));
    Divided(0.0, 1.0, 1.0 + 0.2 * (t.threads - 1.0));
    var boots := if t.hasBoots then 0.8 else 1.0;
    var sf15 := if t.sf15Level > 2 then 0.8 else 1.0;
    Scaled(0.0, threadFactor, boots);
    Scaled(0.0, threadFactor * boots, sf15);
    Scaled(0.0, threadFactor * boots * sf15, t.backdoorFactor);
  }

  /** A higher charisma never makes an authentication slower. */
  lemma MoreCharismaIsFaster(stage: Stage, t: Timing, low: real, high: real)
    requires t.Trained? && stage.cha <= low <= high
    requires 0.0 < t.threads && 0.0 <= t.backdoorFactor
    ensures AuthenticationMs(stage, t, low).Ok? && AuthenticationMs(stage, t, high).Ok?
    ensures 0.0 <= AuthenticationMs(stage, t, high).value <= AuthenticationMs(stage, t, low).value
  {
    var n := 5.0 * stage.cha + 1100.0;
    var slow, fast := 850.0 * (n / (low + 150.0)), 850.0 * (n / (high + 150.0));
    Quotient(n, low + 150.0, high + 150.0);
    HasteIsNotNegative(t);
    Scaled(0.0, fast, Haste(t));
    Scaled(fast, slow, Haste(t));
    Divided(0.0, fast * Haste(t), t.intelligenceFactor);
    Divided(fast * Haste(t), slow * Haste(t), t.intelligenceFactor);
  }

  /** Every delay is real and no longer than the first. */
  ghost predicate Shrinking(delay: nat -> Result<real>) {
    forall failed: nat :: delay(failed).Ok? && delay(0).Ok? && 0.0 <= delay(failed).value <= delay(0).value
  }

  lemma FailuresTeach(t: Timing)
    requires t.Trained? && 0.0 <= t.expMultiplier && 0.0 < t.threads
    ensures 0.0 <= FailedExp(t)
  {
    Scaled(0.0, t.threads, 5.5937424601);
    Scaled(0.0, 5.5937424601 * t.threads, t.expMultiplier);
    Scaled(0.0, 5.5937424601 * t.threads * t.expMultiplier, if t.bonusTime then 1.5 else 1.0);
  }

  lemma {:induction false} ExpGrows(t: Timing, failed: nat)
    requires t.Trained? && 0.0 <= t.expMultiplier && 0.0 < t.threads
    ensures t.startExp <= ExpAfter(t, failed)
  {
    if failed > 0 {
      FailuresTeach(t);
      ExpGrows(t, failed - 1);
    }
  }

  /** A player who meets the gate and can only learn is never turned away part-way, and never waits
      longer than the first time. */
  lemma LearnersSpeedUp(stage: Stage, t: Timing)
    requires Teaches(t) && Ready(stage, t).Ok?
    ensures Shrinking(Delays(stage, t))
  {
    var delay := Delays(stage, t);
    forall failed: nat ensures delay(failed).Ok? && delay(0).Ok? && 0.0 <= delay(failed).value <= delay(0).value {
      if t.Trained? {
        ExpGrows(t, failed);
        MoreCharismaIsFaster(stage, t, t.skill(t.startExp), t.skill(ExpAfter(t, failed)));
      }
    }
  }

  // ---------- the protocol ----------

  datatype Decision = Move(direction: Direction) | Radar | Stop(reason: string)

  /** What one paid action reveals; `render` draws the surroundings. */
  datatype Observation =
    | MoveSeen(at: Cell, moved: bool, surroundings: string)
    | RadarSeen(surroundings: string)

  /** A stateful route is any function of what it has been shown so far. */
  type Route = seq<Observation> -> Decision

  datatype LabCase = LabCase(stage: Stage, maze: Maze, start: Cell, exit: Cell, render: (Cell, bool) -> string)

  /** One paid action: the decision and where it left the walker. */
  datatype Action = Action(decision: Decision, from: Cell, to: Cell)

  ghost predicate Moved(a: Action) {
    a.decision.Move? && a.to == Ahead(a.from, a.decision.direction)
  }

  ghost function Shown(lab: LabCase, a: Action): Observation {
    if a.decision.Radar? then RadarSeen(lab.render(a.from, true))
    else MoveSeen(a.to, Moved(a), lab.render(a.to, false))
  }

  ghost function History(lab: LabCase, log: seq<Action>): seq<Observation> {
    seq(|log|, k requires 0 <= k < |log| => Shown(lab, log[k]))
  }

  ghost function Position(lab: LabCase, log: seq<Action>): Cell {
    if log == [] then lab.start else log[|log| - 1].to
  }

  ghost predicate AtExit(lab: LabCase, log: seq<Action>) {
    log != [] && Moved(log[|log| - 1]) && Position(lab, log) == lab.exit
  }

  /** The rules of one action: the route is asked with everything shown so far, a radar never moves
      and a step succeeds exactly when its wall slot is open. */
  ghost predicate Lawful(lab: LabCase, route: Route, before: seq<Action>, a: Action) {
    && !AtExit(lab, before)
    && a.decision == route(History(lab, before)) && !a.decision.Stop?
    && a.from == Position(lab, before)
    && a.to == if a.decision.Move? && Open(lab.maze, a.from, a.decision.direction)
               then Ahead(a.from, a.decision.direction) else a.from
  }

  ghost predicate Legal(lab: LabCase, route: Route, log: seq<Action>) {
    log != [] ==>
      Legal(lab, route, log[..|log| - 1]) && Lawful(lab, route, log[..|log| - 1], log[|log| - 1])
  }

  /** The steps that succeeded. */
  ghost function Steps(log: seq<Action>): seq<Direction> {
    if log == [] then []
    else
      var a := log[|log| - 1];
      Steps(log[..|log| - 1]) + if Moved(a) then [a.decision.direction] else []
  }

  ghost function Radars(log: seq<Action>): nat {
    if log == [] then 0 else Radars(log[..|log| - 1]) + if log[|log| - 1].decision.Radar? then 1 else 0
  }

  /** Authentications that failed: every wall and every step but the one onto the exit. */
  ghost function Failures(lab: LabCase, log: seq<Action>): nat {
    if log == [] then 0
    else Failures(lab, log[..|log| - 1])
         + if log[|log| - 1].decision.Radar? || AtExit(lab, log) then 0 else 1
  }

  /** The time the actions cost, each at the delay of the moment. */
  ghost function Charged(lab: LabCase, delay: nat -> Result<real>, log: seq<Action>): real {
    if log == [] then 0.0
    else
      var before := log[..|log| - 1];
      Charged(lab, delay, before)
      + if delay(Failures(lab, before)).Ok? then delay(Failures(lab, before)).value else 0.0
  }

  /** The walker always stands at the end of the steps that succeeded. */
  lemma {:induction false} StepsLeadHere(lab: LabCase, route: Route, log: seq<Action>)
    requires Legal(lab, route, log)
    ensures Follow(lab.maze, lab.start, Steps(log)) == Some(Position(lab, log))
  {
    if log != [] {
      var before := log[..|log| - 1];
      var a := log[|log| - 1];
      StepsLeadHere(lab, route, before);
      assert Lawful(lab, route, before, a);
      if Moved(a) {
        assert Open(lab.maze, a.from, a.decision.direction);
        FollowOn(lab.maze, lab.start, Steps(before), a.decision.direction);
      } else {
        assert a.to == a.from && Steps(log) == Steps(before);
      }
    }
  }

  function Times(n: nat, x: real): real {
    n as real * x
  }

  lemma OneTimesMore(n: nat, x: real)
    ensures Times(n + 1, x) == Times(n, x) + x
  {}

  /** Time elapsed never exceeds the attempts at the first delay. */
  lemma {:induction false} ElapsedIsBounded(lab: LabCase, delay: nat -> Result<real>, log: seq<Action>)
    requires Shrinking(delay)
    ensures delay(0).Ok? && 0.0 <= Charged(lab, delay, log) <= Times(|log|, delay(0).value)
  {
    if log != [] {
      var before := log[..|log| - 1];
      ElapsedIsBounded(lab, delay, before);
      OneTimesMore(|before|, delay(0).value);
      assert delay(Failures(lab, before)).Ok?;
    }
  }

  /** How a run ended. */
  datatype Ending = Solved | Stopped(reason: string) | Exhausted

  datatype Tally = Tally(attempts: nat, moves: nat, blocked: nat, radars: nat, elapsedMs: real)

  datatype LabRun = LabRun(ending: Ending, tally: Tally, shortestMoves: nat)

  ghost predicate Counts(lab: LabCase, delay: nat -> Result<real>, log: seq<Action>, n: Tally) {
    && n.attempts == |log| && n.moves == |Steps(log)| && n.radars == Radars(log)
    && n.attempts == n.moves + n.blocked + n.radars
    && n.elapsedMs == Charged(lab, delay, log)
  }

  ghost predicate Ended(lab: LabCase, route: Route, log: seq<Action>, cap: nat, ending: Ending) {
    match ending
    case Solved => AtExit(lab, log)
    case Stopped(reason) => !AtExit(lab, log) && |log| < cap && route(History(lab, log)) == Stop(reason)
    case Exhausted => !AtExit(lab, log) && |log| == cap
  }

  lemma LegalGrows(lab: LabCase, route: Route, log: seq<Action>, a: Action)
    requires Legal(lab, route, log) && Lawful(lab, route, log, a)
    ensures Legal(lab, route, log + [a])
  {
    assert (log + [a])[..|log|] == log;
  }

  lemma HistoryGrows(lab: LabCase, log: seq<Action>, a: Action)
    ensures History(lab, log + [a]) == History(lab, log) + [Shown(lab, a)]
  {}

  lemma OneMore(lab: LabCase, delay: nat -> Result<real>, log: seq<Action>, a: Action)
    requires delay(Failures(lab, log)).Ok?
    ensures Steps(log + [a]) == Steps(log) + (if Moved(a) then [a.decision.direction] else [])
    ensures Radars(log + [a]) == Radars(log) + (if a.decision.Radar? then 1 else 0)
    ensures Failures(lab, log + [a]) == Failures(lab, log)
      + (if a.decision.Radar? || AtExit(lab, log + [a]) then 0 else 1)
    ensures Charged(lab, delay, log + [a]) == Charged(lab, delay, log) + delay(Failures(lab, log)).value
  {
    assert (log + [a])[..|log|] == log;
  }

  /** The counters, the position and the route's view after one more lawful action. */
  lemma Advance(lab: LabCase, route: Route, delay: nat -> Result<real>, log: seq<Action>, a: Action, n: Tally)
    requires Legal(lab, route, log) && Lawful(lab, route, log, a)
    requires Counts(lab, delay, log, n) && delay(Failures(lab, log)).Ok?
    ensures Legal(lab, route, log + [a]) && Position(lab, log + [a]) == a.to
    ensures History(lab, log + [a]) == History(lab, log) + [Shown(lab, a)]
    ensures Failures(lab, log + [a]) == Failures(lab, log)
      + (if a.decision.Radar? || AtExit(lab, log + [a]) then 0 else 1)
    ensures Counts(lab, delay, log + [a], Tally(
                     n.attempts + 1,
                     n.moves + (if Moved(a) then 1 else 0),
                     n.blocked + (if a.decision.Move? && !Moved(a) then 1 else 0),
                     n.radars + (if a.decision.Radar? then 1 else 0),
                     n.elapsedMs + delay(Failures(lab, log)).value))
  {
    LegalGrows(lab, route, log, a);
    HistoryGrows(lab, log, a);
    OneMore(lab, delay, log, a);
  }

  /** The run is a legal log of actions, its counters are the log's counts, and it ended as it says. */
  ghost predicate Logged(lab: LabCase, route: Route, delay: nat -> Result<real>, cap: nat, run: LabRun,
      log: seq<Action>) {
    && Legal(lab, route, log) && |log| <= cap
    && Counts(lab, delay, log, run.tally)
    && Ended(lab, route, log, cap, run.ending)
  }

  /** What a finished run promises: an honest log, and the true shortest path beside it. */
  ghost predicate Honest(lab: LabCase, route: Route, delay: nat -> Result<real>, cap: nat, run: LabRun,
      log: seq<Action>) {
    && Logged(lab, route, delay, cap, run, log)
    && Walkable(lab.maze, lab.start, Found(lab.exit, run.shortestMoves))
    && (forall steps | Follow(lab.maze, lab.start, steps) == Some(lab.exit) :: run.shortestMoves <= |steps|)
  }

  /** No route beats the omniscient lower bound. */
  lemma SolvingTakesTheShortestPath(lab: LabCase, route: Route, delay: nat -> Result<real>, cap: nat, run: LabRun,
      log: seq<Action>)
    requires Honest(lab, route, delay, cap, run, log)
    ensures run.tally.attempts == run.tally.moves + run.tally.blocked + run.tally.radars <= cap
    ensures run.ending == Solved ==> run.shortestMoves <= run.tally.moves
  {
    StepsLeadHere(lab, route, log);
  }

  /** No run takes longer than its attempts at the first delay. */
  lemma RunsAreBounded(lab: LabCase, route: Route, delay: nat -> Result<real>, cap: nat, run: LabRun, log: seq<Action>)
    requires Honest(lab, route, delay, cap, run, log) && Shrinking(delay)
    ensures delay(0).Ok? && 0.0 <= run.tally.elapsedMs <= Times(run.tally.attempts, delay(0).value)
  {
    ElapsedIsBounded(lab, delay, log);
  }

  /** One paid action: pay the delay of the moment, then look around or try the step. The player
      learns from every move but the one onto the exit. */
  method Act(lab: LabCase, route: Route, player: LabPlayer, ghost log: seq<Action>, at: Cell, decision: Decision,
      n: Tally)
    returns (r: Result<(Cell, Observation, Tally)>, ghost action: Action)
    requires player.Valid() && player.failures == Failures(lab, log)
    requires Legal(lab, route, log) && !AtExit(lab, log) && Counts(lab, player.delay, log, n)
    requires at == Position(lab, log) && decision == route(History(lab, log)) && !decision.Stop?
    modifies player
    ensures player.Valid()
    ensures r.Failed? ==> player.delay(Failures(lab, log)) == Failed(r.error)
    ensures r.Ok? ==>
      && Lawful(lab, route, log, action) && Legal(lab, route, log + [action])
      && Counts(lab, player.delay, log + [action], r.value.2)
      && r.value.0 == action.to == Position(lab, log + [action])
      && History(lab, log + [action]) == History(lab, log) + [r.value.1]
      && r.value.1 == Shown(lab, action)
      && (AtExit(lab, log + [action]) <==> Moved(action) && r.value.0 == lab.exit)
      && player.failures == Failures(lab, log + [action])
  {
    hide Legal, History, Failures, Position, LabPlayer.Valid, Steps, Radars, Charged;
    action := Action(decision, at,
      if decision.Move? && Open(lab.maze, at, decision.direction) then Ahead(at, decision.direction) else at);
    var cost := player.AuthMs();
    if cost.Failed? { return Failed(cost.error), action; }
    Advance(lab, route, player.delay, log, action, n);
    var paid := n.(attempts := n.attempts + 1, elapsedMs := n.elapsedMs + cost.value);
    if decision.Radar? {
      return Ok((at, RadarSeen(lab.render(at, true)), paid.(radars := n.radars + 1))), action;
    }
    var to := Ahead(at, decision.direction);
    if !Open(lab.maze, at, decision.direction) {
      player.FailedMove();
      return Ok((at, MoveSeen(at, false, lab.render(at, false)), paid.(blocked := n.blocked + 1))), action;
    }
    if to != lab.exit { player.FailedMove(); }
    r := Ok((to, MoveSeen(to, true, lab.render(to, false)), paid.(moves := n.moves + 1)));
  }

  /** Before the first action. */
  lemma NothingYet(lab: LabCase, route: Route, delay: nat -> Result<real>)
    ensures Legal(lab, route, []) && !AtExit(lab, []) && Counts(lab, delay, [], Tally(0, 0, 0, 0, 0.0))
    ensures History(lab, []) == [] && Position(lab, []) == lab.start && Failures(lab, []) == 0
  {
  }

  lemma AttemptsAreLogged(lab: LabCase, delay: nat -> Result<real>, log: seq<Action>, n: Tally)
    requires Counts(lab, delay, log, n)
    ensures n.attempts == |log|
  {
  }

  lemma ShownStep(lab: LabCase, a: Action)
    ensures Shown(lab, a).MoveSeen? && Shown(lab, a).moved <==> Moved(a)
  {
  }

  /** The protocol loop, for a player and a case whose shortest path is known. */
  method Walk(lab: LabCase, route: Route, player: LabPlayer, attemptCap: nat, shortest: nat)
    returns (r: Result<LabRun>, ghost log: seq<Action>)
    requires player.Valid() && player.failures == 0
    modifies player
    ensures r.Ok? ==> Logged(lab, route, player.delay, attemptCap, r.value, log) && r.value.shortestMoves == shortest
    ensures r.Failed? ==> Legal(lab, route, log) && player.delay(Failures(lab, log)) == Failed(r.error)
  {
    hide Legal, Lawful, AtExit, Counts, History, Position, Failures, Shown, Moved, LabPlayer.Valid;
    log := [];
    NothingYet(lab, route, player.delay);
    var at := lab.start;
    var seen: seq<Observation> := [];
    var n := Tally(0, 0, 0, 0, 0.0);
    while n.attempts < attemptCap
      invariant player.Valid() && player.failures == Failures(lab, log)
      invariant Legal(lab, route, log) && |log| <= attemptCap && !AtExit(lab, log)
      invariant Counts(lab, player.delay, log, n)
      invariant seen == History(lab, log) && at == Position(lab, log)
      decreases attemptCap - n.attempts
    {
      AttemptsAreLogged(lab, player.delay, log, n);
      var decision := route(seen);
      if decision.Stop? { return Ok(LabRun(Stopped(decision.reason), n, shortest)), log; }
      var result, action := Act(lab, route, player, log, at, decision, n);
      if result.Failed? { return Failed(result.error), log; }
      var (to, shown, paid) := result.value;
      ShownStep(lab, action);
      log := log + [action];
      n := paid;
      AttemptsAreLogged(lab, player.delay, log, n);
      if shown.MoveSeen? && shown.moved && to == lab.exit {
        return Ok(LabRun(Solved, n, shortest)), log;
      }
      at, seen := to, seen + [shown];
    }
    AttemptsAreLogged(lab, player.delay, log, n);
    r := Ok(LabRun(Exhausted, n, shortest));
  }

  /** Run the protocol against any route. A run that fails does so because no player or no path
      exists, or because the player's own delay is an error at that point. */
  method RunLabCase(lab: LabCase, route: Route, timing: Timing, attemptCap: nat)
    returns (r: Result<LabRun>, ghost log: seq<Action>)
    ensures r.Ok? ==>
      Ready(lab.stage, timing).Ok? && Honest(lab, route, Delays(lab.stage, timing), attemptCap, r.value, log)
    ensures r.Failed? ==>
      || Ready(lab.stage, timing) == Failed(r.error)
      || (r.error == ExitUnreachable && forall steps :: Follow(lab.maze, lab.start, steps) != Some(lab.exit))
      || (Legal(lab, route, log) && Delays(lab.stage, timing)(Failures(lab, log)) == Failed(r.error))
  {
    log := [];
    if timing.Fixed? && timing.authenticationMs < 0.0 { return Failed(InvalidTiming), log; }
    if timing.Trained? && timing.skill(timing.startExp) < lab.stage.cha { return Failed(BelowGate), log; }
    var player := new LabPlayer(lab.stage, timing);
    var shortest := ShortestLabPath(lab.maze, lab.start, lab.exit);
    if shortest.None? { return Failed(ExitUnreachable), log; }
    r, log := Walk(lab, route, player, attemptCap, shortest.value);
  }
}
