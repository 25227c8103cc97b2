/** The darknet farm lane as a function of its planners, its net and its waits (sim/dnet-farm.ts): what each step
    does to the residents, their armour and the open outages, and the history of moments the steps make. */
module FarmSteps {
  import opened Collections
  import opened RestartLedger
  import opened Wrappers

  datatype Kind = Inventory | Attempt | Reclaim | Phish | Cache | Storm

  datatype Job = Job(kind: Kind, target: Host, doneAt: int)

  datatype Agent = Agent(bootstrap: bool, job: Option<Job>)

  datatype Plant = Plant(host: Host, bootstrap: bool)

  datatype Task = Task(kind: Kind, from: Host, target: Host, wait: nat)

  /** What the planners and the net answer in one derive pass. */
  datatype Derivation = Derivation(
    plants: seq<Plant>, online: set<Host>, stale: set<Host>, armourWanted: set<Host>, tasks: seq<Task>)

  /** What a mutation step does: the restarted hosts with their free capacity, and what is online after. */
  datatype Mutation = Mutation(restarted: seq<(Host, real)>, storm: bool, online: set<Host>)

  /** Every answer of a run, by the number of the question. */
  datatype Script = Script(
    derive: nat -> Derivation, mutate: nat -> Mutation, cleared: nat -> set<Host>, walkerMs: nat -> int)

  datatype Policy = Policy(armour: bool, walkerHost: Option<Host>)

  datatype Setup = Setup(policy: Policy, warmupMs: nat, capMs: int, mutationEveryMs: int)

  const DERIVE_COALESCE_MS := 500
  const CACHE_OPEN_MS := 200
  const STORM_FIRE_MS := 1_000

  function Max(a: real, b: real): real { if a < b then b else a }

  /** What stands on the net, and what has been counted of it. */
  datatype Residents = Residents(
    agents: map<Host, Agent>, armoured: set<Host>, outages: map<Host, Outage>,
    occupied: nat, dodged: nat, storm: nat, recovered: nat, peak: nat)

  // ---------- a mutation step ----------

  /** One restart: nothing to a host without a resident; an armoured resident is back at once, its armour spent; any
      other is gone, and its host is down from now on. */
  ghost function AfterRestart(r: Residents, name: Host, freeGb: real, storm: bool, clock: int): Residents {
    if name !in r.agents then r
    else
      var hit := r.(occupied := r.occupied + 1, storm := if storm then r.storm + 1 else r.storm,
                    armoured := r.armoured - {name});
      if name in r.armoured then hit.(agents := r.agents[name := Agent(false, None)], dodged := r.dodged + 1)
      else hit.(agents := r.agents - {name}, outages := r.outages[name := Outage(clock, Max(0.0, freeGb))])
  }

  ghost function AfterRestarts(r: Residents, restarted: seq<(Host, real)>, storm: bool, clock: int): Residents {
    if restarted == [] then r
    else
      var last := restarted[|restarted| - 1];
      AfterRestart(AfterRestarts(r, restarted[..|restarted| - 1], storm, clock), last.0, last.1, storm, clock)
  }

  ghost function AfterSweep(r: Residents, online: set<Host>): Residents {
    r.(agents := map h | h in r.agents && h in online :: r.agents[h], armoured := r.armoured * online)
  }

  ghost function AfterMutation(r: Residents, m: Mutation, clock: int): Residents {
    AfterSweep(AfterRestarts(r, m.restarted, m.storm, clock), m.online)
  }

  /** Restarts stand no resident anywhere new and start no job. */
  lemma {:induction false} RestartsOnlyTake(r: Residents, restarted: seq<(Host, real)>, storm: bool, clock: int)
    ensures var after := AfterRestarts(r, restarted, storm, clock).agents;
      after.Keys <= r.agents.Keys && forall h <- after :: after[h] == r.agents[h] || after[h].job.None?
  {
    if restarted != [] {
      RestartsOnlyTake(r, restarted[..|restarted| - 1], storm, clock);
    }
  }

  // ---------- a derive pass ----------

  predicate Plantable(r: Residents, host: Host, online: set<Host>, policy: Policy) {
    policy.walkerHost != Some(host) && host !in r.agents && host in online
  }

  ghost function AfterPlant(r: Residents, plant: Plant, online: set<Host>, policy: Policy): Residents {
    if !Plantable(r, plant.host, online, policy) then r
    else r.(agents := r.agents[plant.host := Agent(plant.bootstrap, None)],
            outages := r.outages - {plant.host},
            recovered := if plant.host in r.outages then r.recovered + 1 else r.recovered)
  }

  ghost function AfterPlants(r: Residents, plants: seq<Plant>, online: set<Host>, policy: Policy): Residents {
    if plants == [] then r
    else AfterPlant(AfterPlants(r, plants[..|plants| - 1], online, policy), plants[|plants| - 1], online, policy)
  }

  ghost function AfterInventory(r: Residents, online: set<Host>, stale: set<Host>, clock: int): Residents {
    r.(agents := map h | h in r.agents ::
      var agent := r.agents[h];
      if agent.job.None? && !agent.bootstrap && h in online && h in stale
      then agent.(job := Some(Job(Inventory, h, clock))) else agent)
  }

  ghost function AfterArmour(r: Residents, wanted: set<Host>, policy: Policy): Residents {
    if !policy.armour then r
    else
      var armoured := set h | h in r.agents && if r.agents[h].job.Some? then h in r.armoured else h in wanted;
      r.(armoured := armoured, peak := if r.peak < |armoured| then |armoured| else r.peak)
  }

  function WaitOf(task: Task): nat {
    match task.kind case Cache => CACHE_OPEN_MS case Storm => STORM_FIRE_MS case _ => task.wait
  }

  /** Whether a task would run on the walker's host, or touch it from outside. */
  predicate DisturbsWalker(task: Task, policy: Policy) {
    policy.walkerHost.Some?
    && (task.from == policy.walkerHost.value
        || (task.target == policy.walkerHost.value
            && (task.kind == Reclaim || task.kind == Attempt || task.kind == Cache)))
  }

  /** An idle resident takes a task that leaves the walker alone; a bootstrap resident only reclaims. */
  predicate Takes(agents: map<Host, Agent>, task: Task, policy: Policy) {
    && task.from in agents && agents[task.from].job.None? && !DisturbsWalker(task, policy)
    && (agents[task.from].bootstrap ==> task.kind == Reclaim)
  }

  ghost function AfterTask(agents: map<Host, Agent>, task: Task, clock: int, policy: Policy): map<Host, Agent> {
    if !Takes(agents, task, policy) then agents
    else agents[task.from := agents[task.from].(job := Some(Job(task.kind, task.target, clock + WaitOf(task))))]
  }

  ghost function AfterTasks(agents: map<Host, Agent>, tasks: seq<Task>, clock: int, policy: Policy): map<Host, Agent> {
    if tasks == [] then agents
    else AfterTask(AfterTasks(agents, tasks[..|tasks| - 1], clock, policy), tasks[|tasks| - 1], clock, policy)
  }

  ghost function AfterDerive(r: Residents, d: Derivation, clock: int, policy: Policy): Residents {
    var stocked := AfterInventory(AfterPlants(r, d.plants, d.online, policy), d.online, d.stale, clock);
    var armed := AfterArmour(stocked, d.armourWanted, policy);
    armed.(agents := AfterTasks(armed.agents, d.tasks, clock, policy))
  }

  // ---------- the boundary and the jobs ----------

  /** The warmup is forgotten: counts restart, and open outages are charged from here. */
  ghost function AfterBoundary(r: Residents, clock: int): Residents {
    Residents(r.agents, r.armoured, map h | h in r.outages :: Outage(clock, r.outages[h].usableGb),
              0, 0, 0, 0, |r.armoured|)
  }

  /** A resident whose job has run its time. */
  predicate Due(agent: Agent, clock: int) {
    agent.job.Some? && agent.job.value.doneAt <= clock
  }

  ghost predicate AnyDue(agents: map<Host, Agent>, clock: int) {
    exists h <- agents :: Due(agents[h], clock)
  }

  /** A bootstrap resident leaves when its reclaim clears the host. */
  predicate Leaves(name: Host, agent: Agent, cleared: set<Host>) {
    agent.job.Some? && agent.job.value.kind == Reclaim && name in cleared && agent.bootstrap
  }

  ghost function AfterJobs(r: Residents, cleared: set<Host>, clock: int): Residents {
    var left := map h | h in r.agents && !(Due(r.agents[h], clock) && Leaves(h, r.agents[h], cleared)) ::
      if Due(r.agents[h], clock) then r.agents[h].(job := None) else r.agents[h];
    r.(agents := left, armoured := r.armoured * left.Keys)
  }

  // ---------- the pace of the loop ----------

  /** What the loop remembers between iterations: when the net mutates next, when the walker tries next, when a
      derive last ran and whether one is owed, and whether the measurement has begun. */
  datatype Pace = Pace(
    mutationAt: int, walkerAt: Option<int>, derivedAt: Option<int>, deriveDue: bool, measuring: bool)

  /** Where the loop stands before an iteration. */
  datatype Moment = Moment(clock: int, r: Residents, pace: Pace)

  /** Whether the loop derives at `clock`. */
  predicate CanDerive(pace: Pace, clock: int) {
    pace.deriveDue && (pace.derivedAt.None? || pace.derivedAt.value + DERIVE_COALESCE_MS <= clock)
  }

  ghost function Derived(m: Moment, setup: Setup, d: Derivation): Moment {
    if !CanDerive(m.pace, m.clock) then m
    else m.(r := AfterDerive(m.r, d, m.clock, setup.policy),
            pace := m.pace.(derivedAt := Some(m.clock), deriveDue := false))
  }

  function Times(time: Option<int>): set<int> {
    if time.Some? then {time.value} else {}
  }

  /** The instant of the measurement boundary, while it lies ahead. */
  function BoundaryAt(pace: Pace, setup: Setup): Option<int> {
    if pace.measuring then None else Some(setup.warmupMs)
  }

  /** The instant of the next coalesced derive, if one is owed. */
  function DeriveAt(pace: Pace): Option<int> {
    if pace.deriveDue && pace.derivedAt.Some? then Some(pace.derivedAt.value + DERIVE_COALESCE_MS) else None
  }

  function JobEnds(agents: map<Host, Agent>): set<int> {
    set h | h in agents && agents[h].job.Some? :: agents[h].job.value.doneAt
  }

  /** Every instant at which something is to happen. */
  function Instants(pace: Pace, agents: map<Host, Agent>, setup: Setup): set<int> {
    {pace.mutationAt} + Times(pace.walkerAt) + Times(BoundaryAt(pace, setup)) + Times(DeriveAt(pace)) + JobEnds(agents)
  }

  ghost predicate IsEarliest(time: int, times: set<int>) {
    time in times && forall t <- times :: time <= t
  }

  lemma {:induction false} SomeEarliest(times: set<int>)
    requires times != {}
    ensures exists t :: IsEarliest(t, times)
  {
    var t := Member(times);
    var rest := times - {t};
    var s := t;
    if rest != {} {
      SomeEarliest(rest);
      s :| IsEarliest(s, rest);
    }
    var least := if t < s then t else s;
    forall x <- times ensures least <= x {
      assert x == t || x in rest;
    }
    assert IsEarliest(least, times);
  }

  ghost function Earliest(times: set<int>): (time: int)
    requires times != {}
    ensures IsEarliest(time, times)
  {
    SomeEarliest(times);
    var t :| IsEarliest(t, times);
    t
  }

  /** The earliest of some times, compared with more of them. */
  lemma EarlierStill(time: int, times: set<int>, more: set<int>, next: int)
    requires IsEarliest(time, times) && IsEarliest(next, {time} + more)
    ensures IsEarliest(next, times + more)
  {
    assert time in {time} + more;
  }

  lemma OneEarliest(time: int, times: set<int>)
    requires IsEarliest(time, times)
    ensures time == Earliest(times)
  {
  }

  predicate NotBefore(lower: int, time: Option<int>) {
    time.Some? ==> lower <= time.value
  }

  lemma NothingSooner(next: int, pace: Pace, agents: map<Host, Agent>, setup: Setup)
    requires IsEarliest(next, Instants(pace, agents, setup))
    ensures next <= pace.mutationAt && NotBefore(next, pace.walkerAt) && NotBefore(next, BoundaryAt(pace, setup))
  {
    var times := Instants(pace, agents, setup);
    assert pace.mutationAt in times;
    assert pace.walkerAt.Some? ==> pace.walkerAt.value in times;
    assert !pace.measuring ==> setup.warmupMs in times;
  }

  ghost function Until(m: Moment, setup: Setup): int {
    var next := Earliest(Instants(m.pace, m.r.agents, setup));
    if next < setup.capMs then next else setup.capMs
  }

  ghost function Arrived(m: Moment, setup: Setup, d: Derivation): Moment {
    var derived := Derived(m, setup, d);
    derived.(clock := Until(derived, setup))
  }

  predicate Begins(pace: Pace, setup: Setup, clock: int) {
    !pace.measuring && setup.warmupMs <= clock
  }

  /** What the boundary and a mutation at one instant leave, before the jobs due there complete. */
  ghost function Disturbed(m: Moment, setup: Setup, mutation: Mutation): Residents {
    var counted := if Begins(m.pace, setup, m.clock) then AfterBoundary(m.r, m.clock) else m.r;
    if m.pace.mutationAt <= m.clock then AfterMutation(counted, mutation, m.clock) else counted
  }

  /** The pace once an instant is settled at which a job completed, or none did. */
  function PaceAfter(pace: Pace, setup: Setup, clock: int, walkerMs: int, completed: bool): Pace {
    var mutates := pace.mutationAt <= clock;
    Pace(
      if mutates then pace.mutationAt + setup.mutationEveryMs else pace.mutationAt,
      if pace.walkerAt.Some? && pace.walkerAt.value <= clock then Some(clock + walkerMs) else pace.walkerAt,
      pace.derivedAt,
      pace.deriveDue || mutates || completed,
      pace.measuring || Begins(pace, setup, clock))
  }

  /** The boundary first, then the walker and a due mutation, then the due jobs. */
  ghost function Settled(m: Moment, setup: Setup, mutation: Mutation, cleared: set<Host>, walkerMs: int): Moment {
    var disturbed := Disturbed(m, setup, mutation);
    Moment(m.clock, AfterJobs(disturbed, cleared, m.clock),
           PaceAfter(m.pace, setup, m.clock, walkerMs, AnyDue(disturbed.agents, m.clock)))
  }

  // ---------- the history ----------

  /** One iteration of the loop: derive if one is due, let time pass to the next instant, settle it unless the
      run is over. */
  ghost function Iteration(m: Moment, setup: Setup, script: Script, step: nat): Moment {
    var arrived := Arrived(m, setup, script.derive(step));
    if setup.capMs <= arrived.clock then arrived
    else Settled(arrived, setup, script.mutate(step), script.cleared(step), script.walkerMs(step))
  }

  function FirstPace(setup: Setup, script: Script, walking: bool): Pace {
    Pace(setup.mutationEveryMs, if walking then Some(script.walkerMs(0)) else None, None, true, setup.warmupMs == 0)
  }

  ghost function History(start: Moment, setup: Setup, script: Script, n: nat): Moment {
    if n == 0 then start else Iteration(History(start, setup, script, n - 1), setup, script, n)
  }

  /** What stood while time passed from a moment on. */
  ghost function SliceFrom(m: Moment, setup: Setup, d: Derivation): Slice {
    var arrived := Arrived(m, setup, d);
    Slice(m.clock, arrived.clock, arrived.r.armoured, arrived.r.outages)
  }

  /** The slices since the measurement began. */
  ghost function WindowOf(start: Moment, setup: Setup, script: Script, n: nat): seq<Slice> {
    if n == 0 then []
    else
      var m := History(start, setup, script, n - 1);
      if !m.pace.measuring && Iteration(m, setup, script, n).pace.measuring then []
      else WindowOf(start, setup, script, n - 1) + [SliceFrom(m, setup, script.derive(n))]
  }

  /** No moment before the `n`-th has reached the cap. */
  ghost predicate NotAtCap(start: Moment, setup: Setup, script: Script, n: nat) {
    forall k: nat | k < n :: History(start, setup, script, k).clock < setup.capMs
  }

  ghost predicate FirstAtCap(start: Moment, setup: Setup, script: Script, n: nat) {
    NotAtCap(start, setup, script, n) && History(start, setup, script, n).clock == setup.capMs
  }

  /** Of any three moments in a row the last is later than the first: never two iterations without time passing. */
  ghost predicate KeepsMoving(start: Moment, setup: Setup, script: Script, n: nat) {
    forall k: nat | k + 2 <= n :: History(start, setup, script, k).clock < History(start, setup, script, k + 2).clock
  }

  lemma StandsStill(start: Moment, setup: Setup, script: Script)
    ensures KeepsMoving(start, setup, script, 0)
  {
  }

  lemma MovesOn(start: Moment, setup: Setup, script: Script, n: nat)
    requires 0 < n && KeepsMoving(start, setup, script, n - 1)
    requires 2 <= n ==> History(start, setup, script, n - 2).clock < History(start, setup, script, n).clock
    ensures KeepsMoving(start, setup, script, n)
  {
    hide History;
    forall k: nat | k + 2 <= n
      ensures History(start, setup, script, k).clock < History(start, setup, script, k + 2).clock
    {
      if k + 2 < n {
        assert k + 2 <= n - 1;
      }
    }
  }

  lemma AtTheCap(start: Moment, setup: Setup, script: Script, n: nat)
    requires NotAtCap(start, setup, script, n) && History(start, setup, script, n).clock == setup.capMs
    ensures FirstAtCap(start, setup, script, n)
  {
  }

  lemma HistoryOpens(start: Moment, setup: Setup, script: Script)
    ensures History(start, setup, script, 0) == start && WindowOf(start, setup, script, 0) == []
    ensures NotAtCap(start, setup, script, 0)
  {
  }

  lemma HistoryGoesOn(start: Moment, setup: Setup, script: Script, n: nat)
    requires 0 < n && NotAtCap(start, setup, script, n - 1)
    requires History(start, setup, script, n - 1).clock < setup.capMs
    ensures NotAtCap(start, setup, script, n)
    ensures var m := History(start, setup, script, n - 1);
      var now := Iteration(m, setup, script, n);
      && History(start, setup, script, n) == now
      && WindowOf(start, setup, script, n)
         == if !m.pace.measuring && now.pace.measuring then []
            else WindowOf(start, setup, script, n - 1) + [SliceFrom(m, setup, script.derive(n))]
  {
    hide Iteration, SliceFrom;
  }

  // ---------- what opens and closes an outage ----------

  lemma {:induction false} RestartsOpenOutages(r: Residents, restarted: seq<(Host, real)>, storm: bool, clock: int,
      h: Host)
    ensures var after := AfterRestarts(r, restarted, storm, clock);
      h in after.outages && h !in r.outages ==>
        h in r.agents && exists restart <- restarted :: restart.0 == h
    ensures r.outages.Keys <= AfterRestarts(r, restarted, storm, clock).outages.Keys
  {
    if restarted != [] {
      var rest, last := restarted[..|restarted| - 1], restarted[|restarted| - 1];
      RestartsOpenOutages(r, rest, storm, clock, h);
      RestartsOnlyTake(r, rest, storm, clock);
      assert restarted == rest + [last];
    }
  }

  /** Between two slices an outage opens only where a restart of a due mutation takes a resident, and none closes. */
  lemma OutagesOpenByRestart(m: Moment, setup: Setup, script: Script, n: nat, h: Host)
    ensures var slice, now := SliceFrom(m, setup, script.derive(n)), Iteration(m, setup, script, n);
      && slice.outages.Keys <= now.r.outages.Keys
      && (h in now.r.outages && h !in slice.outages ==>
            && m.pace.mutationAt <= now.clock
            && h in Derived(m, setup, script.derive(n)).r.agents
            && exists restart <- script.mutate(n).restarted :: restart.0 == h)
  {
    hide Derived, AfterRestarts, Until, AnyDue;
    var arrived := Arrived(m, setup, script.derive(n));
    var restarted, storm := script.mutate(n).restarted, script.mutate(n).storm;
    SamePace(m, setup, script.derive(n));
    RestartsOpenOutages(arrived.r, restarted, storm, arrived.clock, h);
    RestartsOpenOutages(AfterBoundary(arrived.r, arrived.clock), restarted, storm, arrived.clock, h);
  }

  lemma SamePace(m: Moment, setup: Setup, d: Derivation)
    ensures Derived(m, setup, d).pace.mutationAt == m.pace.mutationAt
  {
  }

  /** Before a slice an outage closes only where a derive plants a resident, and none opens. */
  lemma OutagesCloseByPlanting(m: Moment, setup: Setup, d: Derivation, h: Host)
    ensures var slice := SliceFrom(m, setup, d);
      && slice.outages.Keys <= m.r.outages.Keys
      && (h in m.r.outages && h !in slice.outages ==>
            && CanDerive(m.pace, m.clock) && h in d.online && setup.policy.walkerHost != Some(h)
            && exists plant <- d.plants :: plant.host == h)
  {
    hide AfterPlants, AfterTasks, Until;
    PlantsCloseOutages(m.r, d.plants, d.online, setup.policy, h);
  }

  lemma {:induction false} PlantsCloseOutages(r: Residents, plants: seq<Plant>, online: set<Host>, policy: Policy,
      h: Host)
    ensures var after := AfterPlants(r, plants, online, policy);
      && after.outages.Keys <= r.outages.Keys
      && (h in r.outages && h !in after.outages ==>
            h in online && policy.walkerHost != Some(h) && exists plant <- plants :: plant.host == h)
  {
    if plants != [] {
      var rest, last := plants[..|plants| - 1], plants[|plants| - 1];
      PlantsCloseOutages(r, rest, online, policy, h);
      assert plants == rest + [last];
    }
  }
}
