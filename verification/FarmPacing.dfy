/** When the darknet farm lane mutates, tries the walker and derives (sim/dnet-farm.ts), read off its history: the
    clock and the residents of its moments. */
module FarmPacing {
  import opened Collections
  import opened FarmSteps
  import opened RestartLedger
  import opened Wrappers

  /** What a case may start from: nothing under way, and every wait ahead a positive number. */
  ghost predicate Startable(start: Moment, setup: Setup, script: Script, walking: bool) {
    && start.clock == 0 && start.pace == FirstPace(setup, script, walking)
    && (forall h <- start.r.agents :: start.r.agents[h].job.None?)
    && start.r.outages.Keys !! start.r.agents.Keys
    && setup.warmupMs < setup.capMs && 0 < setup.mutationEveryMs
    && forall n: nat :: 0 < script.walkerMs(n)
  }

  ghost predicate JobsFrom(agents: map<Host, Agent>, lower: int) {
    forall h <- agents | agents[h].job.Some? :: lower <= agents[h].job.value.doneAt
  }

  /** Between iterations everything awaited lies ahead, and what has passed has been seen to. */
  ghost predicate Poised(m: Moment, setup: Setup) {
    && 0 <= m.clock && JobsFrom(m.r.agents, m.clock + 1) && m.r.outages.Keys !! m.r.agents.Keys
    && NotBefore(m.clock + 1, m.pace.walkerAt)
    && m.pace.mutationAt - setup.mutationEveryMs <= m.clock < m.pace.mutationAt
    && m.pace.mutationAt % setup.mutationEveryMs == 0
    && (m.pace.measuring <==> setup.warmupMs <= m.clock)
    && (if m.pace.derivedAt.None? then m.pace.deriveDue else m.pace.derivedAt.value <= m.clock)
  }

  // ---------- a derive pass keeps the residents in order ----------

  /** An outage is a host without a resident, before a plant and after it. */
  lemma {:induction false} PlantsKeepApart(r: Residents, plants: seq<Plant>, online: set<Host>, policy: Policy)
    requires r.outages.Keys !! r.agents.Keys
    ensures var after := AfterPlants(r, plants, online, policy);
      after.outages.Keys !! after.agents.Keys
  {
    if plants != [] {
      PlantsKeepApart(r, plants[..|plants| - 1], online, policy);
    }
  }

  lemma {:induction false} PlantsStartNoJob(r: Residents, plants: seq<Plant>, online: set<Host>, policy: Policy,
      lower: int)
    requires JobsFrom(r.agents, lower)
    ensures JobsFrom(AfterPlants(r, plants, online, policy).agents, lower)
  {
    if plants != [] {
      PlantsStartNoJob(r, plants[..|plants| - 1], online, policy, lower);
    }
  }

  /** A plan to stand a resident on an online host, other than the walker's, leaves no outage there. */
  lemma {:induction false} PlantCloses(r: Residents, plants: seq<Plant>, online: set<Host>, policy: Policy,
      plant: Plant)
    requires r.outages.Keys !! r.agents.Keys && plant in plants
    requires plant.host in online && policy.walkerHost != Some(plant.host)
    ensures plant.host !in AfterPlants(r, plants, online, policy).outages
  {
    var rest, last := plants[..|plants| - 1], plants[|plants| - 1];
    assert plants == rest + [last];
    PlantsKeepApart(r, rest, online, policy);
    if plant in rest {
      PlantCloses(r, rest, online, policy, plant);
    }
  }

  lemma {:induction false} TasksKeepJobs(agents: map<Host, Agent>, tasks: seq<Task>, clock: int, policy: Policy)
    requires JobsFrom(agents, clock)
    ensures JobsFrom(AfterTasks(agents, tasks, clock, policy), clock)
    ensures AfterTasks(agents, tasks, clock, policy).Keys == agents.Keys
  {
    if tasks != [] {
      TasksKeepJobs(agents, tasks[..|tasks| - 1], clock, policy);
    }
  }

  lemma DeriveKeeps(r: Residents, d: Derivation, clock: int, policy: Policy)
    requires r.outages.Keys !! r.agents.Keys && JobsFrom(r.agents, clock)
    ensures var after := AfterDerive(r, d, clock, policy);
      after.outages.Keys !! after.agents.Keys && JobsFrom(after.agents, clock)
    ensures AfterDerive(r, d, clock, policy).outages == AfterPlants(r, d.plants, d.online, policy).outages
  {
    hide AfterPlants, AfterTasks;
    PlantsKeepApart(r, d.plants, d.online, policy);
    PlantsStartNoJob(r, d.plants, d.online, policy, clock);
    var stocked := AfterInventory(AfterPlants(r, d.plants, d.online, policy), d.online, d.stale, clock);
    var armed := AfterArmour(stocked, d.armourWanted, policy);
    TasksKeepJobs(armed.agents, d.tasks, clock, policy);
  }

  // ---------- and so does a settled instant ----------

  lemma {:induction false} RestartsKeep(r: Residents, restarted: seq<(Host, real)>, storm: bool, clock: int, lower: int)
    requires r.outages.Keys !! r.agents.Keys && JobsFrom(r.agents, lower)
    ensures var after := AfterRestarts(r, restarted, storm, clock);
      after.outages.Keys !! after.agents.Keys && JobsFrom(after.agents, lower)
  {
    if restarted != [] {
      RestartsKeep(r, restarted[..|restarted| - 1], storm, clock, lower);
    }
  }

  lemma DisturbedKeeps(m: Moment, setup: Setup, mutation: Mutation, lower: int)
    requires m.r.outages.Keys !! m.r.agents.Keys && JobsFrom(m.r.agents, lower)
    ensures var r := Disturbed(m, setup, mutation);
      r.outages.Keys !! r.agents.Keys && JobsFrom(r.agents, lower)
  {
    hide AfterRestarts;
    var counted := if Begins(m.pace, setup, m.clock) then AfterBoundary(m.r, m.clock) else m.r;
    RestartsKeep(counted, mutation.restarted, mutation.storm, m.clock, lower);
  }

  lemma JobsDone(r: Residents, cleared: set<Host>, clock: int)
    requires r.outages.Keys !! r.agents.Keys
    ensures var after := AfterJobs(r, cleared, clock);
      after.outages.Keys !! after.agents.Keys && JobsFrom(after.agents, clock + 1)
  {
  }

  // ---------- where the loop wakes ----------

  /** Time passes to no later than anything awaited, and passes at all unless a derive just ran. */
  lemma ArrivesInTime(m: Moment, setup: Setup, d: Derivation)
    requires Poised(m, setup) && m.clock < setup.capMs
    ensures var a := Arrived(m, setup, d);
      && m.clock <= a.clock <= setup.capMs && (a.clock == m.clock ==> CanDerive(m.pace, m.clock))
      && JobsFrom(a.r.agents, a.clock) && a.r.outages.Keys !! a.r.agents.Keys
      && a.clock <= a.pace.mutationAt && NotBefore(a.clock, a.pace.walkerAt)
      && (!a.pace.measuring ==> a.clock <= setup.warmupMs)
      && NotBefore(a.clock, DeriveAt(a.pace))
      && a.pace
        == if CanDerive(m.pace, m.clock) then m.pace.(derivedAt := Some(m.clock), deriveDue := false) else m.pace
  {
    hide AfterDerive, Earliest;
    DeriveKeeps(m.r, d, m.clock, setup.policy);
    var derived := Derived(m, setup, d);
    var lower := if CanDerive(m.pace, m.clock) then m.clock else m.clock + 1;
    var next := Earliest(Instants(derived.pace, derived.r.agents, setup));
    InstantsFrom(derived, setup, lower, next);
  }

  lemma InstantsFrom(m: Moment, setup: Setup, lower: int, next: int)
    requires JobsFrom(m.r.agents, lower) && lower <= m.pace.mutationAt && NotBefore(lower, m.pace.walkerAt)
    requires !m.pace.measuring ==> lower <= setup.warmupMs
    requires NotBefore(lower, DeriveAt(m.pace))
    requires IsEarliest(next, Instants(m.pace, m.r.agents, setup))
    ensures lower <= next && JobsFrom(m.r.agents, next) && NotBefore(next, DeriveAt(m.pace))
    ensures next <= m.pace.mutationAt && NotBefore(next, m.pace.walkerAt)
    ensures !m.pace.measuring ==> next <= setup.warmupMs
  {
    var times := Instants(m.pace, m.r.agents, setup);
    NothingSooner(next, m.pace, m.r.agents, setup);
    forall h <- m.r.agents | m.r.agents[h].job.Some? ensures next <= m.r.agents[h].job.value.doneAt {
      assert m.r.agents[h].job.value.doneAt in JobEnds(m.r.agents);
      assert m.r.agents[h].job.value.doneAt in times;
    }
    if DeriveAt(m.pace).Some? { assert DeriveAt(m.pace).value in times; }
  }

  // ---------- every moment before the cap is poised ----------

  lemma NextMultiple(at: int, every: int)
    requires 0 < every && at % every == 0
    ensures (at + every) % every == 0
  {
    var q := at / every;
    assert at == q * every;
    NothingLeft(q + 1, every, at + every, (at + every) / every, (at + every) % every);
  }

  lemma NothingLeft(q: int, every: int, x: int, d: int, r: int)
    requires 0 < every && x == q * every && x == d * every + r && 0 <= r < every
    ensures r == 0
  {
    if q < d { Fewer(q + 1, d, every); }
    if d < q { Fewer(d + 1, q, every); }
  }

  lemma SettledIsPoised(before: Moment, a: Moment, setup: Setup, mutation: Mutation, cleared: set<Host>, walkerMs: int)
    requires 0 < setup.mutationEveryMs && 0 < walkerMs
    requires Poised(before, setup) && before.clock <= a.clock && a.clock < setup.capMs
    requires JobsFrom(a.r.agents, a.clock) && a.r.outages.Keys !! a.r.agents.Keys
    requires a.clock <= a.pace.mutationAt && NotBefore(a.clock, a.pace.walkerAt)
    requires !a.pace.measuring ==> a.clock <= setup.warmupMs
    requires a.pace.mutationAt == before.pace.mutationAt && a.pace.measuring == before.pace.measuring
    requires if a.pace.derivedAt.None? then a.pace.deriveDue else a.pace.derivedAt.value <= a.clock
    ensures Poised(Settled(a, setup, mutation, cleared, walkerMs), setup)
  {
    hide AfterJobs, Disturbed, AnyDue;
    var disturbed := Disturbed(a, setup, mutation);
    DisturbedKeeps(a, setup, mutation, a.clock);
    JobsDone(disturbed, cleared, a.clock);
    NextMultiple(a.pace.mutationAt, setup.mutationEveryMs);
  }

  /** An iteration never turns the clock back, and short of the cap leaves the loop poised. */
  lemma IterationIsPoised(m: Moment, setup: Setup, script: Script, n: nat)
    requires Poised(m, setup) && m.clock < setup.capMs && 0 < setup.mutationEveryMs && 0 < script.walkerMs(n)
    ensures var now := Iteration(m, setup, script, n);
      m.clock <= now.clock <= setup.capMs && (now.clock < setup.capMs ==> Poised(now, setup))
  {
    hide Arrived, Settled, Poised, AfterDerive;
    var a := Arrived(m, setup, script.derive(n));
    ArrivesInTime(m, setup, script.derive(n));
    if a.clock < setup.capMs {
      PoisedPace(m, setup);
      SettledClock(a, setup, script, n);
      SettledIsPoised(m, a, setup, script.mutate(n), script.cleared(n), script.walkerMs(n));
    }
  }

  lemma PoisedPace(m: Moment, setup: Setup)
    requires Poised(m, setup)
    ensures if m.pace.derivedAt.None? then m.pace.deriveDue else m.pace.derivedAt.value <= m.clock
  {
  }

  lemma StartIsPoised(start: Moment, setup: Setup, script: Script, walking: bool)
    requires Startable(start, setup, script, walking)
    ensures Poised(start, setup)
  {
  }

  lemma {:induction false} HistoryIsPoised(start: Moment, setup: Setup, script: Script, walking: bool, n: nat)
    requires Startable(start, setup, script, walking) && NotAtCap(start, setup, script, n)
    ensures var m := History(start, setup, script, n);
      m.clock <= setup.capMs && (m.clock < setup.capMs ==> Poised(m, setup))
    ensures 0 < n ==> History(start, setup, script, n - 1).clock <= History(start, setup, script, n).clock
  {
    hide Iteration, Poised;
    if n == 0 {
      StartIsPoised(start, setup, script, walking);
      assert start.clock == 0 < setup.capMs;
    } else {
      HistoryIsPoised(start, setup, script, walking, n - 1);
      assert History(start, setup, script, n - 1).clock < setup.capMs;
      IterationIsPoised(History(start, setup, script, n - 1), setup, script, n);
    }
  }

  lemma {:induction false} TimeClimbs(start: Moment, setup: Setup, script: Script, walking: bool, j: nat, n: nat)
    requires Startable(start, setup, script, walking) && NotAtCap(start, setup, script, n) && j <= n
    ensures History(start, setup, script, j).clock <= History(start, setup, script, n).clock
    decreases n
  {
    hide History;
    if j < n {
      HistoryIsPoised(start, setup, script, walking, n);
      TimeClimbs(start, setup, script, walking, j, n - 1);
    }
  }

  // ---------- mutations, walker attempts and the boundary ----------

  /** Whether the `n`-th iteration settles a mutation: its net is what the script answers. */
  ghost predicate Mutates(start: Moment, setup: Setup, script: Script, n: nat)
    requires 0 < n
  {
    var a := Arrived(History(start, setup, script, n - 1), setup, script.derive(n));
    a.clock < setup.capMs && a.pace.mutationAt <= a.clock
  }

  lemma OnlyMultiple(a: int, b: int, every: int)
    requires 0 < every && a % every == 0 && b % every == 0 && a - every < b <= a
    ensures a == b
  {
    var p, q := a / every, b / every;
    assert a == p * every && b == q * every;
    if q < p { Fewer(q, p - 1, every); }
    if p < q { Fewer(p + 1, q, every); }
  }

  lemma Fewer(p: int, q: int, every: int)
    requires p <= q && 0 < every
    ensures p * every <= q * every
  {
  }

  /** The net mutates at every multiple of the period before the cap, once, and at no other instant. */
  lemma MutationsAreRegular(start: Moment, setup: Setup, script: Script, walking: bool, n: nat)
    requires Startable(start, setup, script, walking) && 0 < n && NotAtCap(start, setup, script, n)
    requires History(start, setup, script, n).clock < setup.capMs
    ensures var (t, u) := (History(start, setup, script, n - 1).clock, History(start, setup, script, n).clock);
      && (Mutates(start, setup, script, n) <==> t < u && u % setup.mutationEveryMs == 0)
      && (forall k: int | t < k < u :: k % setup.mutationEveryMs != 0)
  {
    hide Arrived, Settled;
    var m := History(start, setup, script, n - 1);
    assert m.clock < setup.capMs;
    HistoryIsPoised(start, setup, script, walking, n - 1);
    ArrivesInTime(m, setup, script.derive(n));
    var a := Arrived(m, setup, script.derive(n));
    SettledClock(a, setup, script, n);
    assert a.clock == History(start, setup, script, n).clock;
    forall k: int | m.clock < k <= a.clock && k % setup.mutationEveryMs == 0 ensures k == a.pace.mutationAt {
      OnlyMultiple(a.pace.mutationAt, k, setup.mutationEveryMs);
    }
  }

  lemma SettledClock(a: Moment, setup: Setup, script: Script, n: nat)
    ensures Settled(a, setup, script.mutate(n), script.cleared(n), script.walkerMs(n)).clock == a.clock
  {
  }

  /** What stood when the `n`-th iteration arrived, once the boundary and a mutation of that instant are through with
      it: a mutation acts at the multiples of its period, and elsewhere the net leaves the residents alone. */
  ghost function Left(start: Moment, setup: Setup, script: Script, n: nat): Residents
    requires 0 < n && 0 < setup.mutationEveryMs
  {
    var (m, now) := (History(start, setup, script, n - 1), History(start, setup, script, n));
    var stood := Arrived(m, setup, script.derive(n)).r;
    var counted := if m.clock < setup.warmupMs <= now.clock then AfterBoundary(stood, now.clock) else stood;
    if m.clock < now.clock && now.clock % setup.mutationEveryMs == 0
    then AfterMutation(counted, script.mutate(n), now.clock) else counted
  }

  /** The residents of a moment are what was left, with the jobs due by then completed. */
  lemma InstantsAreSettled(start: Moment, setup: Setup, script: Script, walking: bool, n: nat)
    requires Startable(start, setup, script, walking) && 0 < n && NotAtCap(start, setup, script, n)
    requires History(start, setup, script, n).clock < setup.capMs
    ensures History(start, setup, script, n).r
      == AfterJobs(Left(start, setup, script, n), script.cleared(n), History(start, setup, script, n).clock)
    ensures Left(start, setup, script, n)
      == Disturbed(Arrived(History(start, setup, script, n - 1), setup, script.derive(n)), setup, script.mutate(n))
  {
    hide Arrived, AfterMutation, AfterJobs, AfterBoundary, AnyDue;
    MutationsAreRegular(start, setup, script, walking, n);
    var m := History(start, setup, script, n - 1);
    assert m.clock < setup.capMs;
    HistoryIsPoised(start, setup, script, walking, n - 1);
    ArrivesInTime(m, setup, script.derive(n));
    SettledClock(Arrived(m, setup, script.derive(n)), setup, script, n);
  }

  /** The walker tries at the instant it was due and next after the wait it then draws; the measurement has begun
      exactly when the warmup is over. */
  lemma WalkerAndBoundary(start: Moment, setup: Setup, script: Script, walking: bool, n: nat)
    requires Startable(start, setup, script, walking) && 0 < n && NotAtCap(start, setup, script, n)
    requires History(start, setup, script, n).clock < setup.capMs
    ensures var (m, now) := (History(start, setup, script, n - 1), History(start, setup, script, n));
      && now.pace.walkerAt == (if m.pace.walkerAt == Some(now.clock) then Some(now.clock + script.walkerMs(n))
                               else m.pace.walkerAt)
      && NotBefore(now.clock + 1, now.pace.walkerAt)
      && (now.pace.measuring <==> setup.warmupMs <= now.clock)
  {
    hide Arrived, AfterJobs, Disturbed, AnyDue;
    HistoryIsPoised(start, setup, script, walking, n);
    var m := History(start, setup, script, n - 1);
    assert m.clock < setup.capMs;
    HistoryIsPoised(start, setup, script, walking, n - 1);
    ArrivesInTime(m, setup, script.derive(n));
    SettledClock(Arrived(m, setup, script.derive(n)), setup, script, n);
  }

  // ---------- derives ----------

  /** Whether the loop derives when it goes on from the `k`-th moment. */
  ghost predicate Derives(start: Moment, setup: Setup, script: Script, k: nat) {
    CanDerive(History(start, setup, script, k).pace, History(start, setup, script, k).clock)
  }

  /** Something happened at the instant the `n`-th iteration settled: the net mutated, or a job ran its time. */
  ghost predicate Stirs(start: Moment, setup: Setup, script: Script, n: nat)
    requires 0 < n && 0 < setup.mutationEveryMs
  {
    var (t, u) := (History(start, setup, script, n - 1).clock, History(start, setup, script, n).clock);
    (t < u && u % setup.mutationEveryMs == 0) || AnyDue(Left(start, setup, script, n).agents, u)
  }

  /** What an iteration does to the derive owed. */
  lemma OwedStep(start: Moment, setup: Setup, script: Script, walking: bool, n: nat)
    requires Startable(start, setup, script, walking) && 0 < n && NotAtCap(start, setup, script, n)
    ensures var (m, now) := (History(start, setup, script, n - 1), History(start, setup, script, n));
      && now.pace.derivedAt == (if Derives(start, setup, script, n - 1) then Some(m.clock) else m.pace.derivedAt)
      && (now.clock < setup.capMs ==>
            (now.pace.deriveDue <==>
               (m.pace.deriveDue && !Derives(start, setup, script, n - 1)) || Stirs(start, setup, script, n)))
      && (m.pace.deriveDue && !Derives(start, setup, script, n - 1) && m.pace.derivedAt.Some? ==>
            now.clock <= m.pace.derivedAt.value + DERIVE_COALESCE_MS)
  {
    hide Arrived, AfterJobs, Disturbed, AnyDue, Left;
    var m := History(start, setup, script, n - 1);
    assert m.clock < setup.capMs;
    HistoryIsPoised(start, setup, script, walking, n - 1);
    ArrivesInTime(m, setup, script.derive(n));
    var a := Arrived(m, setup, script.derive(n));
    SettledClock(a, setup, script, n);
    if a.clock < setup.capMs {
      MutationsAreRegular(start, setup, script, walking, n);
      InstantsAreSettled(start, setup, script, walking, n);
    }
  }

  /** The first thing the loop does is derive. */
  lemma FirstDerives(start: Moment, setup: Setup, script: Script, walking: bool)
    requires Startable(start, setup, script, walking)
    ensures Derives(start, setup, script, 0)
  {
  }

  /** What is remembered of the last derive: it is the latest there was, and some derive was then. */
  lemma {:induction false} LastDerive(start: Moment, setup: Setup, script: Script, walking: bool, n: nat)
    requires Startable(start, setup, script, walking) && 0 < n && NotAtCap(start, setup, script, n)
    ensures var last := History(start, setup, script, n).pace.derivedAt;
      && last.Some? && last.value <= History(start, setup, script, n).clock
      && (exists i: nat | i < n ::
            Derives(start, setup, script, i) && History(start, setup, script, i).clock == last.value)
      && (forall i: nat | i < n && Derives(start, setup, script, i) ::
            History(start, setup, script, i).clock <= last.value)
  {
    hide History, Derives;
    OwedStep(start, setup, script, walking, n);
    FirstDerives(start, setup, script, walking);
    HistoryIsPoised(start, setup, script, walking, n);
    if Derives(start, setup, script, n - 1) {
      forall i: nat | i < n && Derives(start, setup, script, i)
        ensures History(start, setup, script, i).clock <= History(start, setup, script, n - 1).clock
      {
        TimeClimbs(start, setup, script, walking, i, n - 1);
      }
    } else {
      LastDerive(start, setup, script, walking, n - 1);
    }
  }

  /** Two derives lie at least the coalescing time apart. */
  lemma DerivesLieApart(start: Moment, setup: Setup, script: Script, walking: bool, i: nat, k: nat)
    requires Startable(start, setup, script, walking) && i < k && NotAtCap(start, setup, script, k)
    requires Derives(start, setup, script, i) && Derives(start, setup, script, k)
    ensures History(start, setup, script, i).clock + DERIVE_COALESCE_MS <= History(start, setup, script, k).clock
  {
    hide History;
    LastDerive(start, setup, script, walking, k);
  }

  /** No derive runs for nothing: after the first, a derive answers something that happened since the one before. */
  lemma {:induction false} OwedForACause(start: Moment, setup: Setup, script: Script, walking: bool, n: nat)
    requires Startable(start, setup, script, walking) && 0 < n && NotAtCap(start, setup, script, n)
    requires History(start, setup, script, n).clock < setup.capMs
    requires History(start, setup, script, n).pace.deriveDue
    ensures exists j: nat | 0 < j <= n ::
      Stirs(start, setup, script, j) && forall i: nat | j <= i < n :: !Derives(start, setup, script, i)
  {
    hide History, Derives, Stirs;
    OwedStep(start, setup, script, walking, n);
    if !Stirs(start, setup, script, n) {
      FirstDerives(start, setup, script, walking);
      assert n - 1 > 0;
      OwedForACause(start, setup, script, walking, n - 1);
      var j: nat :| 0 < j <= n - 1 && Stirs(start, setup, script, j)
                    && forall i: nat | j <= i < n - 1 :: !Derives(start, setup, script, i);
      forall i: nat | j <= i < n ensures !Derives(start, setup, script, i) {
        if i == n - 1 { assert !Derives(start, setup, script, n - 1); }
      }
    }
  }

  lemma DerivesForACause(start: Moment, setup: Setup, script: Script, walking: bool, n: nat)
    requires Startable(start, setup, script, walking) && 0 < n && NotAtCap(start, setup, script, n)
    requires History(start, setup, script, n).clock < setup.capMs && Derives(start, setup, script, n)
    ensures exists j: nat | 0 < j <= n ::
      Stirs(start, setup, script, j) && forall i: nat | j <= i < n :: !Derives(start, setup, script, i)
  {
    OwedForACause(start, setup, script, walking, n);
  }

  /** When the derive is due that answers what happened at the `j`-th moment: then and there, or the coalescing time
      after the derive before it. */
  ghost function AnswerAt(start: Moment, setup: Setup, script: Script, j: nat): int {
    var m := History(start, setup, script, j);
    if m.pace.derivedAt.Some? && m.clock < m.pace.derivedAt.value + DERIVE_COALESCE_MS
    then m.pace.derivedAt.value + DERIVE_COALESCE_MS else m.clock
  }

  /** While what happened at the `j`-th moment waits for its derive. */
  lemma StillOwed(start: Moment, setup: Setup, script: Script, walking: bool, j: nat, k: nat, n: nat) returns (i: nat)
    requires Startable(start, setup, script, walking) && 0 < j <= k <= n && NotAtCap(start, setup, script, n)
    requires AnswerAt(start, setup, script, j) < History(start, setup, script, n).clock
    requires History(start, setup, script, k).pace.deriveDue
    requires History(start, setup, script, k).pace.derivedAt == History(start, setup, script, j).pace.derivedAt
    requires History(start, setup, script, k).clock <= AnswerAt(start, setup, script, j)
    ensures k <= i < n && Derives(start, setup, script, i)
    ensures History(start, setup, script, i).clock == AnswerAt(start, setup, script, j)
    ensures forall l: nat | k <= l < i :: !Derives(start, setup, script, l)
    decreases n - k
  {
    hide History, Stirs;
    LastDerive(start, setup, script, walking, j);
    TimeClimbs(start, setup, script, walking, j, k);
    if Derives(start, setup, script, k) {
      i := k;
    } else {
      OwedStep(start, setup, script, walking, k + 1);
      assert k + 1 < n;
      i := StillOwed(start, setup, script, walking, j, k + 1, n);
    }
  }

  /** Everything that happens is answered by a derive, and in time: no later than the coalescing time after it. */
  lemma EverythingIsAnswered(start: Moment, setup: Setup, script: Script, walking: bool, j: nat, n: nat)
      returns (i: nat)
    requires Startable(start, setup, script, walking) && 0 < j <= n && NotAtCap(start, setup, script, n)
    requires History(start, setup, script, j).clock < setup.capMs && Stirs(start, setup, script, j)
    requires AnswerAt(start, setup, script, j) < History(start, setup, script, n).clock
    ensures j <= i < n && Derives(start, setup, script, i)
    ensures History(start, setup, script, i).clock == AnswerAt(start, setup, script, j)
    ensures AnswerAt(start, setup, script, j)
      <= History(start, setup, script, j).clock + DERIVE_COALESCE_MS
    ensures forall l: nat | j <= l < i :: !Derives(start, setup, script, l)
  {
    hide History, Stirs, Derives;
    OwedStep(start, setup, script, walking, j);
    LastDerive(start, setup, script, walking, j);
    i := StillOwed(start, setup, script, walking, j, j, n);
  }

  // ---------- what an outage costs at most ----------

  /** What a derive leaves open, it did not plan to plant. */
  lemma DeriveCloses(start: Moment, setup: Setup, script: Script, walking: bool, i: nat, plant: Plant)
    requires Startable(start, setup, script, walking) && NotAtCap(start, setup, script, i + 1)
    requires Derives(start, setup, script, i) && plant in script.derive(i + 1).plants
    requires plant.host in script.derive(i + 1).online && setup.policy.walkerHost != Some(plant.host)
    ensures plant.host !in SliceFrom(History(start, setup, script, i), setup, script.derive(i + 1)).outages
  {
    hide History, AfterPlants, Until, AfterDerive;
    var (m, d) := (History(start, setup, script, i), script.derive(i + 1));
    assert m.clock < setup.capMs;
    HistoryIsPoised(start, setup, script, walking, i);
    DeriveKeeps(m.r, d, m.clock, setup.policy);
    PlantCloses(m.r, d.plants, d.online, setup.policy, plant);
  }

  /** An outage opens with a mutation, so something happened. */
  lemma OutageStirs(start: Moment, setup: Setup, script: Script, walking: bool, j: nat, h: Host)
    requires Startable(start, setup, script, walking) && 0 < j && NotAtCap(start, setup, script, j)
    requires History(start, setup, script, j).clock < setup.capMs
    requires h in History(start, setup, script, j).r.outages
    requires h !in SliceFrom(History(start, setup, script, j - 1), setup, script.derive(j)).outages
    ensures Stirs(start, setup, script, j)
  {
    hide Arrived, Settled, SliceFrom, Left;
    var m := History(start, setup, script, j - 1);
    OutagesOpenByRestart(m, setup, script, j, h);
    assert m.clock < setup.capMs;
    MutationsAreRegular(start, setup, script, walking, j);
    HistoryIsPoised(start, setup, script, walking, j - 1);
    ArrivesInTime(m, setup, script.derive(j));
    SettledClock(Arrived(m, setup, script.derive(j)), setup, script, j);
  }

  /** An outage on a host that every derive plants, online and not the walker's, is closed no later than the
      coalescing time after the restart that opened it. */
  lemma OutageClosesInTime(start: Moment, setup: Setup, script: Script, walking: bool, j: nat, n: nat, plant: Plant)
      returns (i: nat)
    requires Startable(start, setup, script, walking) && 0 < j <= n && NotAtCap(start, setup, script, n)
    requires History(start, setup, script, j).clock < setup.capMs
    requires plant.host in History(start, setup, script, j).r.outages
    requires plant.host !in SliceFrom(History(start, setup, script, j - 1), setup, script.derive(j)).outages
    requires setup.policy.walkerHost != Some(plant.host)
    requires forall k: nat :: plant in script.derive(k).plants && plant.host in script.derive(k).online
    requires History(start, setup, script, j).clock + DERIVE_COALESCE_MS < History(start, setup, script, n).clock
    ensures j <= i < n
    ensures History(start, setup, script, i).clock <= History(start, setup, script, j).clock + DERIVE_COALESCE_MS
    ensures plant.host !in SliceFrom(History(start, setup, script, i), setup, script.derive(i + 1)).outages
  {
    hide History, Stirs, Derives, SliceFrom;
    OutageStirs(start, setup, script, walking, j, plant.host);
    AnswersInTime(start, setup, script, walking, j);
    i := EverythingIsAnswered(start, setup, script, walking, j, n);
    DeriveCloses(start, setup, script, walking, i, plant);
  }

  lemma AnswersInTime(start: Moment, setup: Setup, script: Script, walking: bool, j: nat)
    requires Startable(start, setup, script, walking) && 0 < j && NotAtCap(start, setup, script, j)
    ensures AnswerAt(start, setup, script, j) <= History(start, setup, script, j).clock + DERIVE_COALESCE_MS
  {
    hide History;
    LastDerive(start, setup, script, walking, j);
  }
}
