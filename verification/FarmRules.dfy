/** What a derive, a restart and the end of a job do to one host of the darknet farm (sim/dnet-farm.ts), case by case
    and on the residents alone. */
module FarmRules {
  import opened Collections
  import opened FarmPacing
  import opened FarmSteps
  import opened RestartLedger
  import opened Wrappers

  // ---------- restarts ----------

  /** The restarts of one host, by the capacity each left free, in order. */
  function RestartsOf(restarted: seq<(Host, real)>, h: Host): seq<real> {
    if restarted == [] then []
    else
      var last := restarted[|restarted| - 1];
      RestartsOf(restarted[..|restarted| - 1], h) + if last.0 == h then [last.1] else []
  }

  /** What a host's restarts leave of it, by how many there are. A host without a resident is untouched. A resident
      without armour is gone with the first, and its outage is charged from then on with the capacity then free, never
      less than none. Armour turns the first away and is spent; the second finds the resident without. */
  ghost predicate RestartedTo(before: Residents, after: Residents, h: Host, freed: seq<real>, clock: int) {
    if h !in before.agents || freed == [] then
      && (h in after.agents <==> h in before.agents)
      && (h in before.agents ==> after.agents[h] == before.agents[h])
      && (h in after.armoured <==> h in before.armoured)
      && (h in after.outages <==> h in before.outages)
      && (h in before.outages ==> after.outages[h] == before.outages[h])
    else if h in before.armoured && |freed| == 1 then
      && h in after.agents && !after.agents[h].bootstrap && after.agents[h].job.None? && h !in after.armoured
      && (h in after.outages <==> h in before.outages)
      && (h in before.outages ==> after.outages[h] == before.outages[h])
    else
      var free := freed[if h in before.armoured then 1 else 0];
      && h !in after.agents && h !in after.armoured && h in after.outages
      && after.outages[h].at == clock && after.outages[h].usableGb == (if free < 0.0 then 0.0 else free)
  }

  lemma {:induction false} RestartsByHost(r: Residents, restarted: seq<(Host, real)>, storm: bool, clock: int, h: Host)
    requires r.armoured <= r.agents.Keys
    ensures RestartedTo(r, AfterRestarts(r, restarted, storm, clock), h, RestartsOf(restarted, h), clock)
    ensures AfterRestarts(r, restarted, storm, clock).armoured <= AfterRestarts(r, restarted, storm, clock).agents.Keys
  {
    hide RestartedTo, AfterRestart;
    if restarted == [] {
      NotRestarted(r, h, clock);
    } else {
      var shorter, last := restarted[..|restarted| - 1], restarted[|restarted| - 1];
      RestartsByHost(r, shorter, storm, clock, h);
      RestartedOnceMore(r, AfterRestarts(r, shorter, storm, clock), last, storm, clock, h, RestartsOf(shorter, h));
    }
  }

  lemma NotRestarted(r: Residents, h: Host, clock: int)
    ensures RestartedTo(r, r, h, [], clock)
  {
  }

  lemma RestartedOnceMore(r: Residents, now: Residents, last: (Host, real), storm: bool, clock: int, h: Host,
      freed: seq<real>)
    requires r.armoured <= r.agents.Keys && now.armoured <= now.agents.Keys
    requires RestartedTo(r, now, h, freed, clock)
    ensures var after := AfterRestart(now, last.0, last.1, storm, clock);
      && RestartedTo(r, after, h, freed + if last.0 == h then [last.1] else [], clock)
      && after.armoured <= after.agents.Keys
  {
    if last.0 == h {
      assert h in r.agents && freed == [] ==> (freed + [last.1])[0] == last.1;
    } else {
      assert freed + [] == freed;
    }
  }

  /** The counts of some restarts: each that met a resident was dodged, and cost one armour, or opened an outage, and
      cost the resident. */
  ghost predicate Counted(r: Residents, after: Residents, storm: bool) {
    && after.armoured <= after.agents.Keys && after.outages.Keys !! after.agents.Keys
    && after.occupied - r.occupied == (after.dodged - r.dodged) + (|after.outages| - |r.outages|)
    && |after.outages| - |r.outages| == |r.agents| - |after.agents|
    && after.dodged - r.dodged == |r.armoured| - |after.armoured|
    && after.storm - r.storm == (if storm then after.occupied - r.occupied else 0)
    && after.recovered == r.recovered && after.peak == r.peak
  }

  lemma {:induction false} RestartsAreCounted(r: Residents, restarted: seq<(Host, real)>, storm: bool, clock: int)
    requires r.armoured <= r.agents.Keys && r.outages.Keys !! r.agents.Keys
    ensures Counted(r, AfterRestarts(r, restarted, storm, clock), storm)
  {
    hide AfterRestart;
    if restarted != [] {
      var shorter, last := restarted[..|restarted| - 1], restarted[|restarted| - 1];
      RestartsAreCounted(r, shorter, storm, clock);
      OneRestart(AfterRestarts(r, shorter, storm, clock), last.0, last.1, storm, clock);
    }
  }

  lemma OneRestart(r: Residents, name: Host, freeGb: real, storm: bool, clock: int)
    requires r.armoured <= r.agents.Keys && r.outages.Keys !! r.agents.Keys
    ensures Counted(r, AfterRestart(r, name, freeGb, storm, clock), storm)
  {
    if name in r.agents {
      if name in r.armoured {
        OneDodge(r, name, freeGb, storm, clock);
      } else {
        OneLoss(r, name, freeGb, storm, clock);
      }
    }
  }

  lemma OneDodge(r: Residents, name: Host, freeGb: real, storm: bool, clock: int)
    requires r.armoured <= r.agents.Keys && r.outages.Keys !! r.agents.Keys && name in r.armoured
    ensures Counted(r, AfterRestart(r, name, freeGb, storm, clock), storm)
  {
    var after := AfterRestart(r, name, freeGb, storm, clock);
    assert |r.armoured - {name}| == |r.armoured| - 1;
    assert after.agents.Keys == r.agents.Keys;
    SameCount(r.agents, after.agents);
  }

  lemma OneLoss(r: Residents, name: Host, freeGb: real, storm: bool, clock: int)
    requires r.armoured <= r.agents.Keys && r.outages.Keys !! r.agents.Keys
    requires name in r.agents && name !in r.armoured
    ensures Counted(r, AfterRestart(r, name, freeGb, storm, clock), storm)
  {
    hide AfterRestart;
    var after := AfterRestart(r, name, freeGb, storm, clock);
    LossFields(r, name, freeGb, storm, clock);
    OneFewer(r.agents, after.agents, name);
    OneFewer(after.outages, r.outages, name);
  }

  lemma LossFields(r: Residents, name: Host, freeGb: real, storm: bool, clock: int)
    requires name in r.agents && name !in r.armoured && name !in r.outages
    ensures var after := AfterRestart(r, name, freeGb, storm, clock);
      && after.agents.Keys == r.agents.Keys - {name} && after.armoured == r.armoured
      && after.outages.Keys == r.outages.Keys + {name} && r.outages.Keys == after.outages.Keys - {name}
      && after.occupied == r.occupied + 1 && after.storm == (if storm then r.storm + 1 else r.storm)
      && after.dodged == r.dodged && after.recovered == r.recovered && after.peak == r.peak
  {
    hide Max;
  }

  lemma SameCount<V, W>(a: map<Host, V>, b: map<Host, W>)
    requires a.Keys == b.Keys
    ensures |a| == |b|
  {
    assert |a| == |a.Keys| && |b| == |b.Keys|;
  }

  lemma OneFewer<V>(more: map<Host, V>, fewer: map<Host, V>, name: Host)
    requires name in more && fewer.Keys == more.Keys - {name}
    ensures |fewer| == |more| - 1
  {
    assert |more| == |more.Keys| && |fewer| == |fewer.Keys|;
  }

  // ---------- the end of a job ----------

  /** A job runs its time and no longer. Until then its resident is left alone; then the resident is idle, or gone
      with its armour if it was there only to clear the host and has cleared it. Nobody else is touched. */
  lemma JobsByHost(r: Residents, cleared: set<Host>, clock: int, h: Host)
    ensures var after := AfterJobs(r, cleared, clock);
      && (h !in r.agents ==> h !in after.agents && h !in after.armoured)
      && (h in r.agents ==>
            var agent := r.agents[h];
            if agent.job.None? || clock < agent.job.value.doneAt then
              h in after.agents && after.agents[h] == agent && (h in after.armoured <==> h in r.armoured)
            else if agent.bootstrap && agent.job.value.kind == Reclaim && h in cleared then
              h !in after.agents && h !in after.armoured
            else
              h in after.agents && after.agents[h] == Agent(agent.bootstrap, None)
              && (h in after.armoured <==> h in r.armoured))
      && after.outages == r.outages && after.occupied == r.occupied && after.dodged == r.dodged
      && after.storm == r.storm && after.recovered == r.recovered && after.peak == r.peak
  {
  }

  // ---------- planting ----------

  function FirstPlant(plants: seq<Plant>, h: Host): Option<Plant> {
    if plants == [] then None
    else
      var first := FirstPlant(plants[..|plants| - 1], h);
      if first.Some? then first
      else if plants[|plants| - 1].host == h then Some(plants[|plants| - 1]) else None
  }

  /** Whoever stands stays as they are. A host without a resident gets the first one planned for it, if it is online
      and not the walker's; that closes its outage. */
  ghost predicate PlantedTo(r: Residents, after: Residents, h: Host, plan: Option<Plant>, online: set<Host>,
      policy: Policy)
  {
    && (if h in r.agents then h in after.agents && after.agents[h] == r.agents[h]
        else if plan.Some? && h in online && policy.walkerHost != Some(h) then
          h in after.agents && after.agents[h] == Agent(plan.value.bootstrap, None)
        else h !in after.agents)
    && (h in after.outages <==> h in r.outages && h !in after.agents)
    && (h in after.outages ==> after.outages[h] == r.outages[h])
  }

  lemma {:induction false} PlantsByHost(r: Residents, plants: seq<Plant>, online: set<Host>, policy: Policy, h: Host)
    requires r.outages.Keys !! r.agents.Keys
    ensures PlantedTo(r, AfterPlants(r, plants, online, policy), h, FirstPlant(plants, h), online, policy)
  {
    if plants != [] {
      PlantsByHost(r, plants[..|plants| - 1], online, policy, h);
    }
  }

  /** The outages closed are the recoveries counted; planting counts nothing else and touches no armour. */
  lemma {:induction false} PlantsAreCounted(r: Residents, plants: seq<Plant>, online: set<Host>, policy: Policy)
    requires r.outages.Keys !! r.agents.Keys
    ensures var after := AfterPlants(r, plants, online, policy);
      && after.recovered - r.recovered == |r.outages| - |after.outages|
      && after.armoured == r.armoured && after.occupied == r.occupied && after.dodged == r.dodged
      && after.storm == r.storm && after.peak == r.peak
  {
    if plants != [] {
      var now := AfterPlants(r, plants[..|plants| - 1], online, policy);
      PlantsAreCounted(r, plants[..|plants| - 1], online, policy);
      OnePlant(now, plants[|plants| - 1], online, policy);
    }
  }

  lemma OnePlant(r: Residents, plant: Plant, online: set<Host>, policy: Policy)
    ensures var after := AfterPlant(r, plant, online, policy);
      && after.recovered - r.recovered == |r.outages| - |after.outages|
      && after.armoured == r.armoured && after.occupied == r.occupied && after.dodged == r.dodged
      && after.storm == r.storm && after.peak == r.peak
  {
    if plant.host in r.outages {
      OneFewer(r.outages, r.outages - {plant.host}, plant.host);
    } else {
      assert r.outages - {plant.host} == r.outages;
    }
  }

  // ---------- handing out jobs ----------

  /** A task that neither runs on the walker's host nor touches it from outside. */
  predicate SparesWalker(task: Task, policy: Policy) {
    match policy.walkerHost
    case None => true
    case Some(walker) => task.from != walker && (task.target == walker ==> task.kind in {Inventory, Phish, Storm})
  }

  /** The first task planned for a host that its resident may take: one that is there only to clear the host takes
      nothing but a reclaim. */
  function FirstTask(tasks: seq<Task>, h: Host, bootstrap: bool, policy: Policy): Option<Task> {
    if tasks == [] then None
    else
      var (first, last) := (FirstTask(tasks[..|tasks| - 1], h, bootstrap, policy), tasks[|tasks| - 1]);
      if first.Some? then first
      else if last.from == h && SparesWalker(last, policy) && (!bootstrap || last.kind == Reclaim) then Some(last)
      else None
  }

  function JobOf(task: Task, clock: int): Job {
    Job(task.kind, task.target,
        clock + if task.kind == Cache then 200 else if task.kind == Storm then 1000 else task.wait)
  }

  /** A busy resident keeps its job; an idle one takes the first task it may. */
  ghost predicate TaskedTo(before: map<Host, Agent>, after: map<Host, Agent>, h: Host, task: Option<Task>, clock: int) {
    && (h in after <==> h in before)
    && (h in before ==>
          && after[h].bootstrap == before[h].bootstrap
          && after[h].job == if before[h].job.Some? then before[h].job
                             else if task.Some? then Some(JobOf(task.value, clock)) else None)
  }

  lemma {:induction false} TasksByHost(agents: map<Host, Agent>, tasks: seq<Task>, clock: int, policy: Policy, h: Host)
    ensures TaskedTo(agents, AfterTasks(agents, tasks, clock, policy), h,
                     if h in agents then FirstTask(tasks, h, agents[h].bootstrap, policy) else None, clock)
  {
    if tasks != [] {
      TasksByHost(agents, tasks[..|tasks| - 1], clock, policy, h);
    }
  }

  /** What a derive leaves a standing resident with: its job if it was busy, else a look at its own stale files, else
      the first task planned for it. Armour, where the policy wears it, stays on a busy resident and follows the
      planner on the others. */
  lemma DeriveByHost(r: Residents, d: Derivation, clock: int, policy: Policy, h: Host)
    requires h in AfterPlants(r, d.plants, d.online, policy).agents
    ensures var (agent, after) := (AfterPlants(r, d.plants, d.online, policy).agents[h],
                                   AfterDerive(r, d, clock, policy));
      var looks := agent.job.None? && !agent.bootstrap && h in d.online && h in d.stale;
      var task := FirstTask(d.tasks, h, agent.bootstrap, policy);
      && h in after.agents && after.agents[h].bootstrap == agent.bootstrap
      && after.agents[h].job == (if agent.job.Some? then agent.job
                                 else if looks then Some(Job(Inventory, h, clock))
                                 else if task.Some? then Some(JobOf(task.value, clock)) else None)
      && (policy.armour ==>
            (h in after.armoured <==>
               if agent.job.Some? || looks then h in AfterPlants(r, d.plants, d.online, policy).armoured
               else h in d.armourWanted))
  {
    hide AfterPlants, AfterTasks, FirstTask, JobOf;
    var stocked := AfterInventory(AfterPlants(r, d.plants, d.online, policy), d.online, d.stale, clock);
    var armed := AfterArmour(stocked, d.armourWanted, policy);
    TasksByHost(armed.agents, d.tasks, clock, policy, h);
  }

  /** A derive only adds: nobody is sent away by it, no host gets a resident but by a plant, the armour stands on
      residents, and the peak is the most ever worn. */
  lemma DeriveByCount(r: Residents, d: Derivation, clock: int, policy: Policy)
    ensures var (planted, after) := (AfterPlants(r, d.plants, d.online, policy), AfterDerive(r, d, clock, policy));
      && after.agents.Keys == planted.agents.Keys && after.outages == planted.outages
      && after.recovered == planted.recovered && after.occupied == planted.occupied
      && after.dodged == planted.dodged && after.storm == planted.storm
      && (!policy.armour ==> after.armoured == planted.armoured && after.peak == planted.peak)
      && (policy.armour ==>
            && after.armoured <= after.agents.Keys && |after.armoured| <= after.peak
            && planted.peak <= after.peak && (after.peak == planted.peak || after.peak == |after.armoured|))
  {
    hide AfterPlants, AfterTasks;
    var stocked := AfterInventory(AfterPlants(r, d.plants, d.online, policy), d.online, d.stale, clock);
    var armed := AfterArmour(stocked, d.armourWanted, policy);
    TasksKeepHosts(armed.agents, d.tasks, clock, policy);
  }

  lemma {:induction false} TasksKeepHosts(agents: map<Host, Agent>, tasks: seq<Task>, clock: int, policy: Policy)
    ensures AfterTasks(agents, tasks, clock, policy).Keys == agents.Keys
  {
    if tasks != [] {
      TasksKeepHosts(agents, tasks[..|tasks| - 1], clock, policy);
    }
  }

  /** The boundary forgets what was counted and keeps what stands: every open outage is charged from it on, with the
      capacity it stranded before. */
  lemma BoundaryKeepsTheNet(r: Residents, clock: int)
    ensures var after := AfterBoundary(r, clock);
      && after.agents == r.agents && after.armoured == r.armoured && after.outages.Keys == r.outages.Keys
      && (forall h <- r.outages :: after.outages[h].at == clock && after.outages[h].usableGb == r.outages[h].usableGb)
      && after.occupied == after.dodged == after.storm == after.recovered == 0 && after.peak == |r.armoured|
  {
  }

  /** What is offline after a mutation is gone, outages apart; what is online stays as the restarts left it. */
  lemma SweepByHost(r: Residents, online: set<Host>, h: Host)
    ensures var after := AfterSweep(r, online);
      && (h in after.agents <==> h in r.agents && h in online)
      && (h in after.agents ==> after.agents[h] == r.agents[h])
      && (h in after.armoured <==> h in r.armoured && h in online)
      && after.outages == r.outages
  {
  }
}
