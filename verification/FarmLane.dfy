/** The darknet farm lane (sim/dnet-farm.ts): its event loop, residents, armour and restart accounting.
    Planners, the net and the waits are arbitrary answers; time counts a fixed resolution. */
module FarmLane {
  import opened Collections
  import opened FarmPacing
  import opened FarmSteps
  import opened RestartLedger
  import opened Wrappers

  class Lane {
    const armourGb: real
    const policy: Policy

    var clock: int
    var agents: map<Host, Agent>
    var armoured: set<Host>
    var restartOutages: map<Host, Outage>

    var occupiedRestarts: nat
    var stormRestarts: nat
    var restartsDodged: nat
    var restartRecovered: nat
    var restartUnrecovered: nat
    var restartLostGbMs: real
    var armourGbMs: real
    var armourPeak: nat

    /** The slices of the window being accounted, where it starts, and the outages open there. */
    ghost var window: seq<Slice>
    ghost var windowStart: int
    ghost var openAtBoundary: nat

    /** A host with an open outage holds no resident, and only residents wear armour. */
    ghost predicate Standing()
      reads `agents, `armoured, `restartOutages
    {
      armoured <= agents.Keys && restartOutages.Keys !! agents.Keys
    }

    /** Nothing ever stands on the host the walker has taken. */
    ghost predicate WalkerAlone()
      reads `agents
    {
      policy.walkerHost.Some? ==> policy.walkerHost.value !in agents
    }

    /** Every restart of a resident is dodged, recovered or still open; so are the outages the window began with. */
    ghost predicate Conserved()
      reads `occupiedRestarts, `openAtBoundary, `restartsDodged, `restartRecovered, `restartOutages, `stormRestarts
    {
      && occupiedRestarts + openAtBoundary == restartsDodged + restartRecovered + |restartOutages|
      && stormRestarts <= occupiedRestarts
    }

    /** What is charged, and would be if every outage closed now, is the capacity stranded slice by slice. */
    ghost predicate Charged()
      reads `restartLostGbMs, `restartOutages, `clock, `window
    {
      restartLostGbMs + MapSum(restartOutages, Charge(clock)) == StrandedGbMs(window)
    }

    /** Armour is billed slice by slice, and never worn by more hosts than the peak says. */
    ghost predicate ArmourBilled()
      reads `armourGbMs, `armoured, `armourPeak, `window
    {
      && armourGbMs == GbMs(armourGb, ArmouredMs(window))
      && |armoured| <= armourPeak
      && forall s <- window :: |s.armoured| <= armourPeak
    }

    ghost predicate Timed()
      reads `window, `windowStart, `clock
    {
      Contiguous(window, windowStart, clock)
    }

    ghost predicate Balanced()
      reads this
    {
      Conserved() && Charged() && ArmourBilled() && Timed()
    }

    constructor (armourGb: real, policy: Policy, residents: set<Host>)
      ensures Standing() && Balanced()
      ensures clock == 0 && window == [] && windowStart == 0 && openAtBoundary == 0
      ensures agents.Keys == residents && forall h <- agents :: agents[h].job.None?
      ensures this.armourGb == armourGb && this.policy == policy
    {
      this.armourGb, this.policy := armourGb, policy;
      clock, armoured, restartOutages := 0, {}, map[];
      agents := map h | h in residents :: Agent(false, None);
      occupiedRestarts, stormRestarts, restartsDodged, restartRecovered, restartUnrecovered := 0, 0, 0, 0, 0;
      restartLostGbMs, armourGbMs, armourPeak := 0.0, 0.0, 0;
      window, windowStart, openAtBoundary := [], 0, 0;
    }

    /** Take a host's resident away, and its armour with it. */
    method DropAgent(name: Host)
      requires armoured <= agents.Keys && ArmourBilled()
      modifies this`agents, this`armoured
      ensures armoured <= agents.Keys && ArmourBilled()
      ensures agents == old(agents) - {name} && armoured == old(armoured) - {name}
    {
      hide ArmourBilled;
      agents := agents - {name};
      ShedArmour(name);
    }

    /** Close the outage a host was carrying. */
    method CloseOutage(name: Host)
      requires name in restartOutages && Conserved() && Charged()
      modifies this`restartOutages, this`restartRecovered, this`restartLostGbMs
      ensures Conserved() && Charged() && restartOutages == old(restartOutages) - {name}
      ensures restartRecovered == old(restartRecovered) + 1
    {
      hide GbMs, MapSum, Charge, StrandedGbMs;
      var outage := restartOutages[name];
      var recoveryMs := clock - outage.at;
      CloseOne(restartOutages, clock, name);
      restartRecovered := restartRecovered + 1;
      restartLostGbMs := restartLostGbMs + GbMs(outage.usableGb, recoveryMs);
      restartOutages := restartOutages - {name};
    }

    /** Stand a resident on a host, closing the outage it was carrying. */
    method PlantAgent(name: Host, agent: Agent)
      requires Standing() && Balanced()
      modifies this`agents, this`restartOutages, this`restartRecovered, this`restartLostGbMs
      ensures Standing() && Balanced()
      ensures agents == old(agents)[name := agent] && restartOutages == old(restartOutages) - {name}
      ensures restartRecovered == old(restartRecovered) + if name in old(restartOutages) then 1 else 0
    {
      hide Conserved, Charged, ArmourBilled, Timed;
      agents := agents[name := agent];
      if name !in restartOutages {
        assert restartOutages - {name} == restartOutages;
        return;
      }
      CloseOutage(name);
    }

    /** Open an outage on a host that loses its resident. */
    method OpenOutage(name: Host, usableGb: real)
      requires name in agents && Standing() && Conserved() && Charged()
      modifies this`restartOutages, this`occupiedRestarts
      ensures Conserved() && Charged() && occupiedRestarts == old(occupiedRestarts) + 1
      ensures stormRestarts < occupiedRestarts
      ensures restartOutages == old(restartOutages)[name := Outage(clock, usableGb)]
    {
      hide GbMs, MapSum, Charge, StrandedGbMs;
      OpenOne(restartOutages, clock, name, usableGb);
      occupiedRestarts := occupiedRestarts + 1;
      restartOutages := restartOutages[name := Outage(clock, usableGb)];
    }

    /** An armoured resident is back at once, its armour spent. */
    method SpendArmour(name: Host)
      requires name in armoured && Standing() && Balanced()
      modifies this`agents, this`armoured, this`occupiedRestarts, this`restartsDodged
      ensures Standing() && Balanced() && occupiedRestarts == old(occupiedRestarts) + 1
      ensures stormRestarts < occupiedRestarts
      ensures restartsDodged == old(restartsDodged) + 1
      ensures agents == old(agents)[name := Agent(false, None)] && armoured == old(armoured) - {name}
    {
      hide Charged, Timed, ArmourBilled;
      occupiedRestarts := occupiedRestarts + 1;
      restartsDodged := restartsDodged + 1;
      agents := agents[name := Agent(false, None)];
      ShedArmour(name);
    }

    method ShedArmour(name: Host)
      requires ArmourBilled()
      modifies this`armoured
      ensures ArmourBilled() && armoured == old(armoured) - {name}
    {
      hide GbMs, ArmouredMs;
      SmallerArmour(armoured, name);
      armoured := armoured - {name};
    }

    method CountStorm()
      requires Conserved() && stormRestarts < occupiedRestarts
      modifies this`stormRestarts
      ensures Conserved() && stormRestarts == old(stormRestarts) + 1
    {
      stormRestarts := stormRestarts + 1;
    }

    ghost function Snapshot(): Residents
      reads `agents, `armoured, `restartOutages
      reads `occupiedRestarts, `restartsDodged, `stormRestarts, `restartRecovered, `armourPeak
    {
      Residents(agents, armoured, restartOutages,
                occupiedRestarts, restartsDodged, stormRestarts, restartRecovered, armourPeak)
    }

    /** Settle one restarted host that had a resident: armoured it is back at once, otherwise it is down. */
    method SettleResident(name: Host, freeGb: real)
      requires name in agents && Standing() && Balanced()
      modifies this`agents, this`armoured, this`restartOutages, this`occupiedRestarts, this`restartsDodged
      ensures Standing() && Balanced() && occupiedRestarts == old(occupiedRestarts) + 1
      ensures stormRestarts < occupiedRestarts
      ensures name in old(armoured) ==>
        agents == old(agents)[name := Agent(false, None)] && restartOutages == old(restartOutages)
      ensures name !in old(armoured) ==>
                agents == old(agents) - {name}
                  && restartOutages == old(restartOutages)[name := Outage(clock, Max(0.0, freeGb))]
      ensures armoured == old(armoured) - {name}
      ensures restartsDodged == old(restartsDodged) + if name in old(armoured) then 1 else 0
    {
      hide Conserved, Charged, ArmourBilled, Timed, Max;
      if name in armoured {
        SpendArmour(name);
      } else {
        OpenOutage(name, Max(0.0, freeGb));
        DropAgent(name);
      }
    }

    /** Settle one restarted host. */
    method SettleRestart(name: Host, freeGb: real, storm: bool)
      requires Standing() && Balanced()
      modifies this`agents, this`armoured, this`restartOutages, this`occupiedRestarts, this`stormRestarts
      modifies this`restartsDodged
      ensures Standing() && Balanced()
      ensures Snapshot() == AfterRestart(old(Snapshot()), name, freeGb, storm, clock)
    {
      hide Conserved, Charged, ArmourBilled, Timed, Max, Standing;
      if name !in agents { return; }
      SettleResident(name, freeGb);
      if storm { CountStorm(); }
    }

    /** Settle the restarts of one mutation step, in order. */
    method SettleRestarts(restarted: seq<(Host, real)>, storm: bool)
      requires Standing() && Balanced()
      modifies this`agents, this`armoured, this`restartOutages, this`occupiedRestarts, this`stormRestarts
      modifies this`restartsDodged
      ensures Standing() && Balanced()
      ensures Snapshot() == AfterRestarts(old(Snapshot()), restarted, storm, clock)
    {
      hide Conserved, Charged, ArmourBilled, Timed, Standing, AfterRestart, Snapshot;
      for i := 0 to |restarted|
        invariant Standing() && Balanced()
        invariant Snapshot() == AfterRestarts(old(Snapshot()), restarted[..i], storm, clock)
      {
        assert restarted[..i + 1][..i] == restarted[..i];
        SettleRestart(restarted[i].0, restarted[i].1, storm);
      }
      assert restarted[..|restarted|] == restarted;
    }

    /** Drop the residents of hosts that are no longer online. */
    method Sweep(online: set<Host>)
      requires Standing() && Balanced()
      modifies this`agents, this`armoured
      ensures Standing() && Balanced()
      ensures agents == map h | h in old(agents) && h in online :: old(agents)[h]
      ensures Snapshot() == AfterSweep(old(Snapshot()), online)
    {
      hide Conserved, Charged, ArmourBilled, Timed;
      ghost var before := agents;
      var left := agents.Keys - online;
      while left != {}
        invariant Standing() && Balanced() && left <= agents.Keys
        invariant agents.Keys == (before.Keys * online) + left
        invariant forall h <- agents :: agents[h] == before[h]
        invariant armoured == old(armoured) - (before.Keys - online - left)
        invariant left !! online
        decreases left
      {
        var name :| name in left;
        DropAgent(name);
        left := left - {name};
      }
      assert armoured == old(armoured) * online;
    }

    /** Advance the net one mutation step. */
    method ApplyMutation(m: Mutation)
      requires Standing() && Balanced()
      modifies this`agents, this`armoured, this`restartOutages, this`occupiedRestarts, this`stormRestarts
      modifies this`restartsDodged
      ensures Standing() && Balanced()
      ensures Snapshot() == AfterMutation(old(Snapshot()), m, clock)
      ensures agents.Keys <= old(agents.Keys)
    {
      hide Conserved, Charged, ArmourBilled, Timed, AfterRestarts;
      RestartsOnlyTake(Snapshot(), m.restarted, m.storm, clock);
      SettleRestarts(m.restarted, m.storm);
      Sweep(m.online);
    }

    /** Charge the open outages from now on. */
    method Restamp()
      modifies this`restartOutages
      ensures restartOutages == map h | h in old(restartOutages) :: Outage(clock, old(restartOutages)[h].usableGb)
      ensures AllSince(restartOutages, clock)
    {
      restartOutages := map h | h in restartOutages :: Outage(clock, restartOutages[h].usableGb);
    }

    /** Forget the warmup: the window starts here, and open outages are charged from here. */
    method BeginMeasurement()
      requires Standing()
      modifies this
      ensures Standing() && Balanced()
      ensures window == [] && windowStart == clock && openAtBoundary == |restartOutages|
      ensures clock == old(clock) && agents == old(agents)
      ensures Snapshot() == AfterBoundary(old(Snapshot()), clock)
    {
      hide GbMs, MapSum, Charge, AllSince, Contiguous, StrandedGbMs, ArmouredMs;
      Restamp();
      NothingCharged(restartOutages, clock);
      EmptyWindow(clock, armourGb);
      Reset();
    }

    method Reset()
      requires Standing()
      modifies this`occupiedRestarts, this`stormRestarts, this`restartsDodged, this`restartRecovered
      modifies this`restartUnrecovered
      modifies this`restartLostGbMs, this`armourGbMs, this`armourPeak, this`window, this`windowStart
      modifies this`openAtBoundary
      ensures occupiedRestarts == stormRestarts == restartsDodged == restartRecovered == restartUnrecovered == 0
      ensures restartLostGbMs == armourGbMs == 0.0 && armourPeak == |armoured|
      ensures window == [] && windowStart == clock && openAtBoundary == |restartOutages|
    {
      hide Standing;
      ResetCounts();
      restartLostGbMs, armourGbMs := 0.0, 0.0;
      armourPeak := |armoured|;
      window, windowStart := [], clock;
      openAtBoundary := |restartOutages|;
    }

    method ResetCounts()
      modifies this`occupiedRestarts, this`stormRestarts, this`restartsDodged, this`restartRecovered
      modifies this`restartUnrecovered
      ensures occupiedRestarts == stormRestarts == restartsDodged == restartRecovered == restartUnrecovered == 0
    {
      occupiedRestarts, stormRestarts := 0, 0;
      restartsDodged, restartRecovered, restartUnrecovered := 0, 0, 0;
    }

    // ---------- the passage of time ----------

    method AdvanceTo(next: int)
      requires clock <= next && Standing() && Balanced()
      modifies this`clock, this`armourGbMs, this`window
      ensures Standing() && Balanced() && clock == next
      ensures window == old(window) + [Slice(old(clock), next, armoured, restartOutages)]
    {
      hide GbMs, MapSum, Charge, Usable, Contiguous, StrandedGbMs, ArmouredMs;
      ghost var slice := Slice(clock, next, armoured, restartOutages);
      SliceAdds(window, windowStart, slice);
      ChargeGrows(restartOutages, clock, next);
      MoreTime(armourGb, ArmouredMs(window), |armoured| * (next - clock));
      armourGbMs := armourGbMs + GbMs(armourGb, |armoured| * (next - clock));
      clock, window := next, window + [slice];
    }

    /** Charge what is still open when the run ends. */
    method ChargeOpenOutages()
      modifies this`restartLostGbMs, this`restartUnrecovered
      ensures restartLostGbMs == old(restartLostGbMs) + MapSum(restartOutages, Charge(clock))
      ensures restartUnrecovered == |restartOutages|
    {
      hide GbMs, MapSum;
      var left := restartOutages;
      NothingOpen(Charge(clock));
      while left != map[]
        invariant left.Keys <= restartOutages.Keys && forall h <- left :: left[h] == restartOutages[h]
        invariant restartLostGbMs + MapSum(left, Charge(clock)) == old(restartLostGbMs)
          + MapSum(restartOutages, Charge(clock))
        decreases |left|
      {
        var name :| name in left;
        SumWithout(left, Charge(clock), name);
        CloseOne(left, clock, name);
        restartLostGbMs := restartLostGbMs + GbMs(left[name].usableGb, clock - left[name].at);
        left := left - {name};
      }
      restartUnrecovered := |restartOutages|;
    }

    /** The books at the end of a run. */
    method CloseBooks()
      requires Balanced()
      modifies this`restartLostGbMs, this`restartUnrecovered
      ensures occupiedRestarts + openAtBoundary == restartsDodged + restartRecovered + restartUnrecovered
      ensures restartUnrecovered == |restartOutages| && stormRestarts <= occupiedRestarts
      ensures Contiguous(window, windowStart, clock)
      ensures restartLostGbMs == StrandedGbMs(window)
      ensures armourGbMs == GbMs(armourGb, ArmouredMs(window))
      ensures forall s <- window :: |s.armoured| <= armourPeak
    {
      hide GbMs, MapSum, Contiguous, StrandedGbMs, ArmouredMs;
      ChargeOpenOutages();
    }

    // ---------- one derive pass ----------

    /** Jobs end no earlier than `time`. */
    ghost predicate DueFrom(time: int)
      reads `agents
    {
      forall h <- agents :: agents[h].job.Some? ==> time <= agents[h].job.value.doneAt
    }

    /** A new resident that some plant of the plan stands on an online host. */
    ghost predicate Planted(host: Host, agent: Agent, plants: seq<Plant>, online: set<Host>) {
      host in online && exists p <- plants :: p.host == host && agent == Agent(p.bootstrap, None)
    }

    method PlantAll(plants: seq<Plant>, online: set<Host>)
      requires Standing() && Balanced() && DueFrom(clock)
      modifies this`agents, this`restartOutages, this`restartRecovered, this`restartLostGbMs
      ensures Standing() && Balanced() && DueFrom(clock)
      ensures old(agents.Keys) <= agents.Keys && forall h <- old(agents) :: agents[h] == old(agents)[h]
      ensures old(WalkerAlone()) ==> WalkerAlone()
      ensures forall h <- agents | h !in old(agents) :: Planted(h, agents[h], plants, online)
      ensures forall p <- plants | p.host in online && policy.walkerHost != Some(p.host) :: p.host in agents
      ensures Snapshot() == AfterPlants(old(Snapshot()), plants, online, policy)
    {
      hide Conserved, Charged, ArmourBilled, Timed, Standing;
      for i := 0 to |plants|
        invariant Snapshot() == AfterPlants(old(Snapshot()), plants[..i], online, policy)
        invariant Standing() && Balanced() && DueFrom(clock)
        invariant old(agents.Keys) <= agents.Keys && forall h <- old(agents) :: agents[h] == old(agents)[h]
        invariant old(WalkerAlone()) ==> WalkerAlone()
      {
        var plant := plants[i];
        assert plants[..i + 1][..i] == plants[..i];
        if policy.walkerHost == Some(plant.host) || plant.host in agents || plant.host !in online { continue; }
        assert plant in plants;
        PlantAgent(plant.host, Agent(plant.bootstrap, None));
      }
      assert plants[..|plants|] == plants;
      PlantsStand(old(Snapshot()), plants, online);
    }

    /** Exactly the plannable hosts gain a resident, one that some plant of the plan stands. */
    lemma {:induction false} PlantsStand(r: Residents, plants: seq<Plant>, online: set<Host>)
      ensures var after := AfterPlants(r, plants, online, policy).agents;
        && (forall h <- after | h !in r.agents :: Planted(h, after[h], plants, online))
        && (forall p <- plants | p.host in online && policy.walkerHost != Some(p.host) :: p.host in after)
    {
      if plants != [] {
        var rest, last := plants[..|plants| - 1], plants[|plants| - 1];
        assert plants == rest + [last];
        PlantsStand(r, rest, online);
      }
    }

    method AssignInventory(online: set<Host>, stale: set<Host>)
      requires Standing() && Balanced() && DueFrom(clock)
      modifies this`agents
      ensures Standing() && Balanced() && DueFrom(clock) && agents.Keys == old(agents.Keys)
      ensures forall h <- agents :: agents[h] != old(agents)[h] <==>
        old(agents)[h].job.None? && !old(agents)[h].bootstrap && h in online && h in stale
      ensures forall h <- agents | agents[h] != old(agents)[h] ::
        agents[h] == Agent(false, Some(Job(Inventory, h, clock)))
      ensures Snapshot() == AfterInventory(old(Snapshot()), online, stale, clock)
    {
      hide Conserved, Charged, ArmourBilled, Timed;
      agents := map h | h in agents ::
        var agent := agents[h];
        if agent.job.None? && !agent.bootstrap && h in online && h in stale
        then agent.(job := Some(Job(Inventory, h, clock))) else agent;
    }

    /** At an order boundary a host takes or sheds armour; one mid-job keeps what it wears. */
    method ApplyArmourPolicy(wanted: set<Host>)
      requires Standing() && Balanced()
      modifies this`armoured, this`armourPeak
      ensures Standing() && Balanced()
      ensures !policy.armour ==> armoured == old(armoured) && armourPeak == old(armourPeak)
      ensures policy.armour ==> armourPeak == if old(armourPeak) < |armoured| then |armoured| else old(armourPeak)
      ensures policy.armour ==> forall h <- agents ::
        h in armoured <==> if agents[h].job.Some? then h in old(armoured) else h in wanted
      ensures Snapshot() == AfterArmour(old(Snapshot()), wanted, policy)
    {
      hide Conserved, Charged, Timed, GbMs, ArmouredMs;
      if !policy.armour { return; }
      armoured := set h | h in agents && if agents[h].job.Some? then h in armoured else h in wanted;
      if armourPeak < |armoured| { armourPeak := |armoured|; }
    }

    /** A job that some task of the plan ordered, and that leaves the walker alone. */
    ghost predicate Ordered(from: Host, job: Option<Job>, tasks: seq<Task>)
      reads `clock
    {
      exists t <- tasks ::
        t.from == from && !DisturbsWalker(t, policy) && job == Some(Job(t.kind, t.target, clock + WaitOf(t)))
    }

    method AssignTasks(tasks: seq<Task>)
      requires Standing() && Balanced() && DueFrom(clock)
      modifies this`agents
      ensures Standing() && Balanced() && DueFrom(clock) && agents.Keys == old(agents.Keys)
      ensures forall h <- agents | agents[h] != old(agents)[h] ::
        old(agents)[h].job.None? && Ordered(h, agents[h].job, tasks)
      ensures agents == AfterTasks(old(agents), tasks, clock, policy)
    {
      hide Conserved, Charged, ArmourBilled, Timed, WaitOf, DisturbsWalker;
      for i := 0 to |tasks|
        invariant Standing() && Balanced() && DueFrom(clock) && agents.Keys == old(agents.Keys)
        invariant agents == AfterTasks(old(agents), tasks[..i], clock, policy)
      {
        var task := tasks[i];
        assert tasks[..i + 1][..i] == tasks[..i];
        if task.from !in agents || agents[task.from].job.Some? { continue; }
        if DisturbsWalker(task, policy) { continue; }
        if agents[task.from].bootstrap && task.kind != Reclaim { continue; }
        var job := Job(task.kind, task.target, clock + WaitOf(task));
        agents := agents[task.from := agents[task.from].(job := Some(job))];
      }
      assert tasks[..|tasks|] == tasks;
      TasksAreOrdered(old(agents), tasks);
    }

    /** Only idle residents take a job, and it is one that some task of the plan ordered. */
    lemma {:induction false} TasksAreOrdered(before: map<Host, Agent>, tasks: seq<Task>)
      ensures var after := AfterTasks(before, tasks, clock, policy);
        && after.Keys == before.Keys
        && forall h <- after | after[h] != before[h] :: before[h].job.None? && Ordered(h, after[h].job, tasks)
    {
      hide WaitOf, DisturbsWalker;
      if tasks != [] {
        var rest, last := tasks[..|tasks| - 1], tasks[|tasks| - 1];
        assert tasks == rest + [last];
        TasksAreOrdered(before, rest);
      }
    }

    method DerivePass(d: Derivation)
      requires Standing() && Balanced() && DueFrom(clock)
      modifies this`agents, this`armoured, this`armourPeak, this`restartOutages, this`restartRecovered
      modifies this`restartLostGbMs
      ensures Standing() && Balanced() && DueFrom(clock)
      ensures old(agents.Keys) <= agents.Keys && (old(WalkerAlone()) ==> WalkerAlone())
      ensures Snapshot() == AfterDerive(old(Snapshot()), d, clock, policy)
    {
      hide Conserved, Charged, ArmourBilled, Timed, Standing, WaitOf, DisturbsWalker;
      hide AfterPlants, AfterInventory, AfterArmour, AfterTasks;
      PlantAll(d.plants, d.online);
      AssignInventory(d.online, d.stale);
      ApplyArmourPolicy(d.armourWanted);
      AssignTasks(d.tasks);
    }

    // ---------- completions ----------

    /** What completing the due jobs leaves of the residents: the others untouched, the due ones idle or gone. */
    ghost predicate Completed(before: map<Host, Agent>, after: map<Host, Agent>, cleared: set<Host>)
      reads `clock
    {
      after.Keys <= before.Keys && forall h <- before :: Ended(h, before[h], after, cleared)
    }

    /** Complete one job: the resident is idle, or gone with its armour. */
    method CompleteJob(name: Host, cleared: set<Host>)
      requires name in agents && Standing() && Balanced()
      modifies this`agents, this`armoured
      ensures Standing() && Balanced()
      ensures var agent := old(agents)[name];
        agents == if Leaves(name, agent, cleared) then old(agents) - {name}
          else old(agents)[name := agent.(job := None)]
      ensures armoured == old(armoured) * agents.Keys
    {
      hide Conserved, Charged, ArmourBilled, Timed, Leaves;
      var agent := agents[name];
      agents := agents[name := agent.(job := None)];
      if Leaves(name, agent, cleared) {
        DropAgent(name);
        assert agents == old(agents) - {name};
      }
    }

    method CompleteJobs(cleared: set<Host>) returns (any: bool)
      requires Standing() && Balanced()
      modifies this`agents, this`armoured
      ensures Standing() && Balanced() && DueFrom(clock + 1) && agents.Keys <= old(agents.Keys)
      ensures Completed(old(agents), agents, cleared) && armoured == old(armoured) * agents.Keys
      ensures any <==> AnyDue(old(agents), clock)
      ensures Snapshot() == AfterJobs(old(Snapshot()), cleared, clock)
    {
      hide Conserved, Charged, ArmourBilled, Timed, Leaves, Due;
      ghost var before := agents;
      var due := set h | h in agents && Due(agents[h], clock);
      any := due != {};
      if AnyDue(agents, clock) {
        ghost var h :| h in agents && Due(agents[h], clock);
        assert h in due;
      }
      assert armoured == armoured * agents.Keys;
      while due != {}
        invariant Standing() && Balanced() && due <= agents.Keys <= before.Keys
        invariant armoured == old(armoured) * agents.Keys
        invariant forall h <- due :: agents[h] == before[h] && Due(before[h], clock)
        invariant forall h <- before | h !in due :: Ended(h, before[h], agents, cleared)
        decreases due
      {
        var name :| name in due;
        CompleteJob(name, cleared);
        due := due - {name};
      }
      NothingDue(before, cleared);
      assert agents == AfterJobs(old(Snapshot()), cleared, clock).agents;
    }

    /** What has become of a resident once its due job, if any, is complete. */
    ghost predicate Ended(h: Host, agent: Agent, after: map<Host, Agent>, cleared: set<Host>)
      reads `clock
    {
      && (h !in after <==> Due(agent, clock) && Leaves(h, agent, cleared))
      && (h in after ==> after[h] == if Due(agent, clock) then agent.(job := None) else agent)
    }

    lemma NothingDue(before: map<Host, Agent>, cleared: set<Host>)
      requires Completed(before, agents, cleared)
      ensures DueFrom(clock + 1)
    {
    }

    // ---------- the run ----------

    function Sooner(time: int, other: Option<int>): int {
      if other.Some? && other.value < time then other.value else time
    }

    /** The earliest of `time` and every job's end. */
    method SoonestJob(time: int) returns (next: int)
      ensures IsEarliest(next, {time} + JobEnds(agents)) && DueFrom(next)
    {
      next := time;
      var left := agents.Keys;
      while left != {}
        invariant left <= agents.Keys && next <= time && next in {time} + JobEnds(agents)
        invariant forall h <- agents.Keys - left :: agents[h].job.Some? ==> next <= agents[h].job.value.doneAt
        decreases left
      {
        var name :| name in left;
        if agents[name].job.Some? && agents[name].job.value.doneAt < next { next := agents[name].job.value.doneAt; }
        left := left - {name};
      }
    }

    /** The next instant at which anything is to happen. */
    method NextInstant(mutationAt: int, walkerAt: Option<int>, boundary: Option<int>, deriveAt: Option<int>,
        ghost lower: int)
      returns (next: int)
      requires lower <= mutationAt && NotBefore(lower, walkerAt) && NotBefore(lower, boundary)
      requires NotBefore(lower, deriveAt) && DueFrom(lower)
      ensures IsEarliest(next, {mutationAt} + Times(walkerAt) + Times(boundary) + Times(deriveAt) + JobEnds(agents))
      ensures lower <= next && DueFrom(next)
    {
      hide JobEnds;
      var soonest := Sooner(Sooner(Sooner(mutationAt, walkerAt), boundary), deriveAt);
      next := SoonestJob(soonest);
      EarlierStill(soonest, {mutationAt} + Times(walkerAt) + Times(boundary) + Times(deriveAt), JobEnds(agents), next);
      NoneBefore(lower, soonest, next);
    }

    lemma NoneBefore(lower: int, soonest: int, next: int)
      requires lower <= soonest && DueFrom(lower) && IsEarliest(next, {soonest} + JobEnds(agents))
      ensures lower <= next
    {
    }

    ghost function At(pace: Pace): Moment
      reads `clock, `agents, `armoured, `restartOutages
      reads `occupiedRestarts, `restartsDodged, `stormRestarts, `restartRecovered, `armourPeak
    {
      Moment(clock, Snapshot(), pace)
    }

    /** Everything the loop waits for lies ahead, and its window starts where it should. */
    ghost predicate Waiting(pace: Pace, setup: Setup, lower: int)
      reads `windowStart
    {
      && lower <= pace.mutationAt && NotBefore(lower, pace.walkerAt)
      && (pace.derivedAt.None? ==> pace.deriveDue)
      && (if pace.measuring then windowStart == setup.warmupMs else lower <= setup.warmupMs)
    }

    /** Derive if a derive is due, then let time pass to the next instant, or to the cap. */
    method Depart(pace: Pace, setup: Setup, d: Derivation) returns (departed: Pace)
      requires Standing() && Balanced() && DueFrom(clock + 1) && WalkerAlone()
      requires Waiting(pace, setup, clock + 1) && setup.policy == policy && clock < setup.capMs
      requires pace.derivedAt.Some? ==> pace.derivedAt.value <= clock
      modifies this
      ensures Standing() && Balanced() && WalkerAlone() && Waiting(departed, setup, clock)
      ensures At(departed) == Arrived(old(At(pace)), setup, d)
      ensures window == old(window) + [SliceFrom(old(At(pace)), setup, d)] && windowStart == old(windowStart)
      ensures old(clock) <= clock <= setup.capMs && (old(clock) == clock ==> CanDerive(pace, clock))
      ensures departed.derivedAt.Some? && departed.derivedAt.value <= old(clock) && departed.measuring == pace.measuring
      ensures CanDerive(pace, old(clock)) ==> departed.derivedAt.value == old(clock)
    {
      hide Conserved, Charged, ArmourBilled, Timed, Standing, AfterDerive, JobEnds, IsEarliest, Earliest;
      departed := pace;
      var derives := CanDerive(pace, clock);
      if derives {
        DerivePass(d);
        departed := pace.(derivedAt := Some(clock), deriveDue := false);
      }
      ghost var derived := Derived(old(At(pace)), setup, d);
      assert At(departed) == derived;
      var next := NextInstant(departed.mutationAt, departed.walkerAt, BoundaryAt(departed, setup), DeriveAt(departed),
                              if derives then clock else clock + 1);
      OneEarliest(next, Instants(departed, agents, setup));
      NothingSooner(next, departed, agents, setup);
      AdvanceTo(if next < setup.capMs then next else setup.capMs);
    }

    /** Settle one instant: the measurement boundary first, then the walker and a due mutation, then the due jobs. */
    method Settle(pace: Pace, setup: Setup, mutation: Mutation, cleared: set<Host>, walkerMs: int)
      returns (settled: Pace)
      requires Standing() && Balanced() && WalkerAlone()
      modifies this
      ensures Standing() && Balanced() && WalkerAlone() && DueFrom(clock + 1) && clock == old(clock)
      ensures At(settled) == Settled(old(At(pace)), setup, mutation, cleared, walkerMs)
      ensures window == if Begins(pace, setup, clock) then [] else old(window)
      ensures windowStart == if Begins(pace, setup, clock) then clock else old(windowStart)
    {
      hide Conserved, Charged, ArmourBilled, Timed, Standing, AllSince, AfterBoundary, AfterMutation, AfterJobs, AnyDue;
      if Begins(pace, setup, clock) { BeginMeasurement(); }
      if pace.mutationAt <= clock { ApplyMutation(mutation); }
      var any := CompleteJobs(cleared);
      settled := PaceAfter(pace, setup, clock, walkerMs, any);
    }

    /** Time has passed since `before`, or no derive can run at this instant any more. */
    ghost predicate JustMoved(before: int, pace: Pace)
      reads `clock
    {
      before <= clock && (before == clock ==> !CanDerive(pace, clock))
    }

    lemma StartsACase(setup: Setup, script: Script, walking: bool)
      requires Standing() && clock == 0 && forall h <- agents :: agents[h].job.None?
      requires setup.warmupMs < setup.capMs && 0 < setup.mutationEveryMs
      requires forall n: nat :: 0 < script.walkerMs(n)
      ensures Startable(At(FirstPace(setup, script, walking)), setup, script, walking)
    {
    }

    /** The whole case. For all planners, nets and positive whole waits it ends at the cap, never iterating twice in
        a row without time passing, as the first moment of its reference history to reach the cap: with the
        residents, armour, outages and counts of that moment, and the window that history makes, which is exactly
        the hours after the warmup. What it charges is the capacity stranded and the armour worn in that window. */
    method Run(script: Script, setup: Setup, walking: bool) returns (ghost iterations: nat)
      requires Standing() && Balanced() && clock == 0 && window == [] && windowStart == 0 && openAtBoundary == 0
      requires WalkerAlone() && forall h <- agents :: agents[h].job.None?
      requires setup.policy == policy && setup.warmupMs < setup.capMs && 0 < setup.mutationEveryMs
      requires forall n: nat :: 0 < script.walkerMs(n)
      modifies this
      ensures Standing() && WalkerAlone() && clock == setup.capMs && iterations <= 2 * setup.capMs + 1
      ensures Startable(old(At(FirstPace(setup, script, walking))), setup, script, walking)
      ensures var start := old(At(FirstPace(setup, script, walking)));
        && FirstAtCap(start, setup, script, iterations) && KeepsMoving(start, setup, script, iterations)
        && Snapshot() == History(start, setup, script, iterations).r
        && window == WindowOf(start, setup, script, iterations)
      ensures windowStart == setup.warmupMs && Contiguous(window, setup.warmupMs, setup.capMs)
      ensures occupiedRestarts + openAtBoundary == restartsDodged + restartRecovered + restartUnrecovered
      ensures restartUnrecovered == |restartOutages| && stormRestarts <= occupiedRestarts
      ensures restartLostGbMs == StrandedGbMs(window)
      ensures armourGbMs == GbMs(armourGb, ArmouredMs(window))
      ensures forall s <- window :: |s.armoured| <= armourPeak
    {
      hide Conserved, Charged, ArmourBilled, Timed, Standing, Contiguous, StrandedGbMs, ArmouredMs, GbMs;
      hide History, WindowOf, NotAtCap, FirstAtCap, KeepsMoving, Snapshot, Arrived, Disturbed, SliceFrom;
      hide AfterJobs, AnyDue, Startable;
      StartsACase(setup, script, walking);
      ghost var start := At(FirstPace(setup, script, walking));
      var pace := FirstPace(setup, script, walking);
      var step: nat := 0;
      iterations := 0;
      HistoryOpens(start, setup, script);
      StandsStill(start, setup, script);
      while clock < setup.capMs
        invariant Standing() && WalkerAlone() && Balanced() && 0 <= clock <= setup.capMs
        invariant DueFrom(clock + 1) && Waiting(pace, setup, clock + 1)
        invariant pace.derivedAt.Some? ==> pace.derivedAt.value <= clock
        invariant iterations == step <= 2 * clock + if CanDerive(pace, clock) then 0 else 1
        invariant At(pace) == History(start, setup, script, step) && NotAtCap(start, setup, script, step)
        invariant window == WindowOf(start, setup, script, step)
        invariant KeepsMoving(start, setup, script, step)
        invariant 0 < step ==> JustMoved(History(start, setup, script, step - 1).clock, pace)
        decreases setup.capMs - clock, CanDerive(pace, clock)
      {
        iterations, step := iterations + 1, step + 1;
        HistoryGoesOn(start, setup, script, step);
        pace := Depart(pace, setup, script.derive(step));
        MovesOn(start, setup, script, step);
        if setup.capMs <= clock { break; }
        pace := Settle(pace, setup, script.mutate(step), script.cleared(step), script.walkerMs(step));
      }
      AtTheCap(start, setup, script, step);
      CloseBooks();
    }
  }

  lemma SmallerArmour(armoured: set<Host>, name: Host)
    ensures |armoured - {name}| <= |armoured|
    ensures name !in armoured ==> armoured - {name} == armoured
  {
    if name !in armoured { assert armoured - {name} == armoured; }
  }
}
