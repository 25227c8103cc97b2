/** The game's second timebase: a self-rescheduling 200 ms cycle that carries the sub-cycle
 * remainder in `lastUpdate`, and the counters it drives. */
module GameEngine {
  import opened Scheduler
  import opened VirtualClock

  const MILLI_PER_CYCLE := 200

  // ---------- one tick ----------

  datatype Timebase = Timebase(lastUpdate: int, cyclesProcessed: int, updates: nat)

  /** The timebase after `start` runs at `now`, and the delay it reschedules itself with. */
  function Tick(t: Timebase, now: int): (Timebase, int) {
    var last := if now < t.lastUpdate then now else t.lastUpdate;
    var diff := now - last;
    var offset := diff % MILLI_PER_CYCLE;
    var cycles := diff / MILLI_PER_CYCLE;
    (if cycles > 0 then Timebase(now - offset, t.cyclesProcessed + cycles, t.updates + 1)
     else t.(lastUpdate := last),
     MILLI_PER_CYCLE - offset)
  }

  /** A timebase is in step when its cycles and its remainder add up to the time elapsed. */
  predicate InStep(t: Timebase) {
    t.lastUpdate == MILLI_PER_CYCLE * t.cyclesProcessed
  }

  /** A tick never loses or double-counts a millisecond, however late it comes, and always aims at
      the next 200 ms boundary. */
  lemma TickStaysInStep(t: Timebase, now: int)
    requires InStep(t) && t.lastUpdate <= now
    ensures var (t', delay) := Tick(t, now);
      && InStep(t') && t'.cyclesProcessed == now / MILLI_PER_CYCLE
      && 1 <= delay <= MILLI_PER_CYCLE
      && now + delay == MILLI_PER_CYCLE * (t'.cyclesProcessed + 1)
      && t'.updates == t.updates + (if t'.cyclesProcessed > t.cyclesProcessed then 1 else 0)
  {}

  // ---------- the counters ----------

  /** `Engine.Counters`; the first six drive nothing and only ever count down. */
  datatype Counters = Counters(
    updateSkillLevels: int,
    updateDisplays: int,
    updateDisplaysLong: int,
    updateActiveScriptsDisplay: int,
    createProgramNotifications: int,
    augmentationsNotifications: int,
    checkFactionInvitations: int,
    passiveFactionGrowth: int,
    messages: int,
    mechanicProcess: int,
    contractGeneration: int,
    achievements: int,
    autoSave: int)
  {
    function Dead(): seq<int> {
      [updateSkillLevels, updateDisplays, updateDisplaysLong,
       updateActiveScriptsDisplay, createProgramNotifications, augmentationsNotifications]
    }
  }

  const INITIAL := Counters(10, 3, 15, 5, 10, 10, 10, 5, 150, 5, 3000, 5, 300)

  /** The player's autosave setting; `Unset` also stands for a missing hook. */
  datatype Autosave = Unset | NotFinite | Seconds(s: int)

  /** What the subsystem hooks answer during one update. */
  datatype Hooks = Hooks(hasRedPill: bool, autosave: Autosave)

  /** The callbacks one `checkCounters` makes; `passive` is the cycles handed to faction growth. */
  datatype Fired = Fired(
    invitations: bool, passive: int, messages: bool, bladeburner: bool,
    contracts: bool, achievements: bool, autosaveWarning: bool, autosave: bool)

  function Decremented(c: Counters, n: int): Counters {
    Counters(c.updateSkillLevels - n, c.updateDisplays - n, c.updateDisplaysLong - n,
             c.updateActiveScriptsDisplay - n, c.createProgramNotifications - n,
             c.augmentationsNotifications - n, c.checkFactionInvitations - n, c.passiveFactionGrowth - n,
             c.messages - n, c.mechanicProcess - n, c.contractGeneration - n, c.achievements - n, c.autoSave - n)
  }

  function AutosaveReset(a: Autosave): int {
    match a
    case Seconds(s) => if s == 0 then 300 else s * 5
    case _ => 60 * 5
  }

  /** What one check leaves behind: every spent live counter at its period, the rest untouched. */
  function Rearmed(c: Counters, hooks: Hooks): Counters {
    c.(checkFactionInvitations := if c.checkFactionInvitations <= 0 then 10 else c.checkFactionInvitations,
       passiveFactionGrowth := if c.passiveFactionGrowth <= 0 then 5 else c.passiveFactionGrowth,
       messages := if c.messages > 0 then c.messages else if hooks.hasRedPill then 4500 else 150,
       mechanicProcess := if c.mechanicProcess <= 0 then 5 else c.mechanicProcess,
       contractGeneration := if c.contractGeneration <= 0 then 3000 else c.contractGeneration,
       achievements := if c.achievements <= 0 then 5 else c.achievements,
       autoSave := if c.autoSave <= 0 then AutosaveReset(hooks.autosave) else c.autoSave)
  }

  function Calls(c: Counters, hooks: Hooks): Fired {
    var silent := hooks.autosave == Seconds(0);
    Fired(c.checkFactionInvitations <= 0,
          if c.passiveFactionGrowth <= 0 then 5 - c.passiveFactionGrowth else 0,
          c.messages <= 0, c.mechanicProcess <= 0, c.contractGeneration <= 0, c.achievements <= 0,
          c.autoSave <= 0 && silent, c.autoSave <= 0 && !silent)
  }

  // ---------- whole runs of updates ----------

  /** One `updateGame`: how many cycles it covers and what the hooks answer during it. */
  datatype Update = Update(cycles: int, hooks: Hooks)

  function CountersAfter(c: Counters, updates: seq<Update>): Counters
    decreases |updates|
  {
    if updates == [] then c
    else CountersAfter(Rearmed(Decremented(c, updates[0].cycles), updates[0].hooks), updates[1..])
  }

  /** Cycles handed to passive faction growth over a list of updates. */
  function Handed(c: Counters, updates: seq<Update>): int
    decreases |updates|
  {
    if updates == [] then 0
    else
      var d := Decremented(c, updates[0].cycles);
      Calls(d, updates[0].hooks).passive + Handed(Rearmed(d, updates[0].hooks), updates[1..])
  }

  /** How often a ten-cycle counter fired over a list of updates. */
  function Invitations(c: Counters, updates: seq<Update>): nat
    decreases |updates|
  {
    if updates == [] then 0
    else
      var d := Decremented(c, updates[0].cycles);
      (if Calls(d, updates[0].hooks).invitations then 1 else 0)
        + Invitations(Rearmed(d, updates[0].hooks), updates[1..])
  }

  function Cycles(updates: seq<Update>): int {
    if updates == [] then 0 else updates[0].cycles + Cycles(updates[1..])
  }

  /** However the cycles are batched, passive growth is credited with every one of them but the
      at most four still in its counter; the counters that drive nothing only count down. */
  lemma {:induction false} PassiveGrowthLosesNoCycle(c: Counters, updates: seq<Update>)
    requires c.passiveFactionGrowth > 0
    ensures var end := CountersAfter(c, updates);
      && Handed(c, updates) + (c.passiveFactionGrowth - end.passiveFactionGrowth) == Cycles(updates)
      && 0 < end.passiveFactionGrowth
      && (forall k | 0 <= k < 6 :: end.Dead()[k] == c.Dead()[k] - Cycles(updates))
    decreases |updates|
  {
    if updates != [] {
      var d := Decremented(c, updates[0].cycles);
      PassiveGrowthLosesNoCycle(Rearmed(d, updates[0].hooks), updates[1..]);
      assert forall k | 0 <= k < 6 :: d.Dead()[k] == c.Dead()[k] - updates[0].cycles;
    }
  }

  /** The other counters do not compensate: an invitation check fires at most once per update and
      at most once per ten cycles, so a fat update drops the checks it skipped over. */
  lemma {:induction false} InvitationsAreNotCompensated(c: Counters, updates: seq<Update>)
    requires 0 < c.checkFactionInvitations <= 10
    requires forall u <- updates :: 0 <= u.cycles
    ensures Invitations(c, updates) <= |updates|
    ensures 10 * Invitations(c, updates) <= Cycles(updates) + 10 - c.checkFactionInvitations
    decreases |updates|
  {
    if updates != [] {
      InvitationsAreNotCompensated(Rearmed(Decremented(c, updates[0].cycles), updates[0].hooks), updates[1..]);
    }
  }

  lemma {:induction false} UpdatesAppend(c: Counters, updates: seq<Update>, u: Update)
    ensures Cycles(updates + [u]) == Cycles(updates) + u.cycles
    ensures CountersAfter(c, updates + [u]) == Rearmed(Decremented(CountersAfter(c, updates), u.cycles), u.hooks)
    decreases |updates|
  {
    if updates == [] {
      assert updates + [u] == [u];
      assert [u][1..] == [];
    } else {
      assert (updates + [u])[1..] == updates[1..] + [u];
      UpdatesAppend(Rearmed(Decremented(c, updates[0].cycles), updates[0].hooks), updates[1..], u);
    }
  }

  // ---------- the rhythm of an engine that is never late ----------

  /** One cycle an update. */
  predicate Punctual(updates: seq<Update>) {
    forall u <- updates :: u.cycles == 1
  }

  lemma NextResidue(n: nat, p: nat)
    requires 0 < p
    ensures 0 <= n % p < p && (n + 1) % p == if n % p == p - 1 then 0 else n % p + 1
  {
    var (q, r) := (n / p, n % p);
    assert n == q * p + r;
    if r == p - 1 {
      assert n + 1 == (q + 1) * p;
      Residue(n + 1, q + 1, 0, p);
    } else {
      assert n + 1 == q * p + (r + 1);
      Residue(n + 1, q, r + 1, p);
    }
  }

  lemma Residue(x: int, q: int, r: int, p: int)
    requires 0 <= r < p && x == q * p + r
    ensures x % p == r
  {
    var d := q - x / p;
    assert d * p == x % p - r by { assert x == x / p * p + x % p; }
    AtLeastOne(d, p);
  }

  lemma AtLeastOne(d: int, p: int)
    requires 0 < p
    ensures d >= 1 ==> d * p >= p
    ensures d <= -1 ==> d * p <= -p
  {
  }

  predicate Multiple(n: int, period: nat)
    requires 0 < period
  {
    n % period == 0
  }

  /** What is left of a counter armed with its period `n` cycles ago. */
  function Left(n: nat, period: nat): int
    requires 0 < period
  {
    period - n % period
  }

  lemma OneCycle(n: nat, period: nat)
    requires 0 < period
    ensures 1 <= Left(n, period) <= period
    ensures Left(n, period) == 1 <==> Multiple(n + 1, period)
    ensures Left(n + 1, period) == if Left(n, period) == 1 then period else Left(n, period) - 1
  {
    NextResidue(n, period);
  }

  /** With one cycle an update, invitations are checked every 10 updates, passive growth, the mechanic and the
      achievements run every 5, and contracts are generated every 3000; growth is then handed exactly 5 cycles. */
  lemma {:induction false} CountersKeepTheirPeriods(updates: seq<Update>, hooks: Hooks)
    requires Punctual(updates)
    ensures var (c, n) := (CountersAfter(INITIAL, updates), |updates|);
      && c.checkFactionInvitations == Left(n, 10) && c.passiveFactionGrowth == Left(n, 5)
      && c.mechanicProcess == Left(n, 5) && c.achievements == Left(n, 5) && c.contractGeneration == Left(n, 3000)
    ensures var (calls, n) := (Calls(Decremented(CountersAfter(INITIAL, updates), 1), hooks), |updates| + 1);
      && (calls.invitations <==> Multiple(n, 10)) && (calls.bladeburner <==> Multiple(n, 5))
      && (calls.achievements <==> Multiple(n, 5)) && (calls.contracts <==> Multiple(n, 3000))
      && calls.passive == if Multiple(n, 5) then 5 else 0
  {
    hide Left, Multiple;
    var n := |updates|;
    NothingElapsedYet();
    if updates != [] {
      var rest, last := updates[..n - 1], updates[n - 1];
      assert updates == rest + [last] && last in updates;
      assert Punctual(rest);
      CountersKeepTheirPeriods(rest, last.hooks);
      UpdatesAppend(INITIAL, rest, last);
      OneCycle(n - 1, 10);
      OneCycle(n - 1, 5);
      OneCycle(n - 1, 3000);
    }
    OneCycle(n, 10);
    OneCycle(n, 5);
    OneCycle(n, 3000);
  }

  lemma NothingElapsedYet()
    ensures Left(0, 10) == 10 && Left(0, 5) == 5 && Left(0, 3000) == 3000
  {
  }

  lemma FullPeriod(p: nat)
    requires 0 < p
    ensures Left(0, p) == p && Multiple(0, p)
  {
    Residue(0, 0, 0, p);
  }

  /** What is left of a counter first armed with `first`, then with its period, after `n` cycles. */
  function LeftOf(n: nat, first: nat, period: nat): int
    requires 0 < period
  {
    if n < first then first - n else Left(n - first, period)
  }

  /** Such a counter runs out at its first arming and every period after it. */
  lemma CountsDown(n: nat, first: nat, period: nat)
    requires 0 < period && 0 < first
    ensures LeftOf(0, first, period) == first && 1 <= LeftOf(n, first, period)
    ensures LeftOf(n, first, period) == 1 <==> first <= n + 1 && Multiple(n + 1 - first, period)
    ensures LeftOf(n + 1, first, period)
      == if LeftOf(n, first, period) == 1 then period else LeftOf(n, first, period) - 1
  {
    hide Left, Multiple;
    FullPeriod(period);
    if first <= n { OneCycle(n - first, period); }
  }

  function MessagePeriod(pill: bool): nat { if pill then 4500 else 150 }

  lemma MessageStep(c: Counters, u: Update, hooks: Hooks)
    requires u.cycles == 1
    ensures Rearmed(Decremented(c, u.cycles), u.hooks).messages
      == if c.messages <= 1 then MessagePeriod(u.hooks.hasRedPill) else c.messages - 1
    ensures Calls(Decremented(c, 1), hooks).messages <==> c.messages <= 1
  {
  }

  /** Messages are checked after 150 updates and from then on every 150, or every 4500 with the red pill. */
  lemma {:induction false} MessagesKeepTheirPeriod(updates: seq<Update>, pill: bool, hooks: Hooks)
    requires Punctual(updates) && forall u <- updates :: u.hooks.hasRedPill == pill
    ensures CountersAfter(INITIAL, updates).messages == LeftOf(|updates|, 150, if pill then 4500 else 150)
    ensures Calls(Decremented(CountersAfter(INITIAL, updates), 1), hooks).messages
      <==> (150 <= |updates| + 1 && Multiple(|updates| + 1 - 150, if pill then 4500 else 150))
  {
    hide LeftOf, Multiple, Rearmed, Decremented, Calls;
    var n := |updates|;
    CountsDown(n, 150, MessagePeriod(pill));
    if updates == [] {
      MessageStep(INITIAL, Update(1, hooks), hooks);
    } else {
      var rest, last := updates[..n - 1], updates[n - 1];
      assert updates == rest + [last] && last in updates;
      assert Punctual(rest);
      MessagesKeepTheirPeriod(rest, pill, last.hooks);
      UpdatesAppend(INITIAL, rest, last);
      MessageStep(CountersAfter(INITIAL, rest), last, hooks);
      MessageStep(CountersAfter(INITIAL, updates), Update(1, hooks), hooks);
      CountsDown(n - 1, 150, MessagePeriod(pill));
    }
  }

  /** Every how many cycles a setting saves, or warns that saving is off: five a second of the interval, of sixty
      seconds where it is missing or not a number, and of sixty between warnings. */
  function SavePeriod(a: Autosave): (period: nat)
    ensures 0 < period
  {
    if a.Seconds? && 0 < a.s then 5 * a.s else 300
  }

  lemma AutosaveStep(c: Counters, u: Update, hooks: Hooks)
    requires u.cycles == 1 && (u.hooks.autosave.Seconds? ==> 0 <= u.hooks.autosave.s)
    ensures Rearmed(Decremented(c, u.cycles), u.hooks).autoSave
      == if c.autoSave <= 1 then SavePeriod(u.hooks.autosave) else c.autoSave - 1
  {
  }

  lemma SavesAtTheEnd(c: Counters, hooks: Hooks)
    ensures var calls := Calls(Decremented(c, 1), hooks);
      && (calls.autosave <==> c.autoSave <= 1 && hooks.autosave != Seconds(0))
      && (calls.autosaveWarning <==> c.autoSave <= 1 && hooks.autosave == Seconds(0))
  {
  }

  /** The save is first due after 300 updates and from then on once a period. It warns instead of saving exactly when
      the interval is zero. */
  lemma {:induction false} AutosaveKeepsItsPeriod(updates: seq<Update>, setting: Autosave, hooks: Hooks)
    requires Punctual(updates) && forall u <- updates :: u.hooks.autosave == setting
    requires setting.Seconds? ==> 0 <= setting.s
    ensures CountersAfter(INITIAL, updates).autoSave == LeftOf(|updates|, 300, SavePeriod(setting))
    ensures var calls := Calls(Decremented(CountersAfter(INITIAL, updates), 1), hooks);
      var due := 300 <= |updates| + 1 && Multiple(|updates| + 1 - 300, SavePeriod(setting));
      && (calls.autosave <==> due && hooks.autosave != Seconds(0))
      && (calls.autosaveWarning <==> due && hooks.autosave == Seconds(0))
  {
    hide LeftOf, Multiple, Rearmed, Decremented, Calls, SavePeriod;
    var n := |updates|;
    CountsDown(n, 300, SavePeriod(setting));
    SavesAtTheEnd(CountersAfter(INITIAL, updates), hooks);
    if updates != [] {
      var rest, last := updates[..n - 1], updates[n - 1];
      assert updates == rest + [last] && last in updates;
      assert Punctual(rest);
      AutosaveKeepsItsPeriod(rest, setting, last.hooks);
      UpdatesAppend(INITIAL, rest, last);
      AutosaveStep(CountersAfter(INITIAL, rest), last, hooks);
      CountsDown(n - 1, 300, SavePeriod(setting));
    }
  }

  // ---------- the engine object ----------

  /** The handle of the pending tick, if any. */
  datatype Timer = Idle | Armed(id: int)

  class Engine {
    var counters: Counters
    var cyclesProcessed: int
    var updates: nat
    var lastUpdate: int
    var timer: Timer
    const clock: Clock
    /** The label this engine's own tick is scheduled under. */
    const tickFn: int
    /** Every update so far. */
    ghost var history: seq<Update>

    ghost predicate Valid()
      reads `counters, `history, `cyclesProcessed, `updates
    {
      && counters == CountersAfter(INITIAL, history)
      && cyclesProcessed == Cycles(history)
      && updates == |history|
    }

    function Time(): Timebase
      reads this
    {
      Timebase(lastUpdate, cyclesProcessed, updates)
    }

    constructor (clock: Clock, tickFn: int)
      ensures Valid() && Time() == Timebase(0, 0, 0) && history == [] && timer == Idle
      ensures this.clock == clock && this.tickFn == tickFn
    {
      counters, cyclesProcessed, updates, lastUpdate, timer := INITIAL, 0, 0, 0, Idle;
      this.clock, this.tickFn := clock, tickFn;
      history := [];
    }

    method DecrementAllCounters(n: int)
      modifies this`counters
      ensures counters == Decremented(old(counters), n)
    {
      counters := Counters(
        counters.updateSkillLevels - n, counters.updateDisplays - n, counters.updateDisplaysLong - n,
        counters.updateActiveScriptsDisplay - n, counters.createProgramNotifications - n,
        counters.augmentationsNotifications - n, counters.checkFactionInvitations - n,
        counters.passiveFactionGrowth - n, counters.messages - n, counters.mechanicProcess - n,
        counters.contractGeneration - n, counters.achievements - n, counters.autoSave - n);
    }

    /** Each spent counter fires once, however deep it went, and is re-armed. */
    method CheckCounters(hooks: Hooks) returns (fired: Fired)
      modifies this`counters
      ensures counters == Rearmed(old(counters), hooks)
      ensures fired == Calls(old(counters), hooks)
    {
      var invitations, growth, messages := counters.checkFactionInvitations, counters.passiveFactionGrowth,
        counters.messages;
      var mechanic, contracts := counters.mechanicProcess, counters.contractGeneration;
      var achievements, autoSave := counters.achievements, counters.autoSave;
      var invited, handed, messaged, processed, generated, achieved := false, 0, false, false, false, false;
      var warned, saved := false, false;
      if invitations <= 0 {
        invited := true;
        invitations := 10;
      }
      if growth <= 0 {
        handed := 5 - growth;
        growth := 5;
      }
      if messages <= 0 {
        messaged := true;
        messages := if hooks.hasRedPill then 4500 else 150;
      }
      if mechanic <= 0 {
        processed := true;
        mechanic := 5;
      }
      if contracts <= 0 {
        generated := true;
        contracts := 3000;
      }
      if achievements <= 0 {
        achieved := true;
        achievements := 5;
      }
      if autoSave <= 0 {
        var interval := if hooks.autosave.Unset? then Seconds(60) else hooks.autosave;
        if interval == Seconds(0) {
          warned := true;
          autoSave := 300;
        } else {
          if interval.NotFinite? { interval := Seconds(60); }
          autoSave := interval.s * 5;
          saved := true;
        }
      }
      counters := counters.(
        checkFactionInvitations := invitations, passiveFactionGrowth := growth, messages := messages,
        mechanicProcess := mechanic, contractGeneration := contracts, achievements := achievements,
        autoSave := autoSave);
      fired := Fired(invited, handed, messaged, processed, generated, achieved, warned, saved);
    }

    /** One update of `n` cycles, however many. */
    method UpdateGame(n: int, hooks: Hooks) returns (fired: Fired)
      requires Valid()
      modifies this`counters, this`history, this`cyclesProcessed, this`updates
      ensures Valid() && history == old(history) + [Update(n, hooks)]
      ensures cyclesProcessed == old(cyclesProcessed) + n && updates == old(updates) + 1
      ensures fired == Calls(Decremented(old(counters), n), hooks)
    {
      cyclesProcessed := cyclesProcessed + n;
      updates := updates + 1;
      UpdatesAppend(INITIAL, history, Update(n, hooks));
      history := history + [Update(n, hooks)];
      DecrementAllCounters(n);
      fired := CheckCounters(hooks);
    }

    /** Nothing on the clock will tick this engine. */
    ghost predicate NoTick()
      reads this, clock
    {
      forall e <- clock.Abs().live :: e.fn != tickFn
    }

    /** The clock ticks this engine through the handle it holds, and through no other. */
    ghost predicate HoldsTick()
      reads this, clock
    {
      && (exists e <- clock.Abs().live :: e.fn == tickFn)
      && forall e <- clock.Abs().live | e.fn == tickFn :: timer == Armed(e.id)
    }

    /** Process the whole cycles elapsed, if any, and keep the remainder. */
    method Elapse(hooks: Hooks, now: int) returns (offset: int, updated: bool)
      requires Valid()
      modifies this`lastUpdate, this`counters, this`history, this`cyclesProcessed, this`updates
      ensures Valid() && Time() == Tick(old(Time()), now).0
      ensures 0 <= offset < MILLI_PER_CYCLE && Tick(old(Time()), now).1 == MILLI_PER_CYCLE - offset
      ensures updated <==> updates != old(updates)
    {
      hide CountersAfter, Cycles, Decremented, Calls;
      var diff := now - lastUpdate;
      if diff < 0 {
        diff := 0;
        lastUpdate := now;
      }
      offset := diff % MILLI_PER_CYCLE;
      var cycles := diff / MILLI_PER_CYCLE;
      updated := cycles > 0;
      if updated {
        lastUpdate := now - offset;
        var _ := UpdateGame(cycles, hooks);
      }
    }

    /** Process the elapsed cycles, carry the remainder and reschedule at the next boundary. A subsystem may call
        `stop` during the update; that revokes the handle of the tick now running, and this reschedules all the same. */
    method Start(hooks: Hooks, stopped: bool)
      requires Valid() && clock.Valid()
      modifies this, clock
      ensures Valid() && clock.Valid()
      ensures Time() == Tick(old(Time()), old(clock.now)).0
      ensures var (t, delay) := Tick(old(Time()), old(clock.now));
        var before := if stopped && t.updates != old(updates) && old(timer).Armed?
                      then Apply(old(clock.Abs()), Op.Cancel(old(timer).id)) else old(clock.Abs());
        clock.Abs() == Apply(before, In(Finite(delay), tickFn))
      ensures timer == Armed(old(clock.nextId))
      ensures old(NoTick()) && old(clock.Issued()) && (old(timer).Armed? ==> old(timer).id < old(clock.nextId)) ==>
        HoldsTick()
    {
      hide CountersAfter, Cycles, Decremented, Calls, Apply, Tick, Valid;
      ghost var before := clock.Abs();
      var offset, updated := Elapse(hooks, clock.now);
      if updated && stopped { Stop(); }
      ghost var between := clock.Abs();
      KeepsCounting(before, old(timer));
      var handle := clock.ScheduleIn(Finite(MILLI_PER_CYCLE - offset), tickFn);
      timer := Armed(handle.id);
      if old(NoTick()) && old(clock.Issued()) && (old(timer).Armed? ==> old(timer).id < old(clock.nextId)) {
        TickIsHeld(before, old(timer), between, MILLI_PER_CYCLE - offset);
      }
    }

    lemma KeepsCounting(s: Sched, held: Timer)
      ensures held.Armed? ==> Apply(s, Op.Cancel(held.id)).nextId == s.nextId
    {
    }

    /** With no tick due, one scheduled next is due under the next handle, revoked or not the old one. */
    lemma TickIsHeld(s: Sched, held: Timer, between: Sched, delay: int)
      requires (forall e <- s.live :: e.fn != tickFn) && (forall id <- s.revoked :: id < s.nextId) && 0 <= delay
      requires between == s || (held.Armed? && held.id < s.nextId && between == Apply(s, Op.Cancel(held.id)))
      ensures var after := Apply(between, In(Finite(delay), tickFn));
        && (exists e <- after.live :: e.fn == tickFn)
        && forall e <- after.live | e.fn == tickFn :: e.id == s.nextId
    {
      assert Event(s.now + delay, s.nextId, tickFn) in Apply(between, In(Finite(delay), tickFn)).live;
    }

    /** Cancel the pending tick. This stops the engine exactly when no other tick than the one it holds is pending. */
    method Stop()
      requires clock.Valid()
      modifies this`timer, clock
      ensures clock.Valid()
      ensures clock.Abs() == (if old(timer).Armed? then Apply(old(clock.Abs()), Op.Cancel(old(timer).id))
        else old(clock.Abs()))
      ensures timer == Idle
      ensures NoTick() <==> forall e <- old(clock.Abs()).live | e.fn == tickFn :: old(timer) == Armed(e.id)
      ensures old(clock.Issued()) && (old(timer).Armed? ==> old(timer).id < old(clock.nextId)) ==> clock.Issued()
    {
      if timer.Armed? {
        clock.Cancel(timer.id);
      }
      timer := Idle;
    }
  }

  // ---------- bonus time ----------

  datatype BufferOp = Fill(cycles: int) | Drain

  /** Cycles in the buffer and cycles already processed out of it, after a list of operations. */
  function Buffered(stored: int, taken: int, ops: seq<BufferOp>, min: int, max: int): (int, int)
    decreases |ops|
  {
    if ops == [] then (stored, taken)
    else match ops[0]
      case Fill(n) => Buffered(stored + n, taken, ops[1..], min, max)
      case Drain =>
        var n := TakeAmount(stored, min, max);
        Buffered(stored - n, taken + n, ops[1..], min, max)
  }

  function TakeAmount(stored: int, min: int, max: int): int {
    if stored < min then 0 else if stored < max then stored else max
  }

  function StoredBy(ops: seq<BufferOp>): int {
    if ops == [] then 0 else (if ops[0].Fill? then ops[0].cycles else 0) + StoredBy(ops[1..])
  }

  /** Bonus time is conserved: what was stored is either still stored or was taken, and the buffer
      never goes negative. */
  lemma {:induction false} BufferConserves(stored: int, taken: int, ops: seq<BufferOp>, min: int, max: int)
    requires 0 <= min && 0 <= max && 0 <= stored
    requires forall op <- ops :: op.Fill? ==> 0 <= op.cycles
    ensures var (stored', taken') := Buffered(stored, taken, ops, min, max);
      stored' + taken' == stored + taken + StoredBy(ops) && 0 <= stored' && taken <= taken'
    decreases |ops|
  {
    if ops != [] {
      assert ops[0] in ops;
      var n := TakeAmount(stored, min, max);
      match ops[0]
      case Fill(m) => BufferConserves(stored + m, taken, ops[1..], min, max);
      case Drain => BufferConserves(stored - n, taken + n, ops[1..], min, max);
    }
  }

  class CycleBuffer {
    var stored: int
    const minToProcess: int
    const maxPerProcess: int

    constructor (minToProcess: int, maxPerProcess: int)
      ensures stored == 0 && this.minToProcess == minToProcess && this.maxPerProcess == maxPerProcess
    {
      stored := 0;
      this.minToProcess, this.maxPerProcess := minToProcess, maxPerProcess;
    }

    method Store(cycles: int)
      modifies this
      ensures (stored, 0) == Buffered(old(stored), 0, [Fill(cycles)], minToProcess, maxPerProcess)
    {
      stored := stored + cycles;
    }

    /** Cycles to process now, or 0 below the threshold. */
    method Take() returns (cycles: int)
      modifies this
      ensures (stored, cycles) == Buffered(old(stored), 0, [Drain], minToProcess, maxPerProcess)
      ensures cycles == 0 || minToProcess <= old(stored)
      ensures cycles <= maxPerProcess || cycles == 0
    {
      if stored < minToProcess { return 0; }
      cycles := if stored < maxPerProcess then stored else maxPerProcess;
      stored := stored - cycles;
    }
  }
}
