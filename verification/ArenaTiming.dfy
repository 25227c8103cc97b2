/** Phase, playtime and alignment drift of a playbook arena game (sim/ipvgobruteforce-arena.ts).
    Boards, moves and the playbook's answers are arbitrary; milliseconds are whole. */
module ArenaTiming {
  import opened JsArithmetic
  import opened Wrappers

  const PHASES := 150_000
  const CYCLE_MS := 200
  const EPOCH_MS := 30_000_000
  const CONTROLLED_REPLY_BUDGET_MS := 20

  function NormalizePhase(phase: int): int {
    Remainder(Remainder(phase, PHASES) + PHASES, PHASES)
  }

  lemma NormalizeIsModulo(phase: int)
    ensures NormalizePhase(phase) == phase % PHASES
  {
    ResidueOfRemainder(phase, PHASES);
  }

  // ---------- ordinary replies ----------

  datatype Timing = Minimum | Maximum | Random

  function Uniform(draw: real, low: int, count: int): int {
    low + (draw * count as real).Floor
  }

  lemma UniformInRange(draw: real, low: int, count: int)
    requires 0.0 <= draw < 1.0 && 0 < count
    ensures low <= Uniform(draw, low, count) < low + count
  {
    var x := draw * count as real;
    Scaled(draw, count as real);
    assert 0.0 <= x < count as real;
  }

  function Processing(timing: Timing, draw: real): int {
    match timing case Minimum => 5 case Maximum => 90 case Random => Uniform(draw, 5, 86)
  }

  function EngineOffset(timing: Timing, draw: real): int {
    match timing case Minimum => 0 case Maximum => 199 case Random => Uniform(draw, 0, 200)
  }

  function AtLeastOne(ticks: int): int {
    if ticks < 1 then 1 else ticks
  }

  function OrdinaryTicks(timing: Timing, processingDraw: real, offsetDraw: real, waitMs: int): int {
    AtLeastOne((EngineOffset(timing, offsetDraw) + waitMs + Processing(timing, processingDraw)) / CYCLE_MS)
  }

  lemma OrdinaryRanges(timing: Timing, processingDraw: real, offsetDraw: real)
    requires 0.0 <= processingDraw < 1.0 && 0.0 <= offsetDraw < 1.0
    ensures 5 <= Processing(timing, processingDraw) <= 90 && 0 <= EngineOffset(timing, offsetDraw) <= 199
  {
    UniformInRange(processingDraw, 5, 86);
    UniformInRange(offsetDraw, 0, 200);
  }

  /** The certified window holds exactly while offset, fractional sleeps and processing stay under two cycles. */
  lemma CompletionWindow(offset: int, processing: int, c: int, r: int)
    requires 0 <= offset && 0 <= processing && 1 <= c && 0 <= r < CYCLE_MS
    ensures var ticks := AtLeastOne((offset + (c * CYCLE_MS + r) + processing) / CYCLE_MS);
      && (ticks == c <==> offset + r + processing < CYCLE_MS)
      && (ticks == c || ticks == c + 1 <==> offset + r + processing < 2 * CYCLE_MS)
  {
    Cycles(c, offset + r + processing);
  }

  lemma Cycles(c: int, rest: int)
    ensures (c * CYCLE_MS + rest) / CYCLE_MS == c + rest / CYCLE_MS
  {
  }

  /** With at most 110 ms of pattern sleeps every ordinary reply completes in the cycles it waits, or one more;
      the source asks for 100. */
  lemma OrdinaryRepliesStayCertified(timing: Timing, processingDraw: real, offsetDraw: real, c: int, r: int)
    requires 0.0 <= processingDraw < 1.0 && 0.0 <= offsetDraw < 1.0 && 1 <= c && 0 <= r <= 110
    ensures var ticks := OrdinaryTicks(timing, processingDraw, offsetDraw, c * CYCLE_MS + r);
      ticks == c || ticks == c + 1
  {
    OrdinaryRanges(timing, processingDraw, offsetDraw);
    CompletionWindow(EngineOffset(timing, offsetDraw), Processing(timing, processingDraw), c, r);
  }

  /** Under the worst timing the window holds exactly up to there. */
  lemma WorstTimingWindow(c: int, r: int)
    requires 1 <= c && 0 <= r < CYCLE_MS
    ensures var ticks := OrdinaryTicks(Maximum, 0.0, 0.0, c * CYCLE_MS + r); ticks == c || ticks == c + 1 <==> r <= 110
  {
    CompletionWindow(199, 90, c, r);
  }

  // ---------- the game's clock ----------

  /** What White's reply costs: its sleeps, whether it places a stone, the cycles the game then stores, and the
      three random draws of the timing model. */
  datatype Reply = Reply(
    sleepsMs: nat, places: bool, storedCycles: int,
    processingDraw: real, offsetDraw: real, acceleratedDraw: real, controlledDraw: real)

  predicate UnitDraws(reply: Reply) {
    && 0.0 <= reply.processingDraw < 1.0 && 0.0 <= reply.offsetDraw < 1.0
    && 0.0 <= reply.acceleratedDraw < 1.0 && 0.0 <= reply.controlledDraw < 1.0
  }

  function AcceleratedProcessing(timing: Timing, draw: real): int {
    match timing case Minimum => 5 case Maximum => 50 case Random => Uniform(draw, 5, 46)
  }

  function ControlledProcessing(timing: Timing, draw: real): int {
    match timing case Minimum => 5 case Maximum => CONTROLLED_REPLY_BUDGET_MS
    case Random => Uniform(draw, 5, CONTROLLED_REPLY_BUDGET_MS - 4)
  }

  lemma ReplyRanges(timing: Timing, reply: Reply)
    requires UnitDraws(reply)
    ensures 5 <= AcceleratedProcessing(timing, reply.acceleratedDraw) <= 50
    ensures 5 <= ControlledProcessing(timing, reply.controlledDraw) <= CONTROLLED_REPLY_BUDGET_MS
  {
    UniformInRange(reply.acceleratedDraw, 5, 46);
    UniformInRange(reply.controlledDraw, 5, CONTROLLED_REPLY_BUDGET_MS - 4);
  }

  class GameClock {
    const timing: Timing
    const bonusTime: bool
    const alignmentBoards: int

    var phase: int
    var playtime: int
    var alignmentCredit: int
    var controlledOffset: int
    var bonusCycles: int
    var replies: nat
    var tickCounts: seq<nat>
    /** Whether every controlled reply since the last anchor waited whole cycles. */
    ghost var wholeWaits: bool

    /** The phase is the engine cycle of the playtime. */
    ghost predicate InPhase()
      reads this
    {
      phase == playtime / CYCLE_MS % PHASES
    }

    /** While waits are whole cycles, dispatches drift by at most the budget for each controlled reply since the
        last anchor, and so never by a whole cycle. */
    ghost predicate WithinDrift()
      reads this
    {
      && 0 <= alignmentCredit <= alignmentBoards && alignmentBoards * CONTROLLED_REPLY_BUDGET_MS < CYCLE_MS
      && 0 <= controlledOffset < CYCLE_MS
      && (wholeWaits ==> controlledOffset <= CONTROLLED_REPLY_BUDGET_MS * (alignmentBoards - alignmentCredit))
    }

    /** Every reply is counted under the ticks it took: one to four, or five and more. */
    ghost predicate Counted()
      reads this
    {
      |tickCounts| == 5 && replies == tickCounts[0] + tickCounts[1] + tickCounts[2] + tickCounts[3] + tickCounts[4]
    }

    ghost predicate Valid()
      reads this
    {
      InPhase() && WithinDrift() && Counted()
    }

    constructor (timing: Timing, bonus: Option<int>, alignmentBoards: int, playtime: int)
      requires 0 <= alignmentBoards && alignmentBoards * CONTROLLED_REPLY_BUDGET_MS < CYCLE_MS
      ensures Valid() && this.playtime == playtime && this.timing == timing && bonusTime == bonus.Some?
      ensures this.alignmentBoards == alignmentBoards && alignmentCredit == 0 && replies == 0
      ensures bonusCycles == if bonus.Some? then bonus.value else 0
    {
      this.timing, this.bonusTime, this.alignmentBoards := timing, bonus.Some?, alignmentBoards;
      this.phase, this.playtime := playtime / CYCLE_MS % PHASES, playtime;
      alignmentCredit, controlledOffset, bonusCycles := 0, 0, if bonus.Some? then bonus.value else 0;
      replies, tickCounts, wholeWaits := 0, [0, 0, 0, 0, 0], true;
    }

    /** No certified state: wait for the next engine cycle and give up alignment. */
    method WaitForCycle()
      requires Valid()
      modifies this`phase, this`playtime, this`alignmentCredit
      ensures Valid() && alignmentCredit == 0
      ensures playtime % CYCLE_MS == 0 && old(playtime) < playtime <= old(playtime) + CYCLE_MS
    {
      NextPhase(phase, playtime, 1);
      phase := NormalizePhase(phase + 1);
      playtime := (playtime / CYCLE_MS + 1) * CYCLE_MS;
      alignmentCredit := 0;
    }

    /** A certified state: dispatch at the start of its cycle. When that is the cycle already under way, playtime
        goes back to where the cycle began; in every other case it does not go back. */
    method Resynchronize(dispatchPhase: int, credit: int)
      requires Valid() && 0 <= dispatchPhase < PHASES && 0 <= credit <= alignmentCredit
      modifies this`phase, this`playtime, this`alignmentCredit
      ensures Valid() && phase == dispatchPhase && alignmentCredit == credit && playtime % CYCLE_MS == 0
      ensures playtime < old(playtime) <==> dispatchPhase == old(phase) && old(playtime) % CYCLE_MS != 0
      ensures old(playtime) - CYCLE_MS < playtime < old(playtime) + PHASES * CYCLE_MS
    {
      alignmentCredit := credit;
      NormalizeIsModulo(dispatchPhase - phase);
      var elapsed := NormalizePhase(dispatchPhase - phase);
      ReachesPhase(playtime / CYCLE_MS, phase, dispatchPhase, elapsed);
      playtime := (playtime / CYCLE_MS + elapsed) * CYCLE_MS;
      phase := dispatchPhase;
    }

    method Align()
      requires Valid()
      modifies this`phase, this`playtime, this`alignmentCredit, this`controlledOffset, this`wholeWaits
      ensures Valid() && wholeWaits && alignmentCredit == alignmentBoards && controlledOffset == 0
      ensures playtime == old(playtime) + CYCLE_MS
    {
      NextPhase(phase, playtime, 1);
      phase := NormalizePhase(phase + 1);
      playtime := playtime + CYCLE_MS;
      alignmentCredit, controlledOffset, wholeWaits := alignmentBoards, 0, true;
    }

    method ControlledSleep(variant: int) returns (ok: bool)
      requires Valid()
      modifies this`phase, this`playtime, this`controlledOffset, this`wholeWaits
      ensures Valid() && ok == (1 <= variant)
      ensures playtime == old(playtime) + if ok then variant * CYCLE_MS else 0
      ensures ok ==> controlledOffset == 0 && wholeWaits
    {
      if variant < 1 { return false; }
      NextPhase(phase, playtime, variant);
      phase := NormalizePhase(phase + variant);
      playtime := playtime + variant * CYCLE_MS;
      controlledOffset, wholeWaits := 0, true;
      ok := true;
    }

    lemma CreditLeft()
      requires Valid()
      ensures 0 <= alignmentCredit
    {
    }

    /** What a reply waits for: its sleeps and, for a stone, its placement. */
    function WaitOf(reply: Reply): nat {
      reply.sleepsMs + if !reply.places then 0 else if bonusTime && 0 < reply.storedCycles then 40 else 200
    }

    /** The placement of a stone: two bonus cycles buy a short one. */
    method Place(reply: Reply) returns (waitMs: int)
      modifies this`bonusCycles
      ensures waitMs == WaitOf(reply)
      ensures bonusCycles == reply.storedCycles - if reply.places && bonusTime && 0 < reply.storedCycles then 2 else 0
    {
      bonusCycles := reply.storedCycles;
      waitMs := reply.sleepsMs;
      if reply.places {
        if bonusTime && 0 < bonusCycles {
          bonusCycles := bonusCycles - 2;
          waitMs := waitMs + 40;
        } else {
          waitMs := waitMs + 200;
        }
      }
    }

    /** A controlled reply's ticks, and the drift it leaves: exactly its own cycles while waits are whole. */
    method ControlledReply(waitMs: nat, processing: int) returns (ticks: int)
      requires WithinDrift() && 0 < alignmentCredit && 0 <= processing <= CONTROLLED_REPLY_BUDGET_MS
      modifies this`controlledOffset, this`wholeWaits
      ensures var wall := old(controlledOffset) + waitMs + processing;
        controlledOffset == wall % CYCLE_MS && ticks == if wall < CYCLE_MS then 1 else wall / CYCLE_MS
      ensures 1 <= ticks && 0 <= controlledOffset < CYCLE_MS
      ensures wholeWaits == (old(wholeWaits) && waitMs % CYCLE_MS == 0)
      ensures wholeWaits ==> controlledOffset == old(controlledOffset) + processing
      ensures wholeWaits && 0 < waitMs ==> ticks == waitMs / CYCLE_MS
    {
      var wall := controlledOffset + waitMs + processing;
      wholeWaits := wholeWaits && waitMs % CYCLE_MS == 0;
      if wholeWaits {
        assert controlledOffset + processing < CYCLE_MS;
        Cycles(waitMs / CYCLE_MS, controlledOffset + processing);
      }
      ticks := AtLeastOne(wall / CYCLE_MS);
      controlledOffset := wall % CYCLE_MS;
    }

    method CountTicks(ticks: int)
      requires Counted() && 1 <= ticks
      modifies this`replies, this`tickCounts
      ensures Counted() && replies == old(replies) + 1
      ensures var k := if ticks < 5 then ticks - 1 else 4; tickCounts == old(tickCounts)[k := old(tickCounts)[k] + 1]
    {
      var k := if ticks < 5 then ticks - 1 else 4;
      tickCounts := tickCounts[k := tickCounts[k] + 1];
      replies := replies + 1;
    }

    /** Advance over White's reply. In bonus time the playtime takes the accelerated wait; otherwise it takes whole
        ticks: the controlled ones while credit remains, the ordinary ones after. */
    method Respond(reply: Reply, accelerated: bool) returns (ticks: int)
      requires Valid() && UnitDraws(reply) && (accelerated ==> bonusTime)
      modifies this
      ensures Valid() && replies == old(replies) + 1 && old(playtime) < playtime && 1 <= ticks
      ensures alignmentCredit == if 0 < old(alignmentCredit) then old(alignmentCredit) - 1 else 0
      ensures bonusTime ==>
        playtime == old(playtime) + WaitOf(reply) + AcceleratedProcessing(timing, reply.acceleratedDraw)
      ensures !bonusTime ==> playtime == old(playtime) + ticks * CYCLE_MS
      ensures accelerated ==> ticks == 1 + playtime / CYCLE_MS - old(playtime) / CYCLE_MS
      ensures !accelerated && 0 < old(alignmentCredit) && wholeWaits && 0 < WaitOf(reply) ==>
        ticks == WaitOf(reply) / CYCLE_MS
      ensures !accelerated && 0 < old(alignmentCredit) ==>
        wholeWaits == (old(wholeWaits) && WaitOf(reply) % CYCLE_MS == 0)
      ensures !accelerated && old(alignmentCredit) == 0 ==>
                ticks == OrdinaryTicks(timing, reply.processingDraw, reply.offsetDraw, WaitOf(reply))
    {
      var waitMs := Place(reply);
      ReplyRanges(timing, reply);
      OrdinaryRanges(timing, reply.processingDraw, reply.offsetDraw);
      var acceleratedMs := waitMs + AcceleratedProcessing(timing, reply.acceleratedDraw);
      if accelerated {
        ticks := 1 + (playtime % CYCLE_MS + acceleratedMs) / CYCLE_MS;
      } else if 0 < alignmentCredit {
        ticks := ControlledReply(waitMs, ControlledProcessing(timing, reply.controlledDraw));
      } else {
        ticks := OrdinaryTicks(timing, reply.processingDraw, reply.offsetDraw, waitMs);
      }
      CountTicks(ticks);
      if bonusTime {
        playtime := playtime + acceleratedMs;
        NormalizeIsModulo(playtime / CYCLE_MS);
        phase := NormalizePhase(playtime / CYCLE_MS);
      } else {
        NextPhase(phase, playtime, ticks);
        phase := NormalizePhase(phase + ticks);
        playtime := playtime + ticks * CYCLE_MS;
      }
      if 0 < alignmentCredit { alignmentCredit := alignmentCredit - 1; }
    }
  }

  // ---------- entering a game ----------

  datatype Entry = Entered(playtime: int) | DriftBudgetExceeded | RouteMissesEntry | WrongEpoch | WrongPhase

  function EnterGame(
    alignmentBoards: int, startPhase: int, waits: int, entryPhase: int, entryPlaytime: Option<int>, epoch: int): Entry
  {
    if CYCLE_MS <= alignmentBoards * CONTROLLED_REPLY_BUDGET_MS then DriftBudgetExceeded
    else if NormalizePhase(startPhase + waits) != entryPhase then RouteMissesEntry
    else
      var playtime := if entryPlaytime.Some? then entryPlaytime.value else epoch * EPOCH_MS + entryPhase * CYCLE_MS;
      if playtime / EPOCH_MS != epoch then WrongEpoch
      else if NormalizePhase(playtime / CYCLE_MS) != entryPhase then WrongPhase
      else Entered(playtime)
  }

  /** The default entry always passes its own checks, and every entry that passes starts in its phase. */
  lemma EntriesStartInPhase(
    alignmentBoards: int, startPhase: int, waits: int, entryPhase: int, entryPlaytime: Option<int>, epoch: int)
    ensures var entry := EnterGame(alignmentBoards, startPhase, waits, entryPhase, entryPlaytime, epoch);
      && (entry.Entered? ==> entry.playtime / CYCLE_MS % PHASES == entryPhase && alignmentBoards <= 9)
      && (entryPlaytime.None? && alignmentBoards <= 9 ==>
        (entry.Entered? <==> (startPhase + waits) % PHASES == entryPhase))
  {
    NormalizeIsModulo(startPhase + waits);
    var playtime := if entryPlaytime.Some? then entryPlaytime.value else epoch * EPOCH_MS + entryPhase * CYCLE_MS;
    NormalizeIsModulo(playtime / CYCLE_MS);
    if entryPlaytime.None? && 0 <= entryPhase < PHASES {
      DefaultEntry(epoch, entryPhase);
    }
  }

  lemma DefaultEntry(epoch: int, entryPhase: int)
    requires 0 <= entryPhase < PHASES
    ensures var playtime := epoch * EPOCH_MS + entryPhase * CYCLE_MS;
      playtime / EPOCH_MS == epoch && playtime / CYCLE_MS % PHASES == entryPhase
  {
    Cycles(epoch * PHASES + entryPhase, 0);
    MultipleResidue(epoch, entryPhase, PHASES);
  }

  // ---------- the game ----------

  datatype Action = Miss | AlignAction | SleepAction(variant: int) | Move(legal: bool) | Pass

  /** What the playbook answers: nothing certified, a certified state, or, outside bonus time, a lookup. */
  datatype Answer = Uncertified | Certified(dispatchPhase: int, credit: int, action: Action) | Lookup(action: Action)

  /** White's reply with what it does on the board. */
  datatype White = Stone(reply: Reply, legal: bool) | WhitePasses(reply: Reply)

  /** Every answer of a game, by step. */
  datatype Script = Script(answer: nat -> Answer, white: nat -> White)

  datatype Ending = Completed | Failed | Unfinished

  /** A certified answer names a phase of the ring and at most the credit that is left. */
  ghost predicate Possible(answer: Answer, credit: int) {
    answer.Certified? ==> 0 <= answer.dispatchPhase < PHASES && 0 <= answer.credit <= credit
  }

  ghost predicate Ringed(answer: Answer) {
    answer.Certified? ==> 0 <= answer.dispatchPhase < PHASES && 0 <= answer.credit
  }

  ghost predicate Consistent(script: Script) {
    && (forall n: nat :: UnitDraws(script.white(n).reply))
    && forall n: nat :: Ringed(script.answer(n))
  }

  /** The playbook caps the credit it returns at the credit it was given. */
  function Capped(answer: Answer, credit: int): Answer {
    match answer
    case Certified(p, c, a) => Certified(p, if credit < c then credit else c, a)
    case _ => answer
  }

  lemma CappedIsPossible(script: Script, n: nat, credit: int)
    requires Consistent(script) && 0 <= credit
    ensures Possible(Capped(script.answer(n), credit), credit)
  {
  }

  datatype Account = Account(alignments: nat, sleptCycles: nat, repliedTicks: nat)

  /** The engine cycles an account adds up to. */
  function Elapsed(account: Account): nat {
    account.alignments + account.sleptCycles + account.repliedTicks
  }

  /** One step before White: resynchronise, align or sleep, or let Black play. Nothing means White answers next. */
  method BlackStep(clock: GameClock, resynchronizing: bool, answer: Answer, account: Account)
    returns (done: Option<bool>, counts: bool, action: Action, after: Account)
    requires clock.Valid() && (resynchronizing ==> clock.bonusTime) && Possible(answer, clock.alignmentCredit)
    modifies clock
    ensures clock.Valid() && clock.replies == old(clock.replies) && clock.bonusCycles == old(clock.bonusCycles)
    ensures counts ==> done == Some(true)
    ensures done.None? ==> !answer.Uncertified? && action == answer.action
    ensures done.None? ==> (action.Move? && action.legal) || action.Pass?
    ensures done == Some(false) ==> !action.Move? || !action.legal
    ensures !clock.bonusTime ==>
              clock.playtime - old(clock.playtime) == CYCLE_MS * (Elapsed(after) - Elapsed(account))
    ensures after.repliedTicks == account.repliedTicks
    ensures account.alignments <= after.alignments && account.sleptCycles <= after.sleptCycles
  {
    action, after, counts := Pass, account, false;
    if resynchronizing && answer.Uncertified? {
      clock.WaitForCycle();
      return Some(true), true, action, after.(alignments := account.alignments + 1);
    }
    if resynchronizing && answer.Certified? {
      clock.Resynchronize(answer.dispatchPhase, answer.credit);
    }
    action := if answer.Uncertified? then Miss else answer.action;
    match action
    case Miss =>
      done := Some(false);
    case AlignAction =>
      clock.Align();
      done, counts, after := Some(true), true, account.(alignments := account.alignments + 1);
    case SleepAction(variant) =>
      var ok := clock.ControlledSleep(variant);
      done := Some(ok);
      if ok { after := account.(sleptCycles := account.sleptCycles + variant); }
    case Move(legal) =>
      done := if legal then None else Some(false);
    case Pass =>
      done := None;
  }

  /** One turn taken: Black's at a step, or White's answer to it. */
  datatype Turn = Turn(step: nat, white: bool)

  predicate Passed(script: Script, t: Turn) {
    if t.white then script.white(t.step + 1).WhitePasses?
    else !script.answer(t.step).Uncertified? && script.answer(t.step).action.Pass?
  }

  /** A stone of White's that superko turns away: the board stays, and it is no pass either. */
  predicate Void(script: Script, t: Turn) {
    t.white && script.white(t.step + 1).Stone? && !script.white(t.step + 1).legal
  }

  /** The latest turn that was one is a pass. */
  ghost predicate EndsOnPass(script: Script, turns: seq<Turn>) {
    exists i: nat :: i < |turns| && Passed(script, turns[i]) && forall k | i < k < |turns| :: Void(script, turns[k])
  }

  /** The last turn is a pass, and so is the latest before it that was one. */
  ghost predicate EndsOnTwoPasses(script: Script, turns: seq<Turn>) {
    turns != [] && Passed(script, turns[|turns| - 1]) && EndsOnPass(script, turns[..|turns| - 1])
  }

  function WhiteTurns(turns: seq<Turn>): nat {
    if turns == [] then 0 else WhiteTurns(turns[..|turns| - 1]) + if turns[|turns| - 1].white then 1 else 0
  }

  /** Every step takes at most a turn of Black's and White's answer to it, in that order. */
  ghost predicate InTurn(turns: seq<Turn>, steps: nat) {
    && (forall i | 0 <= i < |turns| :: turns[i].step < steps)
    && (forall i | 0 <= i < |turns| - 1 ::
          if turns[i].white then turns[i].step < turns[i + 1].step && !turns[i + 1].white
          else turns[i + 1] == Turn(turns[i].step, true))
    && (turns != [] ==> !turns[0].white)
  }

  /** What one more turn does to the passes counted. */
  lemma OneTurnMore(script: Script, turns: seq<Turn>, t: Turn)
    ensures WhiteTurns(turns + [t]) == WhiteTurns(turns) + if t.white then 1 else 0
    ensures Passed(script, t) ==> EndsOnPass(script, turns + [t])
    ensures Passed(script, t) ==> (EndsOnTwoPasses(script, turns + [t]) <==> EndsOnPass(script, turns))
    ensures !Passed(script, t) ==> !EndsOnTwoPasses(script, turns + [t])
    ensures Void(script, t) ==> (EndsOnPass(script, turns + [t]) <==> EndsOnPass(script, turns))
    ensures !Passed(script, t) && !Void(script, t) ==> !EndsOnPass(script, turns + [t])
  {
    hide Passed;
    var longer := turns + [t];
    assert longer[..|turns|] == turns;
    PassIsNotVoid(script, t);
    if Passed(script, t) { assert Passed(script, longer[|turns|]); }
    if Void(script, t) && EndsOnPass(script, turns) {
      var i: nat :| i < |turns| && Passed(script, turns[i]) && forall k | i < k < |turns| :: Void(script, turns[k]);
      assert Passed(script, longer[i]);
    }
    if !Passed(script, t) && EndsOnPass(script, longer) {
      var i: nat :| i < |longer| && Passed(script, longer[i]) && forall k | i < k < |longer| :: Void(script, longer[k]);
      assert Void(script, longer[|turns|]);
      assert Passed(script, turns[i]);
      forall k | i < k < |turns| ensures Void(script, turns[k]) { assert Void(script, longer[k]); }
    }
  }

  /** The passes in a row a game ends on, as far as they matter. */
  ghost function PassCount(script: Script, turns: seq<Turn>): nat {
    if EndsOnTwoPasses(script, turns) then 2 else if EndsOnPass(script, turns) then 1 else 0
  }

  lemma PassesGoOn(script: Script, turns: seq<Turn>, t: Turn)
    requires PassCount(script, turns) < 2
    ensures PassCount(script, turns + [t])
      == if Passed(script, t) then PassCount(script, turns) + 1
         else if Void(script, t) then PassCount(script, turns) else 0
    ensures WhiteTurns(turns + [t]) == WhiteTurns(turns) + if t.white then 1 else 0
  {
    hide Passed, Void, EndsOnTwoPasses, EndsOnPass, WhiteTurns;
    OneTurnMore(script, turns, t);
  }

  lemma CountIsTwo(script: Script, turns: seq<Turn>)
    ensures PassCount(script, turns) == 2 <==> EndsOnTwoPasses(script, turns)
  {
  }

  lemma PassIsNotVoid(script: Script, t: Turn)
    ensures !(Passed(script, t) && Void(script, t))
  {
  }

  lemma NoTurns(script: Script)
    ensures !EndsOnPass(script, []) && !EndsOnTwoPasses(script, []) && InTurn([], 0) && WhiteTurns([]) == 0
    ensures PassCount(script, []) == 0
  {
  }

  /** A whole game: at its end phase and playtime still agree, every reply is counted once, the policy rounds keep
      to their bound, and outside bonus time the playtime is the cycles aligned, slept and replied. It is completed
      exactly when two passes end it, stones of White's that superko turned away aside; otherwise Black had no legal
      answer, or the rounds or the steps ran out. */
  method PlayGame(clock: GameClock, script: Script, resynchronizing: bool, maximumRounds: nat, maximumSteps: nat)
    returns (ending: Ending, account: Account, opponentTurns: nat, policyRounds: nat,
             ghost turns: seq<Turn>, ghost steps: nat)
    requires clock.Valid() && clock.replies == 0 && (resynchronizing ==> clock.bonusTime)
    requires Consistent(script)
    modifies clock
    ensures clock.Valid() && clock.replies == opponentTurns <= policyRounds <= maximumRounds
    ensures !clock.bonusTime ==> clock.playtime == old(clock.playtime) + CYCLE_MS * Elapsed(account)
    ensures InTurn(turns, steps) && steps <= maximumSteps && opponentTurns == WhiteTurns(turns)
    ensures ending.Completed? <==> EndsOnTwoPasses(script, turns)
    ensures ending.Unfinished? ==> policyRounds == maximumRounds || steps == maximumSteps
  {
    hide UnitDraws, OrdinaryTicks, Passed, Void, EndsOnPass, EndsOnTwoPasses, Elapsed, InTurn, WhiteTurns, Capped;
    hide Consistent, Possible, PassCount, GameClock.Valid;
    var passes: nat := 0;
    account, opponentTurns, policyRounds, ending := Account(0, 0, 0), 0, 0, Unfinished;
    var step: nat := 0;
    turns, steps := [], 0;
    NoTurns(script);
    assert Elapsed(account) == 0 by { NothingElapsed(); }
    while passes < 2 && step < maximumSteps && policyRounds < maximumRounds
      invariant clock.Valid() && clock.replies == opponentTurns <= policyRounds <= maximumRounds
      invariant !clock.bonusTime ==> clock.playtime == old(clock.playtime) + CYCLE_MS * Elapsed(account)
      invariant steps == step <= maximumSteps && opponentTurns == WhiteTurns(turns) && InTurn(turns, step)
      invariant turns != [] && passes < 2 ==> turns[|turns| - 1].white
      invariant passes == PassCount(script, turns)
      decreases maximumSteps - step
    {
      var answer := Capped(script.answer(step), clock.alignmentCredit);
      clock.CreditLeft();
      CappedIsPossible(script, step, clock.alignmentCredit);
      ghost var black := Turn(step, false);
      BlackTurn(script, black, answer, clock.alignmentCredit);
      LaterStep(turns, step);
      var done, counts, action, after := BlackStep(clock, resynchronizing, answer, account);
      account, step, steps := after, step + 1, step + 1;
      if counts { policyRounds := policyRounds + 1; }
      CountIsTwo(script, turns);
      if done.Some? && !done.value { return Failed, account, opponentTurns, policyRounds, turns, steps; }
      if done.Some? { continue; }
      BlackTakesTurn(turns, black.step);
      PassesGoOn(script, turns, black);
      turns := turns + [black];
      passes := if action.Move? then 0 else passes + 1;
      policyRounds := policyRounds + 1;
      if 2 <= passes { break; }
      var white := script.white(step);
      UnitReply(script, step);
      WhiteTurn(script, black.step, white);
      var ticks := clock.Respond(white.reply, clock.bonusTime && 0 < clock.bonusCycles);
      MoreElapsed(account, ticks);
      account := account.(repliedTicks := account.repliedTicks + ticks);
      opponentTurns := opponentTurns + 1;
      WhiteTakesTurn(turns, black.step);
      PassesGoOn(script, turns, Turn(black.step, true));
      turns := turns + [Turn(black.step, true)];
      if white.WhitePasses? { passes := passes + 1; } else if white.legal { passes := 0; }
    }
    CountIsTwo(script, turns);
    if 2 <= passes { ending := Completed; }
  }

  lemma UnitReply(script: Script, n: nat)
    requires Consistent(script)
    ensures UnitDraws(script.white(n).reply)
  {
  }

  lemma LaterStep(turns: seq<Turn>, step: nat)
    requires InTurn(turns, step)
    ensures InTurn(turns, step + 1)
  {
  }

  lemma BlackTakesTurn(turns: seq<Turn>, step: nat)
    requires InTurn(turns, step) && (turns != [] ==> turns[|turns| - 1].white)
    ensures InTurn(turns + [Turn(step, false)], step + 1)
  {
  }

  lemma WhiteTakesTurn(turns: seq<Turn>, step: nat)
    requires InTurn(turns, step + 1) && turns != [] && turns[|turns| - 1] == Turn(step, false)
    ensures InTurn(turns + [Turn(step, true)], step + 1)
  {
  }

  lemma NothingElapsed()
    ensures Elapsed(Account(0, 0, 0)) == 0
  {
  }

  lemma MoreElapsed(account: Account, ticks: nat)
    ensures Elapsed(account.(repliedTicks := account.repliedTicks + ticks)) == Elapsed(account) + ticks
  {
  }

  lemma BlackTurn(script: Script, t: Turn, answer: Answer, credit: int)
    requires !t.white && answer == Capped(script.answer(t.step), credit)
    ensures !answer.Uncertified? ==> (Passed(script, t) <==> answer.action.Pass?)
    ensures !Void(script, t)
  {
  }

  lemma WhiteTurn(script: Script, step: nat, white: White)
    requires white == script.white(step + 1)
    ensures Passed(script, Turn(step, true)) <==> white.WhitePasses?
    ensures Void(script, Turn(step, true)) <==> white.Stone? && !white.legal
  {
  }

  /** Whole cycles move phase and playtime together. */
  lemma NextPhase(phase: int, playtime: int, n: int)
    requires phase == playtime / CYCLE_MS % PHASES
    ensures NormalizePhase(phase + n) == (playtime + n * CYCLE_MS) / CYCLE_MS % PHASES
    ensures NormalizePhase(phase + n) == (playtime / CYCLE_MS + n) * CYCLE_MS / CYCLE_MS % PHASES
  {
    NormalizeIsModulo(phase + n);
    Cycles(n, playtime);
    SamePhase(playtime / CYCLE_MS, n);
  }

  lemma SamePhase(cycle: int, n: int)
    ensures (cycle % PHASES + n) % PHASES == (cycle + n) % PHASES
  {
  }

  lemma ReachesPhase(cycle: int, phase: int, target: int, elapsed: int)
    requires phase == cycle % PHASES && 0 <= target < PHASES && elapsed == (target - phase) % PHASES
    ensures (cycle + elapsed) % PHASES == target && 0 <= elapsed < PHASES && (elapsed == 0 <==> target == phase)
    ensures (cycle + elapsed) * CYCLE_MS / CYCLE_MS == cycle + elapsed
  {
  }
}
