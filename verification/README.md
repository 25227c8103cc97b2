# Verification of the simulator and arena cores

A Dafny model of the deterministic cores of this repository: the discrete-event kernel and what runs on it, two graph
searches and a random tree builder, the evidence arithmetic of the Go arenas, and a model codec. `dafny verify
dfyconfig.toml` checks the whole project.

Loops and objects of the source are methods and classes here, each proved against a specification; the properties are
lemmas about those specifications. Callbacks, planners, browsers, boards, prices and the game's formulas are arbitrary
answers (functions or sequences), so a theorem holds for every behaviour they can have.

## The parts

- **Virtual clock** (`Scheduler`, `LazyDeletion`, `VirtualClock`): the binary heap with lazy cancellation, in place,
  refines a reference scheduler that always takes the (time, id)-least live event, and a reference for what cancellation
  leaves heaped. Every run terminates, and the theorems about runs are proved on the reference.
- **Game engine** (`GameEngine`, `EngineOnClock`): counters, cycle remainder and cycle buffers; on a clock shared with
  arbitrary other events, a run to horizon H processes floor(H/200) cycles.
- **Playbook residual** (`CertificateGraph`, `PlaybookResidual`, `PlaybookOrder`): worklist reachability, verified strips,
  outcome-prune rounds to a fixpoint, the emitted omission list, and what the order of the files decides.
- **Labyrinth** (`Labyrinth`, `LabArena`, `LabGeometry`, `LabTiming`): breadth-first search returns the true minimum, so it
  bounds every route policy; the walking protocol with its charges; directions as displacements; the delay formulas solved.
- **Farm lane** (`RestartLedger`, `FarmSteps`, `FarmLane`, `FarmPacing`, `FarmRules`): the event loop refines a history of
  moments made by pure steps on residents, armour and outages, and its restart accounting is an integral over the window
  of that history. Which instants a run stops at, what they do and when a derive is owed is proved of the history, and
  what each step does is restated host by host.
- **World** (`MoneyLedger`, `SimWorld`): RAM held by actions in flight on server objects, and money across two ledgers
  and installs.
- **Network** (`ServerTree`, `NetworkGenerator`, `NetworkDraws`): one random stream to a tree hung from home, and what each
  draw of the stream decides.
- **Go evidence** (`SignTest`, `PairedStatistics`, `EstimatorLaws`, `PairedGames`, `PromotionGate`, `PromotionLaws`,
  `PromotionDirections`): the exact sign test, paired bounds, pairing and the lexicographic promotion gate, and which side
  every number favours, read off the games.
- **Go seeds** (`GoOpponents`, `GoSeeds`, `SeedLedger`, `LedgerReports`): seed streams as arcs of two rings, the 32-bit
  words and the playtime phases, freshness in closed form, and the ledger over whole histories.
- **Model codec** (`HalfFloat`, `HalfWidening`, `RowQuantization`, `ArtifactLayout`, `ScaleRounding`, `CheckpointText`,
  `ModelExport`): binary32 to binary16, q8 rows, the artifact layout, the rounding of scales, the checkpoint parser and
  the exporter.
- **Model loader** (`ArtifactLoader`, `ArtifactRoundTrip`, `ExportedWeights`): the runtime's reader of such an artifact,
  and the round trip from the checkpoint's numbers through the exported bytes to the tensors the runtime holds.
- **Arena timing** (`ArenaTiming`, `ArenaDelays`): phase, playtime and alignment drift of a playbook game, and the ranges
  of the delays in it.
- **Artifacts** (`ArtifactStream`, `StreamSummaries`, `SimArtifacts`): one record stream cut into one file per install.

`Collections`, `Powers`, `JsArithmetic` and `Wrappers` hold what several parts share.

## What the proofs found

Each of these is a lemma or a method's contract; the code is modelled as it is.

- `run` with a horizon behind the clock rewinds virtual time when something is due and the goal is not reached, and
  nothing else does (`TimeMovesForward`, `RewoundClock`).
- A horizon stop moves the clock without resetting the same-instant counter. An event then scheduled at that very instant
  can stall the next run although nothing ran there (`HorizonKeepsTheCounter`, `FalseStall`); a caller whose due events
  all lie later than now never sees that (`StallsAreReal`).
- `pending()` is the number of live events as long as only heaped handles are cancelled; a clock that is only asked to
  cancel handles it issued counts exactly if and only if every cancellation came before its event left the heap (`Run`,
  `PendingCountsLive`). `cancel` after the event ran makes it drift (`CancelledTooLate`).
- `stop` called from inside an update revokes the tick that is running and is undone by the rescheduling that follows
  (`Start`).
- The invitation counter loses cycles on a fat tick; only passive faction growth is compensated
  (`InvitationsAreNotCompensated`, `PassiveGrowthLosesNoCycle`).
- "Nothing cascades" is true of strips alone; with outcome pruning a stripped entry can become unreachable behind a pruned
  one (`StripCanBeOrphaned`, `OrphanedStrip`), and it stays exactly when it is met with all entries decided
  (`StripsInPlay`). Entries decided in a round never become unreachable (`NothingMetIsOrphaned`).
- An entry's identity leaves its action out, and of several rows of one state the one met last is asked. When such rows
  carry different actions the order of the files can decide between strip and keep, a row whose own action was never
  reproduced can count as stripped, and the omitted line can carry an action that was not verified (`TwoOrders`). The
  order decides nothing exactly when all files that meet an entry ask questions decided alike (`OrderMattersExactly`),
  and so when all rows of a state carry one action (`OrderIndependent`, `OmittedIsDecided`).
- `floatToHalf` is round-half-even except on subnormal results whose truncated bits hide that a tie was exceeded; the exact
  condition is `TruncatedTie`, with a concrete word.
- In the promotion gate the guards `candidateWins > incumbentWins` and `difference > 0` are implied by the bounds beside
  them, the cap at 1 in the sign test never binds, and the final unpaired-incumbent check cannot fail.
- Seed freshness compares seed values, not phases, and before time zero one phase has a second seed value
  (`NegativeStartHidesAPhase`). From starts at or after time zero fresh uses share no phase (`FreshEntriesShareNoPhase`)
  and burn at most 150,000 seeds; with starts before it two fresh uses can share a phase (`FreshUsesMayShareAPhase`), and
  the bound is 299,999, which two uses reach (`FreshGamesFitTheRing`, `TwoUsesFillBothSides`).
- A use is never compared with itself: one longer than the ring repeats its own seeds and is accepted as fresh
  (`OneUseMayRepeatItself`). That is the only way past 150,000 games from starts at or after time zero.
- The certified completion window holds up to 110 ms of pattern sleeps, a little more than the 100 ms the comment claims
  (`WorstTimingWindow`).
- In bonus time, resynchronising on the phase already under way takes playtime back to the start of its cycle
  (`Resynchronize`); no other branch moves it back.
- A host's cores and its place in the tree come from two separate rolls of its layer, which can disagree (`RollHost`,
  `CoresAndPlaceMayDisagree`).
- After an install, actions still in the air return their RAM to server objects that are gone, so the new servers are never
  charged, and a landing whose target is gone fails only after the RAM is back (`SettleHgw`, `ResetServers`).
- An action whose landing the clock refuses is counted before the clock throws: it stays in flight, with its RAM held,
  though nothing is in the air (`ExactUntilRefused`, `NothingInTheAir`).
- The runtime reads every export to its last byte unless the scale of some eight-bit row rounds to nothing in binary32;
  such an artifact is written and then refused (`ExportIsRead`). The two programs state tensor sizes separately, and they
  agree (`LayoutsAgree`).
- Tolerating a larger drop in power never keeps an entry that the stricter run drops, whatever becomes unreachable on the
  way (`MoreDropKeepsLess`), as long as certified powers are not negative.
- The half-scale error bound of the eight-bit rows holds for every row whose wanted scale is a normal number
  (`NormalRowDecodes`); a subnormal scale can be rounded so far that weights meet the clamp (`SubnormalScaleClamps`).

## Conventions

- Virtual time and waits count whole units of a fixed resolution; money, RAM, weights and statistics are exact reals, the
  square root being any function that is one. 32-bit arithmetic is on `bv32` words; a number's word is built from its
  binary digits.
- `at` and `in` refuse what the source refuses; errors the source throws are results here.
- Opponent names are an enumeration with a case for every other name. Game identities compare as the tuples the source
  serialises.

## Model

| member | source | states |
|---|---|---|
| Scheduler.ApplyValid | sim/clock.ts:217-238 | Scheduling or cancelling keeps ids unique and below the next one and every due time at or after now |
| Scheduler.ApplyAllValid | sim/clock.ts:242-249 | So does every list of clock operations a callback may perform |
| Scheduler.TakeValid | sim/clock.ts:294-324 | Taking an event, stopping at the horizon or stalling keeps the same invariant |
| Scheduler.Step | sim/clock.ts:242-249 | One executed event is the (time, id)-least live one, not after the horizon, and the same-instant counter counts it |
| Scheduler.PlayOrdered | sim/clock.ts:240-249 | For every callback behaviour a run executes events in strictly increasing (time, registration) order and leaves only later ones |
| Scheduler.PlayStops | sim/clock.ts:240-249 | A run stops for exactly the reason it reports: goal reached, nothing due, all due later than the horizon, stalled, or a callback threw |
| Scheduler.EndTime | sim/clock.ts:294-324 | A run leaves time at its horizon when something due lies beyond it, else at its last event, or where it stood if it executed none; a stall names an event of that time |
| Scheduler.IdleRun | sim/clock.ts:294-297 | Running a clock with nothing due changes nothing, whatever the horizon |
| Scheduler.TimeMovesForward | sim/clock.ts:302-305 | Virtual time goes back exactly when, at the start, the horizon is behind the clock, something is due and the goal is not reached |
| Scheduler.RewoundClock | sim/clock.ts:302-305 | A concrete run that ends five units before it began |
| Scheduler.NothingIsLost | sim/clock.ts:294-324 | Every handle ever issued was executed, is still due or was cancelled, except the one event a stall names |
| Scheduler.CancelledNeverRuns | sim/clock.ts:236-238 | A handle cancelled before a run is never executed by it |
| Scheduler.InstantsAreBounded | sim/clock.ts:167-181 | At most bound + 1 events run at one instant, whatever callbacks do |
| Scheduler.StallsCountExactly | sim/clock.ts:307-319 | How many events ran at the instant a stall names: bound + 1 at an instant the run moved to; at its first instant what the counter had left, and then something was due at that very instant |
| Scheduler.StallsAreReal | sim/clock.ts:307-319 | When everything due is later than now, as a horizon stop leaves it, a run stalls only after bound + 1 of its own events ran at that instant |
| Scheduler.FirstStallsAreReal | sim/clock.ts:307-319 | From a zero counter, as on a new clock, only after at least bound of them |
| Scheduler.HorizonKeepsTheCounter | sim/clock.ts:302-305 | After a horizon stop one event scheduled at that very instant stalls the next run before anything ran there, exactly when the counter was spent before the stop |
| Scheduler.FalseStall | sim/clock.ts:302-319 | From a new clock with bound 1: a run to a horizon, one event scheduled there, and the next run stalls at an instant at which nothing ever ran |
| Scheduler.HorizonsCompose | sim/clock.ts:292-306 | Stopping at a horizon and resuming to a later one is the single run to the later one |
| VirtualClock.RiseStep | sim/clock.ts:340-347 | One upward swap moves the only possible heap violation to the parent |
| VirtualClock.SinkStep | sim/clock.ts:349-360 | One downward swap moves it to the smaller child |
| VirtualClock.RootIsLeast | sim/clock.ts:294-296 | In a heap the root precedes every element |
| VirtualClock.SinkAfterPop | sim/clock.ts:326-332 | Replacing the root by the last element leaves at most a violation at the root |
| VirtualClock.Clock.SiftUp | sim/clock.ts:340-347 | Restores heap order in place and permutes the elements |
| VirtualClock.Clock.SiftDown | sim/clock.ts:349-360 | Restores heap order in place and permutes the elements |
| VirtualClock.Clock.Pop | sim/clock.ts:326-332 | Removes the root and nothing else, and keeps the heap |
| VirtualClock.Clock.Schedule | sim/clock.ts:217-230 | Refines the reference scheduler; refuses exactly non-finite deadlines and the past; heaps the new event and spoils no count |
| VirtualClock.Clock.ScheduleIn | sim/clock.ts:232-234 | The same, relative to now |
| VirtualClock.Clock.Cancel | sim/clock.ts:236-238 | Refines cancellation; the event stays heaped, and `pending` stays exact exactly when it was and the handle is still heaped |
| VirtualClock.Clock.TakeNext | sim/clock.ts:294-324 | Skips cancelled heads and takes exactly the event the reference scheduler takes, with its outcome and counters; leaves heaped exactly what comes later, and `pending` as exact as it was |
| VirtualClock.Clock.Perform | sim/clock.ts:242-249 | A callback's operations, in order, have the reference effect on the live events and on the heap; `pending` stays exact when every cancellation hits a heaped handle, and of issued handles only then |
| VirtualClock.Clock.Run | sim/clock.ts:240-249 | Terminates for every callback behaviour and produces exactly the reference run: trace, reason, end state and heap; after it `pending` is exact if it was and every cancellation hit a heaped handle, and of issued handles only then |
| VirtualClock.Clock.PendingCountsLive | sim/clock.ts:202-205 | `pending` is the number of live events exactly in the states the clock methods call exact, and otherwise short by the handles cancelled too late |
| VirtualClock.CancelledTooLate | sim/clock.ts:202-238 | A concrete client that cancels an executed handle and is told of fewer events than none |
| GameEngine.TickStaysInStep | sim/engine.ts:101-117 | A tick processes all whole cycles elapsed, carries the remainder and asks for the next boundary |
| GameEngine.PassiveGrowthLosesNoCycle | sim/engine.ts:178-183 | For every batching, cycles handed to passive growth plus 5 minus the counter is the cycles processed |
| GameEngine.InvitationsAreNotCompensated | sim/engine.ts:174-177 | The invitation check fires at most once per update and once per ten cycles, however fat the update |
| GameEngine.CountersKeepTheirPeriods | sim/engine.ts:166-201 | With one cycle an update: invitations every 10 updates, growth, mechanic and achievements every 5, contracts every 3000, and growth is handed exactly 5 cycles |
| GameEngine.MessagesKeepTheirPeriod | sim/engine.ts:184-187 | Messages after 150 updates, then every 150, or every 4500 with the red pill |
| GameEngine.AutosaveKeepsItsPeriod | sim/engine.ts:202-213 | The save after 300 updates, then five cycles for every second of the interval; it warns instead exactly when the interval is zero |
| GameEngine.Engine.DecrementAllCounters | sim/engine.ts:166-168 | All thirteen counters fall by the batch |
| GameEngine.Engine.CheckCounters | sim/engine.ts:170-214 | Each due counter fires once, is re-armed to its own value, and reports the calls made |
| GameEngine.Engine.UpdateGame | sim/engine.ts:124-152 | Counts cycles and updates, then decrements and checks |
| GameEngine.Engine.Elapse | sim/engine.ts:101-108 | Processes the whole cycles elapsed, never negative, and keeps the remainder |
| GameEngine.Engine.Start | sim/engine.ts:101-117 | The tick in place: last update, counters and the deadline of the next tick, under the handle it then holds; a stop called from inside the update is undone. Of the clock operations of subsystems during the update only that stop is covered here, all others by EngineOnClock |
| GameEngine.Engine.Stop | sim/engine.ts:119-122 | Revokes the handle held; the engine is stopped exactly when every tick still due was scheduled under it |
| GameEngine.BufferConserves | sim/engine.ts:221-241 | Over any sequence of stores and takes, stored plus taken is what was put in, and neither is ever negative |
| GameEngine.CycleBuffer.Store | sim/engine.ts:231-233 | Adds to the store |
| GameEngine.CycleBuffer.Take | sim/engine.ts:235-241 | Takes nothing below the threshold, else the capped amount |
| EngineOnClock.TickReschedules | sim/engine.ts:101-117 | A tick that runs leaves exactly one further tick pending |
| EngineOnClock.EventKeepsTheTick | sim/engine.ts:101-117 | Other events on the shared clock never lose or double the pending tick |
| EngineOnClock.EngineCountsEveryCycle | sim/engine.ts:99-117 | For every set of callbacks sharing the clock one tick stays pending, and a run stopped at a horizon has processed the whole cycles in it |
| EngineOnClock.StartedEngineLosesNoCycle | sim/engine.ts:99-117 | Started at any time beside arbitrary other events, a run stopped at horizon H has processed exactly floor(H/200) cycles, with last update 200 ms times the cycles |
| CertificateGraph.BuildGraph | tools/go-playbook-residual.ts:483-495 | Rows are the last line of each id; roots are exactly the rows no line refers to |
| CertificateGraph.ReadLines | tools/go-playbook-residual.ts:486-492 | Rows and referenced ids of the lines read |
| CertificateGraph.VisitsAreReachable | tools/go-playbook-residual.ts:592-611 | The worklist order visits exactly what is reachable and unseen, each id once |
| CertificateGraph.Walk | tools/go-playbook-residual.ts:592-611 | The worklist visits exactly the ids reachable through followed rows, in that order |
| CertificateGraph.Collect | tools/go-playbook-residual.ts:523-540 | Over all graphs, exactly the collected entries met by a walk, each with the action of its row met last |
| CertificateGraph.AllQuestionsAreMet | tools/go-playbook-residual.ts:523-540 | The rows collected in walking order are about exactly the states met and collected |
| CertificateGraph.ClosedHoldsReachable | tools/go-playbook-residual.ts:525-539 | A closed set that holds the roots holds everything reachable |
| PlaybookResidual.ExtendingKeepsPaths | tools/go-playbook-residual.ts:589-662 | Deciding undecided entries never cuts a path that was walked |
| PlaybookResidual.NothingMetIsOrphaned | tools/go-playbook-residual.ts:589-662 | No decided entry is made unreachable by a later outcome round |
| PlaybookResidual.SurvivingIsFrontier | tools/go-playbook-residual.ts:665-686 | Among surviving entries, those undecided are exactly the next frontier |
| PlaybookResidual.KeptIsDecidedKeep | tools/go-playbook-residual.ts:665-686 | When the rounds stop, the kept entries are exactly the reachable ones decided keep |
| PlaybookResidual.StripsCutNothing | tools/go-playbook-residual.ts:513-540 | With strips alone every reachable move or pass stays reachable |
| PlaybookResidual.MetIsInReach | tools/go-playbook-residual.ts:589-662 | An entry is met under the decisions reached exactly when it is met under any completion of them to all entries |
| PlaybookResidual.AskedByRows | tools/go-playbook-residual.ts:541-662 | Every question a decision was made on, in the verification and in every round, is the action of some row of its state |
| PlaybookResidual.ReportIsDetermined | tools/go-playbook-residual.ts:483-700 | With outcome pruning and one action a state, the set of files, the screen and the answers determine the decided and the kept entries: kept are those in reach that are not stripped and earn their place |
| PlaybookResidual.PlayedOutByOutcome | tools/go-playbook-residual.ts:640-659 | A played-out entry, by its two branches: kept exactly when the certified one wins every draw and the network loses one or gives up more Power than the drop; the side lists by who won |
| PlaybookResidual.SideListsAgree | tools/go-playbook-residual.ts:651-659 | Every win save is kept, every generation priority is pruned and not kept, and neither was stripped |
| PlaybookResidual.MovesAndPassesAreListed | tools/go-playbook-residual.ts:686-697 | Every move and pass of every file is kept or named in the omitted list, and nothing else is named there |
| PlaybookResidual.MoreDropKeepsLess | tools/go-playbook-residual.ts:655-659 | Allowing a larger Power drop never keeps more, though it also cuts whole lines away |
| PlaybookResidual.BatchesBreakForCause | tools/go-playbook-residual.ts:560-645 | Batches break only over a budget too small for them or a page that did not answer, and what passes a kept budget fits it |
| PlaybookResidual.StripsInPlay | tools/go-playbook-residual.ts:577-686 | An entry, stripped or not, stays reachable in the result exactly when it is met with all entries decided |
| PlaybookResidual.StripCanBeOrphaned | tools/go-playbook-residual.ts:577-586 | A stripped entry can become unreachable through an outcome prune upstream: the only report of a two-row graph |
| PlaybookResidual.OrphanedStrip | tools/go-playbook-residual.ts:483-700 | The tool makes that report |
| PlaybookResidual.Verify | tools/go-playbook-residual.ts:548-575 | The candidates whose own action the browser reproduced, in batches, or the failure it reports |
| PlaybookResidual.Round | tools/go-playbook-residual.ts:613-661 | One outcome round decides its whole frontier, each entry by the outcome of the action it is asked with, within the budget |
| PlaybookResidual.RoundIsReference | tools/go-playbook-residual.ts:589-662 | A round played is the round of the reference: every undecided entry met is judged on the action of its row met last |
| PlaybookResidual.OneRound | tools/go-playbook-residual.ts:589-662 | Collects the frontier and decides it, as the reference round does |
| PlaybookResidual.Rounds | tools/go-playbook-residual.ts:589-662 | Terminates in exactly the decisions of the reference, when no undecided entry is met |
| PlaybookResidual.Strips | tools/go-playbook-residual.ts:541-576 | Strips exactly the screened candidates whose certified row met last is reproduced |
| PlaybookResidual.Decide | tools/go-playbook-residual.ts:512-663 | The decisions of both modes |
| PlaybookResidual.OmitFrom | tools/go-playbook-residual.ts:687-697 | Each move or pass identity not kept, once, in first-row order |
| PlaybookResidual.Omit | tools/go-playbook-residual.ts:687-697 | The omitted list has no duplicates and, with the kept set, partitions all move and pass identities |
| PlaybookResidual.RoundCounts | tools/go-playbook-residual.ts:613-661 | A round adds exactly its frontier to the decisions, all of it entries of the corpus |
| PlaybookResidual.RoundConsistent | tools/go-playbook-residual.ts:613-661 | Everything decided by a round stays met, judged by its own answer, and strips are untouched |
| PlaybookResidual.DecideAndList | tools/go-playbook-residual.ts:483-700 | Decisions, kept and omitted lists of one corpus |
| PlaybookResidual.Residual | tools/go-playbook-residual.ts:483-700 | End to end: on healthy answers it succeeds; any result is faithful, with the decisions the reference makes of files, screen and answers; with outcome pruning and one action a state the kept set is the one the set of files determines |
| PlaybookOrder.JointIsSomeOwn | tools/go-playbook-residual.ts:537-607 | What all files ask together about a state is what some file that meets it would ask alone |
| PlaybookOrder.OrderMattersExactly | tools/go-playbook-residual.ts:523-662 | The decisions are the same in every order of the files exactly when, in the verification and in every round, all files that meet an entry ask questions decided alike |
| PlaybookOrder.OneActionIsUnanimous | tools/go-playbook-residual.ts:523-662 | That is so when all rows of a state carry one action |
| PlaybookOrder.OrderIndependent | tools/go-playbook-residual.ts:483-700 | Then two orders of the files give the same decisions, kept entries, omitted lines, side lists and number of evaluations |
| PlaybookOrder.OmittedIsDecided | tools/go-playbook-residual.ts:687-697 | Then every omitted line carries the action its decision was made on: a verified one if stripped, one that does not earn its place if pruned |
| PlaybookOrder.VerifiedWhenFirst | tools/go-playbook-residual.ts:687-697 | In general an omitted strip is listed with the action verified exactly when its first row carries it |
| PlaybookOrder.TwoOrders | tools/go-playbook-residual.ts:523-700 | Two one-row files of one state with two actions, one of them reproduced: in one order the state is stripped, the other row followed and the action that was not reproduced listed; in the other order the entry is kept |
| Labyrinth.Covered | sim/dnet-lab.ts:244-262 | When the search has expanded everything to a distance, every cell that near has been seen |
| Labyrinth.NothingShorter | sim/dnet-lab.ts:244-262 | No walk is shorter than the distance at which the search first reads a cell |
| Labyrinth.NothingAtAll | sim/dnet-lab.ts:244-262 | An exhausted search has seen every reachable cell |
| LabGeometry.StepsByDirection | sim/dnet-lab.ts:244-262 | A step lands two cells up, right, down or left, and is open exactly when the cell between is a blank of the drawing |
| LabGeometry.StepsGoBack | sim/dnet-lab.ts:244-262 | Whoever can step over can step back |
| LabGeometry.WalksAddUp | sim/dnet-lab.ts:244-262 | A walk ends where its steps add up to, whatever their order |
| LabGeometry.ShownIsTrue | sim/dnet-lab.ts:196-235 | A radar shows where the walker stands and leaves it there; a move shows where it then stands and says it moved exactly when its slot was open |
| Labyrinth.Visit | sim/dnet-lab.ts:250-259 | One direction: a new open neighbour is queued one step further, anything else changes nothing |
| Labyrinth.Expand | sim/dnet-lab.ts:250-259 | All four directions |
| Labyrinth.ShortestLabPath | sim/dnet-lab.ts:244-262 | The true minimum number of steps; throws exactly when the exit is unreachable |
| LabArena.MoreCharismaIsFaster | sim/dnet-lab.ts:325-340 | More charisma never lengthens the authentication delay |
| LabArena.LearnersSpeedUp | sim/dnet-lab.ts:309-316 | Failed moves never lengthen later delays, for every monotone skill curve |
| LabTiming.HasteIsExact | sim/dnet-lab.ts:333-336 | A fifth more of one thread for every further thread divides the delay, boots and SF15 above level 2 take a fifth off each, a backdoor scales it |
| LabTiming.DelayIsExact | sim/dnet-lab.ts:323-339 | The whole delay, multiplied out, over charisma and intelligence |
| LabTiming.HelpIsFaster | sim/dnet-lab.ts:333-337 | More threads, boots, SF15 or a lower backdoor factor never slow an authentication down |
| LabTiming.LessonIsExact | sim/dnet-lab.ts:305-314 | A failed authentication teaches 3 + 1.1^10 a thread, times the multiplier, and half as much again in bonus time |
| LabArena.LabPlayer.AuthMs | sim/dnet-lab.ts:283-316 | The delay at the present charisma |
| LabArena.LabPlayer.FailedMove | sim/dnet-lab.ts:311-314 | Experience grows by the failed-move award and the skill follows it |
| LabArena.StepsLeadHere | sim/dnet-lab.ts:198-236 | The moves made lead from the start to where the walker stands |
| LabArena.ElapsedIsBounded | sim/dnet-lab.ts:202-203 | The sum of the delays charged is at most their number times the first |
| LabArena.SolvingTakesTheShortestPath | sim/dnet-lab.ts:164-239 | For every route policy attempts are moves plus blocked plus radars, within the cap, and a solved run makes at least the shortest number of moves |
| LabArena.RunsAreBounded | sim/dnet-lab.ts:164-239 | Elapsed time is at most attempts times the first delay |
| LabArena.Act | sim/dnet-lab.ts:199-236 | One decision: a radar, a blocked step or a step, with its charge and observation |
| LabArena.Walk | sim/dnet-lab.ts:198-239 | The loop against any route |
| LabArena.RunLabCase | sim/dnet-lab.ts:164-239 | The whole case with its error cases; its result is honest |
| HalfFloat.NearestIsClosest | tools/go-export-model.ts:235-255 | The reference: a nearest-even code is closest among all codes, and even on a tie |
| HalfFloat.NearestIsUnique | tools/go-export-model.ts:235-255 | There is only one nearest-even code |
| HalfFloat.HalfExactGrows | tools/go-export-model.ts:235-255 | Codes are ordered as the values they stand for |
| HalfFloat.NormalIsNearest | tools/go-export-model.ts:249-254 | Normal results, carries included, are roundTiesToEven of section 4.3.1 of IEEE 754-2019 |
| HalfFloat.OverflowIsNearest | tools/go-export-model.ts:243-252 | Too large a value becomes infinity, as the standard rounds it |
| HalfFloat.SubnormalNearest | tools/go-export-model.ts:244-248 | Subnormal results are nearest-even exactly when no truncated tie occurs, and always within (1/2 + 2^-13) ulp |
| HalfFloat.TinyIsNearest | tools/go-export-model.ts:244-247 | Below half the least subnormal the result is zero, which is nearest |
| HalfFloat.FloatToHalfIsRoundTiesToEven | tools/go-export-model.ts:235-255 | For every finite word: right sign, and nearest-even exactly when the truncation before rounding hides no tie |
| HalfFloat.TruncatedTieExample | tools/go-export-model.ts:244-248 | A concrete word on which it is not nearest |
| HalfFloat.FloatToHalfIsMonotone | tools/go-export-model.ts:235-255 | Monotone across all ranges, and equal magnitudes differ only in the sign bit |
| HalfFloat.ExactGrows | tools/go-export-model.ts:235-241 | Words are ordered as their exact magnitudes |
| HalfFloat.UnsignedGrows | tools/go-export-model.ts:235-255 | The conversion of magnitudes is monotone |
| RowQuantization.QuantizeInRange | tools/go-export-model.ts:273-277 | Quantised weights fit a signed byte and decode to themselves |
| RowQuantization.QuantizeIsFaithful | tools/go-export-model.ts:273-277 | No clamping exactly within [-127.5, 127.5) scales; error at most half a scale exactly within 127.5 scales |
| RowQuantization.RowIsFaithful | tools/go-export-model.ts:265-277 | With any scale close enough to the row's wanted one every weight decodes within half a scale, unclamped |
| RowQuantization.LargestIsExact | tools/go-export-model.ts:268-277 | With an exact scale the largest weight decodes exactly |
| ArtifactLayout.BlockDecodes | tools/go-export-model.ts:261-280 | Code byte times scale word, read from a block's bytes, is the weight quantized with its row's binary32 scale |
| ArtifactLayout.PayloadDecodes | tools/go-export-model.ts:261-354 | Every weight read back from the payload is within half its row's scale, when that scale is within a relative 2^-24 of the wanted one |
| ArtifactLayout.BlockLengthIsExact | tools/go-export-model.ts:257-259 | The computed length of a block is the length of its bytes |
| ArtifactLayout.TotalIsPayloadLength | tools/go-export-model.ts:341-345 | The precomputed length is the payload's length |
| ArtifactLayout.BlocksAreAdjacent | tools/go-export-model.ts:341-351 | Each block occupies its own range, right after the one before |
| ArtifactLayout.EncodeF16 | tools/go-export-model.ts:282-289 | Writes the half codes little-endian in place and nothing else |
| ArtifactLayout.EncodeRow | tools/go-export-model.ts:273-277 | Writes one row of codes in place |
| ArtifactLayout.EncodeQ8Row | tools/go-export-model.ts:265-278 | Writes one row and its scale, leaving the rest |
| ArtifactLayout.EncodeQ8Rows | tools/go-export-model.ts:261-280 | Writes all codes, then all scales, and returns the offset after them |
| ArtifactLayout.EncodeBlock | tools/go-export-model.ts:346-351 | Weights then bias, in either storage |
| ArtifactLayout.Encode | tools/go-export-model.ts:341-354 | Fills exactly the precomputed length with the payload: the size-mismatch error is unreachable for shaped blocks |
| ScaleRounding.NormalIsNear | tools/go-export-model.ts:271-271 | Any rounding to a nearest finite binary32 word takes a normal number to within a relative 2^-24 |
| ScaleRounding.NormalRowDecodes | tools/go-export-model.ts:261-354 | Hence every weight of a row of finite weights whose wanted scale is normal is read back from the payload within half its row's scale |
| ScaleRounding.DecodesExactly | tools/go-export-model.ts:265-277 | With any positive scale exactly the weights of at most 127.5 scales are |
| ScaleRounding.SubnormalScaleClamps | tools/go-export-model.ts:267-277 | A row of one weight with a subnormal scale that is read back 50 scales short |
| ScaleRounding.NarrowingExists | tools/go-export-model.ts:271-271 | There is such a rounding |
| CheckpointText.ParseVector | tools/go-export-model.ts:147-151 | Reads a counted vector or fails, exactly |
| CheckpointText.ParseHeader | tools/go-export-model.ts:123-146 | Accepts exactly the good headers of the three formats, each in one way |
| CheckpointText.ParseNext | tools/go-export-model.ts:153-184 | The next tensor, or proof that the text is no checkpoint's |
| CheckpointText.ParseCheckpoint | tools/go-export-model.ts:110-187 | Accepts exactly the texts of accepted checkpoints and returns the one it is the text of |
| CheckpointText.AcceptedBlocksAreShaped | tools/go-export-model.ts:295-323 | Every accepted checkpoint, factored, stripped or with a global policy, yields blocks of the size their shape says |
| CheckpointText.EncodeCheckpoint | tools/go-export-model.ts:341-354 | Hence encoding an accepted checkpoint never fails |
| ModelExport.OnlyZeros | tools/go-export-model.ts:334-338 | A tensor counts as neutral exactly when every value narrows to zero |
| ModelExport.NeutralValueHead | tools/go-export-model.ts:326-339 | A value head is neutral exactly when all six of its tensors are |
| ModelExport.ExportModel | tools/go-export-model.ts:361-455 | Exports exactly the checkpoints a profile admits, a factor for small5 only and never with a strip, a strip only of a neutral value head |
| ExportedWeights.PayloadLength | tools/go-export-model.ts:341-346 | Every artifact has the length its header's dimensions say, in eight bits, halves and scales |
| HalfWidening.HalfToFloat | shared/strategy/go/neural/artifact.ts:91-110 | The conversion loop computes the widened word |
| HalfWidening.WideningIsExact | shared/strategy/go/neural/artifact.ts:91-110 | Widening keeps sign and magnitude of every finite half; infinities and NaNs stay what they are |
| HalfWidening.NarrowingUndoesWidening | shared/strategy/go/neural/artifact.ts:91-110 | floatToHalf undoes halfToFloat on every finite half |
| ArtifactLoader.FailureStays | shared/strategy/go/neural/artifact.ts:196-224 | A tensor that cannot be read fails every longer plan in the same way |
| ArtifactLoader.Reader.ExpandRows | shared/strategy/go/neural/artifact.ts:200-209 | Rows multiply out with their scales; the first scale that is not a positive number fails |
| ArtifactLoader.Reader.TakeQ8 | shared/strategy/go/neural/artifact.ts:196-212 | Takes one eight-bit tensor where the cursor stands, or fails truncated or on a scale |
| ArtifactLoader.Reader.TakeF16 | shared/strategy/go/neural/artifact.ts:213-223 | Takes halves where the cursor stands, or fails truncated |
| ArtifactLoader.TakeTrunk | shared/strategy/go/neural/artifact.ts:237-247 | The trunk's six tensors in order, in the artifact's encoding |
| ArtifactLoader.TakeValueHead | shared/strategy/go/neural/artifact.ts:248-256 | The value head, its dense layer in two at a positive rank, or nothing of it if stripped |
| ArtifactLoader.TakePolicyHead | shared/strategy/go/neural/artifact.ts:257-272 | The policy, with the global policy at a positive rank only |
| ArtifactLoader.PlanFillsTheAllocation | shared/strategy/go/neural/artifact.ts:179-193 | The parameter count is the sum of the tensors taken, for every topology |
| ArtifactLoader.LoadGoValueWeights | shared/strategy/go/neural/artifact.ts:118-277 | Metadata first, then the first tensor that cannot be read, then left-over bytes; the inconsistent-layout error cannot happen |
| ArtifactRoundTrip.PayloadReads | shared/strategy/go/neural/artifact.ts:196-223 | A payload reads back block by block to its last byte, or fails on a scale exactly when some eight-bit row has an unusable one |
| ModelExport.LayoutsAgree | shared/strategy/go/neural/artifact.ts:237-272 | What the exporter stores is what the loader plans to take, for every header, factor and strip |
| ModelExport.ExportIsRecognized | shared/strategy/go/neural/artifact.ts:118-176 | No metadata of an export is refused |
| ModelExport.ExportIsRead | shared/strategy/go/neural/artifact.ts:196-277 | An export loads to its last byte unless the scale of some eight-bit row rounds to zero, and fails in no other way |
| ExportedWeights.RuntimeHoldsTheCheckpoint | shared/strategy/go/neural/artifact.ts:233-277 | The runtime holds the checkpoint tensor by tensor: trunk and policy from eight-bit rows without a global policy and from halves with one, the value head from eight-bit rows or stripped, biases from halves |
| ExportedWeights.CopiedWithinHalfAScale | shared/strategy/go/neural/artifact.ts:204-210 | A weight read from codes is the binary32 nearest to a number within half its row's scale, when that scale is normal |
| ExportedWeights.RehalfIsNearest | shared/strategy/go/neural/artifact.ts:91-110 | A weight read from halves keeps its sign and is the half its word rounds to |
| SignTest.Absorption | tools/go-promotion-statistics.ts:86-93 | The recurrence of the binomial coefficients the loop multiplies by |
| SignTest.WholeTail | tools/go-promotion-statistics.ts:81-97 | The whole tail is 2^n |
| SignTest.HeadIsTail | tools/go-promotion-statistics.ts:81-97 | Heads and tails mirror each other |
| SignTest.MajorityTail | tools/go-promotion-statistics.ts:81-97 | A majority's tail is at most half of all outcomes |
| SignTest.OneSidedSignTest | tools/go-promotion-statistics.ts:81-97 | The sum of recurrence terms is the exact upper binomial tail, 1 without a majority, and the cap never binds |
| SignTest.AtMostHalf | tools/go-promotion-statistics.ts:95-96 | With a majority the p-value is positive and at most 1/2 |
| SignTest.MoreFavorableIsStronger | tools/go-promotion-statistics.ts:81-97 | Turning one discordant pair favourable strictly lowers the p-value |
| SignTest.SignificantMeansMajority | tools/go-promotion-statistics.ts:81-97 | A p-value of at most 0.05 implies a majority of at least five discordant games |
| SignTest.CleanSweepOfFive | tools/go-promotion-statistics.ts:81-97 | Five to none is significant: the bound of five is sharp |
| PairedStatistics.FilterPermutes | tools/go-promotion-statistics.ts:264-267 | Selecting games commutes with reordering |
| PairedStatistics.MapPermutes | tools/go-promotion-statistics.ts:269-277 | So does reading a number off each |
| PairedStatistics.SumPermutes | tools/go-promotion-statistics.ts:99-105 | Sums ignore order |
| PairedStatistics.SpreadVanishes | tools/go-promotion-statistics.ts:102-103 | The spread is never negative and zero exactly when all values are the mean |
| PairedStatistics.LowerBoundIsBelowMean | tools/go-promotion-statistics.ts:99-105 | The bound is at most the mean, and reaches it exactly when all values agree |
| PairedStatistics.Lower95Permutes | tools/go-promotion-statistics.ts:99-105 | The bound ignores order |
| PairedStatistics.InfluencesCancel | tools/go-promotion-statistics.ts:128-135 | The influences sum to zero, so the mean the code subtracts is zero |
| PairedStatistics.RatioBoundIsBelowDifference | tools/go-promotion-statistics.ts:136-142 | The ratio bound is at most the difference, and equal exactly when no game has influence |
| PairedStatistics.RatioPermutes | tools/go-promotion-statistics.ts:107-143 | The ratio estimate ignores the order of the pairs |
| EstimatorLaws.BoundIsExact | tools/go-promotion-statistics.ts:99-105 | The bound lies 1.96 standard errors below the mean, from two values on |
| EstimatorLaws.RatioBoundIsExact | tools/go-promotion-statistics.ts:128-144 | So does the ratio bound below the difference, by the scatter of the influences |
| EstimatorLaws.EqualLengthsAreThePlainBound | tools/go-promotion-statistics.ts:107-144 | With games of one length the ratio estimate is the plain paired one on differences per game |
| EstimatorLaws.SteadyRatesAreCertain | tools/go-promotion-statistics.ts:107-144 | With one rate a side the bound is the difference of the rates |
| PairedGames.IndexIncumbent | tools/go-promotion-statistics.ts:161-167 | Succeeds exactly on completed games of distinct identity, with each under its own |
| PairedGames.PairGames | tools/go-promotion-statistics.ts:154-180 | Succeeds exactly when completed games match one to one; the last check can never fail |
| PairedGames.PairingIsABijection | tools/go-promotion-statistics.ts:168-179 | Every incumbent game is used by exactly one pair |
| PairedGames.PairingIsUnique | tools/go-promotion-statistics.ts:168-179 | The pairing is determined |
| PairedGames.PairingIsSymmetric | tools/go-promotion-statistics.ts:154-180 | Exchanging the arenas exchanges every pair and nothing else |
| PairedGames.PairingIgnoresOrder | tools/go-promotion-statistics.ts:154-180 | Reordering an arena reorders the pairs at most |
| PairedGames.PairableIgnoresOrder | tools/go-promotion-statistics.ts:154-180 | Whether arenas pair up does not depend on order |
| PromotionGate.TallyMargins | tools/go-promotion-statistics.ts:185-196 | The counting loop computes the three margin counts and the differences |
| PromotionGate.LossDiagnostics | tools/go-promotion-statistics.ts:182-216 | The loss floor of the matched losses |
| PromotionGate.SummarizePairs | tools/go-promotion-statistics.ts:218-242 | One opponent's evidence |
| PromotionGate.Evaluate | tools/go-promotion-statistics.ts:256-309 | All numbers of the verdict from the pairs |
| PromotionGate.PairedPromotionEvidence | tools/go-promotion-statistics.ts:246-310 | A verdict exactly when the arenas pair up and hold expected opponents only; a pairing error exactly when they do not pair |
| PromotionLaws.EvidencePermutes | tools/go-promotion-statistics.ts:246-310 | Every number depends on which pairs there are, not on their order |
| PromotionLaws.VerdictIgnoresOrder | tools/go-promotion-statistics.ts:246-310 | Permuting either arena changes neither whether there is a verdict nor any part of it |
| PromotionLaws.DeltaIsFlips | tools/go-promotion-statistics.ts:264-267 | Win delta is favourable minus unfavourable flips |
| PromotionLaws.LossFloorPartitions | tools/go-promotion-statistics.ts:182-216 | Matched losses are the games nobody won, each under exactly one margin count |
| PromotionLaws.CriterionIsTheBounds | tools/go-promotion-statistics.ts:279-285 | The criterion is decided by the bounds alone: the guards on win counts and on the sign of the difference follow |
| PromotionLaws.PromotionLosesNoGames | tools/go-promotion-statistics.ts:279-302 | A promotion never has more unfavourable than favourable flips; one on wins has at least five flips |
| PromotionLaws.NeverPromotesBothWays | tools/go-promotion-statistics.ts:244-310 | The gate never passes for (A, B) and for (B, A), nor for an arena against itself |
| PromotionLaws.OpponentsAddUp | tools/go-promotion-statistics.ts:304-307 | Games, wins and flips of the opponents add up to the totals |
| PromotionLaws.MetSamplesAreBalanced | tools/go-promotion-statistics.ts:256-263 | A met sample is balanced: at least 12,288 games for the small boards, 512 for the daemon |
| PromotionLaws.ScoresCannotPromote | tools/go-promotion-statistics.ts:244-246 | Changing any scores changes neither verdict: the loss floor is diagnostic only |
| PromotionDirections.PowerIsOfTheGames | tools/go-promotion-statistics.ts:269-272 | The power difference, when there are two games and turns on both sides, is the candidate's power per turn less the incumbent's |
| PromotionDirections.CountsAreOfTheGames | tools/go-promotion-statistics.ts:264-275 | Games, wins and the mean turns difference are those of the arenas, candidate first |
| PromotionDirections.SampleIsOfTheGames | tools/go-promotion-statistics.ts:256-263 | A sample suffices exactly when every opponent of the profile was played equally often, 2048 times or 512 at least; the counts are of the candidate's games |
| PromotionDirections.PromotionImproves | tools/go-promotion-statistics.ts:279-285 | A promotion is a lexicographic improvement over the games: more wins, or as many and more power per turn, or as much of both and fewer turns |
| PromotionDirections.LossFloorIgnoresWins | tools/go-promotion-statistics.ts:182-185 | The loss floor speaks of the pairs neither side won, and of nothing else |
| PromotionDirections.LossFloorIsOfTheLosses | tools/go-promotion-statistics.ts:182-216 | On matched losses margins are Black's lead, and a positive bound, a significant closeness or closeness all on one side is the candidate's |
| PromotionDirections.OpponentIsItsOwnArena | tools/go-promotion-statistics.ts:218-242 | What is reported of an opponent is the evidence of the games against it alone |
| PromotionDirections.SignificantFlipsFavorTheCandidate | tools/go-promotion-statistics.ts:266-268 | A significant number of flips means the candidate won more games |
| GoSeeds.WordsAreResidues | sim/go-arena.ts:68-73 | Two numbers have the same 32-bit word exactly when congruent modulo 2^32 |
| GoSeeds.MixIsABijection | sim/go-arena.ts:68-73 | The mixer has a two-sided inverse on 32-bit words |
| GoSeeds.WordsAdd | sim/go-arena.ts:68-94 | The word of a sum is the sum of the words, for all integers |
| GoSeeds.StrideOfWord | sim/go-arena.ts:87-94 | The multiplied index is a walk of one stride a game |
| GoSeeds.LevelAtTheGap | sim/go-arena.ts:58-94 | Two walks of one stride round a ring stand level exactly when their step counts differ by the gap of their starts |
| GoSeeds.HandicapsAgree | sim/go-arena.ts:87-94 | Entries of any two handicap or defense streams agree exactly at positions one gap apart modulo 2^32 |
| GoSeeds.HandicapsMeetAsArcs | sim/go-arena.ts:87-94 | Two such streams, from any starts and of any lengths, share a seed exactly when their arcs of the ring of words overlap |
| GoSeeds.HandicapsRepeatEveryWord | sim/go-arena.ts:87-94 | Entries of a handicap or defense stream agree exactly when their positions are congruent modulo 2^32 |
| GoSeeds.HandicapsAreDistinct | sim/go-arena.ts:87-94 | Such a stream is duplicate-free exactly up to 2^32 games |
| GoSeeds.PhasesRepeatEveryPeriod | sim/go-arena.ts:58-66 | Positions of a playtime stream share a game phase exactly when a period apart |
| GoSeeds.PlaytimesAreDistinct | sim/go-arena.ts:58-66 | Up to 150,000 games playtime seeds are distinct, from every start |
| GoSeeds.PlaytimesRepeat | sim/go-arena.ts:58-66 | From a start at or after zero, distinct exactly up to 150,000 |
| GoSeeds.PlaytimesCoverTheRing | sim/go-arena.ts:58-66 | 150,000 games visit every phase, from every start |
| GoSeeds.PlaytimeIsItsPhase | sim/go-arena.ts:58-66 | From a start at or after zero a seed is the time of its phase |
| GoSeeds.NegativeStartHidesAPhase | sim/go-arena.ts:63-65 | With a negative start one phase has two seeds: a concrete pair |
| GoSeeds.PhasesAgree | sim/go-arena.ts:58-66 | Entries of any two playtime streams share a phase exactly at positions one gap apart modulo the period |
| GoSeeds.SeedsAgree | sim/go-arena.ts:58-66 | They share a seed exactly when moreover the phase is zero or both stand on the same side of time zero |
| GoSeeds.PhasesMeetAsArcs | sim/go-arena.ts:58-66 | Two playtime streams, from any starts and of any lengths, share a phase exactly when their arcs overlap |
| GoSeeds.SeedsMeetAsArcs | sim/go-arena.ts:58-66 | They share a seed exactly when their arcs before time zero overlap, or those after it, or both visit the phase zero |
| GoSeeds.StreamsMeetAsArcs | sim/go-arena.ts:58-66 | From starts at or after time zero sharing a seed is exactly overlapping as arcs, whatever the lengths |
| GoSeeds.CasesAgree | sim/go-arena.ts:96-106 | Two games of one corpus share their handicap and defense seeds exactly at positions congruent modulo 2^32, their phase exactly a period apart |
| GoSeeds.CasesAreDistinct | sim/go-arena.ts:96-106 | No two games of a corpus agree in all three streams up to 9,375 * 2^32 games, from a playtime start at or after zero exactly up to that many |
| SeedLedger.FirstOverlap | tools/go-arena-seed-ledger.ts:78-83 | A shared value of both lists, exactly when there is one |
| SeedLedger.FindConflicts | tools/go-arena-seed-ledger.ts:85-126 | The nested loops compute the conflicts of all earlier uses |
| SeedLedger.CompareCorpora | tools/go-arena-seed-ledger.ts:106-123 | The conflicts with one use |
| SeedLedger.CompareStreams | tools/go-arena-seed-ledger.ts:109-122 | The conflicts of one opponent, stream by stream |
| SeedLedger.MatchingCorpus | tools/go-arena-seed-ledger.ts:107-108 | The earlier corpus of an opponent is always found |
| SeedLedger.ConflictsAreExact | tools/go-arena-seed-ledger.ts:85-126 | Conflicts are reported exactly when some earlier use of the profile shares some value |
| SeedLedger.ConflictsAreTruthful | tools/go-arena-seed-ledger.ts:114-121 | Each conflict names an earlier use and a value both really use |
| SeedLedger.Ledger.Record | tools/go-arena-seed-ledger.ts:143-160 | Refused exactly when freshness is asked for and missing, leaving the ledger as it was; else appended |
| SeedLedger.Ledger.RecordAll | tools/go-arena-seed-ledger.ts:143-160 | A whole history leaves exactly the accepted entries |
| SeedLedger.FreshEntriesShareNothing | tools/go-arena-seed-ledger.ts:143-160 | A fresh entry shares no value with any earlier entry of its profile, after every history |
| SeedLedger.UsesMeetAsArcs | tools/go-arena-seed-ledger.ts:85-126 | Whether two uses of a profile share any value is decided by their starts and lengths: an overlap of the handicap arcs, of the defense arcs, or of some opponent's playtime arcs |
| SeedLedger.FreshEntriesShareNoPhase | tools/go-arena-seed-ledger.ts:143-160 | A fresh entry from a start at or after zero shares no game phase, for any opponent, with an earlier such entry of its profile |
| SeedLedger.BurnedSize | tools/go-arena-seed-ledger.ts:85-126 | A use burns one seed a game exactly while it does not repeat itself, and from a start at or after zero never more than a period |
| SeedLedger.FreshGamesFitTheRing | tools/go-arena-seed-ledger.ts:1-6 | After every history: fresh uses of a profile burn at most 299,999 seeds of an opponent; from starts at or after zero at most 150,000, and they play at most 150,000 games exactly when no single use plays more |
| SeedLedger.TwoUsesFillBothSides | tools/go-arena-seed-ledger.ts:143-160 | The bound is sharp: two accepted fresh uses, neither longer than the ring, play 299,999 games |
| SeedLedger.FreshUsesMayShareAPhase | tools/go-arena-seed-ledger.ts:143-160 | Two accepted fresh uses of one game each that select the same phase, one from before time zero |
| SeedLedger.OneUseMayRepeatItself | tools/go-arena-seed-ledger.ts:85-126 | A use longer than the ring is accepted and repeats itself, so the condition on single uses is needed |
| RestartLedger.ChargeGrows | sim/dnet-farm.ts:265-273 | Letting time pass adds the open stranded capacity times that time |
| RestartLedger.CloseOne | sim/dnet-farm.ts:265-273 | Closing an outage moves its charge from open to settled |
| RestartLedger.OpenOne | sim/dnet-farm.ts:501-504 | Opening one charges nothing yet |
| FarmLane.Lane.DropAgent | sim/dnet-farm.ts:260-263 | A resident goes with its armour |
| FarmLane.Lane.PlantAgent | sim/dnet-farm.ts:265-273 | A resident stands and its outage closes; the books stay balanced |
| FarmLane.Lane.SettleResident | sim/dnet-farm.ts:482-505 | A restarted resident is dodged and its armour spent, or lost and its outage opened |
| FarmLane.Lane.SettleRestart | sim/dnet-farm.ts:482-505 | One restarted host has exactly the effect of the reference step |
| FarmLane.Lane.SettleRestarts | sim/dnet-farm.ts:473-506 | All restarts of a mutation, in order, fold that step: residents, armour, outages and the three counters |
| FarmSteps.RestartsOnlyTake | sim/dnet-farm.ts:473-506 | Restarts stand no resident anywhere new and start no job |
| FarmSteps.OutagesOpenByRestart | sim/dnet-farm.ts:473-506 | Between two slices an outage opens only where a restart of a due mutation takes a resident, and none closes |
| FarmSteps.OutagesCloseByPlanting | sim/dnet-farm.ts:531-551 | Before a slice an outage closes only where a derive plants an online host other than the walker's, and none opens |
| FarmPacing.MutationsAreRegular | sim/dnet-farm.ts:853-857 | The net mutates at every multiple of its period before the cap, once, and at no other instant |
| FarmPacing.InstantsAreSettled | sim/dnet-farm.ts:845-864 | Residents at a moment: what arrived, counted afresh at the boundary, mutated at a mutation instant only, with due jobs completed |
| FarmPacing.WalkerAndBoundary | sim/dnet-farm.ts:848-852 | The walker tries when due and next after its wait; measurement begins exactly when the warmup is over |
| FarmPacing.DerivesLieApart | sim/dnet-farm.ts:824-832 | Two derives lie at least the coalescing time apart |
| FarmPacing.DerivesForACause | sim/dnet-farm.ts:853-864 | After the first, a derive answers a mutation or a completed job since the one before |
| FarmPacing.EverythingIsAnswered | sim/dnet-farm.ts:827-864 | A mutation or a completed job is answered by a derive there and then, or the coalescing time after the last one, and nothing derives between |
| FarmPacing.OutageClosesInTime | sim/dnet-farm.ts:827-864 | An outage every derive plants, online and not the walker's, closes no later than the coalescing time after its restart |
| FarmRules.RestartsByHost | sim/dnet-farm.ts:483-507 | What restarts leave of a host, by how many: untouched without a resident, dodged once in armour, else an outage with the capacity then free |
| FarmRules.RestartsAreCounted | sim/dnet-farm.ts:485-501 | Every restart that meets a resident is dodged, for one armour, or opens an outage, for one resident; storms count those in a storm |
| FarmRules.JobsByHost | sim/dnet-farm.ts:859-864 | A job runs its time and no longer; then the resident is idle, or gone if it was there to clear the host and did |
| FarmRules.PlantsByHost | sim/dnet-farm.ts:548-551 | A host without a resident gets the first plant for it if online and not the walker's, which closes its outage; whoever stands stays |
| FarmRules.PlantsAreCounted | sim/dnet-farm.ts:265-275 | Outages closed by planting are the recoveries counted |
| FarmRules.TasksByHost | sim/dnet-farm.ts:656-692 | A busy resident keeps its job, an idle one takes the first task it may, which spares the walker, for the time the task takes |
| FarmRules.DeriveByHost | sim/dnet-farm.ts:554-692 | What a derive leaves a resident with: its job, a look at stale files, or its first task; armour stays on the busy and follows the planner on the rest |
| FarmRules.DeriveByCount | sim/dnet-farm.ts:434-459 | A derive sends nobody away; armour stands on residents and the peak is the most worn |
| FarmLane.Lane.PlantAll | sim/dnet-farm.ts:531-551 | Exactly the plannable online hosts are staffed, never the walker's, and their outages close; equals the reference fold |
| FarmLane.Lane.Sweep | sim/dnet-farm.ts:508-515 | Residents of hosts gone offline are dropped with their armour, and no others |
| FarmLane.Lane.ApplyMutation | sim/dnet-farm.ts:473-515 | Equals the reference mutation: the restarts in order, then the sweep |
| FarmLane.Lane.BeginMeasurement | sim/dnet-farm.ts:790-814 | Counters restart and open outages are charged from here, not from the warmup |
| FarmLane.Lane.AdvanceTo | sim/dnet-farm.ts:839-843 | Advancing the clock adds one slice holding the armour and the open outages of that time, and bills exactly those |
| FarmLane.Lane.ApplyArmourPolicy | sim/dnet-farm.ts:434-455 | At order boundaries hosts take or shed armour as wanted; hosts mid-job keep what they wear |
| FarmLane.Lane.AssignInventory | sim/dnet-farm.ts:556-569 | Exactly the idle, staffed, online hosts with stale files get a job, an inventory of themselves due at once; all others keep what they have |
| FarmLane.Lane.AssignTasks | sim/dnet-farm.ts:672-706 | Every new job was ordered by some task of the plan and leaves the walker alone |
| FarmLane.Lane.DerivePass | sim/dnet-farm.ts:528-707 | A pass equals the reference derivation and never staffs the walker's host |
| FarmLane.Lane.CompleteJobs | sim/dnet-farm.ts:859-864 | Every due job completes and no other: its resident is idle, or gone with its armour when a bootstrap reclaim cleared the host |
| FarmLane.Lane.CompleteJob | sim/dnet-farm.ts:709-740 | One due job |
| FarmLane.Lane.SoonestJob | sim/dnet-farm.ts:836-838 | The earliest of the job ends and a bound |
| FarmLane.Lane.NextInstant | sim/dnet-farm.ts:833-838 | The earliest instant at which anything is to happen |
| FarmLane.Lane.Depart | sim/dnet-farm.ts:826-843 | Derives if one is due, then moves to the next instant or the cap, as the reference does |
| FarmLane.Lane.Settle | sim/dnet-farm.ts:844-865 | Boundary, walker, mutation and jobs of one instant, as the reference does |
| FarmLane.Lane.CloseBooks | sim/dnet-farm.ts:867-872 | At the cap open outages are charged and counted, and the books balance |
| FarmLane.Lane.Run | sim/dnet-farm.ts:816-877 | For all planners, nets and waits it ends at the cap and never iterates twice in a row without time passing, in exactly the residents, armour, outages and counts of its reference history, with the window that history makes: the hours after the warmup; lost capacity and armour are the integrals over that window's open outages and armour; restarts are conserved |
| MoneyLedger.CreditAdds | sim/world.ts:336-344 | A credit moves its own source and the total alike, and no other |
| SimWorld.HeldShrinks | sim/world.ts:915-917 | Settling an action frees exactly its own RAM |
| SimWorld.HeldGrows | sim/world.ts:911-912 | Starting one holds exactly its RAM |
| SimWorld.World.RecordMoney | sim/world.ts:336-344 | In both ledgers the source and the total move by the amount and no other source moves; zero writes nothing |
| SimWorld.LandsWhenAccepted | sim/world.ts:868-917 | The clock takes a landing exactly when its delay is finite and not negative, at any time |
| SimWorld.World.ExactUntilRefused | sim/world.ts:868-917 | The count in flight and the RAM held are those of the actions in the air exactly as long as the clock has refused no landing |
| SimWorld.World.ExecuteHgw | sim/world.ts:884-929 | Is refused exactly unless the listed conditions hold; otherwise it is counted and holds its RAM, until it settles or, when the clock refuses its landing, for good |
| SimWorld.World.SettleHgw | sim/world.ts:915-927 | Returns the RAM to the server object that lent it and pays a hack, to hacking in both ledgers; fails to land exactly when an install removed the target |
| SimWorld.World.ExecuteSleep | sim/world.ts:868-875 | Counts as in flight, for good if the clock refuses its end |
| SimWorld.NothingInTheAir | sim/world.ts:868-917 | Two refused landings leave two actions counted and RAM held with nothing in the air |
| SimWorld.World.SettleSleep | sim/world.ts:870-873 | And no longer |
| SimWorld.World.Nuke | sim/world.ts:782-790 | Roots exactly an unrooted known target needing no port |
| SimWorld.World.BuyServer | sim/world.ts:791-820 | Buys exactly under the limit, with a free name and enough money, and charges the price to servers in both ledgers |
| SimWorld.World.UpgradeServer | sim/world.ts:821-836 | Only ever grows a server's RAM, for its price, charged to servers |
| SimWorld.World.UpgradeHomeRam | sim/world.ts:837-853 | Doubles home RAM up to its caps, charged to servers |
| SimWorld.World.UpgradeHomeCore | sim/world.ts:854-867 | Adds a core up to its cap, charged to servers |
| SimWorld.World.ResetMoney | sim/world.ts:413-420 | After an install money minus the ledger is that install's constant; the new ledger holds the extra starting money under other, and the lifetime ledger carries on with it |
| SimWorld.World.ResetServers | sim/world.ts:422-444 | Every server is new and empty, home keeping RAM and cores; actions in the air hold RAM of objects that are gone |
| SimWorld.World.PrestigeAugmentation | sim/world.ts:359-458 | Keeps RAM accounted and fitting, money accounted, and what is in flight counted |
| ServerTree.Symmetric | sim/network.ts:158-161 | Being neighbours is mutual |
| ServerTree.OneNearer | sim/network.ts:162-166 | Exactly one neighbour is one layer nearer home, every other one layer further; none is listed twice |
| ServerTree.OffLayerIsIsolated | sim/network.ts:151-157 | Hosts on no layer have no neighbours |
| ServerTree.OneWayHome | sim/network.ts:158-166 | Every simple path from a host on layer k to home is its chain of parents, k steps: a tree |
| ServerTree.ChainIsPath | sim/network.ts:158-166 | And that chain is such a path |
| ServerTree.ConnectKeepsTree | sim/network.ts:158-161 | Connecting a new host to a placed one keeps the tree |
| NetworkGenerator.RandomIntInRange | sim/network.ts:63-65 | A roll lands in its range, ends included |
| NetworkGenerator.RolledValue | sim/network.ts:67-77 | A value of its field: rolled from the next draw, fixed or fallback |
| NetworkGenerator.NewIp | sim/network.ts:123-127 | The first address from the stream not yet taken |
| NetworkGenerator.RollHost | sim/network.ts:122-151 | One host's rolls, within their ranges, each from its own place in the stream |
| NetworkGenerator.CoresAndPlaceMayDisagree | sim/network.ts:122-151 | A concrete stream that gives the single core of layer one and a place on layer ten |
| NetworkGenerator.RollHosts | sim/network.ts:118-152 | Distinct names and addresses, and each host on the layer it rolled |
| NetworkGenerator.LinkLayer | sim/network.ts:163-166 | Connects one layer below, each host to the one its own draw picks, or finds that layer empty |
| NetworkGenerator.Link | sim/network.ts:154-166 | A tree over all rolled layers whose parents are those the draws pick in order, or proof of a gap |
| NetworkGenerator.GapsAreLayerGaps | sim/network.ts:163-166 | A gap in the layer lists is a host rolled just above a layer no host rolled |
| NetworkGenerator.GenerateNetwork | sim/network.ts:117-174 | On every stream that lasts: a tree with hosts on the layers they rolled, darkweb isolated, all addresses distinct; it throws exactly when a layer with hosts lies above one without |
| ArenaTiming.CompletionWindow | sim/ipvgobruteforce-arena.ts:175-184 | An ordinary reply takes its whole cycles or one more exactly while offset, fraction and processing stay under two cycles |
| ArenaTiming.OrdinaryRepliesStayCertified | sim/ipvgobruteforce-arena.ts:185-201 | So it does for every draw with at most 110 ms of pattern sleeps |
| ArenaTiming.WorstTimingWindow | sim/ipvgobruteforce-arena.ts:185-201 | Under the maximum timing exactly up to 110 ms |
| ArenaTiming.EntriesStartInPhase | sim/ipvgobruteforce-arena.ts:244-262 | The default entry passes its own checks, and every accepted entry starts in its phase |
| ArenaTiming.GameClock.WaitForCycle | sim/ipvgobruteforce-arena.ts:302-309 | Phase and playtime advance to the next cycle together |
| ArenaTiming.GameClock.Resynchronize | sim/ipvgobruteforce-arena.ts:319-324 | Playtime reaches the dispatch phase; it goes back exactly when that is the phase already under way, mid-cycle |
| ArenaTiming.GameClock.Align | sim/ipvgobruteforce-arena.ts:339-347 | One cycle, full credit, no drift |
| ArenaTiming.GameClock.ControlledSleep | sim/ipvgobruteforce-arena.ts:348-358 | Whole cycles, no drift; refuses fewer than one |
| ArenaTiming.GameClock.ControlledReply | sim/ipvgobruteforce-arena.ts:419-429 | While waits are whole cycles a controlled reply takes exactly its own cycles and drifts by its processing alone |
| ArenaTiming.GameClock.Respond | sim/ipvgobruteforce-arena.ts:385-461 | In every branch phase stays the cycle of the playtime, the drift stays within budget and the reply is counted once |
| ArenaTiming.BlackStep | sim/ipvgobruteforce-arena.ts:291-384 | One step before White's reply |
| ArenaTiming.PlayGame | sim/ipvgobruteforce-arena.ts:290-490 | Over a whole game: phase = floor(playtime/200) mod phases, outside bonus time playtime is the cycles aligned, slept and replied, and it is completed exactly when two passes end it, void stones of White's aside |
| ArenaDelays.UniformCovers | sim/ipvgobruteforce-arena.ts:193-198 | Every delay of a range comes up for some draw |
| ArenaDelays.ProcessingRange | sim/ipvgobruteforce-arena.ts:193-195 | Ordinary processing is 5 and 90 ms under the probes, and every whole number between under some draw |
| ArenaDelays.OffsetRange | sim/ipvgobruteforce-arena.ts:196-198 | The offset into a cycle is 0 and 199 ms under the probes, and all between |
| ArenaDelays.AcceleratedRange | sim/ipvgobruteforce-arena.ts:418-420 | Bonus-time processing is 5 and 50 ms under the probes, and all between |
| ArenaDelays.ControlledRange | sim/ipvgobruteforce-arena.ts:426-428 | Controlled processing is 5 ms and the whole 20 ms budget under the probes, and all between |
| ArenaDelays.OrdinaryBounds | sim/ipvgobruteforce-arena.ts:199-202 | An ordinary reply takes the whole cycles of offset, wait and processing, at least one, and under any timing lies between the two probes |
| ArenaDelays.StoneCosts | sim/ipvgobruteforce-arena.ts:396-406 | A stone adds 200 ms to the sleeps, 40 while bonus cycles are stored |
| NetworkDraws.SharesAreEqual | sim/network.ts:63-65 | Each value of a range has an equal share of the draws, in order |
| NetworkDraws.AddressIsTheFirstFree | sim/network.ts:123-127 | The address is the first of the stream not yet taken; none means all of them were |
| NetworkDraws.StatsByDraw | sim/network.ts:67-76 | A missing range gives the fallback, a fixed field its low end, and the k-th rolled field the k-th draw |
| NetworkDraws.CoresByDraw | sim/network.ts:146-148 | Cores are an equal share of the upper half of the layer, and one without a draw below layer one |
| LedgerReports.ReportedValueIsFirst | tools/go-arena-seed-ledger.ts:78-83 | The value a conflict reports is the first of the longer list that both lists hold |
| ModelExport.EnvelopeInGroups | tools/go-export-model.ts:25-42 | What a profile admits: two to eight groups of four channels on the small board and to twelve on the large, with the other limits |
| ModelExport.DeclaredByKind | tools/go-export-model.ts:380-390 | Sixteen input channels are declared exactly for the tactical kind, eight-bit encoding exactly at rank zero |
| ModelExport.DerivedForACause | tools/go-export-model.ts:444-470 | The loader sees a stripped artifact exactly when the value head was stripped, a distilled one exactly when derived from the champion |
| ModelExport.GoodHeaders | tools/go-export-model.ts:138-146 | A header is good exactly when its dimensions are positive safe integers and its rank, nought without a global policy, is at most 256 |
| StreamSummaries.LatestIsGreatest | sim/artifacts.ts:148 | The last time of an artifact is the greatest of its records, in whatever order they came |
| StreamSummaries.VerdictIsTheLast | sim/artifacts.ts:161-184 | The session's verdict is that of the last result record with a well-formed one |
| StreamSummaries.NoVerdict | sim/artifacts.ts:161-184 | There is none exactly when no record has one |
| StreamSummaries.FingerprintIsTheLast | sim/artifacts.ts:156-160 | The fingerprint is that of the last meta record with one |
| StreamSummaries.NoFingerprint | sim/artifacts.ts:156-160 | There is none exactly when no record has one |
| JsArithmetic.ResidueOfRemainder | ipvgobruteforce/arena/playbook.ts:135-137 | Phase normalisation is the residue, for negative phases too |
| ArtifactStream.SplitIsUnique | sim/artifacts.ts:80-81 | There is one way to cut a stream after each prestige into non-empty parts |
| ArtifactStream.OpenPart | sim/artifacts.ts:137-143 | A record after a prestige opens a part |
| ArtifactStream.ExtendPart | sim/artifacts.ts:144-148 | Any other joins the last part |
| SimArtifacts.ChainGrows | sim/artifacts.ts:137-155 | Indices count up, each later install starts at the prestige before it, and sidecars stay true |
| SimArtifacts.Session.MakeRoom | sim/artifacts.ts:137-143 | Rotates exactly after a prestige and opens an artifact when none is open |
| SimArtifacts.Session.Append | sim/artifacts.ts:144-149 | The record joins the open artifact; count, first and last time agree with its stream |
| SimArtifacts.Session.Note | sim/artifacts.ts:150-184 | The rotation flags and the last fingerprint and verdict |
| SimArtifacts.Session.Write | sim/artifacts.ts:131-185 | The artifacts remain the one cutting of the accepted records; a closing session accepts nothing |
| SimArtifacts.Session.Close | sim/artifacts.ts:261-275 | Closes once; later calls change nothing |
| SimArtifacts.Session.Manifest | sim/artifacts.ts:243-259 | The artifacts in order concatenate to the accepted records; verdict and fingerprint are the last recorded |

## Left out

- Clock.Run: a callback that runs the clock itself, and an infinite horizon, which need not terminate; `runAsync` is a run whose callbacks include their drained continuations.
- Collection pacing, RSS sampling, tracing, telemetry records and file writes: no effect on the modelled state.
- AutosaveKeepsItsPeriod: says nothing for an autosave interval below zero, which the source stores as it is.
- The order and effects of engine subsystems inside one tick beyond their clock operations.
- The margin calibration scan and the policy-only mode of the playbook residual, and how the browser decides: its answers are arbitrary.
- Collisions of the two history hashes in an entry's identity: one identity is one state here.
- The route planner and the maze generator: the labyrinth theorems hold for every route and maze.
- Skill curves: any monotone function of experience.
- FarmLane: waits are whole and positive, which excludes accumulating fractional waits; planners, caches, money, charisma, knowledge and the walker-interruption counter are not modelled, because nothing proved here depends on them.
- The value factor's reconstruction tolerance, and parsed numbers that overflow binary32: the parser's numbers are finite reals, and the layout results hold for an arbitrary narrowing to binary32.
- RowIsFaithful: takes any scale within half a step in 127.5 of the wanted one; that binary32 rounding gives such a scale when the wanted one is normal is ScaleRounding's part. The two quotients, largest weight by 127 and weight by scale, are exact here; the source rounds each to a double first.
- PayloadDecodes: takes the nearness of the scale as given; NormalRowDecodes derives it.
- ExportIsRead: base64 text, gzip and the SHA-256 digests stand for the bytes and for whether two texts agree; the loader's tensors are sequences, where the source makes views of one buffer.
- ExportModel: the comparison of a derived artifact with its champion's file is one answer given.
- Dimensions in an artifact's metadata that are not whole numbers.
- Floating-point rounding in the promotion statistics: logarithms and exponentials are replaced by the exact tail.
- NaN and fractional numbers as seeds or counts: both are whole numbers here.
- HandicapsAreDistinct: counts of 2^32 and more, for which the source fails to make the list at all, are lists like any other here; so too in CasesAreDistinct and the other statements for all counts.
- recordGoArenaSeedUse: reading and writing the ledger file; the ledger is its sequence of uses.
- The bitwise correctness of a word's value: two numbers have one word exactly when congruent modulo 2^32, and words add as numbers do, which is what the streams need.
- SimWorld: experience, skills, server security and money, share prices, and the clock itself: it only accepts or refuses a landing, and any order of settling is allowed.
- BuyServer: a finite price belongs to a RAM of zero or more, as the price function's tables do.
- NetworkGenerator: `growthValue`'s replacement of a zero by one, and `maxRam` as a power of two; the rolled exponent is kept.
- GenerateNetwork: a stream that ends early yields no network, which stands for the address loop that never ends.
- ArenaTiming: boards, moves and superko are arbitrary answers; trace output is not kept.
- SimArtifacts: asynchronous finalisation, fsync and sidecar files; a sidecar is the metadata at the time of its record.
- The spread lane, orchestration scripts and the build: they would add simpler members of the same kinds.
