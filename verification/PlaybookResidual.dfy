/** The residual pruner: exact strips, outcome rounds outward from the roots, and the omitted list
 * (tools/go-playbook-residual.ts). The two browser checks are arbitrary answers to each question, an action in a
 * state. */
module PlaybookResidual {
  import opened CertificateGraph
  import opened Collections

  /** The two branches of one outcome check, over all its draws. */
  datatype Outcome = Outcome(certWonAll: bool, neuralWonAll: bool, certPower: real, neuralPower: real)

  datatype Failure = HarnessFailed | BudgetExceeded

  datatype Result<T> = Ok(value: T) | Failed(error: Failure)

  /** The certified branch wins every draw and the network loses one or gives up Power per turn. */
  predicate EarnsItsPlace(o: Outcome, powerDrop: real) {
    o.certWonAll && (!o.neuralWonAll || o.neuralPower < (1.0 - powerDrop) * o.certPower)
  }

  /** What the browser answers: whether production plays an action in its state, how the two branches of it end,
      and whether the n-th evaluation's page came back at all. */
  datatype Browser = Browser(agrees: Question -> bool, outcome: Question -> Outcome, answers: nat -> bool)

  datatype Options = Options(outcomePrune: bool, powerDrop: real, batch: nat, maxEvaluations: nat)

  // ---------- decisions only ever grow ----------

  /** `later` extends `earlier` without changing a decision. */
  ghost predicate Extends(earlier: Decisions, later: Decisions) {
    forall i <- earlier :: i in later && later[i] == earlier[i]
  }

  /** Decisions that only grow never cut a line the frontier walk followed. */
  lemma {:induction false} ExtendingKeepsPaths(g: Graph, earlier: Decisions, later: Decisions, path: seq<int>)
    requires Extends(earlier, later) && Leads(g, Policy(Frontier, earlier), path)
    ensures Leads(g, Policy(Frontier, later), path)
  {
    forall k | 0 <= k < |path| - 1 ensures Link(g, Policy(Frontier, later), path[k], path[k + 1]) {
      assert Link(g, Policy(Frontier, earlier), path[k], path[k + 1]);
    }
  }

  /** No entry met by a round is ever made unreachable by a later one. */
  lemma NothingMetIsOrphaned(graphs: seq<Graph>, earlier: Decisions, later: Decisions, identity: string)
    requires Extends(earlier, later) && Met(graphs, Policy(Frontier, earlier), identity)
    ensures Met(graphs, Policy(Frontier, later), identity)
  {
    var g :| g in graphs && MetIn(g, Policy(Frontier, earlier), identity);
    var id :| id in g.rows && Reachable(g, Policy(Frontier, earlier), id)
              && g.rows[id].IsDecision() && g.rows[id].identity == identity;
    var path :| Leads(g, Policy(Frontier, earlier), path) && path[|path| - 1] == id;
    ExtendingKeepsPaths(g, earlier, later, path);
    assert Reachable(g, Policy(Frontier, later), id);
    assert MetIn(g, Policy(Frontier, later), identity);
  }

  /** Once nothing undecided is met, the surviving walk is the frontier walk. */
  ghost predicate Settled(graphs: seq<Graph>, d: Decisions) {
    forall i | Met(graphs, Policy(Frontier, d), i) :: i in d
  }

  lemma {:induction false} SurvivingIsFrontier(graphs: seq<Graph>, g: Graph, d: Decisions, path: seq<int>)
    requires g in graphs && Settled(graphs, d)
    requires Leads(g, Policy(Surviving, d), path)
    ensures Leads(g, Policy(Frontier, d), path)
  {
    if |path| > 1 {
      var shorter := path[..|path| - 1];
      assert Leads(g, Policy(Surviving, d), shorter);
      SurvivingIsFrontier(graphs, g, d, shorter);
      var a := path[|path| - 2];
      var k := |path| - 2;
      assert shorter[|shorter| - 1] == a;
      assert Link(g, Policy(Surviving, d), path[k], path[k + 1]);
      assert Reachable(g, Policy(Frontier, d), a);
      if g.rows[a].IsDecision() {
        assert MetIn(g, Policy(Frontier, d), g.rows[a].identity);
        assert Met(graphs, Policy(Frontier, d), g.rows[a].identity);
      }
      forall j | 0 <= j < |path| - 1 ensures Link(g, Policy(Frontier, d), path[j], path[j + 1]) {
        if j < k {
          assert Link(g, Policy(Frontier, d), shorter[j], shorter[j + 1]);
        }
      }
    }
  }

  lemma FrontierIsSurviving(graphs: seq<Graph>, d: Decisions, identity: string)
    requires Met(graphs, Policy(Frontier, d), identity)
    ensures Met(graphs, Policy(Surviving, d), identity)
  {
    var g :| g in graphs && MetIn(g, Policy(Frontier, d), identity);
    var id :| id in g.rows && Reachable(g, Policy(Frontier, d), id)
              && g.rows[id].IsDecision() && g.rows[id].identity == identity;
    var path :| Leads(g, Policy(Frontier, d), path) && path[|path| - 1] == id;
    forall k | 0 <= k < |path| - 1 ensures Link(g, Policy(Surviving, d), path[k], path[k + 1]) {
      assert Link(g, Policy(Frontier, d), path[k], path[k + 1]);
    }
    assert Leads(g, Policy(Surviving, d), path);
    assert Reachable(g, Policy(Surviving, d), id);
    assert MetIn(g, Policy(Surviving, d), identity);
  }

  lemma SurvivingIsMet(graphs: seq<Graph>, d: Decisions, identity: string)
    requires Settled(graphs, d) && Met(graphs, Policy(Surviving, d), identity)
    ensures Met(graphs, Policy(Frontier, d), identity)
  {
    var g :| g in graphs && MetIn(g, Policy(Surviving, d), identity);
    var id :| id in g.rows && Reachable(g, Policy(Surviving, d), id)
              && g.rows[id].IsDecision() && g.rows[id].identity == identity;
    var path :| Leads(g, Policy(Surviving, d), path) && path[|path| - 1] == id;
    SurvivingIsFrontier(graphs, g, d, path);
    assert Reachable(g, Policy(Frontier, d), id);
    assert MetIn(g, Policy(Frontier, d), identity);
  }

  /** When the rounds stop, the entries kept by the surviving walk are exactly those decided keep. */
  lemma KeptIsDecidedKeep(graphs: seq<Graph>, d: Decisions)
    requires Settled(graphs, d)
    requires forall i <- d | d[i] != Strip :: Met(graphs, Policy(Frontier, d), i)
    ensures forall i :: Met(graphs, Policy(Surviving, d), i) && CollectsEntry(Policy(Surviving, d), i)
                        <==> i in d && d[i] == Keep
  {
    forall i ensures Met(graphs, Policy(Surviving, d), i) && CollectsEntry(Policy(Surviving, d), i)
                     <==> i in d && d[i] == Keep
    {
      if i in d && d[i] == Keep {
        FrontierIsSurviving(graphs, d, i);
      }
      if Met(graphs, Policy(Surviving, d), i) {
        SurvivingIsMet(graphs, d, i);
      }
    }
  }

  /** With no prune among the decisions the surviving walk meets everything certified. */
  lemma StripsCutNothing(graphs: seq<Graph>, d: Decisions, identity: string)
    requires forall i <- d :: d[i] != Prune
    ensures Met(graphs, Policy(Surviving, d), identity) <==> Met(graphs, Policy(Certified, map[]), identity)
  {
    forall g <- graphs, id: int
      ensures Reachable(g, Policy(Surviving, d), id) <==> Reachable(g, Policy(Certified, map[]), id)
    {
      SamePaths(g, d, id);
    }
    forall g <- graphs ensures MetIn(g, Policy(Surviving, d), identity) <==>
      MetIn(g, Policy(Certified, map[]), identity) {}
  }

  lemma SamePaths(g: Graph, d: Decisions, id: int)
    requires forall i <- d :: d[i] != Prune
    ensures Reachable(g, Policy(Surviving, d), id) <==> Reachable(g, Policy(Certified, map[]), id)
  {
    forall path: seq<int> ensures Leads(g, Policy(Surviving, d), path) <==> Leads(g, Policy(Certified, map[]), path) {
      assert forall a, b :: Link(g, Policy(Surviving, d), a, b) <==> Link(g, Policy(Certified, map[]), a, b);
    }
  }

  /** A root the policy does not follow is all the walk meets. */
  lemma OnlyTheRoot(g: Graph, p: Policy)
    requires g.roots == [0] && 0 in g.rows && !Follows(p, g.rows[0])
    ensures !Reachable(g, p, 1)
  {
    if Reachable(g, p, 1) {
      var path :| Leads(g, p, path) && path[|path| - 1] == 1;
      assert forall a, b | a in {0} && Link(g, p, a, b) :: b in {0};
      ClosedHoldsReachable(g, p, {0}, path);
    }
  }

  // ---------- the browser batches ----------

  function Least(a: nat, b: nat): nat {
    if a < b then a else b
  }

  datatype Verdict = Fine | Broken(error: Failure)

  /** How `n` entries fare in batches from evaluation `total` on: the budget is checked before each
      batch of an outcome round, the page's answer after it. */
  function Batches(total: nat, n: nat, o: Options, answers: nat -> bool, budgeted: bool): Verdict
    requires 0 < o.batch
    decreases n
  {
    if n == 0 then Fine
    else
      var size := Least(o.batch, n);
      if budgeted && total + size > o.maxEvaluations then Broken(BudgetExceeded)
      else if !answers(total) then Broken(HarnessFailed)
      else Batches(total + size, n - size, o, answers, budgeted)
  }

  ghost predicate Answers(browser: Browser) {
    forall n: nat :: browser.answers(n)
  }

  /** The harness answers every time and the budget covers verifying and playing out every entry. */
  ghost predicate Healthy(graphs: seq<Graph>, o: Options, browser: Browser, start: nat) {
    && Answers(browser)
    && start + 2 * |Entries(graphs)| <= o.maxEvaluations
  }

  lemma {:induction false} HealthyBatches(total: nat, n: nat, o: Options, answers: nat -> bool, budgeted: bool)
    requires 0 < o.batch && forall k: nat :: answers(k)
    requires budgeted ==> total + n <= o.maxEvaluations
    ensures Batches(total, n, o, answers, budgeted) == Fine
    decreases n
  {
    if n > 0 {
      HealthyBatches(total + Least(o.batch, n), n - Least(o.batch, n), o, answers, budgeted);
    }
  }

  /** Batches break for a cause: the budget only where it is kept and too small for all of them, the harness only
      where it did not answer. And they hold to it: what gets through a kept budget fits it. */
  lemma {:induction false} BatchesBreakForCause(total: nat, n: nat, o: Options, answers: nat -> bool, budgeted: bool)
    requires 0 < o.batch
    ensures match Batches(total, n, o, answers, budgeted)
      case Fine => 0 < n ==> answers(total) && (budgeted ==> total + n <= o.maxEvaluations)
      case Broken(BudgetExceeded) => budgeted && o.maxEvaluations < total + n
      case Broken(HarnessFailed) => exists k: nat :: total <= k < total + n && !answers(k)
    decreases n
  {
    if n > 0 {
      var size := Least(o.batch, n);
      BatchesBreakForCause(total + size, n - size, o, answers, budgeted);
      if Batches(total + size, n - size, o, answers, budgeted) == Broken(HarnessFailed) {
        var k: nat :| total + size <= k < total + n && !answers(k);
        assert total <= k;
      }
    }
  }

  /** Production verification of the screened candidates, each asked with its own action. */
  method Verify(candidates: seq<string>, action: map<string, int>, o: Options, browser: Browser, start: nat)
    returns (r: Result<set<string>>)
    requires 0 < o.batch && forall i <- candidates :: i in action
    ensures match Batches(start, |candidates|, o, browser.answers, false)
      case Fine => r == Ok(set i | i in candidates && browser.agrees(Question(i, action[i])))
      case Broken(e) => r == Failed(e)
  {
    var verified: set<string> := {};
    var offset := 0;
    while offset < |candidates|
      invariant 0 <= offset <= |candidates|
      invariant verified == set i | i in candidates[..offset] && browser.agrees(Question(i, action[i]))
      invariant Batches(start, |candidates|, o, browser.answers, false)
             == Batches(start + offset, |candidates| - offset, o, browser.answers, false)
    {
      if !browser.answers(start + offset) { return Failed(HarnessFailed); }
      var end := offset + Least(o.batch, |candidates| - offset);
      var batch := candidates[offset..end];
      verified := verified + set i | i in batch && browser.agrees(Question(i, action[i]));
      assert candidates[..end] == candidates[..offset] + batch;
      offset := end;
    }
    assert candidates[..|candidates|] == candidates;
    r := Ok(verified);
  }

  /** Decisions and the two side lists, as the rounds build them. */
  datatype Progress = Progress(decisions: Decisions, winSaves: seq<string>, priority: seq<string>)

  /** The played-out entries on the side lists, by the outcome of the question each was asked. */
  ghost predicate SideLists(d: Decisions, asked: map<string, int>, winSaves: seq<string>, priority: seq<string>,
      outcome: Question -> Outcome)
  {
    && (forall i <- d | d[i] != Strip :: i in asked)
    && (forall i :: i in winSaves <==>
          i in d && d[i] != Strip && Saves(outcome(Question(i, asked[i]))))
    && (forall i :: i in priority <==>
          i in d && d[i] != Strip && NeitherWins(outcome(Question(i, asked[i]))))
  }

  predicate Saves(outcome: Outcome) { outcome.certWonAll && !outcome.neuralWonAll }

  predicate NeitherWins(outcome: Outcome) { !outcome.certWonAll && !outcome.neuralWonAll }

  function Judged(question: Question, o: Options, browser: Browser): Decision {
    if EarnsItsPlace(browser.outcome(question), o.powerDrop) then Keep else Prune
  }

  /** `after` is `before` with every one of the undecided `states` judged on its own question. */
  ghost predicate DecidedBy(states: seq<string>, action: map<string, int>, before: Decisions, after: Decisions,
      o: Options, browser: Browser)
  {
    && Extends(before, after)
    && (forall i <- states :: i in after)
    && (forall i <- after | i !in before ::
          i in states && i in action && after[i] == Judged(Question(i, action[i]), o, browser))
  }

  /** One entry played out: side lists first, then the decision. */
  function Recorded(p: Progress, entry: string, outcome: Outcome, powerDrop: real): Progress {
    Progress(
      p.decisions[entry := if EarnsItsPlace(outcome, powerDrop) then Keep else Prune],
      if Saves(outcome) then p.winSaves + [entry] else p.winSaves,
      if NeitherWins(outcome) then p.priority + [entry] else p.priority)
  }

  lemma RecordedOne(states: seq<string>, action: map<string, int>, k: nat, before: Progress, p: Progress,
      asked: map<string, int>, o: Options, browser: Browser)
    requires k < |states| && forall i, j | 0 <= i < j < |states| :: states[i] != states[j]
    requires states[k] !in before.decisions && states[k] in action
    requires states[k] in asked && asked[states[k]] == action[states[k]]
    requires DecidedBy(states[..k], action, before.decisions, p.decisions, o, browser)
    requires SideLists(p.decisions, asked, p.winSaves, p.priority, browser.outcome)
    ensures var p' := Recorded(p, states[k], browser.outcome(Question(states[k], action[states[k]])), o.powerDrop);
      && DecidedBy(states[..k + 1], action, before.decisions, p'.decisions, o, browser)
      && SideLists(p'.decisions, asked, p'.winSaves, p'.priority, browser.outcome)
  {
    hide DecidedBy, SideLists, EarnsItsPlace;
    var entry := states[k];
    assert states[..k + 1] == states[..k] + [entry];
    Undecided(states, action, k, before.decisions, p.decisions, o, browser);
    DecidedMore(states[..k], entry, action, before.decisions, p.decisions, o, browser);
    ListedMore(p, entry, asked, browser.outcome, Judged(Question(entry, action[entry]), o, browser));
  }

  lemma Undecided(states: seq<string>, action: map<string, int>, k: nat, before: Decisions, now: Decisions,
      o: Options, browser: Browser)
    requires k < |states| && forall i, j | 0 <= i < j < |states| :: states[i] != states[j]
    requires states[k] !in before && DecidedBy(states[..k], action, before, now, o, browser)
    ensures states[k] !in now
  {
    hide Judged;
    assert states[k] !in states[..k];
  }

  lemma DecidedMore(states: seq<string>, entry: string, action: map<string, int>, before: Decisions, now: Decisions,
      o: Options, browser: Browser)
    requires entry in action && entry !in before && entry !in now && DecidedBy(states, action, before, now, o, browser)
    ensures DecidedBy(states + [entry], action, before,
                      now[entry := Judged(Question(entry, action[entry]), o, browser)], o, browser)
  {
    hide Judged;
  }

  lemma ListedMore(p: Progress, entry: string, asked: map<string, int>, outcome: Question -> Outcome, judged: Decision)
    requires entry !in p.decisions && entry in asked && judged != Strip
    requires SideLists(p.decisions, asked, p.winSaves, p.priority, outcome)
    ensures var o := outcome(Question(entry, asked[entry]));
      SideLists(p.decisions[entry := judged], asked,
                if Saves(o) then p.winSaves + [entry] else p.winSaves,
                if NeitherWins(o) then p.priority + [entry] else p.priority, outcome)
  {
    hide Saves, NeitherWins;
  }

  /** One outcome round: every entry of the frontier is decided, once, on its own question. */
  method Round(states: seq<string>, action: map<string, int>, before: Progress, ghost asked: map<string, int>,
      o: Options, browser: Browser, start: nat)
    returns (r: Result<Progress>)
    requires 0 < o.batch
    requires forall i <- states :: i !in before.decisions && i in action
    requires forall i <- action :: i in states
    requires forall i, j | 0 <= i < j < |states| :: states[i] != states[j]
    requires SideLists(before.decisions, asked, before.winSaves, before.priority, browser.outcome)
    ensures match Batches(start, |states|, o, browser.answers, true)
      case Fine =>
        && r.Ok?
        && DecidedBy(states, action, before.decisions, r.value.decisions, o, browser)
        && SideLists(r.value.decisions, asked + action, r.value.winSaves, r.value.priority, browser.outcome)
      case Broken(e) => r == Failed(e)
  {
    hide SideLists, DecidedBy;
    var p := before;
    var offset := 0;
    NothingAsked(action, before, asked, o, browser);
    while offset < |states|
      invariant 0 <= offset <= |states|
      invariant DecidedBy(states[..offset], action, before.decisions, p.decisions, o, browser)
      invariant SideLists(p.decisions, asked + action, p.winSaves, p.priority, browser.outcome)
      invariant Batches(start, |states|, o, browser.answers, true)
             == Batches(start + offset, |states| - offset, o, browser.answers, true)
    {
      var size := Least(o.batch, |states| - offset);
      if start + offset + size > o.maxEvaluations { return Failed(BudgetExceeded); }
      if !browser.answers(start + offset) { return Failed(HarnessFailed); }
      for k := offset to offset + size
        invariant DecidedBy(states[..k], action, before.decisions, p.decisions, o, browser)
        invariant SideLists(p.decisions, asked + action, p.winSaves, p.priority, browser.outcome)
      {
        var question := Question(states[k], action[states[k]]);
        RecordedOne(states, action, k, before, p, asked + action, o, browser);
        p := Recorded(p, states[k], browser.outcome(question), o.powerDrop);
      }
      offset := offset + size;
    }
    assert states[..|states|] == states;
    r := Ok(p);
  }

  lemma NothingAsked(action: map<string, int>, p: Progress, asked: map<string, int>, o: Options, browser: Browser)
    requires forall i <- action :: i !in p.decisions
    requires SideLists(p.decisions, asked, p.winSaves, p.priority, browser.outcome)
    ensures DecidedBy([], action, p.decisions, p.decisions, o, browser)
    ensures SideLists(p.decisions, asked + action, p.winSaves, p.priority, browser.outcome)
  {
  }

  // ---------- the omitted list ----------

  function Flat(graphs: seq<Graph>): seq<Row>
    requires forall g <- graphs :: Listed(g)
  {
    if graphs == [] then []
    else Flat(graphs[..|graphs| - 1]) + RowsOf(graphs[|graphs| - 1], |graphs[|graphs| - 1].order|)
  }

  function RowsOf(g: Graph, n: nat): seq<Row>
    requires Listed(g) && n <= |g.order|
  {
    seq(n, k requires 0 <= k < n => g.rows[g.order[k]])
  }

  /** `omitted` names exactly the decision rows' entries outside `kept`, each once, with the action
      of the first row that carries the entry. */
  ghost predicate Omits(rows: seq<Row>, kept: set<string>, omitted: seq<(string, int)>) {
    && (forall i, j | 0 <= i < j < |omitted| :: omitted[i].0 != omitted[j].0)
    && (forall k | 0 <= k < |omitted| :: FirstRow(rows, omitted[k].0, omitted[k].1) && omitted[k].0 !in kept)
    && (forall j | 0 <= j < |rows| && rows[j].IsDecision() && rows[j].identity !in kept ::
      Names(omitted, rows[j].identity))
  }

  ghost predicate Names(omitted: seq<(string, int)>, identity: string) {
    exists k :: 0 <= k < |omitted| && omitted[k].0 == identity
  }

  ghost predicate FirstRow(rows: seq<Row>, identity: string, action: int) {
    exists j :: 0 <= j < |rows| && rows[j].IsDecision() && rows[j].identity == identity && rows[j].action == action
                && forall i | 0 <= i < j :: !(rows[i].IsDecision() && rows[i].identity == identity)
  }

  lemma OmitsOne(rows: seq<Row>, row: Row, kept: set<string>, omitted: seq<(string, int)>)
    requires Omits(rows, kept, omitted)
    ensures !row.IsDecision() || row.identity in kept || Names(omitted, row.identity) ==>
      Omits(rows + [row], kept, omitted)
    ensures row.IsDecision() && row.identity !in kept && !Names(omitted, row.identity)
            ==> Omits(rows + [row], kept, omitted + [(row.identity, row.action)])
  {
    var more := rows + [row];
    forall k | 0 <= k < |omitted| ensures FirstRow(more, omitted[k].0, omitted[k].1) {
      assert FirstRow(rows, omitted[k].0, omitted[k].1);
      var j :| 0 <= j < |rows| && rows[j].IsDecision() && rows[j].identity == omitted[k].0
        && rows[j].action == omitted[k].1
               && forall i | 0 <= i < j :: !(rows[i].IsDecision() && rows[i].identity == omitted[k].0);
      assert more[j] == rows[j];
    }
    if row.IsDecision() && row.identity !in kept && !Names(omitted, row.identity) {
      var longer := omitted + [(row.identity, row.action)];
      assert more[|rows|] == row;
      forall i | 0 <= i < |rows| ensures !(more[i].IsDecision() && more[i].identity == row.identity) {
        assert more[i] == rows[i];
      }
      assert FirstRow(more, row.identity, row.action);
      assert longer[|omitted|].0 == row.identity;
      forall j | 0 <= j < |more| && more[j].IsDecision() && more[j].identity !in kept
        ensures Names(longer, more[j].identity) {
        if j < |rows| {
          assert more[j] == rows[j] && Names(omitted, rows[j].identity);
          var k :| 0 <= k < |omitted| && omitted[k].0 == rows[j].identity;
          assert longer[k] == omitted[k];
        }
      }
    }
  }

  lemma NamesOneMore(omitted: seq<(string, int)>, row: Row)
    ensures forall i :: Names(omitted + [(row.identity, row.action)], i) <==> Names(omitted, i) || i == row.identity
  {
    var longer := omitted + [(row.identity, row.action)];
    assert longer[|omitted|].0 == row.identity;
    forall i | Names(omitted, i) ensures Names(longer, i) {
      var k :| 0 <= k < |omitted| && omitted[k].0 == i;
      assert longer[k] == omitted[k];
    }
  }

  /** Every decision entry outside `kept`, in row order. */
  method Omit(graphs: seq<Graph>, kept: set<string>) returns (omitted: seq<(string, int)>)
    requires forall g <- graphs :: Listed(g)
    ensures Omits(Flat(graphs), kept, omitted)
  {
    omitted := [];
    var emitted: set<string> := {};
    for n := 0 to |graphs|
      invariant Omits(Flat(graphs[..n]), kept, omitted)
      invariant forall i :: i in emitted <==> Names(omitted, i)
    {
      assert graphs[n] in graphs && graphs[..n + 1][..n] == graphs[..n];
      omitted, emitted := OmitFrom(graphs[n], kept, Flat(graphs[..n]), omitted, emitted);
    }
    assert graphs[..|graphs|] == graphs;
  }

  /** The rows of one more graph. */
  method OmitFrom(g: Graph, kept: set<string>, ghost rows: seq<Row>, before: seq<(string, int)>, named: set<string>)
    returns (omitted: seq<(string, int)>, emitted: set<string>)
    requires Listed(g) && Omits(rows, kept, before)
    requires forall i :: i in named <==> Names(before, i)
    ensures Omits(rows + RowsOf(g, |g.order|), kept, omitted)
    ensures forall i :: i in emitted <==> Names(omitted, i)
  {
    hide Omits, Names;
    omitted, emitted := before, named;
    assert rows + RowsOf(g, 0) == rows;
    for k := 0 to |g.order|
      invariant Omits(rows + RowsOf(g, k), kept, omitted)
      invariant forall i :: i in emitted <==> Names(omitted, i)
    {
      var row := g.rows[g.order[k]];
      OmitsOne(rows + RowsOf(g, k), row, kept, omitted);
      assert rows + RowsOf(g, k) + [row] == rows + RowsOf(g, k + 1);
      if row.IsDecision() && row.identity !in kept && row.identity !in emitted {
        emitted := emitted + {row.identity};
        NamesOneMore(omitted, row);
        omitted := omitted + [(row.identity, row.action)];
      }
    }
  }

  // ---------- the whole corpus ----------

  datatype Report = Report(
    decisions: Decisions, kept: seq<string>, omitted: seq<(string, int)>,
    winSaves: seq<string>, priority: seq<string>, evaluations: nat)

  ghost function Entries(graphs: seq<Graph>): set<string> {
    set g, id | g in graphs && id in g.rows && g.rows[id].IsDecision() :: g.rows[id].identity
  }

  lemma MetIsEntry(graphs: seq<Graph>, p: Policy, i: string)
    requires Met(graphs, p, i)
    ensures i in Entries(graphs)
  {}

  lemma DistinctCount(s: seq<string>)
    requires forall i, j | 0 <= i < j < |s| :: s[i] != s[j]
    ensures |set i | i in s| == |s|
  {
    if s != [] {
      DistinctCount(s[1..]);
      assert (set i | i in s) == {s[0]} + set i | i in s[1..];
    }
  }

  // ---------- the rounds as a function of the files, the screen and the answers ----------

  /** How far the rounds have come: the decisions, and the action each decided entry was asked about. */
  datatype Stage = Stage(decisions: Decisions, asked: map<string, int>)

  /** The undecided entries a walk meets. */
  ghost function FrontierOf(graphs: seq<Graph>, d: Decisions): set<string> {
    set i | i in Entries(graphs) && i !in d && Met(graphs, Policy(Frontier, d), i)
  }

  /** What one round asks: about each of them, the action of its row met last. */
  ghost function AskedNow(graphs: seq<Graph>, d: Decisions): map<string, int> {
    map i | i in FrontierOf(graphs, d) :: Latest(AllQuestions(graphs, Policy(Frontier, d)), i)
  }

  ghost function RoundOf(graphs: seq<Graph>, s: Stage, o: Options, browser: Browser): Stage {
    var action := AskedNow(graphs, s.decisions);
    Stage(s.decisions + map i | i in action :: Judged(Question(i, action[i]), o, browser), s.asked + action)
  }

  /** Rounds until no undecided entry is met. */
  ghost function Settle(graphs: seq<Graph>, s: Stage, o: Options, browser: Browser): Stage
    decreases Entries(graphs) - s.decisions.Keys
  {
    if FrontierOf(graphs, s.decisions) == {} then s
    else
      RoundDecides(graphs, s, o, browser);
      Settle(graphs, RoundOf(graphs, s, o, browser), o, browser)
  }

  lemma RoundDecides(graphs: seq<Graph>, s: Stage, o: Options, browser: Browser)
    ensures var after := RoundOf(graphs, s, o, browser).decisions;
      && after.Keys == s.decisions.Keys + FrontierOf(graphs, s.decisions) && Extends(s.decisions, after)
    ensures FrontierOf(graphs, s.decisions) != {} ==>
      Entries(graphs) - RoundOf(graphs, s, o, browser).decisions.Keys < Entries(graphs) - s.decisions.Keys
  {
    hide Met, Judged;
    var action := AskedNow(graphs, s.decisions);
    assert action.Keys == FrontierOf(graphs, s.decisions);
    if FrontierOf(graphs, s.decisions) != {} {
      var i :| i in FrontierOf(graphs, s.decisions);
      assert i in Entries(graphs) - s.decisions.Keys;
    }
  }

  /** The certified entries the policy screen would already play. */
  ghost function Candidates(graphs: seq<Graph>, screened: set<string>): set<string> {
    set i | i in Entries(graphs) && Met(graphs, Policy(Certified, map[]), i) && i in screened
  }

  /** The question a candidate is verified with: the action of its certified row met last. */
  ghost function Posing(graphs: seq<Graph>, i: string): Question {
    Question(i, Latest(AllQuestions(graphs, Policy(Certified, map[])), i))
  }

  /** The candidates whose question production answers with that very action. */
  ghost function Stripped(graphs: seq<Graph>, screened: set<string>, browser: Browser): set<string> {
    set i | i in Candidates(graphs, screened) && browser.agrees(Posing(graphs, i))
  }

  ghost function Strip0(graphs: seq<Graph>, screened: set<string>, browser: Browser): Stage {
    Stage(map i | i in Stripped(graphs, screened, browser) :: Strip,
          map i | i in Stripped(graphs, screened, browser) :: Posing(graphs, i).action)
  }

  /** Where the decisions end: the strips alone, or the strips and the rounds after them. */
  ghost function Final(graphs: seq<Graph>, screened: set<string>, o: Options, browser: Browser): Stage {
    var strips := Strip0(graphs, screened, browser);
    if o.outcomePrune then Settle(graphs, strips, o, browser) else strips
  }

  // ---------- what the rounds keep ----------

  /** The side lists and the played-out decisions agree with the outcomes of the questions asked, and everything
      played out is still met by the walk. */
  ghost predicate Consistent(graphs: seq<Graph>, p: Progress, asked: map<string, int>, o: Options, browser: Browser) {
    && (forall i <- p.decisions | p.decisions[i] != Strip ::
          i in asked && p.decisions[i] == Judged(Question(i, asked[i]), o, browser))
    && (forall i <- p.decisions | p.decisions[i] != Strip :: Met(graphs, Policy(Frontier, p.decisions), i))
    && SideLists(p.decisions, asked, p.winSaves, p.priority, browser.outcome)
  }

  ghost predicate SameStrips(a: Decisions, b: Decisions) {
    forall i :: (i in a && a[i] == Strip) <==> (i in b && b[i] == Strip)
  }

  /** A round decides its whole frontier: the decisions grow by exactly that many entries. */
  lemma RoundCounts(graphs: seq<Graph>, states: seq<string>, action: map<string, int>, before: Decisions,
      after: Decisions, o: Options, browser: Browser)
    requires forall i <- states :: Met(graphs, Policy(Frontier, before), i) && i !in before
    requires states != [] && forall i, j | 0 <= i < j < |states| :: states[i] != states[j]
    requires DecidedBy(states, action, before, after, o, browser)
    ensures |after| == |before| + |states|
    ensures before.Keys < after.Keys <= before.Keys + Entries(graphs)
  {
    var added := set i | i in states;
    RoundKeys(states, action, before, after, o, browser);
    DistinctCount(states);
    DisjointUnion(before.Keys, added);
    assert states[0] in added;
    forall i <- states ensures i in Entries(graphs) {
      MetIsEntry(graphs, Policy(Frontier, before), i);
    }
  }

  lemma RoundKeys(states: seq<string>, action: map<string, int>, before: Decisions, after: Decisions, o: Options,
      browser: Browser)
    requires forall i <- states :: i !in before
    requires DecidedBy(states, action, before, after, o, browser)
    ensures after.Keys == before.Keys + (set i | i in states)
    ensures before.Keys !! (set i | i in states)
  {}

  /** The round that was played is the round of the reference. */
  lemma RoundIsReference(graphs: seq<Graph>, states: seq<string>, action: map<string, int>, s: Stage, after: Decisions,
      o: Options, browser: Browser)
    requires forall i :: i in states <==> i in FrontierOf(graphs, s.decisions)
    requires forall i <- states :: i !in s.decisions
    requires LatestOf(AllQuestions(graphs, Policy(Frontier, s.decisions)), states, action)
    requires DecidedBy(states, action, s.decisions, after, o, browser)
    ensures Stage(after, s.asked + action) == RoundOf(graphs, s, o, browser)
  {
    hide FrontierOf, Latest, AllQuestions, Judged;
    assert action == AskedNow(graphs, s.decisions);
    var judged := map i | i in action :: Judged(Question(i, action[i]), o, browser);
    assert after.Keys == (s.decisions + judged).Keys;
    forall i <- after ensures after[i] == (s.decisions + judged)[i] {
      if i in s.decisions { assert i !in states; }
    }
  }

  /** Everything decided by a round stays met in every later one. */
  lemma RoundConsistent(graphs: seq<Graph>, states: seq<string>, action: map<string, int>, before: Progress,
      after: Progress, asked: map<string, int>, o: Options, browser: Browser)
    requires Consistent(graphs, before, asked, o, browser)
    requires forall i <- states :: Met(graphs, Policy(Frontier, before.decisions), i) && i !in before.decisions
    requires forall i <- action :: i in states
    requires DecidedBy(states, action, before.decisions, after.decisions, o, browser)
    requires SideLists(after.decisions, asked + action, after.winSaves, after.priority, browser.outcome)
    ensures Consistent(graphs, after, asked + action, o, browser) && SameStrips(before.decisions, after.decisions)
  {
    hide SideLists, Met;
    forall i <- after.decisions | after.decisions[i] != Strip
      ensures Met(graphs, Policy(Frontier, after.decisions), i)
      ensures i in asked + action && after.decisions[i] == Judged(Question(i, (asked + action)[i]), o, browser)
    {
      assert i in before.decisions || i in states;
      NothingMetIsOrphaned(graphs, before.decisions, after.decisions, i);
    }
  }

  /** Decided and undecided entries together never outnumber the corpus. */
  lemma FrontierFits(states: seq<string>, decided: set<string>, all: set<string>)
    requires decided <= all && forall i <- states :: i in all && i !in decided
    requires forall i, j | 0 <= i < j < |states| :: states[i] != states[j]
    ensures |decided| + |states| <= |all|
  {
    var added := set i | i in states;
    DistinctCount(states);
    DisjointUnion(decided, added);
    SmallerSubset(decided + added, all);
  }

  lemma FrontierIsEntries(graphs: seq<Graph>, states: seq<string>, p: Policy)
    requires forall i <- states :: Met(graphs, p, i)
    ensures forall i <- states :: i in Entries(graphs)
  {
    forall i <- states ensures i in Entries(graphs) {
      MetIsEntry(graphs, p, i);
    }
  }

  /** One round: collect the frontier and decide all of it. Zero entries means the rounds are over. */
  method OneRound(graphs: seq<Graph>, p: Progress, ghost s: Stage, o: Options, browser: Browser, total: nat)
    returns (r: Result<(Progress, nat)>)
    requires 0 < o.batch && p.decisions == s.decisions && Consistent(graphs, p, s.asked, o, browser)
    ensures (&& Answers(browser) && p.decisions.Keys <= Entries(graphs)
             && total + |Entries(graphs)| - |p.decisions| <= o.maxEvaluations) ==> r.Ok?
    ensures r.Ok? ==>
      var (p', n) := r.value;
      var s' := RoundOf(graphs, s, o, browser);
      && (n == 0 <==> FrontierOf(graphs, s.decisions) == {})
      && (n == 0 ==> p' == p && Settled(graphs, p.decisions))
      && (n > 0 ==> p'.decisions == s'.decisions && Consistent(graphs, p', s'.asked, o, browser))
      && SameStrips(p.decisions, p'.decisions)
      && |p'.decisions| == |p.decisions| + n
      && (n > 0 ==> p.decisions.Keys < p'.decisions.Keys <= p.decisions.Keys + Entries(graphs))
  {
    hide Met, SideLists, DecidedBy, Batches;
    var states, action := Collect(graphs, Policy(Frontier, p.decisions));
    FrontierIsCollected(graphs, p.decisions, states);
    if states == [] {
      assert forall i :: i !in states;
      return Ok((p, 0));
    }
    assert states[0] in FrontierOf(graphs, s.decisions);
    var round := Round(states, action, p, s.asked, o, browser, total);
    if Answers(browser) && p.decisions.Keys <= Entries(graphs)
       && total + |Entries(graphs)| - |p.decisions| <= o.maxEvaluations {
      FrontierIsEntries(graphs, states, Policy(Frontier, p.decisions));
      FrontierFits(states, p.decisions.Keys, Entries(graphs));
      HealthyBatches(total, |states|, o, browser.answers, true);
    }
    if round.Failed? { return Failed(round.error); }
    RoundIsReference(graphs, states, action, s, round.value.decisions, o, browser);
    RoundCounts(graphs, states, action, p.decisions, round.value.decisions, o, browser);
    RoundConsistent(graphs, states, action, p, round.value, s.asked, o, browser);
    r := Ok((round.value, |states|));
  }

  lemma FrontierIsCollected(graphs: seq<Graph>, d: Decisions, states: seq<string>)
    requires forall i :: i in states <==> Met(graphs, Policy(Frontier, d), i) && CollectsEntry(Policy(Frontier, d), i)
    ensures forall i :: i in states <==> i in FrontierOf(graphs, d)
    ensures states == [] ==> FrontierOf(graphs, d) == {} && Settled(graphs, d)
  {
    hide Met;
    forall i ensures i in states <==> i in FrontierOf(graphs, d) {
      if Met(graphs, Policy(Frontier, d), i) { MetIsEntry(graphs, Policy(Frontier, d), i); }
    }
    if states == [] {
      forall i | Met(graphs, Policy(Frontier, d), i) ensures i in d {
        assert i !in states;
      }
    }
  }

  lemma NothingPlayed(graphs: seq<Graph>, p: Progress, asked: map<string, int>, o: Options, browser: Browser)
    requires forall i <- p.decisions :: p.decisions[i] == Strip
    requires p.winSaves == [] && p.priority == []
    ensures Consistent(graphs, p, asked, o, browser)
  {
  }

  /** Outcome rounds outward from the roots until nothing undecided is in reach. */
  method Rounds(graphs: seq<Graph>, strips: Progress, ghost s: Stage, o: Options, browser: Browser, start: nat,
      evaluated: nat)
    returns (r: Result<(Progress, nat)>)
    requires 0 < o.batch && strips.decisions == s.decisions
    requires forall i <- strips.decisions :: strips.decisions[i] == Strip
    requires strips.winSaves == [] && strips.priority == []
    requires strips.decisions.Keys <= Entries(graphs)
    ensures Healthy(graphs, o, browser, start) && evaluated <= |Entries(graphs)| ==> r.Ok?
    ensures r.Ok? ==>
      var end := Settle(graphs, s, o, browser);
      && r.value.0.decisions == end.decisions
      && Settled(graphs, r.value.0.decisions)
      && Consistent(graphs, r.value.0, end.asked, o, browser)
      && SameStrips(strips.decisions, r.value.0.decisions)
      && r.value.1 == evaluated + (|r.value.0.decisions| - |strips.decisions|)
  {
    hide Met, RoundOf, FrontierOf, Settled, Consistent;
    NothingPlayed(graphs, strips, s.asked, o, browser);
    var p := strips;
    ghost var now := s;
    var evaluations: nat := evaluated;
    while true
      invariant p.decisions == now.decisions && Settle(graphs, now, o, browser) == Settle(graphs, s, o, browser)
      invariant Consistent(graphs, p, now.asked, o, browser) && SameStrips(strips.decisions, p.decisions)
      invariant |strips.decisions| <= |p.decisions|
      invariant evaluations == evaluated + (|p.decisions| - |strips.decisions|)
      invariant p.decisions.Keys <= Entries(graphs)
      decreases Entries(graphs) - p.decisions.Keys
    {
      var round := OneRound(graphs, p, now, o, browser, start + evaluations);
      if round.Failed? { return Failed(round.error); }
      if round.value.1 == 0 { return Ok((p, evaluations)); }
      p, evaluations := round.value.0, evaluations + round.value.1;
      now := RoundOf(graphs, now, o, browser);
    }
  }

  /** The exact strips, and how many candidates were verified. */
  method Strips(graphs: seq<Graph>, screened: set<string>, o: Options, browser: Browser, start: nat)
    returns (r: Result<(set<string>, nat)>)
    requires 0 < o.batch
    ensures r.Ok? ==> r.value == (Stripped(graphs, screened, browser), |Candidates(graphs, screened)|)
    ensures Healthy(graphs, o, browser, start) ==> r.Ok?
  {
    hide Met, Latest, AllQuestions, Batches;
    var reachable, action := Collect(graphs, Policy(Certified, map[]));
    var candidates: seq<string> := [];
    for n := 0 to |reachable|
      invariant forall i :: i in candidates <==> i in reachable[..n] && i in screened
      invariant forall i, j | 0 <= i < j < |candidates| :: candidates[i] != candidates[j]
    {
      if reachable[n] in screened { candidates := candidates + [reachable[n]]; }
    }
    assert reachable[..|reachable|] == reachable;
    assert Candidates(graphs, screened) == set i | i in candidates by {
      forall i | i in candidates ensures i in Candidates(graphs, screened) {
        MetIsEntry(graphs, Policy(Certified, map[]), i);
      }
    }
    DistinctCount(candidates);
    var verified := Verify(candidates, action, o, browser, start);
    if Healthy(graphs, o, browser, start) {
      HealthyBatches(start, |candidates|, o, browser.answers, false);
    }
    if verified.Failed? { return Failed(verified.error); }
    assert forall i <- candidates :: Question(i, action[i]) == Posing(graphs, i);
    assert verified.value == Stripped(graphs, screened, browser);
    r := Ok((verified.value, |candidates|));
  }

  /** The strips alone, or the strips and then the outcome rounds. */
  method Decide(graphs: seq<Graph>, screened: set<string>, verified: set<string>, o: Options, browser: Browser,
      start: nat, evaluated: nat)
    returns (r: Result<(Progress, nat)>)
    requires 0 < o.batch && verified == Stripped(graphs, screened, browser)
    ensures Healthy(graphs, o, browser, start) && evaluated <= |Entries(graphs)| ==> r.Ok?
    ensures r.Ok? ==>
      var (p, evaluations) := r.value;
      var end := Final(graphs, screened, o, browser);
      && p.decisions == end.decisions
      && Consistent(graphs, p, end.asked, o, browser)
      && (forall i :: (i in p.decisions && p.decisions[i] == Strip) <==> i in verified)
      && evaluations == evaluated + |p.decisions| - |verified|
      && (o.outcomePrune ==> Settled(graphs, p.decisions))
      && Survivors(graphs, verified, o, p.decisions)
  {
    hide Met, Settle, Settled, Posing, Healthy, Consistent;
    var p := Progress(map i | i in verified :: Strip, [], []);
    ghost var s := Strip0(graphs, screened, browser);
    assert p.decisions.Keys == verified && p.decisions == s.decisions;
    assert verified <= Entries(graphs);
    if o.outcomePrune {
      r := Rounds(graphs, p, s, o, browser, start, evaluated);
      if r.Ok? {
        AreSettled(graphs, r.value.0, Final(graphs, screened, o, browser).asked, o, browser);
      }
    } else {
      NothingPlayed(graphs, p, s.asked, o, browser);
      forall i ensures Met(graphs, Policy(Surviving, p.decisions), i) <==> Met(graphs, Policy(Certified, map[]), i) {
        StripsCutNothing(graphs, p.decisions, i);
      }
      r := Ok((p, evaluated));
    }
  }

  lemma AreSettled(graphs: seq<Graph>, p: Progress, asked: map<string, int>, o: Options, browser: Browser)
    requires Settled(graphs, p.decisions) && Consistent(graphs, p, asked, o, browser)
    ensures var surviving := Policy(Surviving, p.decisions);
      forall i :: Met(graphs, surviving, i) && CollectsEntry(surviving, i) <==>
        i in p.decisions && p.decisions[i] == Keep
  {
    hide Met, Settled, SideLists;
    KeptIsDecidedKeep(graphs, p.decisions);
  }

  /** What the surviving walk is about to collect. */
  ghost predicate Survivors(graphs: seq<Graph>, verified: set<string>, o: Options, d: Decisions) {
    forall i :: Met(graphs, Policy(Surviving, d), i) && CollectsEntry(Policy(Surviving, d), i) <==>
      if o.outcomePrune then i in d && d[i] == Keep else Met(graphs, Policy(Certified, map[]), i) && i !in verified
  }

  /** What a report promises: see the clauses. */
  ghost predicate Faithful(graphs: seq<Graph>, screened: set<string>, o: Options, browser: Browser, r: Report)
    requires forall g <- graphs :: Listed(g)
  {
    var (d, end) := (r.decisions, Final(graphs, screened, o, browser));
    // the decisions are those of the strips and the rounds
    && d == end.decisions
    // an entry is stripped exactly when it is certified, screened and reproduced by production as asked
    && (forall i :: (i in d && d[i] == Strip) <==> i in Stripped(graphs, screened, browser))
    // a played-out entry is kept exactly when the action it was asked about earns its place
    && (forall i <- d | d[i] != Strip :: i in end.asked && d[i] == Judged(Question(i, end.asked[i]), o, browser))
    && SideLists(d, end.asked, r.winSaves, r.priority, browser.outcome)
    // with the rounds, nothing undecided is left in reach, nothing played out was orphaned and the
    // kept entries are exactly the keeps; without them every certified entry is kept or stripped
    && (if o.outcomePrune then
          && Settled(graphs, d)
          && (forall i <- d | d[i] != Strip :: Met(graphs, Policy(Frontier, d), i))
          && (forall i :: i in r.kept <==> i in d && d[i] == Keep)
        else
          forall i :: i in r.kept <==>
            Met(graphs, Policy(Certified, map[]), i) && i !in Stripped(graphs, screened, browser))
    // the omitted list and the kept entries partition the corpus
    && (forall i, j | 0 <= i < j < |r.kept| :: r.kept[i] != r.kept[j])
    && (forall i <- r.kept :: i in Entries(graphs))
    && Omits(Flat(graphs), (set i | i in r.kept), r.omitted)
    // every candidate is verified once and no entry is ever played out twice
    && r.evaluations == |Candidates(graphs, screened)| + |d| - |Stripped(graphs, screened, browser)|
  }

  // ---------- what the outcomes say of the report ----------

  /** What becomes of a played-out entry, by the two branches of the question it was asked: it is kept exactly when
      the certified branch wins every draw and the network's either loses one or gives up more Power per turn than
      the drop allows, a win save when the network's branch alone loses a draw, a generation priority when both do. */
  lemma PlayedOutByOutcome(graphs: seq<Graph>, screened: set<string>, o: Options, browser: Browser, r: Report,
      i: string)
    requires forall g <- graphs :: Listed(g)
    requires Faithful(graphs, screened, o, browser, r) && o.outcomePrune
    requires i in r.decisions && i !in Stripped(graphs, screened, browser)
    ensures i in Final(graphs, screened, o, browser).asked
    ensures var out := browser.outcome(Question(i, Final(graphs, screened, o, browser).asked[i]));
      && (i in r.kept ==> out.certWonAll)
      && (i !in r.kept && out.certWonAll ==>
            out.neuralWonAll && out.neuralPower >= (1.0 - o.powerDrop) * out.certPower)
      && (i in r.kept && out.neuralWonAll ==> out.neuralPower < (1.0 - o.powerDrop) * out.certPower)
      && (i in r.winSaves <==> out.certWonAll && !out.neuralWonAll)
      && (i in r.priority <==> !out.certWonAll && !out.neuralWonAll)
  {
    hide Met, Settled, Stripped, Omits, Final;
    assert r.decisions[i] != Strip;
  }

  /** The side lists against the kept entries: every win save is kept, every generation priority is pruned, and both
      name played-out entries only. */
  lemma SideListsAgree(graphs: seq<Graph>, screened: set<string>, o: Options, browser: Browser, r: Report)
    requires forall g <- graphs :: Listed(g)
    requires Faithful(graphs, screened, o, browser, r) && o.outcomePrune
    ensures forall i <- r.winSaves :: i in r.kept && i !in Stripped(graphs, screened, browser)
    ensures forall i <- r.priority :: i in r.decisions && r.decisions[i] == Prune && i !in r.kept
    ensures forall i <- r.kept :: i in r.decisions && i !in Stripped(graphs, screened, browser)
  {
    hide Met, Settled, Stripped, Omits, Final, EarnsItsPlace, Saves, NeitherWins;
    forall i <- r.winSaves ensures i in r.kept && i !in Stripped(graphs, screened, browser) {
      PlayedOutByOutcome(graphs, screened, o, browser, r, i);
    }
    forall i <- r.priority ensures i in r.decisions && r.decisions[i] == Prune && i !in r.kept {
      PlayedOutByOutcome(graphs, screened, o, browser, r, i);
    }
  }

  lemma {:induction false} FlatHolds(graphs: seq<Graph>, g: Graph, id: int)
    requires (forall h <- graphs :: Listed(h)) && g in graphs && id in g.rows
    ensures g.rows[id] in Flat(graphs)
  {
    var rest, last := graphs[..|graphs| - 1], graphs[|graphs| - 1];
    assert graphs == rest + [last];
    if g == last {
      assert id in g.order;
      var k :| 0 <= k < |g.order| && g.order[k] == id;
      assert RowsOf(last, |last.order|)[k] == g.rows[id];
    } else {
      FlatHolds(rest, g, id);
    }
  }

  lemma {:induction false} FlatOnlyHolds(graphs: seq<Graph>, row: Row)
    requires (forall h <- graphs :: Listed(h)) && row in Flat(graphs)
    ensures exists g, id :: g in graphs && id in g.rows && g.rows[id] == row
  {
    var rest, last := graphs[..|graphs| - 1], graphs[|graphs| - 1];
    assert graphs == rest + [last];
    if row in Flat(rest) {
      FlatOnlyHolds(rest, row);
      var g, id :| g in rest && id in g.rows && g.rows[id] == row;
      assert g in graphs;
    } else {
      var k :| 0 <= k < |last.order| && RowsOf(last, |last.order|)[k] == row;
      assert last in graphs && last.rows[last.order[k]] == row;
    }
  }

  /** Moves and passes alike are entries: each one's state is kept or named in the omitted list, and nothing else is
      named there. */
  lemma MovesAndPassesAreListed(graphs: seq<Graph>, screened: set<string>, o: Options, browser: Browser, r: Report)
    requires forall g <- graphs :: Listed(g)
    requires Faithful(graphs, screened, o, browser, r)
    ensures forall g <- graphs, id | id in g.rows && (g.rows[id].op == Move || g.rows[id].op == Pass) ::
      g.rows[id].identity in r.kept || exists e <- r.omitted :: e.0 == g.rows[id].identity
    ensures forall e <- r.omitted :: e.0 !in r.kept && exists g, id ::
      g in graphs && id in g.rows && (g.rows[id].op == Move || g.rows[id].op == Pass)
      && g.rows[id].identity == e.0 && g.rows[id].action == e.1
  {
    hide Met, Settled, Stripped, Final, SideLists, Flat, FirstRow, Names;
    forall g <- graphs, id | id in g.rows && (g.rows[id].op == Move || g.rows[id].op == Pass)
      ensures g.rows[id].identity in r.kept || exists e <- r.omitted :: e.0 == g.rows[id].identity
    {
      FlatHolds(graphs, g, id);
      RowIsNamed(graphs, g.rows[id], r);
    }
    forall e <- r.omitted ensures e.0 !in r.kept && exists g, id ::
      g in graphs && id in g.rows && (g.rows[id].op == Move || g.rows[id].op == Pass)
      && g.rows[id].identity == e.0 && g.rows[id].action == e.1
    {
      var row := NamedByRow(graphs, e, r);
      FlatOnlyHolds(graphs, row);
    }
  }

  lemma RowIsNamed(graphs: seq<Graph>, row: Row, r: Report)
    requires (forall g <- graphs :: Listed(g)) && Omits(Flat(graphs), (set i | i in r.kept), r.omitted)
    requires row in Flat(graphs) && (row.op == Move || row.op == Pass)
    ensures row.identity in r.kept || exists e <- r.omitted :: e.0 == row.identity
  {
    hide Flat, FirstRow;
    var j :| 0 <= j < |Flat(graphs)| && Flat(graphs)[j] == row;
    if row.identity !in r.kept {
      assert Names(r.omitted, Flat(graphs)[j].identity);
      var k :| 0 <= k < |r.omitted| && r.omitted[k].0 == row.identity;
      assert r.omitted[k] in r.omitted;
    }
  }

  lemma NamedByRow(graphs: seq<Graph>, e: (string, int), r: Report) returns (row: Row)
    requires (forall g <- graphs :: Listed(g)) && Omits(Flat(graphs), (set i | i in r.kept), r.omitted)
    requires e in r.omitted
    ensures row in Flat(graphs) && (row.op == Move || row.op == Pass) && row.identity == e.0 && row.action == e.1
    ensures e.0 !in r.kept
  {
    hide Flat;
    var k :| 0 <= k < |r.omitted| && r.omitted[k] == e;
    assert FirstRow(Flat(graphs), r.omitted[k].0, r.omitted[k].1);
    var j :| 0 <= j < |Flat(graphs)| && Flat(graphs)[j].IsDecision() && Flat(graphs)[j].identity == e.0
             && Flat(graphs)[j].action == e.1;
    row := Flat(graphs)[j];
  }

  // ---------- when every state carries one action ----------

  /** A row of some file asks the question. */
  ghost predicate Carries(graphs: seq<Graph>, q: Question) {
    exists g <- graphs, id: int :: id in g.rows && g.rows[id].IsDecision() && g.rows[id].Asks() == q
  }

  /** All move and pass rows of a state carry one action: something to check on the files. */
  ghost predicate OneAction(graphs: seq<Graph>) {
    forall q, r | Carries(graphs, q) && Carries(graphs, r) && q.identity == r.identity :: q == r
  }

  ghost function ActionOf(graphs: seq<Graph>, identity: string): int {
    if identity !in Entries(graphs) then 0
    else
      EntryIsCarried(graphs, identity);
      var q :| Carries(graphs, q) && q.identity == identity;
      q.action
  }

  lemma EntryIsCarried(graphs: seq<Graph>, identity: string)
    requires identity in Entries(graphs)
    ensures exists q :: Carries(graphs, q) && q.identity == identity
  {
    var g, id :| g in graphs && id in g.rows && g.rows[id].IsDecision() && g.rows[id].identity == identity;
    assert Carries(graphs, g.rows[id].Asks());
  }

  lemma TheAction(graphs: seq<Graph>, q: Question)
    requires OneAction(graphs) && Carries(graphs, q)
    ensures q.identity in Entries(graphs) && q.action == ActionOf(graphs, q.identity)
  {
    EntryIsCarried(graphs, q.identity);
  }

  /** What a walk asks last about a state it meets is asked by some row. */
  lemma AskedIsCarried(graphs: seq<Graph>, p: Policy, identity: string)
    requires Met(graphs, p, identity) && CollectsEntry(p, identity)
    ensures Carries(graphs, Question(identity, Latest(AllQuestions(graphs, p), identity)))
  {
    hide Met, CollectsEntry, Latest;
    AllQuestionsAreMet(graphs, p, identity);
    LatestIsPosed(AllQuestions(graphs, p), identity);
    QuestionsAreCarried(graphs, p, Question(identity, Latest(AllQuestions(graphs, p), identity)));
  }

  lemma {:induction false} QuestionsAreCarried(graphs: seq<Graph>, p: Policy, q: Question)
    requires q in AllQuestions(graphs, p)
    ensures Carries(graphs, q)
  {
    hide Collects, Posed, Visits;
    var rest, last := graphs[..|graphs| - 1], graphs[|graphs| - 1];
    assert graphs == rest + [last];
    if q in Questions(last, p) {
      PosedByRows(last, p, Visits(last, p, last.roots, {}), q);
      CollectedIsDecision(p);
      assert last in graphs;
    } else {
      QuestionsAreCarried(rest, p, q);
      var g: Graph, id: int :| g in rest && id in g.rows && g.rows[id].IsDecision() && g.rows[id].Asks() == q;
      assert g in graphs;
    }
  }

  lemma CollectedIsDecision(p: Policy)
    ensures forall row :: Collects(p, row) ==> row.IsDecision()
  {
  }

  /** Every decision was made on the action of some row of its state. */
  lemma {:induction false} RoundsAskRows(graphs: seq<Graph>, s: Stage, o: Options, browser: Browser)
    requires forall i <- s.asked :: Carries(graphs, Question(i, s.asked[i]))
    ensures forall i <- Settle(graphs, s, o, browser).asked ::
      Carries(graphs, Question(i, Settle(graphs, s, o, browser).asked[i]))
    decreases Entries(graphs) - s.decisions.Keys
  {
    hide Carries, Met, Latest, AllQuestions, Judged;
    if FrontierOf(graphs, s.decisions) != {} {
      RoundDecides(graphs, s, o, browser);
      var s1 := RoundOf(graphs, s, o, browser);
      forall i <- s1.asked ensures Carries(graphs, Question(i, s1.asked[i])) {
        if i in FrontierOf(graphs, s.decisions) {
          AskedIsCarried(graphs, Policy(Frontier, s.decisions), i);
        }
      }
      RoundsAskRows(graphs, s1, o, browser);
    }
  }

  lemma AskedByRows(graphs: seq<Graph>, screened: set<string>, o: Options, browser: Browser)
    ensures forall i <- Final(graphs, screened, o, browser).asked ::
      Carries(graphs, Question(i, Final(graphs, screened, o, browser).asked[i]))
    ensures forall i <- Candidates(graphs, screened) :: Carries(graphs, Posing(graphs, i))
  {
    hide Carries, Met, Latest, AllQuestions, Settle;
    forall i <- Candidates(graphs, screened) ensures Carries(graphs, Posing(graphs, i)) {
      AskedIsCarried(graphs, Policy(Certified, map[]), i);
    }
    RoundsAskRows(graphs, Strip0(graphs, screened, browser), o, browser);
  }

  // ---------- the report, from files, screen and answers alone ----------

  /** What is to become of every entry, were it asked: strip, or the judgement of its action. */
  ghost function Wanted(graphs: seq<Graph>, screened: set<string>, o: Options, browser: Browser): Decisions {
    map i | i in Entries(graphs) ::
      if i in Stripped(graphs, screened, browser) then Strip
      else Judged(Question(i, ActionOf(graphs, i)), o, browser)
  }

  /** An entry is within reach when some line leads to it through strips and entries that earn their place. */
  ghost predicate InReach(graphs: seq<Graph>, screened: set<string>, o: Options, browser: Browser, identity: string) {
    Met(graphs, Policy(Frontier, Wanted(graphs, screened, o, browser)), identity)
  }

  /** The decisions made agree with the wanted ones. */
  lemma DecisionsAreWanted(graphs: seq<Graph>, screened: set<string>, o: Options, browser: Browser, r: Report)
    requires forall g <- graphs :: Listed(g)
    requires Faithful(graphs, screened, o, browser, r) && o.outcomePrune && OneAction(graphs)
    ensures Extends(r.decisions, Wanted(graphs, screened, o, browser)) && r.decisions.Keys <= Entries(graphs)
  {
    hide Met, Final, Stripped, SideLists, Omits, Settled, Carries, OneAction, Judged, ActionOf;
    var d, asked := r.decisions, Final(graphs, screened, o, browser).asked;
    AskedByRows(graphs, screened, o, browser);
    forall i <- d ensures i in Entries(graphs) && d[i] == Wanted(graphs, screened, o, browser)[i] {
      if d[i] != Strip {
        MetIsEntry(graphs, Policy(Frontier, d), i);
        TheAction(graphs, Question(i, asked[i]));
      } else {
        StrippedIsEntry(graphs, screened, browser, i);
      }
    }
  }

  lemma StrippedIsEntry(graphs: seq<Graph>, screened: set<string>, browser: Browser, i: string)
    requires i in Stripped(graphs, screened, browser)
    ensures i in Entries(graphs)
  {
  }

  /** A line that every wanted decision lets through is one the settled decisions let through. */
  lemma {:induction false} WantedIsFrontier(graphs: seq<Graph>, g: Graph, d: Decisions, wanted: Decisions,
      path: seq<int>)
    requires g in graphs && Settled(graphs, d) && Extends(d, wanted)
    requires Leads(g, Policy(Frontier, wanted), path)
    ensures Leads(g, Policy(Frontier, d), path)
  {
    if |path| > 1 {
      var shorter := path[..|path| - 1];
      assert Leads(g, Policy(Frontier, wanted), shorter);
      WantedIsFrontier(graphs, g, d, wanted, shorter);
      var k := |path| - 2;
      assert shorter[|shorter| - 1] == path[k];
      assert Link(g, Policy(Frontier, wanted), path[k], path[k + 1]);
      SettledRow(graphs, g, d, shorter);
      forall j | 0 <= j < |path| - 1 ensures Link(g, Policy(Frontier, d), path[j], path[j + 1]) {
        if j < k {
          assert Link(g, Policy(Frontier, d), shorter[j], shorter[j + 1]);
        }
      }
    }
  }

  /** The decision a settled walk has reached is made. */
  lemma SettledRow(graphs: seq<Graph>, g: Graph, d: Decisions, path: seq<int>)
    requires g in graphs && Settled(graphs, d) && Leads(g, Policy(Frontier, d), path)
    ensures var id := path[|path| - 1]; id in g.rows && g.rows[id].IsDecision() ==> g.rows[id].identity in d
  {
    var id := path[|path| - 1];
    if id in g.rows && g.rows[id].IsDecision() {
      assert Reachable(g, Policy(Frontier, d), id);
      assert MetIn(g, Policy(Frontier, d), g.rows[id].identity);
    }
  }

  /** However the entries never met were to be decided, a walk that follows those decisions too meets nothing more. */
  lemma MetIsInReach(graphs: seq<Graph>, screened: set<string>, o: Options, browser: Browser, r: Report,
      wanted: Decisions, i: string)
    requires forall g <- graphs :: Listed(g)
    requires Faithful(graphs, screened, o, browser, r) && o.outcomePrune && Extends(r.decisions, wanted)
    ensures Met(graphs, Policy(Frontier, r.decisions), i) <==> Met(graphs, Policy(Frontier, wanted), i)
  {
    hide Faithful;
    var d := r.decisions;
    if Met(graphs, Policy(Frontier, d), i) {
      NothingMetIsOrphaned(graphs, d, wanted, i);
    }
    if Met(graphs, Policy(Frontier, wanted), i) {
      IsSettled(graphs, screened, o, browser, r);
      var g :| g in graphs && MetIn(g, Policy(Frontier, wanted), i);
      var id :| id in g.rows && Reachable(g, Policy(Frontier, wanted), id)
                && g.rows[id].IsDecision() && g.rows[id].identity == i;
      var path :| Leads(g, Policy(Frontier, wanted), path) && path[|path| - 1] == id;
      WantedIsFrontier(graphs, g, d, wanted, path);
      assert Reachable(g, Policy(Frontier, d), id);
      assert MetIn(g, Policy(Frontier, d), i);
    }
  }

  lemma IsSettled(graphs: seq<Graph>, screened: set<string>, o: Options, browser: Browser, r: Report)
    requires forall g <- graphs :: Listed(g)
    requires Faithful(graphs, screened, o, browser, r) && o.outcomePrune
    ensures Settled(graphs, r.decisions)
  {
  }

  /** With outcome pruning and one action a state the report is what the set of files, the screen and the answers make
      it: the entries played out are those within reach that are not stripped, and the kept ones are those of them
      that earn their place. */
  lemma ReportIsDetermined(graphs: seq<Graph>, screened: set<string>, o: Options, browser: Browser, r: Report)
    requires forall g <- graphs :: Listed(g)
    requires Faithful(graphs, screened, o, browser, r) && o.outcomePrune && OneAction(graphs)
    ensures forall i <- Candidates(graphs, screened) :: Posing(graphs, i) == Question(i, ActionOf(graphs, i))
    ensures forall i :: i in r.decisions <==>
      i in Stripped(graphs, screened, browser) || InReach(graphs, screened, o, browser, i)
    ensures Extends(r.decisions, Wanted(graphs, screened, o, browser))
    ensures forall i :: i in r.kept <==> Remains(graphs, screened, o, browser, i)
  {
    hide Met, Settled, InReach, Wanted, Stripped, ActionOf, OneAction, Final, Posing, Candidates;
    AskedByRows(graphs, screened, o, browser);
    forall i <- Candidates(graphs, screened) ensures Posing(graphs, i) == Question(i, ActionOf(graphs, i)) {
      PosedTheAction(graphs, i);
    }
    DecisionsAreWanted(graphs, screened, o, browser, r);
    forall i ensures i in r.decisions <==>
      i in Stripped(graphs, screened, browser) || InReach(graphs, screened, o, browser, i)
    {
      Decided(graphs, screened, o, browser, r, i);
    }
    forall i ensures i in r.kept <==> Remains(graphs, screened, o, browser, i) {
      Decided(graphs, screened, o, browser, r, i);
      KeptIsWanted(graphs, screened, o, browser, r, i);
    }
  }

  lemma PosedTheAction(graphs: seq<Graph>, i: string)
    requires OneAction(graphs) && Carries(graphs, Posing(graphs, i))
    ensures Posing(graphs, i) == Question(i, ActionOf(graphs, i))
  {
    hide OneAction, Carries;
    TheAction(graphs, Posing(graphs, i));
  }

  /** Within reach, not stripped, and worth its place: what is kept. */
  ghost predicate Remains(graphs: seq<Graph>, screened: set<string>, o: Options, browser: Browser, i: string) {
    && InReach(graphs, screened, o, browser, i) && i !in Stripped(graphs, screened, browser)
    && EarnsItsPlace(browser.outcome(Question(i, ActionOf(graphs, i))), o.powerDrop)
  }

  /** What a smaller drop prunes, a larger one prunes. */
  lemma DropPrunesMore(out: Outcome, drop: real, looser: real)
    requires drop <= looser && 0.0 <= out.certPower && EarnsItsPlace(out, looser)
    ensures EarnsItsPlace(out, drop)
  {
    assert (1.0 - looser) * out.certPower <= (1.0 - drop) * out.certPower;
  }

  lemma WantedPrunesLess(graphs: seq<Graph>, screened: set<string>, o: Options, looser: Options, browser: Browser,
      g: Graph, path: seq<int>)
    requires o.powerDrop <= looser.powerDrop && forall q :: 0.0 <= browser.outcome(q).certPower
    requires Leads(g, Policy(Frontier, Wanted(graphs, screened, looser, browser)), path)
    ensures Leads(g, Policy(Frontier, Wanted(graphs, screened, o, browser)), path)
  {
    hide EarnsItsPlace, Stripped, ActionOf, Entries;
    var p, q := Policy(Frontier, Wanted(graphs, screened, looser, browser)),
                Policy(Frontier, Wanted(graphs, screened, o, browser));
    forall k | 0 <= k < |path| - 1 ensures Link(g, q, path[k], path[k + 1]) {
      assert Link(g, p, path[k], path[k + 1]);
      var i := g.rows[path[k]].identity;
      var out := browser.outcome(Question(i, ActionOf(graphs, i)));
      if EarnsItsPlace(out, looser.powerDrop) {
        DropPrunesMore(out, o.powerDrop, looser.powerDrop);
      }
    }
  }

  /** Allowing the network to give up more Power never keeps more: an entry that remains under the larger drop
      remains under the smaller one, though the larger drop also cuts whole lines away. */
  lemma MoreDropKeepsLess(graphs: seq<Graph>, screened: set<string>, o: Options, looser: Options, browser: Browser,
      i: string)
    requires o.powerDrop <= looser.powerDrop && forall q :: 0.0 <= browser.outcome(q).certPower
    requires Remains(graphs, screened, looser, browser, i)
    ensures Remains(graphs, screened, o, browser, i)
  {
    hide EarnsItsPlace, Stripped, ActionOf, Link, Wanted;
    var out := browser.outcome(Question(i, ActionOf(graphs, i)));
    DropPrunesMore(out, o.powerDrop, looser.powerDrop);
    var p, q := Policy(Frontier, Wanted(graphs, screened, looser, browser)),
                Policy(Frontier, Wanted(graphs, screened, o, browser));
    var g :| g in graphs && MetIn(g, p, i);
    var id :| id in g.rows && Reachable(g, p, id) && g.rows[id].IsDecision() && g.rows[id].identity == i;
    var path :| Leads(g, p, path) && path[|path| - 1] == id;
    WantedPrunesLess(graphs, screened, o, looser, browser, g, path);
    assert Reachable(g, q, id);
    assert MetIn(g, q, i);
  }

  lemma KeptIsWanted(graphs: seq<Graph>, screened: set<string>, o: Options, browser: Browser, r: Report, i: string)
    requires forall g <- graphs :: Listed(g)
    requires Faithful(graphs, screened, o, browser, r) && o.outcomePrune
    requires Extends(r.decisions, Wanted(graphs, screened, o, browser))
    ensures i in r.kept <==> (
      && i in r.decisions && i !in Stripped(graphs, screened, browser)
      && EarnsItsPlace(browser.outcome(Question(i, ActionOf(graphs, i))), o.powerDrop))
  {
    hide Met, Settled, Stripped, ActionOf, Final, SideLists, Omits;
    if i in r.decisions { assert r.decisions[i] == Wanted(graphs, screened, o, browser)[i]; }
  }

  lemma Decided(graphs: seq<Graph>, screened: set<string>, o: Options, browser: Browser, r: Report, i: string)
    requires forall g <- graphs :: Listed(g)
    requires Faithful(graphs, screened, o, browser, r) && o.outcomePrune && OneAction(graphs)
    ensures i in r.decisions <==> i in Stripped(graphs, screened, browser) || InReach(graphs, screened, o, browser, i)
    ensures i in r.decisions && i !in Stripped(graphs, screened, browser) ==> InReach(graphs, screened, o, browser, i)
  {
    hide Met, Stripped, Wanted;
    DecisionsAreWanted(graphs, screened, o, browser, r);
    MetIsInReach(graphs, screened, o, browser, r, Wanted(graphs, screened, o, browser), i);
    IsSettled(graphs, screened, o, browser, r);
  }

  /** A strip, or any other entry, stays in play exactly when it is met with every entry decided. */
  lemma StripsInPlay(graphs: seq<Graph>, screened: set<string>, o: Options, browser: Browser, r: Report,
      wanted: Decisions, i: string)
    requires forall g <- graphs :: Listed(g)
    requires Faithful(graphs, screened, o, browser, r) && o.outcomePrune && Extends(r.decisions, wanted)
    ensures Met(graphs, Policy(Surviving, r.decisions), i) <==> Met(graphs, Policy(Frontier, wanted), i)
  {
    hide Faithful;
    IsSettled(graphs, screened, o, browser, r);
    MetIsInReach(graphs, screened, o, browser, r, wanted, i);
    if Met(graphs, Policy(Surviving, r.decisions), i) {
      SurvivingIsMet(graphs, r.decisions, i);
    }
    if Met(graphs, Policy(Frontier, r.decisions), i) {
      FrontierIsSurviving(graphs, r.decisions, i);
    }
  }

  function TwoRows(a: string, b: string): Graph {
    Graph([0, 1], map[0 := Row(Move, 1, [1], a), 1 := Row(Move, 2, [], b)], [0])
  }

  lemma TwoRowsAreClear(a: string, b: string)
    requires a != b
    ensures Listed(TwoRows(a, b)) && Entries([TwoRows(a, b)]) == {a, b} && OneAction([TwoRows(a, b)])
    ensures ActionOf([TwoRows(a, b)], a) == 1 && ActionOf([TwoRows(a, b)], b) == 2
  {
    var g := TwoRows(a, b);
    assert g in [g] && 0 in g.rows && 1 in g.rows;
    assert g.rows[0].Asks() == Question(a, 1) && g.rows[1].Asks() == Question(b, 2);
    assert Carries([g], Question(a, 1)) && Carries([g], Question(b, 2));
    assert forall q | Carries([g], q) :: q == Question(a, 1) || q == Question(b, 2);
    hide Carries;
    assert OneAction([g]);
    TheAction([g], Question(a, 1));
    TheAction([g], Question(b, 2));
  }

  /** So a strip behind a prune is orphaned: a root that does not earn its place leads to a screened entry that
      production reproduces, and every report strips that entry, prunes the root and leaves nothing leading to it. */
  lemma StripCanBeOrphaned(a: string, b: string, o: Options, browser: Browser, r: Report)
    requires a != b && o.outcomePrune && browser.agrees(Question(b, 2))
    requires !EarnsItsPlace(browser.outcome(Question(a, 1)), o.powerDrop)
    requires Listed(TwoRows(a, b)) && Faithful([TwoRows(a, b)], {b}, o, browser, r)
    ensures r.decisions == map[a := Prune, b := Strip] && r.kept == []
    ensures Met([TwoRows(a, b)], Policy(Certified, map[]), b)
    ensures !Met([TwoRows(a, b)], Policy(Surviving, r.decisions), b)
  {
    hide Faithful, ActionOf, OneAction, Met, Stripped, Remains;
    var graphs := [TwoRows(a, b)];
    TwoRowsAreClear(a, b);
    ReportIsDetermined(graphs, {b}, o, browser, r);
    TwoRowsAreMet(a, b);
    OnlyTheTail(a, b, o, browser);
    OnlyTheHead(a, b, o, browser);
    StripsInPlay(graphs, {b}, o, browser, r, Wanted(graphs, {b}, o, browser), b);
    TwoDecisions(a, b, o, browser, r);
    if r.kept != [] {
      var i := r.kept[0];
      assert i in r.kept && Remains(graphs, {b}, o, browser, i);
      NotKept(a, b, o, browser, i);
    }
  }

  lemma TwoRowsAreMet(a: string, b: string)
    ensures Met([TwoRows(a, b)], Policy(Certified, map[]), b)
  {
    hide Reachable;
    var g, p := TwoRows(a, b), Policy(Certified, map[]);
    RootReachable(g, p, 0);
    assert Link(g, p, 0, 1);
    LinkReachable(g, p, 0, 1);
    assert g in [g] && 1 in g.rows && g.rows[1].identity == b;
    assert MetIn(g, p, b);
  }

  lemma OnlyTheTail(a: string, b: string, o: Options, browser: Browser)
    requires a != b && browser.agrees(Question(b, 2))
    requires forall i <- Candidates([TwoRows(a, b)], {b}) ::
      Posing([TwoRows(a, b)], i) == Question(i, ActionOf([TwoRows(a, b)], i))
    ensures Stripped([TwoRows(a, b)], {b}, browser) == {b}
  {
    hide Met, ActionOf, Posing;
    TwoRowsAreClear(a, b);
    TwoRowsAreMet(a, b);
    assert Candidates([TwoRows(a, b)], {b}) == {b};
  }

  lemma OnlyTheHead(a: string, b: string, o: Options, browser: Browser)
    requires a != b && !EarnsItsPlace(browser.outcome(Question(a, 1)), o.powerDrop)
    requires Stripped([TwoRows(a, b)], {b}, browser) == {b}
    ensures Wanted([TwoRows(a, b)], {b}, o, browser) == map[a := Prune, b := Strip]
    ensures InReach([TwoRows(a, b)], {b}, o, browser, a) && !InReach([TwoRows(a, b)], {b}, o, browser, b)
    ensures forall i | InReach([TwoRows(a, b)], {b}, o, browser, i) :: i == a
  {
    hide Reachable, ActionOf, Stripped;
    var g := TwoRows(a, b);
    TwoRowsAreClear(a, b);
    var p := Policy(Frontier, Wanted([g], {b}, o, browser));
    RootReachable(g, p, 0);
    assert g in [g] && 0 in g.rows && g.rows[0].identity == a;
    assert MetIn(g, p, a);
    OnlyTheRoot(g, p);
  }

  lemma TwoDecisions(a: string, b: string, o: Options, browser: Browser, r: Report)
    requires Extends(r.decisions, map[a := Prune, b := Strip]) && a in r.decisions && b in r.decisions
    ensures r.decisions == map[a := Prune, b := Strip]
  {
  }

  lemma NotKept(a: string, b: string, o: Options, browser: Browser, i: string)
    requires a != b && !EarnsItsPlace(browser.outcome(Question(a, 1)), o.powerDrop)
    requires forall i | InReach([TwoRows(a, b)], {b}, o, browser, i) :: i == a
    ensures !Remains([TwoRows(a, b)], {b}, o, browser, i)
  {
    hide InReach, ActionOf, Stripped;
    TwoRowsAreClear(a, b);
  }

  /** And there is such a report: the tool makes it. */
  method OrphanedStrip(a: string, b: string, powerDrop: real, browser: Browser) returns (r: Result<Report>)
    requires a != b && Answers(browser) && browser.agrees(Question(b, 2))
    requires !EarnsItsPlace(browser.outcome(Question(a, 1)), powerDrop)
    ensures r.Ok? && r.value.decisions == map[a := Prune, b := Strip] && r.value.kept == []
    ensures Met([TwoRows(a, b)], Policy(Certified, map[]), b)
    ensures !Met([TwoRows(a, b)], Policy(Surviving, r.value.decisions), b)
  {
    hide Faithful, Met;
    var o := Options(true, powerDrop, 8, 4);
    TwoRowsAreClear(a, b);
    assert Healthy([TwoRows(a, b)], o, browser, 0);
    r := Residual([TwoRows(a, b)], {b}, o, browser, 0);
    StripCanBeOrphaned(a, b, o, browser, r.value);
  }

  /** Decide one corpus and list what the playbook may omit. */
  method Residual(graphs: seq<Graph>, screened: set<string>, o: Options, browser: Browser, start: nat)
    returns (r: Result<Report>)
    requires 0 < o.batch && forall g <- graphs :: Listed(g)
    ensures Healthy(graphs, o, browser, start) ==> r.Ok?
    ensures r.Ok? ==> Faithful(graphs, screened, o, browser, r.value)
    ensures r.Ok? && o.outcomePrune && OneAction(graphs) ==>
      forall i :: i in r.value.kept <==> Remains(graphs, screened, o, browser, i)
  {
    hide Faithful, Healthy, OneAction, Remains;
    r := DecideAndList(graphs, screened, o, browser, start);
    if r.Ok? && o.outcomePrune && OneAction(graphs) {
      ReportIsDetermined(graphs, screened, o, browser, r.value);
    }
  }

  method DecideAndList(graphs: seq<Graph>, screened: set<string>, o: Options, browser: Browser, start: nat)
    returns (r: Result<Report>)
    requires 0 < o.batch && forall g <- graphs :: Listed(g)
    ensures Healthy(graphs, o, browser, start) ==> r.Ok?
    ensures r.Ok? ==> Faithful(graphs, screened, o, browser, r.value)
  {
    hide *;
    var strips := Strips(graphs, screened, o, browser, start);
    if strips.Failed? { return Failed(strips.error); }
    var (verified, evaluations) := strips.value;
    CandidatesFit(graphs, screened);
    var decided := Decide(graphs, screened, verified, o, browser, start, evaluations);
    if decided.Failed? { return Failed(decided.error); }
    var p := decided.value.0;
    var kept, _ := Collect(graphs, Policy(Surviving, p.decisions));
    var omitted := Omit(graphs, set i | i in kept);
    r := Ok(Report(p.decisions, kept, omitted, p.winSaves, p.priority, decided.value.1));
    ReportIsFaithful(graphs, screened, o, browser, p, r.value);
  }

  lemma CandidatesFit(graphs: seq<Graph>, screened: set<string>)
    ensures |Candidates(graphs, screened)| <= |Entries(graphs)|
  {
    hide Met;
    SmallerSubset(Candidates(graphs, screened), Entries(graphs));
  }

  lemma ReportIsFaithful(graphs: seq<Graph>, screened: set<string>, o: Options, browser: Browser, p: Progress,
      r: Report)
    requires forall g <- graphs :: Listed(g)
    requires var end := Final(graphs, screened, o, browser);
      p.decisions == end.decisions && Consistent(graphs, p, end.asked, o, browser)
    requires forall i :: (i in p.decisions && p.decisions[i] == Strip) <==> i in Stripped(graphs, screened, browser)
    requires o.outcomePrune ==> Settled(graphs, p.decisions)
    requires Survivors(graphs, Stripped(graphs, screened, browser), o, p.decisions)
    requires r.decisions == p.decisions && r.winSaves == p.winSaves && r.priority == p.priority
    requires forall i :: i in r.kept <==>
      Met(graphs, Policy(Surviving, p.decisions), i) && CollectsEntry(Policy(Surviving, p.decisions), i)
    requires forall i, j | 0 <= i < j < |r.kept| :: r.kept[i] != r.kept[j]
    requires Omits(Flat(graphs), (set i | i in r.kept), r.omitted)
    requires r.evaluations
      == |Candidates(graphs, screened)| + |p.decisions| - |Stripped(graphs, screened, browser)|
    ensures Faithful(graphs, screened, o, browser, r)
  {
    hide Met, Settled, SideLists, Omits, Stripped, Final, Candidates, CollectsEntry;
    forall i <- r.kept ensures i in Entries(graphs) {
      MetIsEntry(graphs, Policy(Surviving, p.decisions), i);
    }
  }
}
