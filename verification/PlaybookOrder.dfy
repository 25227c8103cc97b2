/** What the order of a corpus's files decides in the residual pruner (tools/go-playbook-residual.ts). The maps of
    entries to ask about are keyed by state alone, so of several rows of one state the one met last is asked. */
module PlaybookOrder {
  import opened CertificateGraph
  import opened Collections
  import opened PlaybookResidual

  ghost predicate Reordered(graphs: seq<Graph>, other: seq<Graph>) {
    multiset(graphs) == multiset(other)
  }

  lemma SameFiles(graphs: seq<Graph>, other: seq<Graph>)
    requires Reordered(graphs, other)
    ensures forall g :: g in graphs <==> g in other
  {
    forall g ensures g in graphs <==> g in other {
      assert g in graphs <==> g in multiset(graphs);
      assert g in other <==> g in multiset(other);
    }
  }

  lemma SameMet(graphs: seq<Graph>, other: seq<Graph>, p: Policy, i: string)
    requires Reordered(graphs, other)
    ensures Met(graphs, p, i) <==> Met(other, p, i)
  {
    hide MetIn;
    SameFiles(graphs, other);
  }

  lemma SameEntries(graphs: seq<Graph>, other: seq<Graph>)
    requires Reordered(graphs, other)
    ensures Entries(graphs) == Entries(other)
  {
    SameFiles(graphs, other);
  }

  lemma SameFrontier(graphs: seq<Graph>, other: seq<Graph>, d: Decisions)
    requires Reordered(graphs, other)
    ensures FrontierOf(graphs, d) == FrontierOf(other, d)
  {
    hide Met;
    SameEntries(graphs, other);
    forall i ensures Met(graphs, Policy(Frontier, d), i) <==> Met(other, Policy(Frontier, d), i) {
      SameMet(graphs, other, Policy(Frontier, d), i);
    }
  }

  lemma SameCandidates(graphs: seq<Graph>, other: seq<Graph>, screened: set<string>)
    requires Reordered(graphs, other)
    ensures Candidates(graphs, screened) == Candidates(other, screened)
  {
    hide Met;
    SameEntries(graphs, other);
    forall i ensures Met(graphs, Policy(Certified, map[]), i) <==> Met(other, Policy(Certified, map[]), i) {
      SameMet(graphs, other, Policy(Certified, map[]), i);
    }
  }

  // ---------- whose action is asked ----------

  /** The question one file alone would pose: the action of the state's row it meets last. */
  ghost function Own(g: Graph, p: Policy, i: string): Question {
    Question(i, Latest(Questions(g, p), i))
  }

  /** The question all files pose together. */
  ghost function Joint(graphs: seq<Graph>, p: Policy, i: string): Question {
    Question(i, Latest(AllQuestions(graphs, p), i))
  }

  /** It is that of some file that meets the state. */
  lemma {:induction false} JointIsSomeOwn(graphs: seq<Graph>, p: Policy, i: string)
    requires Met(graphs, p, i) && CollectsEntry(p, i)
    ensures exists g <- graphs :: MetIn(g, p, i) && Own(g, p, i) == Joint(graphs, p, i)
  {
    hide MetIn, CollectsEntry, Latest, Questions;
    var rest, last := graphs[..|graphs| - 1], graphs[|graphs| - 1];
    assert graphs == rest + [last];
    LatestOfBoth(AllQuestions(rest, p), Questions(last, p), i);
    QuestionsAreMet(last, p, i);
    if MetIn(last, p, i) {
      assert last in graphs;
    } else {
      JointIsSomeOwn(rest, p, i);
      var g :| g in rest && MetIn(g, p, i) && Own(g, p, i) == Joint(rest, p, i);
      assert g in graphs;
    }
  }

  /** Put last, a file that meets the state has its way. */
  lemma LastFileAsks(rest: seq<Graph>, last: Graph, p: Policy, i: string)
    requires MetIn(last, p, i) && CollectsEntry(p, i)
    ensures Joint(rest + [last], p, i) == Own(last, p, i)
  {
    hide MetIn, CollectsEntry, Latest, Questions;
    var graphs := rest + [last];
    assert graphs[..|graphs| - 1] == rest;
    LatestOfBoth(AllQuestions(rest, p), Questions(last, p), i);
    QuestionsAreMet(last, p, i);
  }

  lemma PutLast(graphs: seq<Graph>, g: Graph) returns (rest: seq<Graph>)
    requires g in graphs
    ensures Reordered(graphs, rest + [g])
  {
    var k :| 0 <= k < |graphs| && graphs[k] == g;
    rest := graphs[..k] + graphs[k + 1..];
    assert graphs == graphs[..k] + [g] + graphs[k + 1..];
  }

  // ---------- when all orders decide alike ----------

  /** Every file that meets a candidate poses a question with the same answer. */
  ghost predicate StripsAgree(graphs: seq<Graph>, screened: set<string>, browser: Browser) {
    forall i, g, h | i in Candidates(graphs, screened) && g in graphs && h in graphs
      && MetIn(g, Policy(Certified, map[]), i) && MetIn(h, Policy(Certified, map[]), i) ::
      browser.agrees(Own(g, Policy(Certified, map[]), i)) == browser.agrees(Own(h, Policy(Certified, map[]), i))
  }

  /** Every file that meets an entry of this round's frontier poses a question judged alike. */
  ghost predicate RoundAgrees(graphs: seq<Graph>, d: Decisions, o: Options, browser: Browser) {
    forall i, g, h | i in FrontierOf(graphs, d) && g in graphs && h in graphs
      && MetIn(g, Policy(Frontier, d), i) && MetIn(h, Policy(Frontier, d), i) ::
      Judged(Own(g, Policy(Frontier, d), i), o, browser) == Judged(Own(h, Policy(Frontier, d), i), o, browser)
  }

  ghost predicate RoundsAgree(graphs: seq<Graph>, s: Stage, o: Options, browser: Browser)
    decreases Entries(graphs) - s.decisions.Keys
  {
    if FrontierOf(graphs, s.decisions) == {} then true
    else
      RoundDecides(graphs, s, o, browser);
      RoundAgrees(graphs, s.decisions, o, browser) && RoundsAgree(graphs, RoundOf(graphs, s, o, browser), o, browser)
  }

  /** No file would have an entry decided otherwise than the others: a candidate in the verification, any other entry
      in the round that meets it. */
  ghost predicate Unanimous(graphs: seq<Graph>, screened: set<string>, o: Options, browser: Browser) {
    && StripsAgree(graphs, screened, browser)
    && (o.outcomePrune ==> RoundsAgree(graphs, Strip0(graphs, screened, browser), o, browser))
  }

  lemma SameStripped(graphs: seq<Graph>, other: seq<Graph>, screened: set<string>, browser: Browser)
    requires Reordered(graphs, other) && StripsAgree(graphs, screened, browser)
    ensures Stripped(graphs, screened, browser) == Stripped(other, screened, browser)
  {
    hide MetIn, Own, Joint, Reordered, Latest;
    var p := Policy(Certified, map[]);
    SameCandidates(graphs, other, screened);
    SameFiles(graphs, other);
    forall i <- Candidates(graphs, screened)
      ensures browser.agrees(Posing(graphs, i)) == browser.agrees(Posing(other, i))
    {
      SameMet(graphs, other, p, i);
      JointIsSomeOwn(graphs, p, i);
      JointIsSomeOwn(other, p, i);
      PosingIsJoint(graphs, i);
      PosingIsJoint(other, i);
    }
  }

  lemma PosingIsJoint(graphs: seq<Graph>, i: string)
    ensures Posing(graphs, i) == Joint(graphs, Policy(Certified, map[]), i)
  {
  }

  /** What a round decides. */
  lemma RoundOn(graphs: seq<Graph>, s: Stage, o: Options, browser: Browser)
    ensures var after := RoundOf(graphs, s, o, browser).decisions;
      && after.Keys == s.decisions.Keys + FrontierOf(graphs, s.decisions)
      && (forall i <- s.decisions :: after[i] == s.decisions[i])
      && forall i <- FrontierOf(graphs, s.decisions) ::
        after[i] == Judged(Joint(graphs, Policy(Frontier, s.decisions), i), o, browser)
  {
    hide Judged, Latest, AllQuestions, Met;
    RoundDecides(graphs, s, o, browser);
  }

  /** One round with the same decisions before it. */
  lemma SameRound(graphs: seq<Graph>, other: seq<Graph>, s: Stage, t: Stage, o: Options, browser: Browser)
    requires Reordered(graphs, other) && s.decisions == t.decisions && RoundAgrees(graphs, s.decisions, o, browser)
    ensures RoundOf(graphs, s, o, browser).decisions == RoundOf(other, t, o, browser).decisions
  {
    hide MetIn, Own, Joint, Reordered, Judged, RoundOf;
    var d := s.decisions;
    var p := Policy(Frontier, d);
    SameFrontier(graphs, other, d);
    SameFiles(graphs, other);
    RoundOn(graphs, s, o, browser);
    RoundOn(other, t, o, browser);
    forall i <- FrontierOf(graphs, d)
      ensures Judged(Joint(graphs, p, i), o, browser) == Judged(Joint(other, p, i), o, browser)
    {
      SameMet(graphs, other, p, i);
      JointIsSomeOwn(graphs, p, i);
      JointIsSomeOwn(other, p, i);
    }
  }

  lemma {:induction false} SameSettled(graphs: seq<Graph>, other: seq<Graph>, s: Stage, t: Stage, o: Options,
      browser: Browser)
    requires Reordered(graphs, other) && s.decisions == t.decisions && RoundsAgree(graphs, s, o, browser)
    ensures Settle(graphs, s, o, browser).decisions == Settle(other, t, o, browser).decisions
    decreases Entries(graphs) - s.decisions.Keys
  {
    hide Reordered, FrontierOf, RoundAgrees, RoundOf;
    SameFrontier(graphs, other, s.decisions);
    if FrontierOf(graphs, s.decisions) != {} {
      RoundDecides(graphs, s, o, browser);
      SameRound(graphs, other, s, t, o, browser);
      SameSettled(graphs, other, RoundOf(graphs, s, o, browser), RoundOf(other, t, o, browser), o, browser);
    }
  }

  lemma OrderDoesNotMatter(graphs: seq<Graph>, other: seq<Graph>, screened: set<string>, o: Options, browser: Browser)
    requires Reordered(graphs, other) && Unanimous(graphs, screened, o, browser)
    ensures Final(graphs, screened, o, browser).decisions == Final(other, screened, o, browser).decisions
  {
    hide Reordered, StripsAgree, RoundsAgree, Settle, Stripped;
    SameStripped(graphs, other, screened, browser);
    var s, t := Strip0(graphs, screened, browser), Strip0(other, screened, browser);
    if o.outcomePrune { SameSettled(graphs, other, s, t, o, browser); }
  }

  // ---------- and when not ----------

  /** Rounds change no decision that is made. */
  lemma {:induction false} SettleExtends(graphs: seq<Graph>, s: Stage, o: Options, browser: Browser)
    ensures Extends(s.decisions, Settle(graphs, s, o, browser).decisions)
    ensures forall i <- Settle(graphs, s, o, browser).decisions | i !in s.decisions ::
      Settle(graphs, s, o, browser).decisions[i] != Strip
    decreases Entries(graphs) - s.decisions.Keys
  {
    hide FrontierOf, RoundOf, Joint;
    if FrontierOf(graphs, s.decisions) != {} {
      RoundDecides(graphs, s, o, browser);
      RoundOn(graphs, s, o, browser);
      SettleExtends(graphs, RoundOf(graphs, s, o, browser), o, browser);
    }
  }

  /** The final strips are the verified ones. */
  lemma FinalStrips(graphs: seq<Graph>, screened: set<string>, o: Options, browser: Browser, i: string)
    ensures i in Stripped(graphs, screened, browser) <==>
      (i in Final(graphs, screened, o, browser).decisions && Final(graphs, screened, o, browser).decisions[i] == Strip)
  {
    hide Settle, Stripped;
    SettleExtends(graphs, Strip0(graphs, screened, browser), o, browser);
  }

  /** An order in which a candidate is stripped exactly when it is not in this one. */
  lemma StripsDisagree(graphs: seq<Graph>, screened: set<string>, browser: Browser)
    returns (other: seq<Graph>, i: string)
    requires !StripsAgree(graphs, screened, browser)
    ensures Reordered(graphs, other)
    ensures i in Stripped(graphs, screened, browser) <==> i !in Stripped(other, screened, browser)
  {
    hide MetIn, Own, Joint, Reordered, Met, Posing;
    var p := Policy(Certified, map[]);
    var g, h;
    i, g, h :| i in Candidates(graphs, screened) && g in graphs && h in graphs && MetIn(g, p, i) && MetIn(h, p, i)
      && browser.agrees(Own(g, p, i)) != browser.agrees(Own(h, p, i));
    var x := if browser.agrees(Own(g, p, i)) != browser.agrees(Posing(graphs, i)) then g else h;
    var rest := PutLast(graphs, x);
    other := rest + [x];
    LastFileAsks(rest, x, p, i);
    PosingIsJoint(other, i);
    SameCandidates(graphs, other, screened);
  }

  /** An order in which this round judges some entry otherwise. */
  lemma RoundDisagrees(graphs: seq<Graph>, s: Stage, o: Options, browser: Browser)
    returns (other: seq<Graph>, i: string)
    requires !RoundAgrees(graphs, s.decisions, o, browser)
    ensures Reordered(graphs, other) && i in FrontierOf(graphs, s.decisions) && i in FrontierOf(other, s.decisions)
    ensures Judged(Joint(graphs, Policy(Frontier, s.decisions), i), o, browser)
      != Judged(Joint(other, Policy(Frontier, s.decisions), i), o, browser)
  {
    hide MetIn, Own, Joint, Reordered, Met, Judged;
    var d := s.decisions;
    var p := Policy(Frontier, d);
    var g, h;
    i, g, h :| i in FrontierOf(graphs, d) && g in graphs && h in graphs && MetIn(g, p, i) && MetIn(h, p, i)
      && Judged(Own(g, p, i), o, browser) != Judged(Own(h, p, i), o, browser);
    var x := if Judged(Own(g, p, i), o, browser) != Judged(Joint(graphs, p, i), o, browser) then g else h;
    var rest := PutLast(graphs, x);
    other := rest + [x];
    LastFileAsks(rest, x, p, i);
    SameFrontier(graphs, other, d);
  }

  /** The first round whose files disagree is decided otherwise in another order, whatever was asked before. */
  lemma {:induction false} RoundsDisagree(graphs: seq<Graph>, s: Stage, o: Options, browser: Browser)
    returns (other: seq<Graph>)
    requires !RoundsAgree(graphs, s, o, browser)
    ensures Reordered(graphs, other)
    ensures forall t: Stage | t.decisions == s.decisions ::
      Settle(other, t, o, browser).decisions != Settle(graphs, s, o, browser).decisions
    decreases Entries(graphs) - s.decisions.Keys
  {
    hide Reordered, FrontierOf, RoundAgrees, RoundOf, Settle;
    RoundDecides(graphs, s, o, browser);
    if RoundAgrees(graphs, s.decisions, o, browser) {
      other := RoundsDisagree(graphs, RoundOf(graphs, s, o, browser), o, browser);
      forall t: Stage | t.decisions == s.decisions
        ensures Settle(other, t, o, browser).decisions != Settle(graphs, s, o, browser).decisions
      {
        SameRound(graphs, other, s, t, o, browser);
        SameFrontier(graphs, other, s.decisions);
        OneMoreRound(graphs, s, o, browser);
        OneMoreRound(other, t, o, browser);
      }
    } else {
      var i;
      other, i := RoundDisagrees(graphs, s, o, browser);
      forall t: Stage | t.decisions == s.decisions
        ensures Settle(other, t, o, browser).decisions != Settle(graphs, s, o, browser).decisions
      {
        JudgedAtOnce(graphs, s, o, browser, i);
        JudgedAtOnce(other, t, o, browser, i);
      }
    }
  }

  lemma OneMoreRound(graphs: seq<Graph>, s: Stage, o: Options, browser: Browser)
    requires FrontierOf(graphs, s.decisions) != {}
    ensures Settle(graphs, s, o, browser) == Settle(graphs, RoundOf(graphs, s, o, browser), o, browser)
  {
    hide FrontierOf, RoundOf;
  }

  lemma JudgedAtOnce(graphs: seq<Graph>, s: Stage, o: Options, browser: Browser, i: string)
    requires i in FrontierOf(graphs, s.decisions)
    ensures i in Settle(graphs, s, o, browser).decisions
    ensures Settle(graphs, s, o, browser).decisions[i]
      == Judged(Joint(graphs, Policy(Frontier, s.decisions), i), o, browser)
  {
    hide FrontierOf, RoundOf, Settle, Judged, Joint;
    OneMoreRound(graphs, s, o, browser);
    RoundOn(graphs, s, o, browser);
    SettleExtends(graphs, RoundOf(graphs, s, o, browser), o, browser);
  }

  lemma OrderMatters(graphs: seq<Graph>, screened: set<string>, o: Options, browser: Browser)
    returns (other: seq<Graph>)
    requires !Unanimous(graphs, screened, o, browser)
    ensures Reordered(graphs, other)
    ensures Final(graphs, screened, o, browser).decisions != Final(other, screened, o, browser).decisions
  {
    hide Reordered, StripsAgree, RoundsAgree, Stripped, Settle;
    if !StripsAgree(graphs, screened, browser) {
      var i;
      other, i := StripsDisagree(graphs, screened, browser);
      FinalStrips(graphs, screened, o, browser, i);
      FinalStrips(other, screened, o, browser, i);
    } else {
      other := RoundsDisagree(graphs, Strip0(graphs, screened, browser), o, browser);
      SameStripped(graphs, other, screened, browser);
      assert Strip0(other, screened, browser).decisions == Strip0(graphs, screened, browser).decisions;
    }
  }

  /** The decisions are the same in every order of the files exactly when no file would have an entry decided
      otherwise than the others. */
  lemma OrderMattersExactly(graphs: seq<Graph>, screened: set<string>, o: Options, browser: Browser)
    ensures (forall other | Reordered(graphs, other) ::
        Final(other, screened, o, browser).decisions == Final(graphs, screened, o, browser).decisions)
      <==> Unanimous(graphs, screened, o, browser)
  {
    hide Final, Unanimous, Reordered;
    if Unanimous(graphs, screened, o, browser) {
      forall other | Reordered(graphs, other)
        ensures Final(other, screened, o, browser).decisions == Final(graphs, screened, o, browser).decisions
      {
        OrderDoesNotMatter(graphs, other, screened, o, browser);
      }
    } else {
      var other := OrderMatters(graphs, screened, o, browser);
    }
  }

  // ---------- one action a state ----------

  /** One file's question is asked by one of its rows. */
  lemma OwnIsCarried(graphs: seq<Graph>, g: Graph, p: Policy, i: string)
    requires g in graphs && MetIn(g, p, i) && CollectsEntry(p, i)
    ensures Carries(graphs, Own(g, p, i))
  {
    hide MetIn, CollectsEntry, Latest, Carries;
    QuestionsAreMet(g, p, i);
    LatestIsPosed(Questions(g, p), i);
    FileQuestionIsCarried(graphs, g, p, Own(g, p, i));
  }

  lemma FileQuestionIsCarried(graphs: seq<Graph>, g: Graph, p: Policy, q: Question)
    requires g in graphs && q in Questions(g, p)
    ensures Carries(graphs, q)
  {
    hide Posed, Visits, Collects;
    PosedByRows(g, p, Visits(g, p, g.roots, {}), q);
    CollectedIsDecision(p);
  }

  /** Then every file poses the same question. */
  lemma OneQuestion(graphs: seq<Graph>, g: Graph, h: Graph, p: Policy, i: string)
    requires OneAction(graphs) && g in graphs && h in graphs && MetIn(g, p, i) && MetIn(h, p, i) && CollectsEntry(p, i)
    ensures Own(g, p, i) == Own(h, p, i)
  {
    hide MetIn, CollectsEntry, Latest, Carries;
    OwnIsCarried(graphs, g, p, i);
    OwnIsCarried(graphs, h, p, i);
  }

  lemma {:induction false} OneActionRounds(graphs: seq<Graph>, s: Stage, o: Options, browser: Browser)
    requires OneAction(graphs)
    ensures RoundsAgree(graphs, s, o, browser)
    decreases Entries(graphs) - s.decisions.Keys
  {
    hide OneAction, MetIn, Own, Judged, RoundOf;
    if FrontierOf(graphs, s.decisions) != {} {
      RoundDecides(graphs, s, o, browser);
      var p := Policy(Frontier, s.decisions);
      forall i, g, h | i in FrontierOf(graphs, s.decisions) && g in graphs && h in graphs
        && MetIn(g, p, i) && MetIn(h, p, i)
        ensures Judged(Own(g, p, i), o, browser) == Judged(Own(h, p, i), o, browser)
      {
        OneQuestion(graphs, g, h, p, i);
      }
      OneActionRounds(graphs, RoundOf(graphs, s, o, browser), o, browser);
    }
  }

  /** When all rows of a state carry one action, the order of the files decides nothing. */
  lemma OneActionIsUnanimous(graphs: seq<Graph>, screened: set<string>, o: Options, browser: Browser)
    requires OneAction(graphs)
    ensures Unanimous(graphs, screened, o, browser)
  {
    hide OneAction, MetIn, Own, RoundsAgree, Strip0;
    var p := Policy(Certified, map[]);
    forall i, g, h | i in Candidates(graphs, screened) && g in graphs && h in graphs && MetIn(g, p, i) && MetIn(h, p, i)
      ensures browser.agrees(Own(g, p, i)) == browser.agrees(Own(h, p, i))
    {
      OneQuestion(graphs, g, h, p, i);
    }
    OneActionRounds(graphs, Strip0(graphs, screened, browser), o, browser);
  }

  lemma SameAction(graphs: seq<Graph>, other: seq<Graph>, i: string)
    requires Reordered(graphs, other) && OneAction(graphs)
    ensures OneAction(other) && ActionOf(graphs, i) == ActionOf(other, i)
  {
    hide Reordered;
    SameFiles(graphs, other);
    SameEntries(graphs, other);
    forall q ensures Carries(graphs, q) <==> Carries(other, q) {}
    hide Carries;
    if i in Entries(graphs) {
      EntryIsCarried(graphs, i);
      var q :| Carries(graphs, q) && q.identity == i;
      TheAction(graphs, q);
      TheAction(other, q);
    }
  }

  // ---------- what the omitted list names ----------

  lemma {:induction false} FlatIsCarried(graphs: seq<Graph>, row: Row)
    requires forall g <- graphs :: Listed(g)
    requires row in Flat(graphs) && row.IsDecision()
    ensures Carries(graphs, row.Asks())
  {
    var rest, last := graphs[..|graphs| - 1], graphs[|graphs| - 1];
    assert graphs == rest + [last];
    if row in RowsOf(last, |last.order|) {
      var k :| 0 <= k < |last.order| && last.rows[last.order[k]] == row;
      assert last in graphs;
    } else {
      FlatIsCarried(rest, row);
      var g: Graph, id: int :| g in rest && id in g.rows && g.rows[id].IsDecision() && g.rows[id].Asks() == row.Asks();
      assert g in graphs;
    }
  }

  lemma {:induction false} EntryInFlat(graphs: seq<Graph>, i: string) returns (j: nat)
    requires (forall g <- graphs :: Listed(g)) && i in Entries(graphs)
    ensures j < |Flat(graphs)| && Flat(graphs)[j].IsDecision() && Flat(graphs)[j].identity == i
  {
    var rest, last := graphs[..|graphs| - 1], graphs[|graphs| - 1];
    assert graphs == rest + [last];
    if i in Entries(rest) {
      j := EntryInFlat(rest, i);
    } else {
      var g, id :| g in graphs && id in g.rows && g.rows[id].IsDecision() && g.rows[id].identity == i;
      assert g == last;
      var k :| 0 <= k < |last.order| && last.order[k] == id;
      j := |Flat(rest)| + k;
      assert Flat(graphs)[j] == RowsOf(last, |last.order|)[k];
    }
  }

  lemma FirstIsCarried(graphs: seq<Graph>, i: string, action: int)
    requires (forall g <- graphs :: Listed(g)) && FirstRow(Flat(graphs), i, action)
    ensures Carries(graphs, Question(i, action)) && i in Entries(graphs)
  {
    hide Flat, Carries;
    var rows := Flat(graphs);
    var j :| 0 <= j < |rows| && rows[j].IsDecision() && rows[j].identity == i && rows[j].action == action
      && forall k | 0 <= k < j :: !(rows[k].IsDecision() && rows[k].identity == i);
    FlatIsCarried(graphs, rows[j]);
    CarriedIsEntry(graphs, Question(i, action));
  }

  lemma CarriedIsEntry(graphs: seq<Graph>, q: Question)
    requires Carries(graphs, q)
    ensures q.identity in Entries(graphs)
  {
  }

  lemma OneFirstRow(rows: seq<Row>, i: string, a: int, b: int)
    requires FirstRow(rows, i, a) && FirstRow(rows, i, b)
    ensures a == b
  {
  }

  /** The list names every entry that is not kept, with the action of its first row. */
  lemma OmittedIsTheRest(graphs: seq<Graph>, kept: set<string>, omitted: seq<(string, int)>, i: string, a: int)
    requires (forall g <- graphs :: Listed(g)) && Omits(Flat(graphs), kept, omitted)
    ensures (i, a) in omitted <==> i in Entries(graphs) && i !in kept && FirstRow(Flat(graphs), i, a)
  {
    hide Flat, FirstRow;
    if (i, a) in omitted {
      var k :| 0 <= k < |omitted| && omitted[k] == (i, a);
      assert FirstRow(Flat(graphs), omitted[k].0, omitted[k].1);
      FirstIsCarried(graphs, i, a);
    }
    if i in Entries(graphs) && i !in kept && FirstRow(Flat(graphs), i, a) {
      var j := EntryInFlat(graphs, i);
      assert Names(omitted, Flat(graphs)[j].identity);
      var k :| 0 <= k < |omitted| && omitted[k].0 == i;
      assert FirstRow(Flat(graphs), omitted[k].0, omitted[k].1);
      OneFirstRow(Flat(graphs), i, a, omitted[k].1);
    }
  }

  lemma SomeFirstRow(rows: seq<Row>, i: string, j: nat) returns (a: int)
    requires j < |rows| && rows[j].IsDecision() && rows[j].identity == i
    ensures FirstRow(rows, i, a)
  {
    var k := 0;
    while !(rows[k].IsDecision() && rows[k].identity == i)
      invariant 0 <= k <= j && forall n | 0 <= n < k :: !(rows[n].IsDecision() && rows[n].identity == i)
      decreases j - k
    {
      k := k + 1;
    }
    a := rows[k].action;
  }

  /** With one action a state, that is the action of every row. */
  lemma OmittedWithTheAction(graphs: seq<Graph>, kept: set<string>, omitted: seq<(string, int)>, i: string, a: int)
    requires (forall g <- graphs :: Listed(g)) && Omits(Flat(graphs), kept, omitted) && OneAction(graphs)
    ensures (i, a) in omitted <==> i in Entries(graphs) && i !in kept && a == ActionOf(graphs, i)
  {
    hide Flat, FirstRow, OneAction, Carries, Omits;
    OmittedIsTheRest(graphs, kept, omitted, i, a);
    if i in Entries(graphs) {
      var j := EntryInFlat(graphs, i);
      var b := SomeFirstRow(Flat(graphs), i, j);
      FirstIsCarried(graphs, i, b);
      TheAction(graphs, Question(i, b));
      if FirstRow(Flat(graphs), i, a) { OneFirstRow(Flat(graphs), i, a, b); }
    }
  }

  /** An omitted strip is listed with the action that was verified exactly when its first row carries that action. */
  lemma VerifiedWhenFirst(graphs: seq<Graph>, screened: set<string>, o: Options, browser: Browser, r: Report,
      i: string, a: int)
    requires (forall g <- graphs :: Listed(g)) && Faithful(graphs, screened, o, browser, r)
    requires (i, a) in r.omitted && i in Stripped(graphs, screened, browser)
    ensures Question(i, a) == Posing(graphs, i) <==> FirstRow(Flat(graphs), i, Posing(graphs, i).action)
    ensures Question(i, a) == Posing(graphs, i) ==> browser.agrees(Question(i, a))
  {
    hide Flat, FirstRow, Omits, Posing, Met, Final, Settled, SideLists;
    OmittedIsTheRest(graphs, (set j | j in r.kept), r.omitted, i, a);
    if FirstRow(Flat(graphs), i, Posing(graphs, i).action) {
      OneFirstRow(Flat(graphs), i, a, Posing(graphs, i).action);
      PosedAbout(graphs, i);
    }
  }

  lemma PosedAbout(graphs: seq<Graph>, i: string)
    ensures Posing(graphs, i).identity == i
  {
  }

  /** With one action a state every omitted line carries the action its decision was made on. */
  lemma OmittedIsDecided(graphs: seq<Graph>, screened: set<string>, o: Options, browser: Browser, r: Report,
      i: string, a: int)
    requires (forall g <- graphs :: Listed(g)) && Faithful(graphs, screened, o, browser, r) && OneAction(graphs)
    requires (i, a) in r.omitted
    ensures i in Stripped(graphs, screened, browser) ==> browser.agrees(Question(i, a))
    ensures i in r.decisions && r.decisions[i] == Prune ==> !EarnsItsPlace(browser.outcome(Question(i, a)), o.powerDrop)
  {
    hide Flat, FirstRow, Omits, Posing, Met, Settled, SideLists, OneAction, Carries, Candidates, Final;
    OmittedWithTheAction(graphs, (set j | j in r.kept), r.omitted, i, a);
    AskedByRows(graphs, screened, o, browser);
    if i in Stripped(graphs, screened, browser) {
      PosedTheAction(graphs, i);
    }
    if i in r.decisions && r.decisions[i] == Prune {
      TheAction(graphs, Question(i, Final(graphs, screened, o, browser).asked[i]));
    }
  }

  // ---------- reports of one corpus in two orders ----------

  lemma SameAsked(graphs: seq<Graph>, other: seq<Graph>, screened: set<string>, o: Options, browser: Browser, i: string)
    requires Reordered(graphs, other) && OneAction(graphs)
    requires i in Final(graphs, screened, o, browser).asked && i in Final(other, screened, o, browser).asked
    ensures Final(graphs, screened, o, browser).asked[i] == Final(other, screened, o, browser).asked[i]
  {
    hide Final, OneAction, Carries, Reordered, ActionOf;
    AskedByRows(graphs, screened, o, browser);
    AskedByRows(other, screened, o, browser);
    SameAction(graphs, other, i);
    TheAction(graphs, Question(i, Final(graphs, screened, o, browser).asked[i]));
    TheAction(other, Question(i, Final(other, screened, o, browser).asked[i]));
  }

  lemma SameSideLists(d: Decisions, a: map<string, int>, b: map<string, int>, r: Report, t: Report,
      outcome: Question -> Outcome)
    requires SideLists(d, a, r.winSaves, r.priority, outcome) && SideLists(d, b, t.winSaves, t.priority, outcome)
    requires forall i | i in a && i in b :: a[i] == b[i]
    ensures forall i :: i in r.winSaves <==> i in t.winSaves
    ensures forall i :: i in r.priority <==> i in t.priority
  {
  }

  /** With one action a state, two orders of the files give the same decisions, kept entries, omitted lines, side
      lists and number of evaluations. */
  lemma OrderIndependent(graphs: seq<Graph>, other: seq<Graph>, screened: set<string>, o: Options, browser: Browser,
      r: Report, t: Report)
    requires Reordered(graphs, other) && OneAction(graphs)
    requires (forall g <- graphs :: Listed(g)) && (forall g <- other :: Listed(g))
    requires Faithful(graphs, screened, o, browser, r) && Faithful(other, screened, o, browser, t)
    ensures r.decisions == t.decisions && r.evaluations == t.evaluations
    ensures forall i :: i in r.kept <==> i in t.kept
    ensures forall line :: line in r.omitted <==> line in t.omitted
    ensures forall i :: i in r.winSaves <==> i in t.winSaves
    ensures forall i :: i in r.priority <==> i in t.priority
  {
    hide Reordered, OneAction, Unanimous, Final, Omits, SideLists, Settled, Met, Candidates, Stripped;
    OneActionIsUnanimous(graphs, screened, o, browser);
    OrderDoesNotMatter(graphs, other, screened, o, browser);
    SameCandidates(graphs, other, screened);
    StripsAreSame(graphs, other, screened, o, browser);
    forall i ensures Met(graphs, Policy(Certified, map[]), i) <==> Met(other, Policy(Certified, map[]), i) {
      SameMet(graphs, other, Policy(Certified, map[]), i);
    }
    SameEntries(graphs, other);
    var kept := set i | i in r.kept;
    assert kept == set i | i in t.kept;
    forall line: (string, int) ensures line in r.omitted <==> line in t.omitted {
      SameAction(graphs, other, line.0);
      OmittedWithTheAction(graphs, kept, r.omitted, line.0, line.1);
      OmittedWithTheAction(other, kept, t.omitted, line.0, line.1);
    }
    var a, b := Final(graphs, screened, o, browser).asked, Final(other, screened, o, browser).asked;
    forall i | i in a && i in b ensures a[i] == b[i] {
      SameAsked(graphs, other, screened, o, browser, i);
    }
    SameSideLists(r.decisions, a, b, r, t, browser.outcome);
  }

  lemma StripsAreSame(graphs: seq<Graph>, other: seq<Graph>, screened: set<string>, o: Options, browser: Browser)
    requires Final(graphs, screened, o, browser).decisions == Final(other, screened, o, browser).decisions
    ensures Stripped(graphs, screened, browser) == Stripped(other, screened, browser)
  {
    hide Final, Stripped;
    forall i ensures i in Stripped(graphs, screened, browser) <==> i in Stripped(other, screened, browser) {
      FinalStrips(graphs, screened, o, browser, i);
      FinalStrips(other, screened, o, browser, i);
    }
  }

  // ---------- two files with two actions ----------

  function OneRow(i: string, action: int): Graph {
    Graph([0], map[0 := Row(Move, action, [], i)], [0])
  }

  /** Two one-row files about one state: the last one is asked, the first one is listed. */
  lemma LastOfTwo(i: string, x: int, y: int)
    ensures var files := [OneRow(i, x), OneRow(i, y)];
      && (forall g <- files :: Listed(g)) && Entries(files) == {i} && Candidates(files, {i}) == {i}
      && Met(files, Policy(Certified, map[]), i)
      && Posing(files, i) == Question(i, y) && FirstRow(Flat(files), i, x)
  {
    hide Reachable, Posed, Visits, Latest;
    var g, h, p := OneRow(i, x), OneRow(i, y), Policy(Certified, map[]);
    var files := [g, h];
    assert files == [g] + [h] && g in files && h in files;
    RootReachable(h, p, 0);
    assert 0 in h.rows && h.rows[0].identity == i;
    assert MetIn(h, p, i);
    LastFileAsks([g], h, p, i);
    PosingIsJoint(files, i);
    assert h in [h];
    OwnIsCarried([h], h, p, i);
    assert files[..1] == [g] && [g][..0] == [];
    assert Flat([g]) == [g.rows[0]] && Flat(files) == [g.rows[0], h.rows[0]];
    assert Flat(files)[0].IsDecision() && Flat(files)[0].Asks() == Question(i, x);
  }

  /** Production plays `x` and not `y`. With the file of `x` last the state is stripped, its row of `y` is followed
      as if reproduced, and the line listed is that of `y`; with the file of `y` last the entry is kept. */
  method TwoOrders(i: string, x: int, y: int, browser: Browser) returns (r: Result<Report>, t: Result<Report>)
    requires Answers(browser) && browser.agrees(Question(i, x)) && !browser.agrees(Question(i, y))
    ensures r.Ok? && r.value.decisions == map[i := Strip] && r.value.kept == [] && r.value.omitted == [(i, y)]
    ensures Follows(Policy(Surviving, r.value.decisions), OneRow(i, y).rows[0])
    ensures t.Ok? && t.value.decisions == map[] && t.value.kept == [i] && t.value.omitted == []
  {
    hide *;
    var o := Options(false, 0.0, 8, 4);
    LastOfTwo(i, y, x);
    LastOfTwo(i, x, y);
    TwoAreHealthy(i, y, x, o, browser);
    TwoAreHealthy(i, x, y, o, browser);
    r := Residual([OneRow(i, y), OneRow(i, x)], {i}, o, browser, 0);
    t := Residual([OneRow(i, x), OneRow(i, y)], {i}, o, browser, 0);
    ReportOfTwo(i, y, x, o, browser, r.value);
    ReportOfTwo(i, x, y, o, browser, t.value);
    StripIsFollowed(i, y);
  }

  lemma StripIsFollowed(i: string, y: int)
    ensures Follows(Policy(Surviving, map[i := Strip]), OneRow(i, y).rows[0])
  {
  }

  lemma TwoAreHealthy(i: string, x: int, y: int, o: Options, browser: Browser)
    requires Answers(browser) && o.maxEvaluations == 4
    ensures Healthy([OneRow(i, x), OneRow(i, y)], o, browser, 0)
  {
    hide Entries, Answers;
    LastOfTwo(i, x, y);
  }

  lemma ReportOfTwo(i: string, x: int, y: int, o: Options, browser: Browser, r: Report)
    requires !o.outcomePrune && (forall g <- [OneRow(i, x), OneRow(i, y)] :: Listed(g))
    requires Faithful([OneRow(i, x), OneRow(i, y)], {i}, o, browser, r)
    ensures browser.agrees(Question(i, y)) ==>
      r.decisions == map[i := Strip] && r.kept == [] && r.omitted == [(i, x)]
    ensures !browser.agrees(Question(i, y)) ==> r.decisions == map[] && r.kept == [i] && r.omitted == []
  {
    hide Flat, FirstRow, Posing, Met, SideLists, Settled, Candidates, Entries, OneRow, Listed;
    var files := [OneRow(i, x), OneRow(i, y)];
    LastOfTwo(i, x, y);
    assert Stripped(files, {i}, browser) == if browser.agrees(Question(i, y)) then {i} else {};
    var kept := set j | j in r.kept;
    if browser.agrees(Question(i, y)) {
      assert r.decisions == map[i := Strip];
      assert i !in r.kept;
      forall j ensures j !in r.kept {
        if j != i { assert j !in Entries(files); }
      }
      NoneIn(r.kept);
      OmittedIsTheRest(files, kept, r.omitted, i, x);
      ExactlyOneLine(files, r, i, x);
    } else {
      assert r.decisions == map[];
      JustOne(r.kept, i);
      forall line | line in r.omitted ensures false {
        OmittedIsTheRest(files, kept, r.omitted, line.0, line.1);
      }
      NoneIn(r.omitted);
    }
  }

  lemma NoneIn<T>(s: seq<T>)
    requires forall x :: x !in s
    ensures s == []
  {
    if s != [] { var x := Head(s); }
  }

  lemma Head<T>(s: seq<T>) returns (x: T)
    requires s != []
    ensures x in s
  {
    x := s[0];
  }

  lemma JustOne(kept: seq<string>, i: string)
    requires i in kept && forall j <- kept :: j == i
    requires forall a, b | 0 <= a < b < |kept| :: kept[a] != kept[b]
    ensures kept == [i]
  {
    DistinctCount(kept);
    assert (set j | j in kept) == {i};
  }

  lemma ExactlyOneLine(files: seq<Graph>, r: Report, i: string, x: int)
    requires (forall g <- files :: Listed(g)) && Entries(files) == {i} && (i, x) in r.omitted
    requires Omits(Flat(files), (set j | j in r.kept), r.omitted)
    ensures r.omitted == [(i, x)]
  {
    hide Flat, FirstRow, Entries;
    forall line <- r.omitted ensures line.0 == i {
      OmittedIsTheRest(files, (set j | j in r.kept), r.omitted, line.0, line.1);
    }
    var names := seq(|r.omitted|, k requires 0 <= k < |r.omitted| => r.omitted[k].0);
    assert names[0] == i;
    JustOne(names, i);
  }
}
