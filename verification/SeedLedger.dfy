/** The audit trail of arena seed use (tools/go-arena-seed-ledger.ts). */
module SeedLedger {
  import opened Collections
  import opened GoOpponents
  import opened GoSeeds
  import opened Wrappers

  /** The fields of a recorded use that freshness reads. */
  datatype Use = Use(
    id: string, profile: Profile, gamesPerOpponent: int, seed: int, handicapSeed: int, defenseSeed: int)

  datatype Stream = Playtime | Handicap | Defense

  datatype Conflict = Conflict(priorUseId: string, opponent: Opponent, stream: Stream, value: int)

  function Corpora(use: Use): (corpora: seq<Corpus>)
    ensures |corpora| == |Opponents(use.profile)|
  {
    SeedCases(use.profile, use.gamesPerOpponent, use.seed, use.handicapSeed, use.defenseSeed)
  }

  function ValueOf(c: Case, stream: Stream): int {
    match stream case Playtime => c.seed case Handicap => c.handicapSeed case Defense => c.defenseSeed
  }

  function Values(cases: seq<Case>, stream: Stream): seq<int> {
    seq(|cases|, i requires 0 <= i < |cases| => ValueOf(cases[i], stream))
  }

  // ---------- overlap of two lists ----------

  function Find(values: seq<int>, wanted: set<int>): (r: Option<int>)
    ensures r.None? ==> forall v <- values :: v !in wanted
    ensures r.Some? ==> r.value in values && r.value in wanted
  {
    if values == [] then None
    else
      assert values == [values[0]] + values[1..];
      if values[0] in wanted then (assert values[0] in values; Some(values[0]))
      else Find(values[1..], wanted)
  }

  lemma OverlapDecides(left: seq<int>, right: seq<int>, r: Option<int>)
    requires r.Some? ==> r.value in left && r.value in right
    requires r.None? ==> (forall v <- left :: v !in right) || (forall v <- right :: v !in left)
    ensures r.Some? <==> Meet(left, right)
  {
    if Meet(left, right) {
      var v :| v in left && v in right;
    } else if r.Some? {
      SharedValue(left, right, r.value);
    }
  }

  lemma SharedValue(left: seq<int>, right: seq<int>, v: int)
    requires v in left && v in right
    ensures Meet(left, right)
  {
  }

  /** A value both lists hold, if there is one: the first such value of the longer list. */
  function FirstOverlap(left: seq<int>, right: seq<int>): (r: Option<int>)
    ensures r.Some? <==> Meet(left, right)
    ensures r.Some? ==> r.value in left && r.value in right
  {
    var smaller, larger := if |left| <= |right| then left else right, if |left| <= |right| then right else left;
    var r := Find(larger, set v | v in smaller);
    OverlapDecides(left, right, r);
    r
  }

  // ---------- conflicts ----------

  function FindCorpus(corpora: seq<Corpus>, opponent: Opponent): (r: Option<Corpus>)
    ensures r.Some? ==> r.value in corpora && r.value.opponent == opponent
    ensures r.None? ==> forall c <- corpora :: c.opponent != opponent
  {
    if corpora == [] then None
    else if corpora[0].opponent == opponent then Some(corpora[0])
    else FindCorpus(corpora[1..], opponent)
  }

  function StreamConflict(id: string, a: Corpus, b: Corpus, stream: Stream): seq<Conflict> {
    var overlap := FirstOverlap(Values(a.cases, stream), Values(b.cases, stream));
    if overlap.Some? then [Conflict(id, a.opponent, stream, overlap.value)] else []
  }

  function CorpusConflicts(id: string, a: Corpus, b: Corpus): seq<Conflict> {
    StreamConflict(id, a, b, Playtime) + StreamConflict(id, a, b, Handicap) + StreamConflict(id, a, b, Defense)
  }

  function CorporaConflicts(id: string, requested: seq<Corpus>, prior: seq<Corpus>): seq<Conflict> {
    if requested == [] then []
    else
      var last := requested[|requested| - 1];
      var matching := FindCorpus(prior, last.opponent);
      CorporaConflicts(id, requested[..|requested| - 1], prior)
      + if matching.Some? then CorpusConflicts(id, last, matching.value) else []
  }

  function Conflicts(requested: Use, priors: seq<Use>): seq<Conflict> {
    if priors == [] then []
    else
      var prior := priors[|priors| - 1];
      Conflicts(requested, priors[..|priors| - 1])
      + if prior.profile != requested.profile then []
        else CorporaConflicts(prior.id, Corpora(requested), Corpora(prior))
  }

  method FindConflicts(requested: Use, priorUses: seq<Use>) returns (conflicts: seq<Conflict>)
    ensures conflicts == Conflicts(requested, priorUses)
  {
    hide Corpora, CorporaConflicts;
    var requestedCorpora := Corpora(requested);
    conflicts := [];
    for i := 0 to |priorUses|
      invariant conflicts == Conflicts(requested, priorUses[..i])
    {
      var prior := priorUses[i];
      assert priorUses[..i + 1][..i] == priorUses[..i];
      if prior.profile != requested.profile { continue; }
      var found := CompareCorpora(prior.id, requestedCorpora, Corpora(prior));
      conflicts := conflicts + found;
    }
    assert priorUses[..|priorUses|] == priorUses;
  }

  method CompareCorpora(id: string, requested: seq<Corpus>, prior: seq<Corpus>) returns (conflicts: seq<Conflict>)
    ensures conflicts == CorporaConflicts(id, requested, prior)
  {
    hide CorpusConflicts, FindCorpus;
    conflicts := [];
    for k := 0 to |requested|
      invariant conflicts == CorporaConflicts(id, requested[..k], prior)
    {
      var corpus := requested[k];
      assert requested[..k + 1][..k] == requested[..k];
      var matching := FindCorpus(prior, corpus.opponent);
      if matching.None? { continue; }
      var found := CompareStreams(id, corpus, matching.value);
      conflicts := conflicts + found;
    }
    assert requested[..|requested|] == requested;
  }

  method CompareStreams(id: string, requested: Corpus, prior: Corpus) returns (conflicts: seq<Conflict>)
    ensures conflicts == CorpusConflicts(id, requested, prior)
  {
    hide FirstOverlap;
    conflicts := [];
    var streams := [Playtime, Handicap, Defense];
    for n := 0 to 3
      invariant n == 0 ==> conflicts == []
      invariant n == 1 ==> conflicts == StreamConflict(id, requested, prior, Playtime)
      invariant n == 2 ==>
        conflicts == StreamConflict(id, requested, prior, Playtime) + StreamConflict(id, requested, prior, Handicap)
      invariant n == 3 ==> conflicts == CorpusConflicts(id, requested, prior)
    {
      var overlap := FirstOverlap(Values(requested.cases, streams[n]), Values(prior.cases, streams[n]));
      if overlap.Some? {
        conflicts := conflicts + [Conflict(id, requested.opponent, streams[n], overlap.value)];
      }
    }
  }

  // ---------- what a conflict means ----------

  ghost predicate CorporaMeet(a: Corpus, b: Corpus) {
    exists stream :: Meet(Values(a.cases, stream), Values(b.cases, stream))
  }

  /** Two uses share a value of some stream for some opponent. */
  ghost predicate UsesMeet(a: Use, b: Use)
    requires a.profile == b.profile
  {
    exists k | 0 <= k < |Corpora(a)| :: CorporaMeet(Corpora(a)[k], Corpora(b)[k])
  }

  ghost predicate Fresh(use: Use, priors: seq<Use>) {
    forall prior <- priors | prior.profile == use.profile :: !UsesMeet(use, prior)
  }

  lemma OpponentsDiffer(profile: Profile, i: nat, j: nat)
    requires i < j < |Opponents(profile)|
    ensures Opponents(profile)[i] != Opponents(profile)[j]
  {
  }

  lemma CorpusOpponent(use: Use, k: nat)
    requires k < |Corpora(use)|
    ensures Corpora(use)[k].opponent == Opponents(use.profile)[k]
  {
  }

  /** The prior corpus of an opponent is always found: it is the one at the same place. */
  lemma MatchingCorpus(a: Use, b: Use, k: nat)
    requires a.profile == b.profile && k < |Corpora(a)|
    ensures FindCorpus(Corpora(b), Corpora(a)[k].opponent) == Some(Corpora(b)[k])
  {
    hide Corpora, FindCorpus;
    CorpusOpponent(a, k);
    CorpusOpponent(b, k);
    var found := FindCorpus(Corpora(b), Corpora(a)[k].opponent);
    assert Corpora(b)[k] in Corpora(b);
    var m :| 0 <= m < |Corpora(b)| && Corpora(b)[m] == found.value;
    CorpusOpponent(b, m);
    if m < k { OpponentsDiffer(a.profile, m, k); } else if k < m { OpponentsDiffer(a.profile, k, m); }
  }

  lemma CorpusConflictsExist(id: string, a: Corpus, b: Corpus)
    ensures CorpusConflicts(id, a, b) != [] <==> CorporaMeet(a, b)
  {
    hide FirstOverlap, Meet, Values;
    if CorporaMeet(a, b) {
      var stream :| Meet(Values(a.cases, stream), Values(b.cases, stream));
      assert StreamConflict(id, a, b, stream) != [];
      assert stream == Playtime || stream == Handicap || stream == Defense;
    }
  }

  lemma {:induction false} CorporaConflictsExist(id: string, a: Use, b: Use, n: nat)
    requires a.profile == b.profile && n <= |Corpora(a)|
    ensures CorporaConflicts(id, Corpora(a)[..n], Corpora(b)) != []
      <==> exists k | 0 <= k < n :: CorporaMeet(Corpora(a)[k], Corpora(b)[k])
  {
    hide Corpora, CorpusConflicts, CorporaMeet, FindCorpus;
    if n > 0 {
      CorporaConflictsExist(id, a, b, n - 1);
      NextCorpus(id, a, b, n);
      CorpusConflictsExist(id, Corpora(a)[n - 1], Corpora(b)[n - 1]);
    }
  }

  lemma NextCorpus(id: string, a: Use, b: Use, n: nat)
    requires a.profile == b.profile && 0 < n <= |Corpora(a)|
    ensures CorporaConflicts(id, Corpora(a)[..n], Corpora(b))
      == CorporaConflicts(id, Corpora(a)[..n - 1], Corpora(b))
        + CorpusConflicts(id, Corpora(a)[n - 1], Corpora(b)[n - 1])
  {
    hide Corpora, CorpusConflicts, FindCorpus;
    assert Corpora(a)[..n][..n - 1] == Corpora(a)[..n - 1];
    MatchingCorpus(a, b, n - 1);
  }

  /** Conflicts are reported exactly when some earlier use of the profile shares some value. */
  lemma {:induction false} ConflictsAreExact(requested: Use, priors: seq<Use>)
    ensures Conflicts(requested, priors) == [] <==> Fresh(requested, priors)
  {
    hide Corpora, CorporaConflicts, CorporaMeet;
    if priors != [] {
      var rest, prior := priors[..|priors| - 1], priors[|priors| - 1];
      ConflictsAreExact(requested, rest);
      assert priors == rest + [prior];
      if prior.profile == requested.profile {
        CorporaConflictsExist(prior.id, requested, prior, |Corpora(requested)|);
        assert Corpora(requested)[..|Corpora(requested)|] == Corpora(requested);
      }
    }
  }

  /** What a conflict names: an earlier use of the profile, and a value that stream shares with it. */
  ghost predicate Truthful(c: Conflict, requested: Use, priors: seq<Use>) {
    exists n, k | 0 <= n < |priors| && 0 <= k < |Corpora(requested)| ::
      Names(c, requested, priors[n], k)
  }

  ghost predicate Names(c: Conflict, requested: Use, prior: Use, k: nat) {
    && prior.profile == requested.profile && k < |Corpora(requested)|
    && c.priorUseId == prior.id && c.opponent == Corpora(requested)[k].opponent
    && c.value in Values(Corpora(requested)[k].cases, c.stream)
    && c.value in Values(Corpora(prior)[k].cases, c.stream)
  }

  lemma StreamConflictNames(a: Use, b: Use, k: nat, stream: Stream, c: Conflict)
    requires a.profile == b.profile && k < |Corpora(a)|
    requires c in StreamConflict(b.id, Corpora(a)[k], Corpora(b)[k], stream)
    ensures Names(c, a, b, k)
  {
    hide Corpora, Values;
  }

  lemma CorpusConflictNames(a: Use, b: Use, k: nat, c: Conflict)
    requires a.profile == b.profile && k < |Corpora(a)|
    requires c in CorpusConflicts(b.id, Corpora(a)[k], Corpora(b)[k])
    ensures Names(c, a, b, k)
  {
    hide Corpora, StreamConflict, Names;
    if c in StreamConflict(b.id, Corpora(a)[k], Corpora(b)[k], Playtime) {
      StreamConflictNames(a, b, k, Playtime, c);
    } else if c in StreamConflict(b.id, Corpora(a)[k], Corpora(b)[k], Handicap) {
      StreamConflictNames(a, b, k, Handicap, c);
    } else {
      StreamConflictNames(a, b, k, Defense, c);
    }
  }

  lemma {:induction false} CorporaConflictsName(a: Use, b: Use, n: nat, c: Conflict)
    requires a.profile == b.profile && n <= |Corpora(a)|
    requires c in CorporaConflicts(b.id, Corpora(a)[..n], Corpora(b))
    ensures exists k | 0 <= k < n :: Names(c, a, b, k)
  {
    hide Corpora, CorpusConflicts, Names;
    if n > 0 {
      NextCorpus(b.id, a, b, n);
      if c in CorpusConflicts(b.id, Corpora(a)[n - 1], Corpora(b)[n - 1]) {
        CorpusConflictNames(a, b, n - 1, c);
      } else {
        CorporaConflictsName(a, b, n - 1, c);
      }
    }
  }

  lemma {:induction false} ConflictsAreTruthful(requested: Use, priors: seq<Use>)
    ensures forall c <- Conflicts(requested, priors) :: Truthful(c, requested, priors)
  {
    hide Corpora, CorporaConflicts, Names;
    if priors != [] {
      var rest, prior := priors[..|priors| - 1], priors[|priors| - 1];
      ConflictsAreTruthful(requested, rest);
      assert priors == rest + [prior];
      forall c <- Conflicts(requested, rest) ensures Truthful(c, requested, priors) {
        assert Truthful(c, requested, rest);
        var n, k :| 0 <= n < |rest| && 0 <= k < |Corpora(requested)| && Names(c, requested, rest[n], k);
        assert Names(c, requested, priors[n], k);
      }
      if prior.profile == requested.profile {
        assert Corpora(requested)[..|Corpora(requested)|] == Corpora(requested);
        forall c | c in CorporaConflicts(prior.id, Corpora(requested), Corpora(prior))
          ensures Truthful(c, requested, priors) {
          CorporaConflictsName(requested, prior, |Corpora(requested)|, c);
          var k :| 0 <= k < |Corpora(requested)| && Names(c, requested, prior, k);
          assert Names(c, requested, priors[|priors| - 1], k);
        }
      }
    }
  }

  // ---------- the ledger ----------

  datatype Request = Request(use: Use, requireFresh: bool)

  ghost predicate Accepted(request: Request, entries: seq<Request>) {
    request.requireFresh ==> Fresh(request.use, Uses(entries))
  }

  ghost function Uses(entries: seq<Request>): seq<Use> {
    seq(|entries|, i requires 0 <= i < |entries| => entries[i].use)
  }

  /** The entries that a history of requests leaves in the ledger, oldest first. */
  ghost function Entries(history: seq<Request>): seq<Request> {
    if history == [] then []
    else
      var before := Entries(history[..|history| - 1]);
      var request := history[|history| - 1];
      if Accepted(request, before) then before + [request] else before
  }

  class Ledger {
    var uses: seq<Use>

    constructor ()
      ensures uses == []
    {
      uses := [];
    }

    /** Record before evaluation; a corpus that must be fresh and is not leaves the ledger as it was. */
    method Record(use: Use, requireFresh: bool) returns (conflict: Option<Conflict>)
      modifies this
      ensures conflict.Some? <==> requireFresh && !Fresh(use, old(uses))
      ensures conflict.Some? ==> uses == old(uses) && Truthful(conflict.value, use, old(uses))
      ensures conflict.None? ==> uses == old(uses) + [use]
    {
      if requireFresh {
        var conflicts := FindConflicts(use, uses);
        ConflictsAreExact(use, uses);
        if conflicts != [] {
          ConflictsAreTruthful(use, uses);
          assert conflicts[0] in conflicts;
          return Some(conflicts[0]);
        }
      }
      uses := uses + [use];
      conflict := None;
    }

    /** A whole history of recordings. */
    method RecordAll(history: seq<Request>)
      requires uses == []
      modifies this
      ensures uses == Uses(Entries(history))
    {
      for i := 0 to |history|
        invariant uses == Uses(Entries(history[..i]))
      {
        assert history[..i + 1][..i] == history[..i];
        var conflict := Record(history[i].use, history[i].requireFresh);
      }
      assert history[..|history|] == history;
    }
  }

  // ---------- whole histories ----------

  /** A fresh entry shares no playtime, handicap or defense value with any earlier entry of its profile. */
  lemma {:induction false} FreshEntriesShareNothing(history: seq<Request>, i: nat, j: nat)
    requires i < j < |Entries(history)| && Entries(history)[j].requireFresh
    requires Entries(history)[i].use.profile == Entries(history)[j].use.profile
    ensures !UsesMeet(Entries(history)[j].use, Entries(history)[i].use)
  {
    hide UsesMeet;
    if history != [] {
      var before, request := Entries(history[..|history| - 1]), history[|history| - 1];
      if j < |before| {
        FreshEntriesShareNothing(history[..|history| - 1], i, j);
      } else {
        assert Uses(before)[i] in Uses(before);
      }
    }
  }

  function Games(use: Use): nat {
    if use.gamesPerOpponent < 0 then 0 else use.gamesPerOpponent
  }

  // ---------- freshness in closed form ----------

  lemma CorpusValues(use: Use, k: nat)
    requires k < |Corpora(use)|
    ensures var cases, n := Corpora(use)[k].cases, use.gamesPerOpponent;
      && Values(cases, Playtime) == PlaytimeSeeds(n, use.seed + k * 20_003)
      && Values(cases, Handicap) == HandicapSeeds(n, use.handicapSeed + k * 104_729)
      && Values(cases, Defense) == HandicapSeeds(n, use.defenseSeed + k * 65_537)
  {
    hide PlaytimeSeed, HandicapSeed, Number;
  }

  predicate PlaytimesOverlap(a: Use, b: Use, k: nat) {
    StreamsOverlap(a.gamesPerOpponent, a.seed + k * 20_003, b.gamesPerOpponent, b.seed + k * 20_003)
  }

  predicate WordsOverlap(a: Use, b: Use, s: int, t: int) {
    Overlap(a.gamesPerOpponent, b.gamesPerOpponent, HandicapGap(s, t), WORDS)
  }

  ghost predicate UsesOverlap(a: Use, b: Use) {
    || WordsOverlap(a, b, a.handicapSeed, b.handicapSeed)
    || WordsOverlap(a, b, a.defenseSeed, b.defenseSeed)
    || exists k: nat | k < |Opponents(a.profile)| :: PlaytimesOverlap(a, b, k)
  }

  /** For one opponent the corpora meet exactly when one of three pairs of arcs overlaps; the word streams
      of all opponents are offset alike, so their gap is that of the uses. */
  lemma CorporaMeetAsArcs(a: Use, b: Use, k: nat)
    requires a.profile == b.profile && k < |Corpora(a)|
    ensures CorporaMeet(Corpora(a)[k], Corpora(b)[k])
      <==> (WordsOverlap(a, b, a.handicapSeed, b.handicapSeed) || WordsOverlap(a, b, a.defenseSeed, b.defenseSeed)
            || PlaytimesOverlap(a, b, k))
  {
    hide Corpora, Values, PlaytimeSeeds, HandicapSeeds, StreamsOverlap, Overlap, Meet;
    var n, m := a.gamesPerOpponent, b.gamesPerOpponent;
    CorpusValues(a, k);
    CorpusValues(b, k);
    HandicapsMeetAsArcs(n, a.handicapSeed + k * 104_729, m, b.handicapSeed + k * 104_729);
    HandicapsMeetAsArcs(n, a.defenseSeed + k * 65_537, m, b.defenseSeed + k * 65_537);
    SeedsMeetAsArcs(n, a.seed + k * 20_003, m, b.seed + k * 20_003);
    ThreeStreams(Corpora(a)[k], Corpora(b)[k]);
  }

  lemma ThreeStreams(a: Corpus, b: Corpus)
    ensures CorporaMeet(a, b)
      <==> (Meet(Values(a.cases, Playtime), Values(b.cases, Playtime))
            || Meet(Values(a.cases, Handicap), Values(b.cases, Handicap))
            || Meet(Values(a.cases, Defense), Values(b.cases, Defense)))
  {
    hide Meet, Values;
    if CorporaMeet(a, b) {
      var stream :| Meet(Values(a.cases, stream), Values(b.cases, stream));
      assert stream == Playtime || stream == Handicap || stream == Defense;
    }
  }

  /** The comparison of whole corpora is decided by the starts and the lengths alone. */
  lemma UsesMeetAsArcs(a: Use, b: Use)
    requires a.profile == b.profile
    ensures UsesMeet(a, b) <==> UsesOverlap(a, b)
  {
    hide Corpora, CorporaMeet, WordsOverlap, PlaytimesOverlap;
    forall k: nat | k < |Corpora(a)|
      ensures CorporaMeet(Corpora(a)[k], Corpora(b)[k])
        <==> (WordsOverlap(a, b, a.handicapSeed, b.handicapSeed) || WordsOverlap(a, b, a.defenseSeed, b.defenseSeed)
              || PlaytimesOverlap(a, b, k))
    {
      CorporaMeetAsArcs(a, b, k);
    }
    assert 0 < |Corpora(a)|;
    if UsesOverlap(a, b) {
      if WordsOverlap(a, b, a.handicapSeed, b.handicapSeed) || WordsOverlap(a, b, a.defenseSeed, b.defenseSeed) {
        assert CorporaMeet(Corpora(a)[0], Corpora(b)[0]);
      } else {
        var k: nat :| k < |Opponents(a.profile)| && PlaytimesOverlap(a, b, k);
        assert CorporaMeet(Corpora(a)[k], Corpora(b)[k]);
      }
    }
  }

  // ---------- fresh entries and the ring ----------

  /** Fresh entries from starts at or after time zero share no game phase either, for any opponent. */
  lemma FreshEntriesShareNoPhase(history: seq<Request>, i: nat, j: nat, k: nat)
    requires i < j < |Entries(history)| && Entries(history)[j].requireFresh
    requires Entries(history)[i].use.profile == Entries(history)[j].use.profile
    requires k < |Corpora(Entries(history)[j].use)|
    requires 0 <= Entries(history)[i].use.seed && 0 <= Entries(history)[j].use.seed
    ensures !MeetInPhase(Values(Corpora(Entries(history)[j].use)[k].cases, Playtime),
                         Values(Corpora(Entries(history)[i].use)[k].cases, Playtime))
  {
    hide Corpora, Values, PlaytimeSeeds, Entries, MeetInPhase, UsesMeet, Meet, Overlap, Gap;
    var a, b := Entries(history)[j].use, Entries(history)[i].use;
    FreshEntriesShareNothing(history, i, j);
    CorpusValues(a, k);
    CorpusValues(b, k);
    PhasesMeetAsArcs(a.gamesPerOpponent, a.seed + k * 20_003, b.gamesPerOpponent, b.seed + k * 20_003);
    StreamsMeetAsArcs(a.gamesPerOpponent, a.seed + k * 20_003, b.gamesPerOpponent, b.seed + k * 20_003);
    if Meet(Values(Corpora(a)[k].cases, Playtime), Values(Corpora(b)[k].cases, Playtime)) {
      MeetingStream(a, b, k, Playtime);
    }
  }

  lemma MeetingStream(a: Use, b: Use, k: nat, stream: Stream)
    requires a.profile == b.profile && k < |Corpora(a)|
    requires Meet(Values(Corpora(a)[k].cases, stream), Values(Corpora(b)[k].cases, stream))
    ensures UsesMeet(a, b)
  {
    hide Corpora, Values, Meet;
    assert CorporaMeet(Corpora(a)[k], Corpora(b)[k]);
  }

  function RingGames(use: Use): nat {
    if Games(use) <= PERIOD then Games(use) else PERIOD
  }

  /** The entries of one profile that had to be fresh. */
  ghost function FreshUses(entries: seq<Request>, profile: Profile): seq<Use> {
    if entries == [] then []
    else
      var last := entries[|entries| - 1];
      FreshUses(entries[..|entries| - 1], profile)
      + if last.requireFresh && last.use.profile == profile then [last.use] else []
  }

  ghost predicate PairwiseFresh(uses: seq<Use>, profile: Profile) {
    && (forall use <- uses :: use.profile == profile)
    && forall i, j | 0 <= i < j < |uses| :: uses[i].profile == uses[j].profile ==> !UsesMeet(uses[j], uses[i])
  }

  /** The playtime seeds of the first opponent that a use burns. */
  ghost function Burned(use: Use): set<int> {
    set v | v in PlaytimeSeeds(use.gamesPerOpponent, use.seed)
  }

  ghost function BurnedByAll(uses: seq<Use>): set<int> {
    if uses == [] then {} else BurnedByAll(uses[..|uses| - 1]) + Burned(uses[|uses| - 1])
  }

  /** The games that uses ask of an opponent, counting repetitions. */
  ghost function TotalGames(uses: seq<Use>): nat {
    if uses == [] then 0 else TotalGames(uses[..|uses| - 1]) + Games(uses[|uses| - 1])
  }

  /** The seeds that uses burn, counted use by use. */
  ghost function TotalBurned(uses: seq<Use>): nat {
    if uses == [] then 0 else TotalBurned(uses[..|uses| - 1]) + |Burned(uses[|uses| - 1])|
  }

  /** Whole cycles from `low` to `high`, as times. */
  ghost function Cycles(low: int, high: int): set<int> {
    set cycle | low <= cycle < high :: cycle * CYCLE_MS
  }

  lemma {:induction false} CyclesCount(low: int, high: int)
    requires low <= high
    ensures |Cycles(low, high)| == high - low
    decreases high - low
  {
    if low < high {
      CyclesCount(low, high - 1);
      assert Cycles(low, high) == Cycles(low, high - 1) + {(high - 1) * CYCLE_MS};
    }
  }

  lemma CycleAt(cycle: int, low: int, high: int)
    requires low <= cycle < high
    ensures cycle * CYCLE_MS in Cycles(low, high)
  {
  }

  lemma BurnedOnRing(use: Use)
    ensures Burned(use) <= Cycles(1 - PERIOD, PERIOD)
    ensures 0 <= use.seed ==> Burned(use) <= Cycles(0, PERIOD)
  {
    hide PlaytimeSeed, Phase, Cycles;
    var seeds := PlaytimeSeeds(use.gamesPerOpponent, use.seed);
    forall v <- Burned(use)
      ensures v in Cycles(1 - PERIOD, PERIOD) && (0 <= use.seed ==> v in Cycles(0, PERIOD))
    {
      var i :| 0 <= i < |seeds| && seeds[i] == v;
      SeedOfPhase(use.seed, i);
      PhaseRange(v);
      var cycle := if Tick(use.seed, i) < 0 && Phase(v) != 0 then Phase(v) - PERIOD else Phase(v);
      CycleAt(cycle, 1 - PERIOD, PERIOD);
      if 0 <= use.seed { CycleAt(cycle, 0, PERIOD); }
    }
  }

  lemma PhaseRange(seed: int)
    ensures 0 <= Phase(seed) < PERIOD
  {
  }

  /** A use burns one seed a game as long as its games are distinct, and from a start at or after time zero
      never more than one period. */
  lemma BurnedSize(use: Use)
    ensures RingGames(use) <= |Burned(use)| <= Games(use)
    ensures |Burned(use)| == Games(use) <==> Distinct(PlaytimeSeeds(use.gamesPerOpponent, use.seed))
    ensures 0 <= use.seed ==> |Burned(use)| == RingGames(use)
  {
    hide PlaytimeSeed, Cycles;
    var seeds, first := PlaytimeSeeds(use.gamesPerOpponent, use.seed), PlaytimeSeeds(RingGames(use), use.seed);
    PlaytimesAreDistinct(RingGames(use), use.seed);
    SizeOfElements(first);
    SizeOfElements(seeds);
    forall v | v in first ensures v in seeds {
      var i :| 0 <= i < |first| && first[i] == v;
      assert seeds[i] == v;
    }
    SmallerSubset((set v | v in first), Burned(use));
    if 0 <= use.seed {
      BurnedOnRing(use);
      CyclesCount(0, PERIOD);
      SmallerSubset(Burned(use), Cycles(0, PERIOD));
    }
  }

  /** Uses that do not meet burn disjoint parts of the ring. */
  lemma ApartBurnApart(a: Use, b: Use)
    requires a.profile == b.profile && !UsesMeet(a, b)
    ensures Burned(a) !! Burned(b)
  {
    hide PlaytimeSeeds, UsesMeet, Corpora, Values;
    forall v | v in Burned(a) && v in Burned(b) ensures false {
      CorpusValues(a, 0);
      CorpusValues(b, 0);
      assert v in PlaytimeSeeds(a.gamesPerOpponent, a.seed) && v in PlaytimeSeeds(b.gamesPerOpponent, b.seed);
      MeetingStream(a, b, 0, Playtime);
    }
  }

  lemma {:induction false} BurnedBySome(uses: seq<Use>, v: int) returns (i: nat)
    requires v in BurnedByAll(uses)
    ensures i < |uses| && v in Burned(uses[i])
  {
    hide Burned;
    if v in Burned(uses[|uses| - 1]) {
      i := |uses| - 1;
    } else {
      i := BurnedBySome(uses[..|uses| - 1], v);
    }
  }

  lemma {:induction false} BurnedAddsUp(uses: seq<Use>, profile: Profile, ring: set<int>)
    requires PairwiseFresh(uses, profile) && forall use <- uses :: Burned(use) <= ring
    ensures |BurnedByAll(uses)| == TotalBurned(uses) && BurnedByAll(uses) <= ring
  {
    hide Burned, UsesMeet;
    if uses != [] {
      var rest, last := uses[..|uses| - 1], uses[|uses| - 1];
      assert uses == rest + [last] && last in uses;
      forall use <- rest ensures use in uses {}
      BurnedAddsUp(rest, profile, ring);
      forall v <- BurnedByAll(rest) ensures v !in Burned(last) {
        var i := BurnedBySome(rest, v);
        assert rest[i] in uses;
        ApartBurnApart(last, rest[i]);
      }
    }
  }

  ghost predicate OnceEach(uses: seq<Use>) {
    forall use <- uses :: Distinct(PlaytimeSeeds(use.gamesPerOpponent, use.seed))
  }

  lemma {:induction false} OnceEachAddsUp(uses: seq<Use>)
    requires OnceEach(uses)
    ensures TotalGames(uses) == TotalBurned(uses)
  {
    hide Burned, PlaytimeSeeds, RingGames, Games;
    if uses != [] {
      var rest, last := uses[..|uses| - 1], uses[|uses| - 1];
      assert uses == rest + [last] && last in uses;
      forall use <- rest ensures use in uses {}
      OnceEachAddsUp(rest);
      BurnedSize(last);
    }
  }

  lemma {:induction false} GamesAreCounted(uses: seq<Use>, use: Use)
    requires use in uses
    ensures Games(use) <= TotalGames(uses)
  {
    var rest, last := uses[..|uses| - 1], uses[|uses| - 1];
    assert uses == rest + [last];
    if use != last { GamesAreCounted(rest, use); }
  }

  ghost predicate FreshApart(entries: seq<Request>) {
    forall i, j | 0 <= i < j < |entries| && entries[j].requireFresh
      && entries[i].use.profile == entries[j].use.profile ::
      !UsesMeet(entries[j].use, entries[i].use)
  }

  lemma {:induction false} FreshUsesWereEntered(entries: seq<Request>, profile: Profile, use: Use)
    requires use in FreshUses(entries, profile)
    ensures use.profile == profile && exists i | 0 <= i < |entries| :: entries[i].use == use
  {
    var rest, last := entries[..|entries| - 1], entries[|entries| - 1];
    if use in FreshUses(rest, profile) {
      FreshUsesWereEntered(rest, profile, use);
      var i :| 0 <= i < |rest| && rest[i].use == use;
      assert entries[i].use == use;
    } else {
      assert last.use == use;
    }
  }

  lemma {:induction false} FreshUsesArePairwiseFresh(entries: seq<Request>, profile: Profile)
    requires FreshApart(entries)
    ensures PairwiseFresh(FreshUses(entries, profile), profile)
  {
    hide UsesMeet;
    if entries != [] {
      var rest, last := entries[..|entries| - 1], entries[|entries| - 1];
      FreshUsesArePairwiseFresh(rest, profile);
      var before, uses := FreshUses(rest, profile), FreshUses(entries, profile);
      forall use <- uses ensures use.profile == profile {
        FreshUsesWereEntered(entries, profile, use);
      }
      forall i, j | 0 <= i < j < |uses| ensures !UsesMeet(uses[j], uses[i]) {
        assert uses[i] == before[i];
        FreshUsesWereEntered(rest, profile, uses[i]);
        var k :| 0 <= k < |rest| && rest[k].use == uses[i];
        assert entries[k].use == uses[i];
        if j < |before| { assert before[j].profile == before[i].profile; }
      }
    }
  }

  /** However the ledger came about, its fresh uses of one profile burn at most 299,999 seeds of an opponent,
      and so play at most that many games if none repeats itself. From starts at or after time zero they burn
      at most 150,000, and they play at most 150,000 games exactly when no single use plays more. */
  lemma FreshGamesFitTheRing(history: seq<Request>, profile: Profile)
    ensures var uses := FreshUses(Entries(history), profile);
      && TotalBurned(uses) <= 2 * PERIOD - 1
      && (OnceEach(uses) ==> TotalGames(uses) <= 2 * PERIOD - 1)
      && ((forall use <- uses :: 0 <= use.seed) ==>
            && TotalBurned(uses) <= PERIOD
            && (TotalGames(uses) <= PERIOD <==> forall use <- uses :: Games(use) <= PERIOD))
  {
    hide UsesMeet, Cycles, Burned, Games, TotalGames, TotalBurned, PairwiseFresh, PlaytimeSeeds;
    var uses := FreshUses(Entries(history), profile);
    FreshUsesAreFresh(history, profile);
    RingBound(uses, profile, 1 - PERIOD);
    if OnceEach(uses) { OnceEachAddsUp(uses); }
    if forall use <- uses :: 0 <= use.seed {
      RingBound(uses, profile, 0);
      FitOrLonger(uses);
    }
  }

  lemma FreshUsesAreFresh(history: seq<Request>, profile: Profile)
    ensures PairwiseFresh(FreshUses(Entries(history), profile), profile)
  {
    hide UsesMeet, PairwiseFresh;
    var entries := Entries(history);
    forall i, j | 0 <= i < j < |entries| && entries[j].requireFresh && entries[i].use.profile == entries[j].use.profile
      ensures !UsesMeet(entries[j].use, entries[i].use)
    {
      FreshEntriesShareNothing(history, i, j);
    }
    FreshUsesArePairwiseFresh(entries, profile);
  }

  lemma RingBound(uses: seq<Use>, profile: Profile, low: int)
    requires PairwiseFresh(uses, profile) && low <= PERIOD
    requires low == 1 - PERIOD || (low == 0 && forall use <- uses :: 0 <= use.seed)
    ensures TotalBurned(uses) <= PERIOD - low
  {
    hide Cycles, Burned, TotalBurned, PairwiseFresh;
    forall use <- uses ensures Burned(use) <= Cycles(low, PERIOD) {
      BurnedOnRing(use);
    }
    BurnedAddsUp(uses, profile, Cycles(low, PERIOD));
    CyclesCount(low, PERIOD);
    SmallerSubset(BurnedByAll(uses), Cycles(low, PERIOD));
  }

  lemma FitOrLonger(uses: seq<Use>)
    requires (forall use <- uses :: 0 <= use.seed) && TotalBurned(uses) <= PERIOD
    ensures TotalGames(uses) <= PERIOD <==> forall use <- uses :: Games(use) <= PERIOD
  {
    hide PlaytimeSeeds, TotalGames, TotalBurned;
    if forall use <- uses :: Games(use) <= PERIOD {
      forall use <- uses ensures Distinct(PlaytimeSeeds(use.gamesPerOpponent, use.seed)) {
        PlaytimesAreDistinct(use.gamesPerOpponent, use.seed);
      }
      OnceEachAddsUp(uses);
    } else {
      var use :| use in uses && PERIOD < Games(use);
      GamesAreCounted(uses, use);
    }
  }

  /** A use is never compared with itself, so one longer than the ring is accepted and repeats its own
      playtime seeds. */
  lemma OneUseMayRepeatItself(use: Use)
    requires 0 <= use.seed && PERIOD < use.gamesPerOpponent
    ensures Entries([Request(use, true)]) == [Request(use, true)]
    ensures !Distinct(PlaytimeSeeds(use.gamesPerOpponent, use.seed))
  {
    assert [Request(use, true)][..0] == [];
    PlaytimesRepeat(use.gamesPerOpponent, use.seed);
  }

  // ---------- what negative starts allow ----------

  lemma FirstAccepted(a: Use)
    ensures Entries([Request(a, true)]) == [Request(a, true)]
  {
    hide UsesMeet;
    var one := [Request(a, true)];
    assert one[..0] == [];
    assert Uses([]) == [];
    assert Accepted(one[0], []);
  }

  lemma BothAccepted(a: Use, b: Use)
    requires a.profile == b.profile && !UsesMeet(b, a)
    ensures Entries([Request(a, true), Request(b, true)]) == [Request(a, true), Request(b, true)]
  {
    hide UsesMeet;
    var one, two := [Request(a, true)], [Request(a, true), Request(b, true)];
    FirstAccepted(a);
    assert two[..1] == one;
    assert Uses(one) == [a];
    assert Accepted(two[1], one);
  }

  /** One stream of games before time zero and one after it, with the words of the second half of their ring. */
  const EARLY := Use("early", Daemon19, 150_000, -200 * (104_729 * 150_000), 0, 0)
  const LATE := Use("late", Daemon19, 149_999, 200 * 104_729, 0x8000_0000, 0x8000_0000)

  lemma WordsApart(a: Use, b: Use)
    requires Games(a) <= PERIOD && Games(b) <= PERIOD
    ensures !WordsOverlap(b, a, 0x8000_0000, 0)
  {
    assert HandicapGap(0x8000_0000, 0) == 0x8000_0000;
  }

  lemma EarlyAndLateApart()
    ensures !UsesMeet(LATE, EARLY)
  {
    hide UsesMeet, WordsOverlap, PlaytimesOverlap;
    UsesMeetAsArcs(LATE, EARLY);
    WordsApart(EARLY, LATE);
    EarlyIsBeforeLate();
  }

  lemma EarlyIsBeforeLate()
    ensures !PlaytimesOverlap(LATE, EARLY, 0)
  {
    hide Overlap;
    assert StartTick(LATE.seed) == 104_729 && StartTick(EARLY.seed) == -104_729 * 150_000;
    assert Lead(LATE.seed) == 0 && Lead(EARLY.seed) == PERIOD;
    assert Position(LATE.seed, 0) == 149_999;
    NoArc(Gap(LATE.seed, EARLY.seed), PERIOD);
    NoArc((Gap(LATE.seed, EARLY.seed) + PERIOD) % PERIOD, PERIOD);
  }

  lemma NoArc(gap: int, ring: int)
    ensures forall n, m {:trigger Overlap(n, m, gap, ring)} :: Overlap(n, m, gap, ring) ==> 0 < n && 0 < m
  {
  }

  /** The bound of 299,999 is met: these two uses are both accepted as fresh and play that many games between
      them, none longer than the ring. */
  lemma TwoUsesFillBothSides()
    ensures Entries([Request(EARLY, true), Request(LATE, true)]) == [Request(EARLY, true), Request(LATE, true)]
    ensures var uses := FreshUses([Request(EARLY, true), Request(LATE, true)], Daemon19);
      TotalGames(uses) == TotalBurned(uses) == 2 * PERIOD - 1
  {
    hide UsesMeet, Burned, PlaytimeSeeds;
    EarlyAndLateApart();
    BothAccepted(EARLY, LATE);
    var one, two := [Request(EARLY, true)], [Request(EARLY, true), Request(LATE, true)];
    assert one[..0] == [] && two[..1] == one;
    assert FreshUses(one, Daemon19) == [EARLY];
    assert FreshUses(two, Daemon19) == [EARLY, LATE];
    TotalOfTwo(EARLY, LATE);
  }

  lemma TotalOfTwo(a: Use, b: Use)
    requires Games(a) <= PERIOD && Games(b) <= PERIOD
    ensures TotalGames([a, b]) == TotalBurned([a, b]) == Games(a) + Games(b)
  {
    hide Burned, PlaytimeSeeds;
    PlaytimesAreDistinct(a.gamesPerOpponent, a.seed);
    PlaytimesAreDistinct(b.gamesPerOpponent, b.seed);
    OnceEachAddsUp([a, b]);
    assert [a][..0] == [] && [a, b][..1] == [a];
    assert TotalGames([a]) == Games(a);
    assert TotalGames([a, b]) == TotalGames([a]) + Games(b);
  }

  const BEFORE_ZERO := Use("before", Daemon19, 1, -200, 0, 0)
  const PERIOD_LATER := Use("later", Daemon19, 1, 29_999_800, 0x8000_0000, 0x8000_0000)

  /** Two accepted uses of one game each that select the same game phase. */
  lemma FreshUsesMayShareAPhase()
    ensures Entries([Request(BEFORE_ZERO, true), Request(PERIOD_LATER, true)])
      == [Request(BEFORE_ZERO, true), Request(PERIOD_LATER, true)]
    ensures MeetInPhase(Values(Corpora(BEFORE_ZERO)[0].cases, Playtime),
                        Values(Corpora(PERIOD_LATER)[0].cases, Playtime))
  {
    hide UsesMeet, WordsOverlap, PlaytimesOverlap, MeetInPhase, Corpora, Values;
    UsesMeetAsArcs(PERIOD_LATER, BEFORE_ZERO);
    WordsApart(BEFORE_ZERO, PERIOD_LATER);
    OnePhase();
    BothAccepted(BEFORE_ZERO, PERIOD_LATER);
    CorpusValues(BEFORE_ZERO, 0);
    CorpusValues(PERIOD_LATER, 0);
  }

  lemma OnePhase()
    ensures !PlaytimesOverlap(PERIOD_LATER, BEFORE_ZERO, 0)
    ensures MeetInPhase(PlaytimeSeeds(1, -200), PlaytimeSeeds(1, 29_999_800))
  {
    hide Phase, PlaytimeSeed;
    NegativeStartHidesAPhase();
    SeedsMeetAsArcs(1, 29_999_800, 1, -200);
    var left, right := PlaytimeSeeds(1, -200), PlaytimeSeeds(1, 29_999_800);
    assert left == [PlaytimeSeed(-200, 0)] && right == [PlaytimeSeed(29_999_800, 0)];
    assert Phase(left[0]) == Phase(right[0]);
  }
}
