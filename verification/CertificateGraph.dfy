/** Certificate successor graphs and the worklist walk over them (tools/go-playbook-residual.ts). */
module CertificateGraph {

  datatype Operation = Move | Pass | Align | Sleep | Terminal

  /** What the browser is asked about: an action in a state. */
  datatype Question = Question(identity: string, action: int)

  /** A certificate row; `identity` names the state a move or pass is made in, without the action, and means nothing
      on the other operations. */
  datatype Row = Row(op: Operation, action: int, successors: seq<int>, identity: string) {
    predicate IsDecision() {
      op.Move? || op.Pass?
    }

    function Asks(): Question {
      Question(identity, action)
    }
  }

  /** `order` lists the row ids in insertion order, as the source's `Map` iterates them. */
  datatype Graph = Graph(order: seq<int>, rows: map<int, Row>, roots: seq<int>)

  ghost predicate Listed(g: Graph) {
    && (forall i, j | 0 <= i < j < |g.order| :: g.order[i] != g.order[j])
    && (forall k | 0 <= k < |g.order| :: g.order[k] in g.rows)
    && (forall id <- g.rows :: id in g.order)
  }

  /** The last of the first `n` lines about `id` holds `row`. */
  ghost predicate LastLine(lines: seq<(int, Row)>, n: nat, id: int, row: Row)
    requires n <= |lines|
  {
    exists k :: 0 <= k < n && lines[k] == (id, row) && forall j | k < j < n :: lines[j].0 != id
  }

  ghost predicate Referenced(lines: seq<(int, Row)>, n: nat, id: int)
    requires n <= |lines|
  {
    exists k :: 0 <= k < n && id in lines[k].1.successors
  }

  /** One file's certificate lines become a graph whose roots are the rows no line refers to. */
  method BuildGraph(lines: seq<(int, Row)>) returns (g: Graph)
    ensures Listed(g)
    ensures forall k | 0 <= k < |lines| :: lines[k].0 in g.rows
    ensures forall id <- g.rows :: LastLine(lines, |lines|, id, g.rows[id])
    ensures forall id :: id in g.roots <==> id in g.rows && !Referenced(lines, |lines|, id)
  {
    var rows, order, referenced := ReadLines(lines);
    var roots: seq<int> := [];
    for n := 0 to |order|
      invariant forall id :: id in roots <==> id in order[..n] && id !in referenced
    {
      if order[n] !in referenced { roots := roots + [order[n]]; }
    }
    assert order[..|order|] == order;
    g := Graph(order, rows, roots);
  }

  method ReadLines(lines: seq<(int, Row)>) returns (rows: map<int, Row>, order: seq<int>, referenced: set<int>)
    ensures Listed(Graph(order, rows, []))
    ensures forall k | 0 <= k < |lines| :: lines[k].0 in rows
    ensures forall id <- rows :: LastLine(lines, |lines|, id, rows[id])
    ensures forall id :: id in referenced <==> Referenced(lines, |lines|, id)
  {
    hide LastLine, Referenced;
    rows, order, referenced := map[], [], {};
    NothingRead(lines);
    for n := 0 to |lines|
      invariant Listed(Graph(order, rows, []))
      invariant forall k | 0 <= k < n :: lines[k].0 in rows
      invariant forall id <- rows :: LastLine(lines, n, id, rows[id])
      invariant forall id :: id in referenced <==> Referenced(lines, n, id)
    {
      var (id, row) := lines[n];
      LineRead(lines, n, rows, referenced);
      ListedGrows(order, rows, id, row);
      if id !in rows { order := order + [id]; }
      rows := rows[id := row];
      referenced := referenced + set s | s in row.successors;
    }
  }

  lemma NothingRead(lines: seq<(int, Row)>)
    ensures forall id :: !Referenced(lines, 0, id)
  {}

  lemma ListedGrows(order: seq<int>, rows: map<int, Row>, id: int, row: Row)
    requires Listed(Graph(order, rows, []))
    ensures Listed(Graph(if id in rows then order else order + [id], rows[id := row], []))
  {}

  lemma LineRead(lines: seq<(int, Row)>, n: nat, rows: map<int, Row>, referenced: set<int>)
    requires n < |lines|
    requires forall id <- rows :: LastLine(lines, n, id, rows[id])
    requires forall id :: id in referenced <==> Referenced(lines, n, id)
    ensures LastLine(lines, n + 1, lines[n].0, lines[n].1)
    ensures forall id <- rows | id != lines[n].0 :: LastLine(lines, n + 1, id, rows[id])
    ensures forall id :: Referenced(lines, n + 1, id) <==> id in referenced || id in lines[n].1.successors
  {
    forall id <- rows | id != lines[n].0 ensures LastLine(lines, n + 1, id, rows[id]) {
      var k :| 0 <= k < n && lines[k] == (id, rows[id]) && forall j | k < j < n :: lines[j].0 != id;
      assert lines[k] == (id, rows[id]);
    }
    forall id ensures Referenced(lines, n + 1, id) <==> id in referenced || id in lines[n].1.successors {
      if Referenced(lines, n, id) {
        var k :| 0 <= k < n && id in lines[k].1.successors;
        assert id in lines[k].1.successors;
      }
    }
  }

  // ---------- decisions and the three walks ----------

  /** "strip": the network reproduces the move. "keep": the entry earns its place. "prune": the
      network's own continuation is good enough and the line ends here. */
  datatype Decision = Strip | Keep | Prune

  type Decisions = map<string, Decision>

  /** What a walk is for: every certified line, the undecided entries next to decide, or the
      entries that survive the prunes. */
  datatype Purpose = Certified | Frontier | Surviving

  datatype Policy = Policy(purpose: Purpose, decisions: Decisions)

  /** Whether the walk goes on through a row to its successors. */
  predicate Follows(p: Policy, row: Row) {
    match p.purpose
    case Certified => true
    case Frontier => !row.IsDecision() || (row.identity in p.decisions && p.decisions[row.identity] != Prune)
    case Surviving => !row.IsDecision() || row.identity !in p.decisions || p.decisions[row.identity] != Prune
  }

  /** Whether the walk collects an entry it meets. */
  predicate CollectsEntry(p: Policy, identity: string) {
    match p.purpose
    case Certified => true
    case Frontier => identity !in p.decisions
    case Surviving => identity !in p.decisions || p.decisions[identity] == Keep
  }

  predicate Collects(p: Policy, row: Row) {
    row.IsDecision() && CollectsEntry(p, row.identity)
  }

  /** `path` leads from a root to its last id through rows the policy follows. */
  ghost predicate Leads(g: Graph, p: Policy, path: seq<int>) {
    && path != [] && path[0] in g.roots
    && forall k | 0 <= k < |path| - 1 :: Link(g, p, path[k], path[k + 1])
  }

  ghost predicate Link(g: Graph, p: Policy, a: int, b: int) {
    a in g.rows && Follows(p, g.rows[a]) && b in g.rows[a].successors
  }

  ghost predicate Reachable(g: Graph, p: Policy, id: int) {
    exists path :: Leads(g, p, path) && path[|path| - 1] == id
  }

  lemma RootReachable(g: Graph, p: Policy, id: int)
    requires id in g.roots
    ensures Reachable(g, p, id)
  {
    assert Leads(g, p, [id]) && [id][|[id]| - 1] == id;
  }

  lemma LinkReachable(g: Graph, p: Policy, a: int, b: int)
    requires Reachable(g, p, a) && Link(g, p, a, b)
    ensures Reachable(g, p, b)
  {
    var path :| Leads(g, p, path) && path[|path| - 1] == a;
    var longer := path + [b];
    assert Leads(g, p, longer) && longer[|longer| - 1] == b;
  }

  /** A set that holds the roots and is closed under the policy's links holds everything reachable. */
  lemma {:induction false} ClosedHoldsReachable(g: Graph, p: Policy, closed: set<int>, path: seq<int>)
    requires forall id <- g.roots :: id in closed
    requires forall a, b | a in closed && Link(g, p, a, b) :: b in closed
    requires Leads(g, p, path)
    ensures path[|path| - 1] in closed
  {
    if |path| > 1 {
      var shorter := path[..|path| - 1];
      assert Leads(g, p, shorter);
      ClosedHoldsReachable(g, p, closed, shorter);
      var k := |path| - 2;
      assert path[k] in closed;
      assert Link(g, p, path[k], path[k + 1]);
      assert path[k + 1] in closed;
    } else {
      assert |path| == 1;
      var id := path[0];
      assert id in g.roots;
      assert id in closed;
    }
  }

  /** Every id a walk of the graph can ever meet. */
  ghost function Mentioned(g: Graph): set<int> {
    (set id | id in g.roots) + (set a, b | a in g.rows && b in g.rows[a].successors :: b)
  }

  /** What the worklist maintains: everything met is reachable, and everything one link beyond
      the visited ids is visited or queued. */
  ghost predicate Working(g: Graph, p: Policy, seen: set<int>, queue: seq<int>) {
    && (forall id <- queue :: Reachable(g, p, id) && id in Mentioned(g))
    && (forall id <- seen :: Reachable(g, p, id) && id in Mentioned(g))
    && (forall id <- g.roots :: id in seen || id in queue)
    && (forall a, b | a in seen && Link(g, p, a, b) :: b in seen || b in queue)
  }

  lemma WorkingStart(g: Graph, p: Policy)
    ensures Working(g, p, {}, g.roots)
  {
    forall id <- g.roots ensures Reachable(g, p, id) { RootReachable(g, p, id); }
  }

  /** Visiting one more id: its successors join the queue if the policy follows it. */
  lemma WorkingStep(g: Graph, p: Policy, seen: set<int>, queue: seq<int>, id: int)
    requires Working(g, p, seen, queue + [id])
    ensures id in seen ==> Working(g, p, seen, queue)
    ensures Working(g, p, seen + {id},
                    if id in g.rows && Follows(p, g.rows[id]) then queue + g.rows[id].successors else queue)
    ensures id in Mentioned(g)
  {
    var next := if id in g.rows && Follows(p, g.rows[id]) then queue + g.rows[id].successors else queue;
    assert id in queue + [id];
    forall x <- next ensures Reachable(g, p, x) && x in Mentioned(g) {
      if x in queue {
        assert x in queue + [id];
      } else {
        assert Link(g, p, id, x);
        LinkReachable(g, p, id, x);
      }
    }
    forall a, b | a in seen && Link(g, p, a, b) ensures b in seen + {id} || b in queue {
      assert b in seen || b in queue + [id];
    }
  }

  function Queued(g: Graph, p: Policy, queue: seq<int>, id: int): seq<int> {
    if id in g.rows && Follows(p, g.rows[id]) then queue + g.rows[id].successors else queue
  }

  /** The ids a worklist has yet to visit, in its order: the last one queued comes first. */
  ghost function Visits(g: Graph, p: Policy, queue: seq<int>, seen: set<int>): seq<int>
    requires forall id <- queue :: id in Mentioned(g)
    decreases Mentioned(g) - seen, |queue|
  {
    if queue == [] then []
    else
      var id, rest := queue[|queue| - 1], queue[..|queue| - 1];
      assert queue == rest + [id] && id in Mentioned(g);
      if id in seen then Visits(g, p, rest, seen)
      else
        assert id in Mentioned(g) - seen;
        [id] + Visits(g, p, Queued(g, p, rest, id), seen + {id})
  }

  /** The worklist visits exactly what is reachable and not yet seen, each id once. */
  lemma {:induction false} VisitsAreReachable(g: Graph, p: Policy, queue: seq<int>, seen: set<int>)
    requires Working(g, p, seen, queue)
    ensures var visited := Visits(g, p, queue, seen);
      && (forall id :: id in visited <==> Reachable(g, p, id) && id !in seen)
      && (forall i, j | 0 <= i < j < |visited| :: visited[i] != visited[j])
    decreases Mentioned(g) - seen, |queue|
  {
    if queue == [] {
      forall id | Reachable(g, p, id) ensures id in seen {
        var path :| Leads(g, p, path) && path[|path| - 1] == id;
        ClosedHoldsReachable(g, p, seen, path);
      }
    } else {
      var id, rest := queue[|queue| - 1], queue[..|queue| - 1];
      assert queue == rest + [id];
      WorkingStep(g, p, seen, rest, id);
      if id in seen {
        VisitsAreReachable(g, p, rest, seen);
      } else {
        assert id in Mentioned(g) - seen;
        VisitsAreReachable(g, p, Queued(g, p, rest, id), seen + {id});
        assert Reachable(g, p, id) by { assert id in queue; }
      }
    }
  }

  lemma NextVisit(g: Graph, p: Policy, queue: seq<int>, seen: set<int>)
    requires queue != [] && Working(g, p, seen, queue)
    ensures var id, rest := queue[|queue| - 1], queue[..|queue| - 1];
      && (forall x <- rest :: x in Mentioned(g))
      && (forall x <- Queued(g, p, rest, id) :: x in Mentioned(g))
      && id in Mentioned(g)
      && (if id in seen then Visits(g, p, queue, seen) == Visits(g, p, rest, seen) && Working(g, p, seen, rest)
          else
            && Visits(g, p, queue, seen) == [id] + Visits(g, p, Queued(g, p, rest, id), seen + {id})
            && Working(g, p, seen + {id}, Queued(g, p, rest, id)))
  {
    hide Follows, Reachable;
    var id, rest := queue[|queue| - 1], queue[..|queue| - 1];
    assert queue == rest + [id];
    WorkingStep(g, p, seen, rest, id);
  }

  /** The worklist walk: it visits exactly the reachable ids, each once, dangling ones included. */
  method Walk(g: Graph, p: Policy) returns (visited: seq<int>)
    ensures visited == Visits(g, p, g.roots, {})
    ensures forall id :: id in visited <==> Reachable(g, p, id)
    ensures forall i, j | 0 <= i < j < |visited| :: visited[i] != visited[j]
  {
    hide Working, Follows, Reachable, Visits, Mentioned;
    var queue := g.roots;
    var seenIds: set<int> := {};
    visited := [];
    WorkingStart(g, p);
    WorkingQueue(g, p, {}, g.roots);
    VisitsAreReachable(g, p, g.roots, {});
    while queue != []
      invariant Working(g, p, seenIds, queue) && forall id <- queue :: id in Mentioned(g)
      invariant visited + Visits(g, p, queue, seenIds) == Visits(g, p, g.roots, {})
      decreases Mentioned(g) - seenIds, |queue|
    {
      NextVisit(g, p, queue, seenIds);
      var id := queue[|queue| - 1];
      queue := queue[..|queue| - 1];
      if id in seenIds { continue; }
      assert id in Mentioned(g) - seenIds;
      seenIds := seenIds + {id};
      visited := visited + [id];
      if id !in g.rows { continue; }
      if Follows(p, g.rows[id]) {
        queue := queue + g.rows[id].successors;
      }
    }
    NothingToVisit(g, p, seenIds);
  }

  lemma NothingToVisit(g: Graph, p: Policy, seen: set<int>)
    ensures Visits(g, p, [], seen) == []
  {
  }

  lemma WorkingQueue(g: Graph, p: Policy, seen: set<int>, queue: seq<int>)
    requires Working(g, p, seen, queue)
    ensures forall id <- queue :: id in Mentioned(g)
  {
  }

  // ---------- entries over all the files of one corpus ----------

  /** Some row reached in graph `g` carries the entry. */
  ghost predicate MetIn(g: Graph, p: Policy, identity: string) {
    exists id :: id in g.rows && Reachable(g, p, id) && g.rows[id].IsDecision() && g.rows[id].identity == identity
  }

  ghost predicate Met(graphs: seq<Graph>, p: Policy, identity: string) {
    exists g <- graphs :: MetIn(g, p, identity)
  }

  /** The questions of the rows collected among `ids`, in that order. */
  ghost function Posed(g: Graph, p: Policy, ids: seq<int>): seq<Question> {
    if ids == [] then []
    else
      var id := ids[|ids| - 1];
      Posed(g, p, ids[..|ids| - 1]) + if id in g.rows && Collects(p, g.rows[id]) then [g.rows[id].Asks()] else []
  }

  ghost function Questions(g: Graph, p: Policy): seq<Question> {
    Posed(g, p, Visits(g, p, g.roots, {}))
  }

  ghost function AllQuestions(graphs: seq<Graph>, p: Policy): seq<Question> {
    if graphs == [] then [] else AllQuestions(graphs[..|graphs| - 1], p) + Questions(graphs[|graphs| - 1], p)
  }

  ghost predicate Poses(questions: seq<Question>, identity: string) {
    exists q <- questions :: q.identity == identity
  }

  /** The action of the last question about a state. */
  ghost function Latest(questions: seq<Question>, identity: string): int {
    if questions == [] then 0
    else
      var last := questions[|questions| - 1];
      if last.identity == identity then last.action else Latest(questions[..|questions| - 1], identity)
  }

  lemma {:induction false} LatestOfBoth(a: seq<Question>, b: seq<Question>, identity: string)
    ensures Poses(a + b, identity) <==> Poses(a, identity) || Poses(b, identity)
    ensures Latest(a + b, identity) == if Poses(b, identity) then Latest(b, identity) else Latest(a, identity)
  {
    PosesBoth(a, b, identity);
    if b == [] {
      assert a + b == a;
    } else {
      var shorter, last := b[..|b| - 1], b[|b| - 1];
      assert (a + b)[..|a + b| - 1] == a + shorter && b == shorter + [last];
      LatestOfBoth(a, shorter, identity);
      PosesBoth(shorter, [last], identity);
    }
  }

  lemma PosesBoth(a: seq<Question>, b: seq<Question>, identity: string)
    ensures Poses(a + b, identity) <==> Poses(a, identity) || Poses(b, identity)
  {
    assert forall q :: q in a + b <==> q in a || q in b;
  }

  lemma {:induction false} LatestIsPosed(questions: seq<Question>, identity: string)
    requires Poses(questions, identity)
    ensures Question(identity, Latest(questions, identity)) in questions
  {
    var shorter, last := questions[..|questions| - 1], questions[|questions| - 1];
    assert questions == shorter + [last];
    if last.identity == identity {
      assert last == Question(identity, last.action);
    } else {
      LatestIsPosed(shorter, identity);
    }
  }

  lemma {:induction false} PosedByRows(g: Graph, p: Policy, ids: seq<int>, q: Question)
    ensures q in Posed(g, p, ids) <==>
      exists id <- ids :: id in g.rows && Collects(p, g.rows[id]) && g.rows[id].Asks() == q
  {
    if ids != [] {
      var shorter, last := ids[..|ids| - 1], ids[|ids| - 1];
      assert ids == shorter + [last];
      PosedByRows(g, p, shorter, q);
    }
  }

  /** A walk asks about exactly the states it meets and collects. */
  lemma QuestionsAreMet(g: Graph, p: Policy, identity: string)
    ensures Poses(Questions(g, p), identity) <==> MetIn(g, p, identity) && CollectsEntry(p, identity)
  {
    hide CollectsEntry, Posed, Visits, Reachable;
    WorkingStart(g, p);
    VisitsAreReachable(g, p, g.roots, {});
    var visited := Visits(g, p, g.roots, {});
    if Poses(Questions(g, p), identity) {
      var q :| q in Questions(g, p) && q.identity == identity;
      PosedByRows(g, p, visited, q);
    }
    if MetIn(g, p, identity) && CollectsEntry(p, identity) {
      var id :| id in g.rows && Reachable(g, p, id) && g.rows[id].IsDecision() && g.rows[id].identity == identity;
      PosedByRows(g, p, visited, g.rows[id].Asks());
      assert id in visited;
    }
  }

  lemma {:induction false} AllQuestionsAreMet(graphs: seq<Graph>, p: Policy, identity: string)
    ensures Poses(AllQuestions(graphs, p), identity) <==> Met(graphs, p, identity) && CollectsEntry(p, identity)
  {
    hide Questions, MetIn, CollectsEntry;
    if graphs != [] {
      var rest, last := graphs[..|graphs| - 1], graphs[|graphs| - 1];
      assert graphs == rest + [last];
      AllQuestionsAreMet(rest, p, identity);
      PosesBoth(AllQuestions(rest, p), Questions(last, p), identity);
      QuestionsAreMet(last, p, identity);
    }
  }

  /** `action` holds the action of the last question about each of the entries. */
  ghost predicate LatestOf(questions: seq<Question>, entries: seq<string>, action: map<string, int>) {
    && (forall identity :: identity in action <==> identity in entries)
    && forall identity <- entries :: action[identity] == Latest(questions, identity)
  }

  /** The entries a walk of every file collects, each once, in the order they are first met, and for each the
      action of the row that was met last. */
  method Collect(graphs: seq<Graph>, p: Policy) returns (entries: seq<string>, action: map<string, int>)
    ensures forall i, j | 0 <= i < j < |entries| :: entries[i] != entries[j]
    ensures forall identity :: identity in entries <==> Met(graphs, p, identity) && CollectsEntry(p, identity)
    ensures LatestOf(AllQuestions(graphs, p), entries, action)
  {
    hide CollectsEntry, Visits, Latest, Met, Collects;
    entries, action := [], map[];
    for n := 0 to |graphs|
      invariant Gathered(AllQuestions(graphs[..n], p), entries, action)
    {
      assert graphs[..n + 1][..n] == graphs[..n];
      entries, action := Gather(graphs[n], p, AllQuestions(graphs[..n], p), entries, action);
    }
    assert graphs[..|graphs|] == graphs;
    forall identity ensures identity in entries <==> Met(graphs, p, identity) && CollectsEntry(p, identity) {
      AllQuestionsAreMet(graphs, p, identity);
    }
  }

  /** The walk of one more file. */
  method Gather(g: Graph, p: Policy, ghost questions: seq<Question>, before: seq<string>, known: map<string, int>)
    returns (entries: seq<string>, action: map<string, int>)
    requires Gathered(questions, before, known)
    ensures Gathered(questions + Questions(g, p), entries, action)
  {
    hide Collects, Visits, Gathered;
    var visited := Walk(g, p);
    entries, action := before, known;
    assert questions + Posed(g, p, []) == questions;
    for k := 0 to |visited|
      invariant Gathered(questions + Posed(g, p, visited[..k]), entries, action)
    {
      var id := visited[k];
      assert visited[..k + 1][..k] == visited[..k];
      if id in g.rows && Collects(p, g.rows[id]) {
        var q := g.rows[id].Asks();
        GatheredMore(questions + Posed(g, p, visited[..k]), entries, action, q);
        assert questions + Posed(g, p, visited[..k + 1]) == questions + Posed(g, p, visited[..k]) + [q];
        if q.identity !in action { entries := entries + [q.identity]; }
        action := action[q.identity := q.action];
      } else {
        assert questions + Posed(g, p, visited[..k + 1]) == questions + Posed(g, p, visited[..k]);
      }
    }
    assert visited[..|visited|] == visited;
  }

  /** An insertion-ordered map after every question was set in turn. */
  ghost predicate Gathered(questions: seq<Question>, entries: seq<string>, action: map<string, int>) {
    && (forall i, j | 0 <= i < j < |entries| :: entries[i] != entries[j])
    && (forall identity :: identity in entries <==> Poses(questions, identity))
    && LatestOf(questions, entries, action)
  }

  lemma GatheredMore(questions: seq<Question>, entries: seq<string>, action: map<string, int>, q: Question)
    requires Gathered(questions, entries, action)
    ensures Gathered(questions + [q],
                     if q.identity in action then entries else entries + [q.identity],
                     action[q.identity := q.action])
  {
    hide Poses, Latest;
    var longer := if q.identity in action then entries else entries + [q.identity];
    forall identity
      ensures Poses(questions + [q], identity) <==> Poses(questions, identity) || identity == q.identity
      ensures Latest(questions + [q], identity)
        == if identity == q.identity then q.action else Latest(questions, identity)
    {
      OneMoreQuestion(questions, q, identity);
    }
    SetOnce(entries, q.identity);
    assert longer == if q.identity in entries then entries else entries + [q.identity];
  }

  lemma OneMoreQuestion(questions: seq<Question>, q: Question, identity: string)
    ensures Poses(questions + [q], identity) <==> Poses(questions, identity) || identity == q.identity
    ensures Latest(questions + [q], identity)
      == if identity == q.identity then q.action else Latest(questions, identity)
  {
    PosesBoth(questions, [q], identity);
    assert (questions + [q])[..|questions|] == questions;
    if identity == q.identity { assert q in [q]; }
  }

  lemma SetOnce(entries: seq<string>, identity: string)
    requires forall i, j | 0 <= i < j < |entries| :: entries[i] != entries[j]
    ensures var longer := if identity in entries then entries else entries + [identity];
      && (forall i, j | 0 <= i < j < |longer| :: longer[i] != longer[j])
      && (forall i :: i in longer <==> i in entries || i == identity)
  {
  }
}
