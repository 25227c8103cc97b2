/** The labyrinth arena (sim/dnet-lab.ts): an omniscient breadth-first lower bound and the paid
 * protocol loop, run against an arbitrary route. */
module Labyrinth {
  import opened Wrappers

  // ---------- the maze ----------

  datatype Cell = Cell(x: int, y: int)

  datatype Direction = North | East | South | West

  const DIRECTIONS := [North, East, South, West]

  type Maze = seq<string>

  const MAZE_PATH := ' '

  function StepX(d: Direction): int {
    match d
    case East => 1
    case West => -1
    case _ => 0
  }

  /** y grows downward. */
  function StepY(d: Direction): int {
    match d
    case South => 1
    case North => -1
    case _ => 0
  }

  /** Where a step lands: two cells on, with the wall slot between. */
  function Ahead(at: Cell, d: Direction): Cell {
    Cell(at.x + 2 * StepX(d), at.y + 2 * StepY(d))
  }

  /** The wall slot of a step is a path; a slot outside the maze never is. */
  predicate Open(maze: Maze, at: Cell, d: Direction) {
    var to := Ahead(at, d);
    var wall := Cell((at.x + to.x) / 2, (at.y + to.y) / 2);
    0 <= wall.y < |maze| && 0 <= wall.x < |maze[wall.y]| && maze[wall.y][wall.x] == MAZE_PATH
  }

  /** Where a list of steps leads, if none of them runs into a wall. */
  function Follow(maze: Maze, start: Cell, steps: seq<Direction>): Option<Cell>
    decreases |steps|
  {
    if steps == [] then Some(start)
    else
      var at := Follow(maze, start, steps[..|steps| - 1]);
      var d := steps[|steps| - 1];
      if at.Some? && Open(maze, at.value, d) then Some(Ahead(at.value, d)) else None
  }

  lemma FollowOn(maze: Maze, start: Cell, steps: seq<Direction>, d: Direction)
    requires Follow(maze, start, steps).Some? && Open(maze, Follow(maze, start, steps).value, d)
    ensures Follow(maze, start, steps + [d]) == Some(Ahead(Follow(maze, start, steps).value, d))
  {
    assert (steps + [d])[..|steps|] == steps;
  }

  // ---------- the omniscient search ----------

  datatype Found = Found(at: Cell, distance: nat)

  ghost predicate Walkable(maze: Maze, start: Cell, f: Found) {
    exists steps :: Follow(maze, start, steps) == Some(f.at) && |steps| == f.distance
  }

  /** The queue of a breadth-first search: distinct cells in order of distance, each really that far. */
  ghost predicate Layered(maze: Maze, start: Cell, queue: seq<Found>) {
    && queue != [] && queue[0] == Found(start, 0)
    && (forall i, j | 0 <= i < j < |queue| :: queue[i].at != queue[j].at && queue[i].distance <= queue[j].distance)
    && (forall f <- queue :: Walkable(maze, start, f) && f.at in Universe(maze, start))
  }

  /** `at` is queued no farther than `limit`. */
  ghost predicate Near(queue: seq<Found>, at: Cell, limit: nat) {
    exists j :: 0 <= j < |queue| && queue[j].at == at && queue[j].distance <= limit
  }

  ghost predicate Expanded(maze: Maze, queue: seq<Found>, i: nat, d: Direction) {
    i < |queue| && Open(maze, queue[i].at, d) ==> Near(queue, Ahead(queue[i].at, d), queue[i].distance + 1)
  }

  /** Everything before `read` is expanded, and nothing is queued beyond the next layer. */
  ghost predicate Searched(maze: Maze, queue: seq<Found>, read: nat) {
    && (forall i: nat, d | i < read :: Expanded(maze, queue, i, d))
    && (read < |queue| ==> queue[|queue| - 1].distance <= queue[read].distance + 1)
  }

  function Widest(maze: Maze): nat {
    if maze == [] then 0
    else if |maze[0]| > Widest(maze[1..]) then |maze[0]| else Widest(maze[1..])
  }

  lemma {:induction false} WidestBounds(maze: Maze, y: nat)
    requires y < |maze|
    ensures |maze[y]| <= Widest(maze)
  {
    if y > 0 {
      WidestBounds(maze[1..], y - 1);
    }
  }

  /** Every cell a walk can stand on. */
  ghost function Universe(maze: Maze, start: Cell): set<Cell> {
    {start} + set x, y | -1 <= x <= Widest(maze) && -1 <= y <= |maze| :: Cell(x, y)
  }

  lemma OpenStaysInside(maze: Maze, start: Cell, at: Cell, d: Direction)
    requires Open(maze, at, d)
    ensures Ahead(at, d) in Universe(maze, start)
  {
    WidestBounds(maze, (at.y + Ahead(at, d).y) / 2);
  }

  lemma {:induction false} DistinctFits(queue: seq<Found>, cells: set<Cell>)
    requires forall i, j | 0 <= i < j < |queue| :: queue[i].at != queue[j].at
    requires forall f <- queue :: f.at in cells
    ensures |queue| <= |cells|
  {
    if queue != [] {
      var last := queue[|queue| - 1];
      assert last in queue;
      DistinctFits(queue[..|queue| - 1], cells - {last.at});
    }
  }

  /** Every walk no longer than the distance being read ends at a queued cell, no farther than it. */
  lemma {:induction false} Covered(maze: Maze, start: Cell, queue: seq<Found>, read: nat, steps: seq<Direction>)
    requires Layered(maze, start, queue) && Searched(maze, queue, read)
    requires read < |queue| ==> |steps| <= queue[read].distance
    requires Follow(maze, start, steps).Some?
    ensures Near(queue, Follow(maze, start, steps).value, |steps|)
    decreases |steps|
  {
    if steps == [] {
      assert queue[0].at == start;
    } else {
      var shorter := steps[..|steps| - 1];
      var d := steps[|steps| - 1];
      Covered(maze, start, queue, read, shorter);
      var j: nat :| j < |queue| && queue[j].at == Follow(maze, start, shorter).value && queue[j].distance <= |shorter|;
      assert j < read;
      assert Expanded(maze, queue, j, d);
      var k :| 0 <= k < |queue| && queue[k].at == Ahead(queue[j].at, d) && queue[k].distance <= queue[j].distance + 1;
      assert Near(queue, queue[k].at, |steps|);
    }
  }

  /** No walk to `exit` is shorter than the entry now being read. */
  lemma NothingShorter(maze: Maze, start: Cell, exit: Cell, queue: seq<Found>, read: nat)
    requires Layered(maze, start, queue) && Searched(maze, queue, read) && read < |queue|
    requires forall i | 0 <= i < read :: queue[i].at != exit
    ensures forall steps | Follow(maze, start, steps) == Some(exit) :: queue[read].distance <= |steps|
  {
    forall steps | Follow(maze, start, steps) == Some(exit) ensures queue[read].distance <= |steps| {
      if |steps| < queue[read].distance {
        Covered(maze, start, queue, read, steps);
      }
    }
  }

  /** With the whole queue read, no walk reaches a cell that is not in it. */
  lemma NothingAtAll(maze: Maze, start: Cell, exit: Cell, queue: seq<Found>)
    requires Layered(maze, start, queue) && Searched(maze, queue, |queue|)
    requires forall i | 0 <= i < |queue| :: queue[i].at != exit
    ensures forall steps :: Follow(maze, start, steps) != Some(exit)
  {
    forall steps ensures Follow(maze, start, steps) != Some(exit) {
      if Follow(maze, start, steps) == Some(exit) {
        Covered(maze, start, queue, |queue|, steps);
      }
    }
  }

  /** The queue entry for an open neighbour of the cell being read. */
  function Neighbour(f: Found, d: Direction): Found {
    Found(Ahead(f.at, d), f.distance + 1)
  }

  lemma NeighbourIsWalkable(maze: Maze, start: Cell, f: Found, d: Direction)
    requires Walkable(maze, start, f) && Open(maze, f.at, d)
    ensures Walkable(maze, start, Neighbour(f, d)) && Neighbour(f, d).at in Universe(maze, start)
  {
    var steps :| Follow(maze, start, steps) == Some(f.at) && |steps| == f.distance;
    FollowOn(maze, start, steps, d);
    assert |steps + [d]| == f.distance + 1;
    OpenStaysInside(maze, start, f.at, d);
  }

  lemma EnqueueKeepsLayers(maze: Maze, start: Cell, queue: seq<Found>, f: Found)
    requires Layered(maze, start, queue) && queue[|queue| - 1].distance <= f.distance
    requires Walkable(maze, start, f) && f.at in Universe(maze, start)
    requires forall g <- queue :: g.at != f.at
    ensures Layered(maze, start, queue + [f])
  {
    var longer := queue + [f];
    forall i, j | 0 <= i < j < |longer|
      ensures longer[i].at != longer[j].at && longer[i].distance <= longer[j].distance {
      assert queue[i] in queue && longer[i] == queue[i];
      if j < |queue| {
        assert longer[j] == queue[j];
      } else {
        assert i == |queue| - 1 || queue[i].distance <= queue[|queue| - 1].distance;
      }
    }
  }

  lemma EnqueueKeepsExpanded(maze: Maze, queue: seq<Found>, f: Found, i: nat, d: Direction)
    requires i < |queue| && Expanded(maze, queue, i, d)
    ensures Expanded(maze, queue + [f], i, d)
  {
    NearGrows(queue, f);
    assert (queue + [f])[i] == queue[i];
  }

  lemma EnqueueKeepsSearched(maze: Maze, queue: seq<Found>, read: nat, d: Direction)
    requires Searched(maze, queue, read) && read < |queue|
    ensures Searched(maze, queue + [Neighbour(queue[read], d)], read)
    ensures Expanded(maze, queue + [Neighbour(queue[read], d)], read, d)
    ensures forall e | Expanded(maze, queue, read, e) :: Expanded(maze, queue + [Neighbour(queue[read], d)], read, e)
  {
    var f := Neighbour(queue[read], d);
    var longer := queue + [f];
    assert longer[|queue|] == f && longer[read] == queue[read];
    forall i: nat, e | i <= read && Expanded(maze, queue, i, e) ensures Expanded(maze, longer, i, e) {
      EnqueueKeepsExpanded(maze, queue, f, i, e);
    }
  }

  lemma NearGrows(queue: seq<Found>, f: Found)
    ensures forall at, limit :: Near(queue, at, limit) ==> Near(queue + [f], at, limit)
  {
    forall at, limit: nat | Near(queue, at, limit) ensures Near(queue + [f], at, limit) {
      var j :| 0 <= j < |queue| && queue[j].at == at && queue[j].distance <= limit;
      assert (queue + [f])[j] == queue[j];
    }
  }

  /** `seen` is the set of queued cells. */
  ghost predicate Records(seen: set<Cell>, queue: seq<Found>) {
    && (forall f <- queue :: f.at in seen)
    && (forall c <- seen :: exists f <- queue :: f.at == c)
  }

  lemma RecordsOneMore(seen: set<Cell>, queue: seq<Found>, f: Found)
    requires Records(seen, queue)
    ensures Records(seen + {f.at}, queue + [f])
  {
    var longer := queue + [f];
    assert f in longer;
    forall c <- seen ensures exists g <- longer :: g.at == c {
      var g :| g in queue && g.at == c;
      assert g in longer;
    }
  }

  /** One direction out of the cell being read: an open neighbour not yet seen joins the queue. */
  method Visit(maze: Maze, start: Cell, before: seq<Found>, read: nat, known: set<Cell>, d: Direction)
    returns (queue: seq<Found>, seen: set<Cell>)
    requires Layered(maze, start, before) && Searched(maze, before, read) && read < |before|
    requires Records(known, before)
    ensures Layered(maze, start, queue) && Searched(maze, queue, read) && Records(seen, queue)
    ensures before <= queue && Expanded(maze, queue, read, d)
    ensures forall e | Expanded(maze, before, read, e) :: Expanded(maze, queue, read, e)
  {
    queue, seen := before, known;
    var current := queue[read];
    var to := Ahead(current.at, d);
    if !Open(maze, current.at, d) { return; }
    if to in seen {
      SeenIsNear(maze, queue, read, to);
      return;
    }
    assert current in queue;
    NeighbourIsWalkable(maze, start, current, d);
    EnqueueKeepsLayers(maze, start, queue, Neighbour(current, d));
    EnqueueKeepsSearched(maze, queue, read, d);
    RecordsOneMore(seen, queue, Neighbour(current, d));
    seen := seen + {to};
    queue := queue + [Found(to, current.distance + 1)];
  }

  /** The first `k` directions are expanded. */
  ghost predicate ExpandedTo(maze: Maze, queue: seq<Found>, read: nat, k: nat) {
    && (0 < k ==> Expanded(maze, queue, read, North))
    && (1 < k ==> Expanded(maze, queue, read, East))
    && (2 < k ==> Expanded(maze, queue, read, South))
    && (3 < k ==> Expanded(maze, queue, read, West))
  }

  lemma AllDirections(maze: Maze, queue: seq<Found>, read: nat)
    requires Searched(maze, queue, read) && read < |queue| && ExpandedTo(maze, queue, read, 4)
    requires forall i, j | 0 <= i < j < |queue| :: queue[i].distance <= queue[j].distance
    ensures Searched(maze, queue, read + 1)
  {
    forall d ensures Expanded(maze, queue, read, d) {
      match d {
        case North =>
        case East =>
        case South =>
        case West =>
      }
    }
  }

  /** One queued cell, all four directions. */
  method Expand(maze: Maze, start: Cell, before: seq<Found>, read: nat, known: set<Cell>)
    returns (queue: seq<Found>, seen: set<Cell>)
    requires Layered(maze, start, before) && Searched(maze, before, read) && read < |before|
    requires Records(known, before)
    ensures Layered(maze, start, queue) && Searched(maze, queue, read + 1) && Records(seen, queue)
    ensures before <= queue
  {
    queue, seen := before, known;
    for k := 0 to |DIRECTIONS|
      invariant Layered(maze, start, queue) && Searched(maze, queue, read) && Records(seen, queue)
      invariant before <= queue
      invariant ExpandedTo(maze, queue, read, k)
    {
      queue, seen := Visit(maze, start, queue, read, seen, DIRECTIONS[k]);
    }
    AllDirections(maze, queue, read);
  }

  lemma SeenIsNear(maze: Maze, queue: seq<Found>, read: nat, to: Cell)
    requires Searched(maze, queue, read) && read < |queue|
    requires forall i, j | 0 <= i < j < |queue| :: queue[i].distance <= queue[j].distance
    requires exists f <- queue :: f.at == to
    ensures Near(queue, to, queue[read].distance + 1)
  {
    var f :| f in queue && f.at == to;
    var j :| 0 <= j < |queue| && queue[j] == f;
    assert queue[j].distance <= queue[|queue| - 1].distance;
  }

  lemma StandStill(maze: Maze, start: Cell)
    ensures Layered(maze, start, [Found(start, 0)])
  {
    assert Follow(maze, start, []) == Some(start);
  }

  /** The true minimum number of steps from start to exit; `None` exactly when there is none. */
  method ShortestLabPath(maze: Maze, start: Cell, exit: Cell) returns (r: Option<nat>)
    ensures r.Some? ==> Walkable(maze, start, Found(exit, r.value))
    ensures r.Some? ==> forall steps | Follow(maze, start, steps) == Some(exit) :: r.value <= |steps|
    ensures r.None? ==> forall steps :: Follow(maze, start, steps) != Some(exit)
  {
    var queue := [Found(start, 0)];
    var seen := {start};
    StandStill(maze, start);
    var read := 0;
    while read < |queue|
      invariant 0 <= read <= |queue|
      invariant Layered(maze, start, queue) && Searched(maze, queue, read)
      invariant Records(seen, queue)
      invariant forall i | 0 <= i < read :: queue[i].at != exit
      decreases |Universe(maze, start)| - read
    {
      DistinctFits(queue, Universe(maze, start));
      var current := queue[read];
      if current.at == exit {
        assert current in queue;
        NothingShorter(maze, start, exit, queue, read);
        return Some(current.distance);
      }
      ghost var before := queue;
      queue, seen := Expand(maze, start, queue, read, seen);
      assert forall i | 0 <= i <= read :: queue[i] == before[i];
      read := read + 1;
    }
    NothingAtAll(maze, start, exit, queue);
    r := None;
  }
}
