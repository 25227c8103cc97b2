/** Where steps lead in the labyrinth, and what a walker is shown of them (sim/dnet-lab.ts). */
module LabGeometry {
  import opened LabArena
  import opened Labyrinth
  import opened Wrappers

  function Opposite(d: Direction): Direction {
    match d
    case North => South
    case South => North
    case East => West
    case West => East
  }

  /** A path is a blank inside the drawing. */
  predicate Blank(maze: Maze, x: int, y: int) {
    0 <= y < |maze| && 0 <= x < |maze[y]| && maze[y][x] == ' '
  }

  /** A step lands two cells up, right, down or left, and is open exactly when the cell between is a blank. */
  lemma StepsByDirection(maze: Maze, at: Cell)
    ensures Ahead(at, North) == Cell(at.x, at.y - 2) && (Open(maze, at, North) <==> Blank(maze, at.x, at.y - 1))
    ensures Ahead(at, East) == Cell(at.x + 2, at.y) && (Open(maze, at, East) <==> Blank(maze, at.x + 1, at.y))
    ensures Ahead(at, South) == Cell(at.x, at.y + 2) && (Open(maze, at, South) <==> Blank(maze, at.x, at.y + 1))
    ensures Ahead(at, West) == Cell(at.x - 2, at.y) && (Open(maze, at, West) <==> Blank(maze, at.x - 1, at.y))
  {
    hide Open, Blank;
    SlotBetween(maze, at, North);
    SlotBetween(maze, at, East);
    SlotBetween(maze, at, South);
    SlotBetween(maze, at, West);
  }

  lemma SlotBetween(maze: Maze, at: Cell, d: Direction)
    ensures Open(maze, at, d) <==> Blank(maze, at.x + StepX(d), at.y + StepY(d))
  {
    hide StepX, StepY;
    Middle(at.x, StepX(d), at.x + 2 * StepX(d));
    Middle(at.y, StepY(d), at.y + 2 * StepY(d));
  }

  lemma Middle(a: int, e: int, b: int)
    requires b == a + 2 * e
    ensures (a + b) / 2 == a + e
  {
  }

  /** Whoever can step over can step back. */
  lemma StepsGoBack(maze: Maze, at: Cell, d: Direction)
    ensures Ahead(Ahead(at, d), Opposite(d)) == at
    ensures Open(maze, Ahead(at, d), Opposite(d)) <==> Open(maze, at, d)
  {
    hide Open, Blank;
    StepsByDirection(maze, at);
    StepsByDirection(maze, Ahead(at, d));
  }

  function Taken(steps: seq<Direction>, d: Direction): nat {
    if steps == [] then 0 else Taken(steps[..|steps| - 1], d) + if steps[|steps| - 1] == d then 1 else 0
  }

  /** A walk ends where its steps add up to, whatever their order. */
  lemma {:induction false} WalksAddUp(maze: Maze, start: Cell, steps: seq<Direction>)
    requires Follow(maze, start, steps).Some?
    ensures Follow(maze, start, steps).value
      == Cell(start.x + 2 * (Taken(steps, East) as int - Taken(steps, West) as int),
              start.y + 2 * (Taken(steps, South) as int - Taken(steps, North) as int))
  {
    hide Open, Ahead;
    if steps != [] {
      var shorter, d := steps[..|steps| - 1], steps[|steps| - 1];
      WalksAddUp(maze, start, shorter);
      StepsByDirection(maze, Follow(maze, start, shorter).value);
    }
  }

  /** So two walks that take the same steps in another order meet, if both get through. */
  lemma SameStepsMeet(maze: Maze, start: Cell, a: seq<Direction>, b: seq<Direction>)
    requires Follow(maze, start, a).Some? && Follow(maze, start, b).Some?
    requires forall d :: Taken(a, d) == Taken(b, d)
    ensures Follow(maze, start, a) == Follow(maze, start, b)
  {
    hide Follow, Taken;
    WalksAddUp(maze, start, a);
    WalksAddUp(maze, start, b);
  }

  lemma {:induction false} LegalPrefix(lab: LabCase, route: Route, log: seq<Action>, k: nat)
    requires Legal(lab, route, log) && k <= |log|
    ensures Legal(lab, route, log[..k])
    decreases |log|
  {
    hide Lawful;
    if k < |log| {
      assert log[..|log| - 1][..k] == log[..k];
      LegalPrefix(lab, route, log[..|log| - 1], k);
    } else {
      assert log[..k] == log;
    }
  }

  /** What the walker is shown is true: a radar shows where it stands, with the exit, and leaves it there; a move
      shows where it then stands, without, and says it moved exactly when it stands elsewhere than before. */
  lemma ShownIsTrue(lab: LabCase, route: Route, log: seq<Action>, k: nat)
    requires Legal(lab, route, log) && k < |log|
    ensures var (before, after, o) := (Position(lab, log[..k]), Position(lab, log[..k + 1]), History(lab, log)[k]);
      && (o.RadarSeen? <==> log[k].decision.Radar?)
      && (o.RadarSeen? ==> after == before && o.surroundings == lab.render(before, true))
      && (o.MoveSeen? ==>
            && o.at == after && o.surroundings == lab.render(after, false) && (o.moved <==> after != before)
            && log[k].decision.Move? && (o.moved <==> Open(lab.maze, before, log[k].decision.direction)))
  {
    hide Open;
    LegalPrefix(lab, route, log, k + 1);
    assert log[..k + 1][..k] == log[..k];
    assert Lawful(lab, route, log[..k], log[k]);
    var a := log[k];
    if a.decision.Move? { StepsByDirection(lab.maze, a.from); }
  }
}
