/** `LabyrinthScene.generateMaze` and `countAdjacentPaths`: a randomised
    depth-first backtracker that carves a maze into an all-wall grid, moving
    two cells at a time from an explicit stack of odd coordinates. */
module Maze {
  import opened Grid

  /** `Math.floor(r * n)` for a draw `r` of `Math.random()`, which lies in
      [0, 1): an index into a list of `n` choices. */
  function PickIndex(r: real, n: nat): (i: nat)
    requires 0.0 <= r < 1.0 && 0 < n
    ensures i < n
  {
    var p := r * (n as real);
    ScaledBelow(r, n as real);
    assert p.Floor as real <= p < n as real;
    p.Floor
  }

  /** A draw below 1 scales a positive count to less than the count. */
  lemma ScaledBelow(r: real, m: real)
    requires 0.0 <= r < 1.0 && 0.0 < m
    ensures r * m < m
  {
    assert m - r * m == (1.0 - r) * m;
  }

  /** Every index can be drawn: the draw `i / n` picks index `i`. */
  lemma PickIndexReachesEvery(n: nat, i: nat)
    requires i < n
    ensures 0.0 <= (i as real) / (n as real) < 1.0
    ensures PickIndex((i as real) / (n as real), n) == i
  {
    var r := (i as real) / (n as real);
    assert r * (n as real) == i as real;
  }

  /** t is one of the four cells two steps away from c along an axis. */
  predicate IsStepNeighbour(c: (int, int), t: (int, int))
  {
    (t.0 == c.0 && (t.1 == c.1 - 2 || t.1 == c.1 + 2)) ||
    (t.1 == c.1 && (t.0 == c.0 - 2 || t.0 == c.0 + 2))
  }

  /** The test a neighbour must pass to be carved: strictly inside the border,
      still wall, and at most one floor cell two steps away from it. */
  predicate IsCarveTarget(maze: array2<int>, x: int, y: int)
    reads maze
  {
    0 < x < maze.Length1 - 1 && 0 < y < maze.Length0 - 1 &&
    maze[y, x] == WALL && OpenNeighbours(maze, x, y, 2) <= 1
  }

  /** The carve targets among the first `k` step-2 neighbours of (cx, cy), in
      the order up, right, down, left. */
  function TargetsAmong(maze: array2<int>, cx: int, cy: int, k: nat): (ts: seq<(int, int)>)
    requires k <= 4
    reads maze
    ensures |ts| <= k
    ensures forall i :: 0 <= i < |ts| ==>
              IsStepNeighbour((cx, cy), ts[i]) && IsCarveTarget(maze, ts[i].0, ts[i].1)
  {
    if k == 0 then []
    else
      var d := Directions(2)[k - 1];
      var t := (cx + d.0, cy + d.1);
      TargetsAmong(maze, cx, cy, k - 1) + (if IsCarveTarget(maze, t.0, t.1) then [t] else [])
  }

  /** Every step-2 neighbour of (cx, cy) that passes the carve test. */
  function CarveTargets(maze: array2<int>, cx: int, cy: int): seq<(int, int)>
    reads maze
  {
    TargetsAmong(maze, cx, cy, 4)
  }

  /** A step-2 neighbour that passes the carve test is offered as a target:
      the four directions cover all step-2 neighbours. */
  lemma {:induction false} CarveTargetsComplete(maze: array2<int>, cx: int, cy: int, t: (int, int))
    requires IsStepNeighbour((cx, cy), t) && IsCarveTarget(maze, t.0, t.1)
    ensures t in CarveTargets(maze, cx, cy)
  {
    var k := if t.1 == cy - 2 then 1 else if t.0 == cx + 2 then 2 else if t.1 == cy + 2 then 3 else 4;
    assert Directions(2)[k - 1] == (t.0 - cx, t.1 - cy);
    assert TargetsAmong(maze, cx, cy, k) == TargetsAmong(maze, cx, cy, k - 1) + [t];
    assert t in TargetsAmong(maze, cx, cy, k);
    TargetsPrefix(maze, cx, cy, k, 4);
  }

  /** The targets among fewer directions are a prefix of those among more. */
  lemma {:induction false} TargetsPrefix(maze: array2<int>, cx: int, cy: int, k: nat, m: nat)
    requires k <= m <= 4
    ensures TargetsAmong(maze, cx, cy, k) <= TargetsAmong(maze, cx, cy, m)
  {
    if k < m {
      TargetsPrefix(maze, cx, cy, k, m - 1);
    }
  }

  /** `countAdjacentPaths`: the number of floor cells two steps away from
      (x, y) along an axis, counted in a loop over the four directions. */
  method CountAdjacentPaths(maze: array2<int>, x: int, y: int) returns (count: nat)
    ensures count == OpenNeighbours(maze, x, y, 2)
    ensures count <= 4
  {
    count := 0;
    var directions := Directions(2);
    for i := 0 to 4
      invariant count == OpenAmong(maze, x, y, 2, i)
    {
      var (dx, dy) := directions[i];
      var newX, newY := x + dx, y + dy;
      if newX >= 0 && newX < maze.Length1 && newY >= 0 && newY < maze.Length0 && maze[newY, newX] == FLOOR {
        count := count + 1;
      }
    }
  }

  /** The neighbour scan of one generation step: the step-2 neighbours of the
      current cell that pass the carve test, collected in direction order. */
  method ValidNeighbours(maze: array2<int>, currentX: int, currentY: int) returns (neighbours: seq<(int, int)>)
    ensures neighbours == CarveTargets(maze, currentX, currentY)
  {
    neighbours := [];
    var directions := Directions(2);
    for i := 0 to 4
      invariant neighbours == TargetsAmong(maze, currentX, currentY, i)
    {
      var (dx, dy) := directions[i];
      var newX, newY := currentX + dx, currentY + dy;
      if newX > 0 && newX < maze.Length1 - 1 && newY > 0 && newY < maze.Length0 - 1 && maze[newY, newX] == WALL {
        var paths := CountAdjacentPaths(maze, newX, newY);
        if paths <= 1 {
          neighbours := neighbours + [(newX, newY)];
        }
      }
    }
  }

  /** (x, y) lies in the rectangle [minX, maxX] × [minY, maxY]. */
  predicate InRect(x: int, y: int, minX: int, maxX: int, minY: int, maxY: int)
  {
    minX <= x <= maxX && minY <= y <= maxY
  }

  /** The cells the source sets to floor when it carves from c to n: the
      rectangle spanned by their minima and maxima. */
  predicate InRun(c: (int, int), n: (int, int), x: int, y: int)
  {
    InRect(x, y, Min(c.0, n.0), Max(c.0, n.0), Min(c.1, n.1), Max(c.1, n.1))
  }

  /** Carving towards a step-2 neighbour opens a straight run of exactly three
      cells: the current cell, the cell between, and the neighbour. */
  lemma RunIsThreeCells(c: (int, int), n: (int, int), x: int, y: int)
    requires IsStepNeighbour(c, n)
    ensures InRun(c, n, x, y) <==>
              (x, y) == c || (x, y) == ((c.0 + n.0) / 2, (c.1 + n.1) / 2) || (x, y) == n
  {
    if n.0 == c.0 {
      assert (c.0 + n.0) / 2 == c.0;
      assert (c.1 + n.1) / 2 == if n.1 < c.1 then c.1 - 1 else c.1 + 1;
    } else {
      assert (c.1 + n.1) / 2 == c.1;
      assert (c.0 + n.0) / 2 == if n.0 < c.0 then c.0 - 1 else c.0 + 1;
    }
  }

  /** The carve loop: every in-bounds cell of the rectangle becomes floor and
      every other cell keeps its value. */
  method CarveRect(maze: array2<int>, minX: int, maxX: int, minY: int, maxY: int)
    requires minX <= maxX && minY <= maxY
    modifies maze
    ensures forall y, x :: 0 <= y < maze.Length0 && 0 <= x < maze.Length1 ==>
              maze[y, x] == if InRect(x, y, minX, maxX, minY, maxY) then FLOOR else old(maze[y, x])
  {
    var y := minY;
    while y <= maxY
      invariant minY <= y <= maxY + 1
      invariant forall yy, xx :: 0 <= yy < maze.Length0 && 0 <= xx < maze.Length1 ==>
                  maze[yy, xx] == if InRect(xx, yy, minX, maxX, minY, y - 1) then FLOOR else old(maze[yy, xx])
    {
      var x := minX;
      while x <= maxX
        invariant minX <= x <= maxX + 1
        invariant forall yy, xx :: 0 <= yy < maze.Length0 && 0 <= xx < maze.Length1 ==>
                    maze[yy, xx] == if InRect(xx, yy, minX, maxX, minY, y - 1) || (yy == y && minX <= xx < x)
                                    then FLOOR else old(maze[yy, xx])
      {
        if x >= 0 && x < maze.Length1 && y >= 0 && y < maze.Length0 {
          maze[y, x] := FLOOR;
        }
        x := x + 1;
      }
      y := y + 1;
    }
  }

  /** Every cell holds a wall or floor value. */
  ghost predicate WallOrFloor(maze: array2<int>)
    reads maze
  {
    forall y, x :: 0 <= y < maze.Length0 && 0 <= x < maze.Length1 ==> maze[y, x] == WALL || maze[y, x] == FLOOR
  }

  /** Row 0, the last row, column 0 and the last column are wall. */
  ghost predicate BorderIsWall(maze: array2<int>)
    reads maze
  {
    forall y, x :: 0 <= y < maze.Length0 && 0 <= x < maze.Length1 && OnBorder(maze, x, y) ==> maze[y, x] == WALL
  }

  /** (x, y) is on the outermost ring of the grid. */
  predicate OnBorder(maze: array2<int>, x: int, y: int)
  {
    y == 0 || y == maze.Length0 - 1 || x == 0 || x == maze.Length1 - 1
  }

  /** The 2×2 seed block at (1, 1) is floor. */
  ghost predicate SeedIsOpen(maze: array2<int>)
    reads maze
  {
    3 <= maze.Length0 && 3 <= maze.Length1 &&
    maze[1, 1] == FLOOR && maze[1, 2] == FLOOR && maze[2, 1] == FLOOR && maze[2, 2] == FLOOR
  }

  /** What holds of every coordinate on the backtracking stack: both
      coordinates odd, strictly inside the border, and the cell floor. */
  ghost predicate StackCell(maze: array2<int>, c: (int, int))
    reads maze
  {
    c.0 % 2 == 1 && c.1 % 2 == 1 &&
    0 < c.0 < maze.Length1 - 1 && 0 < c.1 < maze.Length0 - 1 &&
    maze[c.1, c.0] == FLOOR
  }

  /** Two steps along an axis from an odd coordinate pair reach an odd
      coordinate pair. */
  lemma StepKeepsOdd(c: (int, int), n: (int, int))
    requires IsStepNeighbour(c, n) && c.0 % 2 == 1 && c.1 % 2 == 1
    ensures n.0 % 2 == 1 && n.1 % 2 == 1
  {
  }

  /** The wall cells, as (x, y) pairs. Carving shrinks this set. */
  ghost function WallCells(maze: array2<int>): set<(int, int)>
    reads maze
  {
    set y, x | 0 <= y < maze.Length0 && 0 <= x < maze.Length1 && maze[y, x] == WALL :: (x, y)
  }

  /** One carve of the generation loop, from the cell c on top of the stack
      to the chosen target n: the run between them becomes floor, nothing
      else changes, the border stays wall, and n leaves the set of walls. */
  method CarveRun(maze: array2<int>, c: (int, int), n: (int, int))
    requires IsStepNeighbour(c, n) && IsCarveTarget(maze, n.0, n.1)
    requires 0 < c.0 < maze.Length1 - 1 && 0 < c.1 < maze.Length0 - 1
    requires WallOrFloor(maze) && BorderIsWall(maze)
    modifies maze
    ensures forall y, x :: 0 <= y < maze.Length0 && 0 <= x < maze.Length1 ==>
              maze[y, x] == if InRun(c, n, x, y) then FLOOR else old(maze[y, x])
    ensures WallOrFloor(maze) && BorderIsWall(maze)
    ensures WallCells(maze) < old(WallCells(maze))
  {
    var minX, maxX := Min(c.0, n.0), Max(c.0, n.0);
    var minY, maxY := Min(c.1, n.1), Max(c.1, n.1);
    ghost var wallsBefore := WallCells(maze);
    CarveRect(maze, minX, maxX, minY, maxY);
    assert (n.0, n.1) in wallsBefore - WallCells(maze);
    assert WallCells(maze) <= wallsBefore;
  }

  /** `generateMaze`: start from an all-wall grid, open the 2×2 block at
      (1, 1), then repeatedly carve from the top of the stack to a randomly
      chosen carve target and push it, or pop when there is none. `random(k)`
      is the k-th value `Math.random()` returns. */
  method GenerateMaze(width: int, height: int, random: nat -> real) returns (maze: array2<int>)
    requires 4 <= width && 4 <= height
    requires forall k :: 0.0 <= random(k) < 1.0
    ensures fresh(maze) && maze.Length0 == height && maze.Length1 == width
    ensures WallOrFloor(maze)
    ensures BorderIsWall(maze)
    ensures SeedIsOpen(maze)
  {
    maze := new int[height, width]((_, _) => WALL);
    var stack: seq<(int, int)> := [];
    var startX, startY := 1, 1;

    CarveRect(maze, startX, startX + 1, startY, startY + 1);
    stack := stack + [(startX, startY)];

    var draws: nat := 0;
    while |stack| > 0
      invariant maze.Length0 == height && maze.Length1 == width
      invariant WallOrFloor(maze) && BorderIsWall(maze) && SeedIsOpen(maze)
      invariant forall i :: 0 <= i < |stack| ==> StackCell(maze, stack[i])
      decreases WallCells(maze), |stack|
    {
      var (currentX, currentY) := stack[|stack| - 1];
      var neighbours := ValidNeighbours(maze, currentX, currentY);

      if |neighbours| > 0 {
        var (nextX, nextY) := neighbours[PickIndex(random(draws), |neighbours|)];
        draws := draws + 1;

        label BeforeCarve:
        CarveRun(maze, (currentX, currentY), (nextX, nextY));
        forall i | 0 <= i < |stack|
          ensures StackCell(maze, stack[i])
        {
          assert old@BeforeCarve(maze[stack[i].1, stack[i].0]) == FLOOR;
        }
        StepKeepsOdd((currentX, currentY), (nextX, nextY));

        stack := stack + [(nextX, nextY)];
      } else {
        stack := stack[..|stack| - 1];
      }
    }
  }
}
