/** The maze grid as both game files see it: a `number[][]` holding 1 for a
    wall and 0 for floor, indexed `maze[y][x]`. Here it is an `array2<int>`
    indexed `maze[y, x]`, so `Length0` is the height and `Length1` the width. */
module Grid {

  const WALL := 1
  const FLOOR := 0

  function Min(a: int, b: int): int { if a <= b then a else b }
  function Max(a: int, b: int): int { if a <= b then b else a }

  /** The four neighbour offsets at distance `step`, in the order both game
      files list them: up, right, down, left. */
  function Directions(step: int): (dirs: seq<(int, int)>)
    ensures |dirs| == 4
  {
    [(0, -step), (step, 0), (0, step), (-step, 0)]
  }

  /** (x, y) lies inside the grid and holds floor. */
  predicate IsOpen(maze: array2<int>, x: int, y: int)
    reads maze
  {
    0 <= x < maze.Length1 && 0 <= y < maze.Length0 && maze[y, x] == FLOOR
  }

  /** How many of the first `k` directions at distance `step` from (x, y)
      lead to an in-bounds floor cell. */
  function OpenAmong(maze: array2<int>, x: int, y: int, step: int, k: nat): (n: nat)
    requires k <= 4
    reads maze
    ensures n <= k
  {
    if k == 0 then 0
    else
      var d := Directions(step)[k - 1];
      OpenAmong(maze, x, y, step, k - 1) + (if IsOpen(maze, x + d.0, y + d.1) then 1 else 0)
  }

  /** How many of the four cells at distance `step` from (x, y) are inside the
      grid and floor. */
  function OpenNeighbours(maze: array2<int>, x: int, y: int, step: int): (n: nat)
    reads maze
  {
    OpenAmong(maze, x, y, step, 4)
  }

  /** The neighbour in direction `i` at distance `step` is open. */
  predicate OpenToward(maze: array2<int>, x: int, y: int, step: int, i: nat)
    requires i < 4
    reads maze
  {
    IsOpen(maze, x + Directions(step)[i].0, y + Directions(step)[i].1)
  }

  /** Exactly one of the four neighbours at distance `step` is open. */
  predicate SingleOpening(maze: array2<int>, x: int, y: int, step: int)
    reads maze
  {
    var o0, o1, o2, o3 := OpenToward(maze, x, y, step, 0), OpenToward(maze, x, y, step, 1),
                          OpenToward(maze, x, y, step, 2), OpenToward(maze, x, y, step, 3);
    (o0 && !o1 && !o2 && !o3) || (!o0 && o1 && !o2 && !o3) ||
    (!o0 && !o1 && o2 && !o3) || (!o0 && !o1 && !o2 && o3)
  }

  /** The count agrees with the neighbours one by one: it is 0 exactly when all
      four neighbours are closed, and 1 exactly when a single one is open. */
  lemma {:induction false} OpenNeighboursZeroOrOne(maze: array2<int>, x: int, y: int, step: int)
    ensures OpenNeighbours(maze, x, y, step) == 0 <==>
              !OpenToward(maze, x, y, step, 0) && !OpenToward(maze, x, y, step, 1) &&
              !OpenToward(maze, x, y, step, 2) && !OpenToward(maze, x, y, step, 3)
    ensures OpenNeighbours(maze, x, y, step) == 1 <==> SingleOpening(maze, x, y, step)
  {
    var o0, o1 := OpenToward(maze, x, y, step, 0), OpenToward(maze, x, y, step, 1);
    var o2, o3 := OpenToward(maze, x, y, step, 2), OpenToward(maze, x, y, step, 3);
    assert OpenAmong(maze, x, y, step, 1) == (if o0 then 1 else 0);
    assert OpenAmong(maze, x, y, step, 2) == OpenAmong(maze, x, y, step, 1) + (if o1 then 1 else 0);
    assert OpenAmong(maze, x, y, step, 3) == OpenAmong(maze, x, y, step, 2) + (if o2 then 1 else 0);
    assert OpenNeighbours(maze, x, y, step) == OpenAmong(maze, x, y, step, 3) + (if o3 then 1 else 0);
  }
}
