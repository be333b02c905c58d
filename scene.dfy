/** The game scene `LabyrinthScene`: it generates the maze, derives the wall
    rectangles from it, keeps the fog-of-war memory of visited cells, moves
    the player by the held keys and pushes it back out of walls, and drives
    the coin helper. Rendering is left out; the fog tiles keep only their
    `Visibility`, the player only its integer position. */
module Labyrinth {
  import opened Grid
  import opened Fog
  import opened Maze
  import opened Movement
  import opened Coins

  const CELL_SIZE := 32
  const GRID_WIDTH := 31
  const GRID_HEIGHT := 23
  const VISIBILITY_RADIUS := 10
  /** The player's speed in pixels per frame, fixed in `update`. */
  const SPEED := 4
  /** The player's starting centre, in the middle of cell (1, 1). */
  const PLAYER_START := CELL_SIZE + CELL_SIZE / 2

  // ---------------------------------------------------------------------
  // The wall list

  /** The rectangle `CreateWalls` adds for the wall cell (x, y): one cell
      wide, centred in the cell. */
  function WallAt(x: int, y: int): Wall
  {
    Wall(x * CELL_SIZE + CELL_SIZE / 2, y * CELL_SIZE + CELL_SIZE / 2, CELL_SIZE)
  }

  /** The grid cell under a wall's centre, as (x, y). */
  function CellOfWall(w: Wall): (int, int)
  {
    (w.x / CELL_SIZE, w.y / CELL_SIZE)
  }

  /** A wall rectangle sits on the cell it was made for. */
  lemma WallCellRoundTrip(x: int, y: int)
    ensures CellOfWall(WallAt(x, y)) == (x, y)
  {
    assert (x * CELL_SIZE + CELL_SIZE / 2) / CELL_SIZE == x;
    assert (y * CELL_SIZE + CELL_SIZE / 2) / CELL_SIZE == y;
  }

  /** w is the rectangle of the wall cell of `maze` it stands on. */
  predicate IsWallOf(maze: array2<int>, w: Wall)
    reads maze
  {
    var (x, y) := CellOfWall(w);
    0 <= x < maze.Length1 && 0 <= y < maze.Length0 && maze[y, x] == WALL && w == WallAt(x, y)
  }

  /** Walls of the first `k` cells of row y, left to right. */
  function RowWalls(maze: array2<int>, y: int, k: nat): seq<Wall>
    requires 0 <= y < maze.Length0 && k <= maze.Length1
    reads maze
  {
    if k == 0 then []
    else RowWalls(maze, y, k - 1) + (if maze[y, k - 1] == WALL then [WallAt(k - 1, y)] else [])
  }

  /** Walls of the first `rows` rows, row by row. */
  function WallsInRows(maze: array2<int>, rows: nat): seq<Wall>
    requires rows <= maze.Length0
    reads maze
  {
    if rows == 0 then [] else WallsInRows(maze, rows - 1) + RowWalls(maze, rows - 1, maze.Length1)
  }

  /** The wall list of the whole grid, in the order `CreateWalls` builds it. */
  function WallsOf(maze: array2<int>): seq<Wall>
    reads maze
  {
    WallsInRows(maze, maze.Length0)
  }

  /** (x1, y1) comes strictly before (x2, y2) in row-major order. */
  predicate RowMajorBefore(a: (int, int), b: (int, int))
  {
    a.1 < b.1 || (a.1 == b.1 && a.0 < b.0)
  }

  /** The walls' cells strictly increase in row-major order, so no cell has
      two rectangles. */
  predicate RowMajor(walls: seq<Wall>)
  {
    forall i, j :: 0 <= i < j < |walls| ==> RowMajorBefore(CellOfWall(walls[i]), CellOfWall(walls[j]))
  }

  /** What a wall of row y's prefix is. */
  lemma {:induction false} RowWallsMembership(maze: array2<int>, y: int, k: nat, w: Wall)
    requires 0 <= y < maze.Length0 && k <= maze.Length1
    ensures w in RowWalls(maze, y, k) <==> IsWallOf(maze, w) && CellOfWall(w).1 == y && CellOfWall(w).0 < k
  {
    if k > 0 {
      RowWallsMembership(maze, y, k - 1, w);
      WallCellRoundTrip(k - 1, y);
    }
  }

  /** A prefix of a row lists its walls left to right, one per wall cell. */
  lemma {:induction false} RowWallsOrdered(maze: array2<int>, y: int, k: nat)
    requires 0 <= y < maze.Length0 && k <= maze.Length1
    ensures RowMajor(RowWalls(maze, y, k))
  {
    if k > 0 {
      RowWallsOrdered(maze, y, k - 1);
      var prefix := RowWalls(maze, y, k - 1);
      if maze[y, k - 1] == WALL {
        WallCellRoundTrip(k - 1, y);
        forall i | 0 <= i < |prefix|
          ensures RowMajorBefore(CellOfWall(prefix[i]), (k - 1, y))
        {
          RowWallsMembership(maze, y, k - 1, prefix[i]);
        }
      }
    }
  }

  /** The wall list holds exactly the rectangles of the grid's wall cells. */
  lemma {:induction false} WallsMembership(maze: array2<int>, rows: nat, w: Wall)
    requires rows <= maze.Length0
    ensures w in WallsInRows(maze, rows) <==> IsWallOf(maze, w) && CellOfWall(w).1 < rows
  {
    if rows > 0 {
      WallsMembership(maze, rows - 1, w);
      RowWallsMembership(maze, rows - 1, maze.Length1, w);
    }
  }

  /** The wall list runs in row-major order, one rectangle per wall cell. */
  lemma {:induction false} WallsOrdered(maze: array2<int>, rows: nat)
    requires rows <= maze.Length0
    ensures RowMajor(WallsInRows(maze, rows))
  {
    if rows > 0 {
      WallsOrdered(maze, rows - 1);
      RowWallsOrdered(maze, rows - 1, maze.Length1);
      var upper, row := WallsInRows(maze, rows - 1), RowWalls(maze, rows - 1, maze.Length1);
      forall i, j | 0 <= i < |upper| && 0 <= j < |row|
        ensures RowMajorBefore(CellOfWall(upper[i]), CellOfWall(row[j]))
      {
        WallsMembership(maze, rows - 1, upper[i]);
        RowWallsMembership(maze, rows - 1, maze.Length1, row[j]);
      }
      var all := upper + row;
      forall i, j | 0 <= i < j < |all|
        ensures RowMajorBefore(CellOfWall(all[i]), CellOfWall(all[j]))
      {
        if j < |upper| {
          assert all[i] == upper[i] && all[j] == upper[j];
        } else if i >= |upper| {
          assert all[i] == row[i - |upper|] && all[j] == row[j - |upper|];
        } else {
          assert all[i] == upper[i] && all[j] == row[j - |upper|];
        }
      }
    }
  }

  // ---------------------------------------------------------------------
  // Fog of war

  /** (dx, dy) lies in the square box of half-side r around the player. */
  predicate InBox(dx: int, dy: int, r: int)
  {
    -r <= dx <= r && -r <= dy <= r
  }

  /** `Math.floor(player.x / CELL_SIZE)`: for a positive divisor Dafny's
      integer division rounds down, as `Math.floor` does. */
  function PlayerCell(p: int): (cell: int)
    ensures cell * CELL_SIZE <= p < (cell + 1) * CELL_SIZE
  {
    p / CELL_SIZE
  }

  class LabyrinthScene {
    var playerX: int
    var playerY: int
    var walls: seq<Wall>
    var visitedTiles: array2<bool>
    /** The state each fog tile shows (the tile's alpha, see `FogAlpha`). */
    var fogLayer: array2<Visibility>
    var coinHelper: CoinHelper
    /** The maze generated by `create`; the scene does not keep it. */
    ghost var maze: array2<int>

    /** The grids have the scene's size, every coin lies on a grid cell, and
        the helper is the file-local copy, which never emits 'gameWon'. */
    ghost predicate Valid()
      reads this, coinHelper
    {
      && visitedTiles.Length0 == GRID_HEIGHT && visitedTiles.Length1 == GRID_WIDTH
      && fogLayer.Length0 == GRID_HEIGHT && fogLayer.Length1 == GRID_WIDTH
      && coinHelper.cellSize == CELL_SIZE && !coinHelper.emitsGameWon
      && coinHelper.CoinsInside(GRID_WIDTH, GRID_HEIGHT)
    }

    /** Every fog tile shows its cell's state for the player's current
        cell: visible within the radius, remembered when visited, hidden
        otherwise. */
    ghost predicate FogShown()
      reads this, fogLayer, visitedTiles
    {
      && visitedTiles.Length0 == GRID_HEIGHT && visitedTiles.Length1 == GRID_WIDTH
      && fogLayer.Length0 == GRID_HEIGHT && fogLayer.Length1 == GRID_WIDTH
      && forall y, x :: 0 <= y < GRID_HEIGHT && 0 <= x < GRID_WIDTH ==>
           fogLayer[y, x] == Classify(x - PlayerCell(playerX), y - PlayerCell(playerY), VISIBILITY_RADIUS, visitedTiles[y, x])
    }

    /** Every coin shows the state of the fog tile over its own cell. */
    ghost predicate CoinsShowFog()
      reads this, coinHelper, fogLayer
    {
      && Valid()
      && forall i :: 0 <= i < |coinHelper.coins| ==>
           var c := CoinCell(coinHelper.coins[i], CELL_SIZE);
           coinHelper.coins[i].visibility == fogLayer[c.y, c.x]
    }

    /** `create`: generate the maze, start with nothing visited, build the
        walls, cover every cell with fog, place the player on cell (1, 1),
        place the coins with the scene's own copy of the helper (which does
        not emit 'gameWon'), and lift the fog around the player. */
    constructor (random: nat -> real)
      requires forall k :: 0.0 <= random(k) < 1.0
      ensures Valid()
      ensures fresh(maze) && maze.Length0 == GRID_HEIGHT && maze.Length1 == GRID_WIDTH
      ensures fresh(visitedTiles) && fresh(fogLayer) && fresh(coinHelper)
      ensures playerX == PLAYER_START && playerY == PLAYER_START
      ensures walls == WallsOf(maze)
      ensures forall y, x :: 0 <= y < GRID_HEIGHT && 0 <= x < GRID_WIDTH ==>
                visitedTiles[y, x] == InBox(x - 1, y - 1, VISIBILITY_RADIUS)
      ensures FogShown() && CoinsShowFog()
      ensures !coinHelper.emitsGameWon && coinHelper.coinCount == 0 && coinHelper.gameWonSignals == 0
      ensures |coinHelper.coins| == |CoinCells(maze)|
      ensures forall i :: 0 <= i < |coinHelper.coins| ==>
                coinHelper.coins[i].(visibility := Hidden) == CoinAt(CoinCells(maze)[i], CELL_SIZE)
    {
      var generated := GenerateMaze(GRID_WIDTH, GRID_HEIGHT, random);
      maze := generated;
      visitedTiles := new bool[GRID_HEIGHT, GRID_WIDTH]((_, _) => false);
      coinHelper := new CoinHelper(CELL_SIZE, false);
      walls := [];
      fogLayer := new Visibility[GRID_HEIGHT, GRID_WIDTH]((_, _) => Hidden);
      playerX, playerY := PLAYER_START, PLAYER_START;
      new;
      CreateWalls(generated);
      coinHelper.CreateCoins(generated, GRID_WIDTH, GRID_HEIGHT);
      ghost var placed := CoinsAt(CoinCells(generated), CELL_SIZE);
      assert coinHelper.coins == placed by {
        assert [] + placed == placed;
      }
      assert PlayerCell(playerX) == 1 && PlayerCell(playerY) == 1;
      UpdateFogOfWar();
    }

    /** `CreateWalls`: one rectangle per wall cell, appended row by row. */
    method CreateWalls(maze: array2<int>)
      requires maze.Length0 == GRID_HEIGHT && maze.Length1 == GRID_WIDTH
      modifies this`walls
      ensures walls == old(walls) + WallsOf(maze)
    {
      for y := 0 to GRID_HEIGHT
        invariant walls == old(walls) + WallsInRows(maze, y)
      {
        for x := 0 to GRID_WIDTH
          invariant walls == old(walls) + WallsInRows(maze, y) + RowWalls(maze, y, x)
        {
          if maze[y, x] == WALL {
            walls := walls + [Wall(x * CELL_SIZE + CELL_SIZE / 2, y * CELL_SIZE + CELL_SIZE / 2, CELL_SIZE)];
          }
        }
      }
    }

    /** The first pass of `updateFogOfWar`: mark as visited every cell of the
        square box of half-side VISIBILITY_RADIUS around the player's cell. */
    method MarkVisited(playerGridX: int, playerGridY: int)
      requires Valid()
      modifies visitedTiles
      ensures forall y, x :: 0 <= y < GRID_HEIGHT && 0 <= x < GRID_WIDTH ==>
                visitedTiles[y, x] ==
                  (old(visitedTiles[y, x]) || InBox(x - playerGridX, y - playerGridY, VISIBILITY_RADIUS))
    {
      var r := VISIBILITY_RADIUS;
      for y := playerGridY - r to playerGridY + r + 1
        invariant forall yy, xx :: 0 <= yy < GRID_HEIGHT && 0 <= xx < GRID_WIDTH ==>
                    visitedTiles[yy, xx] ==
                      (old(visitedTiles[yy, xx]) || (yy < y && InBox(xx - playerGridX, yy - playerGridY, r)))
      {
        for x := playerGridX - r to playerGridX + r + 1
          invariant forall yy, xx :: 0 <= yy < GRID_HEIGHT && 0 <= xx < GRID_WIDTH ==>
                      visitedTiles[yy, xx] ==
                        (old(visitedTiles[yy, xx]) || (yy < y && InBox(xx - playerGridX, yy - playerGridY, r)) ||
                         (yy == y && playerGridX - r <= xx < x))
        {
          if x >= 0 && x < GRID_WIDTH && y >= 0 && y < GRID_HEIGHT {
            visitedTiles[y, x] := true;
          }
        }
      }
    }

    /** The second pass of `updateFogOfWar`: give every fog tile the state of
        its cell, compared with the radius as squared integers. */
    method ShadeFog(playerGridX: int, playerGridY: int)
      requires Valid()
      modifies fogLayer
      ensures forall y, x :: 0 <= y < GRID_HEIGHT && 0 <= x < GRID_WIDTH ==>
                fogLayer[y, x] == Classify(x - playerGridX, y - playerGridY, VISIBILITY_RADIUS, visitedTiles[y, x])
    {
      for y := 0 to GRID_HEIGHT
        invariant forall yy, xx :: 0 <= yy < y && 0 <= xx < GRID_WIDTH ==>
                    fogLayer[yy, xx] == Classify(xx - playerGridX, yy - playerGridY, VISIBILITY_RADIUS, visitedTiles[yy, xx])
      {
        for x := 0 to GRID_WIDTH
          invariant forall yy, xx :: 0 <= yy < y && 0 <= xx < GRID_WIDTH ==>
                      fogLayer[yy, xx] == Classify(xx - playerGridX, yy - playerGridY, VISIBILITY_RADIUS, visitedTiles[yy, xx])
          invariant forall xx :: 0 <= xx < x ==>
                      fogLayer[y, xx] == Classify(xx - playerGridX, y - playerGridY, VISIBILITY_RADIUS, visitedTiles[y, xx])
        {
          var dx, dy := x - playerGridX, y - playerGridY;
          if dx * dx + dy * dy <= VISIBILITY_RADIUS * VISIBILITY_RADIUS {
            fogLayer[y, x] := Visible;
          } else if visitedTiles[y, x] {
            fogLayer[y, x] := Remembered;
          } else {
            fogLayer[y, x] := Hidden;
          }
        }
      }
    }

    /** `updateFogOfWar`: the box around the player's cell becomes visited
        and stays so; every fog tile is classified by the disc and the
        memory; every coin takes the state of the fog tile over its cell. A
        visible cell is always a visited one, the disc lying inside the box. */
    method UpdateFogOfWar()
      requires Valid()
      modifies visitedTiles, fogLayer, coinHelper
      ensures Valid()
      ensures forall y, x :: 0 <= y < GRID_HEIGHT && 0 <= x < GRID_WIDTH ==>
                visitedTiles[y, x] ==
                  (old(visitedTiles[y, x]) ||
                   InBox(x - PlayerCell(playerX), y - PlayerCell(playerY), VISIBILITY_RADIUS))
      ensures FogShown()
      ensures forall y, x :: 0 <= y < GRID_HEIGHT && 0 <= x < GRID_WIDTH && fogLayer[y, x] == Visible ==>
                visitedTiles[y, x]
      ensures |coinHelper.coins| == |old(coinHelper.coins)|
      ensures forall i :: 0 <= i < |coinHelper.coins| ==>
                coinHelper.coins[i].(visibility := Hidden) == old(coinHelper.coins[i]).(visibility := Hidden)
      ensures CoinsShowFog()
      ensures coinHelper.coinCount == old(coinHelper.coinCount)
      ensures coinHelper.gameWonSignals == old(coinHelper.gameWonSignals)
    {
      var playerGridX, playerGridY := PlayerCell(playerX), PlayerCell(playerY);
      MarkVisited(playerGridX, playerGridY);
      ShadeFog(playerGridX, playerGridY);
      forall y, x | 0 <= y < GRID_HEIGHT && 0 <= x < GRID_WIDTH && fogLayer[y, x] == Visible
        ensures visitedTiles[y, x]
      {
        DiscInsideBox(x - playerGridX, y - playerGridY, VISIBILITY_RADIUS);
      }
      coinHelper.UpdateVisibility(playerGridX, playerGridY, visitedTiles, VISIBILITY_RADIUS);
      forall i | 0 <= i < |coinHelper.coins|
        ensures var c := CoinCell(coinHelper.coins[i], CELL_SIZE);
                0 <= c.x < GRID_WIDTH && 0 <= c.y < GRID_HEIGHT &&
                coinHelper.coins[i].visibility == fogLayer[c.y, c.x]
      {
        var coin, before := coinHelper.coins[i], old(coinHelper.coins[i]);
        assert before in old(coinHelper.coins);
        var c := CoinCell(before, CELL_SIZE);
        assert CoinCell(coin, CELL_SIZE) == c;
        assert coin.visibility == Classify(c.x - playerGridX, c.y - playerGridY, VISIBILITY_RADIUS, visitedTiles[c.y, c.x]);
      }
      forall coin | coin in coinHelper.coins
        ensures 0 <= CoinCell(coin, CELL_SIZE).x < GRID_WIDTH && 0 <= CoinCell(coin, CELL_SIZE).y < GRID_HEIGHT
      {
        var i :| 0 <= i < |coinHelper.coins| && coinHelper.coins[i] == coin;
        assert old(coinHelper.coins[i]) in old(coinHelper.coins);
        assert CoinCell(coin, CELL_SIZE) == CoinCell(old(coinHelper.coins[i]), CELL_SIZE);
      }
    }

    /** `HandleButtonDown`: every held key moves the player by `speed` on
        its axis; `moved` becomes true when any key is held, even when
        opposite keys cancel. */
    method HandleButtonDown(speed: int, moved: bool, keys: Keys) returns (movedNow: bool)
      modifies this`playerX, this`playerY
      ensures playerX == old(playerX) + StepX(keys, speed)
      ensures playerY == old(playerY) + StepY(keys, speed)
      ensures movedNow == (moved || AnyHeld(keys))
    {
      movedNow := moved;
      if keys.left {
        playerX := playerX - speed;
        movedNow := true;
      }
      if keys.right {
        playerX := playerX + speed;
        movedNow := true;
      }
      if keys.up {
        playerY := playerY - speed;
        movedNow := true;
      }
      if keys.down {
        playerY := playerY + speed;
        movedNow := true;
      }
    }

    /** `CheckForWallCollisions`: walk the walls in list order; each one that
        overlaps the player's current position pushes the player back by the
        held keys' displacement. `overlaps` stands for the overlap test of
        the player's bounds with the wall's. */
    method CheckForWallCollisions(speed: int, keys: Keys, overlaps: (int, int, Wall) -> bool)
      modifies this`playerX, this`playerY
      ensures (playerX, playerY) == AfterWalls(old(playerX), old(playerY), walls, keys, speed, overlaps)
    {
      assert walls[0..] == walls;
      for i := 0 to |walls|
        invariant AfterWalls(playerX, playerY, walls[i..], keys, speed, overlaps) ==
                  AfterWalls(old(playerX), old(playerY), walls, keys, speed, overlaps)
      {
        assert walls[i..][1..] == walls[i + 1..];
        if overlaps(playerX, playerY, walls[i]) {
          if keys.left {
            playerX := playerX + speed;
          }
          if keys.right {
            playerX := playerX - speed;
          }
          if keys.up {
            playerY := playerY + speed;
          }
          if keys.down {
            playerY := playerY - speed;
          }
        }
      }
    }

    /** `update`, one frame: move by the held keys, push back out of walls,
        collect the coins the player touches, and update the fog when a key
        was held: the box around the new cell becomes visited, no cell
        becomes unvisited, and the coins left are the uncollected ones, each
        showing its tile. `touching` stands for the overlap test of the player's
        bounds, after the wall pass, with a coin's bounds. */
    method Update(keys: Keys, overlaps: (int, int, Wall) -> bool, touching: Coin -> bool)
      requires Valid()
      modifies this`playerX, this`playerY, visitedTiles, fogLayer, coinHelper
      ensures Valid()
      ensures (playerX, playerY) ==
                AfterWalls(old(playerX) + StepX(keys, SPEED), old(playerY) + StepY(keys, SPEED), walls, keys, SPEED, overlaps)
      ensures |coinHelper.coins| + coinHelper.coinCount == old(|coinHelper.coins| + coinHelper.coinCount)
      ensures coinHelper.gameWonSignals == old(coinHelper.gameWonSignals)
      ensures !AnyHeld(keys) ==>
                && playerX == old(playerX) && playerY == old(playerY)
                && coinHelper.coins == Uncollected(old(coinHelper.coins), touching)
                && unchanged(visitedTiles, fogLayer)
      ensures AnyHeld(keys) ==>
                forall y, x :: 0 <= y < GRID_HEIGHT && 0 <= x < GRID_WIDTH ==>
                  visitedTiles[y, x] ==
                    (old(visitedTiles[y, x]) ||
                     InBox(x - PlayerCell(playerX), y - PlayerCell(playerY), VISIBILITY_RADIUS))
      ensures AnyHeld(keys) ==>
                var kept := Uncollected(old(coinHelper.coins), touching);
                && |coinHelper.coins| == |kept|
                && forall i :: 0 <= i < |kept| ==>
                     coinHelper.coins[i].(visibility := Hidden) == kept[i].(visibility := Hidden)
      ensures AnyHeld(keys) ==> FogShown() && CoinsShowFog()
    {
      var moved := HandleButtonDown(SPEED, false, keys);
      if !AnyHeld(keys) {
        NoKeysNoPushback(playerX, playerY, walls, keys, SPEED, overlaps);
      }
      CheckForWallCollisions(SPEED, keys, overlaps);
      ghost var before := coinHelper.coins;
      coinHelper.CheckCollisions(touching);
      UncollectedKeepsTheRest(before, touching);
      assert coinHelper.CoinsInside(GRID_WIDTH, GRID_HEIGHT);
      if moved {
        UpdateFogOfWar();
      }
    }
  }
}
