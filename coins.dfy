/** `CoinHelper` (src/scenes/game/coinHelper.ts): placing up to three coins on
    dead ends far from the spawn cell and from each other, hiding and
    revealing them with the fog, and collecting them. */
module Coins {
  import opened Grid
  import opened Fog

  /** The spawn cell, from which coin distances are measured. */
  const START_X := 1
  const START_Y := 1
  /** At most this many coins are placed, and collecting this many wins. */
  const MAX_COINS := 3

  /** A grid cell, as the source's `{ x, y }` positions. */
  datatype Cell = Cell(x: int, y: int)

  /** A dead end kept as a coin site, with its distance from the spawn cell.
      The source keeps the Euclidean distance; this keeps its square, which
      orders and compares the same way. */
  datatype Candidate = Candidate(x: int, y: int, distance2: int)

  /** A placed coin: its centre in world pixels and its reveal state, which
      the source keeps as the coin's alpha (see `CoinAlpha`). */
  datatype Coin = Coin(x: real, y: real, visibility: Visibility)

  function Square(a: int): int { a * a }

  /** Squared Euclidean distance of (x, y) from the spawn cell. */
  function SpawnDistance2(x: int, y: int): int
  {
    Square(x - START_X) + Square(y - START_Y)
  }

  /** Squared Euclidean distance between two cells. */
  function CellDistance2(a: Cell, b: Cell): int
  {
    Square(a.x - b.x) + Square(a.y - b.y)
  }


  /** `distanceFromSpawn >= max(w, h) / 3`, squared: 9·d² >= max(w, h)². */
  predicate FarFromSpawn(x: int, y: int, gridWidth: int, gridHeight: int)
  {
    9 * SpawnDistance2(x, y) >= Square(Max(gridWidth, gridHeight))
  }

  /** The negation of `distanceToOtherCoin < max(w, h) / 4`, squared:
      16·d² >= max(w, h)². */
  predicate FarApart(a: Cell, b: Cell, maxSide: int)
  {
    16 * CellDistance2(a, b) >= Square(maxSide)
  }

  /** A floor cell with exactly one floor cell among its four neighbours. */
  predicate IsDeadEnd(maze: array2<int>, x: int, y: int)
    requires 0 <= x < maze.Length1 && 0 <= y < maze.Length0
    reads maze
  {
    maze[y, x] == FLOOR && OpenNeighbours(maze, x, y, 1) == 1
  }

  /** A dead end far enough from the spawn cell to hold a coin. */
  predicate IsCoinSite(maze: array2<int>, x: int, y: int)
    requires 0 <= x < maze.Length1 && 0 <= y < maze.Length0
    reads maze
  {
    IsDeadEnd(maze, x, y) && FarFromSpawn(x, y, maze.Length1, maze.Length0)
  }

  // ---------------------------------------------------------------------
  // The dead-end scan, in row-major order

  /** Coin sites among the first `k` cells of row y, left to right. */
  function RowSites(maze: array2<int>, y: int, k: nat): seq<Candidate>
    requires 0 <= y < maze.Length0 && k <= maze.Length1
    reads maze
  {
    if k == 0 then []
    else
      RowSites(maze, y, k - 1) +
      (if IsCoinSite(maze, k - 1, y) then [Candidate(k - 1, y, SpawnDistance2(k - 1, y))] else [])
  }

  /** Coin sites in the first `rows` rows, row by row. */
  function SitesInRows(maze: array2<int>, rows: nat): seq<Candidate>
    requires rows <= maze.Length0
    reads maze
  {
    if rows == 0 then [] else SitesInRows(maze, rows - 1) + RowSites(maze, rows - 1, maze.Length1)
  }

  /** Every coin site of the grid, in the order the scan finds them. */
  function Sites(maze: array2<int>): seq<Candidate>
    reads maze
  {
    SitesInRows(maze, maze.Length0)
  }

  /** What a candidate of row y's prefix is. */
  lemma {:induction false} RowSitesMembership(maze: array2<int>, y: int, k: nat, c: Candidate)
    requires 0 <= y < maze.Length0 && k <= maze.Length1
    ensures c in RowSites(maze, y, k) <==>
              c.y == y && 0 <= c.x < k && IsCoinSite(maze, c.x, c.y) && c.distance2 == SpawnDistance2(c.x, c.y)
  {
    if k > 0 {
      RowSitesMembership(maze, y, k - 1, c);
    }
  }

  /** The scan finds exactly the coin sites: a candidate is in the list if and
      only if it names an in-bounds dead end at distance at least
      max(w, h) / 3 from the spawn cell, with that cell's squared distance. */
  lemma {:induction false} SitesMembership(maze: array2<int>, rows: nat, c: Candidate)
    requires rows <= maze.Length0
    ensures c in SitesInRows(maze, rows) <==>
              0 <= c.y < rows && 0 <= c.x < maze.Length1 && IsCoinSite(maze, c.x, c.y) &&
              c.distance2 == SpawnDistance2(c.x, c.y)
  {
    if rows > 0 {
      SitesMembership(maze, rows - 1, c);
      RowSitesMembership(maze, rows - 1, maze.Length1, c);
    }
  }

  // ---------------------------------------------------------------------
  // Sorting farthest first

  /** Sorted by non-increasing distance from the spawn cell. */
  predicate FarthestFirst(s: seq<Candidate>)
  {
    forall i, j :: 0 <= i < j < |s| ==> s[i].distance2 >= s[j].distance2
  }

  /** Inserts c before the first element no farther than c, so that c stays
      ahead of elements at the same distance. */
  function InsertByDistance(c: Candidate, s: seq<Candidate>): (r: seq<Candidate>)
    ensures |r| == |s| + 1 && (r[0] == c || (s != [] && r[0] == s[0]))
    decreases |s|
  {
    if s == [] || c.distance2 >= s[0].distance2 then [c] + s
    else [s[0]] + InsertByDistance(c, s[1..])
  }

  /** `deadEnds.sort((a, b) => b.distance - a.distance)`: a stable sort,
      farthest first. Its order and its permutation are the lemmas below. */
  function SortFarthestFirst(s: seq<Candidate>): (r: seq<Candidate>)
    ensures |r| == |s|
    decreases |s|
  {
    if s == [] then [] else InsertByDistance(s[0], SortFarthestFirst(s[1..]))
  }

  /** Inserting into a farthest-first list keeps it farthest first. */
  lemma {:induction false} InsertKeepsOrder(c: Candidate, s: seq<Candidate>)
    requires FarthestFirst(s)
    ensures FarthestFirst(InsertByDistance(c, s))
    decreases |s|
  {
    if s != [] && c.distance2 < s[0].distance2 {
      InsertKeepsOrder(c, s[1..]);
      var rest := InsertByDistance(c, s[1..]);
      assert rest[0].distance2 <= s[0].distance2;
      var r := [s[0]] + rest;
      forall i, j | 0 <= i < j < |r|
        ensures r[i].distance2 >= r[j].distance2
      {
        if i > 0 {
          assert r[i] == rest[i - 1] && r[j] == rest[j - 1];
        } else if j > 1 {
          assert rest[0].distance2 >= rest[j - 1].distance2;
        }
      }
    }
  }

  /** Inserting adds exactly c. */
  lemma {:induction false} InsertAddsOne(c: Candidate, s: seq<Candidate>)
    ensures multiset(InsertByDistance(c, s)) == multiset(s) + multiset{c}
    decreases |s|
  {
    if s != [] && c.distance2 < s[0].distance2 {
      InsertAddsOne(c, s[1..]);
      assert s == [s[0]] + s[1..];
    }
  }

  /** The sort puts the candidates farthest first. */
  lemma {:induction false} SortIsOrdered(s: seq<Candidate>)
    ensures FarthestFirst(SortFarthestFirst(s))
    decreases |s|
  {
    if s != [] {
      SortIsOrdered(s[1..]);
      InsertKeepsOrder(s[0], SortFarthestFirst(s[1..]));
    }
  }

  /** The sort keeps every candidate, as many times as it occurs. */
  lemma {:induction false} SortIsPermutation(s: seq<Candidate>)
    ensures multiset(SortFarthestFirst(s)) == multiset(s)
    decreases |s|
  {
    if s != [] {
      SortIsPermutation(s[1..]);
      InsertAddsOne(s[0], SortFarthestFirst(s[1..]));
      assert s == [s[0]] + s[1..];
    }
  }

  // ---------------------------------------------------------------------
  // Greedy selection

  /** c is at least max(w, h) / 4 from every cell already chosen. */
  predicate SpacedFrom(c: Cell, chosen: seq<Cell>, maxSide: int)
  {
    forall j :: 0 <= j < |chosen| ==> FarApart(c, chosen[j], maxSide)
  }

  /** The selection loop: walk the candidates in order, stop once `limit`
      cells are chosen, and take a candidate when it is far enough from every
      cell already taken. */
  function Greedy(cands: seq<Candidate>, chosen: seq<Cell>, limit: int, maxSide: int): (r: seq<Cell>)
    ensures |chosen| <= |r|
    decreases |cands|
  {
    if cands == [] || |chosen| >= limit then chosen
    else
      var c := Cell(cands[0].x, cands[0].y);
      if SpacedFrom(c, chosen, maxSide) then Greedy(cands[1..], chosen + [c], limit, maxSide)
      else Greedy(cands[1..], chosen, limit, maxSide)
  }

  /** The cells `createCoins` places coins on. */
  function CoinCells(maze: array2<int>): seq<Cell>
    reads maze
  {
    var sorted := SortFarthestFirst(Sites(maze));
    Greedy(sorted, [], Min(MAX_COINS, |sorted|), Max(maze.Length1, maze.Length0))
  }

  function CellsOf(cands: seq<Candidate>): (cells: seq<Cell>)
    ensures |cells| == |cands|
    ensures forall i :: 0 <= i < |cands| ==> cells[i] == Cell(cands[i].x, cands[i].y)
  {
    seq(|cands|, i requires 0 <= i < |cands| => Cell(cands[i].x, cands[i].y))
  }

  /** a is b with some elements left out, the rest in the same order. */
  predicate IsSubsequence<T(==)>(a: seq<T>, b: seq<T>)
    decreases |b|
  {
    if a == [] then true
    else if b == [] then false
    else (a[0] == b[0] && IsSubsequence(a[1..], b[1..])) || IsSubsequence(a, b[1..])
  }

  /** Every two cells of the list are at least max(w, h) / 4 apart. */
  predicate PairwiseSpaced(cells: seq<Cell>, maxSide: int)
  {
    forall i, j :: 0 <= i < j < |cells| ==> FarApart(cells[i], cells[j], maxSide)
  }

  /** The greedy walk only appends, and what it appends is a subsequence of
      the candidates' cells. */
  lemma {:induction false} GreedyAppendsSubsequence(cands: seq<Candidate>, chosen: seq<Cell>, limit: int, maxSide: int)
    ensures var r := Greedy(cands, chosen, limit, maxSide);
            |chosen| <= |r| && r[..|chosen|] == chosen && IsSubsequence(r[|chosen|..], CellsOf(cands))
    decreases |cands|
  {
    var r := Greedy(cands, chosen, limit, maxSide);
    if cands == [] || |chosen| >= limit {
      assert r[|chosen|..] == [];
    } else {
      var c := Cell(cands[0].x, cands[0].y);
      assert CellsOf(cands)[1..] == CellsOf(cands[1..]);
      if SpacedFrom(c, chosen, maxSide) {
        GreedyAppendsSubsequence(cands[1..], chosen + [c], limit, maxSide);
        assert r[|chosen|..][1..] == r[|chosen + [c]|..];
      } else {
        GreedyAppendsSubsequence(cands[1..], chosen, limit, maxSide);
      }
    }
  }

  /** The greedy walk never goes past `limit` or past the candidates it has. */
  lemma {:induction false} GreedyBounded(cands: seq<Candidate>, chosen: seq<Cell>, limit: int, maxSide: int)
    requires |chosen| <= limit
    ensures |Greedy(cands, chosen, limit, maxSide)| <= limit
    ensures |Greedy(cands, chosen, limit, maxSide)| <= |chosen| + |cands|
    decreases |cands|
  {
    if cands != [] && |chosen| < limit {
      var c := Cell(cands[0].x, cands[0].y);
      if SpacedFrom(c, chosen, maxSide) {
        GreedyBounded(cands[1..], chosen + [c], limit, maxSide);
      } else {
        GreedyBounded(cands[1..], chosen, limit, maxSide);
      }
    }
  }

  /** The greedy walk keeps the chosen cells pairwise spaced. */
  lemma {:induction false} GreedySpaced(cands: seq<Candidate>, chosen: seq<Cell>, limit: int, maxSide: int)
    requires PairwiseSpaced(chosen, maxSide)
    ensures PairwiseSpaced(Greedy(cands, chosen, limit, maxSide), maxSide)
    decreases |cands|
  {
    if cands != [] && |chosen| < limit {
      var c := Cell(cands[0].x, cands[0].y);
      if SpacedFrom(c, chosen, maxSide) {
        var next := chosen + [c];
        forall i, j | 0 <= i < j < |next|
          ensures FarApart(next[i], next[j], maxSide)
        {
          if j == |chosen| {
            assert FarApart(c, chosen[i], maxSide);
            assert CellDistance2(c, chosen[i]) == CellDistance2(chosen[i], c);
          }
        }
        GreedySpaced(cands[1..], next, limit, maxSide);
      } else {
        GreedySpaced(cands[1..], chosen, limit, maxSide);
      }
    }
  }

  /** Elements of a subsequence are elements of the whole. */
  lemma {:induction false} SubsequenceElements<T>(a: seq<T>, b: seq<T>, x: T)
    requires IsSubsequence(a, b) && x in a
    ensures x in b
    decreases |b|
  {
    if a[0] == b[0] && IsSubsequence(a[1..], b[1..]) {
      if x != a[0] {
        SubsequenceElements(a[1..], b[1..], x);
      }
    } else {
      SubsequenceElements(a, b[1..], x);
    }
  }

  /** Cells ordered by non-increasing distance from the spawn cell. */
  predicate CellsFarthestFirst(cells: seq<Cell>)
  {
    forall i, j :: 0 <= i < j < |cells| ==> SpawnDistance2(cells[i].x, cells[i].y) >= SpawnDistance2(cells[j].x, cells[j].y)
  }

  /** A subsequence of a farthest-first list is farthest first. */
  lemma {:induction false} SubsequenceFarthestFirst(a: seq<Cell>, b: seq<Cell>)
    requires IsSubsequence(a, b) && CellsFarthestFirst(b)
    ensures CellsFarthestFirst(a)
    decreases |b|
  {
    if a != [] {
      if a[0] == b[0] && IsSubsequence(a[1..], b[1..]) {
        SubsequenceFarthestFirst(a[1..], b[1..]);
        forall j | 0 < j < |a|
          ensures SpawnDistance2(a[0].x, a[0].y) >= SpawnDistance2(a[j].x, a[j].y)
        {
          SubsequenceElements(a[1..], b[1..], a[j]);
          var k :| 0 <= k < |b[1..]| && b[1..][k] == a[j];
          assert b[k + 1] == a[j];
        }
      } else {
        SubsequenceFarthestFirst(a, b[1..]);
      }
    }
  }

  /** Every placed coin sits on a coin site: an in-bounds dead end at least
      max(w, h) / 3 from the spawn cell. */
  lemma CoinCellsAreSites(maze: array2<int>, i: int)
    requires 0 <= i < |CoinCells(maze)|
    ensures var c := CoinCells(maze)[i];
            0 <= c.x < maze.Length1 && 0 <= c.y < maze.Length0 && IsCoinSite(maze, c.x, c.y)
  {
    var sorted := SortFarthestFirst(Sites(maze));
    var limit, maxSide := Min(MAX_COINS, |sorted|), Max(maze.Length1, maze.Length0);
    GreedyAppendsSubsequence(sorted, [], limit, maxSide);
    var cells := CoinCells(maze);
    assert cells[0..] == cells;
    SubsequenceElements(cells, CellsOf(sorted), cells[i]);
    var k :| 0 <= k < |sorted| && CellsOf(sorted)[k] == cells[i];
    SortIsPermutation(Sites(maze));
    assert sorted[k] in multiset(Sites(maze));
    SitesMembership(maze, maze.Length0, sorted[k]);
  }

  /** At most three coins are placed, never more than there are sites, and at
      least one whenever there is a site: the first candidate always passes
      the spacing test against an empty selection. */
  lemma CoinCellsCount(maze: array2<int>)
    ensures |CoinCells(maze)| <= MAX_COINS
    ensures |CoinCells(maze)| <= |Sites(maze)|
    ensures |Sites(maze)| > 0 ==> |CoinCells(maze)| >= 1
  {
    var sorted := SortFarthestFirst(Sites(maze));
    var limit, maxSide := Min(MAX_COINS, |sorted|), Max(maze.Length1, maze.Length0);
    GreedyBounded(sorted, [], limit, maxSide);
    if |sorted| > 0 {
      GreedyTakesFirst(sorted, limit, maxSide);
    }
  }

  /** With room for at least one cell, the first candidate is always taken:
      the spacing test against an empty selection passes. */
  lemma GreedyTakesFirst(cands: seq<Candidate>, limit: int, maxSide: int)
    requires cands != [] && limit >= 1
    ensures |Greedy(cands, [], limit, maxSide)| >= 1
  {
    var c := Cell(cands[0].x, cands[0].y);
    assert SpacedFrom(c, [], maxSide);
    assert [] + [c] == [c];
    assert Greedy(cands, [], limit, maxSide) == Greedy(cands[1..], [c], limit, maxSide);
    GreedyAppendsSubsequence(cands[1..], [c], limit, maxSide);
  }

  /** Every two placed coins are at least max(w, h) / 4 apart. */
  lemma CoinCellsSpaced(maze: array2<int>)
    ensures PairwiseSpaced(CoinCells(maze), Max(maze.Length1, maze.Length0))
  {
    var sorted := SortFarthestFirst(Sites(maze));
    GreedySpaced(sorted, [], Min(MAX_COINS, |sorted|), Max(maze.Length1, maze.Length0));
  }

  /** The coins are chosen in the order of the sorted candidates, so they are
      placed farthest from the spawn cell first. */
  lemma CoinCellsFarthestFirst(maze: array2<int>)
    ensures IsSubsequence(CoinCells(maze), CellsOf(SortFarthestFirst(Sites(maze))))
    ensures CellsFarthestFirst(CoinCells(maze))
  {
    var sorted := SortFarthestFirst(Sites(maze));
    var limit, maxSide := Min(MAX_COINS, |sorted|), Max(maze.Length1, maze.Length0);
    GreedyAppendsSubsequence(sorted, [], limit, maxSide);
    var cells := CoinCells(maze);
    assert cells[0..] == cells;
    var sortedCells := CellsOf(sorted);
    SortIsOrdered(Sites(maze));
    SortIsPermutation(Sites(maze));
    forall i, j | 0 <= i < j < |sortedCells|
      ensures SpawnDistance2(sortedCells[i].x, sortedCells[i].y) >= SpawnDistance2(sortedCells[j].x, sortedCells[j].y)
    {
      assert sorted[i] in multiset(Sites(maze)) && sorted[j] in multiset(Sites(maze));
      SitesMembership(maze, maze.Length0, sorted[i]);
      SitesMembership(maze, maze.Length0, sorted[j]);
    }
    SubsequenceFarthestFirst(cells, sortedCells);
  }

  // ---------------------------------------------------------------------
  // Coin positions and the coin's grid cell

  /** The coin placed on a cell: centred in the cell, created with alpha 0. */
  function CoinAt(c: Cell, cellSize: nat): Coin
  {
    Coin((c.x * cellSize) as real + (cellSize as real) / 2.0,
         (c.y * cellSize) as real + (cellSize as real) / 2.0, Hidden)
  }

  function CoinsAt(cells: seq<Cell>, cellSize: nat): (coins: seq<Coin>)
    ensures |coins| == |cells|
    ensures forall i :: 0 <= i < |cells| ==> coins[i] == CoinAt(cells[i], cellSize)
  {
    seq(|cells|, i requires 0 <= i < |cells| => CoinAt(cells[i], cellSize))
  }

  /** `Math.floor(coin.x / CELL_SIZE)`, `Math.floor(coin.y / CELL_SIZE)`. */
  function CoinCell(coin: Coin, cellSize: nat): (c: Cell)
    requires cellSize > 0
    ensures c.x as real <= coin.x / (cellSize as real) < (c.x + 1) as real
    ensures c.y as real <= coin.y / (cellSize as real) < (c.y + 1) as real
  {
    Cell((coin.x / (cellSize as real)).Floor, (coin.y / (cellSize as real)).Floor)
  }

  /** Round trip: the cell computed back from a coin's centre is the cell the
      coin was placed on, so a coin is revealed by its own dead end. */
  lemma CoinCellRoundTrip(c: Cell, cellSize: nat)
    requires cellSize > 0
    ensures CoinCell(CoinAt(c, cellSize), cellSize) == c
  {
    var s := cellSize as real;
    CentreOverSize(c.x, cellSize);
    CentreOverSize(c.y, cellSize);
  }

  /** (a·s + s/2) / s = a + 1/2, whose floor is a. */
  lemma CentreOverSize(a: int, cellSize: nat)
    requires cellSize > 0
    ensures (((a * cellSize) as real + (cellSize as real) / 2.0) / (cellSize as real)).Floor == a
  {
    var s, x := cellSize as real, a as real;
    assert (a * cellSize) as real == x * s;
    var centre, p := x * s + s / 2.0, x + 0.5;
    assert centre == p * s;
    DivCancel(p, s);
    assert centre / s == (p * s) / s;
    assert p.Floor == a;
  }

  lemma DivCancel(p: real, s: real)
    requires s > 0.0
    ensures (p * s) / s == p
  {
  }

  /** Each coin `createCoins` places is hidden and lies, by the round trip of
      its centre, on the coin site it was chosen for. */
  lemma PlacedCoinsOnSites(maze: array2<int>, cellSize: nat, i: int)
    requires cellSize > 0 && 0 <= i < |CoinCells(maze)|
    ensures var coin := CoinsAt(CoinCells(maze), cellSize)[i];
            var c := CoinCell(coin, cellSize);
            && coin.visibility == Hidden
            && c == CoinCells(maze)[i]
            && 0 <= c.x < maze.Length1 && 0 <= c.y < maze.Length0 && IsCoinSite(maze, c.x, c.y)
  {
    CoinCellRoundTrip(CoinCells(maze)[i], cellSize);
    CoinCellsAreSites(maze, i);
  }

  /** Every coin `createCoins` places lies inside the grid. */
  lemma PlacedCoinsInside(maze: array2<int>, cellSize: nat)
    requires cellSize > 0
    ensures forall coin :: coin in CoinsAt(CoinCells(maze), cellSize) ==>
              0 <= CoinCell(coin, cellSize).x < maze.Length1 && 0 <= CoinCell(coin, cellSize).y < maze.Length0
  {
    var placed := CoinsAt(CoinCells(maze), cellSize);
    forall coin | coin in placed
      ensures 0 <= CoinCell(coin, cellSize).x < maze.Length1 && 0 <= CoinCell(coin, cellSize).y < maze.Length0
    {
      var i :| 0 <= i < |placed| && placed[i] == coin;
      PlacedCoinsOnSites(maze, cellSize, i);
    }
  }

  /** Visibility state of a coin by the rule of the fog: visible within the
      radius, remembered when its cell was visited, hidden otherwise. */
  function CoinVisibility(coin: Coin, cellSize: nat, playerGridX: int, playerGridY: int,
                      visitedTiles: array2<bool>, radius: int): Visibility
    requires cellSize > 0
    requires var c := CoinCell(coin, cellSize); 0 <= c.x < visitedTiles.Length1 && 0 <= c.y < visitedTiles.Length0
    reads visitedTiles
  {
    var c := CoinCell(coin, cellSize);
    Classify(c.x - playerGridX, c.y - playerGridY, radius, visitedTiles[c.y, c.x])
  }

  // ---------------------------------------------------------------------
  // Collection

  /** `coin.alpha > 0` and the coin's bounds overlap the player's. */
  predicate Collectable(coin: Coin, touching: Coin -> bool)
  {
    CoinAlpha(coin.visibility) > 0.0 && touching(coin)
  }

  /** The coins a collision pass leaves, in their original order. */
  function Uncollected(coins: seq<Coin>, touching: Coin -> bool): (kept: seq<Coin>)
    ensures |kept| <= |coins|
    decreases |coins|
  {
    if coins == [] then []
    else (if Collectable(coins[0], touching) then [] else [coins[0]]) + Uncollected(coins[1..], touching)
  }

  /** The pass keeps exactly the coins that are not collectable, in order. */
  lemma {:induction false} UncollectedKeepsTheRest(coins: seq<Coin>, touching: Coin -> bool)
    ensures IsSubsequence(Uncollected(coins, touching), coins)
    ensures forall c :: c in Uncollected(coins, touching) <==> c in coins && !Collectable(c, touching)
    decreases |coins|
  {
    if coins != [] {
      UncollectedKeepsTheRest(coins[1..], touching);
      var rest := Uncollected(coins[1..], touching);
      if Collectable(coins[0], touching) {
        assert Uncollected(coins, touching) == rest;
        SubsequenceSkip(rest, coins);
      } else {
        assert Uncollected(coins, touching) == [coins[0]] + rest;
        assert ([coins[0]] + rest)[1..] == rest;
      }
      assert coins == [coins[0]] + coins[1..];
    }
  }

  /** The pass keeps every coin value that is not collectable as many times
      as it occurs, and none of the collectable ones. */
  lemma {:induction false} UncollectedCounts(coins: seq<Coin>, touching: Coin -> bool, c: Coin)
    ensures multiset(Uncollected(coins, touching))[c] ==
              if Collectable(c, touching) then 0 else multiset(coins)[c]
    decreases |coins|
  {
    if coins != [] {
      UncollectedCounts(coins[1..], touching, c);
      assert coins == [coins[0]] + coins[1..];
    }
  }

  /** One more coin of the suffix: the pass over initial[i..] decides
      initial[i], then goes on with initial[i + 1..]. */
  lemma UncollectedStep(initial: seq<Coin>, touching: Coin -> bool, i: int)
    requires 0 <= i < |initial|
    ensures Uncollected(initial[i..], touching) ==
              (if Collectable(initial[i], touching) then [] else [initial[i]]) + Uncollected(initial[i + 1..], touching)
  {
    assert initial[i..][1..] == initial[i + 1..];
  }

  /** The pieces of `a[..i + 1] + b` around position i. */
  lemma SplitAfterPrefix<T>(a: seq<T>, b: seq<T>, i: int)
    requires 0 <= i < |a|
    ensures (a[..i + 1] + b)[..i] == a[..i] && (a[..i + 1] + b)[i] == a[i] && (a[..i + 1] + b)[i + 1..] == b
    ensures a[..i + 1] + b == a[..i] + ([a[i]] + b)
  {
    assert a[..i + 1] == a[..i] + [a[i]];
  }

  /** Dropping the head of the longer list keeps a subsequence. */
  lemma SubsequenceSkip<T>(a: seq<T>, b: seq<T>)
    requires b != [] && IsSubsequence(a, b[1..])
    ensures IsSubsequence(a, b)
  {
  }

  /** How many 'gameWon' signals `k` collections emit, starting from a count
      of `before`: one for each collection after which the count is at least
      three. */
  function WinSignals(before: int, k: nat): nat
  {
    if k == 0 then 0 else WinSignals(before, k - 1) + (if before + k >= MAX_COINS then 1 else 0)
  }

  /** From a fresh counter, the first two collections emit nothing and each
      later one emits 'gameWon' once. */
  lemma {:induction false} WinSignalsFromZero(k: nat)
    ensures WinSignals(0, k) == if k >= MAX_COINS then k - (MAX_COINS - 1) else 0
  {
    if k > 0 {
      WinSignalsFromZero(k - 1);
    }
  }

  // ---------------------------------------------------------------------
  // The helper object

  /** One class models both copies of the helper: `coinHelper.ts`, which
      emits 'gameWon' once three coins are collected, and the copy at the top
      of LabyrinthScene.ts, which is otherwise the same and does not emit.
      `emitsGameWon` tells them apart. */
  class CoinHelper {
    var coins: seq<Coin>
    var coinCount: int
    /** How many times 'gameWon' has been emitted on the scene's events. */
    var gameWonSignals: nat
    const cellSize: nat
    const emitsGameWon: bool

    constructor (cellSize: nat, emitsGameWon: bool)
      ensures coins == [] && coinCount == 0 && gameWonSignals == 0
      ensures this.cellSize == cellSize && this.emitsGameWon == emitsGameWon
    {
      this.cellSize := cellSize;
      this.emitsGameWon := emitsGameWon;
      coins := [];
      coinCount := 0;
      gameWonSignals := 0;
    }

    /** Every coin's cell lies inside a grid of the given size. */
    ghost predicate CoinsInside(gridWidth: int, gridHeight: int)
      reads this
    {
      cellSize > 0 &&
      forall coin :: coin in coins ==>
        0 <= CoinCell(coin, cellSize).x < gridWidth && 0 <= CoinCell(coin, cellSize).y < gridHeight
    }

    /** `countExits`: the number of in-bounds floor cells among the four
        neighbours of (x, y). */
    method CountExits(maze: array2<int>, x: int, y: int, gridWidth: int, gridHeight: int) returns (exits: nat)
      requires gridWidth == maze.Length1 && gridHeight == maze.Length0
      ensures exits == OpenNeighbours(maze, x, y, 1)
      ensures exits <= 4
    {
      exits := 0;
      var directions := Directions(1);
      for i := 0 to 4
        invariant exits == OpenAmong(maze, x, y, 1, i)
      {
        var (dx, dy) := directions[i];
        var newX, newY := x + dx, y + dy;
        if newX >= 0 && newX < gridWidth && newY >= 0 && newY < gridHeight && maze[newY, newX] == FLOOR {
          exits := exits + 1;
        }
      }
    }

    /** The scan of `createCoins`: every coin site, in row-major order. */
    method FindDeadEnds(maze: array2<int>, gridWidth: int, gridHeight: int) returns (deadEnds: seq<Candidate>)
      requires gridWidth == maze.Length1 && gridHeight == maze.Length0
      ensures deadEnds == Sites(maze)
    {
      deadEnds := [];
      var maxSide := Max(gridWidth, gridHeight);
      for y := 0 to gridHeight
        invariant deadEnds == SitesInRows(maze, y)
      {
        for x := 0 to gridWidth
          invariant deadEnds == SitesInRows(maze, y) + RowSites(maze, y, x)
        {
          if maze[y, x] == FLOOR {
            var exits := CountExits(maze, x, y, gridWidth, gridHeight);
            if exits == 1 {
              var distance2 := Square(x - START_X) + Square(y - START_Y);
              if 9 * distance2 >= Square(maxSide) {
                deadEnds := deadEnds + [Candidate(x, y, distance2)];
              }
            }
          }
        }
      }
    }

    /** The selection loop of `createCoins` over the sorted candidates. */
    method SelectPositions(deadEnds: seq<Candidate>, maxSide: int) returns (selected: seq<Cell>)
      ensures selected == Greedy(deadEnds, [], Min(MAX_COINS, |deadEnds|), maxSide)
    {
      selected := [];
      var numberOfCoins := Min(MAX_COINS, |deadEnds|);
      var i := 0;
      while i < |deadEnds|
        invariant 0 <= i <= |deadEnds|
        invariant Greedy(deadEnds, [], numberOfCoins, maxSide) == Greedy(deadEnds[i..], selected, numberOfCoins, maxSide)
      {
        if |selected| >= numberOfCoins {
          break;
        }
        var deadEnd := Cell(deadEnds[i].x, deadEnds[i].y);
        var isFarEnough := true;
        var j := 0;
        while j < |selected|
          invariant 0 <= j <= |selected|
          invariant isFarEnough && SpacedFrom(deadEnd, selected[..j], maxSide)
        {
          if 16 * CellDistance2(deadEnd, selected[j]) < Square(maxSide) {
            isFarEnough := false;
            break;
          }
          j := j + 1;
        }
        assert isFarEnough <==> SpacedFrom(deadEnd, selected, maxSide) by {
          if isFarEnough {
            assert selected[..j] == selected;
          }
        }
        assert deadEnds[i..][1..] == deadEnds[i + 1..];
        if isFarEnough {
          selected := selected + [deadEnd];
        }
        i := i + 1;
      }
    }

    /** `createCoins`: scan for coin sites, sort them farthest first, pick
        up to three well-spaced ones, and add a hidden coin centred on each. */
    method CreateCoins(maze: array2<int>, gridWidth: int, gridHeight: int)
      requires gridWidth == maze.Length1 && gridHeight == maze.Length0
      modifies this
      ensures coins == old(coins) + CoinsAt(CoinCells(maze), cellSize)
      ensures coinCount == old(coinCount) && gameWonSignals == old(gameWonSignals)
      ensures old(CoinsInside(gridWidth, gridHeight)) ==> CoinsInside(gridWidth, gridHeight)
    {
      var deadEnds := FindDeadEnds(maze, gridWidth, gridHeight);
      deadEnds := SortFarthestFirst(deadEnds);
      var selectedPositions := SelectPositions(deadEnds, Max(gridWidth, gridHeight));
      PlaceCoins(selectedPositions);
      if cellSize > 0 {
        PlacedCoinsInside(maze, cellSize);
      }
    }

    /** The placement loop of `createCoins`: one hidden coin centred on each
        selected cell, appended in selection order. */
    method PlaceCoins(selectedPositions: seq<Cell>)
      modifies this
      ensures coins == old(coins) + CoinsAt(selectedPositions, cellSize)
      ensures coinCount == old(coinCount) && gameWonSignals == old(gameWonSignals)
    {
      for k := 0 to |selectedPositions|
        invariant coins == old(coins) + CoinsAt(selectedPositions[..k], cellSize)
        invariant coinCount == old(coinCount) && gameWonSignals == old(gameWonSignals)
      {
        var position := selectedPositions[k];
        var coin := Coin((position.x * cellSize) as real + (cellSize as real) / 2.0,
                         (position.y * cellSize) as real + (cellSize as real) / 2.0, Hidden);
        coins := coins + [coin];
        assert selectedPositions[..k + 1] == selectedPositions[..k] + [position];
      }
      assert selectedPositions[..|selectedPositions|] == selectedPositions;
    }

    /** `collectCoin`: count the coin, remove it from the list, and (in
        `coinHelper.ts`) emit 'gameWon' once the count reaches three. */
    method CollectCoin(index: int)
      requires 0 <= index < |coins|
      modifies this
      ensures coinCount == old(coinCount) + 1
      ensures coins == old(coins[..index] + coins[index + 1..])
      ensures gameWonSignals == old(gameWonSignals) + (if emitsGameWon && coinCount >= MAX_COINS then 1 else 0)
    {
      coinCount := coinCount + 1;
      coins := coins[..index] + coins[index + 1..];
      if emitsGameWon && coinCount >= MAX_COINS {
        gameWonSignals := gameWonSignals + 1;
      }
    }

    /** `checkCollisions`: walk the coins from last to first and collect each
        one that is shown (alpha > 0) and touches the player. `touching(c)`
        stands for the overlap of the player's bounds with c's bounds. */
    method CheckCollisions(touching: Coin -> bool)
      modifies this
      ensures coins == Uncollected(old(coins), touching)
      ensures coinCount == old(coinCount) + (|old(coins)| - |coins|)
      ensures |coins| + coinCount == old(|coins| + coinCount)
      ensures gameWonSignals ==
                old(gameWonSignals) + (if emitsGameWon then WinSignals(old(coinCount), coinCount - old(coinCount)) else 0)
    {
      ghost var initial := coins;
      var i := |coins| - 1;
      while i >= 0
        invariant -1 <= i < |initial|
        invariant coins == initial[..i + 1] + Uncollected(initial[i + 1..], touching)
        invariant coinCount == old(coinCount) + (|initial| - (i + 1)) - |Uncollected(initial[i + 1..], touching)|
        invariant coinCount >= old(coinCount)
        invariant gameWonSignals ==
                    old(gameWonSignals) + (if emitsGameWon then WinSignals(old(coinCount), coinCount - old(coinCount)) else 0)
      {
        var coin := coins[i];
        SplitAfterPrefix(initial, Uncollected(initial[i + 1..], touching), i);
        UncollectedStep(initial, touching, i);
        if CoinAlpha(coin.visibility) > 0.0 && touching(coin) {
          CollectCoin(i);
        }
        i := i - 1;
      }
      assert initial[0..] == initial;
    }

    /** `updateVisibility`: give every coin the reveal state of its own cell,
        by the fog's rule. */
    method UpdateVisibility(playerGridX: int, playerGridY: int, visitedTiles: array2<bool>, visibilityRadius: int)
      requires CoinsInside(visitedTiles.Length1, visitedTiles.Length0)
      modifies this
      ensures |coins| == |old(coins)|
      ensures forall i :: 0 <= i < |coins| ==>
                coins[i] == old(coins[i]).(visibility := CoinVisibility(old(coins[i]), cellSize, playerGridX, playerGridY,
                                                                visitedTiles, visibilityRadius))
      ensures coinCount == old(coinCount) && gameWonSignals == old(gameWonSignals)
    {
      for i := 0 to |coins|
        invariant |coins| == |old(coins)|
        invariant forall k :: 0 <= k < |coins| ==> coins[k].x == old(coins[k]).x && coins[k].y == old(coins[k]).y
        invariant forall k :: 0 <= k < i ==>
                    coins[k] == old(coins[k]).(visibility := CoinVisibility(old(coins[k]), cellSize, playerGridX, playerGridY,
                                                                    visitedTiles, visibilityRadius))
        invariant forall k :: i <= k < |coins| ==> coins[k] == old(coins[k])
        invariant coinCount == old(coinCount) && gameWonSignals == old(gameWonSignals)
      {
        var coin := coins[i];
        var coinGridX := (coin.x / (cellSize as real)).Floor;
        var coinGridY := (coin.y / (cellSize as real)).Floor;
        var dx, dy := coinGridX - playerGridX, coinGridY - playerGridY;
        var visibility;
        if 0 <= visibilityRadius && dx * dx + dy * dy <= visibilityRadius * visibilityRadius {
          visibility := Visible;
        } else if visitedTiles[coinGridY, coinGridX] {
          visibility := Remembered;
        } else {
          visibility := Hidden;
        }
        coins := coins[i := coin.(visibility := visibility)];
      }
    }
  }
}
