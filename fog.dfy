/** The three-way reveal rule shared by the fog tiles and the coins: a cell is
    visible when it lies within the visibility radius of the player's cell,
    remembered when it lies outside but was visited, hidden otherwise. The
    source stores the outcome as a Phaser alpha value; here it is `Visibility`. */
module Fog {

  datatype Visibility = Visible | Remembered | Hidden

  /** Euclidean `sqrt(dx² + dy²) <= radius`, stated exactly on integers. */
  predicate WithinRadius(dx: int, dy: int, radius: int)
  {
    0 <= radius && dx * dx + dy * dy <= radius * radius
  }

  /** Visibility state of a cell at offset (dx, dy) from the player's cell.
      Every cell gets exactly one state: the radius wins over the memory. */
  function Classify(dx: int, dy: int, radius: int, visited: bool): (v: Visibility)
    ensures v == Visible <==> WithinRadius(dx, dy, radius)
    ensures v == Remembered <==> !WithinRadius(dx, dy, radius) && visited
    ensures v == Hidden <==> !WithinRadius(dx, dy, radius) && !visited
  {
    if WithinRadius(dx, dy, radius) then Visible
    else if visited then Remembered
    else Hidden
  }

  /** Alpha of a fog tile: a visible cell is uncovered, a remembered one half
      covered, a hidden one fully covered. */
  function FogAlpha(v: Visibility): real
  {
    match v
    case Visible => 0.0
    case Remembered => 0.5
    case Hidden => 1.0
  }

  /** Alpha of a coin, the complement of the fog tile's. A coin can be
      collected only while its alpha is positive, that is while it is not
      hidden. */
  function CoinAlpha(v: Visibility): (a: real)
    ensures a == 1.0 - FogAlpha(v)
    ensures a > 0.0 <==> v != Hidden
  {
    match v
    case Visible => 1.0
    case Remembered => 0.5
    case Hidden => 0.0
  }

  /** The disc of radius r lies inside the square box of half-side r: an
      offset within the radius is within r on each axis. */
  lemma DiscInsideBox(dx: int, dy: int, radius: int)
    requires WithinRadius(dx, dy, radius)
    ensures -radius <= dx <= radius && -radius <= dy <= radius
  {
    assert dy * dy >= 0 && dx * dx >= 0;
    AxisWithin(dx, radius);
    AxisWithin(dy, radius);
  }

  /** One axis of the box: a² <= r² bounds a by r on both sides. */
  lemma AxisWithin(a: int, r: int)
    requires 0 <= r && a * a <= r * r
    ensures -r <= a <= r
  {
    if a > r {
      SquareGrows(r, a);
    } else if -a > r {
      SquareGrows(r, -a);
    }
  }

  /** Squaring is strictly increasing on the non-negative integers. */
  lemma SquareGrows(r: int, a: int)
    requires 0 <= r < a
    ensures r * r < a * a
  {
    assert r * r <= r * a;
    assert r * a < a * a;
  }
}
