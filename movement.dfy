/** Player movement as `LabyrinthScene.HandleButtonDown` and
    `CheckForWallCollisions` perform it: every held key moves the player by
    `speed` on its axis, then every wall rectangle that overlaps the player,
    visited in list order, undoes that displacement once. */
module Movement {

  /** The four direction keys of one frame. Each is held when its WASD key or
      its arrow key is down. */
  datatype Keys = Keys(left: bool, right: bool, up: bool, down: bool)

  /** A wall rectangle: its centre in world pixels and its side length. */
  datatype Wall = Wall(x: int, y: int, size: int)

  function Held(k: bool): int { if k then 1 else 0 }

  predicate AnyHeld(keys: Keys)
  {
    keys.left || keys.right || keys.up || keys.down
  }

  /** Horizontal displacement of one frame: speed·(D − A). Opposite keys
      cancel; one key alone moves by exactly `speed`. */
  function StepX(keys: Keys, speed: int): (dx: int)
    ensures keys.left == keys.right ==> dx == 0
    ensures keys.right && !keys.left ==> dx == speed
    ensures keys.left && !keys.right ==> dx == -speed
  {
    speed * (Held(keys.right) - Held(keys.left))
  }

  /** Vertical displacement of one frame: speed·(S − W), y growing downwards. */
  function StepY(keys: Keys, speed: int): (dy: int)
    ensures keys.up == keys.down ==> dy == 0
    ensures keys.down && !keys.up ==> dy == speed
    ensures keys.up && !keys.down ==> dy == -speed
  {
    speed * (Held(keys.down) - Held(keys.up))
  }

  /** The player's position after the wall pass starting at (px, py): each
      wall in turn is tested against the player's current position and, when
      it overlaps, pushes the player back by the frame's displacement. An
      axis on which the keys do not move the player is never pushed.
      `overlaps(px, py, w)` stands for Phaser's rectangle overlap test between
      the player's bounds at (px, py) and the bounds of w. */
  function AfterWalls(px: int, py: int, walls: seq<Wall>, keys: Keys, speed: int,
                      overlaps: (int, int, Wall) -> bool): (r: (int, int))
    ensures StepX(keys, speed) == 0 ==> r.0 == px
    ensures StepY(keys, speed) == 0 ==> r.1 == py
    decreases |walls|
  {
    if walls == [] then (px, py)
    else if overlaps(px, py, walls[0]) then
      AfterWalls(px - StepX(keys, speed), py - StepY(keys, speed), walls[1..], keys, speed, overlaps)
    else
      AfterWalls(px, py, walls[1..], keys, speed, overlaps)
  }

  /** How many walls push the player back during the pass. */
  function PushCount(px: int, py: int, walls: seq<Wall>, keys: Keys, speed: int,
                     overlaps: (int, int, Wall) -> bool): (n: nat)
    ensures n <= |walls|
    decreases |walls|
  {
    if walls == [] then 0
    else if overlaps(px, py, walls[0]) then
      1 + PushCount(px - StepX(keys, speed), py - StepY(keys, speed), walls[1..], keys, speed, overlaps)
    else
      PushCount(px, py, walls[1..], keys, speed, overlaps)
  }

  /** Each push is exactly the inverse of the frame's displacement: after the
      pass the player stands `n` displacements back, `n` being the number of
      overlapping walls met. */
  lemma {:induction false} PushbackIsInverseStep(px: int, py: int, walls: seq<Wall>, keys: Keys, speed: int,
                                                 overlaps: (int, int, Wall) -> bool)
    ensures var n := PushCount(px, py, walls, keys, speed, overlaps);
            AfterWalls(px, py, walls, keys, speed, overlaps) ==
              (px - n * StepX(keys, speed), py - n * StepY(keys, speed))
    decreases |walls|
  {
    if walls != [] {
      var dx, dy := StepX(keys, speed), StepY(keys, speed);
      if overlaps(px, py, walls[0]) {
        PushbackIsInverseStep(px - dx, py - dy, walls[1..], keys, speed, overlaps);
        var m := PushCount(px - dx, py - dy, walls[1..], keys, speed, overlaps);
        OneMoreStepBack(px, dx, m);
        OneMoreStepBack(py, dy, m);
      } else {
        PushbackIsInverseStep(px, py, walls[1..], keys, speed, overlaps);
      }
    }
  }

  /** Going back one displacement, then m more, is going back m + 1. */
  lemma OneMoreStepBack(p: int, d: int, m: int)
    ensures (p - d) - m * d == p - (1 + m) * d
  {
  }

  /** With no key held the wall pass leaves the player where it is, however
      many walls overlap. */
  lemma {:induction false} NoKeysNoPushback(px: int, py: int, walls: seq<Wall>, keys: Keys, speed: int,
                                            overlaps: (int, int, Wall) -> bool)
    requires !AnyHeld(keys)
    ensures AfterWalls(px, py, walls, keys, speed, overlaps) == (px, py)
    decreases |walls|
  {
    if walls != [] {
      NoKeysNoPushback(px, py, walls[1..], keys, speed, overlaps);
    }
  }

  /** One whole frame of movement: the keys move the player by one
      displacement, the wall pass takes back `n` of them, so the player ends
      `1 − n` displacements from where it started. When no wall overlaps, the
      player has moved by exactly one displacement, and one overlapping wall
      puts it back where it started. */
  lemma FrameDisplacement(px: int, py: int, walls: seq<Wall>, keys: Keys, speed: int,
                          overlaps: (int, int, Wall) -> bool)
    ensures var dx, dy := StepX(keys, speed), StepY(keys, speed);
            var n := PushCount(px + dx, py + dy, walls, keys, speed, overlaps);
            && AfterWalls(px + dx, py + dy, walls, keys, speed, overlaps) == (px + dx - n * dx, py + dy - n * dy)
            && (n == 0 ==> AfterWalls(px + dx, py + dy, walls, keys, speed, overlaps) == (px + dx, py + dy))
            && (n == 1 ==> AfterWalls(px + dx, py + dy, walls, keys, speed, overlaps) == (px, py))
  {
    PushbackIsInverseStep(px + StepX(keys, speed), py + StepY(keys, speed), walls, keys, speed, overlaps);
  }
}
