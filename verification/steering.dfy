/** How the arrow keys change the head's speed. Each key is honoured only when
    the head is not already moving along that key's axis; the four keys are
    tested in a fixed order (right, left, down, up) within one frame. */
module Steering {
  import opened Geometry

  datatype Key = Right | Left | Down | Up

  /** The speed a key asks for: one cell per move, along the key's axis. */
  function Direction(k: Key): Vec
  {
    match k
    case Right => Vec(SquareSize, 0)
    case Left => Vec(-SquareSize, 0)
    case Down => Vec(0, SquareSize)
    case Up => Vec(0, -SquareSize)
  }

  predicate Horizontal(k: Key)
  {
    k == Right || k == Left
  }

  /** One of the four unit moves. */
  predicate IsAxis(v: Vec)
  {
    v == Vec(SquareSize, 0) || v == Vec(-SquareSize, 0) ||
    v == Vec(0, SquareSize) || v == Vec(0, -SquareSize)
  }

  lemma AxisOnGrid(v: Vec)
    requires IsAxis(v)
    ensures OnGrid(v)
  {
  }

  function Reverse(v: Vec): Vec
  {
    Vec(-v.x, -v.y)
  }

  /** The effect of one key test: a horizontal key needs speed.x == 0, a
      vertical key needs speed.y == 0. */
  function Steer(speed: Vec, k: Key, pressed: bool): Vec
  {
    if pressed && (if Horizontal(k) then speed.x == 0 else speed.y == 0)
    then Direction(k)
    else speed
  }

  /** The head speed after the four key tests of one frame. */
  function TurnHead(speed: Vec, right: bool, left: bool, down: bool, up: bool): Vec
  {
    Steer(Steer(Steer(Steer(speed, Right, right), Left, left), Down, down), Up, up)
  }

  /** From a unit move, a pressed key is honoured exactly when it is
      perpendicular to the current motion; otherwise the speed stays. */
  lemma SteerHonoursPerpendicular(speed: Vec, k: Key)
    requires IsAxis(speed)
    ensures Steer(speed, k, true) ==
      (if Horizontal(k) == (speed.y == 0) then speed else Direction(k))
  {
  }

  /** A single key test keeps the speed a unit move and never reverses it. */
  lemma SteerKeepsAxis(speed: Vec, k: Key, pressed: bool)
    requires IsAxis(speed)
    ensures IsAxis(Steer(speed, k, pressed))
    ensures Steer(speed, k, pressed) != Reverse(speed)
  {
  }

  /** Whatever keys are pressed, the head keeps moving along one axis by one cell. */
  lemma {:induction false} TurnHeadKeepsAxis(speed: Vec, right: bool, left: bool, down: bool, up: bool)
    requires IsAxis(speed)
    ensures IsAxis(TurnHead(speed, right, left, down, up))
  {
    var s1 := Steer(speed, Right, right);
    SteerKeepsAxis(speed, Right, right);
    var s2 := Steer(s1, Left, left);
    SteerKeepsAxis(s1, Left, left);
    var s3 := Steer(s2, Down, down);
    SteerKeepsAxis(s2, Down, down);
    SteerKeepsAxis(s3, Up, up);
  }

  /** Within one frame's key tests, a single pressed key never turns the head
      back on itself. The speed persists across the frames between two moves,
      so keys pressed on different frames can still reverse it (see
      Game.KeysOnTwoFramesCanReverse). */
  lemma {:induction false} OneKeyNeverReverses(speed: Vec, k: Key)
    requires IsAxis(speed)
    ensures TurnHead(speed, k == Right, k == Left, k == Down, k == Up) != Reverse(speed)
    ensures TurnHead(speed, false, false, false, false) == speed
  {
    SteerHonoursPerpendicular(speed, k);
    match k
    case Right =>
      assert TurnHead(speed, true, false, false, false) == Steer(speed, Right, true);
    case Left =>
      assert TurnHead(speed, false, true, false, false) == Steer(speed, Left, true);
    case Down =>
      assert TurnHead(speed, false, false, true, false) == Steer(speed, Down, true);
    case Up =>
      assert TurnHead(speed, false, false, false, true) == Steer(speed, Up, true);
  }

  /** Two keys pressed in the same frame can reverse the head: moving up,
      "right" is honoured first and then "down" is honoured against the new
      horizontal speed. */
  lemma TwoKeysCanReverse()
    ensures TurnHead(Vec(0, -SquareSize), true, false, true, false) == Reverse(Vec(0, -SquareSize))
  {
  }
}
