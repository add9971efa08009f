/** The snake engine: one game's state held in a class, the per-frame update
    and its parts (collision, food spawn, input, move), and the frame tick.
    Key presses and the random generator are parameters. */
module Game {
  import opened Geometry
  import opened Steering
  import opened Chain

  const MaxSnakeLength: int := 100

  /** The snake moves on every fifth frame. */
  predicate MoveFrame(frame: int)
  {
    frame % 5 == 0
  }

  /** A body segment. Only the head's speed is ever read. */
  datatype Segment = Segment(position: Vec, speed: Vec)

  function Positions(segments: seq<Segment>): seq<Vec>
  {
    seq(|segments|, i requires 0 <= i < |segments| => segments[i].position)
  }

  /** The shadow buffer after the copy step: the first n slots hold the
      segments' positions, the rest keep their old contents. */
  function Recorded(prev: seq<Vec>, segments: seq<Segment>, n: int): (r: seq<Vec>)
    requires 0 <= n <= |prev| == |segments|
    ensures |r| == |prev|
    ensures forall i :: 0 <= i < n ==> r[i] == segments[i].position
    ensures forall i :: n <= i < |prev| ==> r[i] == prev[i]
  {
    seq(|prev|, i requires 0 <= i < |prev| => if i < n then segments[i].position else prev[i])
  }

  /** The segments after a move step over the first n: the head advances by
      its speed, segment i takes the position segment i - 1 had, and every
      slot from n on is left alone. Speeds never change. */
  function Advanced(segments: seq<Segment>, n: int): (r: seq<Segment>)
    requires 0 <= n <= |segments|
    ensures |r| == |segments|
    ensures 0 < n ==> r[0] == segments[0].(position := Add(segments[0].position, segments[0].speed))
    ensures forall i :: 1 <= i < n ==> r[i] == segments[i].(position := segments[i - 1].position)
    ensures forall i :: n <= i < |segments| ==> r[i] == segments[i]
  {
    seq(|segments|, i requires 0 <= i < |segments| =>
      if n <= i then segments[i]
      else if i == 0 then segments[0].(position := Add(segments[0].position, segments[0].speed))
      else segments[i].(position := segments[i - 1].position))
  }

  /** Growth: the first unused slot n takes the recorded position of the
      tail; its speed and every other slot are kept. */
  function Grown(segments: seq<Segment>, prev: seq<Vec>, n: int): (r: seq<Segment>)
    requires 1 <= n < |segments| && n <= |prev|
    ensures |r| == |segments|
    ensures r[n].position == prev[n - 1] && r[n].speed == segments[n].speed
    ensures forall i :: 0 <= i < |segments| && i != n ==> r[i] == segments[i]
  {
    segments[n := segments[n].(position := prev[n - 1])]
  }

  /** The keys of one frame applied to the head's speed. */
  function Steered(segments: seq<Segment>, right: bool, left: bool, down: bool, up: bool): (r: seq<Segment>)
    requires 0 < |segments|
    ensures |r| == |segments|
    ensures r[0].position == segments[0].position
    ensures forall i :: 1 <= i < |segments| ==> r[i] == segments[i]
  {
    segments[0 := segments[0].(speed := TurnHead(segments[0].speed, right, left, down, up))]
  }

  /** Recording one more slot. */
  lemma {:induction false} RecordStep(prev: seq<Vec>, segments: seq<Segment>, n: int)
    requires 0 <= n < |prev| == |segments|
    ensures Recorded(prev, segments, n)[n := segments[n].position] == Recorded(prev, segments, n + 1)
  {
  }

  /** Moving one more segment: slot n is the only one that changes. */
  lemma {:induction false} AdvanceStep(segments: seq<Segment>, n: int)
    requires 0 <= n < |segments|
    ensures Advanced(segments, n)[n] == segments[n]
    ensures n == 0 ==> Advanced(segments, n)[0 := segments[0].(position := Add(segments[0].position, segments[0].speed))] == Advanced(segments, 1)
    ensures 0 < n ==> Advanced(segments, n)[n := segments[n].(position := segments[n - 1].position)] == Advanced(segments, n + 1)
  {
  }

  /** Segment-wise moves lift to one Follow step of the positions. */
  lemma {:induction false} PositionsFollow(before: seq<Segment>, after: seq<Segment>, speed: Vec)
    requires |before| == |after| > 0
    requires after[0].position == Add(before[0].position, speed)
    requires forall j :: 1 <= j < |after| ==> after[j].position == before[j - 1].position
    ensures Positions(after) == Follow(Positions(before), speed)
  {
    var moved := Follow(Positions(before), speed);
    assert forall j :: 0 <= j < |after| ==> Positions(after)[j] == moved[j];
  }

  /** On the active part, a move step is one Follow of the positions. */
  lemma {:induction false} AdvancedFollows(segments: seq<Segment>, n: int)
    requires 0 < n <= |segments|
    ensures Positions(Advanced(segments, n)[..n]) == Follow(Positions(segments[..n]), segments[0].speed)
  {
    var moved := Advanced(segments, n);
    PositionsFollow(segments[..n], moved[..n], segments[0].speed);
  }

  /** Growth appends the recorded tail position to the active body. */
  lemma {:induction false} GrownAppends(segments: seq<Segment>, prev: seq<Vec>, n: int)
    requires 1 <= n < |segments| && n <= |prev|
    ensures Positions(Grown(segments, prev, n)[..n + 1]) == Positions(segments[..n]) + [prev[n - 1]]
  {
    var grown := Grown(segments, prev, n);
    var lhs, rhs := Positions(grown[..n + 1]), Positions(segments[..n]) + [prev[n - 1]];
    assert forall j :: 0 <= j < n + 1 ==> lhs[j] == rhs[j];
  }

  /** Steering changes no position. */
  lemma {:induction false} SteeredKeepsPositions(segments: seq<Segment>, n: int, right: bool, left: bool, down: bool, up: bool)
    requires 0 < n <= |segments|
    ensures Positions(Steered(segments, right, left, down, up)[..n]) == Positions(segments[..n])
  {
    var steered := Steered(segments, right, left, down, up);
    assert forall j :: 0 <= j < n ==> Positions(steered[..n])[j] == Positions(segments[..n])[j];
  }

  /** A move frame on the active body: the keys turn the head, then the body
      follows the new head speed. */
  lemma {:induction false} SteerThenMove(segments: seq<Segment>, n: int, right: bool, left: bool, down: bool, up: bool)
    requires 0 < n <= |segments|
    ensures Positions(Advanced(Steered(segments, right, left, down, up), n)[..n]) ==
            Follow(Positions(segments[..n]), TurnHead(segments[0].speed, right, left, down, up))
  {
    var steered := Steered(segments, right, left, down, up);
    AdvancedFollows(steered, n);
    SteeredKeepsPositions(segments, n, right, left, down, up);
  }

  /** Eating on the frame after a move: the recorded tail is the cell the tail
      has just left, so the grown body is the old body with the new head in
      front, and no cell is skipped. */
  lemma {:induction false} MoveThenGrow(segments: seq<Segment>, prev: seq<Vec>, n: int)
    requires 0 < n < |segments| == |prev|
    ensures Positions(Grown(Advanced(segments, n), Recorded(prev, segments, n), n)[..n + 1]) ==
            [Add(segments[0].position, segments[0].speed)] + Positions(segments[..n])
  {
    var moved, recorded := Advanced(segments, n), Recorded(prev, segments, n);
    GrownAppends(moved, recorded, n);
    AdvancedFollows(segments, n);
    GrowAfterFollow(Positions(segments[..n]), segments[0].speed);
  }

  /** The self test over the first n segments, index by index, is HitsSelf
      of the body. */
  lemma {:induction false} SelfHitIffSameCell(segments: seq<Segment>, n: int)
    requires 0 <= n <= |segments|
    ensures HitsSelf(Positions(segments[..n])) <==>
            exists j :: 1 <= j < n && segments[j].position == segments[0].position
  {
    var body := Positions(segments[..n]);
    if HitsSelf(body) {
      var j :| 1 <= j < |body| && body[j] == body[0];
      assert segments[j].position == segments[0].position;
    }
    if exists j :: 1 <= j < n && segments[j].position == segments[0].position {
      var j :| 1 <= j < n && segments[j].position == segments[0].position;
      assert body[j] == body[0];
    }
  }

  predicate SegmentsOnGrid(segments: seq<Segment>)
  {
    forall i :: 0 <= i < |segments| ==> OnGrid(segments[i].position)
  }

  predicate PointsOnGrid(points: seq<Vec>)
  {
    forall i :: 0 <= i < |points| ==> OnGrid(points[i])
  }

  /** Recording copies grid positions, so the buffer stays on the grid. */
  lemma {:induction false} RecordedKeepsGrid(prev: seq<Vec>, segments: seq<Segment>, n: int)
    requires 0 <= n <= |prev| == |segments|
    requires PointsOnGrid(prev) && SegmentsOnGrid(segments)
    ensures PointsOnGrid(Recorded(prev, segments, n))
  {
    var r := Recorded(prev, segments, n);
    forall i | 0 <= i < |r| ensures OnGrid(r[i]) {
      if i < n { assert OnGrid(segments[i].position); } else { assert OnGrid(prev[i]); }
    }
  }

  /** A move by a unit speed keeps every segment on the grid and keeps the
      head's speed. */
  lemma {:induction false} AdvancedKeepsGrid(segments: seq<Segment>, n: int)
    requires 0 <= n <= |segments|
    requires SegmentsOnGrid(segments)
    requires 0 < n ==> IsAxis(segments[0].speed)
    ensures SegmentsOnGrid(Advanced(segments, n))
    ensures 0 < n ==> Advanced(segments, n)[0].speed == segments[0].speed
  {
    var r := Advanced(segments, n);
    if 0 < n {
      AxisOnGrid(segments[0].speed);
      AddOnGrid(segments[0].position, segments[0].speed);
    }
    forall i | 0 <= i < |r| ensures OnGrid(r[i].position) {
      if 1 <= i < n { assert OnGrid(segments[i - 1].position); }
      else if n <= i { assert OnGrid(segments[i].position); }
    }
  }

  /** Growth copies a recorded grid position, so the segments stay on the grid. */
  lemma {:induction false} GrownKeepsGrid(segments: seq<Segment>, prev: seq<Vec>, n: int)
    requires 1 <= n < |segments| && n <= |prev|
    requires SegmentsOnGrid(segments) && PointsOnGrid(prev)
    ensures SegmentsOnGrid(Grown(segments, prev, n))
  {
    var r := Grown(segments, prev, n);
    forall i | 0 <= i < |r| ensures OnGrid(r[i].position) {
      if i == n { assert OnGrid(prev[n - 1]); } else { assert OnGrid(segments[i].position); }
    }
  }

  /** Steering changes no position and keeps the head a unit move. */
  lemma {:induction false} SteeredKeepsGrid(segments: seq<Segment>, right: bool, left: bool, down: bool, up: bool)
    requires 0 < |segments|
    requires SegmentsOnGrid(segments) && IsAxis(segments[0].speed)
    ensures SegmentsOnGrid(Steered(segments, right, left, down, up))
    ensures IsAxis(Steered(segments, right, left, down, up)[0].speed)
  {
    var r := Steered(segments, right, left, down, up);
    TurnHeadKeepsAxis(segments[0].speed, right, left, down, up);
    forall i | 0 <= i < |r| ensures OnGrid(r[i].position) {
      if i == 0 { assert OnGrid(segments[0].position); } else { assert OnGrid(segments[i].position); }
    }
  }

  /** The head speed persists between moves: moving up, "right" pressed on
      one frame and "down" on a later frame before the next move leave the
      head moving down, back onto the segment behind it. */
  lemma {:induction false} KeysOnTwoFramesCanReverse(segments: seq<Segment>)
    requires 0 < |segments| && segments[0].speed == Vec(0, -SquareSize)
    ensures Steered(Steered(segments, true, false, false, false), false, false, true, false)[0].speed ==
            Reverse(segments[0].speed)
  {
    var first := Steered(segments, true, false, false, false);
    assert first[0].speed == Vec(SquareSize, 0);
  }

  /** Some draw of the random generator lands outside the body. */
  predicate HasFreeRoll(rolls: seq<Cell>, body: seq<Vec>)
  {
    exists k :: 0 <= k < |rolls| && CellPos(rolls[k]) !in body
  }

  /** The index of the first draw that lands outside the body: where rejection
      sampling stops. */
  function FirstFree(rolls: seq<Cell>, body: seq<Vec>): (k: nat)
    requires HasFreeRoll(rolls, body)
    ensures k < |rolls| && CellPos(rolls[k]) !in body
    ensures forall j :: 0 <= j < k ==> CellPos(rolls[j]) in body
    decreases |rolls|
  {
    if CellPos(rolls[0]) !in body then 0
    else
      var w :| 0 <= w < |rolls| && CellPos(rolls[w]) !in body;
      assert CellPos(rolls[1..][w - 1]) !in body;
      1 + FirstFree(rolls[1..], body)
  }

  /** Every draw respects the generator's bounds. */
  predicate AllInRange(rolls: seq<Cell>)
  {
    forall k :: 0 <= k < |rolls| ==> InRange(rolls[k])
  }

  class SnakeGame {
    const snake: array<Segment>
    const snakePreviousPosition: array<Vec>
    var snakeLength: int
    var fruit: Vec
    var isGameOver: bool
    var shouldSpawnFood: bool
    var frameCounter: int

    /** Fixed capacity, length within it, every stored position on the grid,
        and a unit head speed once the snake exists. */
    ghost predicate Valid()
      reads this, snake, snakePreviousPosition
    {
      snake.Length == MaxSnakeLength &&
      snakePreviousPosition.Length == MaxSnakeLength &&
      0 <= snakeLength <= MaxSnakeLength &&
      0 <= frameCounter &&
      SegmentsOnGrid(snake[..]) &&
      PointsOnGrid(snakePreviousPosition[..]) &&
      OnGrid(fruit) &&
      (0 < snakeLength ==> IsAxis(snake[0].speed))
    }

    /** The active segments' positions, head first. */
    ghost function Body(): seq<Vec>
      reads this, snake, snakePreviousPosition
      requires Valid()
    {
      Positions(snake[..snakeLength])
    }

    /** The head's box overlaps the fruit's box (the eating test). */
    ghost predicate HeadOnFruit()
      reads this, snake, snakePreviousPosition
      requires Valid()
    {
      Overlaps(snake[0].position, fruit)
    }

    /** The eating test may grow the snake: the source writes one slot past
        the end without a check, so a growing snake must have room. */
    ghost predicate RoomToGrow()
      reads this, snake, snakePreviousPosition
      requires Valid()
    {
      HeadOnFruit() ==> 1 <= snakeLength < MaxSnakeLength
    }

    /** The segments once the eating test has run. */
    ghost function GrownSegments(): seq<Segment>
      reads this, snake, snakePreviousPosition
      requires Valid() && RoomToGrow()
    {
      if HeadOnFruit() then Grown(snake[..], snakePreviousPosition[..], snakeLength) else snake[..]
    }

    ghost function GrownLength(): int
      reads this, snake, snakePreviousPosition
      requires Valid()
    {
      snakeLength + if HeadOnFruit() then 1 else 0
    }

    /** The active positions once the eating test has run. */
    ghost function GrownBody(): seq<Vec>
      reads this, snake, snakePreviousPosition
      requires Valid() && RoomToGrow()
    {
      Positions(GrownSegments()[..GrownLength()])
    }

    /** Since every position is on the grid, eating is exactly "head on the fruit's cell". */
    lemma EatsIffHeadOnFruit()
      requires Valid()
      ensures HeadOnFruit() <==> snake[0].position == fruit
    {
      OverlapIffSameCell(snake[0].position, fruit);
    }

    /** Eating appends the recorded tail position; otherwise the body stays. */
    lemma GrownBodyAppends()
      requires Valid() && RoomToGrow()
      ensures GrownBody() ==
              if HeadOnFruit() then Body() + [snakePreviousPosition[snakeLength - 1]] else Body()
    {
      if HeadOnFruit() {
        GrownAppends(snake[..], snakePreviousPosition[..], snakeLength);
        assert snake[..][..snakeLength] == snake[..snakeLength];
      }
    }

    /** The state before the game is set up: every global zero-initialised. */
    constructor ()
      ensures Valid()
      ensures fresh(snake) && fresh(snakePreviousPosition)
      ensures forall i :: 0 <= i < MaxSnakeLength ==>
                snake[i] == Segment(Vec(0, 0), Vec(0, 0)) && snakePreviousPosition[i] == Vec(0, 0)
      ensures snakeLength == 0 && fruit == Vec(0, 0)
      ensures !isGameOver && !shouldSpawnFood && frameCounter == 0
    {
      snake := new Segment[MaxSnakeLength](_ => Segment(Vec(0, 0), Vec(0, 0)));
      snakePreviousPosition := new Vec[MaxSnakeLength](_ => Vec(0, 0));
      snakeLength := 0;
      fruit := Vec(0, 0);
      isGameOver := false;
      shouldSpawnFood := false;
      frameCounter := 0;
    }

    /** The starting state: a one-segment snake at cell (1, 1) heading right,
        and a food placement pending. The fruit and the frame counter are kept. */
    method InitGame()
      requires Valid()
      modifies this, snake, snakePreviousPosition
      ensures Valid()
      ensures !isGameOver && snakeLength == 1 && shouldSpawnFood
      ensures forall i :: 0 <= i < MaxSnakeLength ==>
                snake[i] == Segment(Vec(SquareSize, SquareSize), Vec(SquareSize, 0))
      ensures forall i :: 0 <= i < MaxSnakeLength ==> snakePreviousPosition[i] == Vec(0, 0)
      ensures fruit == old(fruit) && frameCounter == old(frameCounter)
      ensures Body() == [Vec(SquareSize, SquareSize)]
    {
      isGameOver := false;
      snakeLength := 1;
      for i := 0 to MaxSnakeLength
        modifies snake
        invariant forall j :: 0 <= j < i ==>
                    snake[j] == Segment(Vec(SquareSize, SquareSize), Vec(SquareSize, 0))
      {
        snake[i] := Segment(Vec(SquareSize, SquareSize), Vec(SquareSize, 0));
      }
      for i := 0 to MaxSnakeLength
        modifies snakePreviousPosition
        invariant forall j :: 0 <= j < i ==> snakePreviousPosition[j] == Vec(0, 0)
      {
        snakePreviousPosition[i] := Vec(0, 0);
      }
      shouldSpawnFood := true;
    }

    /** Records the active positions and, on a move frame, advances the chain. */
    method UpdateSnake()
      requires Valid()
      modifies snake, snakePreviousPosition
      ensures Valid()
      ensures snakePreviousPosition[..] == Recorded(old(snakePreviousPosition[..]), old(snake[..]), snakeLength)
      ensures snake[..] == if MoveFrame(frameCounter) then Advanced(old(snake[..]), snakeLength) else old(snake[..])
    {
      ghost var segs := snake[..];
      ghost var prev := snakePreviousPosition[..];
      for i := 0 to snakeLength
        modifies snakePreviousPosition
        invariant snakePreviousPosition[..] == Recorded(prev, segs, i)
      {
        RecordStep(prev, segs, i);
        snakePreviousPosition[i] := snake[i].position;
      }
      RecordedKeepsGrid(prev, segs, snakeLength);

      if frameCounter % 5 == 0 {
        for i := 0 to snakeLength
          modifies snake
          invariant snake[..] == Advanced(segs, i)
        {
          AdvanceStep(segs, i);
          if i == 0 {
            snake[0] := snake[0].(position := Add(snake[0].position, snake[0].speed));
          } else {
            snake[i] := snake[i].(position := snakePreviousPosition[i - 1]);
          }
        }
        AdvancedKeepsGrid(segs, snakeLength);
      }
    }

    /** Applies the arrow keys pressed this frame to the head's speed. */
    method HandleInput(right: bool, left: bool, down: bool, up: bool)
      requires Valid()
      modifies snake
      ensures Valid()
      ensures snake[..] == Steered(old(snake[..]), right, left, down, up)
    {
      if right && snake[0].speed.x == 0 {
        snake[0] := snake[0].(speed := Vec(SquareSize, 0));
      }
      if left && snake[0].speed.x == 0 {
        snake[0] := snake[0].(speed := Vec(-SquareSize, 0));
      }
      if down && snake[0].speed.y == 0 {
        snake[0] := snake[0].(speed := Vec(0, SquareSize));
      }
      if up && snake[0].speed.y == 0 {
        snake[0] := snake[0].(speed := Vec(0, -SquareSize));
      }
    }

    /** When a placement is pending, draws cells until one is free of the body. */
    method SpawnFood(rolls: seq<Cell>)
      requires Valid()
      requires AllInRange(rolls)
      requires shouldSpawnFood ==> HasFreeRoll(rolls, Body())
      modifies `fruit, `shouldSpawnFood
      ensures Valid()
      ensures !shouldSpawnFood
      ensures !old(shouldSpawnFood) ==> fruit == old(fruit)
      ensures old(shouldSpawnFood) ==> fruit == CellPos(rolls[FirstFree(rolls, Body())])
      ensures old(shouldSpawnFood) ==> !HitsWall(fruit)
      ensures old(shouldSpawnFood) ==> forall i :: 0 <= i < snakeLength ==> snake[i].position != fruit
    {
      if !shouldSpawnFood {
        return;
      }
      ghost var body := Body();
      assert forall j :: 0 <= j < snakeLength ==> body[j] == snake[j].position;
      ghost var stop := FirstFree(rolls, body);
      var k := 0;
      while shouldSpawnFood
        invariant Valid() && body == Body()
        invariant shouldSpawnFood ==> k <= stop
        invariant !shouldSpawnFood ==> k == stop + 1 && fruit == CellPos(rolls[stop])
        decreases |rolls| - k
      {
        fruit := CellPos(rolls[k]);
        k := k + 1;
        shouldSpawnFood := false;
        var i := 0;
        while i < snakeLength
          invariant 0 <= i <= snakeLength
          invariant !shouldSpawnFood
          invariant forall j :: 0 <= j < i ==> snake[j].position != fruit
        {
          if fruit == snake[i].position {
            shouldSpawnFood := true;
            break;
          }
          i := i + 1;
        }
        assert shouldSpawnFood <==> fruit in body;
      }
      assert InRange(rolls[stop]);
    }

    /** The wall test, the self test and the eating test, in that order. */
    method HandleCollision()
      requires Valid() && RoomToGrow()
      modifies this, snake
      ensures Valid()
      ensures isGameOver == (old(isGameOver) || HitsWall(old(snake[0].position)) || HitsSelf(old(Body())))
      ensures snakeLength == old(GrownLength()) && snake[..] == old(GrownSegments())
      ensures shouldSpawnFood == (old(shouldSpawnFood) || old(HeadOnFruit()))
      ensures fruit == old(fruit) && frameCounter == old(frameCounter)
    {
      ghost var segs := snake[..];
      ghost var head := snake[0].position;
      ghost var grown := GrownSegments();
      ghost var eats := HeadOnFruit();
      SelfHitIffSameCell(segs, snakeLength);
      // collision with the walls
      if snake[0].position.x + SquareSize > ScreenWidth || snake[0].position.x < 0 {
        isGameOver := true;
      }
      if snake[0].position.y + SquareSize > ScreenHeight || snake[0].position.y < 0 {
        isGameOver := true;
      }
      // collision with the body
      var i := 1;
      while i < snakeLength
        modifies `isGameOver
        invariant 1 <= i && (i <= snakeLength || i == 1)
        invariant isGameOver == (old(isGameOver) || HitsWall(head) ||
                                 exists j :: 1 <= j < i && j < |segs| && segs[j].position == head)
      {
        if snake[0].position == snake[i].position {
          isGameOver := true;
          break;
        }
        i := i + 1;
      }
      // collision with the food
      if Overlaps(snake[0].position, fruit) {
        snake[snakeLength] := snake[snakeLength].(position := snakePreviousPosition[snakeLength - 1]);
        snakeLength := snakeLength + 1;
        shouldSpawnFood := true;
        GrownKeepsGrid(segs, snakePreviousPosition[..], snakeLength - 1);
      }
      assert snake[..] == grown;
    }

    /** The effect of one running frame, stated on the state before it:
        collision outcome and growth, food placement on the grown body,
        steering, and the position copy and move. */
    twostate predicate Stepped(right: bool, left: bool, down: bool, up: bool, rolls: seq<Cell>)
      reads this, snake, snakePreviousPosition
      requires old(Valid()) && old(RoomToGrow())
      requires old(shouldSpawnFood) || old(HeadOnFruit()) ==> HasFreeRoll(rolls, old(GrownBody()))
    {
      var grown := old(GrownSegments());
      var length := old(GrownLength());
      var steered := if 0 < |grown| then Steered(grown, right, left, down, up) else grown;
      && isGameOver == (HitsWall(old(snake[0].position)) || HitsSelf(old(Body())))
      && snakeLength == length
      && !shouldSpawnFood
      && fruit == (if old(shouldSpawnFood) || old(HeadOnFruit())
                   then CellPos(rolls[FirstFree(rolls, old(GrownBody()))])
                   else old(fruit))
      && 0 <= length <= |steered|
      && snakePreviousPosition[..] == Recorded(old(snakePreviousPosition[..]), steered, length)
      && snake[..] == if MoveFrame(old(frameCounter)) then Advanced(steered, length) else steered
    }

    /** One frame of game logic, a no-op once the game is over. */
    method UpdateGame(right: bool, left: bool, down: bool, up: bool, rolls: seq<Cell>)
      requires Valid()
      requires AllInRange(rolls)
      requires !isGameOver ==> RoomToGrow()
      requires !isGameOver && (shouldSpawnFood || HeadOnFruit()) ==> HasFreeRoll(rolls, GrownBody())
      modifies this, snake, snakePreviousPosition
      ensures Valid()
      ensures old(isGameOver) ==> unchanged(this, snake, snakePreviousPosition)
      ensures !old(isGameOver) ==> Stepped(right, left, down, up, rolls)
      ensures frameCounter == old(frameCounter)
    {
      if isGameOver {
        return;
      }
      ghost var grownBody := GrownBody();
      HandleCollision();
      assert Body() == grownBody;
      SpawnFood(rolls);
      HandleInput(right, left, down, up);
      UpdateSnake();
    }

    /** One iteration of the main loop: update and count the frame while the
        game runs; once it is over, nothing changes. */
    method Tick(right: bool, left: bool, down: bool, up: bool, rolls: seq<Cell>)
      requires Valid()
      requires AllInRange(rolls)
      requires !isGameOver ==> RoomToGrow()
      requires !isGameOver && (shouldSpawnFood || HeadOnFruit()) ==> HasFreeRoll(rolls, GrownBody())
      modifies this, snake, snakePreviousPosition
      ensures Valid()
      ensures old(isGameOver) ==> unchanged(this, snake, snakePreviousPosition)
      ensures !old(isGameOver) ==> Stepped(right, left, down, up, rolls)
      ensures !old(isGameOver) ==> frameCounter == old(frameCounter) + 1
    {
      if !isGameOver {
        UpdateGame(right, left, down, up, rolls);
        frameCounter := frameCounter + 1;
      }
    }
  }
}
