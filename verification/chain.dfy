/** The body as an ordered list of cell positions, head first, and what one
    move and one growth do to it. */
module Chain {
  import opened Geometry

  /** One move: the head advances by its speed and every other segment takes
      the position its predecessor held before the move. */
  function Follow(body: seq<Vec>, speed: Vec): (moved: seq<Vec>)
    requires |body| > 0
    ensures |moved| == |body|
    ensures moved[0] == Add(body[0], speed)
    ensures forall i :: 1 <= i < |body| ==> moved[i] == body[i - 1]
  {
    [Add(body[0], speed)] + body[..|body| - 1]
  }

  /** Some segment other than the head sits exactly on the head. */
  predicate HitsSelf(body: seq<Vec>)
  {
    exists i :: 1 <= i < |body| && body[i] == body[0]
  }

  /** After a move the head lies on the body exactly when it moved onto a cell
      that some segment other than the tail occupied: the tail's old cell has
      been vacated and is safe. */
  lemma {:induction false} FollowHitsSelf(body: seq<Vec>, speed: Vec)
    requires |body| > 0
    ensures HitsSelf(Follow(body, speed)) <==> Add(body[0], speed) in body[..|body| - 1]
  {
    var moved := Follow(body, speed);
    if HitsSelf(moved) {
      var i :| 1 <= i < |moved| && moved[i] == moved[0];
      assert body[..|body| - 1][i - 1] == moved[0];
    }
    if Add(body[0], speed) in body[..|body| - 1] {
      var j :| 0 <= j < |body| - 1 && body[..|body| - 1][j] == Add(body[0], speed);
      assert moved[j + 1] == moved[0];
    }
  }

  /** Growing into the cell the tail just vacated gives the old body with the
      new head in front: the body stays one connected chain. */
  lemma {:induction false} GrowAfterFollow(body: seq<Vec>, speed: Vec)
    requires |body| > 0
    ensures Follow(body, speed) + [body[|body| - 1]] == [Add(body[0], speed)] + body
  {
  }

  /** The sum of two grid vectors is a grid vector. */
  lemma {:induction false} AddOnGrid(a: Vec, b: Vec)
    requires OnGrid(a) && OnGrid(b)
    ensures OnGrid(Add(a, b))
  {
    var cax, cay, cbx, cby := a.x / SquareSize, a.y / SquareSize, b.x / SquareSize, b.y / SquareSize;
    assert a.x + b.x == (cax + cbx) * SquareSize;
    assert a.y + b.y == (cay + cby) * SquareSize;
  }
}
