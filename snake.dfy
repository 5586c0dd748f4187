/** Directions, head stepping and body movement (src/game/snake.ts). */
module Snake {
  import opened Types

  /** The OPPOSITE_DIRECTIONS table. */
  function Opposite(d: Direction): Direction {
    match d
    case Up => Down
    case Down => Up
    case Left => Right
    case Right => Left
  }

  predicate IsOppositeDirection(current: Direction, next: Direction) {
    Opposite(current) == next
  }

  lemma OppositeOfEachDirection(d: Direction)
    ensures IsOppositeDirection(d, Opposite(d))
    ensures !IsOppositeDirection(d, d)
  {
  }

  lemma OppositeIsInvolution(d: Direction)
    ensures Opposite(Opposite(d)) == d
  {
  }

  lemma IsOppositeSymmetric(a: Direction, b: Direction)
    ensures IsOppositeDirection(a, b) <==> IsOppositeDirection(b, a)
  {
  }

  function Abs(n: int): nat {
    if n < 0 then -n else n
  }

  function ManhattanDistance(a: Position, b: Position): nat {
    Abs(a.x - b.x) + Abs(a.y - b.y)
  }

  /** One cell in the given direction; y decreases going up. No bounds check. */
  function GetNextHeadPosition(head: Position, direction: Direction): (r: Position)
    ensures ManhattanDistance(head, r) == 1
  {
    match direction
    case Up => Position(head.x, head.y - 1)
    case Down => Position(head.x, head.y + 1)
    case Left => Position(head.x - 1, head.y)
    case Right => Position(head.x + 1, head.y)
  }

  lemma NextHeadDeltas(head: Position, direction: Direction)
    ensures var r := GetNextHeadPosition(head, direction);
      && (direction == Up ==> r.x == head.x && r.y == head.y - 1)
      && (direction == Down ==> r.x == head.x && r.y == head.y + 1)
      && (direction == Left ==> r.y == head.y && r.x == head.x - 1)
      && (direction == Right ==> r.y == head.y && r.x == head.x + 1)
  {
  }

  /** Stepping back in the opposite direction returns to the start. */
  lemma StepThenOppositeReturns(head: Position, direction: Direction)
    ensures GetNextHeadPosition(GetNextHeadPosition(head, direction), Opposite(direction)) == head
  {
  }

  /** Two steps come back to the start exactly when the second reverses the first. */
  lemma OnlyOppositeStepsBack(head: Position, first: Direction, second: Direction)
    ensures GetNextHeadPosition(GetNextHeadPosition(head, first), second) == head
      <==> second == Opposite(first)
  {
  }

  /**
   * Adds the next head in front; the tail is dropped unless the snake grows.
   * An empty snake is returned as it is.
   */
  function MoveSnake(segments: seq<Position>, direction: Direction, shouldGrow: bool): (r: seq<Position>)
    ensures |segments| == 0 ==> r == segments
    ensures |segments| > 0 ==> |r| == |segments| + (if shouldGrow then 1 else 0)
  {
    if |segments| == 0 then segments
    else
      var newHead := GetNextHeadPosition(segments[0], direction);
      if shouldGrow then [newHead] + segments
      else [newHead] + segments[..|segments| - 1]
  }

  lemma MoveSnakeShape(segments: seq<Position>, direction: Direction, shouldGrow: bool)
    requires |segments| > 0
    ensures var r := MoveSnake(segments, direction, shouldGrow);
      && r[0] == GetNextHeadPosition(segments[0], direction)
      && (shouldGrow ==> |r| == |segments| + 1 && r[1..] == segments)
      && (!shouldGrow ==> |r| == |segments| && r[1..] == segments[..|segments| - 1])
  {
  }

  /** Consecutive segments are neighbouring cells. */
  predicate Contiguous(s: seq<Position>) {
    forall i | 0 < i < |s| :: ManhattanDistance(s[i - 1], s[i]) == 1
  }

  /** Moving keeps a contiguous body contiguous, with or without growth. */
  lemma {:induction false} MoveSnakeKeepsContiguous(segments: seq<Position>, direction: Direction, shouldGrow: bool)
    requires Contiguous(segments)
    ensures Contiguous(MoveSnake(segments, direction, shouldGrow))
  {
    if |segments| > 0 {
      var r := MoveSnake(segments, direction, shouldGrow);
      forall i | 0 < i < |r|
        ensures ManhattanDistance(r[i - 1], r[i]) == 1
      {
        if i == 1 {
          assert r[1] == segments[0];
        } else {
          assert r[i - 1] == segments[i - 2] && r[i] == segments[i - 1];
        }
      }
    }
  }

  /** The moved snake occupies only the new head and cells the old snake occupied. */
  lemma MoveSnakeCells(segments: seq<Position>, direction: Direction, shouldGrow: bool, p: Position)
    requires |segments| > 0
    ensures p in MoveSnake(segments, direction, shouldGrow) <==>
      p == GetNextHeadPosition(segments[0], direction)
      || (if shouldGrow then p in segments else p in segments[..|segments| - 1])
  {
  }
}
