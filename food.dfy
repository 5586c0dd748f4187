/** Rejection-sampling food placement (src/game/food.ts). */
module Food {
  import opened Types
  import opened Constants

  predicate IsPositionOccupied(position: Position, segments: seq<Position>) {
    exists i | 0 <= i < |segments| :: segments[i].x == position.x && segments[i].y == position.y
  }

  lemma OccupiedIffInSegments(position: Position, segments: seq<Position>)
    ensures IsPositionOccupied(position, segments) <==> position in segments
  {
  }

  /** A value of Math.random(): a number in [0, 1). */
  type UnitInterval = r: real | 0.0 <= r < 1.0

  /** The two random numbers one getRandomPosition call consumes, for x and then y. */
  datatype Draw = Draw(rx: UnitInterval, ry: UnitInterval)

  /** floor(random * GRID_SIZE) for each coordinate. */
  function GetRandomPosition(draw: Draw): (p: Position)
    ensures InGrid(p)
  {
    Position((draw.rx * GRID_SIZE as real).Floor, (draw.ry * GRID_SIZE as real).Floor)
  }

  /** Every cell of the board is the image of some draw, so no cell is excluded from placement. */
  lemma EveryCellCanBeDrawn(p: Position)
    requires InGrid(p)
    ensures GetRandomPosition(Draw(p.x as real / GRID_SIZE as real, p.y as real / GRID_SIZE as real)) == p
  {
    var rx: real := p.x as real / GRID_SIZE as real;
    var ry: real := p.y as real / GRID_SIZE as real;
    assert rx * GRID_SIZE as real == p.x as real;
    assert ry * GRID_SIZE as real == p.y as real;
  }

  /** Some draw in the sequence lands on a free cell, so the rejection loop stops. */
  predicate HasFreeDraw(segments: seq<Position>, draws: seq<Draw>) {
    exists i | 0 <= i < |draws| :: !IsPositionOccupied(GetRandomPosition(draws[i]), segments)
  }

  /** The index of the first draw that lands on a free cell. */
  function FirstFreeIndex(segments: seq<Position>, draws: seq<Draw>): (k: nat)
    requires HasFreeDraw(segments, draws)
    ensures k < |draws| && !IsPositionOccupied(GetRandomPosition(draws[k]), segments)
    ensures forall j | 0 <= j < k :: IsPositionOccupied(GetRandomPosition(draws[j]), segments)
    decreases |draws|
  {
    if !IsPositionOccupied(GetRandomPosition(draws[0]), segments) then 0
    else
      assert HasFreeDraw(segments, draws[1..]) by {
        var i :| 0 <= i < |draws| && !IsPositionOccupied(GetRandomPosition(draws[i]), segments);
        assert i > 0 && draws[1..][i - 1] == draws[i];
      }
      var k := FirstFreeIndex(segments, draws[1..]);
      assert forall j | 1 <= j <= k :: draws[j] == draws[1..][j - 1];
      1 + k
  }

  /** Where spawnFood puts the food: the cell of the first free draw. */
  function FirstFreeDraw(segments: seq<Position>, draws: seq<Draw>): (p: Position)
    requires HasFreeDraw(segments, draws)
    ensures !IsPositionOccupied(p, segments) && InGrid(p)
  {
    GetRandomPosition(draws[FirstFreeIndex(segments, draws)])
  }

  /** With nothing on the board the very first draw is taken. */
  lemma FirstDrawWhenBoardEmpty(draws: seq<Draw>)
    requires |draws| > 0
    ensures HasFreeDraw([], draws) && FirstFreeDraw([], draws) == GetRandomPosition(draws[0])
  {
    assert !IsPositionOccupied(GetRandomPosition(draws[0]), []);
  }

  /** Draws a cell, and draws again while the snake is on it. */
  method SpawnFood(snakeSegments: seq<Position>, draws: seq<Draw>) returns (position: Position)
    requires HasFreeDraw(snakeSegments, draws)
    ensures position == FirstFreeDraw(snakeSegments, draws)
    ensures !IsPositionOccupied(position, snakeSegments) && InGrid(position)
  {
    var i := 0;
    position := GetRandomPosition(draws[i]);
    while IsPositionOccupied(position, snakeSegments)
      invariant 0 <= i <= FirstFreeIndex(snakeSegments, draws)
      invariant position == GetRandomPosition(draws[i])
      decreases FirstFreeIndex(snakeSegments, draws) - i
    {
      i := i + 1;
      position := GetRandomPosition(draws[i]);
    }
  }
}
