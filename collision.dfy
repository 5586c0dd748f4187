/** Food, wall and self collision predicates (src/game/collision.ts). */
module Collision {
  import opened Types
  import opened Constants

  predicate CheckFoodCollision(head: Position, food: Position) {
    head.x == food.x && head.y == food.y
  }

  lemma FoodCollisionIsSameCell(head: Position, food: Position)
    ensures CheckFoodCollision(head, food) <==> head == food
  {
  }

  predicate CheckWallCollision(head: Position) {
    head.x < 0 || head.x >= GRID_SIZE || head.y < 0 || head.y >= GRID_SIZE
  }

  lemma WallCollisionIffOffGrid(p: Position)
    ensures CheckWallCollision(p) <==> !InGrid(p)
  {
  }

  /** Every board cell is clear of the walls; the cells just outside each edge are not. */
  lemma WallBoundaries(x: int, y: int)
    ensures 0 <= x < GRID_SIZE && 0 <= y < GRID_SIZE ==> !CheckWallCollision(Position(x, y))
    ensures CheckWallCollision(Position(-1, y)) && CheckWallCollision(Position(GRID_SIZE, y))
    ensures CheckWallCollision(Position(x, -1)) && CheckWallCollision(Position(x, GRID_SIZE))
  {
  }

  /** `body.some(segment => same cell as head)`, scanning from the front. */
  predicate CheckSelfCollision(head: Position, body: seq<Position>)
    decreases |body|
  {
    |body| > 0 && ((body[0].x == head.x && body[0].y == head.y) || CheckSelfCollision(head, body[1..]))
  }

  lemma {:induction false} SelfCollisionIffInBody(head: Position, body: seq<Position>)
    ensures CheckSelfCollision(head, body) <==> head in body
    decreases |body|
  {
    if |body| > 0 {
      SelfCollisionIffInBody(head, body[1..]);
      assert body == [body[0]] + body[1..];
    }
  }

  lemma SelfCollisionEmptyBody(head: Position)
    ensures !CheckSelfCollision(head, [])
  {
  }

  /** Colliding with a concatenation is colliding with either part, so more segments never remove a collision. */
  lemma {:induction false} SelfCollisionAppend(head: Position, a: seq<Position>, b: seq<Position>)
    ensures CheckSelfCollision(head, a + b) <==> CheckSelfCollision(head, a) || CheckSelfCollision(head, b)
  {
    SelfCollisionIffInBody(head, a + b);
    SelfCollisionIffInBody(head, a);
    SelfCollisionIffInBody(head, b);
  }
}
