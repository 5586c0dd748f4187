/** The game session store (src/stores/gameStore.ts). */
module GameStore {
  import opened Types
  import opened Constants
  import opened Snake
  import opened Collision
  import opened GameSpeed
  import opened Food
  import LeaderboardStore

  /** INITIAL_SNAKE_LENGTH cells on the middle row: the head at the centre, the body to its left. */
  function CreateInitialSnake(): seq<Position> {
    seq(INITIAL_SNAKE_LENGTH, i => Position(GRID_SIZE / 2 - i, GRID_SIZE / 2))
  }

  lemma InitialSnakeLayout()
    ensures CreateInitialSnake() == [Position(10, 10), Position(9, 10), Position(8, 10)]
  {
    var s := CreateInitialSnake();
    assert s[0] == Position(10, 10) && s[1] == Position(9, 10) && s[2] == Position(8, 10);
  }

  method CreateInitialFood(snake: seq<Position>, draws: seq<Draw>) returns (food: Position)
    requires HasFreeDraw(snake, draws)
    ensures food == FirstFreeDraw(snake, draws)
    ensures !IsPositionOccupied(food, snake)
  {
    food := SpawnFood(snake, draws);
  }

  datatype TickResult = TickResult(died: bool, ateFood: bool)

  /** The value of every field of the store. */
  datatype Session = Session(
    gameStatus: GameStatus,
    snake: seq<Position>,
    food: Position,
    direction: Direction,
    nextDirection: Option<Direction>,
    score: int,
    currentMode: GameMode,
    speed: int,
    foodEaten: nat,
    isNewHighScore: bool)

  predicate NoRepeats(s: seq<Position>) {
    forall i, j | 0 <= i < j < |s| :: s[i] != s[j]
  }

  predicate AllInGrid(s: seq<Position>) {
    forall i | 0 <= i < |s| :: InGrid(s[i])
  }

  /** A queued direction never reverses the committed one. */
  predicate QueueIsSafe(direction: Direction, queued: Option<Direction>) {
    queued.Some? ==> !IsOppositeDirection(direction, queued.value)
  }

  /** What every operation of the store maintains. */
  ghost predicate Invariant(s: Session) {
    && |s.snake| == INITIAL_SNAKE_LENGTH + s.foodEaten
    && AllInGrid(s.snake) && Contiguous(s.snake) && NoRepeats(s.snake)
    // the neck is the cell behind the head along the committed direction
    && (|s.snake| >= 2 ==> GetNextHeadPosition(s.snake[1], s.direction) == s.snake[0])
    && InGrid(s.food) && !IsPositionOccupied(s.food, s.snake)
    && QueueIsSafe(s.direction, s.nextDirection)
    && s.speed == CalculateSpeed(s.foodEaten, s.currentMode)
    && s.score == POINTS_PER_FOOD * s.foodEaten
  }

  /** The session startGame and resetGame install for the given mode. */
  function StartedSession(mode: GameMode, draws: seq<Draw>): Session
    requires HasFreeDraw(CreateInitialSnake(), draws)
  {
    Session(Playing, CreateInitialSnake(), FirstFreeDraw(CreateInitialSnake(), draws), Right, None,
            0, mode, if mode == Classic then INITIAL_SPEED else SPEED_MODE_INITIAL, 0, false)
  }

  lemma StartedSessionIsValid(mode: GameMode, draws: seq<Draw>)
    requires HasFreeDraw(CreateInitialSnake(), draws)
    ensures Invariant(StartedSession(mode, draws))
    ensures StartedSession(mode, draws).speed == ModeParams(mode).initial
  {
    InitialSnakeLayout();
  }

  /** setDirection's single-slot queue: the queued value after a request. */
  function QueueDirection(direction: Direction, queued: Option<Direction>, request: Direction): Option<Direction> {
    match queued
    case Some(q) =>
      if IsOppositeDirection(q, request) then queued
      else if IsOppositeDirection(direction, request) then queued
      else if request != q then Some(request)
      else queued
    case None =>
      if IsOppositeDirection(direction, request) then queued
      else if request != direction then Some(request)
      else queued
  }

  /** A request is taken unless it reverses the committed or the queued direction, or repeats the committed one into an empty queue. */
  predicate RequestAccepted(direction: Direction, queued: Option<Direction>, request: Direction) {
    && !IsOppositeDirection(direction, request)
    && (queued.Some? ==> !IsOppositeDirection(queued.value, request))
    && (queued.None? ==> request != direction)
  }

  lemma QueueTakesAcceptedRequests(direction: Direction, queued: Option<Direction>, request: Direction)
    ensures QueueDirection(direction, queued, request)
      == if RequestAccepted(direction, queued, request) then Some(request) else queued
  {
  }

  lemma QueueStaysSafe(direction: Direction, queued: Option<Direction>, request: Direction)
    requires QueueIsSafe(direction, queued)
    ensures QueueIsSafe(direction, QueueDirection(direction, queued, request))
  {
  }

  lemma QueueRejectsReversalOfQueued(direction: Direction, q: Direction, request: Direction)
    requires IsOppositeDirection(q, request)
    ensures QueueDirection(direction, Some(q), request) == Some(q)
  {
  }

  lemma QueueIgnoresCurrentDirection(direction: Direction)
    ensures QueueDirection(direction, None, direction) == None
  {
  }

  /** Moving RIGHT: LEFT is refused, UP is queued, then LEFT and DOWN are refused. */
  lemma QueueRapidPresses()
    ensures QueueDirection(Right, None, Left) == None
    ensures QueueDirection(Right, None, Up) == Some(Up)
    ensures QueueDirection(Right, Some(Up), Left) == Some(Up)
    ensures QueueDirection(Right, Some(Up), Down) == Some(Up)
  {
  }

  function EffectiveDirection(s: Session): Direction {
    match s.nextDirection
    case Some(d) => d
    case None => s.direction
  }

  function NextHead(s: Session): Position
    requires |s.snake| > 0
  {
    GetNextHeadPosition(s.snake[0], EffectiveDirection(s))
  }

  /** The wall check, then the self check against every segment but the head (the tail included). */
  predicate Dies(s: Session)
    requires |s.snake| > 0
  {
    CheckWallCollision(NextHead(s)) || CheckSelfCollision(NextHead(s), s.snake[1..])
  }

  predicate Eats(s: Session)
    requires |s.snake| > 0
  {
    !Dies(s) && CheckFoodCollision(NextHead(s), s.food)
  }

  /** A tick can run: the snake has a head, and a food spawn, if one happens, stops. */
  predicate CanTick(s: Session, draws: seq<Draw>) {
    |s.snake| > 0 && (Eats(s) ==> HasFreeDraw(s.snake + [NextHead(s)], draws))
  }

  /** The store and the result after one tick. */
  function TickTransition(s: Session, draws: seq<Draw>): (Session, TickResult)
    requires CanTick(s, draws)
  {
    var d := EffectiveDirection(s);
    var nextHead := GetNextHeadPosition(s.snake[0], d);
    if CheckWallCollision(nextHead) then (s, TickResult(true, false))
    else if CheckSelfCollision(nextHead, s.snake[1..]) then (s, TickResult(true, false))
    else if CheckFoodCollision(nextHead, s.food) then
      var foodEaten := s.foodEaten + 1;
      (s.(snake := MoveSnake(s.snake, d, true),
          food := FirstFreeDraw(s.snake + [nextHead], draws),
          direction := d,
          nextDirection := None,
          score := s.score + POINTS_PER_FOOD,
          foodEaten := foodEaten,
          speed := CalculateSpeed(foodEaten, s.currentMode)),
       TickResult(false, true))
    else
      (s.(snake := MoveSnake(s.snake, d, false), direction := d, nextDirection := None),
       TickResult(false, false))
  }

  lemma TickReportsOutcome(s: Session, draws: seq<Draw>)
    requires CanTick(s, draws)
    ensures var r := TickTransition(s, draws).1;
      (r.died <==> Dies(s)) && (r.ateFood <==> Eats(s)) && !(r.died && r.ateFood)
  {
  }

  /** A fatal tick changes nothing at all, not even the status or the queue. */
  lemma TickOnDeathChangesNothing(s: Session, draws: seq<Draw>)
    requires CanTick(s, draws) && Dies(s)
    ensures TickTransition(s, draws) == (s, TickResult(true, false))
  {
  }

  lemma TickOnPlainMove(s: Session, draws: seq<Draw>)
    requires CanTick(s, draws) && !Dies(s) && !Eats(s)
    ensures var s' := TickTransition(s, draws).0;
      && |s'.snake| == |s.snake| && s'.snake[0] == GetNextHeadPosition(s.snake[0], EffectiveDirection(s))
      && s'.snake[1..] == s.snake[..|s.snake| - 1]
      && s'.direction == EffectiveDirection(s) && s'.nextDirection == None
      && s' == s.(snake := s'.snake, direction := s'.direction, nextDirection := None)
  {
  }

  lemma TickOnFood(s: Session, draws: seq<Draw>)
    requires CanTick(s, draws) && Eats(s)
    ensures var s' := TickTransition(s, draws).0;
      && |s'.snake| == |s.snake| + 1 && s'.snake[0] == NextHead(s) && s'.snake[1..] == s.snake
      && s'.score == s.score + POINTS_PER_FOOD && s'.foodEaten == s.foodEaten + 1
      && s'.speed == CalculateSpeed(s.foodEaten + 1, s.currentMode)
      && s'.direction == EffectiveDirection(s) && s'.nextDirection == None
      && !IsPositionOccupied(s'.food, s'.snake)
      && s'.gameStatus == s.gameStatus && s'.currentMode == s.currentMode
      && s'.isNewHighScore == s.isNewHighScore
  {
    var s' := TickTransition(s, draws).0;
    OccupiedIffInSegments(s'.food, s.snake + [NextHead(s)]);
    OccupiedIffInSegments(s'.food, s'.snake);
  }

  /** The food count goes up by one exactly on a tick that eats, and the length with it. */
  lemma TickGrowsExactlyOnFood(s: Session, draws: seq<Draw>)
    requires CanTick(s, draws)
    ensures var (s', r) := TickTransition(s, draws);
      && s'.foodEaten == s.foodEaten + (if r.ateFood then 1 else 0)
      && |s'.snake| == |s.snake| + (if r.ateFood then 1 else 0)
  {
  }

  /** Because the cell the tail is leaving is still checked, moving onto it is fatal. */
  lemma MovingIntoTailCellIsFatal(s: Session)
    requires |s.snake| >= 2 && NextHead(s) == s.snake[|s.snake| - 1]
    ensures Dies(s)
  {
    SelfCollisionIffInBody(NextHead(s), s.snake[1..]);
    assert s.snake[1..][|s.snake| - 2] == s.snake[|s.snake| - 1];
  }

  /** The queue's purpose: the effective direction never sends the head back onto its neck. */
  lemma NeverTurnsIntoNeck(s: Session)
    requires Invariant(s) && |s.snake| >= 2
    ensures NextHead(s) != s.snake[1]
  {
    OnlyOppositeStepsBack(s.snake[1], s.direction, EffectiveDirection(s));
    OppositeOfEachDirection(s.direction);
  }

  lemma {:induction false} NextHeadNotInSnake(s: Session)
    requires Invariant(s) && !Dies(s)
    ensures NextHead(s) !in s.snake
    ensures InGrid(NextHead(s))
  {
    SelfCollisionIffInBody(NextHead(s), s.snake[1..]);
    assert s.snake == [s.snake[0]] + s.snake[1..];
  }

  /** Every tick keeps the invariant: in particular the food stays off the snake and the speed in its band. */
  lemma TickPreservesInvariant(s: Session, draws: seq<Draw>)
    requires Invariant(s) && CanTick(s, draws)
    ensures Invariant(TickTransition(s, draws).0)
  {
    if !Dies(s) {
      var d := EffectiveDirection(s);
      var nh := NextHead(s);
      NextHeadNotInSnake(s);
      var grow := Eats(s);
      var s' := TickTransition(s, draws).0;
      assert s'.snake == MoveSnake(s.snake, d, grow);
      MoveSnakeKeepsContiguous(s.snake, d, grow);
      var body := if grow then s.snake else s.snake[..|s.snake| - 1];
      assert s'.snake == [nh] + body;
      assert forall i | 0 <= i < |body| :: body[i] == s.snake[i];
      assert NoRepeats(s'.snake) by {
        forall i, j | 0 <= i < j < |s'.snake| ensures s'.snake[i] != s'.snake[j] {
          if i == 0 {
            assert s'.snake[j] == s.snake[j - 1];
          } else {
            assert s'.snake[i] == s.snake[i - 1] && s'.snake[j] == s.snake[j - 1];
          }
        }
      }
      assert AllInGrid(s'.snake) by {
        forall i | 0 < i < |s'.snake| ensures InGrid(s'.snake[i]) {
          assert s'.snake[i] == s.snake[i - 1];
        }
      }
      if grow {
        OccupiedIffInSegments(s'.food, s.snake + [nh]);
        OccupiedIffInSegments(s'.food, s'.snake);
      } else {
        OccupiedIffInSegments(s.food, s.snake);
        OccupiedIffInSegments(s.food, s'.snake);
      }
    }
  }

  /** From the start position, a tick to the right moves the head one cell and keeps three segments. */
  lemma OpeningMove(draws: seq<Draw>)
    requires HasFreeDraw(CreateInitialSnake(), draws)
    requires FirstFreeDraw(CreateInitialSnake(), draws) != Position(11, 10)
    ensures var (s1, r) := TickTransition(StartedSession(Classic, draws), draws);
      && r == TickResult(false, false)
      && s1.snake == [Position(11, 10), Position(10, 10), Position(9, 10)]
      && s1.score == 0 && s1.direction == Right
  {
    var s0 := StartedSession(Classic, draws);
    InitialSnakeLayout();
    assert NextHead(s0) == Position(11, 10);
    SelfCollisionIffInBody(Position(11, 10), s0.snake[1..]);
    assert s0.snake[1..] == [Position(9, 10), Position(8, 10)];
  }

  /** With the food placed straight ahead, the next tick eats it: four segments and ten points. */
  lemma EatingStraightAhead(draws: seq<Draw>)
    requires HasFreeDraw(CreateInitialSnake() + [Position(11, 10)], draws)
    requires HasFreeDraw(CreateInitialSnake(), draws)
    ensures var s0 := StartedSession(Classic, draws).(food := Position(11, 10));
      var (s1, r) := TickTransition(s0, draws);
      && r == TickResult(false, true)
      && s1.snake == [Position(11, 10), Position(10, 10), Position(9, 10), Position(8, 10)]
      && s1.score == 10 && s1.foodEaten == 1 && s1.speed == INITIAL_SPEED
  {
    var s0 := StartedSession(Classic, draws).(food := Position(11, 10));
    InitialSnakeLayout();
    assert NextHead(s0) == Position(11, 10);
    SelfCollisionIffInBody(Position(11, 10), s0.snake[1..]);
    assert s0.snake[1..] == [Position(9, 10), Position(8, 10)];
  }

  /** The store. Every method keeps Valid(), and says what the store holds afterwards. */
  class GameState {
    var gameStatus: GameStatus
    var snake: seq<Position>
    var food: Position
    var direction: Direction
    var nextDirection: Option<Direction>
    var score: int
    var currentMode: GameMode
    var speed: int
    var foodEaten: nat
    var isNewHighScore: bool

    function State(): Session
      reads this
    {
      Session(gameStatus, snake, food, direction, nextDirection, score, currentMode, speed, foodEaten, isNewHighScore)
    }

    ghost predicate Valid()
      reads this
    {
      Invariant(State())
    }

    /** The store as first created: idle, classic, with food placed off the initial snake. */
    constructor (draws: seq<Draw>)
      requires HasFreeDraw(CreateInitialSnake(), draws)
      ensures Valid()
      ensures State() == StartedSession(Classic, draws).(gameStatus := Idle)
    {
      var initialSnake := CreateInitialSnake();
      var initialFood := CreateInitialFood(initialSnake, draws);
      gameStatus, snake, food := Idle, initialSnake, initialFood;
      direction, nextDirection := Right, None;
      score, currentMode, speed, foodEaten, isNewHighScore := 0, Classic, INITIAL_SPEED, 0, false;
      new;
      StartedSessionIsValid(Classic, draws);
    }

    /** The mode is the one read from the settings store. */
    method StartGame(mode: GameMode, draws: seq<Draw>)
      requires HasFreeDraw(CreateInitialSnake(), draws)
      modifies this
      ensures Valid()
      ensures State() == StartedSession(mode, draws)
    {
      var initialSpeed := if mode == Classic then INITIAL_SPEED else SPEED_MODE_INITIAL;
      var newSnake := CreateInitialSnake();
      var newFood := CreateInitialFood(newSnake, draws);
      gameStatus, snake, food := Playing, newSnake, newFood;
      direction, nextDirection := Right, None;
      score, currentMode, speed, foodEaten, isNewHighScore := 0, mode, initialSpeed, 0, false;
      StartedSessionIsValid(mode, draws);
    }

    /** Has exactly the effect of StartGame. */
    method ResetGame(mode: GameMode, draws: seq<Draw>)
      requires HasFreeDraw(CreateInitialSnake(), draws)
      modifies this
      ensures Valid()
      ensures State() == StartedSession(mode, draws)
    {
      StartGame(mode, draws);
    }

    /** Unconditional: sets the status whatever it was. */
    method PauseGame()
      requires Valid()
      modifies this`gameStatus
      ensures Valid()
      ensures State() == old(State()).(gameStatus := Paused)
    {
      gameStatus := Paused;
    }

    method ResumeGame()
      requires Valid()
      modifies this`gameStatus
      ensures Valid()
      ensures State() == old(State()).(gameStatus := Playing)
    {
      gameStatus := Playing;
    }

    /** Records the score in the leaderboard (the date is supplied) and keeps whether it qualified. */
    method EndGame(board: LeaderboardStore.LeaderboardState, date: string)
      requires Valid() && board.Valid()
      modifies this`gameStatus, this`isNewHighScore, board
      ensures Valid() && board.Valid()
      ensures var added := LeaderboardStore.AddScoreResult(old(board.scores), old(score), old(currentMode), date);
        && board.scores == added.scores
        && State() == old(State()).(gameStatus := GameOver, isNewHighScore := added.qualifies)
    {
      var isHighScore := board.AddScore(score, currentMode, date);
      gameStatus, isNewHighScore := GameOver, isHighScore;
    }

    method SetDirection(newDirection: Direction)
      requires Valid()
      modifies this`nextDirection
      ensures Valid()
      ensures State() == old(State()).(nextDirection := QueueDirection(direction, old(nextDirection), newDirection))
    {
      QueueStaysSafe(direction, nextDirection, newDirection);
      if nextDirection.Some? {
        if IsOppositeDirection(nextDirection.value, newDirection) {
          return;
        }
        if IsOppositeDirection(direction, newDirection) {
          return;
        }
        if newDirection != nextDirection.value {
          nextDirection := Some(newDirection);
        }
      } else {
        if IsOppositeDirection(direction, newDirection) {
          return;
        }
        if newDirection != direction {
          nextDirection := Some(newDirection);
        }
      }
    }

    /** Does not look at gameStatus. Draws are consumed only when food is eaten. */
    method Tick(draws: seq<Draw>) returns (result: TickResult)
      requires Valid() && CanTick(State(), draws)
      modifies this
      ensures Valid()
      ensures (State(), result) == TickTransition(old(State()), draws)
    {
      TickPreservesInvariant(State(), draws);
      var actualDirection := if nextDirection.Some? then nextDirection.value else direction;
      var nextHead := GetNextHeadPosition(snake[0], actualDirection);
      if CheckWallCollision(nextHead) {
        return TickResult(true, false);
      }
      if CheckSelfCollision(nextHead, snake[1..]) {
        return TickResult(true, false);
      }
      var ateFood := CheckFoodCollision(nextHead, food);
      if ateFood {
        var newSnake := MoveSnake(snake, actualDirection, true);
        var newFood := SpawnFood(snake + [nextHead], draws);
        var newFoodEaten := foodEaten + 1;
        var newSpeed := CalculateSpeed(newFoodEaten, currentMode);
        snake, food, direction, nextDirection := newSnake, newFood, actualDirection, None;
        score, foodEaten, speed := score + POINTS_PER_FOOD, newFoodEaten, newSpeed;
        return TickResult(false, true);
      }
      snake, direction, nextDirection := MoveSnake(snake, actualDirection, false), actualDirection, None;
      result := TickResult(false, false);
    }
  }
}
