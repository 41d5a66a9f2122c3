/**
 * The rules of the snake game of js/game.js, as functions on a snapshot of
 * the game's state: the grid, the directions and the key map, the food
 * sampler, one tick of the simulation, a key press, the pause toggle and the
 * reset. The class in snake_game.dfy runs these rules step by step and is
 * proved to agree with them; the lemmas here state what the rules guarantee.
 */
module SnakeRules {
  import opened Options

  const GridCount: int := 20
  const InitialSpeed: int := 150
  const SpeedIncrease: int := 5
  const MinSpeed: int := 50
  const ScorePerFood: int := 10
  const InitialLength: int := 3

  datatype Cell = Cell(x: int, y: int)

  /** Screen directions: `Up` lowers y, `Down` raises it. */
  datatype Direction = Up | Down | Left | Right

  predicate InBounds(c: Cell) {
    0 <= c.x < GridCount && 0 <= c.y < GridCount
  }

  /** The two cells share a side. */
  predicate Adjacent(a: Cell, b: Cell) {
    || (a.x == b.x && (a.y == b.y + 1 || b.y == a.y + 1))
    || (a.y == b.y && (a.x == b.x + 1 || b.x == a.x + 1))
  }

  predicate Vertical(d: Direction) {
    d == Up || d == Down
  }

  /** The reverse of a direction: another direction on the same axis. */
  function Opposite(d: Direction): (r: Direction)
    ensures r != d
    ensures Vertical(r) == Vertical(d)
  {
    match d
    case Up => Down
    case Down => Up
    case Left => Right
    case Right => Left
  }

  /** The cell one unit from `c` in direction `d`. */
  function Step(c: Cell, d: Direction): (r: Cell)
    ensures Adjacent(c, r)
    ensures d == Up ==> r.y < c.y
    ensures d == Down ==> r.y > c.y
    ensures d == Left ==> r.x < c.x
    ensures d == Right ==> r.x > c.x
  {
    match d
    case Up => Cell(c.x, c.y - 1)
    case Down => Cell(c.x, c.y + 1)
    case Left => Cell(c.x - 1, c.y)
    case Right => Cell(c.x + 1, c.y)
  }

  /** Opposite directions undo each other. */
  lemma StepBack(c: Cell, d: Direction)
    ensures Opposite(d) != d && Opposite(Opposite(d)) == d
    ensures Step(Step(c, d), Opposite(d)) == c
  {
  }

  /** The keys that steer: the arrow keys and W, A, S, D in either case. */
  const SteeringKeys: set<string> :=
    {"ArrowUp", "ArrowDown", "ArrowLeft", "ArrowRight", "w", "s", "a", "d", "W", "S", "A", "D"}

  /** `keyMap[key]`: the direction a key steers to, if any. */
  function KeyDirection(key: string): (r: Option<Direction>)
    ensures r.Some? <==> key in SteeringKeys
    ensures key == " " ==> r.None?
  {
    if key == "ArrowUp" || key == "w" || key == "W" then Some(Up)
    else if key == "ArrowDown" || key == "s" || key == "S" then Some(Down)
    else if key == "ArrowLeft" || key == "a" || key == "A" then Some(Left)
    else if key == "ArrowRight" || key == "d" || key == "D" then Some(Right)
    else None
  }

  /**
   * Every direction has an arrow key and a letter in both cases, and the
   * space bar steers nowhere.
   */
  lemma KeyMapCoversDirections(d: Direction)
    ensures exists key :: KeyDirection(key) == Some(d)
    ensures KeyDirection(" ") == None
    ensures KeyDirection("w") == KeyDirection("W") == KeyDirection("ArrowUp") == Some(Up)
    ensures KeyDirection("s") == KeyDirection("S") == KeyDirection("ArrowDown") == Some(Down)
    ensures KeyDirection("a") == KeyDirection("A") == KeyDirection("ArrowLeft") == Some(Left)
    ensures KeyDirection("d") == KeyDirection("D") == KeyDirection("ArrowRight") == Some(Right)
  {
    match d
    case Up => assert KeyDirection("w") == Some(d);
    case Down => assert KeyDirection("s") == Some(d);
    case Left => assert KeyDirection("a") == Some(d);
    case Right => assert KeyDirection("d") == Some(d);
  }

  // ---------------------------------------------------------------------------
  // Food sampling

  /** A value of `Math.random()`. */
  type UnitInterval = r: real | 0.0 <= r < 1.0

  /** One sample of the food sampler: the random values for x and for y. */
  datatype Draw = Draw(rx: UnitInterval, ry: UnitInterval)

  /** `Math.floor(r * gridCount)` */
  function Scaled(r: UnitInterval): (k: int)
    ensures 0 <= k < GridCount
  {
    (r * GridCount as real).Floor
  }

  function DrawCell(d: Draw): (c: Cell)
    ensures InBounds(c)
  {
    Cell(Scaled(d.rx), Scaled(d.ry))
  }

  /** Every cell of the grid is the outcome of some draw. */
  lemma EveryCellCanBeDrawn(c: Cell)
    requires InBounds(c)
    ensures exists d :: DrawCell(d) == c
  {
    var rx: UnitInterval := c.x as real / GridCount as real;
    var ry: UnitInterval := c.y as real / GridCount as real;
    assert DrawCell(Draw(rx, ry)) == c;
  }

  /** Some draw in the sequence lands off `occupied`: the sampler stops within it. */
  predicate HasFreeDraw(draws: seq<Draw>, occupied: seq<Cell>) {
    exists i :: 0 <= i < |draws| && DrawCell(draws[i]) !in occupied
  }

  /** The index of the draw at which the sampler stops: the first one off `occupied`. */
  function FirstFree(draws: seq<Draw>, occupied: seq<Cell>): (i: nat)
    requires HasFreeDraw(draws, occupied)
    ensures i < |draws| && DrawCell(draws[i]) !in occupied
    ensures forall j :: 0 <= j < i ==> DrawCell(draws[j]) in occupied
    decreases |draws|
  {
    if DrawCell(draws[0]) !in occupied then 0
    else
      var k :| 0 <= k < |draws| && DrawCell(draws[k]) !in occupied;
      assert draws[1..][k - 1] == draws[k];
      1 + FirstFree(draws[1..], occupied)
  }

  // ---------------------------------------------------------------------------
  // The snake

  predicate NoDuplicates(s: seq<Cell>) {
    forall i, j :: 0 <= i < j < |s| ==> s[i] != s[j]
  }

  predicate AllInBounds(s: seq<Cell>) {
    forall i :: 0 <= i < |s| ==> InBounds(s[i])
  }

  /** `checkCollision(head)`: off the grid, or on any cell of the snake, tail included. */
  predicate Collides(snake: seq<Cell>, head: Cell)
    ensures !InBounds(head) ==> Collides(snake, head)
    ensures snake != [] && head == snake[|snake| - 1] ==> Collides(snake, head)
    ensures snake != [] && head == snake[0] ==> Collides(snake, head)
  {
    !InBounds(head) || head in snake
  }

  /** The snake after a reset: three cells in a row, head in the middle of the grid, facing right. */
  function InitialSnake(): (s: seq<Cell>)
    ensures |s| == InitialLength && NoDuplicates(s) && AllInBounds(s)
    ensures s[0] == Cell(GridCount / 2, GridCount / 2)
    ensures forall i :: 0 < i < |s| ==> s[i - 1] == Step(s[i], Right)
  {
    var c := GridCount / 2;
    [Cell(c, c), Cell(c - 1, c), Cell(c - 2, c)]
  }

  lemma PrependKeepsShape(head: Cell, body: seq<Cell>)
    requires NoDuplicates(body) && AllInBounds(body)
    requires InBounds(head) && head !in body
    ensures NoDuplicates([head] + body) && AllInBounds([head] + body)
  {
    var s := [head] + body;
    forall i, j | 0 <= i < j < |s| ensures s[i] != s[j] {
      assert s[j] == body[j - 1];
      if i > 0 {
        assert s[i] == body[i - 1];
      }
    }
  }

  lemma PrefixKeepsShape(body: seq<Cell>, n: nat, c: Cell)
    requires n <= |body|
    requires NoDuplicates(body) && AllInBounds(body) && c !in body
    ensures NoDuplicates(body[..n]) && AllInBounds(body[..n]) && c !in body[..n]
  {
  }

  // ---------------------------------------------------------------------------
  // Speed

  /** The tick interval is 150 ms at the start and moves in steps of 5 ms down to 50 ms. */
  predicate SpeedOk(speed: int) {
    MinSpeed <= speed <= InitialSpeed && (InitialSpeed - speed) % SpeedIncrease == 0
  }

  /**
   * The tick interval after eating: it never grows, drops by 5 ms while
   * above the minimum, and never takes a valid interval below the minimum.
   */
  function NextSpeed(speed: int): (r: int)
    ensures r <= speed
    ensures speed > MinSpeed ==> r == speed - SpeedIncrease
    ensures SpeedOk(speed) ==> SpeedOk(r)
  {
    if speed > MinSpeed then speed - SpeedIncrease else speed
  }

  /** The tick interval after eating `meals` times from `speed`. */
  function SpeedAfter(speed: int, meals: nat): int
    decreases meals
  {
    if meals == 0 then speed else SpeedAfter(NextSpeed(speed), meals - 1)
  }

  /** From the initial 150 ms, each meal takes 5 ms off until 50 ms, which is kept from then on. */
  lemma {:induction false} SpeedAfterMeals(speed: int, meals: nat)
    requires SpeedOk(speed)
    ensures SpeedOk(SpeedAfter(speed, meals))
    ensures SpeedAfter(speed, meals) ==
              if speed - SpeedIncrease * meals >= MinSpeed then speed - SpeedIncrease * meals else MinSpeed
    decreases meals
  {
    if meals > 0 {
      SpeedAfterMeals(NextSpeed(speed), meals - 1);
    }
  }

  // ---------------------------------------------------------------------------
  // The game state

  datatype State = State(
    snake: seq<Cell>,
    food: Option<Cell>,
    direction: Direction,
    nextDirection: Direction,
    score: int,
    speed: int,
    isRunning: bool,
    isPaused: bool)

  /** A game under way or ended: the shape of the snake, the food and the score. */
  predicate Playing(s: State) {
    && |s.snake| >= InitialLength
    && NoDuplicates(s.snake)
    && AllInBounds(s.snake)
    && s.food.Some? && InBounds(s.food.value) && s.food.value !in s.snake
    && s.score == ScorePerFood * (|s.snake| - InitialLength)
  }

  /**
   * What holds of the state at all times: before the first start the snake is
   * empty; from then on the game is Playing. The buffered direction never
   * reverses the committed one.
   */
  predicate Inv(s: State) {
    && SpeedOk(s.speed)
    && s.direction != Opposite(s.nextDirection)
    && (s.isRunning ==> s.snake != [])
    && (s.snake != [] ==> Playing(s))
  }

  /** `reset()`, with the food placed by the sampler. */
  function ResetState(draws: seq<Draw>): (r: State)
    requires HasFreeDraw(draws, InitialSnake())
    ensures Inv(r) && Playing(r)
    ensures r.snake == [Cell(10, 10), Cell(9, 10), Cell(8, 10)]
    ensures r.direction == Right && r.nextDirection == Right
    ensures r.score == 0 && r.speed == InitialSpeed && !r.isRunning && !r.isPaused
  {
    var snake := InitialSnake();
    State(snake, Some(DrawCell(draws[FirstFree(draws, snake)])), Right, Right, 0, InitialSpeed, false, false)
  }

  /**
   * `handleKeyPress(key)`: only the buffered direction may change, and only
   * to the direction of the key, never to the reverse of the committed one.
   */
  function KeyPressed(s: State, key: string): (r: State)
    ensures r.(nextDirection := s.nextDirection) == s
    ensures r.nextDirection != s.nextDirection ==>
              s.isRunning && KeyDirection(key) == Some(r.nextDirection) && r.nextDirection != Opposite(s.direction)
  {
    if !s.isRunning then s
    else
      match KeyDirection(key)
      case None => s
      case Some(d) => if Opposite(d) != s.direction then s.(nextDirection := d) else s
  }

  /**
   * A key press only ever changes the buffered direction: it is ignored while
   * the game is not running, for keys that do not steer (the space bar among
   * them), and for the reverse of the committed direction.
   */
  lemma KeyPressRules(s: State, key: string)
    ensures KeyPressed(s, key).(nextDirection := s.nextDirection) == s
    ensures !s.isRunning ==> KeyPressed(s, key) == s
    ensures KeyDirection(key).None? ==> KeyPressed(s, key) == s
    ensures KeyDirection(key) == Some(Opposite(s.direction)) ==> KeyPressed(s, key) == s
    ensures s.isRunning && KeyDirection(key).Some? && KeyDirection(key).value != Opposite(s.direction) ==>
              KeyPressed(s, key).nextDirection == KeyDirection(key).value
    ensures Inv(s) ==> Inv(KeyPressed(s, key))
  {
  }

  /** A burst of key presses between two ticks. */
  function KeysPressed(s: State, keys: seq<string>): State
    decreases |keys|
  {
    if keys == [] then s else KeysPressed(KeyPressed(s, keys[0]), keys[1..])
  }

  /**
   * However many keys are pressed between two ticks, the committed direction
   * stays, and the buffered one is never its reverse.
   */
  lemma {:induction false} NoQueuedReversal(s: State, keys: seq<string>)
    requires Inv(s)
    ensures Inv(KeysPressed(s, keys))
    ensures KeysPressed(s, keys).direction == s.direction
    ensures KeysPressed(s, keys).nextDirection != Opposite(s.direction)
    ensures KeysPressed(s, keys).(nextDirection := s.nextDirection) == s
    decreases |keys|
  {
    if keys != [] {
      KeyPressRules(s, keys[0]);
      NoQueuedReversal(KeyPressed(s, keys[0]), keys[1..]);
    }
  }

  /** `togglePause()`: only the pause flag may change, and it flips exactly while running. */
  function PauseToggled(s: State): (r: State)
    ensures r.(isPaused := s.isPaused) == s
    ensures r.isPaused != s.isPaused <==> s.isRunning
  {
    if !s.isRunning then s else s.(isPaused := !s.isPaused)
  }

  /** Pausing flips only the pause flag, only while running, and twice is nothing. */
  lemma PauseRules(s: State)
    ensures PauseToggled(PauseToggled(s)) == s
    ensures s.isRunning ==> PauseToggled(s).isPaused != s.isPaused
    ensures PauseToggled(s).(isPaused := s.isPaused) == s
    ensures !s.isRunning ==> PauseToggled(s) == s
    ensures Inv(s) ==> Inv(PauseToggled(s))
  {
  }

  // ---------------------------------------------------------------------------
  // One tick

  /** The head the next tick moves to: one step along the buffered direction. */
  function NextHead(s: State): Cell
    requires s.snake != []
  {
    Step(s.snake[0], s.nextDirection)
  }

  /** The next tick ends the game. */
  predicate Collision(s: State)
    requires s.snake != []
  {
    !s.isPaused && Collides(s.snake, NextHead(s))
  }

  /** The next tick eats the food. */
  predicate Eats(s: State)
    requires s.snake != []
  {
    !s.isPaused && !Collides(s.snake, NextHead(s)) && s.food == Some(NextHead(s))
  }

  /** The next tick moves the snake without eating. */
  predicate Moves(s: State)
    requires s.snake != []
  {
    !s.isPaused && !Collides(s.snake, NextHead(s)) && s.food != Some(NextHead(s))
  }

  /** A tick can be taken: there is a snake, and if it eats, the sampler finds a free cell. */
  predicate CanTick(s: State, draws: seq<Draw>) {
    s.snake != [] && (Eats(s) ==> HasFreeDraw(draws, [NextHead(s)] + s.snake))
  }

  /**
   * `update()`: the buffer is kept, a paused tick changes nothing, the score
   * moves in step with the length (10 points per cell), and the interval never grows.
   */
  function Ticked(s: State, draws: seq<Draw>): (r: State)
    requires CanTick(s, draws)
    ensures r.nextDirection == s.nextDirection
    ensures s.isPaused ==> r == s
    ensures r.score - s.score == ScorePerFood * (|r.snake| - |s.snake|)
    ensures r.speed <= s.speed
  {
    if s.isPaused then s
    else
      var head := NextHead(s);
      var turned := s.(direction := s.nextDirection);
      if Collides(s.snake, head) then
        turned.(isRunning := false)
      else if s.food == Some(head) then
        var grown := [head] + s.snake;
        turned.(snake := grown, score := s.score + ScorePerFood, speed := NextSpeed(s.speed),
                food := Some(DrawCell(draws[FirstFree(draws, grown)])))
      else
        turned.(snake := [head] + s.snake[..|s.snake| - 1])
  }

  /** A paused tick changes nothing; otherwise the buffered direction is committed first. */
  lemma TickCommitsDirection(s: State, draws: seq<Draw>)
    requires CanTick(s, draws)
    ensures s.isPaused ==> Ticked(s, draws) == s
    ensures !s.isPaused ==> Ticked(s, draws).direction == s.nextDirection
    ensures Ticked(s, draws).nextDirection == s.nextDirection
    ensures !Collision(s) && !s.isPaused ==> Ticked(s, draws).snake[0] == Step(s.snake[0], s.nextDirection)
  {
  }

  /**
   * A collision stops the game and leaves the snake, the food, the score and
   * the speed as they were; any other tick keeps the running flag.
   */
  lemma TickCollision(s: State, draws: seq<Draw>)
    requires CanTick(s, draws)
    ensures Collision(s) ==> var r := Ticked(s, draws);
              && !r.isRunning && r.snake == s.snake && r.food == s.food
              && r.score == s.score && r.speed == s.speed
    ensures !Collision(s) ==> Ticked(s, draws).isRunning == s.isRunning
  {
  }

  /** Moving onto the cell the tail is leaving still ends the game. */
  lemma TailCellCollides(s: State, draws: seq<Draw>)
    requires CanTick(s, draws) && !s.isPaused
    requires NextHead(s) == s.snake[|s.snake| - 1]
    ensures !Ticked(s, draws).isRunning && Ticked(s, draws).snake == s.snake
  {
  }

  /**
   * Eating puts the new head in front of the whole snake (one cell longer,
   * ten points more); moving puts it in front of all but the tail (same
   * length, same score). No other tick changes the score or the length.
   */
  lemma TickGrowth(s: State, draws: seq<Draw>)
    requires CanTick(s, draws)
    ensures Eats(s) ==> var r := Ticked(s, draws);
              && r.snake == [NextHead(s)] + s.snake
              && |r.snake| == |s.snake| + 1
              && r.score == s.score + ScorePerFood
    ensures Moves(s) ==> var r := Ticked(s, draws);
              && r.snake == [NextHead(s)] + s.snake[..|s.snake| - 1]
              && |r.snake| == |s.snake|
              && r.score == s.score
    ensures !Eats(s) ==> Ticked(s, draws).score == s.score && |Ticked(s, draws).snake| == |s.snake|
  {
  }

  /**
   * The interval never grows, shrinks by 5 ms only on eating while above the
   * minimum, and never goes below the minimum.
   */
  lemma TickSpeed(s: State, draws: seq<Draw>)
    requires CanTick(s, draws)
    ensures Ticked(s, draws).speed <= s.speed
    ensures Ticked(s, draws).speed != s.speed <==> Eats(s) && s.speed > MinSpeed
    ensures Ticked(s, draws).speed != s.speed ==> Ticked(s, draws).speed == s.speed - SpeedIncrease
    ensures SpeedOk(s.speed) ==> SpeedOk(Ticked(s, draws).speed)
  {
  }

  /**
   * Every tick keeps the invariant: the snake has no repeated cell and stays
   * on the grid, the food is on the grid and off the snake, and the score is
   * ten points per cell grown.
   */
  lemma TickPreservesInv(s: State, draws: seq<Draw>)
    requires Inv(s) && CanTick(s, draws)
    ensures Inv(Ticked(s, draws))
  {
    if !s.isPaused && !Collides(s.snake, NextHead(s)) {
      var head := NextHead(s);
      if s.food == Some(head) {
        PrependKeepsShape(head, s.snake);
      } else {
        var n := |s.snake| - 1;
        PrefixKeepsShape(s.snake, n, head);
        PrefixKeepsShape(s.snake, n, s.food.value);
        PrependKeepsShape(head, s.snake[..n]);
        assert s.food.value !in [head] + s.snake[..n];
      }
    }
  }

  /** A tick never turns the snake back on itself. */
  lemma TickNeverReverses(s: State, draws: seq<Draw>)
    requires Inv(s) && CanTick(s, draws)
    ensures Ticked(s, draws).direction != Opposite(s.direction)
  {
  }

  /**
   * From a fresh game with the food right of the head, one tick eats it: the
   * snake grows to four cells, the score is 10, and the new food is off the snake.
   */
  lemma FirstMealScenario(draws: seq<Draw>, food: Cell)
    requires HasFreeDraw(draws, InitialSnake())
    requires food == Cell(11, 10)
    requires HasFreeDraw(draws, [food] + InitialSnake())
    ensures var s := ResetState(draws).(isRunning := true, food := Some(food));
            var r := Ticked(s, draws);
            && r.snake == [Cell(11, 10), Cell(10, 10), Cell(9, 10), Cell(8, 10)]
            && r.score == 10 && r.speed == 145 && r.isRunning
            && r.food.Some? && r.food.value !in r.snake
  {
  }
}
