/**
 * The game object of js/game.js: the fields the original updates on every
 * tick and key press, and the methods that update them. Each method is proved
 * to agree with the matching rule of module SnakeRules on the snapshot of the
 * fields, so what the lemmas there prove holds of the object.
 */
module SnakeGame {
  import opened Options
  import opened SnakeRules
  import Storage

  class Game {
    var snake: seq<Cell>
    var food: Option<Cell>
    var direction: Direction
    var nextDirection: Direction
    var score: int
    var speed: int
    var isRunning: bool
    var isPaused: bool

    ghost function Snapshot(): State
      reads this
    {
      State(snake, food, direction, nextDirection, score, speed, isRunning, isPaused)
    }

    ghost predicate Valid()
      reads this
    {
      Inv(Snapshot())
    }

    /** The object as the page loads it: no snake and no food yet. */
    constructor ()
      ensures Valid()
      ensures snake == [] && food == None && direction == Right && nextDirection == Right
      ensures score == 0 && speed == InitialSpeed && !isRunning && !isPaused
    {
      snake := [];
      food := None;
      direction, nextDirection := Right, Right;
      score := 0;
      speed := InitialSpeed;
      isRunning, isPaused := false, false;
    }

    /** handleKeyPress: buffers a steering key unless it reverses the committed direction. */
    method HandleKeyPress(key: string)
      modifies this`nextDirection
      ensures Snapshot() == KeyPressed(old(Snapshot()), key)
      ensures old(Valid()) ==> Valid()
    {
      KeyPressRules(Snapshot(), key);
      if !isRunning {
        return;
      }
      var newDirection := KeyDirection(key);
      if newDirection.None? {
        return;
      }
      if Opposite(newDirection.value) != direction {
        nextDirection := newDirection.value;
      }
    }

    /** checkCollision: the head is off the grid or on a cell of the snake, tail included. */
    method CheckCollision(head: Cell) returns (hit: bool)
      ensures hit == Collides(snake, head)
    {
      if head.x < 0 || head.x >= GridCount || head.y < 0 || head.y >= GridCount {
        return true;
      }
      for i := 0 to |snake|
        invariant forall j :: 0 <= j < i ==> snake[j] != head
      {
        if head == snake[i] {
          return true;
        }
      }
      return false;
    }

    /** spawnFood: samples cells until one is off the snake. */
    method SpawnFood(draws: seq<Draw>)
      requires HasFreeDraw(draws, snake)
      modifies this`food
      ensures food == Some(DrawCell(draws[FirstFree(draws, snake)]))
      ensures InBounds(food.value) && food.value !in snake
    {
      ghost var stop := FirstFree(draws, snake);
      var k := 0;
      var newFood := DrawCell(draws[k]);
      var isOnSnake := newFood in snake;
      while isOnSnake
        invariant 0 <= k <= stop
        invariant newFood == DrawCell(draws[k]) && isOnSnake == (newFood in snake)
        invariant forall j :: 0 <= j < k ==> DrawCell(draws[j]) in snake
        decreases stop - k
      {
        k := k + 1;
        newFood := DrawCell(draws[k]);
        isOnSnake := newFood in snake;
      }
      food := Some(newFood);
    }

    /** reset: the starting snake, facing right, score 0, initial speed, fresh food. */
    method Reset(draws: seq<Draw>)
      requires HasFreeDraw(draws, InitialSnake())
      modifies this
      ensures Snapshot() == ResetState(draws)
      ensures Valid()
    {
      snake := InitialSnake();
      direction, nextDirection := Right, Right;
      score := 0;
      speed := InitialSpeed;
      SpawnFood(draws);
      isRunning, isPaused := false, false;
    }

    /** start: refused unless a user is logged in; otherwise a reset, then running. */
    method Start(loggedIn: bool, draws: seq<Draw>)
      requires loggedIn ==> HasFreeDraw(draws, InitialSnake())
      modifies this
      ensures !loggedIn ==> Snapshot() == old(Snapshot())
      ensures loggedIn ==> Snapshot() == ResetState(draws).(isRunning := true)
      ensures loggedIn ==> Valid()
      ensures old(Valid()) ==> Valid()
    {
      if !loggedIn {
        return;
      }
      Reset(draws);
      isRunning := true;
    }

    /** update: one tick of the game; a collision ends the run and records its score. */
    method Update(draws: seq<Draw>, store: Storage.ScoreStore, now: Storage.Timestamp)
      requires CanTick(Snapshot(), draws)
      requires store.Valid()
      modifies this, store
      ensures Snapshot() == Ticked(old(Snapshot()), draws)
      ensures old(Valid()) ==> Valid()
      ensures store.Valid()
      ensures Collision(old(Snapshot())) ==>
                && store.currentUsername == old(store.currentUsername)
                && store.users == Storage.ScoreRecorded(old(store.users), old(store.currentUsername), old(score), now)
      ensures !Collision(old(Snapshot())) ==> unchanged(store)
    {
      ghost var before := Snapshot();
      if Inv(before) {
        TickPreservesInv(before, draws);
      }
      if isPaused {
        return;
      }
      direction := nextDirection;
      var head := Step(snake[0], direction);
      var hit := CheckCollision(head);
      if hit {
        var _ := GameOver(store, now);
        return;
      }
      snake := [head] + snake;
      if food == Some(head) {
        score := score + ScorePerFood;
        if speed > MinSpeed {
          speed := speed - SpeedIncrease;
        }
        SpawnFood(draws);
      } else {
        snake := snake[..|snake| - 1];
      }
    }

    /** togglePause: flips the pause flag while running. */
    method TogglePause()
      modifies this`isPaused
      ensures Snapshot() == PauseToggled(old(Snapshot()))
      ensures old(Valid()) ==> Valid()
    {
      if !isRunning {
        return;
      }
      isPaused := !isPaused;
    }

    /**
     * gameOver: stops the run and records its score for the logged-in user;
     * the result is whether the overlay announces a new record.
     */
    method GameOver(store: Storage.ScoreStore, now: Storage.Timestamp) returns (celebrate: bool)
      requires store.Valid()
      modifies this`isRunning, store
      ensures Snapshot() == old(Snapshot()).(isRunning := false)
      ensures store.Valid() && store.currentUsername == old(store.currentUsername)
      ensures store.users == Storage.ScoreRecorded(old(store.users), old(store.currentUsername), score, now)
      ensures celebrate <==> score > 0 && Storage.BeatsHighScore(old(store.users), old(store.currentUsername), score)
    {
      isRunning := false;
      var isNewRecord := store.SaveScore(score, now);
      celebrate := isNewRecord && score > 0;
    }

    /** stop: ends any run and resets the board (on logout). */
    method Stop(draws: seq<Draw>)
      requires HasFreeDraw(draws, InitialSnake())
      modifies this
      ensures Snapshot() == ResetState(draws)
      ensures Valid() && !isRunning
    {
      isRunning := false;
      Reset(draws);
    }
  }
}
