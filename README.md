# Snake game engine and score store, in Dafny

This project models the core of a browser snake game. There are two parts.

- **The game object** (`js/game.js`). A 20×20 grid holds a snake stored head first, and a single food cell. A committed direction and a buffered next direction steer the snake. The object also holds a score, a tick interval (`speed`, in ms) and the running and paused flags.
  - A key press may only set the buffered direction.
  - Each timer tick works in this order:
    1. It commits the buffered direction.
    2. It steps the head.
    3. It ends the run when the new head leaves the grid or lands on the snake. The snake's current tail counts.
    4. Otherwise the snake moves. If it eats the food, it grows instead, the score rises by 10, the interval drops by 5 ms while above 50 ms, and new food is sampled.
- **The score store** (`js/storage.js`). It maps each username to a record `{loginTime, lastLoginTime, highScore, scoreHistory}` and remembers who is logged in.
  - `saveUser` creates a user's record, or for a known user refreshes only the last login time. It then logs in any non-empty name; the empty name gets a record but leaves nobody logged in.
  - `saveScore` records a finished run. The high score becomes the larger of the old high score and the run's score. The run goes to the front of the history, which keeps at most 20 entries.

The project has four files:
- `options.dfy`: the `Option` type, which stands in for JavaScript's `null`.
- `storage.dfy` (module `Storage`):
  - the record types;
  - pure functions saying what each update does to the whole map (`WithScore`, `ScoreRecorded`, `UserSaved`);
  - the class `ScoreStore`. It has the map and the login name as fields. Its methods are proved against those functions.
- `snake_rules.dfy` (module `SnakeRules`):
  - the grid, directions, the key map and the food sampler;
  - a snapshot datatype `State` of the game's fields;
  - the rules as functions on it: `Ticked`, `KeyPressed`, `PauseToggled` and `ResetState`;
  - lemmas stating what the rules guarantee.
  
  The invariant `Inv` gathers the promises made for every state:
  - the snake has no repeated cell and stays on the grid;
  - the food is on the grid and off the snake;
  - the score is 10 points for each cell grown;
  - the interval lies between 50 and 150 ms in steps of 5;
  - the buffered direction never reverses the committed one.
- `snake_game.dfy` (module `SnakeGame`): the class `Game`, with the original object's fields.
  - Its methods do what the original does, step by step. For example, the collision check and the food sampler are loops.
  - `HandleKeyPress`, `TogglePause`, `Update`, `Reset`, `Start` and `Stop` are proved to leave `Snapshot()` equal to the matching rule applied to the old snapshot, so every lemma about those rules also holds of the object.
  - `CheckCollision` is proved to return `Collides`, and `SpawnFood` to set the food to the `FirstFree` draw. `GameOver` clears the running flag and applies `ScoreRecorded` to the store. The constructor gives the object's initial fields.

`Math.random()` becomes a sequence of draws passed in. Each draw is a pair of reals in [0, 1), and a draw's cell is `floor(r * 20)` on each axis. The original's do-while loop ends at the first draw that lands off the snake. So operations that place food require such a draw to exist (`HasFreeDraw`), which is the loop's own condition for ending. Timestamps are passed in as strings. The login check of `start` is a boolean parameter.

## Model

| member | source | states |
|---|---|---|
| SnakeRules.Step | js/game.js:237-243 | the new head is adjacent to the old one, on the side the direction names (up lowers y) |
| SnakeRules.Opposite | js/game.js:148-153 | the reverse of a direction is a different direction on the same axis (properties of the table as a whole in `StepBack`) |
| SnakeRules.StepBack | js/game.js:148-153 | opposite directions are distinct, the relation is an involution, and stepping back undoes a step |
| SnakeRules.KeyDirection | js/game.js:129-145 | a key steers exactly when it is one of the twelve mapped keys; the space bar steers nowhere (per-key results in `KeyMapCoversDirections`) |
| SnakeRules.KeyMapCoversDirections | js/game.js:129-145 | every direction has a key; arrow keys and W/A/S/D in either case agree; the space bar steers nowhere |
| SnakeRules.Scaled | js/game.js:309-310 | `floor(random * gridCount)` lies in [0, 20) |
| SnakeRules.DrawCell | js/game.js:308-311 | every sampled cell is on the grid |
| SnakeRules.EveryCellCanBeDrawn | js/game.js:308-311 | every grid cell is the outcome of some sample |
| SnakeRules.FirstFree | js/game.js:307-315 | the sampler stops at the first draw off the snake: that draw is free and every earlier one is on the snake |
| SnakeRules.Collides | js/game.js:282-297 | a head off the grid collides, and so does a head on the snake's head or its current tail cell (the loop itself in `Game.CheckCollision`, the tick's use in `TickCollision` and `TailCellCollides`) |
| SnakeRules.InitialSnake | js/game.js:200-206 | the starting snake has 3 distinct on-grid cells in a row, head at the grid centre, each cell one step right of the next |
| SnakeRules.NextSpeed | js/game.js:259-264 | eating never raises the interval, lowers it by 5 above the minimum, and keeps a valid interval valid (over many meals: `SpeedAfterMeals`) |
| SnakeRules.SpeedAfterMeals | js/game.js:259-264 | after n meals the interval is max(speed - 5n, 50), and so it never drops below 50 |
| SnakeRules.ResetState | js/game.js:198-225 | snake [(10,10),(9,10),(8,10)], direction and next direction right, score 0, speed 150, not running, not paused, food off the snake; the invariant holds |
| SnakeRules.KeyPressed | js/game.js:125-157 | a key press changes at most the buffered direction, and only to the key's direction, only while running, and never to the reverse of the committed direction (case by case in `KeyPressRules`, over bursts in `NoQueuedReversal`) |
| SnakeRules.KeyPressRules | js/game.js:125-157 | a key press changes only the buffered direction; not running, a non-steering key (space included) or a reversal changes nothing; an accepted key sets the buffer; the invariant is kept |
| SnakeRules.NoQueuedReversal | js/game.js:148-157 | however many keys are pressed between ticks, the committed direction stays and the buffer never holds its reverse |
| SnakeRules.PauseToggled | js/game.js:471-474 | only the pause flag may change, and it flips exactly when the game is running (involution in `PauseRules`) |
| SnakeRules.PauseRules | js/game.js:471-474 | pausing flips only the pause flag, only while running; toggling twice restores the state; the invariant is kept |
| SnakeRules.Ticked | js/game.js:230-271 | a tick keeps the buffered direction, changes nothing while paused, moves the score by 10 per cell of length gained, and never raises the interval (further properties in `TickCommitsDirection`, `TickCollision`, `TickGrowth`, `TickSpeed`, `TickPreservesInv`, `TickNeverReverses`) |
| SnakeRules.TickCommitsDirection | js/game.js:230-243 | a paused tick changes nothing; otherwise the buffered direction is committed and the new head is one step along it |
| SnakeRules.TickCollision | js/game.js:245-249 | a collision stops the game and leaves snake, food, score and speed unchanged; any other tick keeps the running flag |
| SnakeRules.TailCellCollides | js/game.js:289-294 | moving onto the cell the tail is about to leave still ends the game |
| SnakeRules.TickGrowth | js/game.js:251-271 | eating gives `[head] + snake` (one longer, +10 points); moving gives `[head] + snake` without its tail (same length and score); no other tick changes score or length |
| SnakeRules.TickSpeed | js/game.js:259-264 | the interval never grows; it changes exactly on eating while above 50, by 5; it stays within [50, 150] |
| SnakeRules.TickPreservesInv | js/game.js:230-275 | every tick keeps the snake distinct and on the grid, the food on the grid and off the snake, and the score at 10 per cell grown |
| SnakeRules.TickNeverReverses | js/game.js:155-157 | a tick never turns the snake to the reverse of its previous direction |
| SnakeRules.FirstMealScenario | js/game.js:251-267 | from a fresh game with food at (11,10), one tick gives a 4-cell snake, score 10, interval 145, and new food off the snake |
| SnakeGame.Game.constructor | js/game.js:16-27 | the object as loaded: no snake, no food, facing right, score 0, speed 150, stopped |
| SnakeGame.Game.HandleKeyPress | js/game.js:125-169 | the new state is `KeyPressed` of the old one |
| SnakeGame.Game.CheckCollision | js/game.js:282-297 | the result is true exactly when the head is off the grid or on a segment of the snake |
| SnakeGame.Game.SpawnFood | js/game.js:302-318 | the food becomes the first sampled cell off the snake, which is on the grid |
| SnakeGame.Game.Reset | js/game.js:198-225 | the new state is `ResetState`, and the invariant holds |
| SnakeGame.Game.Start | js/game.js:174-193 | without a login nothing changes; with one the game is reset and running |
| SnakeGame.Game.Update | js/game.js:230-275 | the new state is `Ticked` of the old one; a collision records the final score in the store; otherwise the store is untouched |
| SnakeGame.Game.TogglePause | js/game.js:471-483 | the new state is `PauseToggled` of the old one |
| SnakeGame.Game.GameOver | js/game.js:488-510 | the run stops, the store records the score, and a new record is announced exactly when the score beats the high score and is positive |
| SnakeGame.Game.Stop | js/game.js:528-541 | the game is stopped and reset |
| Storage.StoredName | js/storage.js:42-48 | a non-empty name is stored; null or the empty string logs out |
| Storage.Lookup | js/storage.js:54-60 | the current record exists exactly when a non-empty name is logged in and has a record, and it is that record |
| Storage.NewUser | js/storage.js:76-81 | a new record has both login times now, high score 0 and an empty history |
| Storage.WithScore | js/storage.js:103-119 | login times kept; high score the larger of old and new; the run first in the history, followed by the old history cut to fit; below 20 entries the history grows by one, at 20 the oldest is dropped and it stays 20; well-formedness is kept |
| Storage.ScoreRecorded | js/storage.js:95-121 | with no current user or no record nothing changes; otherwise only the current user's record changes, as `WithScore` says; well-formedness is kept |
| Storage.BeatsHighScore | js/storage.js:104 | a new record needs a logged-in user with a record, and in a well-formed store its score is positive (against the store update: `NewRecordIffHighScoreRises`) |
| Storage.NewRecordIffHighScoreRises | js/storage.js:104-109 | `saveScore` reports a new record exactly when the high score rises, and then the high score is the run's score |
| Storage.UserSaved | js/storage.js:67-88 | a known user changes only `lastLoginTime`; a new user gets a fresh record; other users are unchanged |
| Storage.RecordAllKeepsBest | js/storage.js:104-119 | over any series of runs the high score is the largest score seen, and the history is exactly the runs newest first followed by the earlier history, cut to 20 entries |
| Storage.ScoreStore.constructor | js/storage.js:17-20 | an empty store with nobody logged in |
| Storage.ScoreStore.SetCurrentUsername | js/storage.js:42-48 | the login name becomes `StoredName` of the argument |
| Storage.ScoreStore.CurrentUser | js/storage.js:54-60 | the logged-in user's record, if any |
| Storage.ScoreStore.HighScore | js/storage.js:130-133 | the current user's high score, or 0 without one; never negative; at least every score in the history |
| Storage.ScoreStore.ScoreHistory | js/storage.js:139-142 | the current user's history, or empty without one; at most 20 entries |
| Storage.ScoreStore.LoginTime | js/storage.js:148-151 | the current user's last login time, exactly when there is a current user |
| Storage.ScoreStore.SaveUser | js/storage.js:67-88 | the map becomes `UserSaved`, the login becomes the name if it is non-empty and nobody otherwise, and the record is returned; for a non-empty name the current user's record and login time read back as saved |
| Storage.ScoreStore.SaveScore | js/storage.js:95-124 | the map becomes `ScoreRecorded`, the login is unchanged, and the result says whether the high score was beaten; for a user with a record the high score then reads max(old, score) and the history starts with this run |
| Storage.ScoreStore.Logout | js/storage.js:156-158 | nobody is logged in; the high score reads 0 and the history reads empty |

## Left out

- Rendering (`render`, `drawBackground`, `drawGrid`, `drawSnake`, `drawFood`, `roundRect`): canvas drawing with floating-point geometry; it changes no game state.
- DOM wiring: `init`, `loadAssets`, `bindEvents`, `showOverlay`, the button and overlay class changes in `start`, `togglePause`, `gameOver` and `stop`, and `preventDefault` on arrow keys. These are page effects only.
- Timers: `setInterval` and `clearInterval`. A tick is a call to `Update`, and `speed` is a plain integer. Rescheduling on speed-up, and cancelling a timer on game over or stop, are not modelled.
- `Auth.isLoggedIn` is the boolean parameter of `Start`. `Auth.updateCurrentScore`, `Auth.updateHighScore` and `Auth.updateScoreHistory` only write text to the page.
- js/auth.js is not part of this model.
- `Math.random` becomes a sequence of draws. The sampler loop only ends on a draw that lands off the snake. When the snake fills the grid, the original loops forever, and the model's precondition rules out such a call.
- `Date` and the `formatTime` / `formatDate` string formatting: timestamps are opaque strings passed in.
- localStorage and JSON: `getAllUsers`, `saveAllUsers` and `getCurrentUsername` become the fields of `ScoreStore`. Data corrupted outside the program is not modelled. The store starts empty, and `Valid` holds of every record it writes.
- JavaScript object-key quirks are not modelled. For example, a username such as `constructor` finds an inherited property of the users object.
- The space bar does not pause. `handleKeyPress` returns early for keys outside its direction map, so its pause branch for `' '` (js/game.js:165-168) never runs. A pause key is intended, but the model follows the code: `KeyPressRules` shows that space changes nothing. Pausing goes through `TogglePause`, the pause button.
- SnakeGame.Game.Update: requires a snake (a tick needs a head). It also requires a free draw when the tick eats. The original only ticks between a start and the next game over or stop, and there is always a snake then.
