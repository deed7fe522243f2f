/** The state of the snake game and its transitions (game.js). The globals
    of game.js:18-25 become the fields of one Game object; each function of
    the source that assigns them becomes a method, except showLeaderboard,
    whose only assignment re-reads the list just stored. The interval callback of
    startGame is the method Tick, and `intervalId` becomes the flag
    `running`, true while an interval is set and not yet cleared. */
module SnakeGame {
  import opened Grid
  import opened Food
  import opened Leaderboard

  /** The snake of a page that has not started a round (game.js:18). */
  const InitialSnake: seq<Cell> := [Cell(5, 5)]

  /** The snake at the start of a round (game.js:118). */
  const StartSnake: seq<Cell> := [Cell(NumCols / 2, NumRows / 2), Cell(NumCols / 2 - 1, NumRows / 2)]

  class Game {
    var snake: seq<Cell>
    var food: Cell
    var score: nat
    var direction: Direction
    var isPaused: bool
    var running: bool
    var playerName: string
    var leaderboard: seq<Entry>
    /** The list last written to local storage under the key 'leaderboard'. */
    ghost var stored: seq<Entry>

    /** What every reachable state satisfies: the snake is a non-empty
        chain of neighbouring cells whose length is the score plus the two
        starting segments (or the page's one-cell snake before any round);
        a running round is never in a game-over state; the table is sorted
        and within its cap. */
    ghost predicate Valid()
      reads this
    {
      && |snake| >= 1
      && Connected(snake)
      && (|snake| == score + 2 || (snake == InitialSnake && score == 0 && !running))
      && (running ==> !IsGameOver(snake))
      && SortedDesc(leaderboard)
      && |leaderboard| <= MaxEntries
    }

    /** The globals of game.js:18-25 followed by init() (game.js:27-35),
        whose only effect on the state is createFood. `saved` is what local
        storage held when the page loaded; nothing reads it back here. */
    constructor (draws: seq<Draw>, ghost saved: seq<Entry>)
      requires Supplies(draws, InitialSnake)
      ensures Valid()
      ensures snake == InitialSnake && food == PlaceFood(draws, InitialSnake)
      ensures score == 0 && direction == Right && !isPaused && !running
      ensures playerName == "" && leaderboard == [] && stored == saved
    {
      snake := InitialSnake;
      food := Cell(-1, -1);  // stands for `{}`, replaced by createFood below
      score := 0;
      direction := Right;
      isPaused := false;
      running := false;
      playerName := "";
      leaderboard := [];
      stored := saved;
      new;
      CreateFood(draws);
    }

    /** createFood (game.js:37-56): pass after pass of the do-while
        proposes a cell, until one lies off every segment of the snake. */
    method CreateFood(draws: seq<Draw>)
      requires Supplies(draws, snake)
      modifies this`food
      ensures food == PlaceFood(draws, snake)
      ensures !Occupies(snake, food) && InInset(food)
    {
      var i := 0;
      food := Candidate(draws[i]);
      while Occupies(snake, food)
        invariant 0 <= i <= FirstFree(draws, snake)
        invariant food == Candidate(draws[i])
        decreases FirstFree(draws, snake) - i
      {
        i := i + 1;
        food := Candidate(draws[i]);
      }
    }

    /** moveSnake (game.js:72-97). New food is placed while the snake is
        still the old one, so it may be placed on the new head. */
    method MoveSnake(draws: seq<Draw>)
      requires |snake| >= 1
      requires Eats(snake, direction, food) ==> Supplies(draws, snake)
      modifies this`snake, this`score, this`food
      ensures snake == Move(old(snake), direction, old(food))
      ensures snake[0] == Advance(old(snake)[0], direction)
      ensures Eats(old(snake), direction, old(food)) ==>
                |snake| == |old(snake)| + 1 && score == old(score) + 1 &&
                food == PlaceFood(draws, old(snake))
      ensures !Eats(old(snake), direction, old(food)) ==>
                |snake| == |old(snake)| && score == old(score) && food == old(food)
    {
      var head := snake[0];
      var newHead := Advance(head, direction);
      if newHead == food {
        score := score + 1;
        CreateFood(draws);
      } else {
        snake := snake[..|snake| - 1];
      }
      snake := [newHead] + snake;
    }

    /** addScoreToLeaderboard (game.js:173-180): push, stable sort by
        descending score, one pop past the cap, then write to storage. */
    method AddScoreToLeaderboard(name: string, points: int)
      modifies this`leaderboard, this`stored
      ensures leaderboard == Record(old(leaderboard), Entry(name, points))
      ensures stored == leaderboard
    {
      leaderboard := leaderboard + [Entry(name, points)];
      leaderboard := SortByScore(leaderboard);
      if |leaderboard| > MaxEntries {
        leaderboard := leaderboard[..|leaderboard| - 1];
      }
      stored := leaderboard;
    }

    /** startGame (game.js:110-132): clear the old interval, reset pause,
        score and snake, place food, set a new interval. The direction is
        left as it was. */
    method StartGame(draws: seq<Draw>)
      requires Valid()
      requires Supplies(draws, StartSnake)
      modifies this`running, this`isPaused, this`score, this`snake, this`food
      ensures Valid()
      ensures running && !isPaused && score == 0
      ensures snake == StartSnake && snake == [Cell(30, 20), Cell(29, 20)]
      ensures food == PlaceFood(draws, StartSnake)
      ensures direction == old(direction) && playerName == old(playerName)
      ensures leaderboard == old(leaderboard)
    {
      GridIsExact();
      running := false;  // clearInterval(intervalId)
      isPaused := false;
      score := 0;
      snake := [Cell(NumCols / 2, NumRows / 2), Cell(NumCols / 2 - 1, NumRows / 2)];
      CreateFood(draws);
      running := true;  // intervalId = setInterval(...)
    }

    /** One firing of the interval callback (game.js:120-131). A cleared
        interval no longer fires and a paused game skips the step. */
    method Tick(draws: seq<Draw>)
      requires Valid()
      requires running && !isPaused && Eats(snake, direction, food) ==> Supplies(draws, snake)
      modifies this`snake, this`score, this`food, this`running, this`leaderboard, this`stored
      ensures Valid()
      ensures !old(running) || old(isPaused) ==> unchanged(this)
      ensures old(running) && !old(isPaused) ==>
                && snake == Move(old(snake), direction, old(food))
                && score == old(score) + (if Eats(old(snake), direction, old(food)) then 1 else 0)
                && food == (if Eats(old(snake), direction, old(food)) then PlaceFood(draws, old(snake)) else old(food))
                && running == !IsGameOver(snake)
                && leaderboard == (if IsGameOver(snake) then Record(old(leaderboard), Entry(playerName, score))
                                   else old(leaderboard))
                && stored == (if IsGameOver(snake) then leaderboard else old(stored))
      ensures direction == old(direction) && isPaused == old(isPaused) && playerName == old(playerName)
    {
      if running && !isPaused {
        Step(draws);
      }
    }

    /** The body of the interval callback (game.js:121-129) on a running,
        unpaused game: move, then end the round if the move was fatal. */
    method Step(draws: seq<Draw>)
      requires Valid() && running && !isPaused
      requires Eats(snake, direction, food) ==> Supplies(draws, snake)
      modifies this`snake, this`score, this`food, this`running, this`leaderboard, this`stored
      ensures Valid()
      ensures snake == Move(old(snake), direction, old(food))
      ensures score == old(score) + (if Eats(old(snake), direction, old(food)) then 1 else 0)
      ensures food == (if Eats(old(snake), direction, old(food)) then PlaceFood(draws, old(snake)) else old(food))
      ensures running == !IsGameOver(snake)
      ensures leaderboard == (if IsGameOver(snake) then Record(old(leaderboard), Entry(playerName, score))
                              else old(leaderboard))
      ensures stored == (if IsGameOver(snake) then leaderboard else old(stored))
    {
      ghost var snake0, food0 := snake, food;
      MoveSnake(draws);
      MoveKeepsConnected(snake0, direction, food0);
      if IsGameOver(snake) {
        EndRound();
      }
    }

    /** The game-over branch of the interval callback (game.js:125-126):
        clear the interval and record the score reached. */
    method EndRound()
      modifies this`running, this`leaderboard, this`stored
      ensures !running
      ensures leaderboard == Record(old(leaderboard), Entry(playerName, score))
      ensures stored == leaderboard
    {
      running := false;  // clearInterval(intervalId)
      AddScoreToLeaderboard(playerName, score);
    }

    /** pauseGame (game.js:134-136). */
    method PauseGame()
      requires Valid()
      modifies this`isPaused
      ensures Valid() && isPaused
    {
      isPaused := true;
    }

    /** resumeGame (game.js:138-140). */
    method ResumeGame()
      requires Valid()
      modifies this`isPaused
      ensures Valid() && !isPaused
    {
      isPaused := false;
    }

    /** handleKeyDown (game.js:142-165), on the key's `event.code`. */
    method HandleKeyDown(code: string)
      requires Valid()
      modifies this`direction
      ensures Valid()
      ensures direction == Turn(old(direction), code)
      ensures direction != Opposite(old(direction))
    {
      match code
      case "ArrowRight" =>
        if direction != Left {
          direction := Right;
        }
      case "ArrowDown" =>
        if direction != Up {
          direction := Down;
        }
      case "ArrowLeft" =>
        if direction != Right {
          direction := Left;
        }
      case "ArrowUp" =>
        if direction != Down {
          direction := Up;
        }
      case _ =>
    }

    /** The assignment of handleSubmit (game.js:169); the form is outside the model. */
    method SubmitName(name: string)
      requires Valid()
      modifies this`playerName
      ensures Valid() && playerName == name
    {
      playerName := name;
    }
  }
}
