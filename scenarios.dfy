/** Rounds of the snake game played through the Game object's contracts
    alone: what a caller of the methods of module SnakeGame can rely on. */
module Scenarios {
  import opened Grid
  import opened Food
  import opened Leaderboard
  import opened SnakeGame

  /** A pass that proposes the cell (10, 10), off every path used below. */
  const FarFood: seq<Draw> := [Uniform(9, 9)]

  /** A single pass proposing a free cell supplies createFood. */
  lemma SuppliesOne(d: Draw, snake: seq<Cell>)
    requires ValidDraw(d) && !Occupies(snake, Candidate(d))
    ensures Supplies([d], snake) && PlaceFood([d], snake) == Candidate(d)
  {
    assert [d][0] == d;
  }

  /** A fresh page, whose local storage held `saved`, with a round started
      on far-away food. */
  method StartedGame(ghost saved: seq<Entry>) returns (g: Game)
    ensures fresh(g) && g.Valid()
    ensures g.running && !g.isPaused && g.score == 0 && g.direction == Right
    ensures g.snake == [Cell(30, 20), Cell(29, 20)] && g.food == Cell(10, 10)
    ensures g.leaderboard == [] && g.playerName == "" && g.stored == saved
  {
    SuppliesOne(Uniform(9, 9), InitialSnake);
    g := new Game(FarFood, saved);
    SuppliesOne(Uniform(9, 9), StartSnake);
    g.StartGame(FarFood);
  }

  /** A two-segment chain collides only with the border. */
  lemma TwoSegmentsOver(snake: seq<Cell>)
    requires |snake| == 2 && Connected(snake)
    ensures IsGameOver(snake) <==> !InGrid(snake[0])
  {
    assert Adjacent(snake[0], snake[1]);
  }

  /** One tick of a running two-segment snake that does not eat and stays
      on the board. */
  method StepClear(g: Game)
    requires g.Valid() && g.running && !g.isPaused && |g.snake| == 2
    requires !Eats(g.snake, g.direction, g.food) && InGrid(Advance(g.snake[0], g.direction))
    modifies g
    ensures g.Valid() && g.running && !g.isPaused && |g.snake| == 2
    ensures g.snake == [Advance(old(g.snake[0]), g.direction), old(g.snake[0])]
    ensures g.food == old(g.food) && g.score == old(g.score) && g.direction == old(g.direction)
    ensures g.leaderboard == old(g.leaderboard) && g.playerName == old(g.playerName)
    ensures g.stored == old(g.stored)
  {
    g.Tick([]);
    TwoSegmentsOver(g.snake);
  }

  /** Start a round and run right for three steps, with a pause in between:
      the paused tick does nothing, the head ends at (33, 20), the length
      stays two and the score zero. */
  method StraightRun() returns (head: Cell, length: nat, points: int)
    ensures head == Cell(33, 20) && length == 2 && points == 0
  {
    var g := StartedGame([]);
    StepClear(g);
    assert g.snake[0] == Cell(31, 20);
    g.PauseGame();
    g.Tick([]);
    g.ResumeGame();
    StepClear(g);
    assert g.snake[0] == Cell(32, 20);
    StepClear(g);
    head, length, points := g.snake[0], |g.snake|, g.score;
  }

  /** With food just ahead of the head, one tick eats it: the score becomes
      one, the snake three long, and the food is placed again by rejection
      sampling: the first proposal (30, 20) lies on the old head and is
      rejected, the second (1, 1) is taken. */
  method EatOnce() returns (points: int, length: nat, food: Cell, onSnake: bool)
    ensures points == 1 && length == 3 && food == Cell(1, 1) && !onSnake
  {
    var ahead := [Uniform(30, 19)];
    SuppliesOne(Uniform(30, 19), InitialSnake);
    var g := new Game(ahead, []);
    SuppliesOne(Uniform(30, 19), StartSnake);
    g.StartGame(ahead);
    assert g.food == Cell(31, 20);
    var again := [Uniform(29, 19), Uniform(0, 0)];
    assert Candidate(again[0]) == Cell(30, 20) && Occupies(StartSnake, Cell(30, 20));
    assert Candidate(again[1]) == Cell(1, 1) && !Occupies(StartSnake, Cell(1, 1));
    assert FirstFree(again, StartSnake) == 1;
    g.Tick(again);
    points, length, food := g.score, |g.snake|, g.food;
    onSnake := Occupies(g.snake, food);
  }

  /** New food avoids only the snake as it was before the step, so it can
      be placed under the new head. */
  method FoodUnderNewHead() returns (head: Cell, food: Cell)
    ensures head == food == Cell(31, 20)
  {
    var ahead := [Uniform(30, 19)];
    SuppliesOne(Uniform(30, 19), InitialSnake);
    var g := new Game(ahead, []);
    SuppliesOne(Uniform(30, 19), StartSnake);
    g.StartGame(ahead);
    g.Tick(ahead);
    head, food := g.snake[0], g.food;
  }

  /** Two key presses within one tick turn a fresh round around: the
      two-segment snake steps onto its own tail cell and survives, because
      the tail is popped first. A new round keeps the reversed direction. */
  method TurnAroundAndRestart() returns (head: Cell, alive: bool, later: Direction)
    ensures head == Cell(29, 20) && alive && later == Left
  {
    var g := StartedGame([]);
    g.HandleKeyDown("ArrowUp");
    g.HandleKeyDown("ArrowLeft");
    assert g.direction == Left;
    ShortReversalSurvives(g.snake, g.direction, g.food);
    g.Tick([]);
    head, alive := g.snake[0], g.running;
    SuppliesOne(Uniform(9, 9), StartSnake);
    g.StartGame(FarFood);
    later := g.direction;
  }

  /** Running up from the start, the head leaves the board on the 21st
      tick; that tick ends the round and records the score once, and a
      further tick changes nothing. Whatever local storage held when the
      page loaded is replaced by the one-entry table of this round. */
  method RunIntoWall(name: string, ghost saved: seq<Entry>)
    returns (board: seq<Entry>, over: bool, ticks: nat, ghost stored: seq<Entry>)
    ensures board == [Entry(name, 0)] && over && ticks == 21
    ensures stored == [Entry(name, 0)]
  {
    var g := StartedGame(saved);
    g.SubmitName(name);
    g.HandleKeyDown("ArrowUp");
    ticks := 0;
    while g.running
      invariant g.Valid() && !g.isPaused && g.direction == Up && g.playerName == name
      invariant g.food == Cell(10, 10) && g.score == 0 && |g.snake| == 2
      invariant ticks <= 21 && g.snake[0] == Cell(30, 20 - ticks)
      invariant g.running <==> ticks < 21
      invariant ticks < 21 ==> g.leaderboard == [] && g.stored == saved
      invariant ticks == 21 ==> g.leaderboard == [Entry(name, 0)] == g.stored
      decreases 21 - ticks
    {
      RecordOnSorted([], Entry(name, 0));
      ghost var head := g.snake[0];
      assert !Eats(g.snake, Up, g.food);
      g.Tick([]);
      assert g.snake[0] == Advance(head, Up) == Cell(30, 19 - ticks);
      TwoSegmentsOver(g.snake);
      ticks := ticks + 1;
    }
    g.Tick([]);
    board, over := g.leaderboard, !g.running;
    stored := g.stored;
  }
}
