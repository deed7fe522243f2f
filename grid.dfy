/** The board of the snake game (game.js): cells, directions, the movement
    step of moveSnake, the collision test isGameOver and the steering rule of
    handleKeyDown. Everything here is a value; the mutable game lives in
    module SnakeGame. */
module Grid {

  datatype Option<T> = None | Some(value: T)

  /** Canvas size in pixels (game.js:2-3) and the side of one cell (game.js:12). */
  const CanvasWidth: int := 600
  const CanvasHeight: int := 400
  const CellSize: int := 10

  /** Columns and rows of the grid (game.js:15-16). JavaScript divides reals;
      GridIsExact shows that these divisions, and the halvings of startGame,
      leave no remainder, so Dafny's integer division gives the same numbers. */
  const NumCols: int := CanvasWidth / CellSize
  const NumRows: int := CanvasHeight / CellSize

  lemma GridIsExact()
    ensures NumCols * CellSize == CanvasWidth && NumRows * CellSize == CanvasHeight
    ensures NumCols == 60 && NumRows == 40
    ensures NumCols % 2 == 0 && NumRows % 2 == 0
    ensures NumCols / 2 == 30 && NumRows / 2 == 20
  {
  }

  /** A grid coordinate `{x, y}`; a head that has left the board has a
      coordinate outside [0, NumCols) x [0, NumRows). */
  datatype Cell = Cell(x: int, y: int)

  /** The four values of the global `direction` ('up', 'down', 'left', 'right'). */
  datatype Direction = Up | Down | Left | Right

  function Opposite(d: Direction): Direction
  {
    match d
    case Up => Down
    case Down => Up
    case Left => Right
    case Right => Left
  }

  function Abs(n: int): nat
  {
    if n < 0 then -n else n
  }

  /** Manhattan distance between two cells. */
  function Distance(a: Cell, b: Cell): nat
  {
    Abs(a.x - b.x) + Abs(a.y - b.y)
  }

  predicate Adjacent(a: Cell, b: Cell)
  {
    Distance(a, b) == 1
  }

  predicate InGrid(c: Cell)
  {
    0 <= c.x < NumCols && 0 <= c.y < NumRows
  }

  /** The new head of moveSnake (game.js:73-88): one cell from `head` along
      the axis of `d`, with x growing to the right and y growing downwards. */
  function Advance(head: Cell, d: Direction): (r: Cell)
    ensures Adjacent(head, r)
    ensures r.x > head.x <==> d == Right
    ensures r.x < head.x <==> d == Left
    ensures r.y > head.y <==> d == Down
    ensures r.y < head.y <==> d == Up
  {
    match d
    case Right => Cell(head.x + 1, head.y)
    case Down => Cell(head.x, head.y + 1)
    case Left => Cell(head.x - 1, head.y)
    case Up => Cell(head.x, head.y - 1)
  }

  /** Stepping in a direction and then in its opposite comes back. */
  lemma AdvanceOpposite(c: Cell, d: Direction)
    ensures Advance(Advance(c, d), Opposite(d)) == c
    ensures Opposite(Opposite(d)) == d && Opposite(d) != d
  {
  }

  /** The four steps of Advance are exactly the neighbours of a cell. */
  lemma AdjacentIffAdvance(a: Cell, b: Cell)
    ensures Adjacent(a, b) <==> exists d :: Advance(a, d) == b
  {
    if Adjacent(a, b) {
      var d := if b.x > a.x then Right
               else if b.x < a.x then Left
               else if b.y > a.y then Down
               else Up;
      assert Advance(a, d) == b;
    }
  }

  /** Whether some segment has the same coordinates as `c`: the scan over
      the snake used by isGameOver (game.js:106) and by createFood
      (game.js:55). */
  function Occupies(segments: seq<Cell>, c: Cell): (r: bool)
    ensures r <==> exists i :: 0 <= i < |segments| && segments[i] == c
  {
    if segments == [] then false
    else segments[0] == c || Occupies(segments[1..], c)
  }

  /** isGameOver (game.js:99-107): the head is off the board, or it lies on
      one of the other segments. */
  function IsGameOver(snake: seq<Cell>): (over: bool)
    requires |snake| >= 1
    ensures over <==> !InGrid(snake[0]) || exists i :: 1 <= i < |snake| && snake[i] == snake[0]
  {
    var head := snake[0];
    head.x < 0 ||
    head.x >= NumCols ||
    head.y < 0 ||
    head.y >= NumRows ||
    Occupies(snake[1..], head)
  }

  /** The head moving in `d` lands on the food cell (game.js:89). */
  predicate Eats(snake: seq<Cell>, d: Direction, food: Cell)
    requires |snake| >= 1
  {
    Advance(snake[0], d) == food
  }

  /** The body update of moveSnake (game.js:89-96): without food the tail is
      popped and the new head unshifted, with food the snake keeps its tail. */
  function Move(snake: seq<Cell>, d: Direction, food: Cell): (r: seq<Cell>)
    requires |snake| >= 1
    ensures |r| == if Eats(snake, d, food) then |snake| + 1 else |snake|
    ensures r[0] == Advance(snake[0], d)
    ensures forall i :: 1 <= i < |r| ==> r[i] == snake[i - 1]
  {
    var newHead := Advance(snake[0], d);
    if newHead == food then [newHead] + snake
    else [newHead] + snake[..|snake| - 1]
  }

  /** Consecutive segments are neighbouring cells. */
  predicate Connected(snake: seq<Cell>)
  {
    forall i :: 0 <= i < |snake| - 1 ==> Adjacent(snake[i], snake[i + 1])
  }

  /** A step keeps the snake a chain of neighbouring cells. */
  lemma MoveKeepsConnected(snake: seq<Cell>, d: Direction, food: Cell)
    requires |snake| >= 1 && Connected(snake)
    ensures Connected(Move(snake, d, food))
  {
    var r := Move(snake, d, food);
    forall i | 0 <= i < |r| - 1
      ensures Adjacent(r[i], r[i + 1])
    {
      if i == 0 {
        assert r[1] == snake[0];
      } else {
        assert r[i] == snake[i - 1] && r[i + 1] == snake[i];
      }
    }
  }

  /** Turning straight back into the neck (possible with two key presses
      between ticks, see TwoPressesReverse) is fatal once the snake has three
      or more segments, whether or not the neck held food. */
  lemma ReversalIntoNeckIsFatal(snake: seq<Cell>, d: Direction, food: Cell)
    requires |snake| >= 3 && Advance(snake[0], d) == snake[1]
    ensures IsGameOver(Move(snake, d, food))
  {
    var r := Move(snake, d, food);
    assert r[2] == snake[1] == r[0];
  }

  /** With two segments the same reversal is harmless: the tail is popped
      before the head moves onto it, so the snake just swaps its ends. */
  lemma ShortReversalSurvives(snake: seq<Cell>, d: Direction, food: Cell)
    requires |snake| == 2 && Advance(snake[0], d) == snake[1]
    requires food != snake[1] && InGrid(snake[1])
    ensures Move(snake, d, food) == [snake[1], snake[0]]
    ensures !IsGameOver(Move(snake, d, food))
  {
    var r := Move(snake, d, food);
    assert r[0] == snake[1] && r[1] == snake[0];
    assert r == [snake[1], snake[0]];
  }

  /** The direction an arrow key asks for (game.js:143-164); other codes ask for none. */
  function KeyDirection(code: string): Option<Direction>
  {
    if code == "ArrowRight" then Some(Right)
    else if code == "ArrowDown" then Some(Down)
    else if code == "ArrowLeft" then Some(Left)
    else if code == "ArrowUp" then Some(Up)
    else None
  }

  /** handleKeyDown (game.js:142-165): an arrow key sets the direction unless
      it asks for the reverse of the current one; any other code is ignored. */
  function Turn(current: Direction, code: string): (next: Direction)
    ensures next != Opposite(current)
    ensures KeyDirection(code) == None ==> next == current
    ensures KeyDirection(code) == Some(Opposite(current)) ==> next == current
    ensures KeyDirection(code).Some? && KeyDirection(code).value != Opposite(current) ==>
              next == KeyDirection(code).value
  {
    match code
    case "ArrowRight" => if current != Left then Right else current
    case "ArrowDown" => if current != Up then Down else current
    case "ArrowLeft" => if current != Right then Left else current
    case "ArrowUp" => if current != Down then Up else current
    case _ => current
  }

  /** The reversal check is against the current direction, not the last
      direction moved: two presses between ticks turn the snake around. */
  lemma TwoPressesReverse(d: Direction)
    ensures exists c1: string, c2: string :: Turn(Turn(d, c1), c2) == Opposite(d)
  {
    var side := if d == Up || d == Down then "ArrowRight" else "ArrowUp";
    var back := match d
      case Up => "ArrowDown"
      case Down => "ArrowUp"
      case Left => "ArrowRight"
      case Right => "ArrowLeft";
    assert Turn(Turn(d, side), back) == Opposite(d);
  }
}
