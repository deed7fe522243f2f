/** Food placement of the snake game: createFood (game.js:37-56), rejection
    sampling over the board inset by one cell. The calls to Math.random are
    replaced by the outcome of each pass of the do-while, given by the caller
    as a sequence of Draw values. */
module Food {
  import opened Grid

  /** `edgeDist`, `xRange` and `yRange` of createFood (game.js:38-41). */
  const EdgeDist: int := 1
  const XRange: int := NumCols - EdgeDist * 2
  const YRange: int := NumRows - EdgeDist * 2

  /** What one pass of the do-while drew. Border: the first draw fell below
      the border probability; `nearBorder` is the outcome of the coin of
      game.js:45 and `yOffset` is `Math.floor(Math.random() * yRange)`.
      Uniform: the first draw did not; the offsets are the floors of the two
      scaled draws of game.js:51-52. */
  datatype Draw = Border(nearBorder: bool, yOffset: int) | Uniform(xOffset: int, yOffset: int)

  /** Math.random() lies in [0, 1), so each floored offset lies in [0, range). */
  predicate ValidDraw(d: Draw)
  {
    0 <= d.yOffset < YRange && (d.Uniform? ==> 0 <= d.xOffset < XRange)
  }

  /** The inset rectangle: one cell clear of every border. */
  predicate InInset(c: Cell)
  {
    EdgeDist <= c.x <= NumCols - EdgeDist - 1 && EdgeDist <= c.y <= NumRows - EdgeDist - 1
  }

  /** The food cell one pass proposes (game.js:46-53). */
  function Candidate(d: Draw): (c: Cell)
    requires ValidDraw(d)
    ensures InInset(c) && InGrid(c)
    ensures d.Border? ==> c.x == 1 || c.x == NumCols - 2
  {
    match d
    case Border(nearBorder, yOffset) =>
      Cell(if nearBorder then EdgeDist else NumCols - EdgeDist - 1, yOffset + EdgeDist)
    case Uniform(xOffset, yOffset) =>
      Cell(xOffset + EdgeDist, yOffset + EdgeDist)
  }

  /** Every inset cell can be proposed by a uniform pass, and every inset
      cell of the two edge columns by a border pass as well. */
  lemma CandidatesCoverInset(c: Cell)
    requires InInset(c)
    ensures exists d :: ValidDraw(d) && d.Uniform? && Candidate(d) == c
    ensures c.x == 1 || c.x == NumCols - 2 ==>
              exists d :: ValidDraw(d) && d.Border? && Candidate(d) == c
  {
    var u := Uniform(c.x - EdgeDist, c.y - EdgeDist);
    assert ValidDraw(u) && Candidate(u) == c;
    if c.x == 1 || c.x == NumCols - 2 {
      var b := Border(c.x == 1, c.y - EdgeDist);
      assert ValidDraw(b) && Candidate(b) == c;
    }
  }

  /** The draws are ones Math.random can produce and some pass proposes a
      cell off `snake`, so the do-while of createFood ends within `draws`. */
  predicate Supplies(draws: seq<Draw>, snake: seq<Cell>)
  {
    (forall i :: 0 <= i < |draws| ==> ValidDraw(draws[i])) &&
    exists i :: 0 <= i < |draws| && ValidDraw(draws[i]) && !Occupies(snake, Candidate(draws[i]))
  }

  /** The pass at which the do-while stops: the first one whose candidate
      no segment of `snake` occupies. */
  function FirstFree(draws: seq<Draw>, snake: seq<Cell>): (k: nat)
    requires Supplies(draws, snake)
    ensures k < |draws| && !Occupies(snake, Candidate(draws[k]))
    ensures forall j :: 0 <= j < k ==> Occupies(snake, Candidate(draws[j]))
    decreases |draws|
  {
    if !Occupies(snake, Candidate(draws[0])) then 0
    else
      var i :| 0 <= i < |draws| && ValidDraw(draws[i]) && !Occupies(snake, Candidate(draws[i]));
      assert i > 0 && draws[1..][i - 1] == draws[i];
      1 + FirstFree(draws[1..], snake)
  }

  /** The food cell createFood settles on. */
  function PlaceFood(draws: seq<Draw>, snake: seq<Cell>): (food: Cell)
    requires Supplies(draws, snake)
    ensures forall i :: 0 <= i < |snake| ==> snake[i] != food
    ensures InInset(food) && InGrid(food)
    ensures 1 <= food.x <= NumCols - 2 && 1 <= food.y <= NumRows - 2
    ensures draws[FirstFree(draws, snake)].Border? ==> food.x == 1 || food.x == NumCols - 2
  {
    Candidate(draws[FirstFree(draws, snake)])
  }

  /** Draws that only exceed what the first free pass needs change nothing. */
  lemma PlaceFoodIgnoresLaterDraws(draws: seq<Draw>, more: seq<Draw>, snake: seq<Cell>)
    requires Supplies(draws, snake)
    requires forall i :: 0 <= i < |more| ==> ValidDraw(more[i])
    ensures Supplies(draws + more, snake)
    ensures PlaceFood(draws + more, snake) == PlaceFood(draws, snake)
  {
    var k := FirstFree(draws, snake);
    var all := draws + more;
    assert all[k] == draws[k];
    assert forall i :: 0 <= i < |all| ==> ValidDraw(all[i]);
    assert forall j :: 0 <= j < k ==> all[j] == draws[j];
  }
}
