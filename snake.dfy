/**
 * The rules of the terminal snake game: the direction filter applied to
 * each key press, one step of the snake (collision, head advance, grow or
 * drop the tail), the score and high score, and where food may be placed.
 * Drawing, timing, the random source and the high-score file are not
 * modelled: the random food candidates and the saved high score are
 * parameters.
 */
module SnakeGame {
  import opened Wrappers

  // curses key codes
  const KeyDown: int := 258
  const KeyUp: int := 259
  const KeyLeft: int := 260
  const KeyRight: int := 261
  /** `getch()` when no key was pressed within the timeout. */
  const NoKey: int := -1
  const KeyPause: int := 112  // ord("p")
  const KeyQuit: int := 113   // ord("q")

  /** A board position `[row, column]`. */
  datatype Cell = Cell(row: int, col: int)

  predicate IsArrow(k: int) {
    k == KeyDown || k == KeyUp || k == KeyLeft || k == KeyRight
  }

  /** The arrow that points the other way. */
  function Opposite(k: int): (o: int)
    requires IsArrow(k)
    ensures IsArrow(o) && o != k
  {
    if k == KeyDown then KeyUp
    else if k == KeyUp then KeyDown
    else if k == KeyLeft then KeyRight
    else KeyLeft
  }

  /** get_input: the direction after reading `next` while moving in direction `key`. */
  function NextDirection(key: int, next: int): int {
    if next == NoKey || next == KeyPause || next == KeyQuit then key
    else if (key == KeyRight && next != KeyLeft) || (key == KeyLeft && next != KeyRight)
         || (key == KeyDown && next != KeyUp) || (key == KeyUp && next != KeyDown) then next
    else key
  }

  /** The cell the head moves to in direction `key`; any other key leaves it where it is. */
  function Advance(head: Cell, key: int): Cell {
    if key == KeyRight then head.(col := head.col + 1)
    else if key == KeyLeft then head.(col := head.col - 1)
    else if key == KeyDown then head.(row := head.row + 1)
    else if key == KeyUp then head.(row := head.row - 1)
    else head
  }

  /** The game is over when the head is on the border or on a body cell. */
  predicate Collided(snake: seq<Cell>, h: int, w: int)
    requires snake != []
  {
    snake[0].row in [0, h - 1] || snake[0].col in [0, w - 1] || snake[0] in snake[1..]
  }

  /** Where `random.randint` may place a food candidate: rows 1..h-2, columns 1..w-2. */
  predicate Interior(c: Cell, h: int, w: int) {
    1 <= c.row <= h - 2 && 1 <= c.col <= w - 2
  }

  /** The first candidate that is not on the snake. */
  function FirstFree(draws: seq<Cell>, snake: seq<Cell>): (k: nat)
    requires exists k :: 0 <= k < |draws| && draws[k] !in snake
    ensures k < |draws| && draws[k] !in snake
    ensures forall j :: 0 <= j < k ==> draws[j] in snake
  {
    if draws[0] !in snake then 0
    else
      assert exists k :: 0 <= k < |draws[1..]| && draws[1..][k] !in snake by {
        var k :| 0 <= k < |draws| && draws[k] !in snake;
        assert k > 0 && draws[1..][k - 1] == draws[k];
      }
      1 + FirstFree(draws[1..], snake)
  }

  /** The score rule of update_side_win: one more point, and the high score follows the score once it passes it. */
  function Scored(score: int, hiScore: int): (r: (int, int))
    ensures r.0 == score + 1
    ensures r.1 >= r.0 && r.1 >= hiScore
    ensures r.1 != hiScore ==> r.0 > hiScore && r.1 == r.0
  {
    var s := score + 1;
    if s > hiScore then (s, s) else (s, hiScore)
  }

  /** Consecutive cells are the same or side by side. */
  predicate Linked(snake: seq<Cell>) {
    forall k :: 0 <= k < |snake| - 1 ==> Near(snake[k], snake[k + 1])
  }

  predicate Near(a: Cell, b: Cell) {
    (a.row == b.row && -1 <= a.col - b.col <= 1) || (a.col == b.col && -1 <= a.row - b.row <= 1)
  }

  class Snake {
    const h: int
    const w: int
    var snake: seq<Cell>
    var score: int
    var hiScore: int
    var foodPos: Option<Cell>
    var key: int

    /** The snake holds one cell per point scored beyond its initial three, stays connected, and never covers the food. */
    predicate Valid()
      reads this
    {
      && score >= 0 && |snake| == 3 + score
      && Linked(snake)
      && (foodPos.Some? ==> foodPos.value !in snake && Interior(foodPos.value, h, w))
    }

    /**
     * The game set-up and the start of run: the snake lies horizontally
     * with its head at `(h/2, w/4)` and its body to the left, moving right;
     * the food is the first free candidate.
     */
    constructor(h: nat, w: nat, savedHiScore: int, draws: seq<Cell>)
      requires forall k :: 0 <= k < |draws| ==> Interior(draws[k], h, w)
      requires exists k :: 0 <= k < |draws| && draws[k] !in [Cell(h / 2, w / 4), Cell(h / 2, w / 4 - 1), Cell(h / 2, w / 4 - 2)]
      ensures this.h == h && this.w == w
      ensures snake == [Cell(h / 2, w / 4), Cell(h / 2, w / 4 - 1), Cell(h / 2, w / 4 - 2)]
      ensures score == 0 && hiScore == savedHiScore && key == KeyRight
      ensures foodPos == Some(draws[FirstFree(draws, snake)])
      ensures Valid()
    {
      this.h := h;
      this.w := w;
      score := 0;
      hiScore := savedHiScore;
      foodPos := None;
      var x := w / 4;
      var y := h / 2;
      snake := [Cell(y, x), Cell(y, x - 1), Cell(y, x - 2)];
      key := KeyRight;
      new;
      GenerateFood(draws);
    }

    /** generate_food: takes candidates until one is not on the snake. */
    method GenerateFood(draws: seq<Cell>)
      requires forall k :: 0 <= k < |draws| ==> Interior(draws[k], h, w)
      requires exists k :: 0 <= k < |draws| && draws[k] !in snake
      modifies this`foodPos
      ensures foodPos == Some(draws[FirstFree(draws, snake)])
      ensures foodPos.value !in snake && Interior(foodPos.value, h, w)
    {
      var i := 0;
      while true
        invariant 0 <= i <= FirstFree(draws, snake)
        decreases FirstFree(draws, snake) - i
      {
        var newFood := draws[i];
        if newFood !in snake {
          foodPos := Some(newFood);
          return;
        }
        i := i + 1;
      }
    }

    /** update_side_win: one point more, and a new high score when it is passed. */
    method UpdateSideWin()
      modifies this`score, this`hiScore
      ensures (score, hiScore) == Scored(old(score), old(hiScore))
    {
      score := score + 1;
      if score > hiScore {
        hiScore := score;
      }
    }

    /**
     * One iteration of run: read the key, stop on a collision, otherwise
     * move the head and either eat (grow, score, place new food) or drop
     * the tail.
     */
    method Tick(nextKey: int, draws: seq<Cell>) returns (over: bool)
      requires Valid()
      requires forall k :: 0 <= k < |draws| ==> Interior(draws[k], h, w)
      requires exists k :: 0 <= k < |draws| && draws[k] !in snake
                                            && draws[k] != Advance(snake[0], NextDirection(key, nextKey))
      modifies this
      ensures Valid()
      ensures key == NextDirection(old(key), nextKey)
      ensures over == Collided(old(snake), h, w)
      ensures over ==> snake == old(snake) && score == old(score) && hiScore == old(hiScore) && foodPos == old(foodPos)
      ensures !over ==>
                var head := Advance(old(snake)[0], key);
                if old(foodPos) == Some(head) then
                  && snake == [head] + old(snake)
                  && (score, hiScore) == Scored(old(score), old(hiScore))
                  && foodPos == Some(draws[FirstFree(draws, snake)])
                else
                  && snake == [head] + old(snake)[..|old(snake)| - 1]
                  && score == old(score) && hiScore == old(hiScore) && foodPos == old(foodPos)
    {
      key := NextDirection(key, nextKey);
      if snake[0].row in [0, h - 1] || snake[0].col in [0, w - 1] {
        return true;
      } else if snake[0] in snake[1..] {
        return true;
      }
      var head := Advance(snake[0], key);
      ghost var body := snake;
      AdvanceNear(body[0], key);
      LinkedGrow(head, body);
      snake := [head] + snake;
      if Some(snake[0]) == foodPos {
        UpdateSideWin();
        assert forall k :: 0 <= k < |draws| && draws[k] !in body && draws[k] != head ==> draws[k] !in snake;
        GenerateFood(draws);
      } else {
        snake := snake[..|snake| - 1];
        assert forall c :: c in snake ==> c == head || c in body;
      }
      return false;
    }
  }

  /** A new head next to the old one keeps the body linked, both when the tail stays and when it moves. */
  lemma LinkedGrow(head: Cell, body: seq<Cell>)
    requires body != [] && Linked(body) && Near(head, body[0])
    ensures Linked([head] + body)
    ensures Linked(([head] + body)[..|body|])
  {
    var s := [head] + body;
    assert forall k :: 1 <= k < |s| - 1 ==> s[k] == body[k - 1] && s[k + 1] == body[k];
    var t := s[..|body|];
    assert forall k :: 0 <= k < |t| ==> t[k] == s[k];
  }

  /** The head moves exactly one cell in an arrow's direction, and not at all for any other key. */
  lemma AdvanceNear(head: Cell, key: int)
    ensures Near(Advance(head, key), head)
    ensures IsArrow(key) <==> Advance(head, key) != head
  {
  }

  /**
   * get_input's filter: the reverse of an arrow direction is ignored, no
   * key, `p` and `q` change nothing, any other key is adopted while moving
   * along an arrow, and once the direction is not an arrow it never changes.
   */
  lemma DirectionRule(key: int, next: int)
    ensures IsArrow(key) && next == Opposite(key) ==> NextDirection(key, next) == key
    ensures next in [NoKey, KeyPause, KeyQuit] ==> NextDirection(key, next) == key
    ensures !IsArrow(key) ==> NextDirection(key, next) == key
    ensures IsArrow(key) && next !in [NoKey, KeyPause, KeyQuit, Opposite(key)] ==> NextDirection(key, next) == next
  {
  }

  /** Each arrow moves the head one cell: right and left change the column, down and up the row. */
  lemma AdvanceDirections(head: Cell)
    ensures Advance(head, KeyRight) == Cell(head.row, head.col + 1)
    ensures Advance(head, KeyLeft) == Cell(head.row, head.col - 1)
    ensures Advance(head, KeyDown) == Cell(head.row + 1, head.col)
    ensures Advance(head, KeyUp) == Cell(head.row - 1, head.col)
  {
  }

  /**
   * A key that is not an arrow, once adopted, ends the game: the head
   * stays put, so after the step it lies on the cell behind it, which the
   * next collision test finds.
   */
  lemma StrayKeyEndsGame(snake: seq<Cell>, key: int, h: int, w: int, ate: bool)
    requires |snake| >= 2 && !IsArrow(key)
    ensures var head := Advance(snake[0], key);
            var next := if ate then [head] + snake else [head] + snake[..|snake| - 1];
            Collided(next, h, w)
  {
    var head := Advance(snake[0], key);
    var next := if ate then [head] + snake else [head] + snake[..|snake| - 1];
    assert next[1] == snake[0] == head;
    assert next[1..][0] == head;
  }
}
