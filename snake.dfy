/**
 * The snake game of pico-shell-based-os on a 20 x 15 grid: the body is an
 * array of up to 100 segments with the head first, a key sets the pending
 * direction unless it reverses the current one, and each move takes the
 * pending direction, ends the game on a wall or on the body, and otherwise
 * shifts the body one place (growing it when the food is eaten). The food
 * cells come from rand() and are a parameter here; the timing of moves is
 * left to the caller.
 */
module Snake {
  import opened CText

  const SNAKE_WIDTH: int := 20
  const SNAKE_HEIGHT: int := 15
  const MAX_LENGTH: int := 100
  const START_INTERVAL: int := 200
  const MIN_INTERVAL: int := 50

  datatype Cell = Cell(x: int, y: int)

  predicate OnGrid(c: Cell) {
    0 <= c.x < SNAKE_WIDTH && 0 <= c.y < SNAKE_HEIGHT
  }

  function Abs(n: int): nat { if n < 0 then -n else n }

  /** Cells side by side: one step apart along a row or a column. */
  predicate Adjacent(a: Cell, b: Cell) {
    Abs(a.x - b.x) + Abs(a.y - b.y) == 1
  }

  /** Each segment is next to the one after it. */
  predicate Contiguous(body: seq<Cell>) {
    forall i :: 0 <= i < |body| - 1 ==> Adjacent(body[i], body[i + 1])
  }

  /** No cell is taken by two segments. */
  predicate NoOverlap(body: seq<Cell>) {
    forall i, j :: 0 <= i < j < |body| ==> body[i] != body[j]
  }

  /** A snake that can be drawn: on the grid, in one piece, not crossing itself. */
  predicate WellFormed(body: seq<Cell>) {
    (forall i :: 0 <= i < |body| ==> OnGrid(body[i])) && Contiguous(body) && NoOverlap(body)
  }

  /** The step of a direction key: w up, s down, a left, d right. */
  function Velocity(d: char): (v: (int, int))
    ensures d in "wsad" ==> Abs(v.0) + Abs(v.1) == 1
  {
    match d
    case 'w' => (0, -1)
    case 's' => (0, 1)
    case 'a' => (-1, 0)
    case 'd' => (1, 0)
    case _ => (0, 0)
  }

  /**
   * The key handling of snake_game: the pending direction a key gives while
   * moving by (dx, dy), or None when it is not a direction key or would
   * turn the snake straight back.
   */
  function KeyDirection(c: char, dx: int, dy: int): (p: Option<char>)
    ensures p.Some? ==> p.value in "wsad" && Velocity(p.value) != (-dx, -dy)
    ensures p.Some? ==> ToLower(c) == p.value
  {
    if (c == 'w' || c == 'W') && dy != 1 then Some('w')
    else if (c == 's' || c == 'S') && dy != -1 then Some('s')
    else if (c == 'a' || c == 'A') && dx != 1 then Some('a')
    else if (c == 'd' || c == 'D') && dx != -1 then Some('d')
    else None
  }

  /** The key that reverses a direction is always refused. */
  lemma ReversalRejected(c: char, heading: char)
    requires heading in "wsad"
    requires Velocity(ToLower(c)) == (-Velocity(heading).0, -Velocity(heading).1)
    ensures KeyDirection(c, Velocity(heading).0, Velocity(heading).1).None?
  {
  }

  /** Any other direction key is taken. */
  lemma TurnAccepted(c: char, heading: char)
    requires heading in "wsad" && ToLower(c) in "wsad" && (c in "wsad" || c in "WSAD")
    requires Velocity(ToLower(c)) != (-Velocity(heading).0, -Velocity(heading).1)
    ensures KeyDirection(c, Velocity(heading).0, Velocity(heading).1) == Some(ToLower(c))
  {
  }

  /** The move ends the game: the new head is off the grid or on a segment. */
  predicate Crashes(body: seq<Cell>, head: Cell) {
    !OnGrid(head) || head in body
  }

  /**
   * The body after a move to head: growing by one when the food is eaten
   * and fewer than 100 segments exist, otherwise keeping its length and
   * dropping the tail.
   */
  function Advanced(body: seq<Cell>, head: Cell, ate: bool): (r: seq<Cell>)
    requires 1 <= |body| <= MAX_LENGTH
    ensures 1 <= |r| <= MAX_LENGTH && r[0] == head && r[1..] <= body
    ensures |r| == if ate && |body| < MAX_LENGTH then |body| + 1 else |body|
  {
    if ate && |body| < MAX_LENGTH then [head] + body else [head] + body[..|body| - 1]
  }

  /** A move that does not crash keeps the snake well formed. */
  lemma AdvancedWellFormed(body: seq<Cell>, head: Cell, ate: bool)
    requires 1 <= |body| <= MAX_LENGTH && WellFormed(body)
    requires Adjacent(head, body[0]) && !Crashes(body, head)
    ensures WellFormed(Advanced(body, head, ate))
  {
    var r := Advanced(body, head, ate);
    assert forall i :: 1 <= i < |r| ==> r[i] == body[i - 1];
  }

  /**
   * The move as snake_game writes it: when a 100-segment snake eats, the
   * body is not shifted and the head is overwritten in place.
   */
  function AdvancedAsWritten(body: seq<Cell>, head: Cell, ate: bool): (r: seq<Cell>)
    requires 1 <= |body| <= MAX_LENGTH
    ensures |r| == |Advanced(body, head, ate)| && r[0] == head
  {
    if ate && |body| == MAX_LENGTH then [head] + body[1..] else Advanced(body, head, ate)
  }

  /** Two steps along a row or a column never end next to where they started. */
  lemma TwoStepsNotAdjacent(a: Cell, b: Cell, c: Cell)
    requires Adjacent(a, b) && Adjacent(b, c)
    ensures !Adjacent(a, c)
  {
  }

  /**
   * The as-written move tears a full snake apart: when a contiguous
   * 100-segment snake eats, the new head is two steps from the second
   * segment, so the body is no longer in one piece.
   */
  lemma FullSnakeTornAsWritten(body: seq<Cell>, head: Cell)
    requires |body| == MAX_LENGTH && Contiguous(body) && Adjacent(head, body[0])
    ensures !Contiguous(AdvancedAsWritten(body, head, true))
  {
    var r := AdvancedAsWritten(body, head, true);
    assert r[1] == body[1];
    TwoStepsNotAdjacent(head, body[0], body[1]);
  }

  /** A cell from two rand() values, as snake_game reduces them. */
  function FoodCell(draw: (nat, nat)): (c: Cell)
    ensures OnGrid(c)
  {
    Cell(draw.0 % SNAKE_WIDTH, draw.1 % SNAKE_HEIGHT)
  }

  /** The first drawn cell that no segment of body takes; None when every draw is taken. */
  function FirstFree(draws: seq<(nat, nat)>, body: seq<Cell>): (f: Option<Cell>)
    ensures f.Some? ==> OnGrid(f.value) && f.value !in body
    ensures f.Some? ==> exists k :: 0 <= k < |draws| && FoodCell(draws[k]) == f.value
    ensures f.None? <==> forall k :: 0 <= k < |draws| ==> FoodCell(draws[k]) in body
  {
    if draws == [] then None
    else if FoodCell(draws[0]) !in body then Some(FoodCell(draws[0]))
    else FirstFree(draws[1..], body)
  }

  /**
   * The food placement as snake_game writes it: the draws are checked
   * against the segments before the new head is stored, which still hold
   * the old head where the new one belongs.
   */
  function FoodAsWritten(draws: seq<(nat, nat)>, body: seq<Cell>): (f: Option<Cell>)
    requires 1 <= |body| < MAX_LENGTH
    ensures f.Some? ==> f.value !in body
  {
    FirstFree(draws, [body[0]] + body)
  }

  /**
   * The food can reappear under the head that just ate it: eating the food
   * at (11, 7) with the start snake, a first draw of (11, 7) is accepted.
   */
  lemma FoodUnderHeadAsWritten()
    ensures var body := [Cell(10, 7), Cell(9, 7), Cell(8, 7)];
      var head := Cell(11, 7);
      FoodAsWritten([(11, 7)], body) == Some(head) && head in Advanced(body, head, true)
  {
  }

  /** The delay between moves after one more segment: 5 ms less, never below 50 ms. */
  function Faster(interval: int): (r: int)
    requires MIN_INTERVAL <= interval
    ensures MIN_INTERVAL <= r <= interval
    ensures interval - 5 >= MIN_INTERVAL ==> r == interval - 5
  {
    if interval - 5 < MIN_INTERVAL then MIN_INTERVAL else interval - 5
  }

  class Game {
    /** snake[]: the segments, head first; only the first `length` are in use. */
    var body: array<Cell>
    var length: int
    var dx: int
    var dy: int
    var pending: char
    var score: int
    var moveInterval: int
    var food: Cell

    ghost function Body(): (b: seq<Cell>)
      reads this`body, this`length, body
      requires 0 <= length <= body.Length
    {
      body[..length]
    }

    /** The array has its 100 places and length counts some of them. */
    ghost predicate Sized()
      reads this
    {
      body.Length == MAX_LENGTH && 0 <= length <= MAX_LENGTH
    }

    ghost predicate Valid()
      reads this, body
    {
      Sized() && 3 <= length
      && pending in "wsad" && Abs(dx) + Abs(dy) == 1 && Velocity(pending) != (-dx, -dy)
      && body[0] == Cell(body[1].x + dx, body[1].y + dy)
      && WellFormed(Body())
      && MIN_INTERVAL <= moveInterval <= START_INTERVAL
      && score == 10 * (length - 3) && OnGrid(food)
    }

    /** Where the head goes on the next move. */
    ghost function NextHead(): Cell
      reads this, body
      requires Valid()
    {
      Cell(body[0].x + Velocity(pending).0, body[0].y + Velocity(pending).1)
    }

    /**
     * The start of snake_game: three segments from the middle of the grid
     * leftwards, moving right, 200 ms per move, food at the first draw (which
     * the start does not check against the snake).
     */
    constructor (draw: (nat, nat))
      ensures Valid() && fresh(body)
      ensures Body() == [Cell(10, 7), Cell(9, 7), Cell(8, 7)]
      ensures dx == 1 && dy == 0 && pending == 'd' && score == 0
      ensures moveInterval == START_INTERVAL && food == FoodCell(draw)
    {
      body := new Cell[MAX_LENGTH](_ => Cell(0, 0));
      new;
      body[0] := Cell(SNAKE_WIDTH / 2, SNAKE_HEIGHT / 2);
      body[1] := Cell(body[0].x - 1, body[0].y);
      body[2] := Cell(body[1].x - 1, body[1].y);
      length, dx, dy, pending, score := 3, 1, 0, 'd', 0;
      moveInterval, food := START_INTERVAL, FoodCell(draw);
      assert Body() == [Cell(10, 7), Cell(9, 7), Cell(8, 7)];
    }

    /** The head never turns into the segment behind it. */
    lemma NeverIntoNeck()
      requires Valid()
      ensures NextHead() != body[1] && Adjacent(NextHead(), body[0])
    {
    }

    /** A key between moves: a direction key sets the pending direction unless it reverses; q quits. */
    method Key(c: char) returns (quit: bool)
      requires Valid()
      modifies this
      ensures Valid() && body == old(body) && length == old(length)
      ensures pending == match KeyDirection(c, old(dx), old(dy)) case Some(p) => p case None => old(pending)
      ensures quit == (KeyDirection(c, old(dx), old(dy)).None? && (c == 'q' || c == 'Q'))
      ensures dx == old(dx) && dy == old(dy) && score == old(score)
      ensures moveInterval == old(moveInterval) && food == old(food)
    {
      var p := KeyDirection(c, dx, dy);
      quit := false;
      if p.Some? {
        pending := p.value;
      } else if c == 'q' || c == 'Q' {
        quit := true;
      }
    }

    /** The self-collision test: whether a segment takes the cell. */
    method OnBody(cell: Cell) returns (hit: bool)
      requires Sized()
      ensures hit == (cell in Body())
    {
      var i := 0;
      while i < length
        invariant 0 <= i <= length
        invariant cell !in body[..i]
      {
        if body[i] == cell {
          return true;
        }
        assert body[..i + 1] == body[..i] + [body[i]];
        i := i + 1;
      }
      assert body[..i] == Body();
      return false;
    }

    /** The food placement loop: the first draw that no segment takes. */
    method PlaceFood(draws: seq<(nat, nat)>) returns (f: Option<Cell>)
      requires Sized()
      ensures f == FirstFree(draws, Body())
    {
      var k := 0;
      while k < |draws|
        invariant 0 <= k <= |draws|
        invariant FirstFree(draws[k..], Body()) == FirstFree(draws, Body())
      {
        var cell := FoodCell(draws[k]);
        var taken := OnBody(cell);
        if !taken {
          return Some(cell);
        }
        assert draws[k..][1..] == draws[k + 1..];
        k := k + 1;
      }
      return None;
    }

    /**
     * Segments length - 1 .. 1 (or length .. 1 when growing) take the
     * place of the one before them.
     */
    method ShiftBody(n: int)
      requires 0 <= n < body.Length
      modifies body
      ensures body[..n + 1] == [old(body[0])] + old(body[..n])
      ensures body[n + 1..] == old(body[n + 1..])
    {
      var i := n;
      while i > 0
        invariant 0 <= i <= n
        invariant body[..i + 1] == old(body[..i + 1])
        invariant forall k :: i < k <= n ==> body[k] == old(body[k - 1])
        invariant body[n + 1..] == old(body[n + 1..])
      {
        body[i] := body[i - 1];
        i := i - 1;
      }
      assert forall k :: 0 <= k <= n ==> body[..n + 1][k] == ([old(body[0])] + old(body[..n]))[k];
    }

    /**
     * One move of snake_game, with the fixes of the full-snake move and of
     * the food placement applied: take the pending direction, stop on a
     * wall or the body, otherwise advance.
     */
    method Move(draws: seq<(nat, nat)>) returns (over: bool)
      requires Valid()
      modifies this, body
      ensures body == old(body) && dx == Velocity(old(pending)).0 && dy == Velocity(old(pending)).1
      ensures over == Crashes(old(Body()), old(NextHead()))
      ensures !over ==> Valid()
      ensures !over ==>
        var ate := old(NextHead()) == old(food);
        var grow := ate && old(length) < MAX_LENGTH;
        Body() == Advanced(old(Body()), old(NextHead()), ate)
        && score == old(score) + (if grow then 10 else 0)
        && moveInterval == (if grow then Faster(old(moveInterval)) else old(moveInterval))
        && food == (if !ate then old(food) else match FirstFree(draws, Body()) case Some(f) => f case None => old(food))
      ensures !over && old(NextHead()) == old(food) && FirstFree(draws, Body()).Some? ==> food !in Body()
      ensures over ==>
        unchanged(body) && length == old(length) && score == old(score)
        && moveInterval == old(moveInterval) && food == old(food) && pending == old(pending)
    {
      var v := Velocity(pending);
      var newHead := Cell(body[0].x + v.0, body[0].y + v.1);
      if newHead.x < 0 || newHead.x >= SNAKE_WIDTH || newHead.y < 0 || newHead.y >= SNAKE_HEIGHT {
        dx, dy := v.0, v.1;
        return true;
      }
      var hit := OnBody(newHead);
      if hit {
        dx, dy := v.0, v.1;
        return true;
      }
      Advance(draws);
      return false;
    }

    /**
     * The move once it is known not to crash: shift (growing on food while
     * below 100 segments, and shifting also when a full snake eats), store
     * the new head, and on food draw a new cell off the moved snake.
     */
    method Advance(draws: seq<(nat, nat)>)
      requires Valid() && !Crashes(Body(), NextHead())
      modifies this, body
      ensures body == old(body) && dx == Velocity(old(pending)).0 && dy == Velocity(old(pending)).1
      ensures Valid()
      ensures
        var ate := old(NextHead()) == old(food);
        var grow := ate && old(length) < MAX_LENGTH;
        Body() == Advanced(old(Body()), old(NextHead()), ate)
        && score == old(score) + (if grow then 10 else 0)
        && moveInterval == (if grow then Faster(old(moveInterval)) else old(moveInterval))
        && food == (if !ate then old(food) else match FirstFree(draws, Body()) case Some(f) => f case None => old(food))
    {
      var v := Velocity(pending);
      var ate := Cell(body[0].x + v.0, body[0].y + v.1) == food;
      MoveBody(ate);
      if ate {
        var f := PlaceFood(draws);
        if f.Some? {
          food := f.value;
        }
      }
    }

    /** The move without the food: shift or grow, store the head, score the growth. */
    method MoveBody(ate: bool)
      requires Valid() && !Crashes(Body(), NextHead()) && ate == (NextHead() == food)
      modifies this, body
      ensures body == old(body) && dx == Velocity(old(pending)).0 && dy == Velocity(old(pending)).1
      ensures Valid() && food == old(food)
      ensures
        var grow := ate && old(length) < MAX_LENGTH;
        Body() == Advanced(old(Body()), old(NextHead()), ate)
        && score == old(score) + (if grow then 10 else 0)
        && moveInterval == (if grow then Faster(old(moveInterval)) else old(moveInterval))
    {
      ghost var body0 := Body();
      ghost var head0 := NextHead();
      NeverIntoNeck();
      var v := Velocity(pending);
      var newHead := Cell(body[0].x + v.0, body[0].y + v.1);
      var grow := ate && length < MAX_LENGTH;
      Slide(newHead, grow);
      if grow {
        score := score + 10;
        moveInterval := Faster(moveInterval);
      }
      dx, dy := v.0, v.1;
      assert Body() == Advanced(body0, head0, ate);
      AdvancedWellFormed(body0, head0, ate);
      assert body[1] == body0[0];
    }

    /** The shift loops and the head store: the body moves one place to head, growing when asked. */
    method Slide(head: Cell, grow: bool)
      requires Sized() && 1 <= length && (grow ==> length < MAX_LENGTH)
      modifies this`length, body
      ensures Sized() && length == old(length) + (if grow then 1 else 0)
      ensures Body() == Advanced(old(Body()), head, grow)
    {
      ghost var body0 := Body();
      if grow {
        ShiftBody(length);
        length := length + 1;
      } else {
        ShiftBody(length - 1);
      }
      body[0] := head;
      assert Body() == [head] + body0[..length - 1];
    }
  }
}
