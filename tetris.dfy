/**
 * The Tetris board of pico-shell-based-os: a 20 x 10 grid of ints (0 is an
 * empty cell, k+1 a block of a piece of type k) and a falling piece with a
 * 4 x 4 shape grid and a position. The board operations change the shape
 * and the board in place; their effect is stated on the grids read as
 * sequences of rows.
 */
module Tetris {
  import opened CText

  const WIDTH: int := 10
  const HEIGHT: int := 20
  /** Side of a piece's shape grid. */
  const SIDE: int := 4

  type Grid = seq<seq<int>>

  predicate IsGrid(g: Grid, h: int, w: int) {
    |g| == h && forall r :: 0 <= r < |g| ==> |g[r]| == w
  }

  predicate IsBoard(g: Grid) { IsGrid(g, HEIGHT, WIDTH) }
  predicate IsShape(g: Grid) { IsGrid(g, SIDE, SIDE) }

  /** The cells of a 2-D array, row by row. */
  ghost function GridOf(a: array2<int>): (g: Grid)
    reads a
    ensures IsGrid(g, a.Length0, a.Length1)
    ensures forall r, c :: 0 <= r < a.Length0 && 0 <= c < a.Length1 ==> g[r][c] == a[r, c]
  {
    seq(a.Length0, r requires 0 <= r < a.Length0 reads a => RowOf(a, r))
  }

  ghost function RowOf(a: array2<int>, r: int): (row: seq<int>)
    reads a
    requires 0 <= r < a.Length0
    ensures |row| == a.Length1 && forall c :: 0 <= c < a.Length1 ==> row[c] == a[r, c]
  {
    seq(a.Length1, c requires 0 <= c < a.Length1 reads a => a[r, c])
  }

  /** A grid that agrees with an array cell by cell is that array's grid. */
  lemma GridOfPointwise(a: array2<int>, g: Grid)
    requires IsGrid(g, a.Length0, a.Length1)
    requires forall r, c :: 0 <= r < a.Length0 && 0 <= c < a.Length1 ==> a[r, c] == g[r][c]
    ensures GridOf(a) == g
  {
    var h := GridOf(a);
    forall r | 0 <= r < |g|
      ensures h[r] == g[r]
    {
      assert |h[r]| == |g[r]|;
    }
  }

  // ----- The seven shapes -----

  /** tetris_shapes: I, O, T, S, Z, J and L, each in a 4 x 4 grid. */
  const SHAPES: seq<Grid> := [
    [[0,0,0,0], [1,1,1,1], [0,0,0,0], [0,0,0,0]],
    [[0,0,0,0], [0,1,1,0], [0,1,1,0], [0,0,0,0]],
    [[0,0,0,0], [1,1,1,0], [0,1,0,0], [0,0,0,0]],
    [[0,0,0,0], [0,1,1,0], [1,1,0,0], [0,0,0,0]],
    [[0,0,0,0], [1,1,0,0], [0,1,1,0], [0,0,0,0]],
    [[0,0,0,0], [1,1,1,0], [0,0,1,0], [0,0,0,0]],
    [[0,0,0,0], [1,1,1,0], [1,0,0,0], [0,0,0,0]]
  ]

  /** Where tetris_game places a new piece: column WIDTH / 2 - 2, row 0. */
  const SPAWN_X: int := WIDTH / 2 - 2

  // ----- Rotation -----

  /** The shape turned a quarter: cell (i, j) takes cell (3 - j, i). */
  function Rotated(s: Grid): (t: Grid)
    requires IsShape(s)
    ensures IsShape(t)
    ensures forall i, j :: 0 <= i < SIDE && 0 <= j < SIDE ==> t[j][3 - i] == s[i][j]
  {
    seq(SIDE, i requires 0 <= i < SIDE => seq(SIDE, j requires 0 <= j < SIDE => s[3 - j][i]))
  }

  /** Two quarter turns are a half turn: each cell goes to the opposite corner. */
  lemma RotatedTwice(s: Grid)
    requires IsShape(s)
    ensures forall i, j :: 0 <= i < SIDE && 0 <= j < SIDE ==> Rotated(Rotated(s))[i][j] == s[3 - i][3 - j]
  {
  }

  /** Four quarter turns give back the shape. */
  lemma FourRotations(s: Grid)
    requires IsShape(s)
    ensures Rotated(Rotated(Rotated(Rotated(s)))) == s
  {
    var h := Rotated(Rotated(s));
    RotatedTwice(s);
    RotatedTwice(h);
    var f := Rotated(Rotated(h));
    forall i | 0 <= i < SIDE
      ensures f[i] == s[i]
    {
      assert forall j :: 0 <= j < SIDE ==> f[i][j] == h[3 - i][3 - j] == s[i][j];
    }
  }

  // ----- Collision -----

  /** A board position a filled piece cell may not take: off the left, right or bottom edge, or on a block. */
  predicate Blocked(board: Grid, x: int, y: int)
    requires IsBoard(board)
  {
    x < 0 || x >= WIDTH || y >= HEIGHT || (y >= 0 && board[y][x] != 0)
  }

  /** Some filled cell of the shape, with its top-left corner at (x, y), is blocked. */
  predicate Collides(board: Grid, shape: Grid, x: int, y: int)
    requires IsBoard(board) && IsShape(shape)
  {
    exists i, j :: 0 <= i < SIDE && 0 <= j < SIDE && shape[i][j] != 0 && Blocked(board, x + j, y + i)
  }

  /**
   * A piece that does not collide lies between the side edges and above
   * the bottom, and each of its cells on the board is empty; rows above the
   * top are allowed.
   */
  lemma FreePlacement(board: Grid, shape: Grid, x: int, y: int, i: int, j: int)
    requires IsBoard(board) && IsShape(shape) && !Collides(board, shape, x, y)
    requires 0 <= i < SIDE && 0 <= j < SIDE && shape[i][j] != 0
    ensures 0 <= x + j < WIDTH && y + i < HEIGHT
    ensures y + i >= 0 ==> board[y + i][x + j] == 0
  {
    assert !Blocked(board, x + j, y + i);
  }

  /** A new piece of any type fits on an empty board. */
  lemma SpawnFitsEmptyBoard(k: int)
    requires 0 <= k < |SHAPES|
    ensures IsShape(SHAPES[k]) && !Collides(EmptyBoard(), SHAPES[k], SPAWN_X, 0)
  {
    var b := EmptyBoard();
    forall i, j | 0 <= i < SIDE && 0 <= j < SIDE && SHAPES[k][i][j] != 0
      ensures !Blocked(b, SPAWN_X + j, i)
    {
      assert 0 <= j < 3 || (j == 3 && k == 0);
    }
  }

  /** A row with no block. */
  function ZeroRow(): (row: seq<int>)
    ensures |row| == WIDTH && forall c :: 0 <= c < WIDTH ==> row[c] == 0
  {
    seq(WIDTH, _ => 0)
  }

  /** n rows with no block. */
  function Zeros(n: nat): (g: Grid)
    ensures IsGrid(g, n, WIDTH) && forall r :: 0 <= r < n ==> g[r] == ZeroRow()
  {
    seq(n, _ => ZeroRow())
  }

  /** The board tetris_game starts with. */
  function EmptyBoard(): (b: Grid)
    ensures IsBoard(b) && forall r, c :: 0 <= r < HEIGHT && 0 <= c < WIDTH ==> b[r][c] == 0
  {
    Zeros(HEIGHT)
  }

  // ----- Merge -----

  /** Board cell (r, c) is under a filled cell of the shape placed at (x, y). */
  predicate Covers(shape: Grid, x: int, y: int, r: int, c: int)
    requires IsShape(shape)
  {
    0 <= r - y < SIDE && 0 <= c - x < SIDE && shape[r - y][c - x] != 0
  }

  /** The board with the value v written into each board cell the shape covers. */
  function Merged(board: Grid, shape: Grid, x: int, y: int, v: int): (m: Grid)
    requires IsBoard(board) && IsShape(shape)
    ensures IsBoard(m)
  {
    seq(HEIGHT, r requires 0 <= r < HEIGHT =>
      seq(WIDTH, c requires 0 <= c < WIDTH => if Covers(shape, x, y, r, c) then v else board[r][c]))
  }

  /**
   * A landed piece blocks its own place: once merged with a non-zero value,
   * the same piece at the same position collides whenever one of its
   * filled cells is on the board.
   */
  lemma MergedBlocksItself(board: Grid, shape: Grid, x: int, y: int, v: int, i: int, j: int)
    requires IsBoard(board) && IsShape(shape) && v != 0
    requires 0 <= i < SIDE && 0 <= j < SIDE && shape[i][j] != 0
    requires 0 <= y + i < HEIGHT && 0 <= x + j < WIDTH
    ensures Collides(Merged(board, shape, x, y, v), shape, x, y)
  {
    var m := Merged(board, shape, x, y, v);
    assert Covers(shape, x, y, y + i, x + j);
    assert m[y + i][x + j] == v;
    assert Blocked(m, x + j, y + i);
  }

  /** Merging a piece where it does not collide overwrites no block. */
  lemma MergeOverwritesNothing(board: Grid, shape: Grid, x: int, y: int, v: int)
    requires IsBoard(board) && IsShape(shape) && !Collides(board, shape, x, y)
    ensures forall r, c :: 0 <= r < HEIGHT && 0 <= c < WIDTH && board[r][c] != 0 ==>
      Merged(board, shape, x, y, v)[r][c] == board[r][c]
  {
    forall r, c | 0 <= r < HEIGHT && 0 <= c < WIDTH && board[r][c] != 0
      ensures Merged(board, shape, x, y, v)[r][c] == board[r][c]
    {
      if Covers(shape, x, y, r, c) {
        FreePlacement(board, shape, x, y, r - y, c - x);
      }
    }
  }

  // ----- Clearing lines -----

  /** A row with a block in every cell. */
  predicate FullRow(row: seq<int>) {
    forall c :: 0 <= c < |row| ==> row[c] != 0
  }

  /** The rows that are not full, in their order. */
  function Kept(rows: Grid): (k: Grid)
    ensures |k| <= |rows|
    ensures forall r :: 0 <= r < |k| ==> !FullRow(k[r]) && k[r] in rows
  {
    if rows == [] then []
    else (if FullRow(rows[0]) then [] else [rows[0]]) + Kept(rows[1..])
  }

  /** The number of full rows. */
  function FullCount(rows: Grid): (n: nat)
    ensures n + |Kept(rows)| == |rows|
  {
    if rows == [] then 0
    else (if FullRow(rows[0]) then 1 else 0) + FullCount(rows[1..])
  }

  /** The board clear_lines leaves: the full rows removed, empty rows added on top. */
  function Cleared(board: Grid): (g: Grid)
    requires IsBoard(board)
    ensures |g| == HEIGHT
  {
    Zeros(FullCount(board)) + Kept(board)
  }

  /** Rows in a board are WIDTH long. */
  lemma KeptWidth(rows: Grid)
    requires forall r :: 0 <= r < |rows| ==> |rows[r]| == WIDTH
    ensures forall r :: 0 <= r < |Kept(rows)| ==> |Kept(rows)[r]| == WIDTH
  {
  }

  /**
   * After clear_lines no row is full, the rows that were not full keep
   * their order at the bottom, and as many empty rows as were removed are
   * on top.
   */
  lemma ClearedBoard(board: Grid)
    requires IsBoard(board)
    ensures IsBoard(Cleared(board))
    ensures forall r :: 0 <= r < HEIGHT ==> !FullRow(Cleared(board)[r])
    ensures Cleared(board)[..FullCount(board)] == Zeros(FullCount(board))
    ensures Cleared(board)[FullCount(board)..] == Kept(board)
  {
    var n := FullCount(board);
    var g := Cleared(board);
    KeptWidth(board);
    forall r | 0 <= r < HEIGHT
      ensures !FullRow(g[r])
    {
      if r < n {
        assert g[r] == ZeroRow() && g[r][0] == 0;
      } else {
        assert g[r] == Kept(board)[r - n];
      }
    }
  }

  lemma {:induction false} NothingFullKeepsAll(rows: Grid)
    requires forall r :: 0 <= r < |rows| ==> !FullRow(rows[r])
    ensures Kept(rows) == rows && FullCount(rows) == 0
  {
    if rows != [] {
      NothingFullKeepsAll(rows[1..]);
    }
  }

  /** Clearing a cleared board changes nothing. */
  lemma ClearTwice(board: Grid)
    requires IsBoard(board)
    ensures FullCount(Cleared(board)) == 0 && Cleared(Cleared(board)) == Cleared(board)
  {
    ClearedBoard(board);
    NothingFullKeepsAll(Cleared(board));
  }

  // ----- Scoring -----

  /**
   * drop_interval as written: 1000 - (level - 1) * 100 stored in a uint32_t
   * and raised to 100 when below 100.
   */
  function DropIntervalAsWritten(level: int): (d: nat)
    ensures d >= 100 && d < UINT32_MOD
  {
    var wrapped := (1000 - (level - 1) * 100) % UINT32_MOD;
    if wrapped < 100 then 100 else wrapped
  }

  /**
   * From level 12 on the difference is negative and wraps to a huge
   * interval: the automatic drop stops instead of staying at 100 ms.
   */
  lemma DropStallsAtLevel12()
    ensures DropIntervalAsWritten(11) == 100
    ensures DropIntervalAsWritten(12) == 4294967196
  {
  }

  /** The drop interval: 1000 ms at level 1, 100 ms less per level, never below 100 ms. */
  function DropInterval(level: int): (d: nat)
    requires level >= 1
    ensures 100 <= d <= 1000
    ensures d == if level <= 10 then 1100 - level * 100 else 100
  {
    var v := 1000 - (level - 1) * 100;
    if v < 100 then 100 else v
  }

  /** The two agree until the difference turns negative. */
  lemma DropIntervalAgrees(level: int)
    requires 1 <= level <= 11
    ensures DropIntervalAsWritten(level) == DropInterval(level)
  {
  }

  /** Faster levels never drop more slowly. */
  lemma DropIntervalMonotone(a: int, b: int)
    requires 1 <= a <= b
    ensures DropInterval(b) <= DropInterval(a)
  {
  }

  /** Score, level, lines cleared and drop interval of a game. */
  datatype Progress = Progress(score: int, level: int, lines: nat, dropInterval: nat)

  const START: Progress := Progress(0, 1, 0, 1000)

  /** The level and drop interval follow the number of cleared lines. */
  predicate Consistent(p: Progress) {
    p.level == 1 + p.lines / 10 && p.dropInterval == DropInterval(p.level)
  }

  /**
   * The bookkeeping after a piece lands and clear_lines removed `cleared`
   * rows: the square of the count times 100 points, a level per ten lines.
   */
  function Landed(p: Progress, cleared: nat): (q: Progress)
    ensures q.lines == p.lines + cleared && q.score == p.score + cleared * cleared * 100
    ensures Consistent(p) ==> Consistent(q)
  {
    if cleared > 0 then
      var lines := p.lines + cleared;
      var level := 1 + lines / 10;
      Progress(p.score + cleared * cleared * 100, level, lines, DropInterval(level))
    else p
  }

  lemma StartConsistent()
    ensures Consistent(START)
  {
  }

  // ----- The in-place operations -----

  /** TetrisPiece: the shape grid, the position of its top-left corner and the type. */
  class Piece {
    var shape: array2<int>
    var x: int
    var y: int
    var kind: int

    ghost predicate Valid()
      reads this
    {
      shape.Length0 == SIDE && shape.Length1 == SIDE
    }

    /** A new piece: the shape of type k copied in at the spawn position. */
    constructor (k: int)
      requires 0 <= k < |SHAPES|
      ensures Valid() && fresh(shape) && GridOf(shape) == SHAPES[k]
      ensures x == SPAWN_X && y == 0 && kind == k
    {
      var s := new int[SIDE, SIDE];
      var i := 0;
      while i < SIDE
        invariant 0 <= i <= SIDE
        invariant forall r, c :: 0 <= r < i && 0 <= c < SIDE ==> s[r, c] == SHAPES[k][r][c]
      {
        var j := 0;
        while j < SIDE
          invariant 0 <= j <= SIDE
          invariant forall r, c :: 0 <= r < i && 0 <= c < SIDE ==> s[r, c] == SHAPES[k][r][c]
          invariant forall c :: 0 <= c < j ==> s[i, c] == SHAPES[k][i][c]
        {
          s[i, j] := SHAPES[k][i][j];
          j := j + 1;
        }
        i := i + 1;
      }
      GridOfPointwise(s, SHAPES[k]);
      shape, x, y, kind := s, SPAWN_X, 0, k;
    }
  }

  /** rotate_piece: the shape turns a quarter through a temporary grid. */
  method RotatePiece(piece: Piece)
    requires piece.Valid()
    modifies piece.shape
    ensures GridOf(piece.shape) == Rotated(old(GridOf(piece.shape)))
  {
    ghost var s0 := GridOf(piece.shape);
    var temp := new int[SIDE, SIDE];
    var i := 0;
    while i < SIDE
      invariant 0 <= i <= SIDE
      invariant forall r, c :: 0 <= r < SIDE && 0 <= c < SIDE ==> piece.shape[r, c] == s0[r][c]
      invariant forall r, c :: 0 <= r < i && 0 <= c < SIDE ==> temp[r, c] == s0[3 - c][r]
    {
      var j := 0;
      while j < SIDE
        invariant 0 <= j <= SIDE
        invariant forall r, c :: 0 <= r < SIDE && 0 <= c < SIDE ==> piece.shape[r, c] == s0[r][c]
        invariant forall r, c :: 0 <= r < i && 0 <= c < SIDE ==> temp[r, c] == s0[3 - c][r]
        invariant forall c :: 0 <= c < j ==> temp[i, c] == s0[3 - c][i]
      {
        temp[i, j] := piece.shape[3 - j, i];
        j := j + 1;
      }
      i := i + 1;
    }
    CopyGrid(temp, piece.shape);
    GridOfPointwise(piece.shape, Rotated(s0));
  }

  /** The memcpy of a grid into another of the same size. */
  method CopyGrid(src: array2<int>, dst: array2<int>)
    requires src != dst && src.Length0 == dst.Length0 && src.Length1 == dst.Length1
    modifies dst
    ensures forall r, c :: 0 <= r < dst.Length0 && 0 <= c < dst.Length1 ==> dst[r, c] == src[r, c]
  {
    var i := 0;
    while i < dst.Length0
      invariant 0 <= i <= dst.Length0
      invariant forall r, c :: 0 <= r < i && 0 <= c < dst.Length1 ==> dst[r, c] == src[r, c]
    {
      var j := 0;
      while j < dst.Length1
        invariant 0 <= j <= dst.Length1
        invariant forall r, c :: 0 <= r < i && 0 <= c < dst.Length1 ==> dst[r, c] == src[r, c]
        invariant forall c :: 0 <= c < j ==> dst[i, c] == src[i, c]
      {
        dst[i, j] := src[i, j];
        j := j + 1;
      }
      i := i + 1;
    }
  }

  /** check_collision: whether the piece moved by (dx, dy) collides. */
  method CheckCollision(board: array2<int>, piece: Piece, dx: int, dy: int) returns (hit: bool)
    requires board.Length0 == HEIGHT && board.Length1 == WIDTH && piece.Valid()
    ensures hit == Collides(GridOf(board), GridOf(piece.shape), piece.x + dx, piece.y + dy)
  {
    ghost var g := GridOf(board);
    ghost var s := GridOf(piece.shape);
    var i := 0;
    while i < SIDE
      invariant 0 <= i <= SIDE
      invariant forall a, b :: 0 <= a < i && 0 <= b < SIDE && s[a][b] != 0 ==>
        !Blocked(g, piece.x + dx + b, piece.y + dy + a)
    {
      var j := 0;
      while j < SIDE
        invariant 0 <= j <= SIDE
        invariant forall a, b :: 0 <= a < i && 0 <= b < SIDE && s[a][b] != 0 ==>
          !Blocked(g, piece.x + dx + b, piece.y + dy + a)
        invariant forall b :: 0 <= b < j && s[i][b] != 0 ==> !Blocked(g, piece.x + dx + b, piece.y + dy + i)
      {
        if piece.shape[i, j] != 0 {
          var newX := piece.x + j + dx;
          var newY := piece.y + i + dy;
          if newX < 0 || newX >= WIDTH || newY >= HEIGHT {
            assert Blocked(g, piece.x + dx + j, piece.y + dy + i);
            return true;
          }
          if newY >= 0 && board[newY, newX] != 0 {
            assert Blocked(g, piece.x + dx + j, piece.y + dy + i);
            return true;
          }
        }
        j := j + 1;
      }
      i := i + 1;
    }
    return false;
  }

  /** merge_piece: type + 1 goes into every board cell under a filled cell of the piece. */
  method MergePiece(board: array2<int>, piece: Piece)
    requires board.Length0 == HEIGHT && board.Length1 == WIDTH && piece.Valid()
    modifies board
    ensures GridOf(board) == Merged(old(GridOf(board)), GridOf(piece.shape), piece.x, piece.y, piece.kind + 1)
  {
    ghost var g := GridOf(board);
    ghost var s := GridOf(piece.shape);
    var v := piece.kind + 1;
    var i := 0;
    while i < SIDE
      invariant 0 <= i <= SIDE && GridOf(piece.shape) == s
      invariant forall r, c :: 0 <= r < HEIGHT && 0 <= c < WIDTH ==>
        board[r, c] == if Covers(s, piece.x, piece.y, r, c) && r - piece.y < i then v else g[r][c]
    {
      var j := 0;
      while j < SIDE
        invariant 0 <= j <= SIDE && GridOf(piece.shape) == s
        invariant forall r, c :: 0 <= r < HEIGHT && 0 <= c < WIDTH ==>
          board[r, c] == if Covers(s, piece.x, piece.y, r, c) && (r - piece.y < i || (r - piece.y == i && c - piece.x < j))
            then v else g[r][c]
      {
        if piece.shape[i, j] != 0 {
          var x := piece.x + j;
          var y := piece.y + i;
          if y >= 0 && y < HEIGHT && x >= 0 && x < WIDTH {
            board[y, x] := v;
          }
        }
        j := j + 1;
      }
      i := i + 1;
    }
    GridOfPointwise(board, Merged(g, s, piece.x, piece.y, v));
  }

  /** The full-row test of clear_lines for row i. */
  method RowFull(board: array2<int>, i: int) returns (full: bool)
    requires 0 <= i < board.Length0
    ensures full == FullRow(GridOf(board)[i])
  {
    full := true;
    var j := 0;
    while j < board.Length1
      invariant 0 <= j <= board.Length1
      invariant forall c :: 0 <= c < j ==> board[i, c] != 0
    {
      if board[i, j] == 0 {
        full := false;
        break;
      }
      j := j + 1;
    }
  }

  /** Copy row `from` over row `to` (one memcpy of a board row). */
  method CopyRow(board: array2<int>, from: int, to: int)
    requires 0 <= from < board.Length0 && 0 <= to < board.Length0
    modifies board
    ensures forall r, c :: 0 <= r < board.Length0 && 0 <= c < board.Length1 ==>
      board[r, c] == if r == to then old(board[from, c]) else old(board[r, c])
  {
    var j := 0;
    while j < board.Length1
      invariant 0 <= j <= board.Length1
      invariant forall r, c :: 0 <= r < board.Length0 && 0 <= c < board.Length1 ==>
        board[r, c] == if r == to && c < j then old(board[from, c]) else old(board[r, c])
    {
      board[to, j] := board[from, j];
      j := j + 1;
    }
  }

  /** Remove row i: the rows above move down one and an empty row comes in on top. */
  method RemoveRow(board: array2<int>, i: int)
    requires board.Length0 == HEIGHT && board.Length1 == WIDTH && 0 <= i < HEIGHT
    modifies board
    ensures GridOf(board) == [ZeroRow()] + old(GridOf(board))[..i] + old(GridOf(board))[i + 1..]
  {
    ghost var g := GridOf(board);
    var k := i;
    while k > 0
      invariant 0 <= k <= i
      invariant forall r, c :: 0 <= r < HEIGHT && 0 <= c < WIDTH ==>
        board[r, c] == if k < r <= i then g[r - 1][c] else g[r][c]
    {
      CopyRow(board, k - 1, k);
      k := k - 1;
    }
    var j := 0;
    while j < WIDTH
      invariant 0 <= j <= WIDTH
      invariant forall r, c :: 0 <= r < HEIGHT && 0 <= c < WIDTH ==>
        board[r, c] == if r == 0 && c < j then 0 else if 0 < r <= i then g[r - 1][c] else g[r][c]
    {
      board[0, j] := 0;
      j := j + 1;
    }
    ghost var e := [ZeroRow()] + g[..i] + g[i + 1..];
    assert forall r :: 0 <= r < HEIGHT ==> e[r] == if r == 0 then ZeroRow() else if r <= i then g[r - 1] else g[r];
    GridOfPointwise(board, e);
  }

  /**
   * clear_lines: scan from the bottom row up; a full row is removed and
   * the same row index is scanned again. Returns the number removed.
   */
  method ClearLines(board: array2<int>) returns (linesCleared: int)
    requires board.Length0 == HEIGHT && board.Length1 == WIDTH
    modifies board
    ensures linesCleared == FullCount(old(GridOf(board)))
    ensures GridOf(board) == Cleared(old(GridOf(board)))
  {
    ghost var g0 := GridOf(board);
    ghost var p := HEIGHT;
    linesCleared := 0;
    var i := HEIGHT - 1;
    assert g0[p..] == [] && Zeros(0) + g0[..p] + [] == g0;
    while i >= 0
      invariant 0 <= p <= HEIGHT && -1 <= i && linesCleared >= 0
      invariant p > 0 ==> i == linesCleared + p - 1
      invariant p == 0 ==> i < linesCleared
      invariant linesCleared == FullCount(g0[p..])
      invariant GridOf(board) == Scanned(g0, linesCleared, p)
      decreases i + p
    {
      var full := RowFull(board, i);
      ScannedRow(g0, linesCleared, p, i);
      if full {
        assert p > 0 && i == linesCleared + p - 1;
        ghost var g := GridOf(board);
        RemoveRow(board, i);
        RemoveStep(g0, linesCleared, p);
        assert GridOf(board) == [ZeroRow()] + g[..linesCleared + p - 1] + g[linesCleared + p..];
        linesCleared := linesCleared + 1;
        p := p - 1;
      } else {
        if p > 0 {
          KeepStep(g0, linesCleared, p);
          p := p - 1;
        }
        i := i - 1;
      }
    }
    assert p == 0 && g0[..0] == [] && g0[0..] == g0;
  }

  /**
   * The board part-way through clear_lines: n empty rows on top, the
   * first p rows of the original board not yet scanned, and the rows
   * already scanned without the full ones.
   */
  ghost function Scanned(g0: Grid, n: nat, p: int): (g: Grid)
    requires IsBoard(g0) && 0 <= p <= HEIGHT
  {
    Zeros(n) + g0[..p] + Kept(g0[p..])
  }

  /** The row clear_lines tests next: an unscanned original row, or an empty one once all are scanned. */
  lemma ScannedRow(g0: Grid, n: nat, p: int, i: int)
    requires IsBoard(g0) && 0 <= p <= HEIGHT && 0 <= i
    requires p > 0 ==> i == n + p - 1
    requires p == 0 ==> i < n
    ensures p > 0 ==> Scanned(g0, n, p)[i] == g0[p - 1]
    ensures p == 0 ==> !FullRow(Scanned(g0, n, p)[i])
  {
    var g := Scanned(g0, n, p);
    if p == 0 {
      assert g[i] == ZeroRow() && ZeroRow()[0] == 0;
    }
  }

  /** Removing the full row just scanned adds an empty row on top. */
  lemma RemoveStep(g0: Grid, n: nat, p: int)
    requires IsBoard(g0) && 0 < p <= HEIGHT && FullRow(g0[p - 1])
    requires n == FullCount(g0[p..])
    ensures n + 1 == FullCount(g0[p - 1..])
    ensures var g := Scanned(g0, n, p);
      n + p - 1 <= |g| &&
      [ZeroRow()] + g[..n + p - 1] + g[n + p..] == Scanned(g0, n + 1, p - 1)
  {
    var g := Scanned(g0, n, p);
    var tail := g0[p - 1..];
    assert tail[0] == g0[p - 1] && tail[1..] == g0[p..];
    assert Kept(tail) == Kept(g0[p..]);
    var top := Zeros(n) + g0[..p];
    assert g == top + Kept(g0[p..]) && |top| == n + p;
    assert g[..n + p - 1] == top[..n + p - 1] == Zeros(n) + g0[..p - 1];
    assert g[n + p..] == Kept(g0[p..]);
    assert [ZeroRow()] + Zeros(n) == Zeros(n + 1);
  }

  /** A row that is not full stays where it is and counts as scanned. */
  lemma KeepStep(g0: Grid, n: nat, p: int)
    requires IsBoard(g0) && 0 < p <= HEIGHT && !FullRow(g0[p - 1])
    requires n == FullCount(g0[p..])
    ensures n == FullCount(g0[p - 1..])
    ensures Scanned(g0, n, p) == Scanned(g0, n, p - 1)
  {
    var tail := g0[p - 1..];
    assert tail[0] == g0[p - 1] && tail[1..] == g0[p..];
    assert Kept(tail) == [g0[p - 1]] + Kept(g0[p..]);
    assert g0[..p] == g0[..p - 1] + [g0[p - 1]];
  }
}
