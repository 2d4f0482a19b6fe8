/** Falling-block engine: a 20 x 10 board of colour cells (0 = empty), seven
    tetromino kinds, collision, merge, line clearing, rotation, the timer-driven
    drop step and the key handler. */
module Tetris {

  const Width := 10
  const Height := 20

  /** A board row: 0 is an empty cell, any other value is an occupied colour. */
  type Row = seq<int>
  type Board = seq<Row>
  /** A piece shape: true marks an occupied cell of the bounding box. */
  type Shape = seq<seq<bool>>

  ghost predicate ValidRow(row: Row) {
    |row| == Width && forall c :: 0 <= c < |row| ==> row[c] >= 0
  }

  /** Exactly Height rows of Width non-negative cells. */
  ghost predicate ValidBoard(b: Board) {
    |b| == Height && forall r :: 0 <= r < |b| ==> ValidRow(b[r])
  }

  function EmptyRow(): (row: Row)
    ensures ValidRow(row) && forall c :: 0 <= c < |row| ==> row[c] == 0
  {
    seq(Width, _ => 0)
  }

  /** createEmptyBoard */
  function EmptyBoard(): (b: Board)
    ensures ValidBoard(b)
    ensures forall r, c :: 0 <= r < |b| && 0 <= c < |b[r]| ==> b[r][c] == 0
  {
    seq(Height, _ => EmptyRow())
  }

  // ---------------------------------------------------------------------------
  // Collision

  /** Board cell (px, py) cannot take a piece cell: off the sides, below the
      floor, or an occupied cell of the visible board. Rows above the board
      (py < 0) are only checked laterally. */
  predicate Blocked(b: Board, px: int, py: int)
    requires ValidBoard(b)
  {
    px < 0 || px >= Width || py >= Height || (py >= 0 && b[py][px] != 0)
  }

  /** Cell (r, c) of the shape is occupied and lands on a blocked board cell
      when the shape's top-left corner is at (x, y). */
  predicate Hits(shape: Shape, x: int, y: int, b: Board, r: int, c: int)
    requires ValidBoard(b)
  {
    0 <= r < |shape| && 0 <= c < |shape[r]| && shape[r][c] && Blocked(b, x + c, y + r)
  }

  /** The specification of checkCollision. */
  ghost predicate Collides(shape: Shape, x: int, y: int, b: Board)
    requires ValidBoard(b)
  {
    exists r, c :: Hits(shape, x, y, b, r, c)
  }

  /** checkCollision: nested loops with early return. */
  method CheckCollision(shape: Shape, x: int, y: int, b: Board) returns (hit: bool)
    requires ValidBoard(b)
    ensures hit <==> Collides(shape, x, y, b)
  {
    var row := 0;
    while row < |shape|
      invariant 0 <= row <= |shape|
      invariant forall r, c :: 0 <= r < row ==> !Hits(shape, x, y, b, r, c)
    {
      var col := 0;
      while col < |shape[row]|
        invariant 0 <= col <= |shape[row]|
        invariant forall r, c :: 0 <= r < row ==> !Hits(shape, x, y, b, r, c)
        invariant forall c :: c < col ==> !Hits(shape, x, y, b, row, c)
      {
        if shape[row][col] {
          var newX := x + col;
          var newY := y + row;
          if newX < 0 || newX >= Width || newY >= Height {
            assert Hits(shape, x, y, b, row, col);
            return true;
          }
          if newY >= 0 && b[newY][newX] != 0 {
            assert Hits(shape, x, y, b, row, col);
            return true;
          }
        }
        col := col + 1;
      }
      assert forall c :: !Hits(shape, x, y, b, row, c);
      row := row + 1;
    }
    return false;
  }

  /** Every occupied shape cell lies inside the board's columns and above its
      floor (the bounds half of the collision test). */
  ghost predicate Fits(shape: Shape, x: int, y: int) {
    forall r, c :: 0 <= r < |shape| && 0 <= c < |shape[r]| && shape[r][c] ==>
      0 <= x + c < Width && y + r < Height
  }

  lemma NoCollisionFits(shape: Shape, x: int, y: int, b: Board)
    requires ValidBoard(b) && !Collides(shape, x, y, b)
    ensures Fits(shape, x, y)
  {
    forall r, c | 0 <= r < |shape| && 0 <= c < |shape[r]| && shape[r][c]
      ensures 0 <= x + c < Width && y + r < Height
    {
      assert !Hits(shape, x, y, b, r, c);
    }
  }

  // ---------------------------------------------------------------------------
  // Merge

  /** Board cell (r, c) is covered by an occupied cell of the shape placed at (x, y). */
  predicate Covers(shape: Shape, x: int, y: int, r: int, c: int) {
    0 <= r - y < |shape| && 0 <= c - x < |shape[r - y]| && shape[r - y][c - x]
  }

  /** Covers, restricted to the shape cells a row-major scan has visited
      before reaching (row, col). */
  predicate CoveredBefore(shape: Shape, x: int, y: int, r: int, c: int, row: int, col: int) {
    Covers(shape, x, y, r, c) && (r - y < row || (r - y == row && c - x < col))
  }

  /** The specification of mergePieceToBoard: the colour at covered cells,
      the input everywhere else. */
  function Merged(shape: Shape, x: int, y: int, color: int, b: Board): Board
    requires ValidBoard(b)
  {
    seq(Height, r requires 0 <= r < Height =>
      seq(Width, c requires 0 <= c < Width =>
        if Covers(shape, x, y, r, c) then color else b[r][c]))
  }

  /** mergePieceToBoard: copies the board, then writes the colour into each
      occupied shape cell at a row >= 0. The input board is a value and is
      not changed. */
  method MergePiece(shape: Shape, x: int, y: int, color: int, b: Board) returns (nb: Board)
    requires ValidBoard(b) && Fits(shape, x, y) && color > 0
    ensures ValidBoard(nb)
    ensures forall r, c :: 0 <= r < Height && 0 <= c < Width ==>
      nb[r][c] == if Covers(shape, x, y, r, c) then color else b[r][c]
    ensures nb == Merged(shape, x, y, color, b)
  {
    nb := b;
    var row := 0;
    while row < |shape|
      invariant 0 <= row <= |shape|
      invariant ValidBoard(nb)
      invariant forall r, c :: 0 <= r < Height && 0 <= c < Width ==>
        nb[r][c] == if CoveredBefore(shape, x, y, r, c, row, 0) then color else b[r][c]
    {
      var col := 0;
      while col < |shape[row]|
        invariant 0 <= col <= |shape[row]|
        invariant ValidBoard(nb)
        invariant forall r, c :: 0 <= r < Height && 0 <= c < Width ==>
          nb[r][c] == if CoveredBefore(shape, x, y, r, c, row, col) then color else b[r][c]
      {
        if shape[row][col] {
          var boardY := y + row;
          var boardX := x + col;
          if boardY >= 0 {
            nb := nb[boardY := nb[boardY][boardX := color]];
          }
        }
        col := col + 1;
      }
      row := row + 1;
    }
    forall r | 0 <= r < Height
      ensures nb[r] == Merged(shape, x, y, color, b)[r]
    {
      assert forall c :: 0 <= c < Width ==> nb[r][c] == Merged(shape, x, y, color, b)[r][c];
    }
  }

  // ---------------------------------------------------------------------------
  // Line clearing

  /** A row in which every cell is occupied. */
  predicate Full(row: Row) {
    forall c :: 0 <= c < |row| ==> row[c] != 0
  }

  /** Number of full rows (the filter's linesCleared counter). */
  function FullRowCount(b: Board): nat {
    if b == [] then 0
    else FullRowCount(b[..|b| - 1]) + (if Full(b[|b| - 1]) then 1 else 0)
  }

  /** The rows the filter keeps, in their original order. */
  function NonFullRows(b: Board): Board {
    if b == [] then []
    else NonFullRows(b[..|b| - 1]) + (if Full(b[|b| - 1]) then [] else [b[|b| - 1]])
  }

  function EmptyRows(n: nat): (rows: Board)
    ensures |rows| == n && forall i :: 0 <= i < n ==> rows[i] == EmptyRow()
  {
    seq(n, _ => EmptyRow())
  }

  /** The specification of clearLines: one empty row on top per removed full row. */
  function Cleared(b: Board): Board {
    EmptyRows(FullRowCount(b)) + NonFullRows(b)
  }

  /** clearLines: filter out the full rows while counting them, then unshift
      empty rows until the board has Height rows again. */
  method ClearLines(b: Board) returns (cleared: Board, linesCleared: nat)
    requires ValidBoard(b)
    ensures linesCleared == FullRowCount(b)
    ensures cleared == Cleared(b)
    ensures ValidBoard(cleared)
  {
    linesCleared := 0;
    var kept: Board := [];
    var i := 0;
    while i < |b|
      invariant 0 <= i <= |b|
      invariant kept == NonFullRows(b[..i])
      invariant linesCleared == FullRowCount(b[..i])
    {
      assert b[..i + 1][..i] == b[..i];
      var isFull := Full(b[i]);
      if isFull {
        linesCleared := linesCleared + 1;
      } else {
        kept := kept + [b[i]];
      }
      i := i + 1;
    }
    assert b[..|b|] == b;
    CountPlusKept(b);
    cleared := kept;
    while |cleared| < Height
      invariant |kept| <= |cleared| <= Height
      invariant cleared == EmptyRows(|cleared| - |kept|) + kept
      decreases Height - |cleared|
    {
      cleared := [EmptyRow()] + cleared;
    }
    ClearedIsValid(b);
  }

  lemma {:induction false} CountPlusKept(b: Board)
    ensures FullRowCount(b) + |NonFullRows(b)| == |b|
  {
    if b != [] {
      CountPlusKept(b[..|b| - 1]);
    }
  }

  lemma {:induction false} KeptRowsFromBoard(b: Board)
    ensures forall i :: 0 <= i < |NonFullRows(b)| ==> NonFullRows(b)[i] in b && !Full(NonFullRows(b)[i])
  {
    if b != [] {
      var front := b[..|b| - 1];
      KeptRowsFromBoard(front);
      assert forall row :: row in front ==> row in b;
    }
  }

  /** The cleared board again has Height rows of Width cells. */
  lemma ClearedIsValid(b: Board)
    requires ValidBoard(b)
    ensures ValidBoard(Cleared(b))
  {
    CountPlusKept(b);
    KeptRowsFromBoard(b);
    var k := FullRowCount(b);
    var cl := Cleared(b);
    forall r | 0 <= r < |cl| ensures ValidRow(cl[r]) {
      if r >= k {
        assert cl[r] == NonFullRows(b)[r - k];
      }
    }
  }

  /** Line clearing in full: exactly Height rows; the top linesCleared rows
      are empty; below them the non-full rows in their original order; no
      full row survives. */
  lemma ClearLinesShape(b: Board)
    requires ValidBoard(b)
    ensures ValidBoard(Cleared(b))
    ensures forall r :: 0 <= r < FullRowCount(b) ==> Cleared(b)[r] == EmptyRow()
    ensures Cleared(b)[FullRowCount(b)..] == NonFullRows(b)
    ensures forall r :: FullRowCount(b) <= r < Height ==> !Full(Cleared(b)[r])
  {
    ClearedIsValid(b);
    KeptRowsFromBoard(b);
    CountPlusKept(b);
    var k := FullRowCount(b);
    forall r | k <= r < Height ensures !Full(Cleared(b)[r]) {
      assert Cleared(b)[r] == NonFullRows(b)[r - k];
    }
  }

  /** The filter keeps relative order: it distributes over concatenation. */
  lemma {:induction false} NonFullRowsAppend(b1: Board, b2: Board)
    ensures NonFullRows(b1 + b2) == NonFullRows(b1) + NonFullRows(b2)
    ensures FullRowCount(b1 + b2) == FullRowCount(b1) + FullRowCount(b2)
    decreases |b2|
  {
    if b2 == [] {
      assert b1 + b2 == b1;
    } else {
      var front := b2[..|b2| - 1];
      assert (b1 + b2)[..|b1 + b2| - 1] == b1 + front;
      NonFullRowsAppend(b1, front);
    }
  }

  /** No full row means nothing is cleared and the board is unchanged. */
  lemma {:induction false} NoFullRowsUnchanged(b: Board)
    requires forall i :: 0 <= i < |b| ==> !Full(b[i])
    ensures FullRowCount(b) == 0 && NonFullRows(b) == b && Cleared(b) == b
  {
    if b != [] {
      NoFullRowsUnchanged(b[..|b| - 1]);
      assert b[..|b| - 1] + [b[|b| - 1]] == b;
    }
  }

  /** A full row is always counted. */
  lemma {:induction false} FullRowIsCounted(b: Board, i: int)
    requires 0 <= i < |b| && Full(b[i])
    ensures FullRowCount(b) > 0
  {
    if i < |b| - 1 {
      FullRowIsCounted(b[..|b| - 1], i);
    }
  }

  // ---------------------------------------------------------------------------
  // Rotation

  /** Every row has the length of the first, which is not empty. */
  predicate Rectangular(s: Shape) {
    |s| > 0 && |s[0]| > 0 && forall i :: 0 <= i < |s| ==> |s[i]| == |s[0]|
  }

  /** Column i of a shape, read top to bottom. */
  function Column(s: Shape, i: nat): (col: seq<bool>)
    requires forall r :: 0 <= r < |s| ==> i < |s[r]|
    ensures |col| == |s|
  {
    if s == [] then [] else [s[0][i]] + Column(s[1..], i)
  }

  lemma {:induction false} ColumnCells(s: Shape, i: nat)
    requires forall r :: 0 <= r < |s| ==> i < |s[r]|
    ensures forall r :: 0 <= r < |s| ==> Column(s, i)[r] == s[r][i]
  {
    if s != [] {
      ColumnCells(s[1..], i);
      assert forall r :: 1 <= r < |s| ==> Column(s, i)[r] == Column(s[1..], i)[r - 1];
    }
  }

  /** A sequence in reverse order. */
  function Reverse<T>(q: seq<T>): (r: seq<T>)
    ensures |r| == |q|
  {
    if q == [] then [] else Reverse(q[1..]) + [q[0]]
  }

  lemma {:induction false} ReverseCells<T>(q: seq<T>)
    ensures forall k :: 0 <= k < |q| ==> Reverse(q)[k] == q[|q| - 1 - k]
  {
    if q != [] {
      ReverseCells(q[1..]);
    }
  }

  /** rotatePiece's matrix step: column i of the shape, reversed, becomes
      row i, so an h x w shape becomes w x h. */
  function Rotate(s: Shape): (r: Shape)
    requires Rectangular(s)
    ensures Rectangular(r) && |r| == |s[0]| && |r[0]| == |s|
  {
    seq(|s[0]|, i requires 0 <= i < |s[0]| => Reverse(Column(s, i)))
  }

  /** The result is the clockwise quarter turn: cell (i, j) of the rotated
      shape is cell (h-1-j, i) of the original. */
  lemma RotateCells(s: Shape)
    requires Rectangular(s)
    ensures forall i, j :: 0 <= i < |s[0]| && 0 <= j < |s| ==> Rotate(s)[i][j] == s[|s| - 1 - j][i]
  {
    forall i, j | 0 <= i < |s[0]| && 0 <= j < |s|
      ensures Rotate(s)[i][j] == s[|s| - 1 - j][i]
    {
      assert Rotate(s)[i] == Reverse(Column(s, i));
      ColumnCells(s, i);
      ReverseCells(Column(s, i));
    }
  }

  /** Four quarter turns give back the original shape. */
  lemma RotateFourTimes(s: Shape)
    requires Rectangular(s)
    ensures Rotate(Rotate(Rotate(Rotate(s)))) == s
  {
    var h, w := |s|, |s[0]|;
    var r1 := Rotate(s);
    var r2 := Rotate(r1);
    var r3 := Rotate(r2);
    var r4 := Rotate(r3);
    RotateCells(s);
    RotateCells(r1);
    RotateCells(r2);
    RotateCells(r3);
    assert |r4| == h;
    forall i | 0 <= i < h ensures r4[i] == s[i] {
      forall j | 0 <= j < w ensures r4[i][j] == s[i][j] {
        calc {
          r4[i][j];
          r3[w - 1 - j][i];
          r2[h - 1 - i][w - 1 - j];
          r1[w - 1 - (w - 1 - j)][h - 1 - i];
          s[h - 1 - (h - 1 - i)][j];
        }
      }
    }
  }

  /** A shape placed with its whole bounding box inside the board meets no
      occupied cell of an empty board. */
  lemma InsideEmptyBoardNoCollision(shape: Shape, x: int, y: int)
    requires Rectangular(shape)
    requires 0 <= x && x + |shape[0]| <= Width && 0 <= y && y + |shape| <= Height
    ensures !Collides(shape, x, y, EmptyBoard())
  {
    forall r, c ensures !Hits(shape, x, y, EmptyBoard(), r, c) {
      if 0 <= r < |shape| && 0 <= c < |shape[r]| {
        assert EmptyBoard()[y + r][x + c] == 0;
      }
    }
  }

  // ---------------------------------------------------------------------------
  // Tetrominoes

  datatype Kind = I | O | T | S | Z | J | L

  /** The random choice of randomTetromino, as an index into TETROMINOES'
      key order. */
  function KindAt(choice: nat): Kind
    requires choice < 7
  {
    [I, O, T, S, Z, J, L][choice]
  }

  /** Every kind is the pick of exactly one index. */
  lemma KindAtIsBijective(k: Kind)
    ensures exists choice :: 0 <= choice < 7 && KindAt(choice) == k
    ensures forall c1, c2 :: 0 <= c1 < 7 && 0 <= c2 < 7 && KindAt(c1) == KindAt(c2) ==> c1 == c2
  {
    assert KindAt(0) == I && KindAt(1) == O && KindAt(2) == T && KindAt(3) == S;
    assert KindAt(4) == Z && KindAt(5) == J && KindAt(6) == L;
  }

  /** The canonical shape of each kind in TETROMINOES. */
  function ShapeOf(k: Kind): (s: Shape)
    ensures Rectangular(s) && |s| <= 2 && |s[0]| <= 4
  {
    match k
    case I => [[true, true, true, true]]
    case O => [[true, true], [true, true]]
    case T => [[false, true, false], [true, true, true]]
    case S => [[false, true, true], [true, true, false]]
    case Z => [[true, true, false], [false, true, true]]
    case J => [[true, false, false], [true, true, true]]
    case L => [[false, false, true], [true, true, true]]
  }

  /** The colour of each kind in TETROMINOES (the hex literal as a number). */
  function ColorOf(k: Kind): (color: int)
    ensures color > 0
  {
    match k
    case I => 0x00F0F0
    case O => 0xF0F000
    case T => 0xA000F0
    case S => 0x00F000
    case Z => 0xF00000
    case J => 0x0000F0
    case L => 0xF0A000
  }

  /** A piece with its position folded in: (x, y) is the top-left corner of
      the shape's bounding box on the board. */
  datatype Piece = Piece(kind: Kind, shape: Shape, color: int, x: int, y: int)

  /** spawnPiece for a given kind: a valid piece of that kind in its
      canonical orientation on the top row, centred with any odd column of
      slack on its left, inside the board and clear of an empty board. */
  function Spawn(k: Kind): (p: Piece)
    ensures p.kind == k && p.shape == ShapeOf(k) && p.y == 0 && PieceOk(p)
    ensures 0 <= p.x - (Width - (p.x + |p.shape[0]|)) <= 1
    ensures Fits(p.shape, p.x, p.y) && !Collides(p.shape, p.x, p.y, EmptyBoard())
  {
    var s := ShapeOf(k);
    var x := Width / 2 - |s[0]| / 2;
    InsideEmptyBoardNoCollision(s, x, 0);
    NoCollisionFits(s, x, 0, EmptyBoard());
    Piece(k, s, ColorOf(k), x, 0)
  }

  /** spawnPiece with its random choice supplied by the caller: a valid piece
      of the chosen kind, inside the board and clear of an empty board. */
  function SpawnPiece(choice: nat): (p: Piece)
    requires choice < 7
    ensures p.kind == KindAt(choice) && p.y == 0 && PieceOk(p)
    ensures Fits(p.shape, p.x, p.y) && !Collides(p.shape, p.x, p.y, EmptyBoard())
  {
    Spawn(KindAt(choice))
  }

  /** The I piece spawns at column 3, every other kind at column 4, all on
      the top row. */
  lemma SpawnColumns(k: Kind)
    ensures Spawn(k).x == (if k == I then 3 else 4) && Spawn(k).y == 0
  {
  }

  /** The shape is one of the four quarter turns of its kind's canonical shape. */
  ghost predicate IsOrientation(k: Kind, s: Shape) {
    var s0 := ShapeOf(k);
    var s1 := Rotate(s0);
    var s2 := Rotate(s1);
    s == s0 || s == s1 || s == s2 || s == Rotate(s2)
  }

  /** rotatePiece: a quarter turn of the shape, which swaps its height and
      width; kind, colour and position stay, and a valid piece stays valid. */
  function RotatePiece(p: Piece): (q: Piece)
    requires Rectangular(p.shape)
    ensures q.kind == p.kind && q.color == p.color && q.x == p.x && q.y == p.y
    ensures Rectangular(q.shape) && |q.shape| == |p.shape[0]| && |q.shape[0]| == |p.shape|
    ensures PieceOk(p) ==> PieceOk(q)
  {
    RotatePieceOk(p);
    p.(shape := Rotate(p.shape))
  }

  lemma RotatePieceOk(p: Piece)
    requires Rectangular(p.shape)
    ensures PieceOk(p) ==> PieceOk(p.(shape := Rotate(p.shape)))
  {
    if PieceOk(p) {
      RotateKeepsOrientation(p.kind, p.shape);
    }
  }

  lemma RotatePieceFourTimes(p: Piece)
    requires Rectangular(p.shape)
    ensures RotatePiece(RotatePiece(RotatePiece(RotatePiece(p)))) == p
  {
    RotateFourTimes(p.shape);
  }

  /** A quarter turn keeps a piece among its kind's orientations. */
  lemma RotateKeepsOrientation(k: Kind, s: Shape)
    requires IsOrientation(k, s)
    ensures Rectangular(s) && IsOrientation(k, Rotate(s))
  {
    var s0 := ShapeOf(k);
    if s == Rotate(Rotate(Rotate(s0))) {
      RotateFourTimes(s0);
    }
  }

  ghost predicate PieceOk(p: Piece) {
    Rectangular(p.shape) && p.color == ColorOf(p.kind) && IsOrientation(p.kind, p.shape)
  }

  // ---------------------------------------------------------------------------
  // Game state and its transitions

  /** The engine's state slots: board, current and next piece (positions
      folded in), score, lines, level, pause and game-over flags. */
  datatype Game = Game(board: Board, current: Piece, next: Piece,
                       score: nat, lines: nat, level: nat,
                       paused: bool, over: bool)

  /** What every reachable state satisfies: a Height x Width board, a current
      piece in one of its kind's orientations whose cells are inside the
      board's columns and above its floor, a next piece fresh from spawn, and
      level == lines / 10 + 1. */
  ghost predicate WellFormed(g: Game) {
    && ValidBoard(g.board)
    && PieceOk(g.current)
    && Fits(g.current.shape, g.current.x, g.current.y)
    && g.next == Spawn(g.next.kind)
    && g.level == g.lines / 10 + 1
  }

  /** The current piece does not overlap the board. */
  ghost predicate PieceFree(g: Game)
    requires ValidBoard(g.board)
  {
    !Collides(g.current.shape, g.current.x, g.current.y, g.board)
  }

  /** restartGame (and the initial mount): empty board, zero score and
      lines, level 1, not paused, not over, two freshly spawned pieces. */
  function Restarted(firstChoice: nat, nextChoice: nat): (g: Game)
    requires firstChoice < 7 && nextChoice < 7
    ensures WellFormed(g) && PieceFree(g) && !g.over && !g.paused
    ensures g.board == EmptyBoard() && g.score == 0 && g.lines == 0 && g.level == 1
    ensures g.current == SpawnPiece(firstChoice) && g.next == SpawnPiece(nextChoice)
  {
    Game(EmptyBoard(), SpawnPiece(firstChoice), SpawnPiece(nextChoice), 0, 0, 1, false, false)
  }

  /** The board after the current piece is merged into it. */
  ghost function Landed(g: Game): Board
    requires ValidBoard(g.board)
  {
    Merged(g.current.shape, g.current.x, g.current.y, g.current.color, g.board)
  }

  /** Landing with the piece below the top row: the merged board with its
      full rows cleared; lines, level and score updated when rows were
      cleared (score with the new level); the next piece promoted; a fresh
      next piece. */
  ghost function Land(g: Game, choice: nat): Game
    requires ValidBoard(g.board) && choice < 7
  {
    var merged := Landed(g);
    var k := FullRowCount(merged);
    var g1 := if k > 0 then
                var newLines := g.lines + k;
                var newLevel := newLines / 10 + 1;
                g.(lines := newLines, level := newLevel, score := g.score + k * 100 * newLevel)
              else g;
    g1.(board := Cleared(merged), current := g.next, next := SpawnPiece(choice))
  }

  /** The timer-driven drop step. No-op while over or paused; soft fall when
      one row down is free; otherwise game over when the piece is still at or
      above the top row (the merged board is discarded), else landing. */
  ghost function Drop(g: Game, choice: nat): Game
    requires ValidBoard(g.board) && choice < 7
  {
    if g.over || g.paused then g
    else if !Collides(g.current.shape, g.current.x, g.current.y + 1, g.board) then
      g.(current := g.current.(y := g.current.y + 1))
    else if g.current.y <= 0 then g.(over := true)
    else Land(g, choice)
  }

  /** The three outcomes of an active drop step. */
  lemma DropOutcome(g: Game, choice: nat)
    requires ValidBoard(g.board) && choice < 7 && !g.over && !g.paused
    ensures !Collides(g.current.shape, g.current.x, g.current.y + 1, g.board) ==>
      Drop(g, choice) == g.(current := g.current.(y := g.current.y + 1))
    ensures Collides(g.current.shape, g.current.x, g.current.y + 1, g.board) && g.current.y <= 0 ==>
      Drop(g, choice) == g.(over := true)
    ensures Collides(g.current.shape, g.current.x, g.current.y + 1, g.board) && g.current.y > 0 ==>
      Drop(g, choice) == Land(g, choice)
  {
  }

  lemma MergedIsValid(g: Game)
    requires WellFormed(g)
    ensures ValidBoard(Landed(g))
  {
    var m := Landed(g);
    forall r | 0 <= r < Height ensures ValidRow(m[r]) {
    }
  }

  /** The drop step keeps the state well formed: the board keeps Height rows
      of Width cells and level stays lines / 10 + 1. */
  lemma DropKeepsWellFormed(g: Game, choice: nat)
    requires WellFormed(g) && choice < 7
    ensures WellFormed(Drop(g, choice))
  {
    var p := g.current;
    if !g.over && !g.paused {
      if !Collides(p.shape, p.x, p.y + 1, g.board) {
        NoCollisionFits(p.shape, p.x, p.y + 1, g.board);
      } else if p.y > 0 {
        MergedIsValid(g);
        ClearedIsValid(Landed(g));
      }
    }
  }

  /** Scoring on landing: k = the number of full rows of the merged board;
      lines grow by k, level is lines / 10 + 1 afterwards, and the score grows
      by k * 100 times the NEW level. With k = 0 nothing of the three changes.
      The board becomes the merged board with its full rows cleared, the next
      piece becomes current, a fresh piece becomes next, and the pause and
      game-over flags stay. */
  lemma LandScoring(g: Game, choice: nat)
    requires WellFormed(g) && choice < 7
    ensures var r := Land(g, choice);
      && r.board == Cleared(Landed(g)) && r.current == g.next && r.next == SpawnPiece(choice)
      && r.paused == g.paused && r.over == g.over
    ensures var k := FullRowCount(Landed(g));
      && Land(g, choice).lines == g.lines + k
      && Land(g, choice).level == Land(g, choice).lines / 10 + 1
      && Land(g, choice).score == g.score + k * 100 * Land(g, choice).level
      && (k == 0 ==> Land(g, choice).score == g.score && Land(g, choice).level == g.level)
  {
  }

  /** Clearing one row at 9 lines moves to level 2 and scores 200. */
  lemma ScoreUsesNewLevel(g: Game, choice: nat)
    requires WellFormed(g) && choice < 7
    requires g.lines == 9 && FullRowCount(Landed(g)) == 1
    ensures Land(g, choice).level == 2 && Land(g, choice).score == g.score + 200
  {
  }

  /** A landing that completes no row leaves the merged board as it is and
      only promotes the next piece. */
  lemma LandWithoutClear(g: Game, choice: nat)
    requires WellFormed(g) && choice < 7
    requires forall r :: 0 <= r < Height ==> !Full(Landed(g)[r])
    ensures Land(g, choice) == g.(board := Landed(g), current := g.next, next := SpawnPiece(choice))
  {
    MergedIsValid(g);
    NoFullRowsUnchanged(Landed(g));
  }

  /** An O piece resting on the floor of an empty board at column 4 lands
      into rows 18 and 19, columns 4 and 5, without clearing a row. */
  lemma OPieceLandsOnFloor(g: Game, choice: nat)
    requires WellFormed(g) && choice < 7 && !g.over && !g.paused
    requires g.board == EmptyBoard() && g.current == Spawn(O).(y := 18)
    ensures var r := Drop(g, choice);
      && r.lines == g.lines && r.score == g.score && r.level == g.level
      && r.current == g.next && r.next == SpawnPiece(choice)
      && ValidBoard(r.board)
      && forall row, col :: 0 <= row < Height && 0 <= col < Width ==>
           r.board[row][col] == if 18 <= row && 4 <= col <= 5 then ColorOf(O) else 0
  {
    var p := g.current;
    assert Hits(p.shape, p.x, p.y + 1, g.board, 1, 0);
    var m := Landed(g);
    forall row | 0 <= row < Height ensures !Full(m[row]) {
      assert m[row][0] == 0;
    }
    LandWithoutClear(g, choice);
    MergedIsValid(g);
  }

  /** Tetris key input. */
  datatype Key = Space | ArrowLeft | ArrowRight | ArrowDown | ArrowUp | Other

  /** The current piece moved by (dx, dy) if it does not collide there. */
  ghost function Shifted(g: Game, dx: int, dy: int): Game
    requires ValidBoard(g.board)
  {
    var p := g.current;
    if Collides(p.shape, p.x + dx, p.y + dy, g.board) then g
    else g.(current := p.(x := p.x + dx, y := p.y + dy))
  }

  /** The current piece rotated if the rotation does not collide. */
  ghost function Turned(g: Game): Game
    requires ValidBoard(g.board) && Rectangular(g.current.shape)
  {
    var q := RotatePiece(g.current);
    if Collides(q.shape, q.x, q.y, g.board) then g else g.(current := q)
  }

  /** handleKeyPress: nothing while over; space toggles pause first; nothing
      else while paused; arrows move or rotate only when the result does not
      collide. */
  ghost function KeyPress(g: Game, key: Key): Game
    requires ValidBoard(g.board) && Rectangular(g.current.shape)
  {
    if g.over then g
    else if key == Space then g.(paused := !g.paused)
    else if g.paused then g
    else match key
      case ArrowLeft => Shifted(g, -1, 0)
      case ArrowRight => Shifted(g, 1, 0)
      case ArrowDown => Shifted(g, 0, 1)
      case ArrowUp => Turned(g)
      case _ => g
  }

  lemma KeyPressKeepsWellFormed(g: Game, key: Key)
    requires WellFormed(g)
    ensures WellFormed(KeyPress(g, key))
  {
    var p := g.current;
    var r := KeyPress(g, key);
    if r.current != p {
      if key == ArrowUp {
        RotateKeepsOrientation(p.kind, p.shape);
      }
      NoCollisionFits(r.current.shape, r.current.x, r.current.y, g.board);
    }
  }

  /** A key press changes at most the pause flag or the current piece; a
      changed piece is an accepted move (position only, by one cell) or
      rotation (shape only) that does not collide; a request that would
      collide changes nothing. */
  lemma KeyPressEffect(g: Game, key: Key)
    requires WellFormed(g)
    ensures var r := KeyPress(g, key);
      && r.board == g.board && r.next == g.next && r.score == g.score
      && r.lines == g.lines && r.level == g.level && r.over == g.over
      && (r.paused != g.paused ==> !g.over && key == Space && r.current == g.current)
      && (r.current != g.current ==>
            && !g.over && !g.paused && key != Space
            && !Collides(r.current.shape, r.current.x, r.current.y, g.board)
            && r.current.kind == g.current.kind && r.current.color == g.current.color
            && (key == ArrowUp ==> r.current == RotatePiece(g.current))
            && (key == ArrowLeft ==> r.current == g.current.(x := g.current.x - 1))
            && (key == ArrowRight ==> r.current == g.current.(x := g.current.x + 1))
            && (key == ArrowDown ==> r.current == g.current.(y := g.current.y + 1))
            && (key.Other? ==> false))
  {
  }

  /** The converse of KeyPressEffect: while not over, space toggles pause;
      while also not paused, an arrow request whose target does not collide
      is applied, and nothing else changes. */
  lemma KeyPressAccepts(g: Game, key: Key)
    requires WellFormed(g) && !g.over
    ensures key == Space ==> KeyPress(g, key) == g.(paused := !g.paused)
    ensures var p := g.current;
      && (!g.paused && key == ArrowLeft && !Collides(p.shape, p.x - 1, p.y, g.board) ==>
            KeyPress(g, key) == g.(current := p.(x := p.x - 1)))
      && (!g.paused && key == ArrowRight && !Collides(p.shape, p.x + 1, p.y, g.board) ==>
            KeyPress(g, key) == g.(current := p.(x := p.x + 1)))
      && (!g.paused && key == ArrowDown && !Collides(p.shape, p.x, p.y + 1, g.board) ==>
            KeyPress(g, key) == g.(current := p.(y := p.y + 1)))
      && (!g.paused && key == ArrowUp && !Collides(Rotate(p.shape), p.x, p.y, g.board) ==>
            KeyPress(g, key) == g.(current := RotatePiece(p)))
  {
  }

  /** A requested move or rotation that would collide leaves the whole state
      unchanged. */
  lemma RejectedMoveUnchanged(g: Game, key: Key)
    requires WellFormed(g) && !g.over && !g.paused
    requires key == ArrowLeft ==> Collides(g.current.shape, g.current.x - 1, g.current.y, g.board)
    requires key == ArrowRight ==> Collides(g.current.shape, g.current.x + 1, g.current.y, g.board)
    requires key == ArrowDown ==> Collides(g.current.shape, g.current.x, g.current.y + 1, g.board)
    requires key == ArrowUp ==> Collides(Rotate(g.current.shape), g.current.x, g.current.y, g.board)
    requires key != Space
    ensures KeyPress(g, key) == g
  {
  }

  /** An accepted key press never makes the current piece overlap the board. */
  lemma KeyPressKeepsPieceFree(g: Game, key: Key)
    requires WellFormed(g) && PieceFree(g)
    ensures PieceFree(KeyPress(g, key))
  {
  }

  /** A soft fall never makes the current piece overlap the board. */
  lemma SoftFallKeepsPieceFree(g: Game, choice: nat)
    requires WellFormed(g) && PieceFree(g) && choice < 7
    requires !Collides(g.current.shape, g.current.x, g.current.y + 1, g.board)
    ensures PieceFree(Drop(g, choice))
  {
    if !g.over && !g.paused {
      DropOutcome(g, choice);
    }
  }

  // ---------------------------------------------------------------------------
  // The engine

  /** The Tetris component's state slots as one owned record. */
  class TetrisEngine {
    var board: Board
    var current: Piece
    var next: Piece
    var score: nat
    var lines: nat
    var level: nat
    var paused: bool
    var gameOver: bool

    function State(): Game
      reads this
    {
      Game(board, current, next, score, lines, level, paused, gameOver)
    }

    ghost predicate Valid()
      reads this
    {
      WellFormed(State())
    }

    /** Mount: the initial slots, then the spawn effect's two pieces. */
    constructor (firstChoice: nat, nextChoice: nat)
      requires firstChoice < 7 && nextChoice < 7
      ensures Valid() && State() == Restarted(firstChoice, nextChoice)
    {
      board := EmptyBoard();
      score, lines, level := 0, 0, 1;
      paused, gameOver := false, false;
      current := SpawnPiece(firstChoice);
      next := SpawnPiece(nextChoice);
    }

    /** restartGame. */
    method Restart(firstChoice: nat, nextChoice: nat)
      requires firstChoice < 7 && nextChoice < 7
      modifies this
      ensures Valid() && State() == Restarted(firstChoice, nextChoice)
    {
      board := EmptyBoard();
      score := 0;
      lines := 0;
      level := 1;
      gameOver := false;
      paused := false;
      current := SpawnPiece(firstChoice);
      next := SpawnPiece(nextChoice);
    }

    /** The drop step the timer runs; choice is the random pick for the new
        next piece. */
    method Tick(choice: nat)
      requires Valid() && choice < 7
      modifies this
      ensures Valid() && State() == Drop(old(State()), choice)
    {
      DropKeepsWellFormed(State(), choice);
      if gameOver || paused {
        return;
      }
      Advance(choice);
    }

    /** An active drop step: fall one row, end the game, or land. */
    method Advance(choice: nat)
      requires ValidBoard(board) && choice < 7 && !gameOver && !paused
      requires Fits(current.shape, current.x, current.y) && current.color > 0
      modifies this
      ensures State() == Drop(old(State()), choice)
    {
      ghost var g := State();
      DropOutcome(g, choice);
      var newY := current.y + 1;
      var blocked := CheckCollision(current.shape, current.x, newY, board);
      if !blocked {
        current := current.(y := newY);
        return;
      }
      var newBoard := MergePiece(current.shape, current.x, current.y, current.color, board);
      if current.y <= 0 {
        gameOver := true;
        return;
      }
      Settle(newBoard, choice);
    }

    /** The landing half of the drop step: clear the merged board, update
        lines, level and score, promote the next piece. */
    method Settle(newBoard: Board, choice: nat)
      requires ValidBoard(board) && choice < 7 && newBoard == Landed(State())
      requires ValidBoard(newBoard)
      modifies this
      ensures State() == Land(old(State()), choice)
    {
      var clearedBoard, linesCleared := ClearLines(newBoard);
      board := clearedBoard;
      if linesCleared > 0 {
        var newLines := lines + linesCleared;
        var newLevel := newLines / 10 + 1;
        level := newLevel;
        score := score + linesCleared * 100 * newLevel;
        lines := newLines;
      }
      current := next;
      next := SpawnPiece(choice);
    }

    /** handleKeyPress. */
    method HandleKey(key: Key)
      requires Valid()
      modifies this
      ensures Valid() && State() == KeyPress(old(State()), key)
    {
      KeyPressKeepsWellFormed(State(), key);
      if gameOver {
        return;
      }
      if key == Space {
        paused := !paused;
        return;
      }
      if paused {
        return;
      }
      match key {
        case ArrowLeft => TryShift(-1, 0);
        case ArrowRight => TryShift(1, 0);
        case ArrowDown => TryShift(0, 1);
        case ArrowUp =>
          var rotated := RotatePiece(current);
          var hit := CheckCollision(rotated.shape, rotated.x, rotated.y, board);
          if !hit {
            current := rotated;
          }
        case _ =>
      }
    }

    /** One arrow move: the shifted position is taken only if it does not
        collide. */
    method TryShift(dx: int, dy: int)
      requires ValidBoard(board)
      modifies this
      ensures State() == Shifted(old(State()), dx, dy)
    {
      var hit := CheckCollision(current.shape, current.x + dx, current.y + dy, board);
      if !hit {
        current := current.(x := current.x + dx, y := current.y + dy);
      }
    }

    /** The on-screen PAUSE button: toggles pause, also when the game is over. */
    method PressPause()
      requires Valid()
      modifies this
      ensures Valid() && State() == old(State()).(paused := !old(paused))
    {
      paused := !paused;
    }
  }
}
