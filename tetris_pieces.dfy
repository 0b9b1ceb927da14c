/** The playfield and the falling pieces of the falling-block game:
    board dimensions, cells, the seven piece templates, spawning and
    clockwise rotation (app/tetris/page.tsx). */
module TetrisPieces {

  const BoardWidth: int := 10
  const BoardHeight: int := 20

  /** A board cell: `null`, or the colour of the piece that landed there. */
  datatype Cell = Empty | Filled(color: string)

  type Row = seq<Cell>
  type Board = seq<Row>

  /** A shape matrix of 0/1 numbers; a non-zero entry is an occupied cell. */
  type Shape = seq<seq<int>>

  datatype Position = Position(x: int, y: int)

  /** The falling piece: its shape, its colour and the board coordinate of
      the top-left corner of its shape matrix. */
  datatype Piece = Piece(shape: Shape, color: string, position: Position)

  datatype Tetromino = I | J | L | O | S | T | Z

  /** A board of `BoardHeight` rows of `BoardWidth` cells each. */
  predicate ValidBoard(b: Board) {
    |b| == BoardHeight && forall y :: 0 <= y < |b| ==> |b[y]| == BoardWidth
  }

  function EmptyRow(): (r: Row)
    ensures |r| == BoardWidth && forall x :: 0 <= x < |r| ==> r[x] == Empty
  {
    seq(BoardWidth, _ => Empty)
  }

  /** `createEmptyBoard`: every cell of a full-size board is empty. */
  function EmptyBoard(): (b: Board)
    ensures ValidBoard(b)
    ensures forall y, x :: 0 <= y < BoardHeight && 0 <= x < BoardWidth ==> b[y][x] == Empty
  {
    seq(BoardHeight, _ => EmptyRow())
  }

  /** `shape[r][c]` exists and is occupied. */
  predicate Occupied(s: Shape, r: int, c: int) {
    0 <= r < |s| && 0 <= c < |s[r]| && s[r][c] != 0
  }

  /** A non-empty rectangular matrix: every row as long as the first. */
  predicate IsMatrix(s: Shape) {
    |s| > 0 && forall r :: 0 <= r < |s| ==> |s[r]| == |s[0]|
  }

  predicate IsSquare(s: Shape) {
    |s| > 0 && forall r :: 0 <= r < |s| ==> |s[r]| == |s|
  }

  predicate HasBlock(s: Shape) {
    exists r, c :: 0 <= r < |s| && 0 <= c < |s[r]| && s[r][c] != 0
  }

  /** What every piece in play satisfies: a square shape with at least one
      occupied cell. */
  predicate WellFormed(p: Piece) {
    IsSquare(p.shape) && HasBlock(p.shape)
  }

  /** The shape and colour of each template (`TETROMINOS`). */
  function TemplateShape(t: Tetromino): Shape {
    match t
    case I => [[0, 0, 0, 0], [1, 1, 1, 1], [0, 0, 0, 0], [0, 0, 0, 0]]
    case J => [[1, 0, 0], [1, 1, 1], [0, 0, 0]]
    case L => [[0, 0, 1], [1, 1, 1], [0, 0, 0]]
    case O => [[1, 1], [1, 1]]
    case S => [[0, 1, 1], [1, 1, 0], [0, 0, 0]]
    case T => [[0, 1, 0], [1, 1, 1], [0, 0, 0]]
    case Z => [[1, 1, 0], [0, 1, 1], [0, 0, 0]]
  }

  function TemplateColor(t: Tetromino): string {
    match t
    case I => "#00F0F0"
    case J => "#0000F0"
    case L => "#F0A000"
    case O => "#F0F000"
    case S => "#00F000"
    case T => "#A000F0"
    case Z => "#F00000"
  }

  /** `getRandomTetromino` for a given draw: the template, centred
      horizontally on the top row. */
  function Spawned(t: Tetromino): (p: Piece)
    ensures p.shape == TemplateShape(t) && p.color == TemplateColor(t)
    ensures p.position.y == 0
    ensures p.position.x == BoardWidth / 2 - |TemplateShape(t)[0]| / 2
    ensures WellFormed(p)
  {
    var s := TemplateShape(t);
    assert Occupied(s, 1, 1);
    Piece(s, TemplateColor(t), Position(BoardWidth / 2 - |s[0]| / 2, 0))
  }

  /** The spawn columns: the 4-wide bar starts at column 3, the 2-wide
      square and the 3-wide pieces at column 4. */
  lemma SpawnColumns(t: Tetromino)
    ensures Spawned(t).position.x == (if t == I then 3 else 4)
    ensures |TemplateShape(t)| == (if t == I then 4 else if t == O then 2 else 3)
  {
  }

  /** `shape.map(row => row[i])`: the `i`-th column, top to bottom. */
  function Column(s: Shape, i: int): (col: seq<int>)
    requires IsMatrix(s) && 0 <= i < |s[0]|
    ensures |col| == |s| && forall j :: 0 <= j < |s| ==> col[j] == s[j][i]
  {
    seq(|s|, j requires 0 <= j < |s| => s[j][i])
  }

  /** `xs.reverse()` */
  function Reverse(xs: seq<int>): (r: seq<int>)
    ensures |r| == |xs| && forall k :: 0 <= k < |xs| ==> r[k] == xs[|xs| - 1 - k]
  {
    seq(|xs|, k requires 0 <= k < |xs| => xs[|xs| - 1 - k])
  }

  /** `rotatePiece`'s matrix: row `i` of the result is column `i` of the
      input read bottom to top. */
  function RotateShape(s: Shape): (r: Shape)
    requires IsMatrix(s)
  {
    seq(|s[0]|, i requires 0 <= i < |s[0]| => Reverse(Column(s, i)))
  }

  /** Clockwise rotation: an m×n matrix becomes n×m with
      `r[i][j] == s[m-1-j][i]`, so a square stays a square of the same
      size. */
  lemma RotateShapeCells(s: Shape)
    requires IsMatrix(s)
    ensures var r := RotateShape(s);
      && |r| == |s[0]|
      && (forall i :: 0 <= i < |r| ==> |r[i]| == |s|)
      && (forall i, j :: 0 <= i < |r| && 0 <= j < |s| ==> r[i][j] == s[|s| - 1 - j][i])
  {
  }

  /** `rotatePiece`: the rotated shape, same colour, same position. */
  function RotatePiece(p: Piece): (q: Piece)
    requires IsMatrix(p.shape)
  {
    p.(shape := RotateShape(p.shape))
  }

  /** Rotation keeps a piece well formed: a square of the same size, and the
      occupied cell `(r, c)` moves to `(c, n-1-r)`. */
  lemma RotatePreservesWellFormed(p: Piece)
    requires WellFormed(p)
    ensures WellFormed(RotatePiece(p))
    ensures |RotatePiece(p).shape| == |p.shape|
    ensures RotatePiece(p).color == p.color && RotatePiece(p).position == p.position
  {
    var s := p.shape;
    var n := |s|;
    RotateShapeCells(s);
    var r0, c0 :| 0 <= r0 < n && 0 <= c0 < |s[r0]| && s[r0][c0] != 0;
    assert RotateShape(s)[c0][n - 1 - r0] == s[r0][c0];
  }

  /** `HalfTurn(h, s)`: `h` is the matrix `s` turned by 180 degrees. */
  ghost predicate HalfTurn(h: Shape, s: Shape)
    requires IsMatrix(s)
  {
    && |h| == |s|
    && (forall i :: 0 <= i < |h| ==> |h[i]| == |s[0]|)
    && (forall i, j :: 0 <= i < |s| && 0 <= j < |s[0]| ==> h[i][j] == s[|s| - 1 - i][|s[0]| - 1 - j])
  }

  /** Two rotations turn the matrix half way: `s[m-1-i][n-1-j]`. */
  lemma {:induction false} RotateTwice(s: Shape)
    requires IsMatrix(s) && |s[0]| > 0
    ensures IsMatrix(RotateShape(s)) && |RotateShape(s)[0]| > 0
    ensures HalfTurn(RotateShape(RotateShape(s)), s)
  {
    RotateShapeCells(s);
    RotateShapeCells(RotateShape(s));
  }

  /** Two half turns cancel. */
  lemma HalfTurnsCancel(s: Shape, h: Shape, f: Shape)
    requires IsMatrix(s) && IsMatrix(h)
    requires HalfTurn(h, s) && HalfTurn(f, h)
    ensures f == s
  {
    forall i | 0 <= i < |s|
      ensures f[i] == s[i]
    {
      forall j | 0 <= j < |s[0]|
        ensures f[i][j] == s[i][j]
      {
        assert f[i][j] == h[|s| - 1 - i][|s[0]| - 1 - j];
      }
    }
  }

  /** Four clockwise rotations give back the identical matrix. */
  lemma {:induction false} RotateFourTimes(s: Shape)
    requires IsMatrix(s) && |s[0]| > 0
    ensures IsMatrix(RotateShape(s))
    ensures IsMatrix(RotateShape(RotateShape(s)))
    ensures IsMatrix(RotateShape(RotateShape(RotateShape(s))))
    ensures RotateShape(RotateShape(RotateShape(RotateShape(s)))) == s
  {
    RotateTwice(s);
    var h := RotateShape(RotateShape(s));
    assert HalfTurn(h, s);
    assert IsMatrix(h) && |h[0]| > 0;
    RotateShapeCells(h);
    RotateTwice(h);
    var f := RotateShape(RotateShape(h));
    assert HalfTurn(f, h);
    HalfTurnsCancel(s, h, f);
  }

  /** Every template returns to itself after four rotations of the piece. */
  lemma TemplateRotationCycle(t: Tetromino)
    ensures var p := Spawned(t);
      RotatePiece(RotatePiece(RotatePiece(RotatePiece(p)))) == p
  {
    var p := Spawned(t);
    RotateFourTimes(p.shape);
  }
}
