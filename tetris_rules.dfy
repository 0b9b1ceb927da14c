/** Collision test, merging a landed piece and clearing full rows
    (`checkCollision`, `mergePieceToBoard`, `clearLines` in
    app/tetris/page.tsx). Each is specified by a function and computed by a
    method with the source's loops. */
module TetrisRules {
  import opened TetrisPieces

  /** The board coordinate `(x, y)` cannot take an occupied piece cell:
      outside the side walls, below the floor, or a filled cell. A
      coordinate above the top row is blocked only by the side walls. */
  predicate Blocked(b: Board, x: int, y: int)
    requires ValidBoard(b)
  {
    x < 0 || x >= BoardWidth || y >= BoardHeight || (y >= 0 && b[y][x] != Empty)
  }

  /** `checkCollision(board, piece, {x: dx, y: dy})`: some occupied cell of
      the shape, moved by the offset, lands on a blocked coordinate. */
  predicate Collides(b: Board, p: Piece, dx: int, dy: int)
    requires ValidBoard(b)
  {
    exists r, c :: 0 <= r < |p.shape| && 0 <= c < |p.shape[r]| && p.shape[r][c] != 0
      && Blocked(b, p.position.x + c + dx, p.position.y + r + dy)
  }

  /** The piece moved by an offset (`{...piece, position: ...}`). */
  function Shifted(p: Piece, dx: int, dy: int): (q: Piece)
    ensures q.shape == p.shape && q.color == p.color
    ensures q.position == Position(p.position.x + dx, p.position.y + dy)
  {
    p.(position := Position(p.position.x + dx, p.position.y + dy))
  }

  /** Testing an offset is testing the moved piece in place. */
  lemma ShiftedCollides(b: Board, p: Piece, dx: int, dy: int)
    requires ValidBoard(b)
    ensures Collides(b, Shifted(p, dx, dy), 0, 0) == Collides(b, p, dx, dy)
  {
    var q := Shifted(p, dx, dy);
    if Collides(b, p, dx, dy) {
      var r, c :| 0 <= r < |p.shape| && 0 <= c < |p.shape[r]| && p.shape[r][c] != 0
        && Blocked(b, p.position.x + c + dx, p.position.y + r + dy);
      assert q.shape[r][c] != 0 && Blocked(b, q.position.x + c + 0, q.position.y + r + 0);
    }
    if Collides(b, q, 0, 0) {
      var r, c :| 0 <= r < |q.shape| && 0 <= c < |q.shape[r]| && q.shape[r][c] != 0
        && Blocked(b, q.position.x + c + 0, q.position.y + r + 0);
      assert p.shape[r][c] != 0 && Blocked(b, p.position.x + c + dx, p.position.y + r + dy);
    }
  }

  /** The nested loops of `checkCollision`: true exactly when the piece,
      moved by the offset, collides. Reads only in-range board cells. */
  method CheckCollision(b: Board, p: Piece, dx: int, dy: int) returns (hit: bool)
    requires ValidBoard(b)
    ensures hit == Collides(b, p, dx, dy)
  {
    var y := 0;
    while y < |p.shape|
      invariant 0 <= y <= |p.shape|
      invariant forall r, c :: 0 <= r < y && 0 <= c < |p.shape[r]| && p.shape[r][c] != 0 ==>
                  !Blocked(b, p.position.x + c + dx, p.position.y + r + dy)
    {
      var x := 0;
      while x < |p.shape[y]|
        invariant 0 <= x <= |p.shape[y]|
        invariant forall r, c :: 0 <= r < y && 0 <= c < |p.shape[r]| && p.shape[r][c] != 0 ==>
                    !Blocked(b, p.position.x + c + dx, p.position.y + r + dy)
        invariant forall c :: 0 <= c < x && p.shape[y][c] != 0 ==>
                    !Blocked(b, p.position.x + c + dx, p.position.y + y + dy)
      {
        if p.shape[y][x] != 0 {
          var newX := p.position.x + x + dx;
          var newY := p.position.y + y + dy;
          if newX < 0 || newX >= BoardWidth || newY >= BoardHeight || (newY >= 0 && b[newY][newX] != Empty) {
            assert Blocked(b, p.position.x + x + dx, p.position.y + y + dy);
            return true;
          }
        }
        x := x + 1;
      }
      y := y + 1;
    }
    return false;
  }

  /** The shape of `p` has an occupied cell over board coordinate `(x, y)`. */
  predicate Covers(p: Piece, x: int, y: int) {
    Occupied(p.shape, y - p.position.y, x - p.position.x)
  }

  /** `mergePieceToBoard`'s result: a new board, equal to the old one except
      under the occupied cells of the piece, which take its colour. Cells
      of the piece outside the board are dropped. */
  function Merged(b: Board, p: Piece): (r: Board)
    requires ValidBoard(b)
  {
    seq(BoardHeight, y requires 0 <= y < BoardHeight =>
      seq(BoardWidth, x requires 0 <= x < BoardWidth =>
        if Covers(p, x, y) then Filled(p.color) else b[y][x]))
  }

  /** The merged board has the board's dimensions. */
  lemma MergedValid(b: Board, p: Piece)
    requires ValidBoard(b)
    ensures ValidBoard(Merged(b, p))
  {
  }

  /** A cell of the merged board changes only where the piece covers it. */
  lemma MergedCells(b: Board, p: Piece)
    requires ValidBoard(b)
    ensures ValidBoard(Merged(b, p))
    ensures forall y, x :: 0 <= y < BoardHeight && 0 <= x < BoardWidth ==>
      Merged(b, p)[y][x] == if Covers(p, x, y) then Filled(p.color) else b[y][x]
  {
  }

  /** The piece's cells processed so far by the merge loops: rows before
      `row`, and the cells before `col` in row `row`. */
  predicate CoveredBefore(p: Piece, x: int, y: int, row: int, col: int) {
    var r := y - p.position.y;
    var c := x - p.position.x;
    Occupied(p.shape, r, c) && (r < row || (r == row && c < col))
  }

  /** The nested loops of `mergePieceToBoard`, writing into a copy. */
  method MergePieceToBoard(b: Board, p: Piece) returns (newBoard: Board)
    requires ValidBoard(b)
    ensures newBoard == Merged(b, p)
  {
    newBoard := b;
    var y := 0;
    while y < |p.shape|
      invariant 0 <= y <= |p.shape|
      invariant ValidBoard(newBoard)
      invariant forall cy, cx :: 0 <= cy < BoardHeight && 0 <= cx < BoardWidth ==>
        newBoard[cy][cx] == if CoveredBefore(p, cx, cy, y, 0) then Filled(p.color) else b[cy][cx]
    {
      var x := 0;
      while x < |p.shape[y]|
        invariant 0 <= x <= |p.shape[y]|
        invariant ValidBoard(newBoard)
        invariant forall cy, cx :: 0 <= cy < BoardHeight && 0 <= cx < BoardWidth ==>
          newBoard[cy][cx] == if CoveredBefore(p, cx, cy, y, x) then Filled(p.color) else b[cy][cx]
      {
        if p.shape[y][x] != 0 {
          var boardY := p.position.y + y;
          var boardX := p.position.x + x;
          if boardY >= 0 && boardY < BoardHeight && boardX >= 0 && boardX < BoardWidth {
            newBoard := newBoard[boardY := newBoard[boardY][boardX := Filled(p.color)]];
          }
        }
        x := x + 1;
      }
      y := y + 1;
    }
    forall cy | 0 <= cy < BoardHeight
      ensures newBoard[cy] == Merged(b, p)[cy]
    {
      assert forall cx :: 0 <= cx < BoardWidth ==> newBoard[cy][cx] == Merged(b, p)[cy][cx];
    }
  }

  /** A row with no empty cell (`!row.some(cell => cell === null)`). */
  predicate IsFull(row: Row) {
    forall x :: 0 <= x < |row| ==> row[x] != Empty
  }

  /** `board.filter(row => row.some(cell => cell === null))`: the rows that
      are not full, in their order. */
  function Survivors(b: Board): (r: Board)
    ensures |r| <= |b|
    ensures forall row :: row in r <==> row in b && !IsFull(row)
  {
    if b == [] then []
    else if IsFull(b[0]) then Survivors(b[1..])
    else [b[0]] + Survivors(b[1..])
  }

  /** The number of full rows. */
  function CountFull(b: Board): nat {
    if b == [] then 0
    else (if IsFull(b[0]) then 1 else 0) + CountFull(b[1..])
  }

  /** Every row is either full or survives. */
  lemma {:induction false} SurvivorsCount(b: Board)
    ensures |Survivors(b)| + CountFull(b) == |b|
  {
    if b != [] {
      SurvivorsCount(b[1..]);
    }
  }

  /** Filtering rows distributes over stacking boards. */
  lemma {:induction false} SurvivorsConcat(a: Board, b: Board)
    ensures Survivors(a + b) == Survivors(a) + Survivors(b)
    ensures CountFull(a + b) == CountFull(a) + CountFull(b)
  {
    if a == [] {
      assert a + b == b;
    } else {
      ConsConcat(a, b);
      SurvivorsCons(a + b);
      SurvivorsCons(a);
      SurvivorsConcat(a[1..], b);
      ConcatAssoc(if IsFull(a[0]) then [] else [a[0]], Survivors(a[1..]), Survivors(b));
    }
  }

  lemma ConcatAssoc(x: Board, y: Board, z: Board)
    ensures x + (y + z) == (x + y) + z
  {
  }

  lemma ConsConcat(a: Board, b: Board)
    requires a != []
    ensures (a + b)[0] == a[0] && (a + b)[1..] == a[1..] + b
  {
  }

  /** `Survivors` and `CountFull` of a board, from its top row and the rest. */
  lemma SurvivorsCons(b: Board)
    requires b != []
    ensures Survivors(b) == (if IsFull(b[0]) then [] else [b[0]]) + Survivors(b[1..])
    ensures CountFull(b) == (if IsFull(b[0]) then 1 else 0) + CountFull(b[1..])
  {
    if IsFull(b[0]) {
      assert [] + Survivors(b[1..]) == Survivors(b[1..]);
    }
  }

  function EmptyRows(n: nat): (r: Board)
    ensures |r| == n && forall y :: 0 <= y < n ==> r[y] == EmptyRow()
  {
    seq(n, _ => EmptyRow())
  }

  /** `clearLines`' board: the surviving rows at the bottom, in order, under
      as many fresh empty rows as were removed. */
  function Cleared(b: Board): (r: Board)
    requires ValidBoard(b)
  {
    SurvivorsCount(b);
    EmptyRows(CountFull(b)) + Survivors(b)
  }

  /** `clearLines`: filter out the full rows, then `unshift` empty rows
      until the board is full height again. */
  method ClearLines(b: Board) returns (newBoard: Board, linesCleared: int)
    requires ValidBoard(b)
    ensures linesCleared == CountFull(b)
    ensures newBoard == Cleared(b)
  {
    var kept := Survivors(b);
    newBoard := kept;
    SurvivorsCount(b);
    linesCleared := BoardHeight - |newBoard|;
    while |newBoard| < BoardHeight
      invariant |kept| <= |newBoard| <= BoardHeight
      invariant newBoard == EmptyRows(|newBoard| - |kept|) + kept
      decreases BoardHeight - |newBoard|
    {
      newBoard := [EmptyRow()] + newBoard;
    }
  }

  /** The cleared board has full dimensions, no full row, and the
      survivors at the bottom under `CountFull(b)` empty rows. */
  lemma ClearedShape(b: Board)
    requires ValidBoard(b)
    ensures ValidBoard(Cleared(b))
    ensures forall y :: 0 <= y < BoardHeight ==> !IsFull(Cleared(b)[y])
    ensures Cleared(b)[CountFull(b)..] == Survivors(b)
    ensures forall y :: 0 <= y < CountFull(b) ==> Cleared(b)[y] == EmptyRow()
  {
    SurvivorsCount(b);
    var c := Cleared(b);
    var n := CountFull(b);
    forall y | 0 <= y < BoardHeight
      ensures |c[y]| == BoardWidth && !IsFull(c[y])
    {
      if y < n {
        assert c[y] == EmptyRow();
        assert c[y][0] == Empty;
      } else {
        assert c[y] == Survivors(b)[y - n];
        assert c[y] in Survivors(b);
      }
    }
    assert c[n..] == Survivors(b);
  }

  /** A board without full rows is its own survivor list. */
  lemma {:induction false} NoFullRows(b: Board)
    requires forall y :: 0 <= y < |b| ==> !IsFull(b[y])
    ensures Survivors(b) == b && CountFull(b) == 0
  {
    if b != [] {
      assert !IsFull(b[0]);
      NoFullRows(b[1..]);
    }
  }

  /** Clearing is idempotent: a second application clears no row and
      changes nothing. */
  lemma ClearIdempotent(b: Board)
    requires ValidBoard(b)
    ensures ValidBoard(Cleared(b))
    ensures CountFull(Cleared(b)) == 0
    ensures Cleared(Cleared(b)) == Cleared(b)
  {
    ClearedShape(b);
    var c := Cleared(b);
    NoFullRows(c);
    assert EmptyRows(0) + c == c;
  }

  /** Every template fits on the empty board at its spawn position: the
      unchecked very first spawn never overlaps anything. */
  lemma SpawnFitsEmptyBoard(t: Tetromino)
    ensures !Collides(EmptyBoard(), Spawned(t), 0, 0)
  {
    var p := Spawned(t);
    SpawnColumns(t);
    forall r, c | 0 <= r < |p.shape| && 0 <= c < |p.shape[r]| && p.shape[r][c] != 0
      ensures !Blocked(EmptyBoard(), p.position.x + c + 0, p.position.y + r + 0)
    {
    }
  }
}
