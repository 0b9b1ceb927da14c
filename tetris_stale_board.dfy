/** The game-over test that `spawnNewPiece` runs after a landing
    (app/tetris/page.tsx:165-183, called from `moveDown` and `hardDrop`).
    The callback closes over the `board` of the render in which the piece
    was still falling, so as written it tests the promoted piece against
    the board from before the landing. The game model (`TetrisGame`)
    tests against the board after the landing; this module shows the two
    differ. */
module TetrisStaleBoard {
  import opened TetrisPieces
  import opened TetrisRules
  import opened TetrisGame

  /** As written: the promoted piece is tested against the board from
      before the landing. */
  predicate GameOverAsWritten(before: Board, landed: Piece, promoted: Piece)
    requires ValidBoard(before)
  {
    Collides(before, promoted, 0, 0)
  }

  /** As intended: the promoted piece is tested against the board the
      landing produced. */
  predicate GameOverIntended(before: Board, landed: Piece, promoted: Piece)
    requires ValidBoard(before)
  {
    Collides(Landed(before, landed), promoted, 0, 0)
  }

  /** The board after nine square pieces have each been dropped straight
      down from their spawn place: columns 4 and 5 filled from the third
      row to the floor, every other cell empty. */
  function Tower(): (b: Board)
    ensures ValidBoard(b)
    ensures forall y, x :: 0 <= y < BoardHeight && 0 <= x < BoardWidth ==>
      b[y][x] == if y >= 2 && 4 <= x <= 5 then Filled("#F0F000") else Empty
  {
    var pillar := EmptyRow()[4 := Filled("#F0F000")][5 := Filled("#F0F000")];
    seq(BoardHeight, y => if y >= 2 then pillar else EmptyRow())
  }

  /** The square piece as it spawns. */
  lemma SpawnedSquare()
    ensures Spawned(O) == Piece([[1, 1], [1, 1]], "#F0F000", Position(4, 0))
  {
  }

  /** The square piece fits at its spawn place on top of the tower and cannot
      move down. */
  lemma TowerStopsSquare()
    ensures !Collides(Tower(), Spawned(O), 0, 0)
    ensures Collides(Tower(), Spawned(O), 0, 1)
  {
    var b, p := Tower(), Spawned(O);
    SpawnedSquare();
    assert b[2][4] == Filled("#F0F000");
    assert 0 <= 1 < |p.shape| && 0 <= 0 < |p.shape[1]| && p.shape[1][0] != 0
      && Blocked(b, p.position.x + 0 + 0, p.position.y + 1 + 1);
    forall r, c | 0 <= r < |p.shape| && 0 <= c < |p.shape[r]| && p.shape[r][c] != 0
      ensures !Blocked(b, p.position.x + c + 0, p.position.y + r + 0)
    {
      assert b[r][4 + c] == Empty;
    }
  }

  /** Landing the square on the tower completes no row: the landed board is
      the merged one. */
  lemma TowerLandingClearsNothing()
    ensures Landed(Tower(), Spawned(O)) == Merged(Tower(), Spawned(O))
  {
    var b, p := Tower(), Spawned(O);
    var m := Merged(b, p);
    MergedCells(b, p);
    SpawnedSquare();
    forall y | 0 <= y < |m|
      ensures !IsFull(m[y])
    {
      assert !Covers(p, 0, y);
      assert m[y][0] == Empty;
    }
    NoFullRows(m);
    assert EmptyRows(0) + m == m;
  }

  /** A square piece spawned on top of the tower cannot move down, so the next
      tick lands it in the top two rows. The next piece is another square:
      it overlaps the landed one, yet the test as written reports no
      collision, the game goes on, and the new current piece sits on
      filled cells. The intended test ends the game. */
  lemma StaleBoardMissesGameOver()
    ensures !Collides(Tower(), Spawned(O), 0, 0)
    ensures Collides(Tower(), Spawned(O), 0, 1)
    ensures !GameOverAsWritten(Tower(), Spawned(O), Spawned(O))
    ensures GameOverIntended(Tower(), Spawned(O), Spawned(O))
  {
    TowerStopsSquare();
    TowerLandingClearsNothing();
    SquareMeetsItself();
  }

  /** The square merged on top of the tower fills the cells where the next
      square spawns. */
  lemma SquareMeetsItself()
    ensures Collides(Merged(Tower(), Spawned(O)), Spawned(O), 0, 0)
  {
    var b, p := Tower(), Spawned(O);
    var m := Merged(b, p);
    MergedCells(b, p);
    SpawnedSquare();
    assert Covers(p, 4, 0);
    assert Blocked(m, p.position.x + 0 + 0, p.position.y + 0 + 0);
  }
}
