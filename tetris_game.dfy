/** The state machine of the game component (`TetrisPage` in
    app/tetris/page.tsx): board, current and next piece, score, game-over
    and pause flags, and the handlers that change them. The random draws
    of `getRandomTetromino` are parameters. */
module TetrisGame {
  import opened Wrappers
  import opened TetrisPieces
  import opened TetrisRules

  /** The board after `p` lands on `b`: merged, then cleared. */
  function Landed(b: Board, p: Piece): (r: Board)
    requires ValidBoard(b)
    ensures ValidBoard(r)
    ensures forall y :: 0 <= y < BoardHeight ==> !IsFull(r[y])
  {
    MergedValid(b, p);
    ClearedShape(Merged(b, p));
    Cleared(Merged(b, p))
  }

  /** The rows completed by `p` landing on `b`. */
  function LinesFor(b: Board, p: Piece): nat
    requires ValidBoard(b)
  {
    MergedValid(b, p);
    CountFull(Merged(b, p))
  }

  /** The board half of landing: `mergePieceToBoard`, then `clearLines`. */
  method LandOnBoard(b: Board, p: Piece) returns (newBoard: Board, linesCleared: int)
    requires ValidBoard(b)
    ensures newBoard == Landed(b, p) && linesCleared == LinesFor(b, p)
  {
    var merged := MergePieceToBoard(b, p);
    MergedValid(b, p);
    newBoard, linesCleared := ClearLines(merged);
  }

  /** The hard-drop distance, searched from offset `k`: the first `d >= k`
      such that moving the piece down by `d + 1` collides. */
  ghost function DropFrom(b: Board, p: Piece, k: nat): (d: nat)
    requires ValidBoard(b) && HasBlock(p.shape)
    ensures k <= d
    ensures forall j :: k < j <= d ==> !Collides(b, p, 0, j)
    ensures Collides(b, p, 0, d + 1)
    decreases BoardHeight - p.position.y - k
  {
    if Collides(b, p, 0, k + 1) then k
    else
      var r0, c0 :| 0 <= r0 < |p.shape| && 0 <= c0 < |p.shape[r0]| && p.shape[r0][c0] != 0;
      assert !Blocked(b, p.position.x + c0 + 0, p.position.y + r0 + (k + 1));
      DropFrom(b, p, k + 1)
  }

  /** A piece that can move down by `k + 1` rows has not reached the
      floor, and the search from `k` goes on from `k + 1`. */
  lemma DropStep(b: Board, p: Piece, k: nat)
    requires ValidBoard(b) && HasBlock(p.shape)
    requires !Collides(b, p, 0, k + 1)
    ensures p.position.y + k + 1 < BoardHeight
    ensures DropFrom(b, p, k) == DropFrom(b, p, k + 1)
  {
    var r0, c0 :| 0 <= r0 < |p.shape| && 0 <= c0 < |p.shape[r0]| && p.shape[r0][c0] != 0;
    assert !Blocked(b, p.position.x + c0 + 0, p.position.y + r0 + (k + 1));
  }

  /** The probe loop of `hardDrop`: count the rows the piece can move down
      until moving one row further would collide. It terminates because a
      piece with an occupied cell reaches the floor. */
  method ProbeDropDistance(b: Board, p: Piece) returns (dropDistance: nat)
    requires ValidBoard(b) && HasBlock(p.shape)
    ensures dropDistance == DropFrom(b, p, 0)
    ensures forall j :: 0 < j <= dropDistance ==> !Collides(b, p, 0, j)
    ensures Collides(b, p, 0, dropDistance + 1)
  {
    dropDistance := 0;
    var hit := CheckCollision(b, p, 0, dropDistance + 1);
    while !hit
      invariant hit == Collides(b, p, 0, dropDistance + 1)
      invariant DropFrom(b, p, dropDistance) == DropFrom(b, p, 0)
      decreases BoardHeight - p.position.y - dropDistance
    {
      DropStep(b, p, dropDistance);
      dropDistance := dropDistance + 1;
      hit := CheckCollision(b, p, 0, dropDistance + 1);
    }
  }

  /** A piece that fits where it is still fits after the hard drop. */
  lemma DroppedPieceFits(b: Board, p: Piece)
    requires ValidBoard(b) && HasBlock(p.shape)
    requires !Collides(b, p, 0, 0)
    ensures !Collides(b, Shifted(p, 0, DropFrom(b, p, 0)), 0, 0)
  {
    ShiftedCollides(b, p, 0, DropFrom(b, p, 0));
  }

  class Game {
    var board: Board
    var currentPiece: Option<Piece>
    var nextPiece: Option<Piece>
    var score: nat
    var gameOver: bool
    var isPaused: bool

    /** The state between any two statements of a handler: a full-size
        board, well-formed pieces, and before the very first spawn (or
        after a reset) neither piece and an empty board; after it, both. */
    ghost predicate Consistent()
      reads this
    {
      && ValidBoard(board)
      && (currentPiece.Some? ==> WellFormed(currentPiece.value))
      && (nextPiece.Some? ==> WellFormed(nextPiece.value))
      && (currentPiece.None? <==> nextPiece.None?)
      && (nextPiece.None? ==> board == EmptyBoard())
    }

    /** The state between handlers: in addition, while the game is not
        over, the current piece never overlaps the walls, the floor or a
        filled cell. */
    ghost predicate Valid()
      reads this
    {
      Consistent() && (currentPiece.Some? && !gameOver ==> !Collides(board, currentPiece.value, 0, 0))
    }

    /** The guard of every move: a piece, not over, not paused. */
    predicate Active()
      reads this
    {
      currentPiece.Some? && !gameOver && !isPaused
    }

    /** The initial `useState` values. */
    constructor ()
      ensures Valid()
      ensures board == EmptyBoard() && currentPiece == None && nextPiece == None
      ensures score == 0 && !gameOver && !isPaused
    {
      board := EmptyBoard();
      currentPiece, nextPiece := None, None;
      score := 0;
      gameOver, isPaused := false, false;
    }

    /** `spawnNewPiece`. The first call fills both pieces from two draws
        without any collision test; later calls promote the next piece,
        refill it from one draw, and end the game if the promoted piece
        collides with the current board. */
    method SpawnNewPiece(draw: Tetromino, secondDraw: Tetromino) returns (ok: bool)
      requires Consistent()
      modifies this`currentPiece, this`nextPiece, this`gameOver
      ensures Valid()
      ensures old(nextPiece).Some? ==>
        && currentPiece == old(nextPiece)
        && nextPiece == Some(Spawned(draw))
        && ok == !Collides(board, old(nextPiece).value, 0, 0)
        && gameOver == (old(gameOver) || !ok)
      ensures old(nextPiece).None? ==>
        && currentPiece == Some(Spawned(draw))
        && nextPiece == Some(Spawned(secondDraw))
        && ok && gameOver == old(gameOver)
    {
      if nextPiece.Some? {
        var promoted := nextPiece.value;
        currentPiece := nextPiece;
        nextPiece := Some(Spawned(draw));
        var hit := CheckCollision(board, promoted, 0, 0);
        if hit {
          gameOver := true;
          return false;
        }
        return true;
      } else {
        currentPiece := Some(Spawned(draw));
        nextPiece := Some(Spawned(secondDraw));
        SpawnFitsEmptyBoard(draw);
        return true;
      }
    }

    /** The landing sequence shared by `moveDown` and `hardDrop`: merge,
        clear, add `100` per cleared row plus `bonus`, spawn. */
    method Land(p: Piece, bonus: nat, draw: Tetromino)
      requires Consistent() && nextPiece.Some?
      modifies this
      ensures Valid()
      ensures board == Landed(old(board), p)
      ensures score == old(score) + 100 * LinesFor(old(board), p) + bonus
      ensures currentPiece == old(nextPiece) && nextPiece == Some(Spawned(draw))
      ensures gameOver == (old(gameOver) || Collides(board, old(nextPiece).value, 0, 0))
      ensures isPaused == old(isPaused)
    {
      var clearedBoard, linesCleared := LandOnBoard(board, p);
      board := clearedBoard;
      score := score + linesCleared * 100 + bonus;
      var spawned := SpawnNewPiece(draw, draw);
    }

    /** What `moveDown` leaves behind: nothing changes unless a move is
        allowed; then the piece moves one row down if that fits, and
        otherwise it lands, 100 is added per cleared row and the next
        piece spawns, ending the game if it collides. */
    twostate predicate MovedDown(draw: Tetromino)
      requires old(Valid()) && Valid()
      reads this
    {
      && score >= old(score)
      && (!old(Active()) ==> unchanged(this))
      && (old(Active()) && !Collides(old(board), old(currentPiece).value, 0, 1) ==>
        && currentPiece == Some(Shifted(old(currentPiece).value, 0, 1))
        && board == old(board) && nextPiece == old(nextPiece) && score == old(score)
        && gameOver == old(gameOver) && isPaused == old(isPaused))
      && (old(Active()) && Collides(old(board), old(currentPiece).value, 0, 1) ==>
        && board == Landed(old(board), old(currentPiece).value)
        && score == old(score) + 100 * LinesFor(old(board), old(currentPiece).value)
        && currentPiece == old(nextPiece) && nextPiece == Some(Spawned(draw))
        && gameOver == Collides(board, currentPiece.value, 0, 0)
        && isPaused == old(isPaused))
    }

    /** What a sideways move by `dx` leaves behind: the moved piece if a
        move is allowed and it fits, otherwise the old piece; nothing
        else changes. */
    twostate predicate Translated(dx: int)
      requires old(Valid())
      reads this
    {
      && board == old(board) && nextPiece == old(nextPiece) && score == old(score)
      && gameOver == old(gameOver) && isPaused == old(isPaused)
      && currentPiece ==
        if old(Active()) && !Collides(old(board), old(currentPiece).value, dx, 0)
        then Some(Shifted(old(currentPiece).value, dx, 0))
        else old(currentPiece)
    }

    /** What `rotate` leaves behind: the rotated piece if a move is
        allowed and it fits, otherwise the old piece; nothing else
        changes. */
    twostate predicate Rotated()
      requires old(Valid())
      reads this
    {
      && board == old(board) && nextPiece == old(nextPiece) && score == old(score)
      && gameOver == old(gameOver) && isPaused == old(isPaused)
      && currentPiece ==
        if old(Active()) && !Collides(old(board), RotatePiece(old(currentPiece).value), 0, 0)
        then Some(RotatePiece(old(currentPiece).value))
        else old(currentPiece)
    }

    /** What `hardDrop` leaves behind: nothing changes unless a move is
        allowed; then the piece lands as far down as it fits, 100 is added
        per cleared row plus 2 per row dropped, and the next piece spawns,
        ending the game if it collides. */
    twostate predicate HardDropped(draw: Tetromino)
      requires old(Valid()) && Valid()
      reads this
    {
      && score >= old(score)
      && (!old(Active()) ==> unchanged(this))
      && (old(Active()) ==>
        var p := old(currentPiece).value;
        var d := DropFrom(old(board), p, 0);
        && board == Landed(old(board), Shifted(p, 0, d))
        && score == old(score) + 100 * LinesFor(old(board), Shifted(p, 0, d)) + 2 * d
        && currentPiece == old(nextPiece) && nextPiece == Some(Spawned(draw))
        && gameOver == Collides(board, currentPiece.value, 0, 0)
        && isPaused == old(isPaused))
    }

    /** What the pause toggle leaves behind: the pause flag flipped and
        nothing else changed. */
    twostate predicate PauseToggled()
      reads this
    {
      && isPaused == !old(isPaused)
      && board == old(board) && currentPiece == old(currentPiece) && nextPiece == old(nextPiece)
      && score == old(score) && gameOver == old(gameOver)
    }

    /** `moveDown` (soft drop and timer tick): one row down if that fits,
        otherwise the piece lands and the next one spawns. */
    method MoveDown(draw: Tetromino)
      requires Valid()
      modifies this
      ensures Valid()
      ensures MovedDown(draw)
    {
      if currentPiece.None? || gameOver || isPaused {
        return;
      }
      var p := currentPiece.value;
      var hit := CheckCollision(board, p, 0, 1);
      if !hit {
        currentPiece := Some(Shifted(p, 0, 1));
        ShiftedCollides(board, p, 0, 1);
      } else {
        Land(p, 0, draw);
      }
    }

    /** A sideways move: committed only if the moved piece fits. */
    method Translate(dx: int)
      requires Valid()
      modifies this`currentPiece
      ensures Valid()
      ensures Translated(dx)
    {
      if currentPiece.None? || gameOver || isPaused {
        return;
      }
      var p := currentPiece.value;
      var hit := CheckCollision(board, p, dx, 0);
      if !hit {
        currentPiece := Some(Shifted(p, dx, 0));
        ShiftedCollides(board, p, dx, 0);
      }
    }

    /** `moveLeft` */
    method MoveLeft()
      requires Valid()
      modifies this`currentPiece
      ensures Valid()
      ensures Translated(-1)
    {
      Translate(-1);
    }

    /** `moveRight` */
    method MoveRight()
      requires Valid()
      modifies this`currentPiece
      ensures Valid()
      ensures Translated(1)
    {
      Translate(1);
    }

    /** `rotate`: clockwise in place, committed only if the rotated piece
        fits (no wall kick). */
    method Rotate()
      requires Valid()
      modifies this`currentPiece
      ensures Valid()
      ensures Rotated()
    {
      if currentPiece.None? || gameOver || isPaused {
        return;
      }
      var rotated := RotatePiece(currentPiece.value);
      RotatePreservesWellFormed(currentPiece.value);
      var hit := CheckCollision(board, rotated, 0, 0);
      if !hit {
        currentPiece := Some(rotated);
      }
    }

    /** `hardDrop`: probe one row further down until the probe collides,
        then land the piece that far down, scoring 2 per row dropped. */
    method HardDrop(draw: Tetromino)
      requires Valid()
      modifies this
      ensures Valid()
      ensures HardDropped(draw)
    {
      if currentPiece.None? || gameOver || isPaused {
        return;
      }
      var p := currentPiece.value;
      var dropDistance := ProbeDropDistance(board, p);
      var droppedPiece := Shifted(p, 0, dropDistance);
      Land(droppedPiece, dropDistance * 2, draw);
    }

    /** `resetGame` */
    method ResetGame()
      modifies this
      ensures Valid()
      ensures board == EmptyBoard() && currentPiece == None && nextPiece == None
      ensures score == 0 && !gameOver && !isPaused
    {
      board := EmptyBoard();
      currentPiece, nextPiece := None, None;
      score := 0;
      gameOver, isPaused := false, false;
    }

    /** `setIsPaused(prev => !prev)` */
    method TogglePause()
      requires Valid()
      modifies this`isPaused
      ensures Valid() && PauseToggled()
    {
      isPaused := !isPaused;
    }

    /** The spawn effect: with no piece and the game not over, spawn the
        first pair of pieces from two draws. */
    method SpawnWhenIdle(draw: Tetromino, secondDraw: Tetromino)
      requires Valid()
      modifies this`currentPiece, this`nextPiece, this`gameOver
      ensures Valid()
      ensures old(currentPiece).Some? || old(gameOver) ==> unchanged(this)
      ensures old(currentPiece).None? && !old(gameOver) ==>
        && currentPiece == Some(Spawned(draw)) && nextPiece == Some(Spawned(secondDraw))
        && !gameOver && board == old(board)
    {
      if currentPiece.None? && !gameOver {
        var spawned := SpawnNewPiece(draw, secondDraw);
      }
    }

    /** The interval callback, installed only while neither over nor
        paused; a tick is exactly a `moveDown`. */
    method TimerTick(draw: Tetromino)
      requires Valid()
      modifies this
      ensures Valid()
      ensures old(gameOver) || old(isPaused) ==> unchanged(this)
      ensures MovedDown(draw)
    {
      if !gameOver && !isPaused {
        MoveDown(draw);
      }
    }

    /** `handleKeyPress`: arrows move, rotate and soft-drop, space hard-drops,
        `p`/`P` toggles the pause; once the game is over every key,
        the pause toggle included, is ignored, and so is any other key. */
    method HandleKey(key: string, draw: Tetromino)
      requires Valid()
      modifies this
      ensures Valid()
      ensures old(gameOver) ==> unchanged(this)
      ensures !old(gameOver) ==>
        if key == "ArrowLeft" then Translated(-1)
        else if key == "ArrowRight" then Translated(1)
        else if key == "ArrowDown" then MovedDown(draw)
        else if key == "ArrowUp" then Rotated()
        else if key == " " then HardDropped(draw)
        else if key == "p" || key == "P" then PauseToggled()
        else unchanged(this)
    {
      if gameOver {
        return;
      }
      if key == "ArrowLeft" {
        MoveLeft();
      } else if key == "ArrowRight" {
        MoveRight();
      } else if key == "ArrowDown" {
        MoveDown(draw);
      } else if key == "ArrowUp" {
        Rotate();
      } else if key == " " {
        HardDrop(draw);
      } else if key == "p" || key == "P" {
        TogglePause();
      }
    }

    /** `renderBoard`: the stored board with the current piece drawn on a
        copy; the stored state is not touched. */
    method RenderBoard() returns (display: Board)
      requires Valid()
      ensures display == if currentPiece.Some? then Merged(board, currentPiece.value) else board
      ensures ValidBoard(display)
    {
      display := board;
      if currentPiece.Some? {
        display := MergePieceToBoard(board, currentPiece.value);
        MergedCells(board, currentPiece.value);
      }
    }
  }
}
