/** `CheckersInfo`: the 8x8 board, updated in place, and the operations
    that set it up, read it, apply a move and list the moves of a player. */
module Info {
  import opened Rules
  import opened MoveLists

  class CheckersInfo {
    /** `board[row][col]`: allocated once, then overwritten in place. */
    const board: array2<int>

    /** The board is 8x8 and every square holds EMPTY, RED or WHITE. */
    ghost predicate Valid()
      reads this, board
    {
      board.Length0 == 8 && board.Length1 == 8 &&
      forall r, c :: 0 <= r < 8 && 0 <= c < 8 ==> IsCell(board[r, c])
    }

    /** The board as a value, row by row. */
    function Grid(): (g: Grid)
      reads this, board
      requires board.Length0 == 8 && board.Length1 == 8
      ensures |g| == 8
      ensures forall r :: 0 <= r < 8 ==> |g[r]| == 8
      ensures forall r, c :: 0 <= r < 8 && 0 <= c < 8 ==> g[r][c] == board[r, c]
      ensures Valid() ==> WellFormed(g)
    {
      var a := board;
      seq(8, r requires 0 <= r < 8 reads a => seq(8, c requires 0 <= c < 8 reads a => a[r, c]))
    }

    constructor ()
      ensures Valid() && fresh(board) && Grid() == InitialGrid()
    {
      board := new int[8, 8];
      new;
      SetUpGame();
    }

    /** `setUpGame`: WHITE on the odd squares of rows 0-2, RED on those of
        rows 5-7, every other square EMPTY. */
    method SetUpGame()
      requires board.Length0 == 8 && board.Length1 == 8
      modifies board
      ensures Valid() && Grid() == InitialGrid()
    {
      for row := 0 to 8
        invariant forall r, c :: 0 <= r < row && 0 <= c < 8 ==> board[r, c] == InitialCell(r, c)
      {
        for col := 0 to 8
          invariant forall r, c :: 0 <= r < row && 0 <= c < 8 ==> board[r, c] == InitialCell(r, c)
          invariant forall c :: 0 <= c < col ==> board[row, c] == InitialCell(row, c)
        {
          if (row + col) % 2 == 0 {
            board[row, col] := EMPTY;
          } else {
            if row < 3 {
              board[row, col] := WHITE;
            } else if row > 4 {
              board[row, col] := RED;
            } else {
              board[row, col] := EMPTY;
            }
          }
        }
      }
      SameSquares(Grid(), InitialGrid());
    }

    /** `pieceAt`: the value on a square of the board. */
    function PieceAt(row: int, col: int): (v: int)
      reads this, board
      requires Valid() && InBounds(row, col)
      ensures IsCell(v) && v == Grid()[row][col]
    {
      board[row, col]
    }

    /** `makeMove(CheckersMove)`. */
    method MakeMove(move: Move)
      requires Valid() && InBounds(move.fromR, move.fromC) && InBounds(move.toR, move.toC)
      modifies board
      ensures Valid() && Grid() == AfterMove(old(Grid()), move.fromR, move.fromC, move.toR, move.toC)
    {
      MakeMoveAt(move.fromR, move.fromC, move.toR, move.toC);
    }

    /** `makeMove(fromR, fromC, toR, toC)`: the caller vouches for the move;
        nothing is checked beyond the squares being on the board. */
    method MakeMoveAt(fromR: int, fromC: int, toR: int, toC: int)
      requires Valid() && InBounds(fromR, fromC) && InBounds(toR, toC)
      modifies board
      ensures Valid() && Grid() == AfterMove(old(Grid()), fromR, fromC, toR, toC)
    {
      ghost var g := Grid();
      board[toR, toC] := board[fromR, fromC];
      board[fromR, fromC] := EMPTY;
      ghost var g1 := Set(g, toR, toC, g[fromR][fromC]);
      ghost var g2 := Set(g1, fromR, fromC, EMPTY);
      SameSquares(Grid(), g2);
      if Abs(fromR - toR) == 2 && PieceAt(fromR, fromC) != PieceAt((fromR + toR) / 2, (fromC + toC) / 2) {
        var captureRow := (fromR + toR) / 2;
        var captureCol := (fromC + toC) / 2;
        board[captureRow, captureCol] := EMPTY;
        SameSquares(Grid(), Set(g2, captureRow, captureCol, EMPTY));
      }
    }

    /** `getValidMoves(player)`: every step, in scan order, then every jump. */
    method GetValidMoves(player: int) returns (moves: Option<seq<Move>>)
      requires Valid()
      ensures moves == ValidMoves(Grid(), player)
    {
      if player != WHITE && player != RED {
        return None;
      }
      var g := Grid();
      var steps := Pass(g, player, false);
      var jumps := Pass(g, player, true);
      var got := steps + jumps;
      if |got| == 0 {
        return None;
      }
      var copy := ToArrayContents(got);
      return Some(copy);
    }

    /** One of the two passes of `getValidMoves`: every square in row-major
        order, recording what the checks of kind `jump` accept from the
        squares holding `player`. */
    static method Pass(g: Grid, player: int, jump: bool) returns (got: seq<Move>)
      requires WellFormed(g)
      ensures got == ScanMoves(g, player, 8, jump)
    {
      got := [];
      for row := 0 to 8
        invariant got == ScanMoves(g, player, row, jump)
      {
        ghost var done := got;
        for col := 0 to 8
          invariant got == done + RowMoves(g, player, row, col, jump)
        {
          var found: seq<Move> := [];
          if g[row][col] == player {
            if jump {
              found := JumpsFrom(g, player, row, col);
            } else {
              found := StepsFrom(g, player, row, col);
            }
          }
          RowMovesNext(g, player, row, col, jump, done, got, found);
          got := got + found;
        }
      }
    }

    /** The four step checks `getValidMoves` makes for a square holding
        `player`. */
    static method StepsFrom(g: Grid, player: int, row: int, col: int) returns (found: seq<Move>)
      requires WellFormed(g) && InBounds(row, col) && g[row][col] == player
      ensures found == SquareMoves(g, player, row, col, false)
    {
      found := [];
      if CheckMove(g, player, row, col, row + 1, col + 1) {
        found := found + [Move(row, col, row + 1, col + 1)];
      }
      assert found == Pick(g, player, row, col, 0, false);
      if CheckMove(g, player, row, col, row - 1, col - 1) {
        found := found + [Move(row, col, row - 1, col - 1)];
      }
      assert found == Pick(g, player, row, col, 0, false) + Pick(g, player, row, col, 1, false);
      if CheckMove(g, player, row, col, row - 1, col + 1) {
        found := found + [Move(row, col, row - 1, col + 1)];
      }
      assert found == Pick(g, player, row, col, 0, false) + Pick(g, player, row, col, 1, false)
        + Pick(g, player, row, col, 2, false);
      if CheckMove(g, player, row, col, row + 1, col - 1) {
        found := found + [Move(row, col, row + 1, col - 1)];
      }
    }

    /** The four jump checks `getValidMoves` makes for a square holding
        `player`, each over the square between source and destination. */
    static method JumpsFrom(g: Grid, player: int, row: int, col: int) returns (found: seq<Move>)
      requires WellFormed(g) && InBounds(row, col) && g[row][col] == player
      ensures found == SquareMoves(g, player, row, col, true)
    {
      found := [];
      if CheckJump(g, player, row, col, row + 1, col + 1, row + 2, col + 2) == Done(true) {
        found := found + [Move(row, col, row + 2, col + 2)];
      }
      assert found == Pick(g, player, row, col, 0, true);
      if CheckJump(g, player, row, col, row - 1, col - 1, row - 2, col - 2) == Done(true) {
        found := found + [Move(row, col, row - 2, col - 2)];
      }
      assert found == Pick(g, player, row, col, 0, true) + Pick(g, player, row, col, 1, true);
      if CheckJump(g, player, row, col, row - 1, col + 1, row - 2, col + 2) == Done(true) {
        found := found + [Move(row, col, row - 2, col + 2)];
      }
      assert found == Pick(g, player, row, col, 0, true) + Pick(g, player, row, col, 1, true)
        + Pick(g, player, row, col, 2, true);
      if CheckJump(g, player, row, col, row + 1, col - 1, row + 2, col - 2) == Done(true) {
        found := found + [Move(row, col, row + 2, col - 2)];
      }
    }

    /** `getValidJumps(player, row, col)`: the continuation jumps from one
        square, every check naming (row + 1, col + 1) as the square jumped
        over; a check that reads that square outside the board ends the call
        with `OutOfBounds`. */
    method GetValidJumps(player: int, row: int, col: int) returns (jumps: Outcome<Option<seq<Move>>>)
      requires Valid() && InBounds(row, col)
      ensures jumps == ValidJumps(Grid(), player, row, col)
    {
      if player != WHITE && player != RED {
        return Done(None);
      }
      var g := Grid();
      var got: seq<Move> := [];
      if board[row, col] == player {
        // The first check jumps over (row + 1, col + 1) itself, so it
        // never reads outside the board.
        var ok := CheckJump(g, player, row, col, row + 1, col + 1, row + 2, col + 2);
        assert ok.Done?;
        if ok.value { got := got + [Move(row, col, row + 2, col + 2)]; }
        assert CollectJumps(g, player, row, col, 1) == Done(got);
        ok := CheckJump(g, player, row, col, row + 1, col + 1, row - 2, col - 2);
        if ok.OutOfBounds? {
          CollectJumpsMembers(g, player, row, col, 2);
          CollectJumpsMembers(g, player, row, col, 4);
          return OutOfBounds;
        }
        if ok.value { got := got + [Move(row, col, row - 2, col - 2)]; }
        assert CollectJumps(g, player, row, col, 2) == Done(got);
        ok := CheckJump(g, player, row, col, row + 1, col + 1, row - 2, col + 2);
        if ok.OutOfBounds? {
          CollectJumpsMembers(g, player, row, col, 3);
          CollectJumpsMembers(g, player, row, col, 4);
          return OutOfBounds;
        }
        if ok.value { got := got + [Move(row, col, row - 2, col + 2)]; }
        assert CollectJumps(g, player, row, col, 3) == Done(got);
        ok := CheckJump(g, player, row, col, row + 1, col + 1, row + 2, col - 2);
        if ok.OutOfBounds? {
          return OutOfBounds;
        }
        if ok.value { got := got + [Move(row, col, row + 2, col - 2)]; }
        assert CollectJumps(g, player, row, col, 4) == Done(got);
      }
      if |got| == 0 {
        return Done(None);
      }
      var copy := ToArrayContents(got);
      return Done(Some(copy));
    }

    /** The copy of the collected moves into a fresh array that both list
        operations make before returning. */
    static method ToArrayContents(moves: seq<Move>) returns (copy: seq<Move>)
      ensures copy == moves
    {
      var a := new Move[|moves|];
      for i := 0 to |moves|
        invariant a[..i] == moves[..i]
      {
        a[i] := moves[i];
      }
      copy := a[..];
    }
  }
}
