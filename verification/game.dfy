/** `CheckersBoard` without its drawing: the turn fields, updated in place,
    over a `CheckersInfo` board. */
module Game {
  import opened Rules
  import opened MoveLists
  import opened Opening
  import opened Info
  import opened Turns

  class CheckersBoard {
    /** The board and its rules; created once with the game. */
    const board: CheckersInfo
    var gameRunning: bool
    /** RED or WHITE. */
    var currentPlayer: int
    var selectRow: int
    var selectCol: int
    /** The moves the current player may click, `None` for `null`. */
    var validMoves: Option<seq<Move>>

    /** The fields as a turn value. */
    ghost function State(): Turn
      reads this, board, board.board
      requires board.Valid()
    {
      Turn(board.Grid(), gameRunning, currentPlayer, selectRow, selectCol, validMoves)
    }

    ghost predicate Valid()
      reads this, board, board.board
    {
      board.Valid() && Consistent(State())
    }

    constructor ()
      ensures Valid() && AtStart(State())
      ensures fresh(board) && fresh(board.board)
    {
      board := new CheckersInfo();
      new;
      NewGame();
    }

    /** `newGame`. */
    method NewGame()
      requires board.Valid()
      modifies this, board.board
      ensures Valid() && AtStart(State())
    {
      board.SetUpGame();
      currentPlayer := RED;
      validMoves := board.GetValidMoves(RED);
      selectRow := -2;
      selectCol := -2;
      gameRunning := true;
      ghost var g := board.Grid();
      OpeningMoves(g);
      assert State() == Turn(g, true, RED, -2, -2, Some(OpeningList()));
      StartIsConsistent(State());
    }

    /** `tryClickCell(row, col)`: the first scan looks for a listed move
        leaving the clicked square, the second for the listed move from the
        selected square to it. */
    method TryClickCell(row: int, col: int) returns (faulted: bool)
      requires Valid() && validMoves.Some?
      modifies this, board.board
      ensures Valid() && Reply(State(), faulted) == Click(old(State()), row, col)
    {
      ghost var t := State();
      ClickKeepsConsistent(t, row, col);
      ClickIgnored(t, row, col);
      ClickAppliesOnlyListed(t, row, col);
      var moves := validMoves.value;
      var source := FindSource(moves, row, col);
      if source {
        selectRow := row;
        selectCol := col;
        return false;
      }
      var m := Move(selectRow, selectCol, row, col);
      var listed := FindMove(moves, m);
      if listed {
        faulted := TryMakeMove(m);
        return;
      }
      return false;
    }

    /** The first loop of `tryClickCell`: whether some listed move leaves
        (row, col). */
    static method FindSource(moves: seq<Move>, row: int, col: int) returns (found: bool)
      ensures found <==> StartsAt(moves, row, col)
    {
      for a := 0 to |moves|
        invariant forall j :: 0 <= j < a ==> !(moves[j].fromR == row && moves[j].fromC == col)
      {
        if moves[a].fromR == row && moves[a].fromC == col {
          return true;
        }
      }
      return false;
    }

    /** The second loop of `tryClickCell`: whether `m` is listed, compared
        field by field. */
    static method FindMove(moves: seq<Move>, m: Move) returns (found: bool)
      ensures found <==> m in moves
    {
      for a := 0 to |moves|
        invariant forall j :: 0 <= j < a ==> moves[j] != m
      {
        if moves[a].fromR == m.fromR && moves[a].fromC == m.fromC && moves[a].toR == m.toR && moves[a].toC == m.toC {
          return true;
        }
      }
      return false;
    }

    /** `tryMakeMove(move)`. A `true` result is the exception escaping
        `getValidJumps`: the board has moved, nothing else has. */
    method TryMakeMove(move: Move) returns (faulted: bool)
      requires board.Valid() && OnBoard(move)
      modifies this, board.board
      ensures board.Valid() && Reply(State(), faulted) == Play(old(State()), move)
    {
      ghost var t := State();
      board.MakeMove(move);
      if move.ValidJump() {
        PlayFault(t, move);
        ContinuationKeepsTurn(t, move);
        faulted := ContinueJump(move, t);
      } else {
        PassTurn();
        assert Play(t, move) == Reply(State(), false);
        faulted := false;
      }
    }

    /** The part of `tryMakeMove` after a two-row move has been made: look
        for continuation jumps from the landing square, keep the turn when
        there are some, hand it over otherwise. */
    method ContinueJump(move: Move, ghost t: Turn) returns (faulted: bool)
      requires board.Valid() && OnBoard(move) && WellFormed(t.grid)
      requires State() == t.(grid := AfterMove(t.grid, move.fromR, move.fromC, move.toR, move.toC))
      modifies this
      ensures board.Valid()
      ensures var g := AfterMove(t.grid, move.fromR, move.fromC, move.toR, move.toC);
        var vj := ValidJumps(g, t.currentPlayer, move.toR, move.toC);
        && (faulted <==> vj == OutOfBounds)
        && (vj == OutOfBounds ==> State() == t.(grid := g))
        && (vj.Done? && vj.value.Some? ==>
              State() == t.(grid := g, selectRow := move.toR, selectCol := move.toC, validMoves := vj.value))
        && (vj == Done(None) ==> State() == Turns.PassTurn(t, g))
    {
      var jumps := board.GetValidJumps(currentPlayer, move.toR, move.toC);
      if jumps.OutOfBounds? {
        return true;
      }
      validMoves := jumps.value;
      if validMoves.Some? {
        selectRow := move.toR;
        selectCol := move.toC;
        return false;
      }
      PassTurn();
      return false;
    }

    /** The end of `tryMakeMove` when no continuation jump is pending: the
        other player takes the turn with a fresh move list, the game ends
        if that list is `null`, and the selection is cleared. */
    method PassTurn()
      requires board.Valid()
      modifies this
      ensures board.Valid() && State() == Turns.PassTurn(old(State()), board.Grid())
    {
      if currentPlayer == RED {
        currentPlayer := WHITE;
      } else {
        currentPlayer := RED;
      }
      validMoves := board.GetValidMoves(currentPlayer);
      if validMoves.None? {
        gameRunning := false;
      }
      selectRow := -2;
      selectCol := -2;
    }
  }
}
