/** The turn logic of `CheckersBoard` as values: the five turn fields plus
    the board, and what `newGame`, `tryMakeMove`, `tryClickCell` and the
    `gameRunning` guard of `mousePressed` make of them. */
module Turns {
  import opened Rules
  import opened MoveLists
  import opened Opening
  import opened BoardFacts

  /** The fields of `CheckersBoard` that drive a game, with the board as a
      value. A selection of (-2, -2) means nothing is selected; `None`
      stands for a `null` move list. */
  datatype Turn = Turn(
    grid: Grid,
    gameRunning: bool,
    currentPlayer: int,
    selectRow: int,
    selectCol: int,
    validMoves: Option<seq<Move>>)

  /** The state after a call, and whether the call ended by the
      `ArrayIndexOutOfBoundsException` of `getValidJumps`. */
  datatype Reply = Reply(next: Turn, faulted: bool)

  predicate OnBoard(m: Move)
  {
    InBounds(m.fromR, m.fromC) && InBounds(m.toR, m.toC)
  }

  function Other(player: int): int
  {
    if player == RED then WHITE else RED
  }

  /** Some listed move leaves (row, col). */
  predicate StartsAt(ms: seq<Move>, row: int, col: int)
  {
    exists i :: 0 <= i < |ms| && ms[i].fromR == row && ms[i].fromC == col
  }

  /** What holds between the turn fields in every state a game reaches: the
      game runs exactly while there is a move list, a list is never empty
      and stays on the board, and a selection is (-2, -2) or the source of
      a listed move. */
  predicate Consistent(t: Turn)
  {
    && WellFormed(t.grid)
    && IsPlayer(t.currentPlayer)
    && (t.gameRunning <==> t.validMoves.Some?)
    && (t.validMoves.Some? ==>
          t.validMoves.value != [] && forall m :: m in t.validMoves.value ==> OnBoard(m))
    && ((t.selectRow == -2 && t.selectCol == -2) ||
        (t.validMoves.Some? && StartsAt(t.validMoves.value, t.selectRow, t.selectCol)))
  }

  /** The state `newGame` leaves: the starting layout, the game running,
      RED to move with RED's move list in that layout (the thirteen moves
      of the opening, by `OpeningMoves`), nothing selected. */
  predicate AtStart(t: Turn)
  {
    t == Turn(InitialGrid(), true, RED, -2, -2, Some(OpeningList()))
  }

  lemma StartIsConsistent(t: Turn)
    requires AtStart(t)
    ensures Consistent(t)
  {
  }

  /** Every move `getValidMoves` lists lies on the board. */
  lemma ListOnBoard(g: Grid, player: int)
    requires WellFormed(g)
    ensures ValidMoves(g, player).Some? ==> forall m :: m in ValidMoves(g, player).value ==> OnBoard(m)
  {
    var moves := ValidMoves(g, player);
    if moves.Some? {
      ValidMovesShape(g, player);
      forall m | m in moves.value ensures OnBoard(m) {
        var i :| 0 <= i < |moves.value| && moves.value[i] == m;
      }
    }
  }

  /** The end of `tryMakeMove` when no continuation jump is pending: the
      other player moves next with a fresh list, and the game ends when
      that list is `null`. */
  function PassTurn(t: Turn, g: Grid): (r: Turn)
    requires WellFormed(g)
    ensures r.grid == g && r.currentPlayer != t.currentPlayer && IsPlayer(r.currentPlayer)
    ensures r.selectRow == -2 && r.selectCol == -2
  {
    var next := Other(t.currentPlayer);
    var moves := ValidMoves(g, next);
    Turn(g, if moves.None? then false else t.gameRunning, next, -2, -2, moves)
  }

  /** `tryMakeMove(move)`: apply the move, and after a two-row move look
      for continuation jumps from the landing square; if there are some the
      same player goes on with them, otherwise the turn passes. */
  function Play(t: Turn, m: Move): (r: Reply)
    requires WellFormed(t.grid) && OnBoard(m)
    ensures r.next.grid == AfterMove(t.grid, m.fromR, m.fromC, m.toR, m.toC)
    ensures !m.ValidJump() ==> !r.faulted && r.next.currentPlayer != t.currentPlayer
  {
    var g := AfterMove(t.grid, m.fromR, m.fromC, m.toR, m.toC);
    if m.ValidJump() then
      match ValidJumps(g, t.currentPlayer, m.toR, m.toC)
      case OutOfBounds => Reply(t.(grid := g), true)
      case Done(Some(jumps)) =>
        Reply(t.(grid := g, selectRow := m.toR, selectCol := m.toC, validMoves := Some(jumps)), false)
      case Done(None) => Reply(PassTurn(t, g), false)
    else
      Reply(PassTurn(t, g), false)
  }

  /** What `tryClickCell` needs: a move list whose moves lie on the board. */
  predicate Clickable(t: Turn)
  {
    WellFormed(t.grid) && t.validMoves.Some? && forall m :: m in t.validMoves.value ==> OnBoard(m)
  }

  /** `tryClickCell(row, col)`: a click on the source of a listed move
      selects it; otherwise a click on the destination of the listed move
      from the selected square plays that move; any other click is
      ignored. */
  function Click(t: Turn, row: int, col: int): (r: Reply)
    requires Clickable(t)
    ensures WellFormed(r.next.grid)
    ensures r.faulted || r.next.grid != t.grid ==> Move(t.selectRow, t.selectCol, row, col) in t.validMoves.value
  {
    var ms := t.validMoves.value;
    if StartsAt(ms, row, col) then
      Reply(t.(selectRow := row, selectCol := col), false)
    else if Move(t.selectRow, t.selectCol, row, col) in ms then
      Play(t, Move(t.selectRow, t.selectCol, row, col))
    else
      Reply(t, false)
  }

  /** The guard of `mousePressed`: once the game is over clicks do nothing;
      the pixel-to-square conversion is not modelled. */
  function Press(t: Turn, row: int, col: int): (r: Reply)
    requires Consistent(t)
    ensures Consistent(r.next)
  {
    if !t.gameRunning then Reply(t, false)
    else
      ClickKeepsConsistent(t, row, col);
      Click(t, row, col)
  }

  /** The state after a sequence of clicks, each applied whether or not the
      previous one faulted. */
  function Run(t: Turn, clicks: seq<(int, int)>): (u: Turn)
    requires Consistent(t)
    ensures Consistent(u)
    decreases |clicks|
  {
    if clicks == [] then t
    else Run(Press(t, clicks[0].0, clicks[0].1).next, clicks[1..])
  }

  // ---------------------------------------------------------------------
  // Properties of a move

  /** Playing a listed move of a consistent state leads to a consistent
      state, whether the turn passes, continues, or the call faults. */
  lemma PlayKeepsConsistent(t: Turn, m: Move)
    requires Consistent(t) && t.validMoves.Some? && m in t.validMoves.value
    ensures Consistent(Play(t, m).next)
  {
    var g := AfterMove(t.grid, m.fromR, m.fromC, m.toR, m.toC);
    var r := Play(t, m);
    if m.ValidJump() && ValidJumps(g, t.currentPlayer, m.toR, m.toC).Done? &&
       ValidJumps(g, t.currentPlayer, m.toR, m.toC).value.Some?
    {
      var jumps := ValidJumps(g, t.currentPlayer, m.toR, m.toC).value.value;
      ValidJumpsMembers(g, t.currentPlayer, m.toR, m.toC);
      assert jumps[0] in jumps;
    } else if !(m.ValidJump() && ValidJumps(g, t.currentPlayer, m.toR, m.toC).OutOfBounds?) {
      ListOnBoard(g, Other(t.currentPlayer));
    }
  }

  /** A call faults only after a two-row move whose landing square lies in
      the last row or column, and then the board has moved while every
      other field keeps its old value; a continuation check that reads
      outside the board always makes the call fault. */
  lemma PlayFault(t: Turn, m: Move)
    requires WellFormed(t.grid) && OnBoard(m)
    ensures var r := Play(t, m);
      r.faulted ==>
        && m.ValidJump() && (m.toR == 7 || m.toC == 7)
        && r.next == t.(grid := AfterMove(t.grid, m.fromR, m.fromC, m.toR, m.toC))
    ensures var g := AfterMove(t.grid, m.fromR, m.fromC, m.toR, m.toC);
      m.ValidJump() && ValidJumps(g, t.currentPlayer, m.toR, m.toC) == OutOfBounds ==>
        Play(t, m) == Reply(t.(grid := g), true)
  {
    var g := AfterMove(t.grid, m.fromR, m.fromC, m.toR, m.toC);
    if m.ValidJump() {
      ValidJumpsFault(g, t.currentPlayer, m.toR, m.toC);
    }
  }

  /** After a two-row move, a non-`null` continuation list from the landing
      square keeps the turn with the same player, selects the landing
      square and offers exactly that list; a `null` one passes the turn.
      The same player keeps the turn, without a fault, only in the first
      case, and then every listed move is a jump from the landing square
      onto an EMPTY square of the board. */
  lemma ContinuationKeepsTurn(t: Turn, m: Move)
    requires WellFormed(t.grid) && OnBoard(m)
    ensures var r := Play(t, m);
      var g := AfterMove(t.grid, m.fromR, m.fromC, m.toR, m.toC);
      var vj := ValidJumps(g, t.currentPlayer, m.toR, m.toC);
      && ((!r.faulted && r.next.currentPlayer == t.currentPlayer) <==>
            (m.ValidJump() && vj.Done? && vj.value.Some?))
      && (m.ValidJump() && vj.Done? && vj.value.Some? ==>
            r == Reply(t.(grid := g, selectRow := m.toR, selectCol := m.toC, validMoves := vj.value), false))
      && (m.ValidJump() && vj == Done(None) ==> r == Reply(PassTurn(t, g), false))
      && (!r.faulted && r.next.currentPlayer == t.currentPlayer ==>
            forall n :: n in r.next.validMoves.value ==>
              && n.fromR == m.toR && n.fromC == m.toC
              && Abs(n.toR - n.fromR) == 2 && Abs(n.toC - n.fromC) == 2
              && InBounds(n.toR, n.toC) && g[n.toR][n.toC] == EMPTY)
  {
    var g := AfterMove(t.grid, m.fromR, m.fromC, m.toR, m.toC);
    ValidJumpsMembers(g, t.currentPlayer, m.toR, m.toC);
  }

  /** When the turn passes, it goes to the other player with nothing
      selected and that player's full move list, and the game ends exactly
      when that list is `null`. A one-row move always passes the turn. */
  lemma TurnPasses(t: Turn, m: Move)
    requires WellFormed(t.grid) && IsPlayer(t.currentPlayer) && t.gameRunning && OnBoard(m)
    ensures var r := Play(t, m);
      var g := AfterMove(t.grid, m.fromR, m.fromC, m.toR, m.toC);
      && (!m.ValidJump() ==> r.next.currentPlayer != t.currentPlayer)
      && (r.next.currentPlayer != t.currentPlayer ==>
            && !r.faulted
            && IsPlayer(r.next.currentPlayer)
            && r.next.selectRow == -2 && r.next.selectCol == -2
            && r.next.validMoves == ValidMoves(g, r.next.currentPlayer)
            && (r.next.gameRunning <==> ValidMoves(g, r.next.currentPlayer).Some?))
  {
  }

  // ---------------------------------------------------------------------
  // Properties of a click

  /** A click on a consistent running game leads to a consistent state. */
  lemma ClickKeepsConsistent(t: Turn, row: int, col: int)
    requires Consistent(t) && t.gameRunning
    ensures Clickable(t) && Consistent(Click(t, row, col).next)
  {
    var ms := t.validMoves.value;
    if !StartsAt(ms, row, col) && Move(t.selectRow, t.selectCol, row, col) in ms {
      PlayKeepsConsistent(t, Move(t.selectRow, t.selectCol, row, col));
    }
  }

  /** A click that is neither on the source of a listed move nor on the
      destination of a listed move from the selected square changes
      nothing; a click on a source only changes the selection. */
  lemma ClickIgnored(t: Turn, row: int, col: int)
    requires Clickable(t)
    ensures var r := Click(t, row, col);
      var ms := t.validMoves.value;
      && (!StartsAt(ms, row, col) && Move(t.selectRow, t.selectCol, row, col) !in ms ==> r == Reply(t, false))
      && (StartsAt(ms, row, col) ==>
            !r.faulted && r.next.selectRow == row && r.next.selectCol == col &&
            r.next == t.(selectRow := row, selectCol := col))
      && (r.next.grid != t.grid ==> Move(t.selectRow, t.selectCol, row, col) in ms)
  {
  }

  /** The board changes only by playing a listed move: the move from the
      selected square to the clicked one. Conversely, a click on the
      destination of that listed move, when it is not itself the source of
      a listed move, plays it. */
  lemma ClickAppliesOnlyListed(t: Turn, row: int, col: int)
    requires Clickable(t)
    ensures var r := Click(t, row, col);
      var m := Move(t.selectRow, t.selectCol, row, col);
      r.next.grid != t.grid ==>
        && m in t.validMoves.value
        && !StartsAt(t.validMoves.value, row, col)
        && r.next.grid == AfterMove(t.grid, m.fromR, m.fromC, m.toR, m.toC)
    ensures var m := Move(t.selectRow, t.selectCol, row, col);
      !StartsAt(t.validMoves.value, row, col) && m in t.validMoves.value ==>
        Click(t, row, col) == Play(t, m)
  {
  }

  /** Once the game is over no sequence of clicks changes anything. */
  lemma {:induction false} GameOverIsFinal(t: Turn, clicks: seq<(int, int)>)
    requires Consistent(t) && !t.gameRunning
    ensures Run(t, clicks) == t
    decreases |clicks|
  {
    if clicks != [] {
      GameOverIsFinal(t, clicks[1..]);
    }
  }

  // ---------------------------------------------------------------------
  // An opening

  /** From a new game, clicking (5, 0) selects it and clicking (4, 1) then
      moves that RED piece and hands the turn to WHITE with nothing
      selected. */
  lemma FirstMove(t0: Turn)
    requires AtStart(t0)
    ensures var t1 := Press(t0, 5, 0).next;
      var t2 := Press(t1, 4, 1).next;
      && t1.selectRow == 5 && t1.selectCol == 0 && t1.grid == t0.grid
      && t2.currentPlayer == WHITE && t2.selectRow == -2 && t2.selectCol == -2
      && t2.gameRunning
      && t2.grid[5][0] == EMPTY && t2.grid[4][1] == RED
  {
    var ms := OpeningList();
    assert ms[7].fromR == 5 && ms[7].fromC == 0;
    var t1 := t0.(selectRow := 5, selectCol := 0);
    assert Press(t0, 5, 0).next == t1;
    assert ms[0] == Move(5, 0, 4, 1);
    assert !StartsAt(ms, 4, 1);
    var g := AfterMove(InitialGrid(), 5, 0, 4, 1);
    MoveEffects(InitialGrid(), 5, 0, 4, 1);
    assert g[2][1] == WHITE && g[3][0] == EMPTY;
    assert Legal(g, WHITE, Move(2, 1, 3, 0), false) by {
      assert Accepts(g, WHITE, 2, 1, Dirs[3], false);
    }
    ValidMovesMembers(g, WHITE);
    assert Press(t1, 4, 1).next == PassTurn(t1, g);
  }
}
