/** The move lists of `CheckersInfo` as values: what `getValidMoves` and
    `getValidJumps` return, and what those lists are known to hold. */
module MoveLists {
  import opened Rules

  /** The order in which both scans try the four diagonals:
      (+1,+1), (-1,-1), (-1,+1), (+1,-1). */
  const Dirs: seq<(int, int)> := [(1, 1), (-1, -1), (-1, 1), (1, -1)]

  /** The candidate move from (r, c) along `d`: one square for a step, two
      for a jump. */
  function Reach(r: int, c: int, d: (int, int), jump: bool): Move
  {
    if jump then Move(r, c, r + 2 * d.0, c + 2 * d.1) else Move(r, c, r + d.0, c + d.1)
  }

  /** Whether `getValidMoves` accepts that candidate: a step is checked by
      `checkMove`, a jump by `checkJump` over the adjacent diagonal square. */
  predicate Accepts(g: Grid, player: int, r: int, c: int, d: (int, int), jump: bool)
    requires WellFormed(g) && InBounds(r, c)
  {
    if jump then CheckJump(g, player, r, c, r + d.0, c + d.1, r + 2 * d.0, c + 2 * d.1) == Done(true)
    else CheckMove(g, player, r, c, r + d.0, c + d.1)
  }

  function Pick(g: Grid, player: int, r: int, c: int, i: int, jump: bool): seq<Move>
    requires WellFormed(g) && InBounds(r, c) && 0 <= i < 4
  {
    if Accepts(g, player, r, c, Dirs[i], jump) then [Reach(r, c, Dirs[i], jump)] else []
  }

  /** What one pass records for square (r, c). */
  function SquareMoves(g: Grid, player: int, r: int, c: int, jump: bool): seq<Move>
    requires WellFormed(g) && InBounds(r, c)
  {
    if g[r][c] != player then []
    else Pick(g, player, r, c, 0, jump) + Pick(g, player, r, c, 1, jump) +
         Pick(g, player, r, c, 2, jump) + Pick(g, player, r, c, 3, jump)
  }

  /** What one pass records for squares (r, 0) .. (r, n - 1). */
  function RowMoves(g: Grid, player: int, r: int, n: nat, jump: bool): seq<Move>
    requires WellFormed(g) && 0 <= r < 8 && n <= 8
  {
    if n == 0 then [] else RowMoves(g, player, r, n - 1, jump) + SquareMoves(g, player, r, n - 1, jump)
  }

  /** What one pass records for rows 0 .. n - 1, in row-major order. */
  function ScanMoves(g: Grid, player: int, n: nat, jump: bool): seq<Move>
    requires WellFormed(g) && n <= 8
  {
    if n == 0 then [] else ScanMoves(g, player, n - 1, jump) + RowMoves(g, player, n - 1, 8, jump)
  }

  /** Appending the moves of square (r, n) to a list that holds `done`
      followed by the first n squares of row r gives `done` followed by the
      first n + 1. */
  lemma RowMovesNext(g: Grid, player: int, r: int, n: nat, jump: bool, done: seq<Move>, got: seq<Move>, found: seq<Move>)
    requires WellFormed(g) && 0 <= r < 8 && n < 8
    requires got == done + RowMoves(g, player, r, n, jump)
    requires found == SquareMoves(g, player, r, n, jump)
    ensures got + found == done + RowMoves(g, player, r, n + 1, jump)
  {
  }

  /** `getValidMoves(player)`: the step pass followed by the jump pass;
      `None` stands for the `null` returned for a value that is neither RED
      nor WHITE, or when both passes found nothing. */
  function ValidMoves(g: Grid, player: int): (r: Option<seq<Move>>)
    requires WellFormed(g)
    ensures !IsPlayer(player) ==> r == None
    ensures r.Some? ==> r.value != []
  {
    if player != WHITE && player != RED then None
    else
      var moves := ScanMoves(g, player, 8, false) + ScanMoves(g, player, 8, true);
      if moves == [] then None else Some(moves)
  }

  /** The first `n` checks of `getValidJumps(player, row, col)`. Every one
      of them names (row + 1, col + 1) as the square jumped over, whatever
      the destination; the first check that reads that square outside the
      board ends the whole call. */
  function CollectJumps(g: Grid, player: int, row: int, col: int, n: nat): (r: Outcome<seq<Move>>)
    requires WellFormed(g) && InBounds(row, col) && n <= 4
    ensures r.Done? ==> |r.value| <= n
  {
    if n == 0 then Done([])
    else
      match CollectJumps(g, player, row, col, n - 1)
      case OutOfBounds => OutOfBounds
      case Done(moves) =>
        match ContinuationCheck(g, player, row, col, n - 1)
        case OutOfBounds => OutOfBounds
        case Done(ok) => Done(if ok then moves + [Reach(row, col, Dirs[n - 1], true)] else moves)
  }

  /** The check `getValidJumps` makes for direction `Dirs[i]`: the right
      destination, but always (row + 1, col + 1) as the square jumped over. */
  function ContinuationCheck(g: Grid, player: int, row: int, col: int, i: int): (r: Outcome<bool>)
    requires WellFormed(g) && InBounds(row, col) && 0 <= i < 4
    ensures r == OutOfBounds ==> row == 7 || col == 7
    ensures r == Done(true) ==>
      && InBounds(row + 2 * Dirs[i].0, col + 2 * Dirs[i].1)
      && g[row + 2 * Dirs[i].0][col + 2 * Dirs[i].1] == EMPTY
      && InBounds(row + 1, col + 1) && g[row + 1][col + 1] != player
  {
    CheckJump(g, player, row, col, row + 1, col + 1, row + 2 * Dirs[i].0, col + 2 * Dirs[i].1)
  }

  /** `getValidJumps(player, row, col)`. */
  function ValidJumps(g: Grid, player: int, row: int, col: int): (r: Outcome<Option<seq<Move>>>)
    requires WellFormed(g) && InBounds(row, col)
    ensures !IsPlayer(player) ==> r == Done(None)
    ensures r.Done? && r.value.Some? ==> 0 < |r.value.value| <= 4
  {
    if player != WHITE && player != RED then Done(None)
    else if g[row][col] != player then Done(None)
    else
      match CollectJumps(g, player, row, col, 4)
      case OutOfBounds => OutOfBounds
      case Done(moves) => Done(if moves == [] then None else Some(moves))
  }

  // ---------------------------------------------------------------------
  // What the lists contain

  /** `m` is a move a pass of kind `jump` accepts: it leaves a square holding
      `player` along one of the four diagonals and the check accepts it. */
  ghost predicate Legal(g: Grid, player: int, m: Move, jump: bool)
    requires WellFormed(g)
  {
    InBounds(m.fromR, m.fromC) && g[m.fromR][m.fromC] == player &&
    exists i :: 0 <= i < 4 && m == Reach(m.fromR, m.fromC, Dirs[i], jump) &&
      Accepts(g, player, m.fromR, m.fromC, Dirs[i], jump)
  }

  lemma SquareMovesMembers(g: Grid, player: int, r: int, c: int, jump: bool, m: Move)
    requires WellFormed(g) && InBounds(r, c)
    ensures m in SquareMoves(g, player, r, c, jump) <==>
      m.fromR == r && m.fromC == c && Legal(g, player, m, jump)
  {
    if m.fromR == r && m.fromC == c && Legal(g, player, m, jump) {
      var i :| 0 <= i < 4 && m == Reach(r, c, Dirs[i], jump) && Accepts(g, player, r, c, Dirs[i], jump);
      assert m in Pick(g, player, r, c, i, jump);
    }
    if m in SquareMoves(g, player, r, c, jump) {
      var p0, p1 := Pick(g, player, r, c, 0, jump), Pick(g, player, r, c, 1, jump);
      var p2, p3 := Pick(g, player, r, c, 2, jump), Pick(g, player, r, c, 3, jump);
      assert m in p0 || m in p1 || m in p2 || m in p3;
    }
  }

  lemma {:induction false} RowMovesMembers(g: Grid, player: int, r: int, n: nat, jump: bool, m: Move)
    requires WellFormed(g) && 0 <= r < 8 && n <= 8
    ensures m in RowMoves(g, player, r, n, jump) <==>
      m.fromR == r && 0 <= m.fromC < n && Legal(g, player, m, jump)
  {
    if n > 0 {
      RowMovesMembers(g, player, r, n - 1, jump, m);
      SquareMovesMembers(g, player, r, n - 1, jump, m);
    }
  }

  lemma {:induction false} ScanMovesMembers(g: Grid, player: int, n: nat, jump: bool, m: Move)
    requires WellFormed(g) && n <= 8
    ensures m in ScanMoves(g, player, n, jump) <==>
      0 <= m.fromR < n && Legal(g, player, m, jump)
  {
    if n > 0 {
      ScanMovesMembers(g, player, n - 1, jump, m);
      RowMovesMembers(g, player, n - 1, 8, jump, m);
    }
  }

  /** What every accepted move looks like: it leaves a square holding
      `player` for an in-bounds EMPTY square on the same diagonal, one row
      away for a step and two for a jump, never against the player's
      direction; a jump passes over a square not holding `player`. */
  lemma LegalShape(g: Grid, player: int, m: Move, jump: bool)
    requires WellFormed(g) && Legal(g, player, m, jump)
    ensures IsPlayer(player)
    ensures InBounds(m.toR, m.toC) && g[m.toR][m.toC] == EMPTY
    ensures Abs(m.toR - m.fromR) == Abs(m.toC - m.fromC) == (if jump then 2 else 1)
    ensures player == RED ==> m.toR < m.fromR
    ensures player == WHITE ==> m.toR > m.fromR
    ensures jump ==> g[(m.fromR + m.toR) / 2][(m.fromC + m.toC) / 2] != player
  {
    var i :| 0 <= i < 4 && m == Reach(m.fromR, m.fromC, Dirs[i], jump) &&
      Accepts(g, player, m.fromR, m.fromC, Dirs[i], jump);
  }

  /** No check of the jump pass of `getValidMoves` reads outside the board:
      the square jumped over lies between two squares on the board. */
  lemma ScanJumpStaysInside(g: Grid, player: int, r: int, c: int, i: int)
    requires WellFormed(g) && InBounds(r, c) && 0 <= i < 4
    ensures CheckJump(g, player, r, c, r + Dirs[i].0, c + Dirs[i].1, r + 2 * Dirs[i].0, c + 2 * Dirs[i].1) != OutOfBounds
  {
  }

  /** `getValidMoves` lists exactly the accepted moves: steps from a
      square holding `player`, then jumps. It is `None` exactly when the
      value is not a player or no piece of that player has an accepted
      move, which is what ends the game. */
  lemma ValidMovesMembers(g: Grid, player: int)
    requires WellFormed(g)
    ensures ValidMoves(g, player).Some? ==>
      forall m :: m in ValidMoves(g, player).value <==>
        Legal(g, player, m, false) || Legal(g, player, m, true)
    ensures ValidMoves(g, player).None? <==>
      forall m :: !Legal(g, player, m, false) && !Legal(g, player, m, true)
  {
    forall m ensures m in ScanMoves(g, player, 8, false) + ScanMoves(g, player, 8, true) <==>
      Legal(g, player, m, false) || Legal(g, player, m, true)
    {
      ScanMovesMembers(g, player, 8, false, m);
      ScanMovesMembers(g, player, 8, true, m);
    }
    var moves := ScanMoves(g, player, 8, false) + ScanMoves(g, player, 8, true);
    if moves != [] {
      assert moves[0] in moves;
    }
    if !IsPlayer(player) {
      forall m ensures !Legal(g, player, m, false) && !Legal(g, player, m, true) {
        if Legal(g, player, m, false) { LegalShape(g, player, m, false); }
        if Legal(g, player, m, true) { LegalShape(g, player, m, true); }
      }
    }
  }

  /** Every move `getValidMoves` returns is well shaped, and all the steps
      come before all the jumps. */
  lemma ValidMovesShape(g: Grid, player: int)
    requires WellFormed(g) && ValidMoves(g, player).Some?
    ensures var ms := ValidMoves(g, player).value;
      && (forall i :: 0 <= i < |ms| ==>
            && InBounds(ms[i].fromR, ms[i].fromC) && g[ms[i].fromR][ms[i].fromC] == player
            && InBounds(ms[i].toR, ms[i].toC) && g[ms[i].toR][ms[i].toC] == EMPTY
            && Abs(ms[i].toR - ms[i].fromR) == Abs(ms[i].toC - ms[i].fromC)
            && 1 <= Abs(ms[i].toR - ms[i].fromR) <= 2)
      && (forall i, j :: 0 <= i < j < |ms| && ms[i].ValidJump() ==> ms[j].ValidJump())
  {
    var steps, jumps := ScanMoves(g, player, 8, false), ScanMoves(g, player, 8, true);
    var ms := steps + jumps;
    assert ms == ValidMoves(g, player).value;
    forall i | 0 <= i < |ms|
      ensures && InBounds(ms[i].fromR, ms[i].fromC) && g[ms[i].fromR][ms[i].fromC] == player
              && InBounds(ms[i].toR, ms[i].toC) && g[ms[i].toR][ms[i].toC] == EMPTY
              && Abs(ms[i].toR - ms[i].fromR) == Abs(ms[i].toC - ms[i].fromC)
              && (ms[i].ValidJump() <==> i >= |steps|)
              && 1 <= Abs(ms[i].toR - ms[i].fromR) <= 2
    {
      var jump := i >= |steps|;
      assert ms[i] in (if jump then jumps else steps);
      ScanMovesMembers(g, player, 8, jump, ms[i]);
      LegalShape(g, player, ms[i], jump);
    }
  }

  // ---------------------------------------------------------------------
  // Order within each pass

  /** Rank of a move in scan order: its source square in row-major order,
      then the direction's place in `Dirs`. */
  function Key(m: Move): int
  {
    m.fromR * 32 + m.fromC * 4 +
    (if m.toR > m.fromR && m.toC > m.fromC then 0
     else if m.toR < m.fromR && m.toC < m.fromC then 1
     else if m.toR < m.fromR then 2
     else 3)
  }

  ghost predicate Ascending(ms: seq<Move>)
  {
    forall i, j :: 0 <= i < j < |ms| ==> Key(ms[i]) < Key(ms[j])
  }

  ghost predicate KeysIn(ms: seq<Move>, lo: int, hi: int)
  {
    forall i :: 0 <= i < |ms| ==> lo <= Key(ms[i]) < hi
  }

  lemma AscendingConcat(a: seq<Move>, b: seq<Move>, lo: int, mid: int, hi: int)
    requires lo <= mid <= hi
    requires Ascending(a) && KeysIn(a, lo, mid)
    requires Ascending(b) && KeysIn(b, mid, hi)
    ensures Ascending(a + b) && KeysIn(a + b, lo, hi)
  {
    forall i, j | 0 <= i < j < |a + b| ensures Key((a + b)[i]) < Key((a + b)[j]) {
      if j < |a| {
      } else if i >= |a| {
        assert (a + b)[i] == b[i - |a|] && (a + b)[j] == b[j - |a|];
      } else {
        assert (a + b)[i] == a[i] && (a + b)[j] == b[j - |a|];
      }
    }
    forall i | 0 <= i < |a + b| ensures lo <= Key((a + b)[i]) < hi {
      if i >= |a| {
        assert (a + b)[i] == b[i - |a|];
      } else {
        assert (a + b)[i] == a[i];
      }
    }
  }

  lemma PickOrder(g: Grid, player: int, r: int, c: int, i: int, jump: bool)
    requires WellFormed(g) && InBounds(r, c) && 0 <= i < 4
    ensures Ascending(Pick(g, player, r, c, i, jump))
    ensures KeysIn(Pick(g, player, r, c, i, jump), r * 32 + c * 4 + i, r * 32 + c * 4 + i + 1)
  {
  }

  lemma SquareOrder(g: Grid, player: int, r: int, c: int, jump: bool)
    requires WellFormed(g) && InBounds(r, c)
    ensures Ascending(SquareMoves(g, player, r, c, jump))
    ensures KeysIn(SquareMoves(g, player, r, c, jump), r * 32 + c * 4, r * 32 + c * 4 + 4)
  {
    if g[r][c] == player {
      var base := r * 32 + c * 4;
      var p0, p1 := Pick(g, player, r, c, 0, jump), Pick(g, player, r, c, 1, jump);
      var p2, p3 := Pick(g, player, r, c, 2, jump), Pick(g, player, r, c, 3, jump);
      PickOrder(g, player, r, c, 0, jump);
      PickOrder(g, player, r, c, 1, jump);
      PickOrder(g, player, r, c, 2, jump);
      PickOrder(g, player, r, c, 3, jump);
      AscendingConcat(p0, p1, base, base + 1, base + 2);
      AscendingConcat(p0 + p1, p2, base, base + 2, base + 3);
      AscendingConcat(p0 + p1 + p2, p3, base, base + 3, base + 4);
    }
  }

  lemma {:induction false} RowOrder(g: Grid, player: int, r: int, n: nat, jump: bool)
    requires WellFormed(g) && 0 <= r < 8 && n <= 8
    ensures Ascending(RowMoves(g, player, r, n, jump))
    ensures KeysIn(RowMoves(g, player, r, n, jump), r * 32, r * 32 + n * 4)
  {
    if n > 0 {
      RowOrder(g, player, r, n - 1, jump);
      SquareOrder(g, player, r, n - 1, jump);
      AscendingConcat(RowMoves(g, player, r, n - 1, jump), SquareMoves(g, player, r, n - 1, jump),
        r * 32, r * 32 + (n - 1) * 4, r * 32 + n * 4);
    }
  }

  lemma {:induction false} ScanOrder(g: Grid, player: int, n: nat, jump: bool)
    requires WellFormed(g) && n <= 8
    ensures Ascending(ScanMoves(g, player, n, jump))
    ensures KeysIn(ScanMoves(g, player, n, jump), 0, n * 32)
  {
    if n > 0 {
      ScanOrder(g, player, n - 1, jump);
      RowOrder(g, player, n - 1, 8, jump);
      AscendingConcat(ScanMoves(g, player, n - 1, jump), RowMoves(g, player, n - 1, 8, jump),
        0, (n - 1) * 32, n * 32);
    }
  }

  /** Within the steps, and within the jumps, `getValidMoves` lists moves in
      row-major order of their source square and, from one square, in the
      order of `Dirs`; so no move is listed twice. */
  lemma ValidMovesOrder(g: Grid, player: int)
    requires WellFormed(g) && ValidMoves(g, player).Some?
    ensures var ms := ValidMoves(g, player).value;
      forall i, j :: 0 <= i < j < |ms| && ms[i].ValidJump() == ms[j].ValidJump() ==>
        Key(ms[i]) < Key(ms[j])
  {
    var steps, jumps := ScanMoves(g, player, 8, false), ScanMoves(g, player, 8, true);
    var ms := steps + jumps;
    ScanOrder(g, player, 8, false);
    ScanOrder(g, player, 8, true);
    ValidMovesShape(g, player);
    forall i, j | 0 <= i < j < |ms| && ms[i].ValidJump() == ms[j].ValidJump()
      ensures Key(ms[i]) < Key(ms[j])
    {
      if j < |steps| {
        assert ms[i] == steps[i] && ms[j] == steps[j];
      } else if i >= |steps| {
        assert ms[i] == jumps[i - |steps|] && ms[j] == jumps[j - |steps|];
      } else {
        assert ms[i] in steps && ms[j] in jumps;
        ScanMovesMembers(g, player, 8, false, ms[i]);
        ScanMovesMembers(g, player, 8, true, ms[j]);
        LegalShape(g, player, ms[i], false);
        LegalShape(g, player, ms[j], true);
      }
    }
  }

  // ---------------------------------------------------------------------
  // What getValidJumps returns

  lemma {:induction false} CollectJumpsMembers(g: Grid, player: int, row: int, col: int, n: nat)
    requires WellFormed(g) && InBounds(row, col) && n <= 4
    ensures CollectJumps(g, player, row, col, n) == OutOfBounds <==>
      exists i :: 0 <= i < n && ContinuationCheck(g, player, row, col, i) == OutOfBounds
    ensures CollectJumps(g, player, row, col, n).Done? ==>
      forall m :: m in CollectJumps(g, player, row, col, n).value <==>
        exists i :: 0 <= i < n && m == Reach(row, col, Dirs[i], true) &&
          ContinuationCheck(g, player, row, col, i) == Done(true)
  {
    if n > 0 {
      CollectJumpsMembers(g, player, row, col, n - 1);
    }
  }

  /** `getValidJumps` returns `None` for a value that is not a player and
      for a square not holding `player`; otherwise the jumps from (row, col)
      whose destination is on the board and EMPTY, in the player's
      direction, with (row + 1, col + 1) on the board and not holding
      `player`, whichever square is actually jumped over. For a square
      holding `player`, `None` means that no check accepted a jump, and a
      returned list is never empty. */
  lemma ValidJumpsMembers(g: Grid, player: int, row: int, col: int)
    requires WellFormed(g) && InBounds(row, col)
    ensures !IsPlayer(player) || g[row][col] != player ==> ValidJumps(g, player, row, col) == Done(None)
    ensures ValidJumps(g, player, row, col).Done? && ValidJumps(g, player, row, col).value.Some? ==>
      forall m :: m in ValidJumps(g, player, row, col).value.value <==>
        && m.fromR == row && m.fromC == col && IsPlayer(player) && g[row][col] == player
        && Abs(m.toR - row) == 2 && Abs(m.toC - col) == 2
        && InBounds(m.toR, m.toC) && g[m.toR][m.toC] == EMPTY && Forward(player, row, m.toR)
        && InBounds(row + 1, col + 1) && g[row + 1][col + 1] != player
    ensures IsPlayer(player) && g[row][col] == player && ValidJumps(g, player, row, col) == Done(None) ==>
      forall i :: 0 <= i < 4 ==> ContinuationCheck(g, player, row, col, i) != Done(true)
    ensures ValidJumps(g, player, row, col).Done? && ValidJumps(g, player, row, col).value.Some? ==>
      ValidJumps(g, player, row, col).value.value != []
  {
    if IsPlayer(player) && g[row][col] == player {
      CollectJumpsMembers(g, player, row, col, 4);
      var r := CollectJumps(g, player, row, col, 4);
      if r.Done? {
        forall i | 0 <= i < 4 && ContinuationCheck(g, player, row, col, i) == Done(true)
          ensures Reach(row, col, Dirs[i], true) in r.value
        {
        }
        forall m ensures m in r.value <==>
          && m.fromR == row && m.fromC == col
          && Abs(m.toR - row) == 2 && Abs(m.toC - col) == 2
          && InBounds(m.toR, m.toC) && g[m.toR][m.toC] == EMPTY && Forward(player, row, m.toR)
          && InBounds(row + 1, col + 1) && g[row + 1][col + 1] != player
        {
          if m.fromR == row && m.fromC == col && Abs(m.toR - row) == 2 && Abs(m.toC - col) == 2 {
            var i := if m.toR > row && m.toC > col then 0
                     else if m.toR < row && m.toC < col then 1
                     else if m.toR < row then 2
                     else 3;
            assert m == Reach(row, col, Dirs[i], true);
          }
        }
      }
    }
  }

  /** Destination `Dirs[i]` two squares from (row, col) is on the board,
      EMPTY, and in `player`'s direction. */
  predicate OpenLanding(g: Grid, player: int, row: int, col: int, i: int)
    requires WellFormed(g) && 0 <= i < 4
  {
    var r, c := row + 2 * Dirs[i].0, col + 2 * Dirs[i].1;
    InBounds(r, c) && g[r][c] == EMPTY && Forward(player, row, r)
  }

  /** `getValidJumps` reads outside the board exactly when the square holds
      `player`, it lies in the last row or the last column, and some
      destination is on the board, EMPTY and in the player's direction. */
  lemma ValidJumpsFault(g: Grid, player: int, row: int, col: int)
    requires WellFormed(g) && InBounds(row, col)
    ensures ValidJumps(g, player, row, col) == OutOfBounds <==>
      && IsPlayer(player) && g[row][col] == player && (row == 7 || col == 7)
      && exists i :: 0 <= i < 4 && OpenLanding(g, player, row, col, i)
  {
    CollectJumpsMembers(g, player, row, col, 4);
    if IsPlayer(player) && g[row][col] == player {
      if exists i :: 0 <= i < 4 && ContinuationCheck(g, player, row, col, i) == OutOfBounds {
        var i :| 0 <= i < 4 && ContinuationCheck(g, player, row, col, i) == OutOfBounds;
        assert OpenLanding(g, player, row, col, i);
      }
      if (row == 7 || col == 7) && exists i :: 0 <= i < 4 && OpenLanding(g, player, row, col, i) {
        var i :| 0 <= i < 4 && OpenLanding(g, player, row, col, i);
        assert ContinuationCheck(g, player, row, col, i) == OutOfBounds;
      }
    }
  }

  function EmptyGrid(): (g: Grid)
    ensures WellFormed(g)
  {
    seq(8, r => seq(8, c => EMPTY))
  }

  /** A WHITE piece that lands on (3, 7) with (5, 5) free makes the
      continuation check read square (4, 8), outside the board. */
  lemma ContinuationReadsOutside()
    ensures ValidJumps(Set(EmptyGrid(), 3, 7, WHITE), WHITE, 3, 7) == OutOfBounds
  {
    var g := Set(EmptyGrid(), 3, 7, WHITE);
    ValidJumpsFault(g, WHITE, 3, 7);
    assert OpenLanding(g, WHITE, 3, 7, 3);
  }

  /** With (3, 3) empty, `getValidJumps` lets the WHITE piece on (2, 2) jump
      to (4, 0) over (3, 1) although (3, 1) holds a WHITE piece too, and the
      move then removes that piece. */
  lemma ContinuationJumpsOwnPiece()
    ensures var g := Set(Set(EmptyGrid(), 2, 2, WHITE), 3, 1, WHITE);
      && ValidJumps(g, WHITE, 2, 2).Done?
      && ValidJumps(g, WHITE, 2, 2).value.Some?
      && Move(2, 2, 4, 0) in ValidJumps(g, WHITE, 2, 2).value.value
      && AfterMove(g, 2, 2, 4, 0)[3][1] == EMPTY
  {
    var g := Set(Set(EmptyGrid(), 2, 2, WHITE), 3, 1, WHITE);
    ValidJumpsFault(g, WHITE, 2, 2);
    ValidJumpsMembers(g, WHITE, 2, 2);
  }
}
