/** The moves RED has in the starting position, which `newGame` stores as
    the first list of the game. */
module Opening {
  import opened Rules
  import opened MoveLists

  lemma {:induction false} RowWithoutMoves(g: Grid, player: int, r: int, n: nat, jump: bool)
    requires WellFormed(g) && 0 <= r < 8 && n <= 8
    requires forall c :: 0 <= c < n ==> SquareMoves(g, player, r, c, jump) == []
    ensures RowMoves(g, player, r, n, jump) == []
  {
    if n > 0 {
      RowWithoutMoves(g, player, r, n - 1, jump);
    }
  }

  /** Rows 0-4 hold no RED piece, and the RED pieces of rows 6 and 7 are
      hemmed in by their own side. */
  lemma QuietRows(g: Grid, r: int, jump: bool)
    requires g == InitialGrid() && 0 <= r < 8 && r != 5
    ensures RowMoves(g, RED, r, 8, jump) == []
  {
    forall c | 0 <= c < 8 ensures SquareMoves(g, RED, r, c, jump) == [] {
      if g[r][c] == RED {
        assert r >= 6 && (r + c) % 2 == 1;
        forall i | 0 <= i < 4 ensures Pick(g, RED, r, c, i, jump) == [] {
          var d := Dirs[i];
          if InBounds(r + d.0, c + d.1) {
            assert (r + d.0 + c + d.1) % 2 == 1;
          }
        }
      }
    }
    RowWithoutMoves(g, RED, r, 8, jump);
  }

  /** The lists of squares (r, 0) .. (r, n - 1), given square by square. */
  function RowOf(f: int -> seq<Move>, n: nat): seq<Move>
  {
    if n == 0 then [] else RowOf(f, n - 1) + f(n - 1)
  }

  /** A row whose squares record `f(0)`, ..., `f(7)` records their
      concatenation. */
  lemma {:induction false} RowOfSquares(g: Grid, player: int, r: int, jump: bool, f: int -> seq<Move>, n: nat)
    requires WellFormed(g) && 0 <= r < 8 && n <= 8
    requires forall c :: 0 <= c < 8 ==> SquareMoves(g, player, r, c, jump) == f(c)
    ensures RowMoves(g, player, r, n, jump) == RowOf(f, n)
  {
    if n > 0 {
      RowOfSquares(g, player, r, jump, f, n - 1);
    }
  }

  /** What the step pass records for (5, c) at the start. */
  function Row5Step(c: int): seq<Move>
  {
    if c % 2 == 1 then []
    else (if c > 0 then [Move(5, c, 4, c - 1)] else []) + (if c < 7 then [Move(5, c, 4, c + 1)] else [])
  }

  /** What the jump pass records for (5, c) at the start. */
  function Row5Jump(c: int): seq<Move>
  {
    if c % 2 == 1 then []
    else (if c > 1 then [Move(5, c, 3, c - 2)] else []) + (if c < 6 then [Move(5, c, 3, c + 2)] else [])
  }

  /** The steps from (5, c): towards (4, c - 1) and (4, c + 1). */
  lemma Row5StepSquare(g: Grid, c: int)
    requires g == InitialGrid() && 0 <= c < 8
    ensures SquareMoves(g, RED, 5, c, false) == Row5Step(c)
  {
    if c % 2 == 0 {
      assert Pick(g, RED, 5, c, 0, false) == [];
      assert Pick(g, RED, 5, c, 3, false) == [];
    }
  }

  /** The jumps from (5, c): over row 4 to (3, c - 2) and (3, c + 2). */
  lemma Row5JumpSquare(g: Grid, c: int)
    requires g == InitialGrid() && 0 <= c < 8
    ensures SquareMoves(g, RED, 5, c, true) == Row5Jump(c)
  {
    if c % 2 == 0 {
      assert Pick(g, RED, 5, c, 0, true) == [];
      assert Pick(g, RED, 5, c, 3, true) == [];
    }
  }

  lemma Row5StepList()
    ensures RowOf(Row5Step, 8) ==
      [Move(5, 0, 4, 1), Move(5, 2, 4, 1), Move(5, 2, 4, 3), Move(5, 4, 4, 3),
       Move(5, 4, 4, 5), Move(5, 6, 4, 5), Move(5, 6, 4, 7)]
  {
    assert RowOf(Row5Step, 3) == [Move(5, 0, 4, 1), Move(5, 2, 4, 1), Move(5, 2, 4, 3)];
    assert RowOf(Row5Step, 5) == RowOf(Row5Step, 3) + [Move(5, 4, 4, 3), Move(5, 4, 4, 5)];
  }

  lemma Row5JumpList()
    ensures RowOf(Row5Jump, 8) ==
      [Move(5, 0, 3, 2), Move(5, 2, 3, 0), Move(5, 2, 3, 4), Move(5, 4, 3, 2),
       Move(5, 4, 3, 6), Move(5, 6, 3, 4)]
  {
    assert RowOf(Row5Jump, 3) == [Move(5, 0, 3, 2), Move(5, 2, 3, 0), Move(5, 2, 3, 4)];
    assert RowOf(Row5Jump, 5) == RowOf(Row5Jump, 3) + [Move(5, 4, 3, 2), Move(5, 4, 3, 6)];
  }

  lemma Row5Steps(g: Grid)
    requires g == InitialGrid()
    ensures RowMoves(g, RED, 5, 8, false) ==
      [Move(5, 0, 4, 1), Move(5, 2, 4, 1), Move(5, 2, 4, 3), Move(5, 4, 4, 3),
       Move(5, 4, 4, 5), Move(5, 6, 4, 5), Move(5, 6, 4, 7)]
  {
    forall c | 0 <= c < 8 ensures SquareMoves(g, RED, 5, c, false) == Row5Step(c) {
      Row5StepSquare(g, c);
    }
    RowOfSquares(g, RED, 5, false, Row5Step, 8);
    Row5StepList();
  }

  lemma Row5Jumps(g: Grid)
    requires g == InitialGrid()
    ensures RowMoves(g, RED, 5, 8, true) ==
      [Move(5, 0, 3, 2), Move(5, 2, 3, 0), Move(5, 2, 3, 4), Move(5, 4, 3, 2),
       Move(5, 4, 3, 6), Move(5, 6, 3, 4)]
  {
    forall c | 0 <= c < 8 ensures SquareMoves(g, RED, 5, c, true) == Row5Jump(c) {
      Row5JumpSquare(g, c);
    }
    RowOfSquares(g, RED, 5, true, Row5Jump, 8);
    Row5JumpList();
  }

  lemma OneRowScan(g: Grid, jump: bool)
    requires g == InitialGrid()
    ensures ScanMoves(g, RED, 8, jump) == RowMoves(g, RED, 5, 8, jump)
  {
    QuietRows(g, 0, jump); QuietRows(g, 1, jump); QuietRows(g, 2, jump); QuietRows(g, 3, jump);
    QuietRows(g, 4, jump); QuietRows(g, 6, jump); QuietRows(g, 7, jump);
    assert ScanMoves(g, RED, 1, jump) == [];
    assert ScanMoves(g, RED, 2, jump) == [];
    assert ScanMoves(g, RED, 3, jump) == [];
    assert ScanMoves(g, RED, 4, jump) == [];
    assert ScanMoves(g, RED, 5, jump) == [];
    assert ScanMoves(g, RED, 6, jump) == RowMoves(g, RED, 5, 8, jump);
    assert ScanMoves(g, RED, 7, jump) == ScanMoves(g, RED, 6, jump);
  }

  /** The thirteen moves RED has in the starting position, in the order
      `getValidMoves` lists them. */
  function OpeningList(): seq<Move>
  {
    [Move(5, 0, 4, 1), Move(5, 2, 4, 1), Move(5, 2, 4, 3), Move(5, 4, 4, 3),
     Move(5, 4, 4, 5), Move(5, 6, 4, 5), Move(5, 6, 4, 7),
     Move(5, 0, 3, 2), Move(5, 2, 3, 0), Move(5, 2, 3, 4), Move(5, 4, 3, 2),
     Move(5, 4, 3, 6), Move(5, 6, 3, 4)]
  }

  /** In the starting position RED, who moves first, has thirteen moves:
      seven steps from row 5 to row 4, then six jumps from row 5 to row 3,
      each over an EMPTY square of row 4. */
  lemma OpeningMoves(g: Grid)
    requires g == InitialGrid()
    ensures ValidMoves(g, RED) == Some(OpeningList())
  {
    OpeningScan(g);
    assert OpeningList() != [];
  }

  lemma OpeningScan(g: Grid)
    requires g == InitialGrid()
    ensures ScanMoves(g, RED, 8, false) + ScanMoves(g, RED, 8, true) == OpeningList()
  {
    OneRowScan(g, false);
    OneRowScan(g, true);
    Row5Steps(g);
    Row5Jumps(g);
  }

  lemma OpeningListShape()
    ensures var ms := OpeningList();
      && |ms| == 13
      && (forall i :: 0 <= i < 7 ==> !ms[i].ValidJump() && ms[i].fromR == 5 && ms[i].toR == 4)
      && (forall i :: 7 <= i < 13 ==>
            ms[i].ValidJump() && ms[i].fromR == 5 && ms[i].toR == 3 &&
            InitialGrid()[4][(ms[i].fromC + ms[i].toC) / 2] == EMPTY)
  {
  }
}
