/** Facts about the board operations of `CheckersInfo`: the starting layout
    of `setUpGame` and the effect of `makeMove` on squares and piece counts. */
module BoardFacts {
  import opened Rules

  function Ind(b: bool): nat { if b then 1 else 0 }

  /** Overwriting one entry changes the count by what left and what came. */
  lemma {:induction false} CountRowSet(s: seq<int>, i: int, x: int, v: int)
    requires 0 <= i < |s|
    ensures CountRow(s[i := x], v) + Ind(s[i] == v) == CountRow(s, v) + Ind(x == v)
  {
    var n := |s| - 1;
    assert s[i := x][..n] == if i == n then s[..n] else s[..n][i := x];
    if i < n {
      CountRowSet(s[..n], i, x, v);
    }
  }

  lemma {:induction false} CountReplaceRow(g: Grid, i: int, row: seq<int>, v: int)
    requires 0 <= i < |g|
    ensures Count(g[i := row], v) + CountRow(g[i], v) == Count(g, v) + CountRow(row, v)
  {
    var n := |g| - 1;
    assert g[i := row][..n] == if i == n then g[..n] else g[..n][i := row];
    if i < n {
      CountReplaceRow(g[..n], i, row, v);
    }
  }

  /** Setting one square changes each count by what left and what came. */
  lemma CountSet(g: Grid, r: int, c: int, x: int, v: int)
    requires WellFormed(g) && InBounds(r, c) && IsCell(x)
    ensures Count(Set(g, r, c, x), v) + Ind(g[r][c] == v) == Count(g, v) + Ind(x == v)
  {
    CountRowSet(g[r], c, x, v);
    CountReplaceRow(g, r, g[r][c := x], v);
  }

  /** `setUpGame`: even squares are empty; odd squares hold WHITE in rows
      0-2, nothing in rows 3-4 and RED in rows 5-7. */
  lemma InitialLayout(r: int, c: int)
    requires InBounds(r, c)
    ensures (r + c) % 2 == 0 ==> InitialGrid()[r][c] == EMPTY
    ensures (r + c) % 2 == 1 && r <= 2 ==> InitialGrid()[r][c] == WHITE
    ensures (r + c) % 2 == 1 && 3 <= r <= 4 ==> InitialGrid()[r][c] == EMPTY
    ensures (r + c) % 2 == 1 && 5 <= r ==> InitialGrid()[r][c] == RED
  {
  }

  /** How many of the first `n` squares of starting row `r` hold `v`. */
  function InitialRowCount(r: int, n: nat, v: int): nat
  {
    var pieces := (n + r % 2) / 2;
    var piece := if r < 3 then WHITE else RED;
    if 3 <= r <= 4 then (if v == EMPTY then n else 0)
    else if v == EMPTY then n - pieces
    else if v == piece then pieces
    else 0
  }

  lemma {:induction false} InitialRowPrefix(r: int, n: nat, v: int)
    requires 0 <= r < 8 && n <= 8
    ensures CountRow(InitialGrid()[r][..n], v) == InitialRowCount(r, n, v)
  {
    if n > 0 {
      var s := InitialGrid()[r];
      var q := r % 2;
      assert s[..n][..n - 1] == s[..n - 1];
      assert s[n - 1] == InitialCell(r, n - 1);
      assert (r + n - 1) % 2 == (n - 1 + q) % 2;
      assert (n + q) / 2 == (n - 1 + q) / 2 + Ind((n - 1 + q) % 2 == 1);
      InitialRowPrefix(r, n - 1, v);
    }
  }

  lemma InitialRow(r: int, v: int)
    requires 0 <= r < 8
    ensures CountRow(InitialGrid()[r], v) == InitialRowCount(r, 8, v)
  {
    InitialRowPrefix(r, 8, v);
    assert InitialGrid()[r][..8] == InitialGrid()[r];
  }

  lemma {:induction false} InitialPrefixCount(k: nat, v: int)
    requires k <= 8
    ensures Count(InitialGrid()[..k], v) ==
      if v == EMPTY then 4 * k + 4 * Ind(k > 3) + 4 * Ind(k > 4)
      else if v == WHITE then 4 * (if k < 3 then k else 3)
      else if v == RED then 4 * (if k > 5 then k - 5 else 0)
      else 0
  {
    if k > 0 {
      var g := InitialGrid();
      assert g[..k][..k - 1] == g[..k - 1];
      InitialRow(k - 1, v);
      InitialPrefixCount(k - 1, v);
    }
  }

  /** The starting layout has twelve pieces a side and forty empty squares. */
  lemma InitialCounts()
    ensures Count(InitialGrid(), WHITE) == 12
    ensures Count(InitialGrid(), RED) == 12
    ensures Count(InitialGrid(), EMPTY) == 40
  {
    assert InitialGrid()[..8] == InitialGrid();
    InitialPrefixCount(8, WHITE);
    InitialPrefixCount(8, RED);
    InitialPrefixCount(8, EMPTY);
  }

  /** `makeMove` square by square: the source ends EMPTY, the destination
      holds the source's old piece, a two-row move always ends with an EMPTY
      midpoint (whoever was there), and nothing else changes. */
  lemma MoveEffects(g: Grid, fromR: int, fromC: int, toR: int, toC: int)
    requires WellFormed(g) && InBounds(fromR, fromC) && InBounds(toR, toC)
    ensures var h := AfterMove(g, fromR, fromC, toR, toC);
      var jump, midR, midC := Abs(fromR - toR) == 2, (fromR + toR) / 2, (fromC + toC) / 2;
      && h[fromR][fromC] == EMPTY
      && (toR != fromR || toC != fromC ==> h[toR][toC] == g[fromR][fromC])
      && (jump ==> h[midR][midC] == EMPTY)
      && forall r, c ::
           InBounds(r, c) && (r != fromR || c != fromC) && (r != toR || c != toC) &&
           !(jump && r == midR && c == midC)
           ==> h[r][c] == g[r][c]
  {
  }

  /** The piece counts after `makeMove` when the destination was EMPTY. */
  lemma MoveCounts(g: Grid, fromR: int, fromC: int, toR: int, toC: int, v: int)
    requires WellFormed(g) && InBounds(fromR, fromC) && InBounds(toR, toC)
    requires (fromR, fromC) != (toR, toC) && g[toR][toC] == EMPTY
    ensures var mid := g[(fromR + toR) / 2][(fromC + toC) / 2];
      var captured := Abs(fromR - toR) == 2 && mid != EMPTY;
      Count(AfterMove(g, fromR, fromC, toR, toC), v) + Ind(captured && mid == v)
        == Count(g, v) + Ind(captured && v == EMPTY)
  {
    var piece := g[fromR][fromC];
    var g1 := Set(g, toR, toC, piece);
    var g2 := Set(g1, fromR, fromC, EMPTY);
    CountSet(g, toR, toC, piece, v);
    CountSet(g1, fromR, fromC, EMPTY, v);
    if Abs(fromR - toR) == 2 {
      var midR, midC := (fromR + toR) / 2, (fromC + toC) / 2;
      assert g2[midR][midC] == g[midR][midC];
      CountSet(g2, midR, midC, EMPTY, v);
    }
  }

  /** A simple move onto an EMPTY square keeps every count. */
  lemma StepKeepsCounts(g: Grid, fromR: int, fromC: int, toR: int, toC: int, v: int)
    requires WellFormed(g) && InBounds(fromR, fromC) && InBounds(toR, toC)
    requires Abs(fromR - toR) == 1 && g[toR][toC] == EMPTY
    ensures Count(AfterMove(g, fromR, fromC, toR, toC), v) == Count(g, v)
  {
    MoveCounts(g, fromR, fromC, toR, toC, v);
  }

  /** A jump by `player` onto an EMPTY square over an opponent's piece
      takes exactly that piece: the opponent loses one, the mover none, and
      one more square is EMPTY. */
  lemma JumpCapturesOne(g: Grid, player: int, fromR: int, fromC: int, toR: int, toC: int)
    requires WellFormed(g) && InBounds(fromR, fromC) && InBounds(toR, toC)
    requires IsPlayer(player) && g[fromR][fromC] == player
    requires Abs(fromR - toR) == 2 && g[toR][toC] == EMPTY
    requires g[(fromR + toR) / 2][(fromC + toC) / 2] == RED + WHITE - player
    ensures var h := AfterMove(g, fromR, fromC, toR, toC);
      && Count(h, RED + WHITE - player) == Count(g, RED + WHITE - player) - 1
      && Count(h, player) == Count(g, player)
      && Count(h, EMPTY) == Count(g, EMPTY) + 1
  {
    MoveCounts(g, fromR, fromC, toR, toC, RED + WHITE - player);
    MoveCounts(g, fromR, fromC, toR, toC, player);
    MoveCounts(g, fromR, fromC, toR, toC, EMPTY);
  }

  /** A jump over an EMPTY square, which `checkJump` allows, captures
      nothing. */
  lemma JumpOverEmptyKeepsCounts(g: Grid, fromR: int, fromC: int, toR: int, toC: int, v: int)
    requires WellFormed(g) && InBounds(fromR, fromC) && InBounds(toR, toC)
    requires Abs(fromR - toR) == 2 && g[toR][toC] == EMPTY
    requires g[(fromR + toR) / 2][(fromC + toC) / 2] == EMPTY
    ensures Count(AfterMove(g, fromR, fromC, toR, toC), v) == Count(g, v)
  {
    MoveCounts(g, fromR, fromC, toR, toC, v);
  }
}
