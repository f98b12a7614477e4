/** Cell values, the board as a value, moves, and the read-only rules of
    `CheckersInfo`: the legality of a single step or jump, the effect of
    `makeMove`, and the starting layout written by `setUpGame`. */
module Rules {

  /** The three cell values; there is no king. */
  const EMPTY := 0
  const RED := 1
  const WHITE := 2

  predicate IsCell(v: int) { v == EMPTY || v == RED || v == WHITE }

  predicate IsPlayer(p: int) { p == RED || p == WHITE }

  predicate InBounds(r: int, c: int) { 0 <= r < 8 && 0 <= c < 8 }

  function Abs(x: int): nat { if x < 0 then -x else x }

  /** What a check that may index outside the board yields: a value, or the
      `ArrayIndexOutOfBoundsException` the Java code would raise. */
  datatype Outcome<T> = Done(value: T) | OutOfBounds

  datatype Option<T> = None | Some(value: T)

  /** A snapshot of `int[][] board`: rows first, `g[row][col]`. */
  type Grid = seq<seq<int>>

  predicate WellFormed(g: Grid)
  {
    |g| == 8 &&
    forall r :: 0 <= r < 8 ==> |g[r]| == 8 && forall c :: 0 <= c < 8 ==> IsCell(g[r][c])
  }

  /** `CheckersMove`: source and destination square. */
  datatype Move = Move(fromR: int, fromC: int, toR: int, toC: int)
  {
    /** `validJump`: the move covers two rows. */
    predicate ValidJump(): (b: bool)
      ensures b <==> fromR == toR + 2 || toR == fromR + 2
    {
      Abs(fromR - toR) == 2
    }
  }

  /** The direction rule applied by both checks: a RED piece may not land on
      a larger row, a WHITE piece not on a smaller one. */
  predicate Forward(player: int, fromR: int, toR: int)
  {
    (player == RED ==> toR <= fromR) && (player == WHITE ==> toR >= fromR)
  }

  /** `checkMove(player, rx, cx, ry, cy)`. The direction rule is applied only
      when the source square holds `player` itself. */
  function CheckMove(g: Grid, player: int, rx: int, cx: int, ry: int, cy: int): (ok: bool)
    requires WellFormed(g) && InBounds(rx, cx)
    ensures ok <==>
      InBounds(ry, cy) && g[ry][cy] == EMPTY && IsPlayer(player) &&
      (g[rx][cx] == player ==> Forward(player, rx, ry))
  {
    if !InBounds(ry, cy) then false
    else if g[ry][cy] != EMPTY then false
    else if player == RED then !(g[rx][cx] == RED && ry > rx)
    else if player == WHITE then !(g[rx][cx] == WHITE && ry < rx)
    else false
  }

  /** `checkJump(player, rx, cx, ry, cy, rz, cz)`: (ry, cy) is the square
      jumped over, (rz, cz) the destination. The capture square is read only
      once the destination and direction tests have passed; reading it
      outside the board is the `OutOfBounds` outcome. An EMPTY capture
      square is accepted. */
  function CheckJump(g: Grid, player: int, rx: int, cx: int, ry: int, cy: int, rz: int, cz: int): (r: Outcome<bool>)
    requires WellFormed(g) && InBounds(rx, cx)
    ensures r == Done(true) <==>
      InBounds(rz, cz) && g[rz][cz] == EMPTY && IsPlayer(player) &&
      (g[rx][cx] == player ==> Forward(player, rx, rz)) &&
      InBounds(ry, cy) && g[ry][cy] != player
    ensures r == OutOfBounds <==>
      InBounds(rz, cz) && g[rz][cz] == EMPTY && IsPlayer(player) &&
      (g[rx][cx] == player ==> Forward(player, rx, rz)) &&
      !InBounds(ry, cy)
  {
    if !InBounds(rz, cz) then Done(false)
    else if g[rz][cz] != EMPTY then Done(false)
    else if player == RED then
      if g[rx][cx] == RED && rz > rx then Done(false)
      else if !InBounds(ry, cy) then OutOfBounds
      else Done(!(g[ry][cy] != WHITE && g[ry][cy] != EMPTY))
    else if player == WHITE then
      if g[rx][cx] == WHITE && rz < rx then Done(false)
      else if !InBounds(ry, cy) then OutOfBounds
      else Done(!(g[ry][cy] != RED && g[ry][cy] != EMPTY))
    else Done(false)
  }

  /** Two boards that agree on every square are the same board. */
  lemma SameSquares(g: Grid, h: Grid)
    requires |g| == |h| == 8
    requires forall r :: 0 <= r < 8 ==> |g[r]| == |h[r]| == 8
    requires forall r, c :: InBounds(r, c) ==> g[r][c] == h[r][c]
    ensures g == h
  {
    forall r | 0 <= r < 8 ensures g[r] == h[r] {
      assert forall c :: 0 <= c < 8 ==> g[r][c] == h[r][c];
    }
  }

  /** `g` with square (r, c) set to `v`. */
  function Set(g: Grid, r: int, c: int, v: int): (h: Grid)
    requires WellFormed(g) && InBounds(r, c) && IsCell(v)
    ensures WellFormed(h)
    ensures h[r][c] == v
    ensures forall i, j :: InBounds(i, j) && (i != r || j != c) ==> h[i][j] == g[i][j]
  {
    g[r := g[r][c := v]]
  }

  /** `makeMove(fromR, fromC, toR, toC)`, step by step as written: copy the
      source to the destination, clear the source, then, for a two-row move,
      clear the midpoint when it differs from the (by now cleared) source. */
  function AfterMove(g: Grid, fromR: int, fromC: int, toR: int, toC: int): (h: Grid)
    requires WellFormed(g) && InBounds(fromR, fromC) && InBounds(toR, toC)
    ensures WellFormed(h)
  {
    var g1 := Set(g, toR, toC, g[fromR][fromC]);
    var g2 := Set(g1, fromR, fromC, EMPTY);
    var midR, midC := (fromR + toR) / 2, (fromC + toC) / 2;
    if Abs(fromR - toR) == 2 && g2[fromR][fromC] != g2[midR][midC] then
      Set(g2, midR, midC, EMPTY)
    else
      g2
  }

  /** The value `setUpGame` writes to (row, col). */
  function InitialCell(row: int, col: int): int
  {
    if (row + col) % 2 == 0 then EMPTY
    else if row < 3 then WHITE
    else if row > 4 then RED
    else EMPTY
  }

  function InitialGrid(): (g: Grid)
    ensures WellFormed(g)
  {
    seq(8, r => seq(8, c => InitialCell(r, c)))
  }

  /** Number of entries of `s` equal to `v`. */
  function CountRow(s: seq<int>, v: int): nat
  {
    if s == [] then 0 else CountRow(s[..|s| - 1], v) + (if s[|s| - 1] == v then 1 else 0)
  }

  /** Number of squares of `g` holding `v`. */
  function Count(g: Grid, v: int): nat
  {
    if g == [] then 0 else Count(g[..|g| - 1], v) + CountRow(g[|g| - 1], v)
  }
}
