# Checkers rules engine and turn logic, modelled in Dafny

This project models the game core of `CheckersGUI.java`, a two-player
checkers program. The core has three parts:

- `CheckersInfo` holds the 8x8 board of cell values (EMPTY 0, RED 1,
  WHITE 2). It does the following:
  - lays out the starting position;
  - reads a square;
  - applies a move;
  - decides whether a single step or jump is legal;
  - lists every move of a player;
  - lists the continuation jumps from one square.
- `CheckersMove` is a source square and a destination square.
- `CheckersBoard` keeps the turn fields: `gameRunning`, `currentPlayer`,
  the selected square (`selectRow`, `selectCol`, -2 when nothing is
  selected) and `validMoves`. It turns clicks into selections and moves:
  - continuation jumps after a jump;
  - the hand-over to the other player;
  - the end of the game.

The model keeps the program's behaviour as written, including these quirks:

- `checkJump` accepts a jump over an EMPTY square.
- `makeMove` empties the midpoint of every two-row move. Its test compares
  the midpoint with the source square, which it has just emptied.
- `getValidJumps` names (row + 1, col + 1) as the square jumped over in
  all four of its checks. That square is read only after a check has found
  its destination on the board, EMPTY and in the player's direction; when
  it is then off the board, the read fails with an
  `ArrayIndexOutOfBoundsException`.

Layout:

- `rules.dfy` (module `Rules`): cell values, the board as a value (`Grid`),
  `Move`, `checkMove`, `checkJump`, the effect of `makeMove` (`AfterMove`),
  the starting layout, and piece counts.
- `board_facts.dfy` (module `BoardFacts`): lemmas on the starting layout and
  on what a move does to squares and piece counts.
- `move_lists.dfy` (module `MoveLists`): the two move lists as functions
  (`ValidMoves`, `ValidJumps`), with lemmas on their members, shape, order
  and failure case.
- `opening.dfy` (module `Opening`): RED's thirteen opening moves.
- `info.dfy` (module `Info`): class `CheckersInfo` over an `array2<int>`.
  Each method is proved against the functions above.
- `turns.dfy` (module `Turns`): the turn fields and board as a value
  (`Turn`), what each `CheckersBoard` operation makes of them, and the
  invariant they keep.
- `game.dfy` (module `Game`): class `CheckersBoard`. Each method is proved
  to produce the `Turns` result.

Modelling choices:

- A `null` move list is `None` of `Option<seq<Move>>`. A returned list is
  never empty.
- The exception of `getValidJumps` is the `OutOfBounds` value of
  `Outcome`. `tryMakeMove` and `tryClickCell` return it as a `faulted`
  flag. When it is set, the board has moved and every turn field still
  holds its old value, as when the exception leaves `tryMakeMove` before
  `validMoves` is assigned.
- `CheckersBoard.validMoves` holds a sequence rather than an array. The
  program never writes to those arrays after building them.

## Model

| member | source | states |
|---|---|---|
| Rules.Move.ValidJump | CheckersGUI.java:130-132 | a move is a jump exactly when its rows differ by two, in either direction |
| Rules.CheckMove | CheckersGUI.java:566-592 | true exactly when the destination is on the board and EMPTY, the value is RED or WHITE, and a source holding that player's own piece does not move against its direction (RED never to a larger row, WHITE never to a smaller one) |
| Rules.CheckJump | CheckersGUI.java:518-552 | `Done(true)` exactly when the destination is on the board and EMPTY, the value is a player, the direction rule holds, and the square jumped over is on the board and does not hold the jumper's colour, so an EMPTY one is accepted; `OutOfBounds` exactly when every test before the read of the square jumped over passes and that square is off the board |
| Rules.AfterMove | CheckersGUI.java:376-391 | applying a move keeps every square EMPTY, RED or WHITE |
| Rules.InitialGrid | CheckersGUI.java:330-346 | the starting layout is an 8x8 board of cell values |
| BoardFacts.InitialLayout | CheckersGUI.java:330-346 | squares with row + col even are EMPTY; odd squares hold WHITE in rows 0-2, nothing in rows 3-4 and RED in rows 5-7 |
| BoardFacts.InitialCounts | CheckersGUI.java:330-346 | the starting layout has 12 WHITE pieces, 12 RED pieces and 40 EMPTY squares |
| BoardFacts.CountSet | CheckersGUI.java:377-378 | writing one square changes each value's count by what was removed and what was written |
| BoardFacts.MoveEffects | CheckersGUI.java:376-391 | after `makeMove` the source is EMPTY, the destination holds the source's old value, the midpoint of a two-row move is EMPTY whatever it held, and every other square is unchanged |
| BoardFacts.MoveCounts | CheckersGUI.java:376-391 | onto an EMPTY destination, a move changes a value's count only by the occupied midpoint a two-row move clears |
| BoardFacts.StepKeepsCounts | CheckersGUI.java:376-391 | a one-row move onto an EMPTY square keeps every count |
| BoardFacts.JumpCapturesOne | CheckersGUI.java:376-391 | a jump onto an EMPTY square over an opponent's piece lowers the opponent's count by exactly one, keeps the mover's, and adds one EMPTY square |
| BoardFacts.JumpOverEmptyKeepsCounts | CheckersGUI.java:376-391 | a jump over an EMPTY square captures nothing |
| MoveLists.SquareMovesMembers | CheckersGUI.java:412-427 | the moves recorded for one square are exactly the accepted moves leaving it |
| MoveLists.ScanMovesMembers | CheckersGUI.java:411-445 | a pass over the first n rows records exactly the accepted moves leaving those rows |
| MoveLists.LegalShape | CheckersGUI.java:411-445 | an accepted move leaves a piece of the player for an on-board EMPTY square on the same diagonal, one row away for a step and two for a jump, RED towards smaller rows and WHITE towards larger ones; a jump's midpoint does not hold the player |
| MoveLists.ValidMoves | CheckersGUI.java:400-459 | `getValidMoves`: `null` for a value that is not a player, and a returned list is never empty; its members, shape and order are stated by `ValidMovesMembers`, `ValidMovesShape` and `ValidMovesOrder` |
| MoveLists.ScanJumpStaysInside | CheckersGUI.java:431-444 | no check of the jump pass of `getValidMoves` reads outside the board |
| MoveLists.ValidMovesMembers | CheckersGUI.java:400-459 | a returned list holds exactly the accepted steps and jumps; `null` exactly when the value is not a player or no piece of it has an accepted move |
| MoveLists.ValidMovesShape | CheckersGUI.java:400-459 | every listed move starts on a square holding the player and ends on an on-board EMPTY square with equal row and column distance of 1 or 2, and every step comes before every jump |
| MoveLists.RowOrder | CheckersGUI.java:412-427 | one row's moves are listed by column, then in the order (+1,+1), (-1,-1), (-1,+1), (+1,-1) |
| MoveLists.ScanOrder | CheckersGUI.java:411-445 | a pass lists moves in row-major order of their source, then in direction order |
| MoveLists.ValidMovesOrder | CheckersGUI.java:400-459 | within the steps and within the jumps, the moves are strictly ordered by source square in row-major order, then by direction |
| MoveLists.ContinuationCheck | CheckersGUI.java:478-490 | one check of `getValidJumps`: it can read off the board only from the last row or column, and it accepts only an on-board EMPTY destination with (row + 1, col + 1) on the board and not holding the player |
| MoveLists.CollectJumps | CheckersGUI.java:477-491 | the four checks of `getValidJumps` in order, collecting at most one move per check; `CollectJumpsMembers` states which |
| MoveLists.ValidJumps | CheckersGUI.java:471-502 | `getValidJumps`: `null` for a value that is not a player, and a returned list holds one to four moves; `ValidJumpsMembers` and `ValidJumpsFault` state its members and its failure |
| MoveLists.CollectJumpsMembers | CheckersGUI.java:479-490 | the checks of `getValidJumps` fail exactly when one of them reads (row + 1, col + 1) off the board; otherwise they record exactly the destinations they accept |
| MoveLists.ValidJumpsMembers | CheckersGUI.java:469-502 | `null` for a value that is not a player or a square not holding it; otherwise a list of moves from (row, col), two rows and two columns away, onto an on-board EMPTY square in the player's direction, present exactly when (row + 1, col + 1) is on the board and does not hold the player; for a square holding the player, `null` means that no check accepted a jump, and a returned list is never empty |
| MoveLists.ValidJumpsFault | CheckersGUI.java:479-490 | `getValidJumps` reads off the board exactly when the square holds the player, lies in row 7 or column 7, and some destination two squares away is on the board, EMPTY and in the player's direction |
| MoveLists.ContinuationReadsOutside | CheckersGUI.java:479-490 | a lone WHITE piece on (3, 7) makes `getValidJumps` read off the board |
| MoveLists.ContinuationJumpsOwnPiece | CheckersGUI.java:479-490 | with (3, 3) empty, a WHITE piece on (2, 2) is offered the jump to (4, 0) over its own piece on (3, 1), and the move removes that piece |
| Opening.QuietRows | CheckersGUI.java:411-445 | in the starting position RED has no move from any row but row 5 |
| Opening.Row5Steps | CheckersGUI.java:412-427 | RED's steps from row 5 at the start are the seven moves to row 4, in scan order |
| Opening.Row5Jumps | CheckersGUI.java:431-444 | RED's jumps from row 5 at the start are the six moves over row 4 to row 3, in scan order |
| Opening.OpeningMoves | CheckersGUI.java:400-459 | at the start, RED's move list is the thirteen-move opening list |
| Opening.OpeningListShape | CheckersGUI.java:169-187 | the opening list is seven one-row moves from row 5 to row 4, then six jumps from row 5 to row 3, each over an EMPTY square of row 4 |
| Info.CheckersInfo.constructor | CheckersGUI.java:321-324 | a new board is freshly allocated and holds the starting layout |
| Info.CheckersInfo.SetUpGame | CheckersGUI.java:330-346 | after the nested loops the board is exactly the starting layout |
| Info.CheckersInfo.PieceAt | CheckersGUI.java:357-359 | the value on a square, always EMPTY, RED or WHITE |
| Info.CheckersInfo.MakeMove | CheckersGUI.java:367-369 | the board becomes `AfterMove` of the old board for the move's squares |
| Info.CheckersInfo.MakeMoveAt | CheckersGUI.java:376-391 | the in-place writes leave the board equal to `AfterMove` of the old board, with every square still a cell value |
| Info.CheckersInfo.GetValidMoves | CheckersGUI.java:400-459 | the returned list equals `ValidMoves` of the board, whose members, shape and order are stated above |
| Info.CheckersInfo.Pass | CheckersGUI.java:411-445 | one nested row/column loop returns exactly the pass `ScanMoves` over all eight rows |
| Info.CheckersInfo.StepsFrom | CheckersGUI.java:413-426 | the four step checks record exactly the square's accepted steps, in direction order |
| Info.CheckersInfo.JumpsFrom | CheckersGUI.java:431-444 | the four jump checks record exactly the square's accepted jumps, in direction order |
| Info.CheckersInfo.GetValidJumps | CheckersGUI.java:471-502 | the result, including the off-board failure, equals `ValidJumps` of the board |
| Info.CheckersInfo.ToArrayContents | CheckersGUI.java:452-456 | the copy loop yields the collected moves unchanged |
| Turns.ListOnBoard | CheckersGUI.java:400-459 | every move `getValidMoves` lists lies on the board, so `makeMove` can apply it |
| Turns.PassTurn | CheckersGUI.java:234-251 | the hand-over: the board as given, the other player (always RED or WHITE), selection cleared; that the new list is that player's `getValidMoves` list and the game runs exactly while it is non-`null` is stated by `TurnPasses` |
| Turns.Play | CheckersGUI.java:221-255 | after `tryMakeMove` the board is `AfterMove` of the old board; a one-row move never faults and always hands the turn to the other player |
| Turns.Click | CheckersGUI.java:197-213 | a click moves the board or faults only by playing the listed move from the selected square to the clicked one |
| Turns.Press | CheckersGUI.java:293-297 | a click on a state satisfying the turn invariant leads to a state satisfying it |
| Turns.Run | CheckersGUI.java:293-297 | any sequence of clicks, including ones that fault, keeps the turn invariant |
| Turns.StartIsConsistent | CheckersGUI.java:169-187 | the state `newGame` leaves (starting layout, game running, RED to move with the opening list, nothing selected) satisfies the turn invariant |
| Turns.PlayKeepsConsistent | CheckersGUI.java:221-255 | playing a listed move keeps the invariant: the game runs exactly while there is a list, lists are non-empty and on the board, and a selection is cleared or the source of a listed move |
| Turns.PlayFault | CheckersGUI.java:221-227 | a move faults only when it is a two-row move landing in row 7 or column 7, and then the board has moved and no other field has changed; conversely, a two-row move whose continuation check reads off the board always faults |
| Turns.ContinuationKeepsTurn | CheckersGUI.java:224-254 | after a two-row move, a non-`null` continuation list from the landing square keeps the turn with the same player, selects the landing square and becomes exactly `validMoves`; a `null` one passes the turn; the same player keeps the turn without a fault exactly in the first case, and every listed move is then a jump from the landing square onto an on-board EMPTY square |
| Turns.TurnPasses | CheckersGUI.java:236-254 | a one-row move always passes the turn; a passed turn goes to the other player with nothing selected and that player's full list, and the game stops exactly when that list is `null` |
| Turns.ClickKeepsConsistent | CheckersGUI.java:197-213 | a click on a running game keeps the turn invariant |
| Turns.ClickIgnored | CheckersGUI.java:197-213 | a click that is neither on a listed source nor on the destination of the listed move from the selection changes nothing; a click on a listed source changes only the selection |
| Turns.ClickAppliesOnlyListed | CheckersGUI.java:205-211 | the board changes only when the move from the selected square to the clicked one is listed and the clicked square is no listed source, and the change is exactly that move; conversely, such a click plays that move (`Click` equals `Play` of it) |
| Turns.GameOverIsFinal | CheckersGUI.java:293-297 | once the game is over, no sequence of clicks changes the state |
| Turns.FirstMove | CheckersGUI.java:169-255 | from a new game, a click on (5, 0) selects it and a click on (4, 1) moves the piece, hands the turn to WHITE with nothing selected, and the game goes on |
| Game.CheckersBoard.constructor | CheckersGUI.java:160-164 | a new game object holds the starting state and the turn invariant |
| Game.CheckersBoard.NewGame | CheckersGUI.java:169-187 | the fields and board become the starting state, which satisfies the turn invariant |
| Game.CheckersBoard.TryClickCell | CheckersGUI.java:197-213 | the two scans produce exactly `Click` of the old state, and the turn invariant is kept |
| Game.CheckersBoard.FindSource | CheckersGUI.java:198-204 | the first loop finds a listed move leaving the clicked square exactly when one exists |
| Game.CheckersBoard.FindMove | CheckersGUI.java:206-212 | the second loop finds the move from the selected square to the clicked one exactly when it is listed |
| Game.CheckersBoard.TryMakeMove | CheckersGUI.java:221-255 | board and fields become exactly `Play` of the old state, fault included |
| Game.CheckersBoard.ContinueJump | CheckersGUI.java:225-251 | after a two-row move: a fault exactly when `getValidJumps` reads off the board, leaving the fields as they were; a non-`null` continuation list keeps the player, selects the landing square and becomes `validMoves`; a `null` one gives the hand-over state |
| Game.CheckersBoard.PassTurn | CheckersGUI.java:236-254 | the fields become the hand-over state: other player, that player's list, game stopped if it is `null`, selection cleared |

## Left out

- The JavaFX application is not modelled: `main`, `start`, the stage, the
  scene and the two buttons. It is user-interface wiring.
- "Player vs Computer" is not modelled. It starts the same game as
  "Player vs Player", and no computer player exists.
- `printBoard` is not modelled. It only draws the board.
- From `mousePressed`, only the `gameRunning` guard is modelled (as
  `Turns.Press`). The conversion of pixel coordinates to a square, and its
  always-true bounds test, are left out. `tryClickCell` takes any integers
  instead.
- `core.Checkers` and the unused `checkers` field are not part of this
  model.
- Kinging, forced capture and draw detection are absent from the program,
  so they are absent from the model too.
- Info.CheckersInfo.GetValidMoves: each of its two nested passes is a
  method of its own (`Pass`), working on a snapshot of the board taken at
  the start of the call. Nothing writes to the board during the call.
- Game.CheckersBoard.TryMakeMove: the continuation lookup after a two-row
  move is a method of its own (`ContinueJump`), and so is the hand-over at
  its end (`PassTurn`). The hand-over's two branches, identical apart from
  the player, are folded into one.
- Game.CheckersBoard.TryClickCell: its two loops are methods of their own
  (`FindSource`, `FindMove`) that report whether they found a match. The
  second loop compares the four fields of each listed move with the move
  from the selected square to the clicked one, so the move then played is
  that move rebuilt from those fields, equal to the listed one.
- Game.CheckersBoard.TryClickCell: it requires a non-`null` move list. The
  program would fail on a `null` dereference without one, and
  `mousePressed` only calls it while the game runs, which is exactly when
  the list is non-`null`.
- Game.CheckersBoard.TryMakeMove and Turns.Play: they require the move's
  squares to lie on the board. The program would throw inside `makeMove`
  otherwise. Every move they receive comes from a list, and every list lies
  on the board.
- What happens after the exception of `getValidJumps` is not modelled
  beyond the state it leaves: the event is abandoned and later clicks act
  on the old move list.
