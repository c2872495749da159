# Reversi rules engine and turn state machine

This project models the rules core of a small Reversi (Othello) game:

- **Pieces** (`pieces.dfy`): the `Piece` enum with its cyclic `next`, and the `Coord`
  value type with `equals` and `hashCode`.
- **Logic** (`logic.dfy`): the rules engine.
  - `isLegalPlay` walks the eight compass directions. It looks for a run of
    opponent pieces closed by one of the mover's own pieces.
  - `applyPlay` places the piece and flips every closed run in place, one direction
    at a time.
  - `legalPlays` scans the board in row-major order (`y` outer, `x` inner). Black's
    opening plays therefore come out as (3,2), (2,3), (5,4), (4,5)
    (`OpeningLegalPlays`).
- **Reversi** (`reversi.dfy`): the game.
  - `reset` seeds the four centre pieces and forces the turn to Black.
  - The turn handler shows the mover's plays, passes automatically to the other
    colour, or ends the game after two passes in a row.
  - The counting and winner part of `endGame` computes the score.

A board is a map from coordinates to pieces. The engine's methods are proved against
ghost specification functions (`Legal`, `AfterPlay`, `IsLegalPlayList`), and the
properties of the game are lemmas about those functions:

- capture counts;
- cells that do not change;
- uniqueness of the play list;
- the exact opening plays;
- the argmax scoring.

A `Coord` has `nat` fields. The source's constructor asserts that both components are
non-negative, so every construction in the model carries that proof obligation. In
particular, the walks build a coordinate only after the bounds test.

The reactive `turn` value is modelled as a direct call of the turn handler:

- `turn.updateForce(BLACK)` in `reset` becomes a call of `OnTurn(Black)`;
- `turn.update(color.next())` in the handler becomes a recursive call.

The handler's decreasing measure is the `lastPlayerPassed` flag, which shows that the
cascade stops. What the game hands to its view (the plays to show, or the final
outcome) is recorded in a `display` field.

## Model

| member | source | states |
|---|---|---|
| Pieces.Ordinal | core/src/main/java/reversi/core/Reversi.java:19-20 | a colour's ordinal indexes `values()` back to that colour |
| Pieces.ValuesEnumerate | core/src/main/java/reversi/core/Reversi.java:19-20 | `values()` lists every colour, each exactly once |
| Pieces.Next | core/src/main/java/reversi/core/Reversi.java:21 | `next` maps BLACK to WHITE and WHITE to BLACK, never to its argument |
| Pieces.NextInvolution | core/src/main/java/reversi/core/Reversi.java:21 | applying `next` twice gives back the colour |
| Pieces.Equals | core/src/main/java/reversi/core/Reversi.java:33-38 | two coordinates are `equals` exactly when they are the same value |
| Pieces.Xor | core/src/main/java/reversi/core/Reversi.java:39 | bitwise exclusive or of two non-negative ints is zero exactly when they are equal |
| Pieces.HashCode | core/src/main/java/reversi/core/Reversi.java:39 | `x ^ y` is zero exactly on the diagonal |
| Pieces.HashConsistent | core/src/main/java/reversi/core/Reversi.java:33-39 | `equals` coordinates have equal hash codes |
| Logic.InBounds | core/src/main/java/reversi/core/Logic.java:96-98 | a pair that passes the test lies on the `boardSize` grid, so its components are non-negative and the `Coord` built from it meets the constructor's assertion |
| Logic.DirectionsAreCompass | core/src/main/java/reversi/core/Logic.java:100-101 | DX/DY list exactly the eight distinct non-zero vectors with components in {-1, 0, 1} |
| Logic.RaysDisjoint | core/src/main/java/reversi/core/Logic.java:62-69 | two walks from one cell meet only in the same direction at the same distance |
| Logic.RayLeavesStart | core/src/main/java/reversi/core/Logic.java:64-67 | no step of a walk lands on the cell played |
| Logic.WalkLeavesBoard | core/src/main/java/reversi/core/Logic.java:40-43 | a walk from an on-board cell is off the board after `boardSize` steps, so the step limit never cuts a walk short |
| Logic.NoFlankPastStop | core/src/main/java/reversi/core/Logic.java:43-48 | a walk that stops at the edge, at an empty cell, or at an own piece right next to the start closes no run in that direction |
| Logic.FlanksUnique | core/src/main/java/reversi/core/Logic.java:40-48 | at most one distance closes a run in a direction |
| Logic.FlankSteps | core/src/main/java/reversi/core/Logic.java:40-48 | a closed run starts with an opponent piece, then either an own piece or another opponent piece and a further piece |
| Logic.Logic.constructor | core/src/main/java/reversi/core/Logic.java:27-29 | the engine keeps the board size it is given |
| Logic.Logic.IsLegalPlay | core/src/main/java/reversi/core/Logic.java:32-53 | true exactly when the cell is on the board and empty, and some direction has one or more opponent pieces followed by an own piece, with no gap |
| Logic.PlacedOnly | core/src/main/java/reversi/core/Logic.java:60 | before any direction is processed, the board is the old one with the piece placed |
| Logic.RayUnflipped | core/src/main/java/reversi/core/Logic.java:62-79 | flips made in earlier directions leave the cells of a later direction's walk unchanged |
| Logic.SkipDirection | core/src/main/java/reversi/core/Logic.java:65-78 | a direction whose walk ends at an empty cell or the edge flips nothing, and its pending list is dropped |
| Logic.FlipDirection | core/src/main/java/reversi/core/Logic.java:65-78 | a closed direction flips exactly the cells of its pending run |
| Logic.FlipDirectionMap | core/src/main/java/reversi/core/Logic.java:62-79 | processing one more direction moves the board to the specification with one more direction |
| Logic.Logic.ApplyDirection | core/src/main/java/reversi/core/Logic.java:62-79 | one pass of the outer loop moves the board from the play processed through `ii` directions to the play processed through `ii + 1`: the pending run is flipped only if an own piece closes it |
| Logic.Logic.FlipAll | core/src/main/java/reversi/core/Logic.java:74 | exactly the listed cells turn to the colour; all other cells and the key set stay the same |
| Logic.Logic.ApplyPlay | core/src/main/java/reversi/core/Logic.java:57-80 | the board after the call is `AfterPlay` of the board before: the piece placed and every closed run flipped |
| Logic.AfterPlayPlaces | core/src/main/java/reversi/core/Logic.java:60 | after a play the cell played holds the mover's colour, and the key set is the old one plus that cell |
| Logic.AfterPlayOffRays | core/src/main/java/reversi/core/Logic.java:57-80 | a cell on none of the eight walks from the cell played keeps its piece |
| Logic.AfterPlayKeepsOwn | core/src/main/java/reversi/core/Logic.java:70-74 | a cell either keeps its piece or turns to the mover's colour, so the mover's own pieces never change |
| Logic.AfterPlayOnRay | core/src/main/java/reversi/core/Logic.java:62-79 | a cell on a walk turns to the mover's colour exactly when an own piece further out closes its run; otherwise it is unchanged |
| Logic.CapturedAreOpponents | core/src/main/java/reversi/core/Logic.java:70-72 | every captured cell held an on-board opponent piece and is not the cell played |
| Logic.OwnAfterPlay | core/src/main/java/reversi/core/Logic.java:57-80 | after a play at an empty cell, the mover owns its old pieces plus the cell played plus the captures |
| Logic.OtherAfterPlay | core/src/main/java/reversi/core/Logic.java:57-80 | after a play, the opponent owns its old pieces minus the captures, and every capture was one of them |
| Logic.LegalPlayCapturesSome | core/src/main/java/reversi/core/Logic.java:32-80 | a legal play captures at least the first cell of a closed run |
| Logic.CountsAfterPlay | core/src/main/java/reversi/core/Logic.java:57-80 | after a play at an empty cell the mover's count rises by one plus the captures and the opponent's falls by the captures |
| Logic.LegalPlayCaptures | core/src/main/java/reversi/core/Logic.java:32-80 | a legal play captures at least one piece; the mover's count rises by one plus the captures and the opponent's falls by the captures |
| Logic.AfterPlayOnGrid | core/src/main/java/reversi/core/Logic.java:57-80 | a play on the grid keeps every piece on the grid |
| Logic.Logic.LegalPlays | core/src/main/java/reversi/core/Logic.java:83-94 | the result holds exactly the empty on-board cells where the play is legal, in strictly increasing row-major order |
| Logic.RowMajorListsEqual | core/src/main/java/reversi/core/Logic.java:86-90 | two strictly row-major lists with the same members are equal |
| Logic.LegalPlayListUnique | core/src/main/java/reversi/core/Logic.java:83-94 | only one list meets the description of `legalPlays`' result |
| Logic.LegalPlayListDistinct | core/src/main/java/reversi/core/Logic.java:83-94 | the legal-play list has no duplicates |
| Logic.Board.constructor | core/src/main/java/reversi/core/Reversi.java:44 | a new board has no pieces |
| Reversi.HighScore | core/src/main/java/reversi/core/Reversi.java:110-118 | the high score is at least 0, at least every count, and is either 0 or one of the counts |
| Reversi.TallyStep | core/src/main/java/reversi/core/Reversi.java:106 | counting one more piece raises only the tally of its own colour, by one |
| Reversi.CountPieces | core/src/main/java/reversi/core/Reversi.java:104-106 | `count[i]` is the number of pieces of the i-th colour on the board |
| Reversi.CountsCoverBoard | core/src/main/java/reversi/core/Reversi.java:104-106 | the Black and White counts add up to the number of occupied cells |
| Reversi.FindWinners | core/src/main/java/reversi/core/Reversi.java:108-119 | the high score is the maximum count, and `winners` lists, in enum order, exactly the colours whose count equals it |
| Reversi.OrderedPair | core/src/main/java/reversi/core/Reversi.java:111-119 | a winner list in enum order has at most two colours, and with two it is [BLACK, WHITE] |
| Reversi.OrderedChain | core/src/main/java/reversi/core/Reversi.java:111-119 | the first elements of a winner list are in increasing ordinal order |
| Reversi.WinnersAreArgmax | core/src/main/java/reversi/core/Reversi.java:108-119 | there is always a winner; one colour alone wins exactly when it has strictly more pieces; both are listed exactly when the counts are equal |
| Reversi.VerdictOf | core/src/main/java/reversi/core/Reversi.java:121-124 | the message announces a win exactly when there is one winner, and names that winner; otherwise it is a tie of all the winners |
| Reversi.VerdictMeaning | core/src/main/java/reversi/core/Reversi.java:121-124 | a single winner is announced exactly when that colour has more pieces, and a tie exactly when the counts are equal |
| Reversi.OutcomeVerdict | core/src/main/java/reversi/core/Reversi.java:102-124 | for the outcome of a board, Black is announced the winner exactly when it has more pieces, White exactly when it has more, and a tie exactly when the counts are equal |
| Reversi.StartPositionShape | core/src/main/java/reversi/core/Reversi.java:92-98 | the opening board has four pieces on the grid, two of each colour |
| Reversi.StartHasBlackPlay | core/src/main/java/reversi/core/Reversi.java:92-99 | on a board of side at least 4 Black has a legal play in the opening position |
| Reversi.OpeningFlank | core/src/main/java/reversi/core/Reversi.java:92-98 | on the 8 by 8 opening board every run Black can close starts at (3,2), (2,3), (5,4) or (4,5) |
| Reversi.OpeningLegalPlays | core/src/main/java/reversi/core/Logic.java:83-94 | from the 8 by 8 opening board, Black's legal plays are exactly (3,2), (2,3), (5,4), (4,5), in that order |
| Reversi.Reversi.constructor | core/src/main/java/reversi/core/Reversi.java:43-88 | a new game has size 8, the opening board, Black to move with the flag clear, and Black's four opening plays shown |
| Reversi.Reversi.Reset | core/src/main/java/reversi/core/Reversi.java:92-100 | the board is exactly the four centre pieces; the turn is Black, the flag is clear whatever it was before, and Black's four opening plays are shown |
| Reversi.Reversi.OnTurn | core/src/main/java/reversi/core/Reversi.java:71-85 | it never changes the board. With plays, the turn stays, the flag clears and the plays are shown. With no plays after a pass, the game ends with the outcome. With no plays otherwise, the flag is set and the other colour is evaluated. At most two evaluations run, and without a prior pass the game ends exactly when neither colour can play |
| Reversi.Reversi.EndGame | core/src/main/java/reversi/core/Reversi.java:102-124 | the game-over display carries the per-colour counts of the board, the winners computed from them and the win-or-tie verdict |

## Left out

- The scene-graph views (`GameView`, `BoardView`), the flip shader, and the platform
  launchers are UI and platform code. `GameView.showPlays` is modelled only as the
  `ShowPlays` value recorded in `display`.
- Move submission: the click handler in `GameView` is an unimplemented TODO, so the
  source has no move entry point. `ApplyPlay` is modelled but nothing in the game
  calls it.
- The game-over message is left out: its text, the canvas and layer rendering, and
  the click-to-restart listener are UI. Only its one decision, a single winner or a
  tie, is modelled: `EndGame` records `VerdictOf(winners)` in the outcome it
  displays.
- The `SceneGame` wiring (pointer, mouse, background layer) and the 33 ms update
  rate are not modelled.
- The listener lists of `RMap` and `Value` are replaced by direct synchronous calls.
  `Reset` and `OnTurn` call the turn handler directly.
- Java `assert` statements are checked proof obligations here (the `nat` fields of
  `Coord`), not runtime checks that may be switched off.
- `Coord.toString` is used only for display and is not modelled.
- The `evaluations` result of `OnTurn` is a ghost count of handler runs. It measures
  the cascade and is not a value the source has.
- The counting loop visits the board's keys and looks up each piece, where the source
  iterates `pieces.values()`. Both visit every piece once.
- Java `int` overflow is not modelled. Counts and coordinates stay below the board
  area (64), far from the 32-bit limits.
- `applyPlay` is split into three methods: `ApplyPlay` (the placement and the loop
  over directions), `ApplyDirection` (one pass of that loop) and `FlipAll` (the `for`
  over `toFlip`). The pending `toFlip` list is local to each pass and starts empty,
  which stands for `toFlip.clear()` at the end of the previous pass.
