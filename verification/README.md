# 5Head multiverse core, modelled in Dafny

5Head is a chess engine for 5D chess. A game's multiverse is a set of timelines, each a row of 2D boards, one board per ply. This project models the engine's multiverse data model:

- **`Board2D`** (module `Board`, file `board.dfy`): a 2D board kept in four fixed arrays. These are the piece on each square, the piece counts (slots 0 and 8 hold the two colour totals), a list of squares for each piece, and each occupied square's position in its list. `put_piece`, `remove_piece` and `passTurn` change the arrays or the side to move in place. `Valid` is the consistency between the arrays that the original keeps by hand, and both piece operations are proved to keep it. `set` (reading a board from FEN-like text) and `fen` (printing it) are character loops. They are proved against the pure text format of module `Fen` (`fen.dfy`). When no piece stands outside the board's width, `set` accepts what `fen` prints, and reading it back gives the board's width, cells and side to move.
- **`Timeline`** (module `Timelines`, `timeline.dfy`): a start time and colour, a one-way `active` flag and an append-only sequence of boards. Boards are addressed by ply with `plyToBoardIdx`.
- **`Position`** (module `Positions`, `position.dfy`):
  - It holds the central timeline and the timelines white created above it (`positiveLines`), and those black created below it (`negativeLines`, nearest first).
  - It also holds the counts of active non-central timelines on each side, the time of the present and the colour to move.
  - `set` builds one timeline per FEN.
  - `new_timeline` copies a board, passes its turn, starts a new timeline with it and updates the activation bookkeeping.
  - Both methods are proved against the pure state functions of module `Multiverse` (`multiverse.dfy`). `Mirrors(s)` relates the object graph to that value.
- **Integer encodings** (module `Types`, `types.dfy`): colours, pieces, squares and 2D directions. These are plain ints, as in the original.

The multiverse has one important property: `new_timeline` never changes the colour to move (`src/position.cpp:257-318`). `set` leaves every timeline active, so the opponent's timelines all stay active. Then the assert of the "reactivate an opposing timeline" path always fails, on either side (`Multiverse.ReactivationBlocked`). The original's asserts are the precondition `BranchAsserts` of `NewTimeline`, not something assumed. The balance the comments of `new_timeline` aim at is proved as `Multiverse.BranchFixedShape`, under the hypothesis that the position is already balanced.

## Model

| member | source | states |
|---|---|---|
| Types.OtherColor | src/types.h:113-115 | the other colour is different from c |
| Types.OtherColorInvolution | src/types.h:113-115 | other_color applied twice is the identity, and c and its other colour are WHITE and BLACK |
| Types.MakePiece | src/types.h:125-127 | make_piece gives a piece code below PIECE_NB whose color_of and type_of are the colour and type it was made of |
| Types.PieceDecomposition | src/types.h:125-135 | every piece code is make_piece of its colour and its type, and its type is in 0..7 |
| Types.RealPieces | src/types.h:34-39 | the real pieces (white 1..6, black 9..14) are exactly the codes whose type is PAWN..KING |
| Types.ColorSlot | src/position.h:181 | the colour-total slot of a piece is 0 or 8 and is never a real piece |
| Types.ColorSlotIsMakePiece | src/types.h:125-127 | the colour-total slot is make_piece(color_of(pc), ALL_PIECES) |
| Types.SquareCoordinates | src/types.h:121-147 | make_square2d of a file and rank in 0..7 is on the board, and file_of and rank_of give them back |
| Types.SquareDecomposition | src/types.h:137-147 | every board square has file and rank in 0..7 and is make_square2d of them |
| Types.NorthStep | src/types.h:66-74 | square + NORTH below rank 8 stays on the board one rank up, same file |
| Types.SouthStep | src/types.h:66-74 | square + SOUTH above rank 1 stays on the board one rank down, same file |
| Types.EastStep | src/types.h:108 | square + EAST left of file H stays on the board one file right, same rank |
| Types.WestStep | src/types.h:108 | square + WEST right of file A stays on the board one file left, same rank |
| Types.PawnPush | src/types.h:149-151 | pawn_push is NORTH or SOUTH |
| Types.PawnPushDirection | src/types.h:149-151 | the two colours push in opposite directions; white's push raises the rank by one, black's lowers it, the file stays |
| Fen.FindSpec | src/position.cpp:97 | `PieceToChar.find` gives the first index holding the character, and npos exactly when the character is absent |
| Fen.PieceCharFound | src/position.cpp:10 | every real piece has its own character in PieceToChar, found at the piece's code; it is not a blank, digit or '/' |
| Fen.FoundIsRealPiece | src/position.cpp:97-98 | a non-blank character found in PieceToChar is found at a real piece, so put_piece is only given real pieces |
| Fen.SideRead | src/position.cpp:103-105 | the side token is the character after the first blank, or the last character when there is none; WHITE exactly for 'w' |
| Fen.FenSide | src/position.cpp:135 | the printed text is the ranks, then a blank; the side read back is the side printed |
| Fen.FenWidth | src/position.cpp:118-133 | the width read back from the printed text is the board's width |
| Fen.FenPlacements | src/position.cpp:121-133 | the pieces read back from the printed text are the board's pieces, rank by rank from the top |
| Fen.FenRoundTrip | src/position.cpp:65-138 | reading what fen prints (width at most 8, no piece outside the width) gives back width, every cell and side to move |
| Fen.FenFits | src/position.cpp:114-138 | the printed text has a blank after its placement field, reads as a width of at most 8, and places its pieces on distinct board squares |
| Board.Put | src/position.h:177-182 | put_piece on the array contents gives arrays of the same sizes in which only the square's cell changes, to the piece |
| Board.PutBooks | src/position.h:177-182 | put_piece onto an empty square with list room keeps counts, totals, lists and indices consistent; only the piece's count grows, by one |
| Board.Remove | src/position.h:184-197 | remove_piece on the array contents gives arrays of the same sizes in which only the square's cell changes, to NO_PIECE |
| Board.RemoveBooks | src/position.h:184-197 | remove_piece from an occupied square keeps the bookkeeping consistent; only the removed piece's count drops, by one |
| Board.PutThenRemove | src/position.h:184-188 | put then remove on the same square restores the cells and all counts |
| Board.ClearedBooks | src/position.cpp:67-68 | the zeroed arrays (no pieces, zero counts, SQ_NONE lists) are consistent |
| Board.CountApply | src/position.cpp:91-101 | after placing pieces on distinct squares, each piece stands on as many cells as it was placed |
| Board.FenLoadable | src/position.cpp:65-138 | what fen prints for a board with at most 16 of each piece and no piece outside its width is text that set accepts |
| Board.Board2D.constructor | src/position.cpp:67-68 | a new board is the zeroed, valid, empty board of width 0 with WHITE to move |
| Board.Board2D.Clear | src/position.cpp:67-68 | the memset and fill_n that start set: all cells empty, counts 0, list entries SQ_NONE, indices 0, and valid |
| Board.Board2D.Copy | src/position.h:16 | the copy constructor gives fresh arrays with the same contents, width and side |
| Board.Board2D.CopyValid | src/position.h:16 | a copy of a valid board is valid |
| Board.Board2D.PieceOn | src/position.h:165-167 | piece_on is empty or a real piece, and a piece's square is listed at its index |
| Board.Board2D.Empty | src/position.h:169-171 | empty holds exactly when the square is in no piece's list |
| Board.Board2D.PutPiece | src/position.h:177-182 | the arrays become Put of what they were, and the board stays valid |
| Board.Board2D.RemovePiece | src/position.h:184-197 | the arrays become Remove of what they were, and the board stays valid |
| Board.Board2D.PassTurn | src/position.h:199-201 | the side to move flips, the width stays, validity is kept |
| Board.Board2D.Set | src/position.cpp:65-109 | after set, the board is valid and holds what Decode reads from the text: width, cells, side to move |
| Board.Board2D.ReadWidth | src/position.cpp:70-82 | the width loop computes Width, the unsigned-char square count of the first rank |
| Board.Board2D.ReadPieces | src/position.cpp:84-101 | the piece loop leaves the board holding every placement of the scan; it reads through the first blank |
| Board.Board2D.ScanPiece | src/position.cpp:91-100 | one character of the scan moves the cursor and places a piece exactly as Step says |
| Board.Board2D.Fen | src/position.cpp:114-138 | fen prints FenOf of the cells; when no piece is outside the width, set accepts the text and reading it back gives this board's width, cells and side to move |
| Board.Board2D.WriteRanks | src/position.cpp:121-133 | the rank loop prints the ranks top-down with '/' between them |
| Board.Board2D.WriteRank | src/position.cpp:122-130 | the file loop prints a rank, empty runs as digits and pieces as characters |
| Timelines.Timeline.constructor | src/position.cpp:193-196 | a new timeline has the given start, is inactive and has no boards |
| Timelines.Timeline.Activate | src/position.h:215-217 | activate makes the timeline active and leaves its boards |
| Timelines.Timeline.PlyToBoardIdx | src/position.cpp:198-202 | the index is negative exactly for plies before the timeline's start |
| Timelines.Timeline.PlyRoundTrip | src/position.cpp:198-202 | plyToBoardIdx and counting plies from the start are inverse to each other |
| Timelines.Timeline.PlyOrder | src/position.cpp:198-202 | white's ply, black's ply, and the next time's white ply have consecutive indices |
| Timelines.Timeline.HasBoardOnTurnAsWritten | src/position.h:227-230 | as written: true exactly for the plies before the timeline's start |
| Timelines.Timeline.HasBoardOnTurn | src/position.h:227-230 | corrected: true exactly when one of the boards is the board of that ply |
| Timelines.Timeline.HasBoardOnTurnInverted | src/position.h:227-230 | the as-written test holds only for plies with no board, and fails at the start ply of any non-empty timeline |
| Timelines.Timeline.BoardOnTurn | src/position.h:232-234 | board_on_turn gives the board of that ply |
| Timelines.Timeline.FirstBoard | src/position.h:219-221 | first_board is the board of the start ply |
| Timelines.Timeline.LastBoard | src/position.h:223-225 | last_board is the board of the latest ply held |
| Timelines.Timeline.AppendBoard | src/position.h:236-238 | the board is appended as the last board; earlier boards, the first board and the activity stay |
| Multiverse.Min | src/position.cpp:275 | std::min: at most both arguments, and one of them |
| Multiverse.Loaded | src/position.cpp:219-255 | the state set produces: lines on each side as given, all starting at 1 and active, the given side |
| Multiverse.BranchAsserts | src/position.cpp:276-305 | the asserts of new_timeline hold exactly when the line a reactivation path would activate is inactive: line -(p + 2) when white moves, line n + 2 (a white line) when black moves |
| Multiverse.Branch | src/position.cpp:257-318 | as written: side unchanged, the present never later; exactly one line added on the mover's side, active iff the mover has no more lines |
| Multiverse.BranchFixed | src/position.cpp:294-316 | corrected: as Branch, but black's second path also counts the white line it activates |
| Multiverse.LoadedCounters | src/position.cpp:251-252 | after set the two counters hold the numbers of active non-central lines |
| Multiverse.BranchFixedCounters | src/position.cpp:266-316 | with the missing count added, every branch keeps the counters accurate |
| Multiverse.BranchMissesCount | src/position.cpp:300-311 | as written, black's second path from a balanced, accurately counted position leaves the counters wrong and the position unbalanced; the fix repairs both |
| Multiverse.ShapeCounters | src/position.h:147-149 | in a balanced position the counters count the active lines |
| Multiverse.ShapeBalanced | src/position.cpp:269-316 | in a balanced position the two sides' active counts differ by at most one |
| Multiverse.LoadedShape | src/position.cpp:215-218 | set gives a balanced position exactly when the two sides' line counts differ by at most one |
| Multiverse.ShapeAsserts | src/position.cpp:277-283 | in a balanced position the lines the asserts examine are inactive |
| Multiverse.BranchFixedShape | src/position.cpp:266-316 | with the missing count added, a branch from a balanced position keeps it balanced |
| Multiverse.LoadedOpponent | src/position.cpp:230-249 | after set every line on both sides is active |
| Multiverse.BranchOpponent | src/position.cpp:257-318 | a branch keeps the side to move, and keeps the opponent's lines all active |
| Multiverse.ReactivationBlocked | src/position.cpp:276-311 | when the opponent's lines are all active, a branch taking either reactivation path fails its assert |
| Positions.Position.constructor | src/position.h:116 | a default position has no timelines |
| Positions.Position.NegativeTimelineCount | src/position.h:245-247 | negative_timeline_count is the count of black's lines in the mirrored state |
| Positions.Position.PositiveTimelineCount | src/position.h:249-252 | positive_timeline_count is the count of white's lines, central line excluded |
| Positions.Position.TimelineAt | src/position.h:253-258 | timeline(l) is a line of the position: positive l on white's side, negative l on black's |
| Positions.Position.Numbering | src/position.h:253-258 | in a valid position every timeline has exactly one number |
| Positions.Position.Set | src/position.cpp:219-255 | one active timeline per FEN, starting at time 1, with the board that FEN describes; negatives reversed; counters all lines; present 1; side of the central board |
| Positions.Position.LoadLines | src/position.cpp:230-249 | the two loops of set build distinct timelines, each loaded from its FEN |
| Positions.Position.LoadNegatives | src/position.cpp:230-239 | the first loop stores the negative FENs' timelines from the last FEN to the first |
| Positions.Position.LoadPositives | src/position.cpp:240-249 | the second loop stores the positive FENs' timelines in order |
| Positions.Position.LoadTimeline | src/position.cpp:231-236 | one loop body: a new timeline starting at 1 with its board's side, holding that one board, active |
| Positions.Position.LoadBoard | src/position.cpp:231-232 | a new board set from the FEN is valid and holds what the FEN describes |
| Positions.Position.Install | src/position.cpp:251-254 | the fields after the loops: the lines built, the counters, present 1 and the given side |
| Positions.Position.BranchTarget | src/position.cpp:258-259 | the board branched from is a board of timeline branchLine |
| Positions.Position.NewTimeline | src/position.cpp:257-318 | the returned board is a fresh deep copy of the target with the turn passed; it is the only board of one new timeline; bookkeeping follows Multiverse.Branch; other boards and the side to move stay |
| Positions.Position.CopyPassed | src/position.cpp:261-262 | a fresh copy of the target board with the other colour to move, valid if the target is |
| Positions.Position.StartTimeline | src/position.cpp:263-264 | the new timeline starts at the given time with the copy's side, inactive, holding the copy |
| Positions.Position.AddTimeline | src/position.cpp:266-315 | the new timeline is added on the mover's side and the bookkeeping follows Multiverse.Branch |
| Positions.Position.BranchWhite | src/position.cpp:269-294 | white's half of new_timeline follows Multiverse.Branch; the new timeline goes after the positive lines |
| Positions.Position.BranchBlack | src/position.cpp:295-315 | black's half of new_timeline follows Multiverse.Branch, so as written it does not count the white line it activates; the new timeline goes after the negative lines |

## Left out

- ASCII rendering is not modelled (`row_separator`, the three `operator<<`, the `printIndented` flag). It is debug output only.
- The test driver `src/test.cpp` is not modelled. It prints and asserts nothing.
- Ownership is not modelled (`shared_ptr`, raw `new`, the possible double delete). Boards are Dafny objects shared by reference, so the board `NewTimeline` returns is the object its new timeline holds.
- `std::vector<Timeline>` stores copies of timelines. The model stores references, and `Position.Valid` requires them to be distinct. No two slots of the original share a timeline either, so nothing observable changes.
- The `memset` and `fill_n` at the start of `Board2D::set` are the method `Clear`. The default constructor, which leaves the arrays indeterminate, is modelled as the zeroed board.
- `CastlingRights`, `Depth` and the generic operator macros are not modelled. `Square2D - Direction2D` and the `+=`/`-=` forms are `Shift` with a negated direction or a reassignment.
- The trivial getters are not modelled as members: `board_width`, `side_to_move`, `start_time`, `start_color`, `is_active`, `time_of_present` and `squares<Pt>`. The model reads the fields directly.
- The `short` counters and `int` times are unbounded integers; their overflow is not modelled. The `unsigned char` width accumulator of `set` does wrap modulo 256, as in the original.
- Board.Board2D.Set: requires `Loadable(fen)`, which is what the original assumes ("we assume here that the FEN is valid"):
  - The width scan meets a blank or '/' inside the text; otherwise the original reads past the string.
  - The width is at most 8, as the board class documents.
  - The pieces land on squares of the board, at most 16 of each; otherwise the arrays are indexed out of bounds.
  - No two pieces land on the same square; otherwise the first piece's list entry names a square it no longer occupies, and the counts and lists disagree with the cells.
- Board.Board2D.Set: text is modelled as a sequence of characters, not of bytes. The original reads its `std::string` one `char` at a time, so a non-ASCII character counts once per byte in the width loop, and `isspace`/`isdigit` on a negative `char` is undefined. The model counts each character once and gives no meaning to that undefined case.
- Board.Board2D.Set: the second `ss >> token` (reading past the side) is not modelled. It has no effect on the board.
- Positions.Position.Set: does not restate, for each loaded board, that its array bookkeeping is consistent. `LoadBoard` and `Board2D.Set` prove it for every board. Carrying it through the position's state was left out to keep the proof small.
- Positions.Position.NewTimeline: requires `HasBoardOnTurn` of the target ply (the corrected test), because the original indexes `boards` without testing the index. It also requires the target board's arrays to have their fixed sizes, which the original's array types guarantee. The abstract state `s` is a ghost parameter related to the object by `Mirrors(s)`.

## Findings

| source | as written | input that shows it | evidently intended | confidence | as-written member | corrected member |
|---|---|---|---|---|---|---|
| src/position.h:227-230 | `has_board_on_turn` answers true exactly when the ply's board index is negative, that is, for plies before the timeline starts | any timeline holding a board, asked about its own start ply (start time, start colour): index 0, answer false | true exactly when the index lies within the boards held | not executed; high | Timelines.Timeline.HasBoardOnTurnInverted | Timelines.Timeline.HasBoardOnTurn |
| src/position.cpp:300-311 | black's second path activates `positiveLines[neg_cnt + 2]` without incrementing `activePositiveLines`; white's path counts the line it activates (src/position.cpp:284-285) | black to move, no black lines, white lines central, active, inactive, inactive, `activePositiveLines` 1: after the branch two white lines are active but the counter says 1 | increment `activePositiveLines` on that path too | not executed; high, though the current code cannot reach it, see below | Multiverse.BranchMissesCount | Multiverse.BranchFixedCounters |

The as-written definitions are `Timelines.Timeline.HasBoardOnTurnAsWritten` and `Multiverse.Branch`; `Positions.Position.BranchBlack` follows the second as written. The corrected ones are `Timelines.Timeline.HasBoardOnTurn`, which `NewTimeline` and `BoardOnTurn` rely on, and `Multiverse.BranchFixed`, about which `BranchFixedCounters` and `BranchFixedShape` are proved.

Further observations:

- `new_timeline` never changes the position's colour to move (`Multiverse.BranchOpponent`, and the `sideToMove == old(sideToMove)` of `NewTimeline`). Only the side that `set` read from the central board ever branches.
- `set` activates every timeline (`Multiverse.LoadedOpponent`). So from any position reached by `set` and `new_timeline`, the timeline either reactivation path would activate is already active, and its assert fails (`Multiverse.ReactivationBlocked`). In the current code the second finding is therefore only reachable with asserts disabled, and there the line is already active, so the missing count does no harm. It matters once the colour to move alternates.
- The comment at src/position.cpp:301 says the inactive timeline is `-(neg_cnt + 2)`, a black line. The code activates `positiveLines[neg_cnt + 2]`, white's timeline `+(neg_cnt + 2)`. The model follows the code, and the postcondition of `Multiverse.BranchAsserts` names the line by its number.
