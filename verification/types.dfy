/**
 * The integer encodings every other module is built on: colours, piece
 * types, pieces, squares of a 2D board and the 2D directions.  All of them
 * are plain integers in the original, so they are integers here too; the
 * bit operations `x & 7` and `x >> 3` are written as `x % 8` and `x / 8`,
 * which agree with them for every integer because Dafny's division by a
 * positive constant rounds towards minus infinity, like an arithmetic shift.
 */
module Types {

  /** WHITE = 0, BLACK = 1. */
  type Color = c: int | 0 <= c <= 1

  const WHITE: Color := 0
  const BLACK: Color := 1

  /** Piece types: NO_PIECE_TYPE (= ALL_PIECES) = 0, PAWN .. KING = 1 .. 6. */
  const NO_PIECE_TYPE := 0
  const ALL_PIECES := 0
  const PAWN := 1
  const KNIGHT := 2
  const BISHOP := 3
  const ROOK := 4
  const QUEEN := 5
  const KING := 6
  const PIECE_TYPE_NB := 8

  /** Pieces: NO_PIECE = 0, white pieces 1 .. 6, black pieces 9 .. 14. */
  const NO_PIECE := 0
  const W_PAWN := 1
  const W_KING := 6
  const B_PAWN := 9
  const B_KING := 14
  const PIECE_NB := 16

  /** Squares: SQ_A1 = 0 .. SQ_H8 = 63, then SQ_NONE = 64. */
  const SQ_A1 := 0
  const SQ_H8 := 63
  const SQ_NONE := 64
  const SQUARE_NB := 64

  /** The 2D directions, as square offsets. */
  const NORTH := 8
  const EAST := 1
  const SOUTH := -8
  const WEST := -1
  const NORTH_EAST := NORTH + EAST
  const SOUTH_EAST := SOUTH + EAST
  const SOUTH_WEST := SOUTH + WEST
  const NORTH_WEST := NORTH + WEST

  /** A piece that can stand on a square: a white or a black pawn .. king. */
  predicate IsRealPiece(pc: int) {
    W_PAWN <= pc <= W_KING || B_PAWN <= pc <= B_KING
  }

  function OtherColor(c: Color): (r: Color)
    ensures r != c
  {
    1 - c
  }

  function MakeSquare2D(f: int, r: int): int {
    r * 8 + f
  }

  function MakePiece(c: Color, pt: int): (pc: int)
    requires 0 <= pt < PIECE_TYPE_NB
    ensures 0 <= pc < PIECE_NB
    ensures ColorOf(pc) == c && TypeOf(pc) == pt
  {
    c * 8 + pt
  }

  function TypeOf(pc: int): int {
    pc % 8
  }

  function ColorOf(pc: int): Color
    requires 0 <= pc < PIECE_NB
  {
    pc / 8
  }

  predicate IsOkSquare2D(s: int) {
    SQ_A1 <= s <= SQ_H8
  }

  function FileOf(s: int): int {
    s % 8
  }

  function RankOf(s: int): int {
    s / 8
  }

  /** `Square2D operator+(Square2D, Direction2D)`. */
  function Shift(s: int, d: int): int {
    s + d
  }

  function PawnPush(c: Color): (d: int)
    ensures d == NORTH || d == SOUTH
  {
    if c == WHITE then NORTH else SOUTH
  }

  /** The piece-count slot that holds a colour's total, `make_piece(color_of(pc), ALL_PIECES)` (see ColorSlotIsMakePiece). */
  function ColorSlot(pc: int): (slot: int)
    requires 0 <= pc < PIECE_NB
    ensures slot == 0 || slot == 8
    ensures !IsRealPiece(slot)
  {
    if pc < 8 then 0 else 8
  }

  lemma ColorSlotIsMakePiece(pc: int)
    requires 0 <= pc < PIECE_NB
    ensures ColorSlot(pc) == MakePiece(ColorOf(pc), ALL_PIECES)
    ensures ColorSlot(pc) == MakePiece(ColorOf(pc), NO_PIECE_TYPE)
  {
  }

  lemma OtherColorInvolution(c: Color)
    ensures OtherColor(OtherColor(c)) == c
    ensures {c, OtherColor(c)} == {WHITE, BLACK}
  {
  }

  /** Every piece is the piece of its colour and type. */
  lemma PieceDecomposition(pc: int)
    requires 0 <= pc < PIECE_NB
    ensures 0 <= TypeOf(pc) < PIECE_TYPE_NB
    ensures MakePiece(ColorOf(pc), TypeOf(pc)) == pc
  {
  }

  /** The real pieces are exactly the pieces of a colour with a type PAWN .. KING. */
  lemma RealPieces(pc: int)
    ensures IsRealPiece(pc) <==>
      (0 <= pc < PIECE_NB && PAWN <= TypeOf(pc) <= KING)
  {
  }

  /** `file_of` and `rank_of` recover the file and rank a square was made of. */
  lemma SquareCoordinates(f: int, r: int)
    requires 0 <= f <= 7 && 0 <= r <= 7
    ensures IsOkSquare2D(MakeSquare2D(f, r))
    ensures FileOf(MakeSquare2D(f, r)) == f && RankOf(MakeSquare2D(f, r)) == r
  {
  }

  /** Every square on the board is the square of its file and rank. */
  lemma SquareDecomposition(s: int)
    requires IsOkSquare2D(s)
    ensures 0 <= FileOf(s) <= 7 && 0 <= RankOf(s) <= 7
    ensures MakeSquare2D(FileOf(s), RankOf(s)) == s
  {
  }

  /** A step NORTH from below the top rank stays on the board, one rank up, same file. */
  lemma NorthStep(s: int)
    requires IsOkSquare2D(s) && RankOf(s) < 7
    ensures IsOkSquare2D(Shift(s, NORTH))
    ensures RankOf(Shift(s, NORTH)) == RankOf(s) + 1 && FileOf(Shift(s, NORTH)) == FileOf(s)
  {
  }

  /** A step SOUTH from above the bottom rank stays on the board, one rank down, same file. */
  lemma SouthStep(s: int)
    requires IsOkSquare2D(s) && RankOf(s) > 0
    ensures IsOkSquare2D(Shift(s, SOUTH))
    ensures RankOf(Shift(s, SOUTH)) == RankOf(s) - 1 && FileOf(Shift(s, SOUTH)) == FileOf(s)
  {
  }

  /** A step EAST from left of file H stays on the board, one file right, same rank. */
  lemma EastStep(s: int)
    requires IsOkSquare2D(s) && FileOf(s) < 7
    ensures IsOkSquare2D(Shift(s, EAST))
    ensures FileOf(Shift(s, EAST)) == FileOf(s) + 1 && RankOf(Shift(s, EAST)) == RankOf(s)
  {
  }

  /** A step WEST from right of file A stays on the board, one file left, same rank. */
  lemma WestStep(s: int)
    requires IsOkSquare2D(s) && FileOf(s) > 0
    ensures IsOkSquare2D(Shift(s, WEST))
    ensures FileOf(Shift(s, WEST)) == FileOf(s) - 1 && RankOf(Shift(s, WEST)) == RankOf(s)
  {
  }

  /** A pawn push moves one rank towards the opponent; the two colours push in opposite directions. */
  lemma PawnPushDirection(c: Color, s: int)
    requires IsOkSquare2D(s) && 0 < RankOf(s) < 7
    ensures PawnPush(OtherColor(c)) == -PawnPush(c)
    ensures RankOf(Shift(s, PawnPush(c))) == RankOf(s) + (if c == WHITE then 1 else -1)
    ensures FileOf(Shift(s, PawnPush(c))) == FileOf(s)
  {
  }
}
