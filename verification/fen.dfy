/**
 * The board text format read by `Board2D::set` and written by `Board2D::fen`
 * (src/position.cpp), as pure functions over strings and over the 64 cells
 * of a board.  The board class (module Board) runs the same scans as loops
 * and is proved to agree with these functions; the round trip is proved here.
 *
 * Reading: the width is the number of squares of the text before the first
 * blank or '/', counted in an unsigned char (digits count their value, every
 * other character one).  The placement scan then starts at file A of the top
 * rank, width - 1, and reads up to the first blank: a digit moves the cursor
 * that many squares east, '/' moves it back `width` squares and one rank
 * down, a character of `PieceToChar` puts that piece on the cursor's square
 * and moves one square east, anything else is skipped.  The side to move is
 * WHITE exactly when the character read after that blank is 'w'.
 */
module Fen {
  import opened Types

  datatype Option<T> = None | Some(value: T)

  /** Character of each piece, indexed by the piece; blank for NO_PIECE and the two unused codes 7 and 8. */
  const PieceToChar: string := " PNBRQK  pnbrqk"

  /** `isspace` in the C locale. */
  predicate IsSpace(c: char) {
    c == ' ' || '\t' <= c <= '\r'
  }

  /** `isdigit`. */
  predicate IsDigit(c: char) {
    '0' <= c <= '9'
  }

  function DigitValue(c: char): (d: int)
    requires IsDigit(c)
    ensures 0 <= d <= 9
  {
    c as int - '0' as int
  }

  function DigitChar(d: int): (c: char)
    requires 0 <= d <= 9
    ensures IsDigit(c) && DigitValue(c) == d
  {
    ('0' as int + d) as char
  }

  /** `std::string::find(c)`: the first index of `c` in `s`, or None for `npos`. */
  function Find(s: string, c: char): Option<nat> {
    if |s| == 0 then None
    else if s[0] == c then Some(0)
    else match Find(s[1..], c)
      case None => None
      case Some(k) => Some(k + 1)
  }

  /** `find` gives the first index holding `c`, and `npos` exactly when there is none. */
  lemma {:induction false} FindSpec(s: string, c: char)
    ensures Find(s, c).Some? ==> Find(s, c).value < |s| && s[Find(s, c).value] == c
    ensures Find(s, c).Some? ==> forall j :: 0 <= j < Find(s, c).value ==> s[j] != c
    ensures Find(s, c).None? <==> c !in s
  {
    if |s| > 0 && s[0] != c {
      FindSpec(s[1..], c);
      assert forall j :: 1 <= j < |s| ==> s[j] == s[1..][j - 1];
    }
  }

  lemma {:induction false} FindFirst(s: string, c: char, k: nat)
    requires k < |s| && s[k] == c
    requires forall j :: 0 <= j < k ==> s[j] != c
    ensures Find(s, c) == Some(k)
  {
    if k > 0 {
      FindFirst(s[1..], c, k - 1);
    }
  }

  /** Every real piece has its own character in `PieceToChar`, and it is neither blank, digit nor '/'. */
  lemma PieceCharFound(pc: int)
    requires IsRealPiece(pc)
    ensures pc < |PieceToChar|
    ensures Find(PieceToChar, PieceToChar[pc]) == Some(pc)
    ensures !IsSpace(PieceToChar[pc]) && !IsDigit(PieceToChar[pc]) && PieceToChar[pc] != '/'
  {
    var s := PieceToChar;
    assert pc == 1 || pc == 2 || pc == 3 || pc == 4 || pc == 5 || pc == 6 ||
           pc == 9 || pc == 10 || pc == 11 || pc == 12 || pc == 13 || pc == 14;
    forall j | 0 <= j < pc
      ensures s[j] != s[pc]
    {
      assert j == 0 || j == 1 || j == 2 || j == 3 || j == 4 || j == 5 || j == 6 ||
             j == 7 || j == 8 || j == 9 || j == 10 || j == 11 || j == 12 || j == 13;
    }
    FindFirst(s, s[pc], pc);
  }

  /** A character that is not blank is found in `PieceToChar` only at a real piece. */
  lemma FoundIsRealPiece(c: char)
    requires !IsSpace(c)
    ensures Find(PieceToChar, c).Some? ==> IsRealPiece(Find(PieceToChar, c).value)
  {
    FindSpec(PieceToChar, c);
    assert PieceToChar[0] == ' ' && PieceToChar[7] == ' ' && PieceToChar[8] == ' ';
  }

  // ---------------------------------------------------------------------
  // Reading
  // ---------------------------------------------------------------------

  /** A character that ends the first rank for the width count. */
  predicate EndsRank(c: char) {
    IsSpace(c) || c == '/'
  }

  /** The index of the first blank of `s`, or |s| if there is none. */
  function FirstSpace(s: string): (i: nat)
    ensures i <= |s|
    ensures i < |s| ==> IsSpace(s[i])
    ensures forall j :: 0 <= j < i ==> !IsSpace(s[j])
  {
    if |s| == 0 || IsSpace(s[0]) then 0 else 1 + FirstSpace(s[1..])
  }

  /** The index of the first blank or '/' of `s`, or |s| if there is none. */
  function RankEnd(s: string): (i: nat)
    ensures i <= |s|
    ensures i < |s| ==> EndsRank(s[i])
    ensures forall j :: 0 <= j < i ==> !EndsRank(s[j])
  {
    if |s| == 0 || EndsRank(s[0]) then 0 else 1 + RankEnd(s[1..])
  }

  /** Squares a character of the first rank adds to the width. */
  function SquaresOf(c: char): (n: int)
    ensures 0 <= n <= 9
  {
    if IsDigit(c) then DigitValue(c) else 1
  }

  /** The width loop from accumulator `acc`: an unsigned char, so every addition wraps modulo 256. */
  function WidthFrom(s: string, acc: int): (w: int)
    requires 0 <= acc < 256
    ensures 0 <= w < 256
  {
    if |s| == 0 || EndsRank(s[0]) then acc
    else WidthFrom(s[1..], (acc + SquaresOf(s[0])) % 256)
  }

  /** The board width read from a FEN. */
  function Width(fen: string): (w: int)
    ensures 0 <= w < 256
  {
    WidthFrom(fen, 0)
  }

  /** The square the placement scan starts on: file A of rank `width - 1`. */
  function StartSquare(width: int): int {
    SQ_A1 + (width - 1) * NORTH
  }

  datatype Placement = Placement(piece: int, square: int)

  /** The placement scan's state: its square cursor and the pieces put so far, in order. */
  datatype Cursor = Cursor(sq: int, placed: seq<Placement>)

  /** One character of the placement scan. */
  function Step(c: char, cur: Cursor, width: int): (next: Cursor)
    ensures cur.placed <= next.placed && |next.placed| <= |cur.placed| + 1
  {
    if IsDigit(c) then cur.(sq := cur.sq + DigitValue(c) * EAST)
    else if c == '/' then cur.(sq := cur.sq + width * WEST + SOUTH)
    else match Find(PieceToChar, c)
      case Some(idx) => Cursor(cur.sq + EAST, cur.placed + [Placement(idx, cur.sq)])
      case None => cur
  }

  /** The placement scan over every character of `s`. */
  function Steps(s: string, cur: Cursor, width: int): (last: Cursor)
    ensures cur.placed <= last.placed
  {
    if |s| == 0 then cur else Steps(s[1..], Step(s[0], cur, width), width)
  }

  /** The pieces a FEN puts on the board, in the order the scan puts them. */
  function Placements(fen: string): seq<Placement> {
    var w := Width(fen);
    Steps(fen[..FirstSpace(fen)], Cursor(StartSquare(w), []), w).placed
  }

  /**
   * The side to move: the character after the first blank, or, when the
   * text has no blank, the last character (the failed extraction leaves the
   * token unchanged); WHITE exactly when that character is 'w'.
   */
  function SideOf(fen: string): Color {
    var i := FirstSpace(fen);
    if i < |fen| then
      (if i + 1 < |fen| && fen[i + 1] == 'w' then WHITE else BLACK)
    else if |fen| > 0 && fen[|fen| - 1] == 'w' then WHITE else BLACK
  }

  /**
   * After reading up to and including the first blank (j = blank + 1), or
   * the whole text when it has none, the side is the next character if
   * there is one, and otherwise the last character read.
   */
  lemma SideRead(fen: string, j: int)
    requires 0 < j <= |fen|
    requires j == FirstSpace(fen) + 1 || j == FirstSpace(fen) == |fen|
    ensures SideOf(fen) == if (if j < |fen| then fen[j] else fen[j - 1]) == 'w' then WHITE else BLACK
  {
  }

  function Occurrences(ps: seq<Placement>, pc: int): (n: nat)
    ensures n <= |ps|
  {
    if |ps| == 0 then 0
    else (if ps[0].piece == pc then 1 else 0) + Occurrences(ps[1..], pc)
  }

  /**
   * Placements that `put_piece` can perform one after the other: every
   * square on the board and used once, and at most 16 of each piece (the
   * capacity of a piece list).
   */
  predicate Placeable(ps: seq<Placement>) {
    && (forall k :: 0 <= k < |ps| ==> IsOkSquare2D(ps[k].square))
    && (forall j, k :: 0 <= j < k < |ps| ==> ps[j].square != ps[k].square)
    && (forall pc :: 0 <= pc < PIECE_NB && IsRealPiece(pc) ==> Occurrences(ps, pc) <= 16)
  }

  /**
   * What `Board2D::set` assumes of its input: the width scan meets a blank
   * or '/' inside the text, the width is at most 8 (the bound the board
   * class documents for its width), and the pieces fit the board.
   */
  predicate Loadable(fen: string) {
    RankEnd(fen) < |fen| && Width(fen) <= 8 && Placeable(Placements(fen))
  }

  /** 64 cells, each empty or holding a real piece. */
  predicate IsCells(cells: seq<int>) {
    |cells| == SQUARE_NB &&
    forall s :: 0 <= s < |cells| ==> cells[s] == NO_PIECE || IsRealPiece(cells[s])
  }

  /** The cells of a cleared board. */
  function NoPieces(): (cells: seq<int>)
    ensures IsCells(cells)
  {
    seq(SQUARE_NB, _ => NO_PIECE)
  }

  function Place(cells: seq<int>, p: Placement): (r: seq<int>)
    ensures |r| == |cells|
  {
    if 0 <= p.square < |cells| then cells[p.square := p.piece] else cells
  }

  /** The cells after putting the placements one after the other. */
  function Apply(ps: seq<Placement>, cells: seq<int>): (r: seq<int>)
    ensures |r| == |cells|
  {
    if |ps| == 0 then cells else Apply(ps[1..], Place(cells, ps[0]))
  }

  datatype Decoded = Decoded(width: int, cells: seq<int>, side: Color)

  /** Everything `Board2D::set` reads from a FEN. */
  function Decode(fen: string): Decoded {
    Decoded(Width(fen), Apply(Placements(fen), NoPieces()), SideOf(fen))
  }

  /** The pieces placed by reading a prefix are a prefix of those placed by reading a longer one. */
  lemma StepsPrefix(s: string, i: nat, j: nat, cur: Cursor, width: int)
    requires i <= j <= |s|
    ensures Steps(s[..i], cur, width).placed <= Steps(s[..j], cur, width).placed
  {
    assert s[..j] == s[..i] + s[i..j];
    StepsConcat(s[..i], s[i..j], cur, width);
  }

  /** Reading one more character of a text is one more step of the scan. */
  lemma StepsSnoc(s: string, i: nat, cur: Cursor, width: int)
    requires i < |s|
    ensures Steps(s[..i + 1], cur, width) == Step(s[i], Steps(s[..i], cur, width), width)
  {
    assert s[..i + 1] == s[..i] + [s[i]];
    StepsConcat(s[..i], [s[i]], cur, width);
    assert [s[i]][1..] == [];
  }

  /**
   * Scanning the character at `i`, before the first blank, extends the scan
   * of the first `i` characters by one step and stays within the placements
   * of the whole field.
   */
  lemma ScanNext(fen: string, i: nat, cur: Cursor, width: int)
    requires i < FirstSpace(fen)
    ensures Steps(fen[..i + 1], cur, width) == Step(fen[i], Steps(fen[..i], cur, width), width)
    ensures Steps(fen[..i + 1], cur, width).placed <= Steps(fen[..FirstSpace(fen)], cur, width).placed
  {
    StepsSnoc(fen, i, cur, width);
    StepsPrefix(fen, i + 1, FirstSpace(fen), cur, width);
  }

  /** A cell no placement names keeps its value. */
  lemma {:induction false} ApplyUntouched(ps: seq<Placement>, cells: seq<int>, s: int)
    requires 0 <= s < |cells|
    requires forall k :: 0 <= k < |ps| ==> ps[k].square != s
    ensures Apply(ps, cells)[s] == cells[s]
  {
    if |ps| > 0 {
      ApplyUntouched(ps[1..], Place(cells, ps[0]), s);
    }
  }

  /** Putting one more piece on the board after a sequence of placements. */
  lemma ApplySnoc(ps: seq<Placement>, p: Placement, cells: seq<int>)
    requires 0 <= p.square < |cells|
    ensures Apply(ps + [p], cells) == Apply(ps, cells)[p.square := p.piece]
  {
    ApplyConcat(ps, [p], cells);
    ApplyOne(p, Apply(ps, cells));
  }

  lemma OccurrencesPrefix(a: seq<Placement>, b: seq<Placement>, pc: int)
    requires a <= b
    ensures Occurrences(a, pc) <= Occurrences(b, pc)
  {
    assert b == a + b[|a|..];
    OccurrencesConcat(a, b[|a|..], pc);
  }

  lemma OccurrencesSnoc(a: seq<Placement>, p: Placement, pc: int)
    ensures Occurrences(a + [p], pc) == Occurrences(a, pc) + (if p.piece == pc then 1 else 0)
  {
    OccurrencesConcat(a, [p], pc);
    assert [p][1..] == [];
  }

  // ---------------------------------------------------------------------
  // Writing
  // ---------------------------------------------------------------------

  /**
   * An empty run as `ss << emptyCnt` prints it: its count in decimal, or
   * nothing when it is empty.  A run lies within one rank of at most 8
   * files, so the count is a single digit.
   */
  function RunText(e: nat): (t: string)
    requires e <= 8
    ensures |t| <= 1
  {
    if e > 0 then [DigitChar(e)] else ""
  }

  /** `PieceToChar[pc]` as a one-character string. */
  function CellChar(pc: int): string
    requires 0 <= pc < |PieceToChar|
  {
    [PieceToChar[pc]]
  }

  /**
   * The text of rank r from file f on, when the `run` files before f are
   * empty squares not printed yet: a run is printed as its count when a
   * piece or the right edge ends it, a piece as its character.
   */
  function RankFrom(cells: seq<int>, w: int, r: int, f: int, run: nat): string
    requires IsCells(cells) && 0 <= r < w <= 8 && 0 <= f <= w && run <= f
    decreases w - f
  {
    if f == w then RunText(run)
    else if cells[MakeSquare2D(f, r)] == NO_PIECE then RankFrom(cells, w, r, f + 1, run + 1)
    else RunText(run) + (CellChar(cells[MakeSquare2D(f, r)]) + RankFrom(cells, w, r, f + 1, 0))
  }

  /** The text of rank r. */
  function RankText(cells: seq<int>, w: int, r: int): string
    requires IsCells(cells) && 0 <= r < w <= 8
  {
    RankFrom(cells, w, r, 0, 0)
  }

  /** Ranks r down to 1, with '/' between ranks and none after rank 1. */
  function RanksText(cells: seq<int>, w: int, r: int): string
    requires IsCells(cells) && 0 <= w <= 8 && -1 <= r < w
    decreases r + 1
  {
    if r < 0 then ""
    else RankText(cells, w, r) + (if r > 0 then "/" else "") + RanksText(cells, w, r - 1)
  }

  /** What `Board2D::fen` prints for a board of width w. */
  function FenOf(cells: seq<int>, w: int, side: Color): string
    requires IsCells(cells) && 0 <= w <= 8
  {
    RanksText(cells, w, w - 1) + (if side == WHITE then " w " else " b ")
  }

  /**
   * What `fen` has printed of rank r when its file loop is at f with a
   * pending run of `run` empty cells: the text of the files before the
   * run, or, once f has passed the right edge, the whole rank.
   */
  predicate RankPrinted(cells: seq<int>, w: int, r: int, f: int, run: nat, t: string)
    requires IsCells(cells) && 0 <= r < w <= 8
  {
    if f <= w then 0 <= f && run <= f && t + RankFrom(cells, w, r, f, run) == RankText(cells, w, r)
    else f == w + 1 && t == RankText(cells, w, r)
  }

  /** An empty cell lengthens the pending run. */
  lemma RankPrintedEmpty(cells: seq<int>, w: int, r: int, f: int, run: nat, t: string)
    requires IsCells(cells) && 0 <= r < w <= 8 && f < w
    requires RankPrinted(cells, w, r, f, run, t) && cells[MakeSquare2D(f, r)] == NO_PIECE
    ensures RankPrinted(cells, w, r, f + 1, run + 1, t)
  {
  }

  /** The end of a run: the run is printed as its length, then the piece that ends it, if any. */
  lemma RankPrintedRunEnd(cells: seq<int>, w: int, r: int, f: int, run: nat, t: string)
    requires IsCells(cells) && 0 <= r < w <= 8 && f <= w
    requires RankPrinted(cells, w, r, f, run, t)
    requires f < w ==> cells[MakeSquare2D(f, r)] != NO_PIECE
    ensures f < w ==> RankPrinted(cells, w, r, f + 1, 0, t + RunText(run) + CellChar(cells[MakeSquare2D(f, r)]))
    ensures f == w ==> RankPrinted(cells, w, r, f + 1, 0, t + RunText(run))
  {
    if f < w {
      var c := CellChar(cells[MakeSquare2D(f, r)]);
      var rest := RankFrom(cells, w, r, f + 1, 0);
      AppendAssoc(RunText(run), c, rest);
      AppendAssoc(t, RunText(run) + c, rest);
      AppendAssoc(t, RunText(run), c);
    }
  }

  /** Printing one more rank: its text, then '/' unless it is rank 1. */
  lemma RanksTextNext(cells: seq<int>, w: int, r: int, t: string)
    requires IsCells(cells) && 0 <= r < w <= 8
    ensures t + RanksText(cells, w, r) ==
      (t + RankText(cells, w, r) + (if r > 0 then "/" else "")) + RanksText(cells, w, r - 1)
  {
    var rank := RankText(cells, w, r);
    var sep := if r > 0 then "/" else "";
    var rest := RanksText(cells, w, r - 1);
    AppendAssoc(rank, sep, rest);
    AppendAssoc(t, rank + sep, rest);
    AppendAssoc(t, rank, sep);
  }

  // ---------------------------------------------------------------------
  // Round trip
  // ---------------------------------------------------------------------

  /** The cells of files and ranks at or beyond the width are empty. */
  predicate EmptyOutside(cells: seq<int>, w: int)
    requires |cells| == SQUARE_NB
  {
    forall s :: 0 <= s < SQUARE_NB && (FileOf(s) >= w || RankOf(s) >= w) ==> cells[s] == NO_PIECE
  }

  /** The pieces of rank r from file f, left to right: what reading RankText puts on the board. */
  function RankPlacements(cells: seq<int>, w: int, r: int, f: int): seq<Placement>
    requires IsCells(cells) && 0 <= r < w <= 8 && 0 <= f <= w
    decreases w - f
  {
    if f >= w then []
    else
      var s := MakeSquare2D(f, r);
      (if cells[s] != NO_PIECE then [Placement(cells[s], s)] else []) + RankPlacements(cells, w, r, f + 1)
  }

  /** The pieces of ranks r down to 1. */
  function RanksPlacements(cells: seq<int>, w: int, r: int): seq<Placement>
    requires IsCells(cells) && 0 <= w <= 8 && -1 <= r < w
    decreases r + 1
  {
    if r < 0 then [] else RankPlacements(cells, w, r, 0) + RanksPlacements(cells, w, r - 1)
  }

  /** At most one placement on s0, then placements on increasing squares of (s0, hi): increasing squares of [s0, hi). */
  lemma IncreasingPrepend(head: seq<Placement>, tail: seq<Placement>, s0: int, hi: int)
    requires |head| <= 1 && forall k :: 0 <= k < |head| ==> head[k].square == s0
    requires s0 < hi
    requires forall k :: 0 <= k < |tail| ==> s0 < tail[k].square < hi
    requires forall j, k :: 0 <= j < k < |tail| ==> tail[j].square < tail[k].square
    ensures forall k :: 0 <= k < |head + tail| ==> s0 <= (head + tail)[k].square < hi
    ensures forall j, k :: 0 <= j < k < |head + tail| ==> (head + tail)[j].square < (head + tail)[k].square
  {
    var ps := head + tail;
    forall k | 0 <= k < |ps|
      ensures s0 <= ps[k].square < hi
      ensures k >= |head| ==> s0 < ps[k].square
    {
      if k < |head| {
        assert ps[k] == head[k];
      } else {
        assert ps[k] == tail[k - |head|];
      }
    }
    forall j, k | 0 <= j < k < |ps| && j >= |head|
      ensures ps[j].square < ps[k].square
    {
      assert ps[j] == tail[j - |head|] && ps[k] == tail[k - |head|];
    }
  }

  /** The pieces of rank r from file f stand on that rank at files f .. w - 1, left to right. */
  lemma {:induction false} RankPlacementsSquares(cells: seq<int>, w: int, r: int, f: int)
    requires IsCells(cells) && 0 <= r < w <= 8 && 0 <= f <= w
    ensures forall k :: 0 <= k < |RankPlacements(cells, w, r, f)| ==>
      MakeSquare2D(f, r) <= RankPlacements(cells, w, r, f)[k].square < MakeSquare2D(w, r)
    ensures forall j, k :: 0 <= j < k < |RankPlacements(cells, w, r, f)| ==>
      RankPlacements(cells, w, r, f)[j].square < RankPlacements(cells, w, r, f)[k].square
    decreases w - f
  {
    if f < w {
      RankPlacementsSquares(cells, w, r, f + 1);
      var s0 := MakeSquare2D(f, r);
      var head := if cells[s0] != NO_PIECE then [Placement(cells[s0], s0)] else [];
      var tail := RankPlacements(cells, w, r, f + 1);
      assert RankPlacements(cells, w, r, f) == head + tail;
      IncreasingPrepend(head, tail, s0, MakeSquare2D(w, r));
    }
  }

  /** Placements on distinct squares of [lo, hi), then on distinct squares of [0, lo): all distinct, all in [0, hi). */
  lemma DisjointConcat(a: seq<Placement>, b: seq<Placement>, lo: int, hi: int)
    requires forall k :: 0 <= k < |a| ==> lo <= a[k].square < hi
    requires forall j, k :: 0 <= j < k < |a| ==> a[j].square != a[k].square
    requires forall k :: 0 <= k < |b| ==> 0 <= b[k].square < lo
    requires forall j, k :: 0 <= j < k < |b| ==> b[j].square != b[k].square
    requires 0 <= lo <= hi
    ensures forall k :: 0 <= k < |a + b| ==> 0 <= (a + b)[k].square < hi
    ensures forall j, k :: 0 <= j < k < |a + b| ==> (a + b)[j].square != (a + b)[k].square
  {
    var ps := a + b;
    forall k | 0 <= k < |ps|
      ensures 0 <= ps[k].square < hi
    {
      if k < |a| {
        assert ps[k] == a[k];
      } else {
        assert ps[k] == b[k - |a|];
      }
    }
    forall j, k | 0 <= j < k < |ps|
      ensures ps[j].square != ps[k].square
    {
      if k < |a| {
        assert ps[j] == a[j] && ps[k] == a[k];
      } else if |a| <= j {
        assert ps[j] == b[j - |a|] && ps[k] == b[k - |a|];
      } else {
        assert ps[j] == a[j] && ps[k] == b[k - |a|];
      }
    }
  }

  /** The pieces of ranks r down to 1 stand on distinct squares below file w of rank r. */
  lemma {:induction false} RanksPlacementsSquares(cells: seq<int>, w: int, r: int)
    requires IsCells(cells) && 0 <= w <= 8 && -1 <= r < w
    ensures forall k :: 0 <= k < |RanksPlacements(cells, w, r)| ==>
      0 <= RanksPlacements(cells, w, r)[k].square < MakeSquare2D(w, r)
    ensures forall j, k :: 0 <= j < k < |RanksPlacements(cells, w, r)| ==>
      RanksPlacements(cells, w, r)[j].square != RanksPlacements(cells, w, r)[k].square
    decreases r + 1
  {
    if r >= 0 {
      RankPlacementsSquares(cells, w, r, 0);
      RanksPlacementsSquares(cells, w, r - 1);
      var top, below := RankPlacements(cells, w, r, 0), RanksPlacements(cells, w, r - 1);
      assert MakeSquare2D(w, r - 1) <= MakeSquare2D(0, r);
      DisjointConcat(top, below, MakeSquare2D(0, r), MakeSquare2D(w, r));
      assert top + below == RanksPlacements(cells, w, r);
    }
  }

  lemma {:induction false} StepsConcat(a: string, b: string, cur: Cursor, width: int)
    ensures Steps(a + b, cur, width) == Steps(b, Steps(a, cur, width), width)
  {
    if |a| == 0 {
      assert a + b == b;
    } else {
      assert (a + b)[0] == a[0];
      assert (a + b)[1..] == a[1..] + b;
      StepsConcat(a[1..], b, Step(a[0], cur, width), width);
    }
  }

  lemma {:induction false} ApplyConcat(a: seq<Placement>, b: seq<Placement>, cells: seq<int>)
    ensures Apply(a + b, cells) == Apply(b, Apply(a, cells))
  {
    if |a| == 0 {
      assert a + b == b;
    } else {
      assert (a + b)[0] == a[0];
      assert (a + b)[1..] == a[1..] + b;
      ApplyConcat(a[1..], b, Place(cells, a[0]));
    }
  }

  lemma {:induction false} OccurrencesConcat(a: seq<Placement>, b: seq<Placement>, pc: int)
    ensures Occurrences(a + b, pc) == Occurrences(a, pc) + Occurrences(b, pc)
  {
    if |a| == 0 {
      assert a + b == b;
    } else {
      assert (a + b)[0] == a[0];
      assert (a + b)[1..] == a[1..] + b;
      OccurrencesConcat(a[1..], b, pc);
    }
  }

  lemma {:induction false} WidthConcat(a: string, b: string, acc: int)
    requires 0 <= acc < 256
    requires InRank(a)
    ensures WidthFrom(a + b, acc) == WidthFrom(b, WidthFrom(a, acc))
  {
    if |a| == 0 {
      assert a + b == b;
    } else {
      assert (a + b)[0] == a[0];
      assert (a + b)[1..] == a[1..] + b;
      WidthConcat(a[1..], b, (acc + SquaresOf(a[0])) % 256);
    }
  }

  /** A blank-free prefix followed by a blank: the first blank is right after the prefix. */
  lemma {:induction false} FirstSpaceAfter(a: string, b: string)
    requires NoSpace(a)
    requires |b| > 0 && IsSpace(b[0])
    ensures FirstSpace(a + b) == |a|
  {
    if |a| == 0 {
      assert a + b == b;
    } else {
      assert (a + b)[0] == a[0];
      assert (a + b)[1..] == a[1..] + b;
      FirstSpaceAfter(a[1..], b);
    }
  }

  /** No character of `s` ends a rank. */
  predicate InRank(s: string) {
    forall i :: 0 <= i < |s| ==> !EndsRank(s[i])
  }

  /** No character of `s` is blank. */
  predicate NoSpace(s: string) {
    forall i :: 0 <= i < |s| ==> !IsSpace(s[i])
  }

  lemma InRankConcat(a: string, b: string)
    requires InRank(a) && InRank(b)
    ensures InRank(a + b)
  {
    forall i | 0 <= i < |a + b|
      ensures !EndsRank((a + b)[i])
    {
      if i >= |a| {
        assert (a + b)[i] == b[i - |a|];
      }
    }
  }

  lemma NoSpaceConcat(a: string, b: string)
    requires NoSpace(a) && NoSpace(b)
    ensures NoSpace(a + b)
  {
    forall i | 0 <= i < |a + b|
      ensures !IsSpace((a + b)[i])
    {
      if i >= |a| {
        assert (a + b)[i] == b[i - |a|];
      }
    }
  }

  lemma RunTextInRank(e: nat)
    requires e <= 8
    ensures InRank(RunText(e))
  {
  }

  /** An empty run's count moves the placement cursor e squares east. */
  lemma RunTextSteps(e: nat, cur: Cursor, width: int)
    requires e <= 8
    ensures Steps(RunText(e), cur, width) == cur.(sq := cur.sq + e)
  {
    if e > 0 {
      assert RunText(e)[1..] == [];
    }
  }

  /** An empty run's count adds e squares to the width. */
  lemma RunTextWidth(e: nat, acc: int)
    requires e <= 8 && 0 <= acc <= 8
    ensures WidthFrom(RunText(e), acc) == acc + e
  {
    if e > 0 {
      assert RunText(e)[1..] == [];
    }
  }

  lemma CellCharInRank(pc: int)
    requires IsRealPiece(pc)
    ensures InRank(CellChar(pc))
  {
    PieceCharFound(pc);
  }

  /** A piece's character puts that piece on the cursor's square and moves one square east. */
  lemma CellCharSteps(pc: int, cur: Cursor, width: int)
    requires IsRealPiece(pc)
    ensures Steps(CellChar(pc), cur, width) == Cursor(cur.sq + 1, cur.placed + [Placement(pc, cur.sq)])
  {
    var c := PieceToChar[pc];
    PieceCharFound(pc);
    assert CellChar(pc) == [c];
    assert Step(c, cur, width) == Cursor(cur.sq + 1, cur.placed + [Placement(pc, cur.sq)]);
    assert [c][1..] == [];
  }

  /** A piece's character adds one square to the width. */
  lemma CellCharWidth(pc: int, acc: int)
    requires IsRealPiece(pc) && 0 <= acc <= 16
    ensures WidthFrom(CellChar(pc), acc) == acc + 1
  {
    PieceCharFound(pc);
    assert CellChar(pc)[1..] == [];
  }

  /** Every character of a rank is a digit or a piece character. */
  lemma {:induction false} RankFromChars(cells: seq<int>, w: int, r: int, f: int, run: nat)
    requires IsCells(cells) && 0 <= r < w <= 8 && 0 <= f <= w && run <= f
    ensures InRank(RankFrom(cells, w, r, f, run))
    decreases w - f
  {
    RunTextInRank(run);
    if f < w {
      var pc := cells[MakeSquare2D(f, r)];
      if pc == NO_PIECE {
        RankFromChars(cells, w, r, f + 1, run + 1);
      } else {
        var rest := RankFrom(cells, w, r, f + 1, 0);
        RankFromChars(cells, w, r, f + 1, 0);
        CellCharInRank(pc);
        InRankConcat(CellChar(pc), rest);
        InRankConcat(RunText(run), CellChar(pc) + rest);
      }
    }
  }

  lemma {:induction false} RanksTextChars(cells: seq<int>, w: int, r: int)
    requires IsCells(cells) && 0 <= w <= 8 && -1 <= r < w
    ensures NoSpace(RanksText(cells, w, r))
    decreases r + 1
  {
    if r >= 0 {
      var rank := RankText(cells, w, r);
      var sep := if r > 0 then "/" else "";
      var rest := RanksText(cells, w, r - 1);
      RankFromChars(cells, w, r, 0, 0);
      RanksTextChars(cells, w, r - 1);
      NoSpaceConcat(rank, sep);
      NoSpaceConcat(rank + sep, rest);
    }
  }

  lemma AppendAssoc<T>(a: seq<T>, b: seq<T>, c: seq<T>)
    ensures a + b + c == a + (b + c)
  {
  }

  /** Reading a pending run, then a piece, then the rest of a rank, given what reading the rest does. */
  lemma RunPieceSteps(run: nat, pc: int, sq: int, rest: string, ps: seq<Placement>, tail: seq<Placement>, last: int, w: int)
    requires run <= 8 && IsRealPiece(pc)
    requires Steps(rest, Cursor(sq + 1, ps + [Placement(pc, sq)]), w) == Cursor(last, ps + [Placement(pc, sq)] + tail)
    ensures Steps(RunText(run) + (CellChar(pc) + rest), Cursor(sq - run, ps), w)
         == Cursor(last, ps + ([Placement(pc, sq)] + tail))
  {
    var cur := Cursor(sq - run, ps);
    var cur1 := Cursor(sq, ps);
    RunTextSteps(run, cur, w);
    CellCharSteps(pc, cur1, w);
    StepsConcat(RunText(run), CellChar(pc) + rest, cur, w);
    StepsConcat(CellChar(pc), rest, cur1, w);
    AppendAssoc(ps, [Placement(pc, sq)], tail);
  }

  /** The statement of RankFromSteps, for one file f and pending run. */
  predicate RankReads(cells: seq<int>, w: int, r: int, f: int, run: nat, ps: seq<Placement>)
    requires IsCells(cells) && 0 <= r < w <= 8 && 0 <= f <= w && run <= f
  {
    Steps(RankFrom(cells, w, r, f, run), Cursor(8 * r + f - run, ps), w)
      == Cursor(8 * r + w, ps + RankPlacements(cells, w, r, f))
  }

  lemma RankReadsEdge(cells: seq<int>, w: int, r: int, run: nat, ps: seq<Placement>)
    requires IsCells(cells) && 0 <= r < w <= 8 && run <= w
    ensures RankReads(cells, w, r, w, run, ps)
  {
    RunTextSteps(run, Cursor(8 * r + w - run, ps), w);
    assert ps + [] == ps;
  }

  lemma RankReadsEmpty(cells: seq<int>, w: int, r: int, f: int, run: nat, ps: seq<Placement>)
    requires IsCells(cells) && 0 <= r < w <= 8 && 0 <= f < w && run <= f
    requires cells[MakeSquare2D(f, r)] == NO_PIECE
    requires RankReads(cells, w, r, f + 1, run + 1, ps)
    ensures RankReads(cells, w, r, f, run, ps)
  {
    var tail := RankPlacements(cells, w, r, f + 1);
    assert RankPlacements(cells, w, r, f) == [] + tail;
    assert [] + tail == tail;
  }

  lemma RankReadsPiece(cells: seq<int>, w: int, r: int, f: int, run: nat, ps: seq<Placement>)
    requires IsCells(cells) && 0 <= r < w <= 8 && 0 <= f < w && run <= f
    requires cells[MakeSquare2D(f, r)] != NO_PIECE
    requires RankReads(cells, w, r, f + 1, 0, ps + [Placement(cells[MakeSquare2D(f, r)], MakeSquare2D(f, r))])
    ensures RankReads(cells, w, r, f, run, ps)
  {
    var s := MakeSquare2D(f, r);
    var pc := cells[s];
    var tail := RankPlacements(cells, w, r, f + 1);
    var rest := RankFrom(cells, w, r, f + 1, 0);
    var ps' := ps + [Placement(pc, s)];
    assert Cursor(s + 1, ps') == Cursor(8 * r + (f + 1) - 0, ps');
    RunPieceSteps(run, pc, s, rest, ps, tail, 8 * r + w, w);
    assert Cursor(s - run, ps) == Cursor(8 * r + f - run, ps);
    assert RankFrom(cells, w, r, f, run) == RunText(run) + (CellChar(pc) + rest);
    assert Steps(RankFrom(cells, w, r, f, run), Cursor(8 * r + f - run, ps), w)
        == Cursor(8 * r + w, ps + ([Placement(pc, s)] + tail));
    assert RankPlacements(cells, w, r, f) == [Placement(pc, s)] + tail;
  }

  /**
   * Reading a rank's text from file f, with the cursor `run` squares back
   * for the pending run, moves the cursor to the right edge and puts exactly
   * the rank's pieces from file f on.
   */
  lemma {:induction false} RankFromSteps(cells: seq<int>, w: int, r: int, f: int, run: nat, ps: seq<Placement>)
    requires IsCells(cells) && 0 <= r < w <= 8 && 0 <= f <= w && run <= f
    ensures RankReads(cells, w, r, f, run, ps)
    decreases w - f
  {
    if f == w {
      RankReadsEdge(cells, w, r, run, ps);
    } else if cells[MakeSquare2D(f, r)] == NO_PIECE {
      RankFromSteps(cells, w, r, f + 1, run + 1, ps);
      RankReadsEmpty(cells, w, r, f, run, ps);
    } else {
      var s := MakeSquare2D(f, r);
      RankFromSteps(cells, w, r, f + 1, 0, ps + [Placement(cells[s], s)]);
      RankReadsPiece(cells, w, r, f, run, ps);
    }
  }

  /** Reading the ranks from rank r down puts the pieces of those ranks, ending on file A + w of rank 1. */
  lemma {:induction false} RanksSteps(cells: seq<int>, w: int, r: int, ps: seq<Placement>)
    requires IsCells(cells) && 0 <= w <= 8 && 0 <= r < w
    ensures Steps(RanksText(cells, w, r), Cursor(8 * r, ps), w)
         == Cursor(w, ps + RanksPlacements(cells, w, r))
    decreases r
  {
    var rank := RankText(cells, w, r);
    RankFromSteps(cells, w, r, 0, 0, ps);
    var ps' := ps + RankPlacements(cells, w, r, 0);
    if r == 0 {
      assert RanksText(cells, w, r) == rank + "" + "";
      assert rank + "" + "" == rank;
      assert RanksPlacements(cells, w, r) == RankPlacements(cells, w, r, 0) + [];
      assert RankPlacements(cells, w, r, 0) + [] == RankPlacements(cells, w, r, 0);
    } else {
      var rest := RanksText(cells, w, r - 1);
      var tail := RanksPlacements(cells, w, r - 1);
      assert RanksText(cells, w, r) == rank + "/" + rest;
      AppendAssoc(rank, "/", rest);
      StepsConcat(rank, "/" + rest, Cursor(8 * r, ps), w);
      StepsConcat("/", rest, Cursor(8 * r + w, ps'), w);
      assert Steps("/", Cursor(8 * r + w, ps'), w) == Cursor(8 * (r - 1), ps');
      RanksSteps(cells, w, r - 1, ps');
      AppendAssoc(ps, RankPlacements(cells, w, r, 0), tail);
    }
  }

  /** Reading a pending run, then a piece, then the rest of a rank adds the run, one and the rest's squares to the width. */
  lemma RunPieceWidth(run: nat, pc: int, rest: string, n: int, acc: int)
    requires IsRealPiece(pc) && 0 <= acc && 0 <= n && acc + run + 1 + n <= 8
    requires InRank(rest)
    requires WidthFrom(rest, acc + run + 1) == acc + run + 1 + n
    ensures WidthFrom(RunText(run) + (CellChar(pc) + rest), acc) == acc + run + 1 + n
  {
    RunTextWidth(run, acc);
    RunTextInRank(run);
    CellCharWidth(pc, acc + run);
    CellCharInRank(pc);
    InRankConcat(CellChar(pc), rest);
    WidthConcat(RunText(run), CellChar(pc) + rest, acc);
    WidthConcat(CellChar(pc), rest, acc + run);
  }

  /**
   * The statement of RankFromWidth, for one file f and pending run: the
   * rank's text from f adds the run and the squares from f to the right
   * edge to the width counted so far.
   */
  predicate RankWidens(cells: seq<int>, w: int, r: int, f: int, run: nat, acc: int)
    requires IsCells(cells) && 0 <= r < w <= 8 && 0 <= f <= w && run <= f && 0 <= acc
    requires acc + run + (w - f) <= 8
  {
    WidthFrom(RankFrom(cells, w, r, f, run), acc) == acc + run + (w - f)
  }

  lemma RankWidensPiece(cells: seq<int>, w: int, r: int, f: int, run: nat, acc: int)
    requires IsCells(cells) && 0 <= r < w <= 8 && 0 <= f < w && run <= f && 0 <= acc
    requires acc + run + (w - f) <= 8
    requires cells[MakeSquare2D(f, r)] != NO_PIECE
    requires RankWidens(cells, w, r, f + 1, 0, acc + run + 1)
    ensures RankWidens(cells, w, r, f, run, acc)
  {
    var pc := cells[MakeSquare2D(f, r)];
    var rest := RankFrom(cells, w, r, f + 1, 0);
    RankFromChars(cells, w, r, f + 1, 0);
    RunPieceWidth(run, pc, rest, w - f - 1, acc);
    assert RankFrom(cells, w, r, f, run) == RunText(run) + (CellChar(pc) + rest);
  }

  /** A rank's text from file f, with a pending run, adds the run and the remaining squares to the width. */
  lemma {:induction false} RankFromWidth(cells: seq<int>, w: int, r: int, f: int, run: nat, acc: int)
    requires IsCells(cells) && 0 <= r < w <= 8 && 0 <= f <= w && run <= f && 0 <= acc
    requires acc + run + (w - f) <= 8
    ensures RankWidens(cells, w, r, f, run, acc)
    decreases w - f
  {
    if f == w {
      RunTextWidth(run, acc);
    } else if cells[MakeSquare2D(f, r)] == NO_PIECE {
      RankFromWidth(cells, w, r, f + 1, run + 1, acc);
      assert RankFrom(cells, w, r, f, run) == RankFrom(cells, w, r, f + 1, run + 1);
    } else {
      RankFromWidth(cells, w, r, f + 1, 0, acc + run + 1);
      RankWidensPiece(cells, w, r, f, run, acc);
    }
  }

  lemma ApplyOne(p: Placement, base: seq<int>)
    requires 0 <= p.square < |base|
    ensures Apply([p], base) == base[p.square := p.piece]
  {
    assert [p][1..] == [];
  }

  /** The cells of rank r from file f to the right edge: the squares `8 * r + f` .. `8 * r + w - 1`. */
  predicate InSpan(s: int, r: int, f: int, w: int) {
    8 * r + f <= s < 8 * r + w
  }

  /** `out` is `base` with the occupied cells of rank r from file f on copied from `cells`. */
  predicate SpanApplied(cells: seq<int>, w: int, r: int, f: int, base: seq<int>, out: seq<int>)
    requires |cells| == SQUARE_NB && |base| == SQUARE_NB && |out| == SQUARE_NB
  {
    forall s :: 0 <= s < SQUARE_NB ==>
      out[s] == if InSpan(s, r, f, w) && cells[s] != NO_PIECE then cells[s] else base[s]
  }

  /** Copying the cell of file f, then the cells of files f + 1 .. w - 1, copies the cells of files f .. w - 1. */
  lemma SpanStep(cells: seq<int>, w: int, r: int, f: int, base: seq<int>, mid: seq<int>, out: seq<int>)
    requires |cells| == SQUARE_NB && |base| == SQUARE_NB && |mid| == SQUARE_NB && |out| == SQUARE_NB
    requires 0 <= r < w <= 8 && 0 <= f < w
    requires mid == if cells[MakeSquare2D(f, r)] != NO_PIECE
      then base[MakeSquare2D(f, r) := cells[MakeSquare2D(f, r)]] else base
    requires SpanApplied(cells, w, r, f + 1, mid, out)
    ensures SpanApplied(cells, w, r, f, base, out)
  {
    var s0 := MakeSquare2D(f, r);
    forall s | 0 <= s < SQUARE_NB
      ensures out[s] == if InSpan(s, r, f, w) && cells[s] != NO_PIECE then cells[s] else base[s]
    {
      assert out[s] == if InSpan(s, r, f + 1, w) && cells[s] != NO_PIECE then cells[s] else mid[s];
      if s == s0 {
        assert !InSpan(s, r, f + 1, w) && InSpan(s, r, f, w);
      } else {
        assert mid[s] == base[s];
        assert InSpan(s, r, f, w) == InSpan(s, r, f + 1, w);
      }
    }
  }

  /** Putting the pieces of rank r from file f on `base` sets exactly the occupied cells of files f .. w - 1 of that rank. */
  lemma {:induction false} ApplyRank(cells: seq<int>, w: int, r: int, f: int, base: seq<int>)
    requires IsCells(cells) && 0 <= r < w <= 8 && 0 <= f <= w && |base| == SQUARE_NB
    ensures SpanApplied(cells, w, r, f, base, Apply(RankPlacements(cells, w, r, f), base))
    decreases w - f
  {
    if f < w {
      var s0 := MakeSquare2D(f, r);
      var head := if cells[s0] != NO_PIECE then [Placement(cells[s0], s0)] else [];
      var tail := RankPlacements(cells, w, r, f + 1);
      assert RankPlacements(cells, w, r, f) == head + tail;
      ApplyConcat(head, tail, base);
      var mid := Apply(head, base);
      if cells[s0] != NO_PIECE {
        ApplyOne(Placement(cells[s0], s0), base);
      }
      ApplyRank(cells, w, r, f + 1, mid);
      SpanStep(cells, w, r, f, base, mid, Apply(tail, mid));
    }
  }

  /** Square s lies on one of the ranks 0 .. r, within the first w files. */
  predicate Covered(s: int, r: int, w: int) {
    RankOf(s) <= r && FileOf(s) < w
  }

  lemma CoveredStep(s: int, r: int, w: int)
    requires 0 <= s < SQUARE_NB && 0 <= r && 0 <= w <= 8
    ensures Covered(s, r, w) <==> (InSpan(s, r, 0, w) || Covered(s, r - 1, w))
  {
  }

  /** `out` is `base` with the occupied cells of ranks 0 .. r, files 0 .. w - 1, copied from `cells`. */
  predicate CoverApplied(cells: seq<int>, w: int, r: int, base: seq<int>, out: seq<int>)
    requires |cells| == SQUARE_NB && |base| == SQUARE_NB && |out| == SQUARE_NB
  {
    forall s :: 0 <= s < SQUARE_NB ==>
      out[s] == if Covered(s, r, w) && cells[s] != NO_PIECE then cells[s] else base[s]
  }

  lemma {:induction false} ApplyRanks(cells: seq<int>, w: int, r: int, base: seq<int>)
    requires IsCells(cells) && 0 <= w <= 8 && -1 <= r < w && |base| == SQUARE_NB
    ensures CoverApplied(cells, w, r, base, Apply(RanksPlacements(cells, w, r), base))
    decreases r + 1
  {
    if r >= 0 {
      var head := RankPlacements(cells, w, r, 0);
      var mid := Apply(head, base);
      ApplyConcat(head, RanksPlacements(cells, w, r - 1), base);
      ApplyRank(cells, w, r, 0, base);
      ApplyRanks(cells, w, r - 1, mid);
      var out := Apply(RanksPlacements(cells, w, r - 1), mid);
      assert Apply(RanksPlacements(cells, w, r), base) == out;
      forall s | 0 <= s < SQUARE_NB
        ensures out[s] == if Covered(s, r, w) && cells[s] != NO_PIECE then cells[s] else base[s]
      {
        CoveredStep(s, r, w);
        assert out[s] == if Covered(s, r - 1, w) && cells[s] != NO_PIECE then cells[s] else mid[s];
        assert mid[s] == if InSpan(s, r, 0, w) && cells[s] != NO_PIECE then cells[s] else base[s];
      }
    }
  }

  /** The printed text is the ranks, then a blank, the side's letter and a blank. */
  lemma FenSide(cells: seq<int>, w: int, side: Color)
    requires IsCells(cells) && 0 <= w <= 8
    ensures FirstSpace(FenOf(cells, w, side)) == |RanksText(cells, w, w - 1)|
    ensures FenOf(cells, w, side)[..FirstSpace(FenOf(cells, w, side))] == RanksText(cells, w, w - 1)
    ensures SideOf(FenOf(cells, w, side)) == side
  {
    var ranks := RanksText(cells, w, w - 1);
    var tail := if side == WHITE then " w " else " b ";
    var fen := ranks + tail;
    RanksTextChars(cells, w, w - 1);
    FirstSpaceAfter(ranks, tail);
    assert fen[..|ranks|] == ranks;
    assert fen[|ranks| + 1] == tail[1];
  }

  /** A first rank of width w, then a rank end, reads as width w. */
  lemma FirstRankWidth(first: string, rest: string, w: int)
    requires InRank(first) && 0 <= w <= 8 && WidthFrom(first, 0) == w
    requires |rest| > 0 && EndsRank(rest[0])
    ensures Width(first + rest) == w
  {
    WidthConcat(first, rest, 0);
  }

  /** The printed text of a board of positive width: its top rank, then '/' or the blank before the side. */
  lemma FenTopRank(cells: seq<int>, w: int, side: Color) returns (rest: string)
    requires IsCells(cells) && 0 < w <= 8
    ensures FenOf(cells, w, side) == RankText(cells, w, w - 1) + rest
    ensures |rest| > 0 && EndsRank(rest[0])
  {
    var tail := if side == WHITE then " w " else " b ";
    var first := RankText(cells, w, w - 1);
    var sep := if w - 1 > 0 then "/" else "";
    var below := RanksText(cells, w, w - 2);
    var more := sep + below;
    rest := more + tail;
    AppendAssoc(first, sep, below);
    AppendAssoc(first, more, tail);
    if w == 1 {
      assert |more| == 0;
      assert rest[0] == tail[0];
    } else {
      assert rest[0] == more[0] == '/';
    }
  }

  /** The width read back from the printed text is the board's width. */
  lemma FenWidth(cells: seq<int>, w: int, side: Color)
    requires IsCells(cells) && 0 <= w <= 8
    ensures Width(FenOf(cells, w, side)) == w
  {
    if w == 0 {
      assert FenOf(cells, w, side) == "" + (if side == WHITE then " w " else " b ");
    } else {
      var rest := FenTopRank(cells, w, side);
      RankFromChars(cells, w, w - 1, 0, 0);
      RankFromWidth(cells, w, w - 1, 0, 0, 0);
      FirstRankWidth(RankText(cells, w, w - 1), rest, w);
    }
  }

  /** The placements read back from the printed text are the board's pieces, rank by rank from the top. */
  lemma FenPlacements(cells: seq<int>, w: int, side: Color)
    requires IsCells(cells) && 0 <= w <= 8
    ensures Placements(FenOf(cells, w, side)) == RanksPlacements(cells, w, w - 1)
  {
    FenSide(cells, w, side);
    FenWidth(cells, w, side);
    var ranks := RanksText(cells, w, w - 1);
    if w == 0 {
      assert ranks == "";
    } else {
      RanksSteps(cells, w, w - 1, []);
      assert Cursor(StartSquare(w), []) == Cursor(8 * (w - 1), []);
      assert [] + RanksPlacements(cells, w, w - 1) == RanksPlacements(cells, w, w - 1);
    }
  }

  /**
   * The printed text has a blank after its placement field, reads as a
   * width of at most 8, and places its pieces on distinct board squares.
   */
  lemma FenFits(cells: seq<int>, w: int, side: Color)
    requires IsCells(cells) && 0 <= w <= 8
    ensures RankEnd(FenOf(cells, w, side)) < |FenOf(cells, w, side)|
    ensures Width(FenOf(cells, w, side)) <= 8
    ensures var ps := Placements(FenOf(cells, w, side));
      (forall k :: 0 <= k < |ps| ==> IsOkSquare2D(ps[k].square)) &&
      (forall j, k :: 0 <= j < k < |ps| ==> ps[j].square != ps[k].square)
  {
    var fen := FenOf(cells, w, side);
    FenSide(cells, w, side);
    assert FirstSpace(fen) < |fen| by {
      assert fen == RanksText(cells, w, w - 1) + (if side == WHITE then " w " else " b ");
    }
    // the blank ends the first rank, if nothing before it does
    assert EndsRank(fen[FirstSpace(fen)]);
    FenWidth(cells, w, side);
    FenPlacements(cells, w, side);
    RanksPlacementsSquares(cells, w, w - 1);
  }

  /**
   * Reading what `Board2D::fen` prints gives back the width, every cell and
   * the side to move of the board it printed.
   */
  lemma FenRoundTrip(cells: seq<int>, w: int, side: Color)
    requires IsCells(cells) && 0 <= w <= 8 && EmptyOutside(cells, w)
    ensures Decode(FenOf(cells, w, side)) == Decoded(w, cells, side)
  {
    FenSide(cells, w, side);
    FenWidth(cells, w, side);
    FenPlacements(cells, w, side);
    var got := Apply(RanksPlacements(cells, w, w - 1), NoPieces());
    ApplyRanks(cells, w, w - 1, NoPieces());
    assert forall s :: 0 <= s < SQUARE_NB ==> got[s] == cells[s];
    assert got == cells;
  }
}
