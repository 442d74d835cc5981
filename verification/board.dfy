/**
 * `Board2D` (src/position.h, src/position.cpp): one 2D chess board of a
 * timeline.  Its fixed-size arrays are arrays here: the piece on each
 * square, the number of each piece (the slots of NO_PIECE and of the black
 * NO_PIECE, 0 and 8, hold the totals of the two colours), a list of the
 * squares of each piece, and for each occupied square its position in that
 * list.  `Valid` is the bookkeeping the original keeps consistent by hand;
 * every operation is proved to keep it, and `Set` and `Fen` are proved
 * against the text format of module Fen.
 */
module Board {
  import opened Types
  import opened Fen

  /** The number of cells holding `pc`. */
  function Count(cells: seq<int>, pc: int): (n: nat)
    ensures n <= |cells|
  {
    if |cells| == 0 then 0 else (if cells[0] == pc then 1 else 0) + Count(cells[1..], pc)
  }

  /** Changing one cell changes the count of a piece by what left and what came. */
  lemma {:induction false} CountUpdate(cells: seq<int>, s: int, v: int, pc: int)
    requires 0 <= s < |cells|
    ensures Count(cells[s := v], pc)
         == Count(cells, pc) - (if cells[s] == pc then 1 else 0) + (if v == pc then 1 else 0)
  {
    if s == 0 {
      assert cells[s := v][1..] == cells[1..];
    } else {
      assert cells[s := v][1..] == cells[1..][s - 1 := v];
      CountUpdate(cells[1..], s - 1, v, pc);
    }
  }

  /** A piece that is on no cell has count 0. */
  lemma {:induction false} CountAbsent(cells: seq<int>, pc: int)
    requires forall i :: 0 <= i < |cells| ==> cells[i] != pc
    ensures Count(cells, pc) == 0
  {
    if |cells| > 0 {
      CountAbsent(cells[1..], pc);
    }
  }

  /** The pieces of colour c: the counts of its pawn .. king. */
  function ColorTotal(counts: seq<int>, c: Color): int
    requires |counts| == PIECE_NB
  {
    var b := if c == WHITE then 0 else 8;
    counts[b + 1] + counts[b + 2] + counts[b + 3] + counts[b + 4] + counts[b + 5] + counts[b + 6]
  }


  /** The contents of a board's four arrays: cells, piece counts, piece lists and indices. */
  datatype Arrays = Arrays(cells: seq<int>, counts: seq<int>, lists: seq<seq<int>>, idx: seq<int>)

  /** 64 cells, 16 counts, 16 lists of 16 squares, 64 indices. */
  predicate Sized(a: Arrays) {
    |a.cells| == SQUARE_NB && |a.counts| == PIECE_NB && |a.idx| == SQUARE_NB &&
    |a.lists| == PIECE_NB && forall p :: 0 <= p < PIECE_NB ==> |a.lists[p]| == 16
  }

  /** The count of each real piece is the number of cells holding it, at most 16 (a list's capacity). */
  ghost predicate CountsMatch(a: Arrays)
    requires |a.counts| == PIECE_NB
  {
    forall p :: IsRealPiece(p) ==> a.counts[p] == Count(a.cells, p) && a.counts[p] <= 16
  }

  /** The two colour slots, 0 and 8, hold the sums of their colour's counts. */
  predicate Totals(a: Arrays)
    requires |a.counts| == PIECE_NB
  {
    a.counts[0] == ColorTotal(a.counts, WHITE) && a.counts[8] == ColorTotal(a.counts, BLACK)
  }

  /**
   * Entry k of piece p's list: within the first `counts[p]` entries, a
   * square holding p whose index is k; beyond them, SQ_NONE.
   */
  ghost predicate EntryOk(a: Arrays, p: int, k: int)
    requires Sized(a) && 0 <= p < PIECE_NB && 0 <= k < 16
  {
    if k < a.counts[p] then
      IsOkSquare2D(a.lists[p][k]) && a.cells[a.lists[p][k]] == p && a.idx[a.lists[p][k]] == k
    else a.lists[p][k] == SQ_NONE
  }

  ghost predicate ListsMatch(a: Arrays)
    requires Sized(a)
  {
    forall p, k :: IsRealPiece(p) && 0 <= k < 16 ==> EntryOk(a, p, k)
  }

  /** An occupied square q is in its piece's list, at the position its index records. */
  ghost predicate IndexOk(a: Arrays, q: int)
    requires Sized(a) && IsCells(a.cells) && 0 <= q < SQUARE_NB
  {
    a.cells[q] != NO_PIECE ==>
      0 <= a.idx[q] < 16 && a.idx[q] < a.counts[a.cells[q]] && a.lists[a.cells[q]][a.idx[q]] == q
  }

  ghost predicate IndexMatch(a: Arrays)
    requires Sized(a) && IsCells(a.cells)
  {
    forall q :: 0 <= q < SQUARE_NB ==> IndexOk(a, q)
  }

  /** The bookkeeping the original keeps consistent by hand. */
  ghost predicate Books(a: Arrays) {
    Sized(a) && IsCells(a.cells) && CountsMatch(a) && Totals(a) && ListsMatch(a) && IndexMatch(a)
  }

  /** The arrays `set` starts from: no pieces, all counts 0, every list entry SQ_NONE, all indices 0. */
  ghost predicate Cleared(a: Arrays) {
    Sized(a) &&
    (forall q :: 0 <= q < SQUARE_NB ==> a.cells[q] == NO_PIECE && a.idx[q] == 0) &&
    (forall p :: 0 <= p < PIECE_NB ==> a.counts[p] == 0) &&
    (forall p, k :: 0 <= p < PIECE_NB && 0 <= k < 16 ==> a.lists[p][k] == SQ_NONE)
  }

  /** `put_piece` on the arrays: the piece goes on the square and at the end of its list. */
  function Put(a: Arrays, pc: int, s: int): (r: Arrays)
    requires Sized(a) && IsRealPiece(pc) && IsOkSquare2D(s) && 0 <= a.counts[pc] < 16
    ensures Sized(r) && r.cells == a.cells[s := pc]
  {
    var n := a.counts[pc];
    var slot := ColorSlot(pc);
    Arrays(a.cells[s := pc], a.counts[pc := n + 1][slot := a.counts[slot] + 1],
           a.lists[pc := a.lists[pc][n := s]], a.idx[s := n])
  }

  /**
   * `remove_piece` on the arrays: the square empties, the last square of the
   * piece's list takes the removed square's place in it, and the vacated
   * last entry becomes SQ_NONE.
   */
  function Remove(a: Arrays, s: int): (r: Arrays)
    requires Books(a) && IsOkSquare2D(s) && a.cells[s] != NO_PIECE
    ensures Sized(r) && r.cells == a.cells[s := NO_PIECE]
  {
    var pc := a.cells[s];
    assert IndexOk(a, s);
    var n := a.counts[pc] - 1;
    var i := a.idx[s];
    var last := a.lists[pc][n];
    assert EntryOk(a, pc, n);
    var slot := ColorSlot(pc);
    Arrays(a.cells[s := NO_PIECE], a.counts[pc := n][slot := a.counts[slot] - 1],
           a.lists[pc := a.lists[pc][i := last][n := SQ_NONE]], a.idx[last := i])
  }

  /** The arrays of an empty board keep the bookkeeping. */
  lemma ClearedBooks(a: Arrays)
    requires Cleared(a)
    ensures Books(a)
  {
    forall p | IsRealPiece(p)
      ensures a.counts[p] == Count(a.cells, p)
    {
      CountAbsent(a.cells, p);
    }
    forall p, k | IsRealPiece(p) && 0 <= k < 16
      ensures EntryOk(a, p, k)
    {
    }
  }

  /** Putting a piece: its count and its colour's total grow by one, and the counts still count the cells. */
  lemma PutCounts(a: Arrays, pc: int, s: int)
    requires Books(a) && IsRealPiece(pc) && IsOkSquare2D(s) && a.cells[s] == NO_PIECE && a.counts[pc] < 16
    ensures var r := Put(a, pc, s);
      CountsMatch(r) && Totals(r) &&
      forall p :: IsRealPiece(p) ==> r.counts[p] == a.counts[p] + (if p == pc then 1 else 0)
  {
    var r := Put(a, pc, s);
    forall p | IsRealPiece(p)
      ensures r.counts[p] == Count(r.cells, p) && r.counts[p] <= 16
    {
      CountUpdate(a.cells, s, pc, p);
    }
    PutTotals(a, pc, s);
  }

  lemma PutTotals(a: Arrays, pc: int, s: int)
    requires Sized(a) && Totals(a) && IsRealPiece(pc) && IsOkSquare2D(s) && 0 <= a.counts[pc] < 16
    ensures Totals(Put(a, pc, s))
  {
    var r := Put(a, pc, s);
    if pc < 8 {
      assert ColorTotal(r.counts, BLACK) == ColorTotal(a.counts, BLACK);
    } else {
      assert ColorTotal(r.counts, WHITE) == ColorTotal(a.counts, WHITE);
    }
  }

  lemma PutLists(a: Arrays, pc: int, s: int)
    requires Books(a) && IsRealPiece(pc) && IsOkSquare2D(s) && a.cells[s] == NO_PIECE && a.counts[pc] < 16
    ensures ListsMatch(Put(a, pc, s))
  {
    var r := Put(a, pc, s);
    var n := a.counts[pc];
    forall p, k | IsRealPiece(p) && 0 <= k < 16
      ensures EntryOk(r, p, k)
    {
      assert EntryOk(a, p, k);
      if !(p == pc && k == n) {
        assert r.lists[p][k] == a.lists[p][k];
      }
    }
  }

  lemma PutIndex(a: Arrays, pc: int, s: int)
    requires Books(a) && IsRealPiece(pc) && IsOkSquare2D(s) && a.cells[s] == NO_PIECE && a.counts[pc] < 16
    ensures IsCells(Put(a, pc, s).cells) && IndexMatch(Put(a, pc, s))
  {
    var r := Put(a, pc, s);
    forall q | 0 <= q < SQUARE_NB
      ensures IndexOk(r, q)
    {
      assert IndexOk(a, q);
      if q != s && a.cells[q] != NO_PIECE {
        assert r.lists[a.cells[q]][a.idx[q]] == a.lists[a.cells[q]][a.idx[q]];
      }
    }
  }

  /** `put_piece` onto an empty square with room in the piece's list keeps the bookkeeping. */
  lemma PutBooks(a: Arrays, pc: int, s: int)
    requires Books(a) && IsRealPiece(pc) && IsOkSquare2D(s) && a.cells[s] == NO_PIECE && a.counts[pc] < 16
    ensures Books(Put(a, pc, s))
    ensures forall p :: IsRealPiece(p) ==> Put(a, pc, s).counts[p] == a.counts[p] + (if p == pc then 1 else 0)
  {
    PutCounts(a, pc, s);
    PutLists(a, pc, s);
    PutIndex(a, pc, s);
  }

  /** Removing a piece: its count and its colour's total drop by one, and the counts still count the cells. */
  lemma RemoveCounts(a: Arrays, s: int)
    requires Books(a) && IsOkSquare2D(s) && a.cells[s] != NO_PIECE
    ensures var r := Remove(a, s);
      CountsMatch(r) && Totals(r) &&
      forall p :: IsRealPiece(p) ==> r.counts[p] == a.counts[p] - (if p == a.cells[s] then 1 else 0)
  {
    var r := Remove(a, s);
    forall p | IsRealPiece(p)
      ensures r.counts[p] == Count(r.cells, p) && r.counts[p] <= 16
    {
      CountUpdate(a.cells, s, NO_PIECE, p);
    }
    RemoveTotals(a, s);
  }

  lemma RemoveTotals(a: Arrays, s: int)
    requires Books(a) && IsOkSquare2D(s) && a.cells[s] != NO_PIECE
    ensures Totals(Remove(a, s))
  {
    var r := Remove(a, s);
    if a.cells[s] < 8 {
      assert ColorTotal(r.counts, BLACK) == ColorTotal(a.counts, BLACK);
    } else {
      assert ColorTotal(r.counts, WHITE) == ColorTotal(a.counts, WHITE);
    }
  }

  lemma RemoveLists(a: Arrays, s: int)
    requires Books(a) && IsOkSquare2D(s) && a.cells[s] != NO_PIECE
    ensures ListsMatch(Remove(a, s))
  {
    var r := Remove(a, s);
    var pc, i := a.cells[s], a.idx[s];
    assert IndexOk(a, s);
    var n := a.counts[pc] - 1;
    assert EntryOk(a, pc, n);
    var last := a.lists[pc][n];
    assert i == n ==> last == s;
    forall p, k | IsRealPiece(p) && 0 <= k < 16
      ensures EntryOk(r, p, k)
    {
      assert EntryOk(a, p, k);
      if p != pc || (k != i && k != n) {
        assert r.lists[p][k] == a.lists[p][k];
        if k < r.counts[p] {
          var q := a.lists[p][k];
          assert q != s && q != last;
          assert r.cells[q] == a.cells[q] && r.idx[q] == a.idx[q];
        }
      } else if k == i && k != n {
        assert last != s;
      }
    }
  }

  lemma RemoveIndex(a: Arrays, s: int)
    requires Books(a) && IsOkSquare2D(s) && a.cells[s] != NO_PIECE
    ensures IsCells(Remove(a, s).cells) && IndexMatch(Remove(a, s))
  {
    var r := Remove(a, s);
    var pc, i := a.cells[s], a.idx[s];
    assert IndexOk(a, s);
    var n := a.counts[pc] - 1;
    assert EntryOk(a, pc, n);
    var last := a.lists[pc][n];
    forall q | 0 <= q < SQUARE_NB
      ensures IndexOk(r, q)
    {
      assert IndexOk(a, q);
      if q != s && a.cells[q] != NO_PIECE {
        assert r.cells[q] == a.cells[q];
        if q == last {
          assert i != n;
        } else {
          var k := a.idx[q];
          assert r.idx[q] == k;
          if a.cells[q] == pc {
            assert k != i && k != n;
          }
          assert r.lists[a.cells[q]][k] == a.lists[a.cells[q]][k];
        }
      }
    }
  }

  /** `remove_piece` from an occupied square keeps the bookkeeping. */
  lemma RemoveBooks(a: Arrays, s: int)
    requires Books(a) && IsOkSquare2D(s) && a.cells[s] != NO_PIECE
    ensures Books(Remove(a, s))
    ensures forall p :: IsRealPiece(p) ==> Remove(a, s).counts[p] == a.counts[p] - (if p == a.cells[s] then 1 else 0)
  {
    RemoveCounts(a, s);
    RemoveLists(a, s);
    RemoveIndex(a, s);
  }

  /**
   * Putting a piece on an empty square and removing it again gives back the
   * same cells and counts; the lists and indices may differ.
   */
  lemma PutThenRemove(a: Arrays, pc: int, s: int)
    requires Books(a) && IsRealPiece(pc) && IsOkSquare2D(s) && a.cells[s] == NO_PIECE && a.counts[pc] < 16
    ensures Books(Put(a, pc, s))
    ensures Remove(Put(a, pc, s), s).cells == a.cells
    ensures Remove(Put(a, pc, s), s).counts == a.counts
  {
    PutBooks(a, pc, s);
    assert a.cells[s := pc][s := NO_PIECE] == a.cells;
  }

  /** Two lists of rows with the same entries are equal. */
  lemma RowsEqual(x: seq<seq<int>>, y: seq<seq<int>>)
    requires |x| == |y| == PIECE_NB
    requires forall p :: 0 <= p < PIECE_NB ==> |x[p]| == |y[p]| == 16
    requires forall p, k :: 0 <= p < PIECE_NB && 0 <= k < 16 ==> x[p][k] == y[p][k]
    ensures x == y
  {
    forall p | 0 <= p < PIECE_NB
      ensures x[p] == y[p]
    {
    }
  }

  /** The next placement of a placeable sequence lands on the board, on an empty cell, with room in its list. */
  lemma PlacementFits(ps: seq<Placement>, all: seq<Placement>, p: Placement)
    requires Placeable(all) && ps + [p] <= all && IsRealPiece(p.piece)
    ensures IsOkSquare2D(p.square)
    ensures Apply(ps, NoPieces())[p.square] == NO_PIECE
    ensures Occurrences(ps, p.piece) < 16
  {
    var n := |ps|;
    assert all[n] == (ps + [p])[n] == p;
    forall k | 0 <= k < n
      ensures ps[k].square != p.square
    {
      assert ps[k] == all[k];
    }
    ApplyUntouched(ps, NoPieces(), p.square);
    OccurrencesSnoc(ps, p, p.piece);
    OccurrencesPrefix(ps + [p], all, p.piece);
  }

  /** A prefix of placeable placements is on the board and on distinct squares. */
  lemma PlacedSquares(ps: seq<Placement>, all: seq<Placement>)
    requires Placeable(all) && ps <= all
    ensures forall k :: 0 <= k < |ps| ==> IsOkSquare2D(ps[k].square)
    ensures forall j, k :: 0 <= j < k < |ps| ==> ps[j].square != ps[k].square
  {
    assert forall k :: 0 <= k < |ps| ==> ps[k] == all[k];
  }

  /**
   * On a board built from placements on distinct squares of the board, each
   * real piece stands on as many cells as it was placed.
   */
  lemma {:induction false} CountApply(ps: seq<Placement>, pc: int)
    requires forall k :: 0 <= k < |ps| ==> IsOkSquare2D(ps[k].square)
    requires forall j, k :: 0 <= j < k < |ps| ==> ps[j].square != ps[k].square
    requires IsRealPiece(pc)
    ensures Count(Apply(ps, NoPieces()), pc) == Occurrences(ps, pc)
  {
    if |ps| == 0 {
      CountAbsent(NoPieces(), pc);
    } else {
      var init, last := ps[..|ps| - 1], ps[|ps| - 1];
      assert ps == init + [last];
      CountApply(init, pc);
      ApplySnoc(init, last, NoPieces());
      forall k | 0 <= k < |init|
        ensures init[k].square != last.square
      {
        assert init[k] == ps[k];
      }
      ApplyUntouched(init, NoPieces(), last.square);
      CountUpdate(Apply(init, NoPieces()), last.square, last.piece, pc);
      OccurrencesSnoc(init, last, pc);
    }
  }

  /**
   * What `fen` prints for a board with at most 16 of each piece and no
   * piece outside its width is text that `set` accepts.
   */
  lemma FenLoadable(cells: seq<int>, w: int, side: Color)
    requires IsCells(cells) && 0 <= w <= 8 && EmptyOutside(cells, w)
    requires forall pc :: IsRealPiece(pc) ==> Count(cells, pc) <= 16
    ensures Loadable(FenOf(cells, w, side))
  {
    var ps := Placements(FenOf(cells, w, side));
    FenFits(cells, w, side);
    FenRoundTrip(cells, w, side);
    forall pc | 0 <= pc < PIECE_NB && IsRealPiece(pc)
      ensures Occurrences(ps, pc) <= 16
    {
      CountApply(ps, pc);
    }
  }

  class Board2D {
    /** The board is `boardWidth` x `boardWidth` in the lower-left corner of the 8x8 square grid. */
    var boardWidth: int
    const board: array<int>
    const pieceCount: array<int>
    const pieceList: array2<int>
    const index: array<int>
    var sideToMove: Color

    /** The arrays have the sizes the original declares; the two square-indexed arrays are distinct. */
    predicate Shaped() {
      board.Length == SQUARE_NB && index.Length == SQUARE_NB && pieceCount.Length == PIECE_NB &&
      pieceList.Length0 == PIECE_NB && pieceList.Length1 == 16 &&
      board != index && board != pieceCount && index != pieceCount
    }

    /** Entries k .. 15 of piece p's list. */
    ghost function Row(p: int, k: int): (row: seq<int>)
      requires pieceList.Length0 == PIECE_NB && pieceList.Length1 == 16
      requires 0 <= p < PIECE_NB && 0 <= k <= 16
      reads pieceList
      ensures |row| == 16 - k
      decreases 16 - k
    {
      if k == 16 then [] else [pieceList[p, k]] + Row(p, k + 1)
    }

    /** The lists of pieces p .. 15. */
    ghost function Rows(p: int): (rows: seq<seq<int>>)
      requires pieceList.Length0 == PIECE_NB && pieceList.Length1 == 16
      requires 0 <= p <= PIECE_NB
      reads pieceList
      ensures |rows| == PIECE_NB - p
      ensures forall i :: 0 <= i < |rows| ==> |rows[i]| == 16
      decreases PIECE_NB - p
    {
      if p == PIECE_NB then [] else [Row(p, 0)] + Rows(p + 1)
    }

    /** The piece lists as a sequence of rows. */
    ghost function Lists(): (ls: seq<seq<int>>)
      requires pieceList.Length0 == PIECE_NB && pieceList.Length1 == 16
      reads pieceList
      ensures |ls| == PIECE_NB
      ensures forall p :: 0 <= p < PIECE_NB ==> |ls[p]| == 16
    {
      Rows(0)
    }

    lemma {:induction false} RowEntries(p: int, k: int)
      requires pieceList.Length0 == PIECE_NB && pieceList.Length1 == 16
      requires 0 <= p < PIECE_NB && 0 <= k <= 16
      ensures forall j :: 0 <= j < 16 - k ==> Row(p, k)[j] == pieceList[p, k + j]
      decreases 16 - k
    {
      if k < 16 {
        RowEntries(p, k + 1);
        var row := Row(p, k);
        assert row == [pieceList[p, k]] + Row(p, k + 1);
        forall j | 0 < j < 16 - k
          ensures row[j] == pieceList[p, k + j]
        {
          assert row[j] == Row(p, k + 1)[j - 1];
        }
      }
    }

    lemma {:induction false} RowsEntries(p: int)
      requires pieceList.Length0 == PIECE_NB && pieceList.Length1 == 16
      requires 0 <= p <= PIECE_NB
      ensures forall i :: 0 <= i < PIECE_NB - p ==> Rows(p)[i] == Row(p + i, 0)
      decreases PIECE_NB - p
    {
      if p < PIECE_NB {
        RowsEntries(p + 1);
        var rows := Rows(p);
        assert rows == [Row(p, 0)] + Rows(p + 1);
        forall i | 0 < i < PIECE_NB - p
          ensures rows[i] == Row(p + i, 0)
        {
          assert rows[i] == Rows(p + 1)[i - 1];
        }
      }
    }

    /** Entry k of row p of `Lists()` is `pieceList[p, k]`. */
    lemma ListsEntries()
      requires pieceList.Length0 == PIECE_NB && pieceList.Length1 == 16
      ensures forall p, k :: 0 <= p < PIECE_NB && 0 <= k < 16 ==> Lists()[p][k] == pieceList[p, k]
    {
      RowsEntries(0);
      forall p | 0 <= p < PIECE_NB
        ensures forall k :: 0 <= k < 16 ==> Lists()[p][k] == pieceList[p, k]
      {
        RowEntries(p, 0);
      }
    }

    /** The contents of the four arrays. */
    ghost function Snapshot(): (a: Arrays)
      requires Shaped()
      reads board, pieceCount, pieceList, index
      ensures Sized(a)
    {
      Arrays(board[..], pieceCount[..], Lists(), index[..])
    }

    /** The width is at most 8 (position.h requires it) and the arrays keep their bookkeeping. */
    ghost predicate Valid()
      reads this, board, pieceCount, pieceList, index
    {
      Shaped() && 0 <= boardWidth <= 8 && Kept()
    }

    /** The arrays keep their bookkeeping; this depends on the arrays only, not on the width or the side. */
    ghost predicate Kept()
      requires Shaped()
      reads board, pieceCount, pieceList, index
    {
      Books(Snapshot())
    }

    /**
     * An empty board of width 0 with WHITE to move.  The original's default
     * constructor leaves the arrays indeterminate and every board is filled
     * by `set`, which first zeroes it; this is the zeroed board.
     */
    constructor()
      ensures Valid() && fresh(board) && fresh(pieceCount) && fresh(pieceList) && fresh(index)
      ensures Cleared(Snapshot()) && boardWidth == 0 && sideToMove == WHITE
    {
      boardWidth := 0;
      board := new int[SQUARE_NB];
      pieceCount := new int[PIECE_NB];
      pieceList := new int[PIECE_NB, 16];
      index := new int[SQUARE_NB];
      sideToMove := WHITE;
      new;
      Clear();
    }

    /** The zeroing that starts `set`: no pieces, zero counts, SQ_NONE list entries, zero indices. */
    method Clear()
      requires Shaped() && 0 <= boardWidth <= 8
      modifies board, pieceCount, pieceList, index
      ensures Valid() && Cleared(Snapshot())
    {
      forall s | 0 <= s < SQUARE_NB {
        board[s] := NO_PIECE;
      }
      forall pc | 0 <= pc < PIECE_NB {
        pieceCount[pc] := 0;
      }
      forall p, k | 0 <= p < PIECE_NB && 0 <= k < 16 {
        pieceList[p, k] := SQ_NONE;
      }
      forall s | 0 <= s < SQUARE_NB {
        index[s] := 0;
      }
      ListsEntries();
      assert Cleared(Snapshot());
      ClearedValid();
    }

    /** A cleared board of width at most 8 is valid. */
    lemma ClearedValid()
      requires Shaped() && 0 <= boardWidth <= 8 && Cleared(Snapshot())
      ensures Valid()
    {
      ClearedBooks(Snapshot());
    }

    /** The copy constructor: a board with fresh arrays holding what `other`'s hold. */
    constructor Copy(other: Board2D)
      requires other.Shaped()
      ensures Shaped() && fresh(board) && fresh(pieceCount) && fresh(pieceList) && fresh(index)
      ensures boardWidth == other.boardWidth && sideToMove == other.sideToMove
      ensures Snapshot() == other.Snapshot()
    {
      var b := new int[SQUARE_NB];
      forall s | 0 <= s < SQUARE_NB {
        b[s] := other.board[s];
      }
      var c := new int[PIECE_NB];
      forall pc | 0 <= pc < PIECE_NB {
        c[pc] := other.pieceCount[pc];
      }
      var l := new int[PIECE_NB, 16];
      forall p, k | 0 <= p < PIECE_NB && 0 <= k < 16 {
        l[p, k] := other.pieceList[p, k];
      }
      var x := new int[SQUARE_NB];
      forall s | 0 <= s < SQUARE_NB {
        x[s] := other.index[s];
      }
      boardWidth := other.boardWidth;
      board := b;
      pieceCount := c;
      pieceList := l;
      index := x;
      sideToMove := other.sideToMove;
      new;
      assert board[..] == other.board[..];
      assert pieceCount[..] == other.pieceCount[..];
      assert index[..] == other.index[..];
      ListsEntries();
      other.ListsEntries();
      RowsEqual(Lists(), other.Lists());
    }

    /** A copy of a valid board is valid. */
    lemma CopyValid(other: Board2D)
      requires Shaped() && other.Valid()
      requires boardWidth == other.boardWidth && Snapshot() == other.Snapshot()
      ensures Valid()
    {
    }

    /** `piece_on`: empty or a real piece, and when a piece, listed at the square's index. */
    function PieceOn(s: int): (pc: int)
      requires Valid() && IsOkSquare2D(s)
      reads this, board, pieceCount, pieceList, index
      ensures pc == NO_PIECE || IsRealPiece(pc)
      ensures pc != NO_PIECE ==> 0 <= index[s] < pieceCount[pc] && pieceList[pc, index[s]] == s
    {
      assert IndexOk(Snapshot(), s);
      ListsEntries();
      board[s]
    }

    /** `empty`: the square is in no piece's list. */
    function Empty(s: int): (e: bool)
      requires Valid() && IsOkSquare2D(s)
      reads this, board, pieceCount, pieceList, index
      ensures e <==> forall pc, k :: IsRealPiece(pc) && 0 <= k < pieceCount[pc] ==> pieceList[pc, k] != s
    {
      ListsEntries();
      EmptyUnlisted(s);
      PieceOn(s) == NO_PIECE
    }

    /** An empty square is in no list: every listed square holds its piece. */
    lemma EmptyUnlisted(s: int)
      requires Valid() && IsOkSquare2D(s)
      ensures board[s] == NO_PIECE ==>
        forall pc, k :: IsRealPiece(pc) && 0 <= k < pieceCount[pc] ==> pieceList[pc, k] != s
    {
      ListsEntries();
      forall pc, k | board[s] == NO_PIECE && IsRealPiece(pc) && 0 <= k < pieceCount[pc]
        ensures pieceList[pc, k] != s
      {
        assert EntryOk(Snapshot(), pc, k);
      }
    }

    /**
     * `put_piece` onto an empty square: the arrays become `Put` of what they
     * were, so the piece goes at the end of its list and its count and its
     * colour's total grow by one.
     */
    method PutPiece(pc: int, s: int)
      requires Valid() && IsRealPiece(pc) && IsOkSquare2D(s)
      requires board[s] == NO_PIECE && pieceCount[pc] < 16
      modifies board, pieceCount, pieceList, index
      ensures Valid()
      ensures Snapshot() == Put(old(Snapshot()), pc, s)
    {
      ghost var a := Snapshot();
      ghost var r := Put(a, pc, s);
      ListsEntries();
      board[s] := pc;
      assert board[..] == r.cells;
      index[s] := pieceCount[pc];
      assert index[..] == r.idx;
      pieceCount[pc] := pieceCount[pc] + 1;
      pieceList[pc, index[s]] := s;
      assert forall p, k :: 0 <= p < PIECE_NB && 0 <= k < 16 ==> pieceList[p, k] == r.lists[p][k];
      var slot := ColorSlot(pc);
      pieceCount[slot] := pieceCount[slot] + 1;
      assert pieceCount[..] == r.counts;
      ListsEntries();
      RowsEqual(Lists(), r.lists);
      PutValid(a, pc, s);
    }

    lemma PutValid(a: Arrays, pc: int, s: int)
      requires Books(a) && IsRealPiece(pc) && IsOkSquare2D(s) && a.cells[s] == NO_PIECE && a.counts[pc] < 16
      requires Shaped() && 0 <= boardWidth <= 8 && Snapshot() == Put(a, pc, s)
      ensures Valid()
    {
      PutBooks(a, pc, s);
    }

    /**
     * `remove_piece` from an occupied square: the arrays become `Remove` of
     * what they were.
     */
    method RemovePiece(s: int)
      requires Valid() && IsOkSquare2D(s) && board[s] != NO_PIECE
      modifies board, pieceCount, pieceList, index
      ensures Valid()
      ensures Snapshot() == Remove(old(Snapshot()), s)
    {
      ghost var a := Snapshot();
      ghost var r := Remove(a, s);
      ListsEntries();
      assert IndexOk(a, s);
      var pc := board[s];
      assert EntryOk(a, pc, pieceCount[pc] - 1);
      board[s] := NO_PIECE;
      assert board[..] == r.cells;
      pieceCount[pc] := pieceCount[pc] - 1;
      var lastSquare := pieceList[pc, pieceCount[pc]];
      index[lastSquare] := index[s];
      assert index[..] == r.idx;
      pieceList[pc, index[lastSquare]] := lastSquare;
      pieceList[pc, pieceCount[pc]] := SQ_NONE;
      assert forall p, k :: 0 <= p < PIECE_NB && 0 <= k < 16 ==> pieceList[p, k] == r.lists[p][k];
      var slot := ColorSlot(pc);
      pieceCount[slot] := pieceCount[slot] - 1;
      assert pieceCount[..] == r.counts;
      ListsEntries();
      RowsEqual(Lists(), r.lists);
      RemoveValid(a, s);
    }

    lemma RemoveValid(a: Arrays, s: int)
      requires Books(a) && IsOkSquare2D(s) && a.cells[s] != NO_PIECE
      requires Shaped() && 0 <= boardWidth <= 8 && Snapshot() == Remove(a, s)
      ensures Valid()
    {
      RemoveBooks(a, s);
    }

    /**
     * `set`: clear the board, count the width on the text's first rank,
     * then put the pieces of the placement field from the top-left square
     * and read the side to move.  The board ends up holding what `Decode`
     * reads from the text, and its bookkeeping is consistent.
     */
    method Set(fen: string)
      requires Shaped() && Loadable(fen)
      modifies this, board, pieceCount, pieceList, index
      ensures Valid()
      ensures Decode(fen) == Decoded(boardWidth, board[..], sideToMove)
    {
      boardWidth, sideToMove := 0, WHITE;
      Clear();
      assert board[..] == NoPieces();
      var width := ReadWidth(fen);
      boardWidth := width;
      var token, j := ReadPieces(fen, width);
      SideRead(fen, j);
      if j < |fen| {
        token := fen[j];
      }
      sideToMove := if token == 'w' then WHITE else BLACK;
    }

    /**
     * Step 0 of `set`: the squares of the text's first rank, up to its first
     * blank or '/', counted in an unsigned char.
     */
    static method ReadWidth(fen: string) returns (width: int)
      requires RankEnd(fen) < |fen|
      ensures width == Width(fen)
    {
      width := 0;
      var i := 0;
      while !IsSpace(fen[i])
        invariant 0 <= i <= RankEnd(fen) && 0 <= width < 256
        invariant WidthFrom(fen[i..], width) == Width(fen)
        decreases RankEnd(fen) - i
      {
        assert fen[i..][0] == fen[i] && fen[i..][1..] == fen[i + 1..];
        var token := fen[i];
        if IsDigit(token) {
          width := (width + DigitValue(token)) % 256;
        } else if token == '/' {
          break;
        } else {
          width := (width + 1) % 256;
        }
        i := i + 1;
      }
      assert fen[i..][0] == fen[i];
    }

    /**
     * Step 1 of `set`: read the text one character at a time until a blank
     * or its end, scanning each character with `ScanPiece` from file A of
     * the top rank.  Returns the last character read and how many were
     * read: one past the first blank, or all of them when there is none.
     */
    method ReadPieces(fen: string, width: int) returns (token: char, j: int)
      requires Valid() && Loadable(fen) && width == Width(fen) && board[..] == NoPieces()
      modifies board, pieceCount, pieceList, index
      ensures Valid() && board[..] == Apply(Placements(fen), NoPieces())
      ensures 0 < j <= |fen| && token == fen[j - 1]
      ensures j == FirstSpace(fen) + 1 || j == FirstSpace(fen) == |fen|
    {
      var sq := SQ_A1 + (width - 1) * NORTH;
      ghost var start := Cursor(sq, []);
      assert start == Cursor(StartSquare(width), []);
      ghost var all := Placements(fen);
      assert all == Steps(fen[..FirstSpace(fen)], start, width).placed;
      ghost var cur := start;
      token, j := ' ', 0;
      while j < |fen| && !IsSpace(fen[j])
        invariant Valid()
        invariant 0 <= j <= FirstSpace(fen) && (0 < j ==> token == fen[j - 1])
        invariant cur == Steps(fen[..j], start, width) && sq == cur.sq
        invariant cur.placed <= all
        invariant board[..] == Apply(cur.placed, NoPieces())
      {
        token := fen[j];
        ScanNext(fen, j, start, width);
        assert Cursor(sq, cur.placed) == cur;
        sq := ScanPiece(token, width, sq, cur.placed, all);
        cur := Step(token, cur, width);
        j := j + 1;
      }
      assert j == FirstSpace(fen);
      assert cur.placed == all;
      // the read that ends the loop takes the blank, if there is one
      if j < |fen| {
        token := fen[j];
        j := j + 1;
      }
    }

    /**
     * One character of the placement field, the body of `set`'s piece loop:
     * a digit skips that many squares east, '/' goes back `width` squares
     * and down a rank, a piece character puts that piece on the square and
     * moves one east, and anything else is skipped.  The board then holds
     * the placements of one more step of the scan.
     */
    method ScanPiece(token: char, width: int, sq: int, ghost placed: seq<Placement>, ghost all: seq<Placement>)
      returns (next: int)
      requires Valid() && !IsSpace(token) && board[..] == Apply(placed, NoPieces())
      requires Placeable(all) && Step(token, Cursor(sq, placed), width).placed <= all
      modifies board, pieceCount, pieceList, index
      ensures Valid()
      ensures next == Step(token, Cursor(sq, placed), width).sq
      ensures board[..] == Apply(Step(token, Cursor(sq, placed), width).placed, NoPieces())
    {
      next := sq;
      if IsDigit(token) {
        next := next + DigitValue(token) * EAST;
      } else if token == '/' {
        next := next + width * WEST;
        next := next + SOUTH;
      } else {
        var found := Find(PieceToChar, token);
        if found.Some? {
          var idx := found.value;
          FoundIsRealPiece(token);
          PlacementFits(placed, all, Placement(idx, sq));
          PlacedSquares(placed, all);
          CountApply(placed, idx);
          assert Snapshot().counts[idx] == Count(board[..], idx);
          ApplySnoc(placed, Placement(idx, sq), NoPieces());
          PutPiece(idx, sq);
          next := next + EAST;
        }
      }
    }

    /** The cells of a valid board are empty or hold a real piece. */
    lemma ValidCells()
      requires Valid()
      ensures IsCells(board[..])
    {
    }

    /**
     * `fen`: the ranks from the top, '/' between them, then the side to
     * move; the text is `FenOf` of the cells.  When no piece stands outside
     * the width, `Set` accepts the text and reading it back gives this
     * board's width, cells and side to move.
     */
    method Fen() returns (text: string)
      requires Valid()
      ensures IsCells(board[..]) && text == FenOf(board[..], boardWidth, sideToMove)
      ensures EmptyOutside(board[..], boardWidth) ==>
        Loadable(text) && Decode(text) == Decoded(boardWidth, board[..], sideToMove)
    {
      ValidCells();
      text := WriteRanks();
      text := text + (if sideToMove == WHITE then " w " else " b ");
      if EmptyOutside(board[..], boardWidth) {
        assert forall pc :: IsRealPiece(pc) ==> Count(board[..], pc) <= 16 by {
          assert CountsMatch(Snapshot());
        }
        FenLoadable(board[..], boardWidth, sideToMove);
        FenRoundTrip(board[..], boardWidth, sideToMove);
      }
    }

    /** The ranks of `fen`, from the top rank down, with '/' between them. */
    method WriteRanks() returns (text: string)
      requires board.Length == SQUARE_NB && IsCells(board[..]) && 0 <= boardWidth <= 8
      ensures text == RanksText(board[..], boardWidth, boardWidth - 1)
    {
      ghost var cells := board[..];
      var w := boardWidth;
      text := "";
      var r := w - 1;
      while r >= 0
        invariant -1 <= r < w
        invariant text + RanksText(cells, w, r) == RanksText(cells, w, w - 1)
      {
        var rank := WriteRank(r);
        RanksTextNext(cells, w, r, text);
        text := text + rank;
        if r > 0 {
          text := text + "/";
        }
        r := r - 1;
      }
    }

    /**
     * One rank of `fen`: runs of empty squares as their length, pieces as
     * their characters.  `empty` and `piece_on` read the cell directly.
     */
    method WriteRank(r: int) returns (t: string)
      requires board.Length == SQUARE_NB && IsCells(board[..]) && 0 <= r < boardWidth <= 8
      ensures t == RankText(board[..], boardWidth, r)
    {
      ghost var cells := board[..];
      var w := boardWidth;
      t := "";
      var f := 0;
      while f < w
        invariant RankPrinted(cells, w, r, f, 0, t)
      {
        var emptyCnt := 0;
        while f < w && board[MakeSquare2D(f, r)] == NO_PIECE
          invariant f <= w && RankPrinted(cells, w, r, f, emptyCnt, t)
        {
          RankPrintedEmpty(cells, w, r, f, emptyCnt, t);
          emptyCnt := emptyCnt + 1;
          f := f + 1;
        }
        RankPrintedRunEnd(cells, w, r, f, emptyCnt, t);
        t := t + RunText(emptyCnt);
        if f < w {
          t := t + CellChar(board[MakeSquare2D(f, r)]);
        }
        f := f + 1;
      }
    }

    /** `passTurn`: the other colour is to move; nothing else changes. */
    method PassTurn()
      modifies this
      ensures sideToMove == OtherColor(old(sideToMove)) && boardWidth == old(boardWidth)
      ensures old(Valid()) ==> Valid()
    {
      sideToMove := OtherColor(sideToMove);
    }
  }
}
