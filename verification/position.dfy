/**
 * `Position` (src/position.h, src/position.cpp): the multiverse, a central
 * timeline with the timelines white has created above it and those black
 * has created below it, the counts of active timelines on each side, the
 * time of the present and the colour to move.  Its bookkeeping follows the
 * functions of module Multiverse.
 */
module Positions {
  import opened Types
  import opened Fen
  import opened Board
  import opened Timelines
  import opened Multiverse

  /**
   * A timeline as `set` leaves it: it starts at time 1, is active, and
   * holds the one board b, which is to move at the timeline's
   * start colour, and holds what `fen` describes.
   */
  ghost predicate Loads(t: Timeline, b: Board2D, fen: string)
    reads t, b, b.board
  {
    t.startTime == 1 && t.active && t.boards == [b] && t.startColor == b.sideToMove &&
    Decode(fen) == Contents(b)
  }

  /** What a FEN describes of a board: its width, its cells and the colour to move. */
  ghost function Contents(b: Board2D): Decoded
    reads b, b.board
  {
    Decoded(b.boardWidth, b.board[..], b.sideToMove)
  }

  /** No timeline appears twice in ts. */
  predicate Distinct(ts: seq<Timeline>) {
    forall i, j :: 0 <= i < j < |ts| ==> ts[i] != ts[j]
  }

  /** Appending a timeline not yet in ts keeps the timelines distinct. */
  lemma DistinctAppend(ts: seq<Timeline>, t: Timeline)
    requires Distinct(ts) && t !in ts
    ensures Distinct(ts + [t])
  {
  }

  class Position {
    var negativeLines: seq<Timeline>
    /** positiveLines[0] is the central timeline. */
    var positiveLines: seq<Timeline>
    /** The active timelines above and below the central one; the central one is not counted. */
    var activePositiveLines: int
    var activeNegativeLines: int
    var timeOfPresent: int
    var sideToMove: Color

    /** All timelines of the position. */
    function Lines(): seq<Timeline>
      reads this
    {
      negativeLines + positiveLines
    }

    /** There is a central timeline, and no timeline object appears twice. */
    predicate Valid()
      reads this
    {
      |positiveLines| >= 1 && Distinct(negativeLines) && Distinct(positiveLines) &&
      forall i, j :: 0 <= i < |negativeLines| && 0 <= j < |positiveLines| ==> negativeLines[i] != positiveLines[j]
    }

    /**
     * The position as module Multiverse sees it: s has a line for each
     * timeline, with its start time and activity, and the position's
     * counters, present and colour to move.
     */
    ghost predicate Mirrors(s: State)
      reads this, negativeLines, positiveLines
    {
      |s.neg| == |negativeLines| && |s.pos| == |positiveLines| &&
      (forall i :: 0 <= i < |negativeLines| ==> s.neg[i] == Line(negativeLines[i].startTime, negativeLines[i].active)) &&
      (forall i :: 0 <= i < |positiveLines| ==> s.pos[i] == Line(positiveLines[i].startTime, positiveLines[i].active)) &&
      s.activeNeg == activeNegativeLines && s.activePos == activePositiveLines &&
      s.present == timeOfPresent && s.side == sideToMove
    }

    /** An empty position: no timelines. */
    constructor()
      ensures negativeLines == [] && positiveLines == []
    {
      negativeLines, positiveLines := [], [];
      activePositiveLines, activeNegativeLines, timeOfPresent, sideToMove := 0, 0, 0, WHITE;
    }

    /** `negative_timeline_count`: the timelines black has created. */
    function NegativeTimelineCount(): (n: int)
      reads this, negativeLines, positiveLines
      ensures forall s :: Mirrors(s) ==> n == NegativeCount(s)
    {
      |negativeLines|
    }

    /** `positive_timeline_count`: the timelines white has created; the central one is not counted. */
    function PositiveTimelineCount(): (n: int)
      reads this, negativeLines, positiveLines
      ensures forall s :: Mirrors(s) ==> n == PositiveCount(s)
    {
      |positiveLines| - 1
    }

    /** `timeline`: timeline l, for l from -NegativeTimelineCount() to PositiveTimelineCount(). */
    function TimelineAt(l: int): (t: Timeline)
      requires -|negativeLines| <= l < |positiveLines|
      reads this
      ensures t in Lines() && (l >= 0 ==> t in positiveLines) && (l < 0 ==> t in negativeLines)
    {
      if l >= 0 then positiveLines[l] else negativeLines[-l - 1]
    }

    /**
     * In a valid position the numbering is one to one: every timeline of
     * the position has exactly one number.
     */
    lemma Numbering(t: Timeline)
      requires Valid()
      ensures t in Lines() <==> exists l :: -|negativeLines| <= l < |positiveLines| && TimelineAt(l) == t
      ensures forall l, m ::
        (-|negativeLines| <= l < |positiveLines| && -|negativeLines| <= m < |positiveLines| &&
         TimelineAt(l) == TimelineAt(m)) ==> l == m
    {
      if t in Lines() {
        var i :| 0 <= i < |Lines()| && Lines()[i] == t;
        if i < |negativeLines| {
          assert TimelineAt(-i - 1) == t;
        } else {
          assert TimelineAt(i - |negativeLines|) == t;
        }
      }
      forall l, m | -|negativeLines| <= l < |positiveLines| && -|negativeLines| <= m < |positiveLines| &&
        TimelineAt(l) == TimelineAt(m)
        ensures l == m
      {
      }
    }

    /**
     * `set`: one timeline per FEN, each starting at time 1, active and
     * holding the board its FEN describes; the negative FENs are stored
     * from the last to the first.  Every line is counted as active, the
     * present is 1, and the colour to move is the central board's.
     */
    method Set(negFENs: seq<string>, posFENs: seq<string>)
      requires |posFENs| >= 1
      requires forall i :: 0 <= i < |negFENs| ==> Loadable(negFENs[i])
      requires forall i :: 0 <= i < |posFENs| ==> Loadable(posFENs[i])
      modifies this
      ensures Valid() && |negativeLines| == |negFENs| && |positiveLines| == |posFENs|
      ensures Mirrors(Loaded(|negFENs|, |posFENs|, sideToMove))
      ensures sideToMove == SideOf(posFENs[0])
      ensures forall j :: 0 <= j < |negFENs| ==>
        |negativeLines[j].boards| == 1 && Loads(negativeLines[j], negativeLines[j].boards[0], negFENs[|negFENs| - 1 - j])
      ensures forall j :: 0 <= j < |posFENs| ==>
        |positiveLines[j].boards| == 1 && Loads(positiveLines[j], positiveLines[j].boards[0], posFENs[j])
    {
      var neg, pos := LoadLines(negFENs, posFENs);
      Install(neg, pos, pos[0].FirstBoard().sideToMove, negFENs, posFENs);
    }

    /** Both loops of `set`: the timelines of the negative and of the positive FENs. */
    static method LoadLines(negFENs: seq<string>, posFENs: seq<string>) returns (neg: seq<Timeline>, pos: seq<Timeline>)
      requires |posFENs| >= 1
      requires forall i :: 0 <= i < |negFENs| ==> Loadable(negFENs[i])
      requires forall i :: 0 <= i < |posFENs| ==> Loadable(posFENs[i])
      ensures |neg| == |negFENs| && |pos| == |posFENs|
      ensures Distinct(neg) && Distinct(pos)
      ensures forall i, j :: 0 <= i < |neg| && 0 <= j < |pos| ==> neg[i] != pos[j]
      ensures |pos[0].boards| == 1 && pos[0].FirstBoard().sideToMove == SideOf(posFENs[0])
      ensures forall j :: 0 <= j < |negFENs| ==>
        |neg[j].boards| == 1 && Loads(neg[j], neg[j].boards[0], negFENs[|negFENs| - 1 - j])
      ensures forall j :: 0 <= j < |posFENs| ==>
        |pos[j].boards| == 1 && Loads(pos[j], pos[j].boards[0], posFENs[j])
    {
      neg := LoadNegatives(negFENs);
      pos := LoadPositives(posFENs);
    }

    /** The fields as `set` leaves them, for the timelines it has built; the timelines themselves are not touched. */
    method Install(neg: seq<Timeline>, pos: seq<Timeline>, side: Color, ghost negFENs: seq<string>, ghost posFENs: seq<string>)
      requires |neg| == |negFENs| && |pos| == |posFENs|
      requires forall j :: 0 <= j < |negFENs| ==>
        |neg[j].boards| == 1 && Loads(neg[j], neg[j].boards[0], negFENs[|negFENs| - 1 - j])
      requires forall j :: 0 <= j < |posFENs| ==>
        |pos[j].boards| == 1 && Loads(pos[j], pos[j].boards[0], posFENs[j])
      modifies this
      ensures negativeLines == neg && positiveLines == pos && sideToMove == side
      ensures activePositiveLines == |pos| - 1 && activeNegativeLines == |neg| && timeOfPresent == 1
      ensures forall j :: 0 <= j < |negFENs| ==>
        |neg[j].boards| == 1 && Loads(neg[j], neg[j].boards[0], negFENs[|negFENs| - 1 - j])
      ensures forall j :: 0 <= j < |posFENs| ==>
        |pos[j].boards| == 1 && Loads(pos[j], pos[j].boards[0], posFENs[j])
    {
      negativeLines, positiveLines, activePositiveLines, activeNegativeLines, timeOfPresent, sideToMove :=
        neg, pos, |pos| - 1, |neg|, 1, side;
    }

    /** The board `new_timeline` branches from: timeline l's board of the ply at `time` with the colour to move. */
    function BranchTarget(l: int, time: int): (b: Board2D)
      requires -|negativeLines| <= l < |positiveLines| && TimelineAt(l).HasBoardOnTurn(time, sideToMove)
      reads this, negativeLines, positiveLines
      ensures b in TimelineAt(l).boards
    {
      TimelineAt(l).BoardOnTurn(time, sideToMove)
    }

    /**
     * `new_timeline`: a copy of the board of timeline `branchLine` at
     * `branchTime`, with the other colour to move, starts a new timeline
     * at `branchTime + sideToMove` on the mover's side; the bookkeeping
     * follows Multiverse.Branch.  The returned board is the one the new
     * timeline holds.  The asserts of the original are the requirement
     * BranchAsserts(s); the colour to move does not change.
     */
    method NewTimeline(branchLine: int, branchTime: int, ghost s: State) returns (newBoard: Board2D)
      requires Valid() && Mirrors(s) && BranchAsserts(s)
      requires -|negativeLines| <= branchLine < |positiveLines|
      requires TimelineAt(branchLine).HasBoardOnTurn(branchTime, sideToMove)
      requires BranchTarget(branchLine, branchTime).Shaped()
      modifies this, negativeLines, positiveLines
      ensures Valid() && Mirrors(Branch(s, branchTime)) && sideToMove == old(sideToMove)
      ensures fresh(newBoard) && fresh(newBoard.board) && fresh(newBoard.pieceCount)
      ensures fresh(newBoard.pieceList) && fresh(newBoard.index)
      ensures newBoard.Shaped() && newBoard.Snapshot() == old(BranchTarget(branchLine, branchTime).Snapshot())
      ensures newBoard.boardWidth == old(BranchTarget(branchLine, branchTime).boardWidth)
      ensures newBoard.sideToMove == OtherColor(old(BranchTarget(branchLine, branchTime).sideToMove))
      ensures old(BranchTarget(branchLine, branchTime).Valid()) ==> newBoard.Valid()
      ensures sideToMove == WHITE ==>
        negativeLines == old(negativeLines) && |positiveLines| == |old(positiveLines)| + 1 &&
        positiveLines[..|old(positiveLines)|] == old(positiveLines)
      ensures sideToMove == BLACK ==>
        positiveLines == old(positiveLines) && |negativeLines| == |old(negativeLines)| + 1 &&
        negativeLines[..|old(negativeLines)|] == old(negativeLines)
      ensures var tl := if sideToMove == WHITE then positiveLines[|positiveLines| - 1] else negativeLines[|negativeLines| - 1];
        fresh(tl) && tl.boards == [newBoard] && tl.startColor == newBoard.sideToMove
      ensures forall t :: t in old(Lines()) ==> t.boards == old(t.boards)
    {
      var target := BranchTarget(branchLine, branchTime);
      newBoard := CopyPassed(target);
      var tl := StartTimeline(branchTime + sideToMove, newBoard);
      AddTimeline(tl, branchTime, s, newBoard);
    }

    /** `new Board2D(target)` followed by `passTurn()`: a copy of target with the other colour to move. */
    static method CopyPassed(target: Board2D) returns (b: Board2D)
      requires target.Shaped()
      ensures fresh(b) && fresh(b.board) && fresh(b.pieceCount) && fresh(b.pieceList) && fresh(b.index)
      ensures b.Shaped() && b.Snapshot() == target.Snapshot() && b.boardWidth == target.boardWidth
      ensures b.sideToMove == OtherColor(target.sideToMove)
      ensures target.Valid() ==> b.Valid()
    {
      b := new Board2D.Copy(target);
      b.PassTurn();
      if target.Valid() {
        b.CopyValid(target);
      }
    }

    /** A new timeline of `set` or `new_timeline`: it starts at `start`, with b's colour to move, and holds b. */
    static method StartTimeline(start: int, b: Board2D) returns (tl: Timeline)
      ensures fresh(tl) && tl.startTime == start && tl.startColor == b.sideToMove
      ensures !tl.active && tl.boards == [b]
    {
      tl := new Timeline(start, b.sideToMove);
      tl.AppendBoard(b);
    }

    /**
     * The bookkeeping of `new_timeline` for its new timeline tl, on the side
     * of the colour to move; the board keep, the copy tl starts with, is
     * left alone.
     */
    method AddTimeline(tl: Timeline, branchTime: int, ghost s: State, ghost keep: Board2D)
      requires Valid() && Mirrors(s) && BranchAsserts(s)
      requires tl !in negativeLines && tl !in positiveLines
      requires tl.startTime == NewStart(s, branchTime) && !tl.active
      modifies this, negativeLines, positiveLines, tl
      ensures Valid() && Mirrors(Branch(s, branchTime)) && sideToMove == old(sideToMove)
      ensures sideToMove == WHITE ==> negativeLines == old(negativeLines) && positiveLines == old(positiveLines) + [tl]
      ensures sideToMove == BLACK ==> positiveLines == old(positiveLines) && negativeLines == old(negativeLines) + [tl]
      ensures tl.boards == old(tl.boards)
      ensures forall t :: t in old(Lines()) ==> t.boards == old(t.boards)
      ensures unchanged(keep, keep.board, keep.pieceCount, keep.pieceList, keep.index)
    {
      if sideToMove == WHITE {
        BranchWhite(tl, branchTime, s, keep);
      } else {
        BranchBlack(tl, branchTime, s, keep);
      }
    }

    /**
     * White's half of `new_timeline`, once the new timeline tl exists: tl
     * is activated when white has no more lines than black, together with
     * black's first inactive line when black is two or more ahead; then tl
     * is added after the positive lines.
     */
    method BranchWhite(tl: Timeline, branchTime: int, ghost s: State, ghost keep: Board2D)
      requires Valid() && Mirrors(s) && sideToMove == WHITE && BranchAsserts(s)
      requires tl !in negativeLines && tl !in positiveLines
      requires tl.startTime == NewStart(s, branchTime) && !tl.active
      modifies this, negativeLines, tl
      ensures Valid() && Mirrors(Branch(s, branchTime))
      ensures negativeLines == old(negativeLines) && positiveLines == old(positiveLines) + [tl]
      ensures sideToMove == old(sideToMove) && tl.boards == old(tl.boards)
      ensures forall t :: t in old(Lines()) ==> t.boards == old(t.boards)
      ensures unchanged(keep, keep.board, keep.pieceCount, keep.pieceList, keep.index)
    {
      var posCnt, negCnt := PositiveTimelineCount(), NegativeTimelineCount();
      if posCnt == negCnt || posCnt == negCnt - 1 {
        tl.Activate();
        activePositiveLines := activePositiveLines + 1;
        timeOfPresent := Min(timeOfPresent, tl.startTime);
      } else if posCnt < negCnt - 1 {
        tl.Activate();
        activePositiveLines := activePositiveLines + 1;
        negativeLines[posCnt + 1].Activate();
        activeNegativeLines := activeNegativeLines + 1;
        timeOfPresent := Min(timeOfPresent, Min(tl.startTime, negativeLines[posCnt + 1].startTime));
      }
      DistinctAppend(positiveLines, tl);
      positiveLines := positiveLines + [tl];
    }

    /**
     * Black's half of `new_timeline`: tl is activated when black has no
     * more lines than white, together with white's first inactive line
     * when white is two or more ahead, which, as written, is not counted in
     * activePositiveLines; then tl is added after the negative lines.
     */
    method BranchBlack(tl: Timeline, branchTime: int, ghost s: State, ghost keep: Board2D)
      requires Valid() && Mirrors(s) && sideToMove == BLACK && BranchAsserts(s)
      requires tl !in negativeLines && tl !in positiveLines
      requires tl.startTime == NewStart(s, branchTime) && !tl.active
      modifies this, positiveLines, tl
      ensures Valid() && Mirrors(Branch(s, branchTime))
      ensures positiveLines == old(positiveLines) && negativeLines == old(negativeLines) + [tl]
      ensures sideToMove == old(sideToMove) && tl.boards == old(tl.boards)
      ensures forall t :: t in old(Lines()) ==> t.boards == old(t.boards)
      ensures unchanged(keep, keep.board, keep.pieceCount, keep.pieceList, keep.index)
    {
      var posCnt, negCnt := PositiveTimelineCount(), NegativeTimelineCount();
      if negCnt == posCnt || negCnt == posCnt - 1 {
        tl.Activate();
        activeNegativeLines := activeNegativeLines + 1;
        timeOfPresent := Min(timeOfPresent, tl.startTime);
      } else if negCnt < posCnt - 1 {
        tl.Activate();
        activeNegativeLines := activeNegativeLines + 1;
        positiveLines[negCnt + 2].Activate();
        timeOfPresent := Min(timeOfPresent, Min(tl.startTime, positiveLines[negCnt + 2].startTime));
      }
      DistinctAppend(negativeLines, tl);
      negativeLines := negativeLines + [tl];
    }

    /** The first loop of `set`: the negative FENs from the last to the first, each in a new timeline. */
    static method LoadNegatives(fens: seq<string>) returns (lines: seq<Timeline>)
      requires forall i :: 0 <= i < |fens| ==> Loadable(fens[i])
      ensures |lines| == |fens|
      ensures forall j :: 0 <= j < |lines| ==> fresh(lines[j])
      ensures Distinct(lines)
      ensures forall j :: 0 <= j < |lines| ==>
        |lines[j].boards| == 1 && Loads(lines[j], lines[j].boards[0], fens[|fens| - 1 - j])
    {
      lines := [];
      var i := |fens| - 1;
      while i >= 0
        invariant -1 <= i < |fens| && |lines| == |fens| - 1 - i
        invariant forall j :: 0 <= j < |lines| ==> fresh(lines[j])
        invariant Distinct(lines)
        invariant forall j :: 0 <= j < |lines| ==>
          |lines[j].boards| == 1 && Loads(lines[j], lines[j].boards[0], fens[|fens| - 1 - j])
      {
        var tl := LoadTimeline(fens[i]);
        lines := lines + [tl];
        i := i - 1;
      }
    }

    /** The second loop of `set`: the positive FENs in order, each in a new timeline. */
    static method LoadPositives(fens: seq<string>) returns (lines: seq<Timeline>)
      requires forall i :: 0 <= i < |fens| ==> Loadable(fens[i])
      ensures |lines| == |fens|
      ensures forall j :: 0 <= j < |lines| ==> fresh(lines[j])
      ensures Distinct(lines)
      ensures forall j :: 0 <= j < |lines| ==>
        |lines[j].boards| == 1 && Loads(lines[j], lines[j].boards[0], fens[j])
    {
      lines := [];
      var k := 0;
      while k < |fens|
        invariant 0 <= k <= |fens| && |lines| == k
        invariant forall j :: 0 <= j < |lines| ==> fresh(lines[j])
        invariant Distinct(lines)
        invariant forall j :: 0 <= j < |lines| ==>
          |lines[j].boards| == 1 && Loads(lines[j], lines[j].boards[0], fens[j])
      {
        var tl := LoadTimeline(fens[k]);
        lines := lines + [tl];
        k := k + 1;
      }
    }

    /** One timeline of `set`: a new board set from the FEN, in a new active timeline starting at time 1. */
    static method LoadTimeline(fen: string) returns (tl: Timeline)
      requires Loadable(fen)
      ensures fresh(tl) && |tl.boards| == 1 && fresh(tl.boards[0])
      ensures fresh(tl.boards[0].board) && fresh(tl.boards[0].pieceCount)
      ensures fresh(tl.boards[0].pieceList) && fresh(tl.boards[0].index)
      ensures Loads(tl, tl.boards[0], fen)
    {
      var board := LoadBoard(fen);
      tl := StartTimeline(1, board);
      tl.Activate();
    }

    /** `new Board2D()` followed by `set(fen)`. */
    static method LoadBoard(fen: string) returns (board: Board2D)
      requires Loadable(fen)
      ensures fresh(board) && fresh(board.board) && fresh(board.pieceCount) && fresh(board.pieceList) && fresh(board.index)
      ensures board.Valid() && Decode(fen) == Contents(board)
    {
      board := new Board2D();
      board.Set(fen);
    }
  }
}
