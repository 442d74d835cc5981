/**
 * `Timeline` (src/position.h, src/position.cpp): the boards of one timeline
 * of the multiverse, one per ply from the ply it starts at.  A ply is a
 * time and the colour to move; board i of a timeline is the board of the
 * i-th ply from its start, white's ply of a time coming before black's.
 */
module Timelines {
  import opened Types
  import opened Board

  class Timeline {
    const startTime: int
    const startColor: Color
    var active: bool
    /** The boards, shared with whoever appended them (the original's shared pointers). */
    var boards: seq<Board2D>

    /** A new timeline starts inactive and holds no board yet. */
    constructor(startTime: int, startColor: Color)
      ensures this.startTime == startTime && this.startColor == startColor
      ensures !active && boards == []
    {
      this.startTime := startTime;
      this.startColor := startColor;
      active := false;
      boards := [];
    }

    /** `activate`: the timeline becomes active; its boards stay. */
    method Activate()
      modifies this
      ensures active && boards == old(boards)
    {
      active := true;
    }

    /**
     * `plyToBoardIdx`: the index of the board of a ply, counting plies from
     * the start.  It is negative exactly for the plies before the start.
     */
    function PlyToBoardIdx(time: int, c: Color): (idx: int)
      ensures idx < 0 <==> time < startTime || (time == startTime && c < startColor)
    {
      2 * (time - startTime) + (c - startColor)
    }

    /** The time of the i-th ply from the start. */
    function PlyTime(i: nat): int {
      startTime + (startColor + i) / 2
    }

    /** The colour to move at the i-th ply from the start. */
    function PlyColor(i: nat): Color {
      (startColor + i) % 2
    }

    /** Counting plies from the start and `PlyToBoardIdx` are inverse to each other. */
    lemma PlyRoundTrip(i: nat, time: int, c: Color)
      ensures PlyToBoardIdx(PlyTime(i), PlyColor(i)) == i
      ensures PlyToBoardIdx(time, c) >= 0 ==>
        PlyTime(PlyToBoardIdx(time, c)) == time && PlyColor(PlyToBoardIdx(time, c)) == c
    {
    }

    /** Consecutive plies have consecutive boards: white's ply, then black's, then white's of the next time. */
    lemma PlyOrder(time: int)
      ensures PlyToBoardIdx(time, BLACK) == PlyToBoardIdx(time, WHITE) + 1
      ensures PlyToBoardIdx(time + 1, WHITE) == PlyToBoardIdx(time, BLACK) + 1
    {
    }

    /**
     * `has_board_on_turn` as the original writes it: true when the board
     * index is negative, that is, exactly for the plies before the start.
     */
    predicate HasBoardOnTurnAsWritten(time: int, c: Color): (r: bool)
      ensures r <==> time < startTime || (time == startTime && c < startColor)
    {
      PlyToBoardIdx(time, c) < 0
    }

    /** Whether the timeline holds a board for the ply: one of its boards is the board of that ply. */
    predicate HasBoardOnTurn(time: int, c: Color): (r: bool)
      reads this
      ensures r <==> exists i :: 0 <= i < |boards| && PlyTime(i) == time && PlyColor(i) == c
    {
      var idx := PlyToBoardIdx(time, c);
      if 0 <= idx < |boards| then
        PlyRoundTrip(idx, time, c);
        true
      else
        assert forall i :: 0 <= i < |boards| ==> PlyToBoardIdx(PlyTime(i), PlyColor(i)) == i by {
          forall i | 0 <= i < |boards| {
            PlyRoundTrip(i, time, c);
          }
        }
        false
    }

    /**
     * The as-written test is inverted: it holds only for plies with no
     * board, and fails for the ply every non-empty timeline starts with.
     */
    lemma HasBoardOnTurnInverted(time: int, c: Color)
      ensures HasBoardOnTurnAsWritten(time, c) ==> !HasBoardOnTurn(time, c)
      ensures |boards| > 0 ==>
        !HasBoardOnTurnAsWritten(startTime, startColor) && HasBoardOnTurn(startTime, startColor)
    {
      if |boards| > 0 {
        PlyRoundTrip(0, startTime, startColor);
      }
    }

    /** `board_on_turn`: the board of the ply, which the timeline must hold. */
    function BoardOnTurn(time: int, c: Color): (b: Board2D)
      requires HasBoardOnTurn(time, c)
      reads this
      ensures b in boards
      ensures forall i :: 0 <= i < |boards| && PlyTime(i) == time && PlyColor(i) == c ==> b == boards[i]
    {
      var idx := PlyToBoardIdx(time, c);
      assert forall i :: 0 <= i < |boards| && PlyTime(i) == time && PlyColor(i) == c ==> i == idx by {
        forall i | 0 <= i < |boards| && PlyTime(i) == time && PlyColor(i) == c {
          PlyRoundTrip(i, time, c);
        }
      }
      boards[idx]
    }

    /** `first_board`: the board of the ply the timeline starts at. */
    function FirstBoard(): (b: Board2D)
      requires |boards| > 0
      reads this
      ensures HasBoardOnTurn(startTime, startColor) && b == BoardOnTurn(startTime, startColor)
    {
      PlyRoundTrip(0, startTime, startColor);
      boards[0]
    }

    /** `last_board`: the board of the latest ply the timeline holds. */
    function LastBoard(): (b: Board2D)
      requires |boards| > 0
      reads this
      ensures HasBoardOnTurn(PlyTime(|boards| - 1), PlyColor(|boards| - 1))
      ensures b == BoardOnTurn(PlyTime(|boards| - 1), PlyColor(|boards| - 1))
    {
      PlyRoundTrip(|boards| - 1, startTime, startColor);
      boards[|boards| - 1]
    }

    /**
     * `append_board`: the board becomes the board of the next ply; the
     * boards of earlier plies, the first board among them, stay.
     */
    method AppendBoard(b: Board2D)
      modifies this
      ensures boards == old(boards) + [b] && active == old(active)
      ensures LastBoard() == b
      ensures old(|boards|) > 0 ==> FirstBoard() == old(FirstBoard())
    {
      boards := boards + [b];
    }
  }
}
