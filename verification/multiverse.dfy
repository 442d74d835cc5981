/**
 * The bookkeeping of a `Position` (src/position.h, src/position.cpp) as a
 * value: the timelines below and above the central one, how many of them
 * are active on each side, the time of the present and the colour to move.
 * A timeline is reduced to its start time and whether it is active, which
 * is all `new_timeline` looks at.  Class `Positions.Position` is proved to
 * follow these functions.
 *
 * Timeline numbers: line l >= 0 is `pos[l]` (`pos[0]` is the central
 * line), line l < 0 is `neg[-l - 1]`.  White creates positive lines and
 * black negative ones.
 */
module Multiverse {
  import opened Types

  datatype Line = Line(start: int, active: bool)

  /**
   * `neg` and `pos` are `negativeLines` and `positiveLines`; `activeNeg`
   * and `activePos` the two counters (the central line is not counted).
   */
  datatype State = State(neg: seq<Line>, pos: seq<Line>, activeNeg: int, activePos: int, present: int, side: Color)

  function Min(a: int, b: int): (m: int)
    ensures m <= a && m <= b && (m == a || m == b)
  {
    if a <= b then a else b
  }

  /** `positive_timeline_count`: the lines above the central one. */
  function PositiveCount(s: State): int {
    |s.pos| - 1
  }

  /** `negative_timeline_count`. */
  function NegativeCount(s: State): int {
    |s.neg|
  }

  /** The number of active lines in a sequence of lines. */
  function ActiveCount(ls: seq<Line>): (n: nat)
    ensures n <= |ls|
  {
    if |ls| == 0 then 0 else (if ls[0].active then 1 else 0) + ActiveCount(ls[1..])
  }

  /** n lines as `set` creates them: each starts at time 1 and is active. */
  function Started(n: nat): (ls: seq<Line>)
    ensures |ls| == n && forall i :: 0 <= i < n ==> ls[i] == Line(1, true)
  {
    seq(n, _ => Line(1, true))
  }

  /**
   * `Position::set` with `negCount` negative and `posCount` positive FENs:
   * every line starts at time 1 and is active, the counters count all
   * non-central lines, the present is 1 and the colour to move is the
   * central board's.
   */
  function Loaded(negCount: nat, posCount: nat, side: Color): (s: State)
    requires posCount >= 1
    ensures NegativeCount(s) == negCount && PositiveCount(s) == posCount - 1 && s.side == side
    ensures forall i :: 0 <= i < |s.neg| ==> s.neg[i] == Line(1, true)
    ensures forall i :: 0 <= i < |s.pos| ==> s.pos[i] == Line(1, true)
  {
    State(Started(negCount), Started(posCount), negCount, posCount - 1, 1, side)
  }

  /** The line a branch creates starts at `branchTime + sideToMove`. */
  function NewStart(s: State, branchTime: int): int {
    branchTime + s.side
  }

  /** White's first branch case: the counts are equal or black has one more line. */
  predicate WhiteCatchesUp(s: State) {
    PositiveCount(s) == NegativeCount(s) || PositiveCount(s) == NegativeCount(s) - 1
  }

  /** Black's first branch case: the counts are equal or white has one more line. */
  predicate BlackCatchesUp(s: State) {
    NegativeCount(s) == PositiveCount(s) || NegativeCount(s) == PositiveCount(s) - 1
  }

  /** White's second case: black is at least two lines ahead, so a black line is reactivated too. */
  predicate WhiteReactivates(s: State) {
    s.side == WHITE && PositiveCount(s) < NegativeCount(s) - 1
  }

  /** Black's second case: white is at least two lines ahead. */
  predicate BlackReactivates(s: State) {
    s.side == BLACK && NegativeCount(s) < PositiveCount(s) - 1
  }

  /** Line number l of the multiverse: `pos[l]` for l >= 0, `neg[-l - 1]` below. */
  function LineOf(s: State, l: int): Line
    requires -|s.neg| <= l < |s.pos|
  {
    if l >= 0 then s.pos[l] else s.neg[-l - 1]
  }

  /**
   * The asserts of `new_timeline`: the line it reactivates on the other
   * side is inactive.  That line is number -(p + 2) when white moves and
   * n + 2 (a white line) when black moves, for p positive and n negative
   * lines.
   */
  predicate BranchAsserts(s: State): (r: bool)
    requires |s.pos| >= 1
    ensures r <==>
      (WhiteReactivates(s) ==> !LineOf(s, -(PositiveCount(s) + 2)).active) &&
      (BlackReactivates(s) ==> !LineOf(s, NegativeCount(s) + 2).active)
  {
    (WhiteReactivates(s) ==> !s.neg[PositiveCount(s) + 1].active) &&
    (BlackReactivates(s) ==> !s.pos[NegativeCount(s) + 2].active)
  }

  /**
   * `new_timeline`'s bookkeeping, as the original writes it.  The mover's
   * side gains a line starting at `branchTime + sideToMove`; it is active
   * when the mover has no more lines than the opponent, and when the
   * opponent is two or more lines ahead, the opponent's first inactive
   * line is activated as well; the present moves back to the earliest
   * start of a line activated.  On black's second path the white line
   * activated is not counted in `activePos`.
   */
  function Branch(s: State, branchTime: int): (r: State)
    requires |s.pos| >= 1 && BranchAsserts(s)
    ensures r.side == s.side && r.present <= s.present
    ensures s.side == WHITE ==>
      |r.neg| == |s.neg| && r.pos == s.pos + [Line(NewStart(s, branchTime), PositiveCount(s) <= NegativeCount(s))]
    ensures s.side == BLACK ==>
      |r.pos| == |s.pos| && r.neg == s.neg + [Line(NewStart(s, branchTime), NegativeCount(s) <= PositiveCount(s))]
  {
    var p, n, start := PositiveCount(s), NegativeCount(s), NewStart(s, branchTime);
    if s.side == WHITE then
      if WhiteCatchesUp(s) then
        s.(pos := s.pos + [Line(start, true)], activePos := s.activePos + 1, present := Min(s.present, start))
      else if p < n - 1 then
        s.(pos := s.pos + [Line(start, true)], activePos := s.activePos + 1,
           neg := s.neg[p + 1 := s.neg[p + 1].(active := true)], activeNeg := s.activeNeg + 1,
           present := Min(s.present, Min(start, s.neg[p + 1].start)))
      else
        s.(pos := s.pos + [Line(start, false)])
    else
      if BlackCatchesUp(s) then
        s.(neg := s.neg + [Line(start, true)], activeNeg := s.activeNeg + 1, present := Min(s.present, start))
      else if n < p - 1 then
        s.(neg := s.neg + [Line(start, true)], activeNeg := s.activeNeg + 1,
           pos := s.pos[n + 2 := s.pos[n + 2].(active := true)],
           present := Min(s.present, Min(start, s.pos[n + 2].start)))
      else
        s.(neg := s.neg + [Line(start, false)])
  }

  /**
   * `new_timeline`'s bookkeeping with the missing count: black's second
   * path also counts the white line it activates.  It differs from Branch
   * in that one counter only.
   */
  function BranchFixed(s: State, branchTime: int): (r: State)
    requires |s.pos| >= 1 && BranchAsserts(s)
    ensures r.neg == Branch(s, branchTime).neg && r.pos == Branch(s, branchTime).pos
    ensures r.activeNeg == Branch(s, branchTime).activeNeg
    ensures r.present == Branch(s, branchTime).present && r.side == s.side
    ensures r.activePos == Branch(s, branchTime).activePos + (if BlackReactivates(s) then 1 else 0)
  {
    var r := Branch(s, branchTime);
    if BlackReactivates(s) then r.(activePos := s.activePos + 1) else r
  }

  // ---------------------------------------------------------------------
  // The counters
  // ---------------------------------------------------------------------

  /** The counters hold the number of active lines on each side (the central line is not counted). */
  predicate CountersAccurate(s: State) {
    |s.pos| >= 1 && s.activeNeg == ActiveCount(s.neg) && s.activePos == ActiveCount(s.pos[1..])
  }

  lemma {:induction false} ActiveCountAppend(ls: seq<Line>, l: Line)
    ensures ActiveCount(ls + [l]) == ActiveCount(ls) + (if l.active then 1 else 0)
  {
    if |ls| > 0 {
      assert (ls + [l])[1..] == ls[1..] + [l];
      ActiveCountAppend(ls[1..], l);
    }
  }

  lemma {:induction false} ActiveCountActivate(ls: seq<Line>, k: int)
    requires 0 <= k < |ls| && !ls[k].active
    ensures ActiveCount(ls[k := ls[k].(active := true)]) == ActiveCount(ls) + 1
  {
    if k > 0 {
      assert ls[k := ls[k].(active := true)][1..] == ls[1..][k - 1 := ls[k].(active := true)];
      ActiveCountActivate(ls[1..], k - 1);
    }
  }

  lemma {:induction false} AllActiveCount(ls: seq<Line>)
    requires forall i :: 0 <= i < |ls| ==> ls[i].active
    ensures ActiveCount(ls) == |ls|
  {
    if |ls| > 0 {
      AllActiveCount(ls[1..]);
    }
  }

  /** `Position::set` leaves the counters accurate. */
  lemma LoadedCounters(negCount: nat, posCount: nat, side: Color)
    requires posCount >= 1
    ensures CountersAccurate(Loaded(negCount, posCount, side))
  {
    var s := Loaded(negCount, posCount, side);
    AllActiveCount(s.neg);
    AllActiveCount(s.pos[1..]);
  }

  /** With the missing count added, a branch keeps the counters accurate. */
  lemma BranchFixedCounters(s: State, branchTime: int)
    requires CountersAccurate(s) && BranchAsserts(s)
    ensures CountersAccurate(BranchFixed(s, branchTime))
  {
    var r := BranchFixed(s, branchTime);
    var p, n, start := PositiveCount(s), NegativeCount(s), NewStart(s, branchTime);
    if s.side == WHITE {
      assert r.pos[1..] == s.pos[1..] + [r.pos[|s.pos|]];
      ActiveCountAppend(s.pos[1..], r.pos[|s.pos|]);
      if !WhiteCatchesUp(s) && p < n - 1 {
        ActiveCountActivate(s.neg, p + 1);
      }
    } else {
      ActiveCountAppend(s.neg, r.neg[|s.neg|]);
      if !BlackCatchesUp(s) && n < p - 1 {
        assert r.pos[1..] == s.pos[1..][n + 1 := s.pos[n + 2].(active := true)];
        ActiveCountActivate(s.pos[1..], n + 1);
      }
    }
  }

  /**
   * As written, black's second path breaks the counters: in a balanced
   * position where white has three lines and black none, the white line
   * it activates is not counted.
   */
  lemma BranchMissesCount()
    ensures var s := State([], [Line(1, true), Line(1, true), Line(1, false), Line(1, false)], 0, 1, 1, BLACK);
      ActiveShape(s) && CountersAccurate(s) && BranchAsserts(s) && BlackReactivates(s) &&
      !CountersAccurate(Branch(s, 1)) && !ActiveShape(Branch(s, 1)) &&
      CountersAccurate(BranchFixed(s, 1)) && ActiveShape(BranchFixed(s, 1))
  {
    var s := State([], [Line(1, true), Line(1, true), Line(1, false), Line(1, false)], 0, 1, 1, BLACK);
    assert s.pos[1..] == [Line(1, true), Line(1, false), Line(1, false)];
    assert ActiveShape(s);
    ShapeCounters(s);
    var r := Branch(s, 1);
    assert r.pos[1..] == [Line(1, true), Line(1, true), Line(1, false)];
    BranchFixedCounters(s, 1);
    BranchFixedShape(s, 1);
  }

  // ---------------------------------------------------------------------
  // Balance
  // ---------------------------------------------------------------------

  /** The first m lines are active and the rest are not. */
  predicate ActivePrefix(ls: seq<Line>, m: int) {
    forall i :: 0 <= i < |ls| ==> (ls[i].active <==> i < m)
  }

  /**
   * A balanced position: a side has at most one active line more than the
   * other, every line of the side with fewer lines is active, and the
   * other side's active lines are its first ones; the counters say so.
   */
  predicate ActiveShape(s: State) {
    var p, n := PositiveCount(s), NegativeCount(s);
    |s.pos| >= 1 && s.pos[0].active &&
    s.activePos == Min(p, n + 1) && s.activeNeg == Min(n, p + 1) &&
    ActivePrefix(s.pos[1..], s.activePos) && ActivePrefix(s.neg, s.activeNeg)
  }

  lemma {:induction false} ActivePrefixCount(ls: seq<Line>, m: int)
    requires 0 <= m <= |ls| && ActivePrefix(ls, m)
    ensures ActiveCount(ls) == m
  {
    if |ls| > 0 {
      if m > 0 {
        ActivePrefixCount(ls[1..], m - 1);
      } else {
        ActivePrefixCount(ls[1..], 0);
      }
    }
  }

  /** In a balanced position the counters are accurate. */
  lemma ShapeCounters(s: State)
    requires ActiveShape(s)
    ensures CountersAccurate(s)
  {
    ActivePrefixCount(s.pos[1..], s.activePos);
    ActivePrefixCount(s.neg, s.activeNeg);
  }

  /** In a balanced position the two sides' active counts differ by at most one. */
  lemma ShapeBalanced(s: State)
    requires ActiveShape(s)
    ensures -1 <= s.activePos - s.activeNeg <= 1
  {
  }

  /** `Position::set` gives a balanced position exactly when the two sides' line counts differ by at most one. */
  lemma LoadedShape(negCount: nat, posCount: nat, side: Color)
    requires posCount >= 1
    ensures ActiveShape(Loaded(negCount, posCount, side)) <==> -1 <= posCount - 1 - negCount <= 1
  {
    var s := Loaded(negCount, posCount, side);
    if -1 <= posCount - 1 - negCount <= 1 {
      assert ActivePrefix(s.pos[1..], s.activePos);
    } else if posCount - 1 > negCount + 1 {
      assert s.pos[1..][negCount + 1].active;
    } else {
      assert s.neg[posCount].active;
    }
  }

  /** In a balanced position the asserts of `new_timeline` hold. */
  lemma ShapeAsserts(s: State)
    requires ActiveShape(s)
    ensures BranchAsserts(s)
  {
    var p, n := PositiveCount(s), NegativeCount(s);
    if WhiteReactivates(s) {
      assert !s.neg[p + 1].active;
    }
    if BlackReactivates(s) {
      assert !s.pos[1..][n + 1].active;
    }
  }

  /** With the missing count added, a branch keeps a position balanced. */
  lemma BranchFixedShape(s: State, branchTime: int)
    requires ActiveShape(s)
    ensures BranchAsserts(s) && ActiveShape(BranchFixed(s, branchTime))
  {
    ShapeAsserts(s);
    var r := BranchFixed(s, branchTime);
    if s.side == WHITE {
      assert r.pos[1..] == s.pos[1..] + [r.pos[|s.pos|]];
    } else {
      if BlackReactivates(s) {
        assert r.pos[1..] == s.pos[1..][NegativeCount(s) + 1 := s.pos[NegativeCount(s) + 2].(active := true)];
      }
    }
  }

  // ---------------------------------------------------------------------
  // Which branches happen
  // ---------------------------------------------------------------------

  /** Every line of the side not to move is active. */
  predicate OpponentAllActive(s: State) {
    (s.side == WHITE ==> forall i :: 0 <= i < |s.neg| ==> s.neg[i].active) &&
    (s.side == BLACK ==> forall i :: 0 <= i < |s.pos| ==> s.pos[i].active)
  }

  /** After `Position::set` every line is active. */
  lemma LoadedOpponent(negCount: nat, posCount: nat, side: Color)
    requires posCount >= 1
    ensures OpponentAllActive(Loaded(negCount, posCount, side))
  {
  }

  /**
   * `new_timeline` never changes the colour to move and only ever adds
   * or activates lines, so the opponent's lines stay all active.
   */
  lemma BranchOpponent(s: State, branchTime: int)
    requires |s.pos| >= 1 && BranchAsserts(s) && OpponentAllActive(s)
    ensures Branch(s, branchTime).side == s.side && OpponentAllActive(Branch(s, branchTime))
  {
  }

  /**
   * Hence, from a position `set` has loaded, the second path of either
   * colour can never pass its assert: the line it would reactivate is
   * already active.
   */
  lemma ReactivationBlocked(s: State)
    requires |s.pos| >= 1 && OpponentAllActive(s)
    ensures WhiteReactivates(s) || BlackReactivates(s) ==> !BranchAsserts(s)
  {
  }
}
