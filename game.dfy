/** The `Game` object: the board `_moves`, written in place, the step
    counter `_step`, and a record of the calls it makes to `_endGame`, whose
    only effects are on the page. */
module TicTacToe {
  import opened Board
  import opened ClassName
  import opened Strategy

  /** A call of `_endGame`: with a player and a line it holds completely,
      from `_isPlayerWon`, or with no arguments, from `playerMove` when the
      step counter stands at NUMBER_OF_STEPS. */
  datatype EndCall = EndWin(player: Mark, line: Line) | EndAtStepLimit

  /** The `_endGame` calls that `_isPlayerWon(p)` makes on board b once it
      has scanned the first n lines, in order. */
  function WinCalls(b: seq<Mark>, p: Mark, n: nat): seq<EndCall>
    requires |b| == Cells && n <= 8
  {
    var lines := WonLines(b, p, WinVariants, n);
    seq(|lines|, i requires 0 <= i < |lines| => EndWin(p, lines[i]))
  }

  /** Scanning one more line adds the call for that line when p holds it. */
  lemma WinCallsStep(b: seq<Mark>, p: Mark, k: nat)
    requires |b| == Cells && k < 8
    ensures WinCalls(b, p, k + 1) == WinCalls(b, p, k) +
      (if Full(b, p, WinVariants[k]) then [EndWin(p, WinVariants[k])] else [])
  {
    var won := Full(b, p, WinVariants[k]);
    var lines := WonLines(b, p, WinVariants, k);
    var lines' := WonLines(b, p, WinVariants, k + 1);
    assert lines' == lines + (if won then [WinVariants[k]] else []);
    var calls := WinCalls(b, p, k);
    var calls' := WinCalls(b, p, k + 1);
    var extra := if won then [EndWin(p, WinVariants[k])] else [];
    assert |calls'| == |calls + extra|;
    forall i | 0 <= i < |calls'| ensures calls'[i] == (calls + extra)[i] {
      if i < |lines| {
        assert lines'[i] == lines[i];
      }
    }
  }

  /** `_isPlayerWon(p)` calls `_endGame(p, line)` once for every line whose
      three cells hold p, and for no other line. */
  lemma WinCallsSpec(b: seq<Mark>, p: Mark)
    requires |b| == Cells
    ensures forall e :: e in WinCalls(b, p, 8) <==>
      exists k :: 0 <= k < 8 && e == EndWin(p, WinVariants[k]) && Full(b, p, WinVariants[k])
    ensures forall i, j :: 0 <= i < j < |WinCalls(b, p, 8)| ==> WinCalls(b, p, 8)[i] != WinCalls(b, p, 8)[j]
  {
    VariantsDistinct();
    WonLinesSound(b, p, WinVariants, 8);
    WonLinesComplete(b, p, WinVariants, 8);
    WonLinesDistinct(b, p, WinVariants, 8);
    var lines := WonLines(b, p, WinVariants, 8);
    var calls := WinCalls(b, p, 8);
    forall e | e in calls
      ensures exists k :: 0 <= k < 8 && e == EndWin(p, WinVariants[k]) && Full(b, p, WinVariants[k])
    {
      var i :| 0 <= i < |calls| && calls[i] == e;
      assert lines[i] in lines;
      var k :| 0 <= k < 8 && WinVariants[k] == lines[i];
    }
    forall k | 0 <= k < 8 && Full(b, p, WinVariants[k]) ensures EndWin(p, WinVariants[k]) in calls {
      assert WinVariants[k] in lines;
      var i :| 0 <= i < |lines| && lines[i] == WinVariants[k];
      assert calls[i] == EndWin(p, WinVariants[k]);
    }
  }

  class Game {
    /** `_moves`: the nine cells, row by row. */
    var moves: array<Mark>
    /** `_step`: one more than the number of moves made. */
    var step: int
    /** The calls made to `_endGame`, oldest first. */
    ghost var endCalls: seq<EndCall>

    /** Nine cells, and no more cells taken than moves made. */
    ghost predicate Valid()
      reads this, moves
    {
      moves.Length == Cells && Taken(moves[..]) < step
    }

    /** `new Game()`: step 1 and nine empty cells. */
    constructor ()
      ensures Valid() && fresh(moves)
      ensures step == 1 && endCalls == []
      ensures forall i :: 0 <= i < Cells ==> moves[i] == Empty
    {
      step := 1;
      moves := new Mark[Cells](_ => Empty);
      endCalls := [];
      new;
      TakenAllEmpty(moves[..]);
    }

    /** `_randomFromArray(items)`: some member of items, or `undefined` when
      items is empty. Which member is left open. */
    method RandomFromArray(items: seq<nat>) returns (r: Option<nat>)
      ensures r.None? <==> items == []
      ensures r.Some? ==> r.value in items
    {
      if items == [] {
        r := None;
      } else {
        var i :| 0 <= i < |items|;
        r := Some(items[i]);
      }
    }

    /** The `forEach`/`push` loop that lists the cells holding m, in order. */
    method IndexesOf(m: Mark) returns (r: seq<nat>)
      requires moves.Length == Cells
      ensures r == Owned(moves[..], m, Cells)
    {
      r := [];
      var i := 0;
      while i < Cells
        invariant 0 <= i <= Cells
        invariant r == Owned(moves[..], m, i)
      {
        if moves[i] == m {
          r := r + [i];
        }
        i := i + 1;
      }
    }

    /** `_canWinIndex(p)`: the empty cell of the last line in which p holds
      the two other cells, or null. */
    method CanWinIndex(p: Mark) returns (r: Option<nat>)
      requires moves.Length == Cells
      ensures r == LastCompletion(moves[..], p, WinVariants, 8)
    {
      var filled := IndexesOf(p);
      r := ScanForCompletion(p, filled, WinVariants);
    }

    /** The `WIN_VARIANTS.forEach` of `_canWinIndex`, given the cells p holds. */
    method ScanForCompletion(p: Mark, filled: seq<nat>, lines: seq<Line>) returns (r: Option<nat>)
      requires moves.Length == Cells && filled == Owned(moves[..], p, Cells)
      ensures r == LastCompletion(moves[..], p, lines, |lines|)
    {
      r := None;
      var k := 0;
      while k < |lines|
        invariant 0 <= k <= |lines|
        invariant r == LastCompletion(moves[..], p, lines, k)
      {
        r := ScanLine(p, filled, lines, k, r);
        k := k + 1;
      }
    }

    /** The arrow function the `forEach` of `_canWinIndex` runs on line k: the
      line's one cell p does not hold, when it is empty, replaces the result. */
    method ScanLine(p: Mark, filled: seq<nat>, lines: seq<Line>, k: nat, r: Option<nat>)
      returns (r': Option<nat>)
      requires moves.Length == Cells && filled == Owned(moves[..], p, Cells) && k < |lines|
      requires r == LastCompletion(moves[..], p, lines, k)
      ensures r' == LastCompletion(moves[..], p, lines, k + 1)
    {
      var result := Unowned(lines[k], filled);
      LastCompletionScan(moves[..], p, lines, k, filled);
      r' := r;
      if |result| == 1 && moves[result[0]] == Empty {
        r' := Some(result[0]);
      }
    }

    /** `_isPlayerWon(p)`: `_endGame(p, line)` for each line p holds. Its
      result, always null, is ignored by its one caller and left out. */
    method IsPlayerWon(p: Mark)
      requires moves.Length == Cells
      modifies this`endCalls
      ensures endCalls == old(endCalls) + WinCalls(moves[..], p, 8)
    {
      var filled := IndexesOf(p);
      ghost var calls := [];
      var k := 0;
      while k < |WinVariants|
        invariant 0 <= k <= 8
        invariant calls == WinCalls(moves[..], p, k)
        invariant endCalls == old(endCalls)
      {
        var variant := WinVariants[k];
        var result := Unowned(variant, filled);
        LineWon(moves[..], p, variant);
        WinCallsStep(moves[..], p, k);
        if |result| == 0 {
          calls := calls + [EndWin(p, variant)];
        }
        k := k + 1;
      }
      endCalls := endCalls + calls;
    }

    /** `_doStep(p, _, id)`: writes p at id whether or not the cell was
      empty, advances the step counter, then runs `_isPlayerWon(p)`. */
    method DoStep(p: Mark, slot: Slot)
      requires Valid()
      requires slot.Cell? ==> slot.index < Cells
      modifies this, moves
      ensures Valid() && moves == old(moves)
      ensures slot.Cell? ==> moves[slot.index] == p
      ensures forall j :: 0 <= j < Cells && slot != Cell(j) ==> moves[j] == old(moves[j])
      ensures moves[..] == Place(old(moves[..]), slot, p)
      ensures step == old(step) + 1
      ensures endCalls == old(endCalls) + WinCalls(moves[..], p, 8)
    {
      if slot.Cell? {
        TakenPlace(moves[..], slot.index, p);
        moves[slot.index] := p;
      }
      step := step + 1;
      IsPlayerWon(p);
    }

    /** The choice `_circleMove` makes before it calls `_doStep`. */
    method ChooseCircleCell() returns (slot: Slot)
      requires Valid()
      ensures CircleMay(moves[..], step, slot)
      ensures slot.Cell? ==> slot.index < Cells && moves[slot.index] == Empty
    {
      if step == 2 {
        if moves[Centre] == Empty {
          slot := Cell(Centre);
        } else {
          var corner := RandomFromArray([0, 2, 6, 8]);
          slot := Cell(corner.value);
        }
      } else {
        var index := CanWinIndex(Circle);
        if !Truthy(index) {
          index := CanWinIndex(Cross);
          if !Truthy(index) {
            var emptyIndexes := IndexesOf(Empty);
            OwnedSpec(moves[..], Empty, Cells);
            index := RandomFromArray(emptyIndexes);
            if index.None? {
              assert !HasEmpty(moves[..]) by {
                forall i | 0 <= i < Cells ensures moves[..][i] != Empty {
                  assert i !in emptyIndexes;
                }
              }
            }
          }
        }
        slot := if index.Some? then Cell(index.value) else Outside;
      }
      CirclePlaysEmptyCell(moves[..], step, slot);
    }

    /** `_circleMove()`, run when the timer set by `playerMove` fires. */
    method CircleMove() returns (played: Slot)
      requires Valid()
      modifies this, moves
      ensures Valid() && moves == old(moves)
      ensures CircleMay(old(moves[..]), old(step), played)
      ensures played.Cell? ==> played.index < Cells && old(moves[played.index]) == Empty
      ensures moves[..] == Place(old(moves[..]), played, Circle)
      ensures step == old(step) + 1
      ensures endCalls == old(endCalls) + WinCalls(moves[..], Circle, 8)
    {
      played := ChooseCircleCell();
      DoStep(Circle, played);
    }

    /** `_crossMove`: a click whose target has no `cell_id_` class is
      ignored; otherwise the last character of that class names the cell. */
    method CrossMove(className: string)
      requires Valid()
      modifies this, moves
      ensures Valid() && moves == old(moves)
      ensures ParseCellId(className).None? ==>
        moves[..] == old(moves[..]) && step == old(step) && endCalls == old(endCalls)
      ensures ParseCellId(className).Some? ==>
        var slot := CellSlot(ParseCellId(className).value);
        moves[..] == Place(old(moves[..]), slot, Cross) && step == old(step) + 1 &&
        endCalls == old(endCalls) + WinCalls(moves[..], Cross, 8)
    {
      var id := ParseCellId(className);
      if id.Some? {
        DoStep(Cross, CellSlot(id.value));
      }
    }

    /** `playerMove`: the human's move, then `_endGame()` when the step
      counter stands at NUMBER_OF_STEPS. */
    method PlayerMove(className: string)
      requires Valid()
      modifies this, moves
      ensures Valid() && moves == old(moves)
      ensures ParseCellId(className).None? ==>
        moves[..] == old(moves[..]) && step == old(step) &&
        endCalls == old(endCalls) + (if step == NumberOfSteps then [EndAtStepLimit] else [])
      ensures ParseCellId(className).Some? ==>
        var slot := CellSlot(ParseCellId(className).value);
        moves[..] == Place(old(moves[..]), slot, Cross) && step == old(step) + 1 &&
        endCalls == old(endCalls) + WinCalls(moves[..], Cross, 8) +
          (if step == NumberOfSteps then [EndAtStepLimit] else [])
    {
      CrossMove(className);
      if step == NumberOfSteps {
        endCalls := endCalls + [EndAtStepLimit];
      }
    }

    /** `playerMove` with the evidently intended check: `_endGame()` once nine
      moves have been made, when the step counter stands one past
      NUMBER_OF_STEPS. In a game of strict alternation, a human move onto an
      empty cell is then signalled exactly when it fills the board. */
    method PlayerMoveIntended(className: string)
      requires Valid()
      modifies this, moves
      ensures Valid() && moves == old(moves)
      ensures ParseCellId(className).None? ==>
        moves[..] == old(moves[..]) && step == old(step) &&
        endCalls == old(endCalls) + (if step == NumberOfSteps + 1 then [EndAtStepLimit] else [])
      ensures ParseCellId(className).Some? ==>
        var slot := CellSlot(ParseCellId(className).value);
        moves[..] == Place(old(moves[..]), slot, Cross) && step == old(step) + 1 &&
        endCalls == old(endCalls) + WinCalls(moves[..], Cross, 8) +
          (if step == NumberOfSteps + 1 then [EndAtStepLimit] else [])
      ensures ParseCellId(className).Some? && old(step) == Taken(old(moves[..])) + 1 ==>
        var slot := CellSlot(ParseCellId(className).value);
        slot.Cell? && old(moves[slot.index]) == Empty ==>
          (step == NumberOfSteps + 1 <==> !HasEmpty(moves[..]))
    {
      ghost var before := moves[..];
      ghost var stepBefore := step;
      CrossMove(className);
      var id := ParseCellId(className);
      if id.Some? && stepBefore == Taken(before) + 1 {
        var slot := CellSlot(id.value);
        if slot.Cell? && before[slot.index] == Empty {
          StepLimitIntended(before, stepBefore, slot.index);
        }
      }
      if step == NumberOfSteps + 1 {
        endCalls := endCalls + [EndAtStepLimit];
      }
    }
  }

  /** As written, the check `_step === NUMBER_OF_STEPS` in `playerMove` misses
      the move that fills the board. In a game of strict alternation the step
      counter is one more than the number of cells taken. A human move onto
      the last empty cell leaves it at 10, and it stands at 9 after a human
      move exactly when one cell is left empty. */
  lemma {:induction false} StepLimitAsWritten(b: seq<Mark>, step: int, n: nat)
    requires |b| == Cells && step == Taken(b) + 1 && n < Cells && b[n] == Empty
    ensures !HasEmpty(Place(b, Cell(n), Cross)) ==> step + 1 == NumberOfSteps + 1
    ensures step + 1 == NumberOfSteps <==> Taken(Place(b, Cell(n), Cross)) == Cells - 1
  {
    TakenPlaceEmpty(b, n, Cross);
    TakenAll(Place(b, Cell(n), Cross));
  }

  /** With the check one step later, the human's move onto an empty cell
      reaches it exactly when that move fills the board. */
  lemma {:induction false} StepLimitIntended(b: seq<Mark>, step: int, n: nat)
    requires |b| == Cells && step == Taken(b) + 1 && n < Cells && b[n] == Empty
    ensures step + 1 == NumberOfSteps + 1 <==> !HasEmpty(Place(b, Cell(n), Cross))
  {
    TakenPlaceEmpty(b, n, Cross);
    TakenAll(Place(b, Cell(n), Cross));
  }

  /** The drawn game of Strategy reaches step 9 with eight cells taken. The
      human's move at 3 fills the board without a line, so as written
      `playerMove` makes no `_endGame` call at all: no win call, and the
      step counter then stands at 10. */
  lemma DrawNotAnnounced()
    ensures var after := Place(DrawBeforeLast, Cell(3), Cross);
      !HasEmpty(after) && WinCalls(after, Cross, 8) == [] && Taken(DrawBeforeLast) + 1 + 1 != NumberOfSteps
  {
    DrawFilled();
    var after := Place(DrawBeforeLast, Cell(3), Cross);
    WonLinesNone(after, Cross, WinVariants, 8);
  }

  /** A new game in which the human opens in the centre: the computer's
      reply, on step 2, is one of the corners. */
  method CentreOpening() returns (played: Slot)
    ensures played.Cell? && played.index in Corners
  {
    var game := new Game();
    ParseRenderedCell(Centre);
    game.PlayerMove(RenderedCellClass(Centre));
    assert game.moves[Centre] == Cross;
    played := game.CircleMove();
  }
}
