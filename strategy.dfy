/** The computer's choice of cell in `_circleMove`: the centre or a corner on
    step 2; otherwise its own winning cell, else the cell that blocks the
    human, else any empty cell. The results of `_canWinIndex` are tested for
    JavaScript truthiness, so a winning or blocking cell 0 counts as none. */
module Strategy {
  import opened Board

  const Centre: nat := 4
  const Corners: set<nat> := {0, 2, 6, 8}

  /** `!!index` for a result of `_canWinIndex`: null and 0 are both falsy. */
  predicate Truthy(index: Option<nat>) {
    index.Some? && index.value != 0
  }

  /** Some cell of the board is empty. */
  ghost predicate HasEmpty(b: seq<Mark>)
    requires |b| == Cells
  {
    exists i :: 0 <= i < Cells && b[i] == Empty
  }

  /** The last rule: a random empty cell, or the `undefined` key that
      `_randomFromArray([])` gives when there is none. */
  ghost predicate RandomEmpty(b: seq<Mark>, s: Slot)
    requires |b| == Cells
  {
    if HasEmpty(b) then s.Cell? && s.index < Cells && b[s.index] == Empty else s == Outside
  }

  /** The moves `_circleMove` may make on board b with step counter `step`. */
  ghost predicate CircleMay(b: seq<Mark>, step: int, s: Slot)
    requires |b| == Cells
  {
    if step == 2 then
      if b[Centre] == Empty then s == Cell(Centre) else s.Cell? && s.index in Corners
    else
      var win := LastCompletion(b, Circle, WinVariants, 8);
      var block := LastCompletion(b, Cross, WinVariants, 8);
      if Truthy(win) then s == Cell(win.value)
      else if Truthy(block) then s == Cell(block.value)
      else RandomEmpty(b, s)
  }

  /** The computer never plays an occupied cell, although neither the corner
      pick nor `_doStep` checks: on step 2 at most one cell is taken, so with
      the centre taken every corner is empty. It falls back to the key
      outside the board only on a full board. */
  lemma {:induction false} CirclePlaysEmptyCell(b: seq<Mark>, step: int, s: Slot)
    requires |b| == Cells && Taken(b) < step
    requires CircleMay(b, step, s)
    ensures s.Cell? ==> s.index < Cells && b[s.index] == Empty
    ensures s == Outside ==> forall i :: 0 <= i < Cells ==> b[i] != Empty
  {
    LastCompletionEmpty(b, Circle, WinVariants, 8);
    LastCompletionEmpty(b, Cross, WinVariants, 8);
    if step == 2 && b[Centre] != Empty {
      if b[s.index] != Empty {
        TakenTwo(b, Centre, s.index);
      }
    }
  }

  /** When its own `_canWinIndex` is truthy, the computer completes a line. */
  lemma {:induction false} CircleTakesWin(b: seq<Mark>, step: int, s: Slot)
    requires |b| == Cells && step != 2
    requires Truthy(LastCompletion(b, Circle, WinVariants, 8))
    requires CircleMay(b, step, s)
    ensures s.Cell? && s.index < Cells
    ensures exists k :: 0 <= k < 8 && Full(Place(b, s, Circle), Circle, WinVariants[k])
  {
    LastCompletionEmpty(b, Circle, WinVariants, 8);
    var c := LastCompletion(b, Circle, WinVariants, 8).value;
    assert s == Cell(c);
    LastCompletionSome(b, Circle, WinVariants, 8);
    var k :| 0 <= k < 8 && Threat(b, Circle, WinVariants[k], c) && NoThreatAfter(b, Circle, WinVariants, k, 8);
    ThreatCompletes(b, Circle, WinVariants[k], c);
  }

  /** Otherwise, when the human's `_canWinIndex` is truthy, the computer
      plays the empty cell of a line where the human holds the other two. */
  lemma {:induction false} CircleBlocks(b: seq<Mark>, step: int, s: Slot)
    requires |b| == Cells && step != 2
    requires !Truthy(LastCompletion(b, Circle, WinVariants, 8)) && Truthy(LastCompletion(b, Cross, WinVariants, 8))
    requires CircleMay(b, step, s)
    ensures s.Cell? && exists k :: 0 <= k < 8 && Threat(b, Cross, WinVariants[k], s.index)
  {
    LastCompletionSome(b, Cross, WinVariants, 8);
  }

  /** Playing the empty cell of a threatened line completes it. */
  lemma {:induction false} ThreatCompletes(b: seq<Mark>, m: Mark, line: Line, c: nat)
    requires |b| == Cells && Threat(b, m, line, c)
    ensures Full(Place(b, Cell(c), m), m, line)
  {
    var after := Place(b, Cell(c), m);
    forall x | x in line ensures after[x] == m {
      if x != c {
        assert after[x] == b[x];
      }
    }
  }

  /** The board when the computer is about to make its third move (step 6):
      the human holds 3, 4 and 8, the computer 1 and 2. The computer can win
      at cell 0, and the human threatens both 0 and 5. CornerReply and
      RandomSecondReply show a game that reaches it. */
  const MissedWinBoard: seq<Mark> :=
    [Empty, Circle, Circle,
     Cross, Cross,  Empty,
     Empty, Empty,  Cross]

  /** Five cells are taken: the step counter 6 is one more than the number of
      moves made, so the board meets the class invariant at step 6. */
  lemma MissedWinBoardAtStepSix()
    ensures Taken(MissedWinBoard) + 1 == 6
  {
  }

  /** The board at step 2 after the human opens in the centre. */
  const CentreOpened: seq<Mark> :=
    [Empty, Empty, Empty,
     Empty, Cross, Empty,
     Empty, Empty, Empty]

  /** The board at step 4 after the computer took corner 2 and the human 8. */
  const BeforeSecondReply: seq<Mark> :=
    [Empty, Empty, Circle,
     Empty, Cross, Empty,
     Empty, Empty, Cross]

  /** The computer may answer the centre opening with corner 2. */
  lemma CornerReply()
    ensures CircleMay(CentreOpened, 2, Cell(2))
    ensures BeforeSecondReply == Place(Place(CentreOpened, Cell(2), Circle), Cell(8), Cross)
  {
  }

  /** At step 4 the human's only threat is at cell 0, which is falsy, and the
      computer has none, so it may pick cell 1 at random; the human's 3 then
      gives MissedWinBoard. */
  lemma {:induction false} RandomSecondReply()
    ensures CircleMay(BeforeSecondReply, 4, Cell(1))
    ensures MissedWinBoard == Place(Place(BeforeSecondReply, Cell(1), Circle), Cell(3), Cross)
  {
    var b := BeforeSecondReply;
    NoCircleThreatBeforeSecondReply(b);
    LastCompletionNone(b, Circle, WinVariants, 8);
    NoCrossThreatAfterThirdLine(b);
    assert Threat(b, Cross, WinVariants[2], 0);
    LastCompletionIs(b, Cross, WinVariants, 2, 0);
    assert b[1] == Empty;
  }

  lemma {:induction false} NoCircleThreatBeforeSecondReply(b: seq<Mark>)
    requires b == BeforeSecondReply
    ensures forall k :: 0 <= k < 8 ==> NoThreatAt(b, Circle, WinVariants, k)
  {
    NoThreatWithoutTwo(b, Circle, WinVariants[0]);
    NoThreatWithoutTwo(b, Circle, WinVariants[1]);
    NoThreatWithoutTwo(b, Circle, WinVariants[2]);
    NoThreatWithoutTwo(b, Circle, WinVariants[3]);
    NoThreatWithoutTwo(b, Circle, WinVariants[4]);
    NoThreatWithoutTwo(b, Circle, WinVariants[5]);
    NoThreatWithoutTwo(b, Circle, WinVariants[6]);
    NoThreatWithoutTwo(b, Circle, WinVariants[7]);
  }

  lemma {:induction false} NoCrossThreatAfterThirdLine(b: seq<Mark>)
    requires b == BeforeSecondReply
    ensures NoThreatAfter(b, Cross, WinVariants, 2, 8)
  {
    NoThreatWithoutTwo(b, Cross, WinVariants[3]);
    NoThreatWithoutTwo(b, Cross, WinVariants[4]);
    NoThreatWithoutTwo(b, Cross, WinVariants[5]);
    NoThreatWithoutTwo(b, Cross, WinVariants[6]);
    NoThreatWithoutTwo(b, Cross, WinVariants[7]);
  }

  /** A line holding fewer than two of m's marks is no threat. */
  lemma {:induction false} NoThreatWithoutTwo(b: seq<Mark>, m: Mark, line: Line)
    requires |b| == Cells
    requires !(b[line[0]] == m && b[line[1]] == m)
    requires !(b[line[0]] == m && b[line[2]] == m)
    requires !(b[line[1]] == m && b[line[2]] == m)
    ensures forall c: nat :: !Threat(b, m, line, c)
  {
    forall c: nat ensures !Threat(b, m, line, c) {
      assert line[0] in line && line[1] in line && line[2] in line;
    }
  }

  lemma {:induction false} NotFull(b: seq<Mark>, m: Mark, line: Line)
    requires |b| == Cells
    requires b[line[0]] != m || b[line[1]] != m || b[line[2]] != m
    ensures !Full(b, m, line)
  {
    assert line[0] in line && line[1] in line && line[2] in line;
  }

  lemma {:induction false} NoCircleThreatAfterFirstLine(b: seq<Mark>)
    requires b == MissedWinBoard
    ensures NoThreatAfter(b, Circle, WinVariants, 0, 8)
  {
    NoThreatWithoutTwo(b, Circle, WinVariants[1]);
    NoThreatWithoutTwo(b, Circle, WinVariants[2]);
    NoThreatWithoutTwo(b, Circle, WinVariants[3]);
    NoThreatWithoutTwo(b, Circle, WinVariants[4]);
    NoThreatWithoutTwo(b, Circle, WinVariants[5]);
    NoThreatWithoutTwo(b, Circle, WinVariants[6]);
    NoThreatWithoutTwo(b, Circle, WinVariants[7]);
  }

  lemma {:induction false} NoCrossThreatAfterFourthLine(b: seq<Mark>)
    requires b == MissedWinBoard
    ensures NoThreatAfter(b, Cross, WinVariants, 3, 8)
  {
    NoThreatWithoutTwo(b, Cross, WinVariants[4]);
    NoThreatWithoutTwo(b, Cross, WinVariants[5]);
    NoThreatWithoutTwo(b, Cross, WinVariants[6]);
    NoThreatWithoutTwo(b, Cross, WinVariants[7]);
  }

  /** On MissedWinBoard the computer's `_canWinIndex` is 0 ... */
  lemma {:induction false} MissedWinBoardCircleScan(b: seq<Mark>)
    requires b == MissedWinBoard
    ensures LastCompletion(b, Circle, WinVariants, 8) == Some(0)
  {
    NoCircleThreatAfterFirstLine(b);
    assert Threat(b, Circle, WinVariants[0], 0);
    LastCompletionIs(b, Circle, WinVariants, 0, 0);
  }

  /** ... and the human's is 5. */
  lemma {:induction false} MissedWinBoardCrossScan(b: seq<Mark>)
    requires b == MissedWinBoard
    ensures LastCompletion(b, Cross, WinVariants, 8) == Some(5)
  {
    NoCrossThreatAfterFourthLine(b);
    assert Threat(b, Cross, WinVariants[3], 5);
    LastCompletionIs(b, Cross, WinVariants, 3, 5);
  }

  /** As written, the winning cell 0 is falsy: on MissedWinBoard at step 6
      the computer blocks at 5 instead of winning at 0 ... */
  lemma {:induction false} MissedWinChoice(s: Slot)
    requires CircleMay(MissedWinBoard, 6, s)
    ensures s == Cell(5)
  {
    var b := MissedWinBoard;
    MissedWinBoardCircleScan(b);
    MissedWinBoardCrossScan(b);
  }

  /** ... so completes no line of its own, and leaves the human's winning
      cell 0 open. */
  lemma {:induction false} MissedWinAtCellZero(s: Slot)
    requires CircleMay(MissedWinBoard, 6, s)
    ensures s == Cell(5)
    ensures forall k :: 0 <= k < 8 ==> !Full(Place(MissedWinBoard, s, Circle), Circle, WinVariants[k])
    ensures Threat(Place(MissedWinBoard, s, Circle), Cross, WinVariants[2], 0)
  {
    MissedWinChoice(s);
    var after := Place(MissedWinBoard, s, Circle);
    assert after == MissedWinBoard[5 := Circle];
    NoCircleLineAfterBlock(after);
    HumanThreatAfterBlock(after);
  }

  lemma HumanThreatAfterBlock(after: seq<Mark>)
    requires after == MissedWinBoard[5 := Circle]
    ensures Threat(after, Cross, WinVariants[2], 0)
  {
  }

  lemma {:induction false} NoCircleLineAfterBlock(after: seq<Mark>)
    requires after == MissedWinBoard[5 := Circle]
    ensures forall k :: 0 <= k < 8 ==> !Full(after, Circle, WinVariants[k])
  {
    NotFull(after, Circle, WinVariants[0]);
    NotFull(after, Circle, WinVariants[1]);
    NotFull(after, Circle, WinVariants[2]);
    NotFull(after, Circle, WinVariants[3]);
    NotFull(after, Circle, WinVariants[4]);
    NotFull(after, Circle, WinVariants[5]);
    NotFull(after, Circle, WinVariants[6]);
    NotFull(after, Circle, WinVariants[7]);
  }

  /** The evidently intended rule: a result of `_canWinIndex` counts whenever
      it is not null, cell 0 included. */
  ghost predicate IntendedMay(b: seq<Mark>, step: int, s: Slot)
    requires |b| == Cells
  {
    if step == 2 then
      if b[Centre] == Empty then s == Cell(Centre) else s.Cell? && s.index in Corners
    else
      var win := LastCompletion(b, Circle, WinVariants, 8);
      var block := LastCompletion(b, Cross, WinVariants, 8);
      if win.Some? then s == Cell(win.value)
      else if block.Some? then s == Cell(block.value)
      else RandomEmpty(b, s)
  }

  /** Under the intended rule the computer blocks the human's threat at the
      falsy cell 0 on the step-4 board, where as written it may play cell 1. */
  lemma {:induction false} IntendedBlocksAtZero(s: Slot)
    requires IntendedMay(BeforeSecondReply, 4, s)
    ensures s == Cell(0)
  {
    var b := BeforeSecondReply;
    NoCircleThreatBeforeSecondReply(b);
    LastCompletionNone(b, Circle, WinVariants, 8);
    NoCrossThreatAfterThirdLine(b);
    assert Threat(b, Cross, WinVariants[2], 0);
    LastCompletionIs(b, Cross, WinVariants, 2, 0);
  }

  /** Under the intended rule the computer completes a line whenever some
      line holds two of its marks and an empty cell. */
  lemma {:induction false} IntendedTakesWin(b: seq<Mark>, step: int, s: Slot, k: nat, c: nat)
    requires |b| == Cells && step != 2 && k < 8
    requires Threat(b, Circle, WinVariants[k], c)
    requires IntendedMay(b, step, s)
    ensures s.Cell? && s.index < Cells
    ensures exists k' :: 0 <= k' < 8 && Full(Place(b, s, Circle), Circle, WinVariants[k'])
  {
    LastCompletionEmpty(b, Circle, WinVariants, 8);
    LastCompletionNone(b, Circle, WinVariants, 8);
    assert !NoThreatAt(b, Circle, WinVariants, k);
    var c' := LastCompletion(b, Circle, WinVariants, 8).value;
    assert s == Cell(c');
    LastCompletionSome(b, Circle, WinVariants, 8);
    var k' :| 0 <= k' < 8 && Threat(b, Circle, WinVariants[k'], c') && NoThreatAfter(b, Circle, WinVariants, k', 8);
    ThreatCompletes(b, Circle, WinVariants[k'], c');
  }

  /** A line on which Completion finds nothing is no threat. */
  lemma NoThreatBlocked(b: seq<Mark>, m: Mark, line: Line)
    requires |b| == Cells && m != Empty && Completion(b, m, line).None?
    ensures forall c: nat :: !Threat(b, m, line, c)
  {
    CompletionIsThreat(b, m, line);
  }

  /* A drawn game. The human opens at 0 and the computer takes the centre.
     The human plays 8; no line is completable, so the computer may pick 1.
     The human plays 7 and the computer must block at 6; the human plays 2
     and the computer must block at 5. On step 9 the human fills cell 3. */

  /** The board at step 2 after the human opens at 0. */
  const DrawOpened: seq<Mark> :=
    [Cross, Empty, Empty,
     Empty, Empty, Empty,
     Empty, Empty, Empty]

  /** The board at step 4. */
  const DrawStepFour: seq<Mark> :=
    [Cross, Empty,  Empty,
     Empty, Circle, Empty,
     Empty, Empty,  Cross]

  /** The board at step 6. */
  const DrawStepSix: seq<Mark> :=
    [Cross, Circle, Empty,
     Empty, Circle, Empty,
     Empty, Cross,  Cross]

  /** The board at step 8. */
  const DrawStepEight: seq<Mark> :=
    [Cross,  Circle, Cross,
     Empty,  Circle, Empty,
     Circle, Cross,  Cross]

  /** The board at step 9: eight cells taken, cell 3 empty. */
  const DrawBeforeLast: seq<Mark> :=
    [Cross,  Circle, Cross,
     Empty,  Circle, Circle,
     Circle, Cross,  Cross]

  /** The computer takes the empty centre on step 2; the human answers 8. */
  lemma DrawCentreReply()
    ensures CircleMay(DrawOpened, 2, Cell(Centre))
    ensures DrawStepFour == Place(Place(DrawOpened, Cell(Centre), Circle), Cell(8), Cross)
  {
  }

  /** On step 4 neither player can complete a line, so the computer may pick
      cell 1; the human answers 7. */
  lemma {:induction false} DrawRandomReply()
    ensures CircleMay(DrawStepFour, 4, Cell(1))
    ensures DrawStepSix == Place(Place(DrawStepFour, Cell(1), Circle), Cell(7), Cross)
  {
    var b := DrawStepFour;
    DrawStepFourNoCircleThreat(b);
    LastCompletionNone(b, Circle, WinVariants, 8);
    DrawStepFourNoCrossThreat(b);
    LastCompletionNone(b, Cross, WinVariants, 8);
    assert b[1] == Empty;
  }

  lemma {:induction false} DrawStepFourNoCircleThreat(b: seq<Mark>)
    requires b == DrawStepFour
    ensures forall k :: 0 <= k < 8 ==> NoThreatAt(b, Circle, WinVariants, k)
  {
    NoThreatWithoutTwo(b, Circle, WinVariants[0]);
    NoThreatWithoutTwo(b, Circle, WinVariants[1]);
    NoThreatWithoutTwo(b, Circle, WinVariants[2]);
    NoThreatWithoutTwo(b, Circle, WinVariants[3]);
    NoThreatWithoutTwo(b, Circle, WinVariants[4]);
    NoThreatWithoutTwo(b, Circle, WinVariants[5]);
    NoThreatWithoutTwo(b, Circle, WinVariants[6]);
    NoThreatWithoutTwo(b, Circle, WinVariants[7]);
  }

  lemma {:induction false} DrawStepFourNoCrossThreat(b: seq<Mark>)
    requires b == DrawStepFour
    ensures forall k :: 0 <= k < 8 ==> NoThreatAt(b, Cross, WinVariants, k)
  {
    NoThreatWithoutTwo(b, Cross, WinVariants[0]);
    NoThreatWithoutTwo(b, Cross, WinVariants[1]);
    NoThreatBlocked(b, Cross, WinVariants[2]);
    NoThreatWithoutTwo(b, Cross, WinVariants[3]);
    NoThreatWithoutTwo(b, Cross, WinVariants[4]);
    NoThreatWithoutTwo(b, Cross, WinVariants[5]);
    NoThreatWithoutTwo(b, Cross, WinVariants[6]);
    NoThreatWithoutTwo(b, Cross, WinVariants[7]);
  }

  /** On step 6 the computer has no line to complete and the human threatens
      6, so the computer blocks there; the human answers 2. */
  lemma {:induction false} DrawFirstBlock(s: Slot)
    requires CircleMay(DrawStepSix, 6, s)
    ensures s == Cell(6)
    ensures DrawStepEight == Place(Place(DrawStepSix, s, Circle), Cell(2), Cross)
  {
    var b := DrawStepSix;
    DrawStepSixNoCircleThreat(b);
    LastCompletionNone(b, Circle, WinVariants, 8);
    DrawStepSixCrossThreat(b);
    LastCompletionIs(b, Cross, WinVariants, 4, 6);
  }

  lemma {:induction false} DrawStepSixNoCircleThreat(b: seq<Mark>)
    requires b == DrawStepSix
    ensures forall k :: 0 <= k < 8 ==> NoThreatAt(b, Circle, WinVariants, k)
  {
    NoThreatWithoutTwo(b, Circle, WinVariants[0]);
    NoThreatWithoutTwo(b, Circle, WinVariants[1]);
    NoThreatWithoutTwo(b, Circle, WinVariants[2]);
    NoThreatWithoutTwo(b, Circle, WinVariants[3]);
    NoThreatWithoutTwo(b, Circle, WinVariants[4]);
    NoThreatBlocked(b, Circle, WinVariants[5]);
    NoThreatWithoutTwo(b, Circle, WinVariants[6]);
    NoThreatWithoutTwo(b, Circle, WinVariants[7]);
  }

  lemma {:induction false} DrawStepSixCrossThreat(b: seq<Mark>)
    requires b == DrawStepSix
    ensures Threat(b, Cross, WinVariants[4], 6)
    ensures NoThreatAfter(b, Cross, WinVariants, 4, 8)
  {
    NoThreatWithoutTwo(b, Cross, WinVariants[5]);
    NoThreatWithoutTwo(b, Cross, WinVariants[6]);
    NoThreatWithoutTwo(b, Cross, WinVariants[7]);
  }

  /** On step 8 the computer again has no line to complete and the human
      threatens 5, so the computer blocks there. */
  lemma {:induction false} DrawSecondBlock(s: Slot)
    requires CircleMay(DrawStepEight, 8, s)
    ensures s == Cell(5)
    ensures DrawBeforeLast == Place(DrawStepEight, s, Circle)
  {
    var b := DrawStepEight;
    DrawStepEightNoCircleThreat(b);
    LastCompletionNone(b, Circle, WinVariants, 8);
    DrawStepEightCrossThreat(b);
    LastCompletionIs(b, Cross, WinVariants, 6, 5);
  }

  lemma {:induction false} DrawStepEightNoCircleThreat(b: seq<Mark>)
    requires b == DrawStepEight
    ensures forall k :: 0 <= k < 8 ==> NoThreatAt(b, Circle, WinVariants, k)
  {
    NoThreatWithoutTwo(b, Circle, WinVariants[0]);
    NoThreatWithoutTwo(b, Circle, WinVariants[1]);
    NoThreatWithoutTwo(b, Circle, WinVariants[2]);
    NoThreatWithoutTwo(b, Circle, WinVariants[3]);
    NoThreatWithoutTwo(b, Circle, WinVariants[4]);
    NoThreatBlocked(b, Circle, WinVariants[5]);
    NoThreatWithoutTwo(b, Circle, WinVariants[6]);
    NoThreatBlocked(b, Circle, WinVariants[7]);
  }

  lemma {:induction false} DrawStepEightCrossThreat(b: seq<Mark>)
    requires b == DrawStepEight
    ensures Threat(b, Cross, WinVariants[6], 5)
    ensures NoThreatAfter(b, Cross, WinVariants, 6, 8)
  {
    NoThreatWithoutTwo(b, Cross, WinVariants[7]);
  }

  /** The human's move at 3 on step 9 fills the board, and neither player
      holds a line: the game is drawn. */
  lemma {:induction false} DrawFilled()
    ensures Taken(DrawBeforeLast) == 8 && DrawBeforeLast[3] == Empty
    ensures !HasEmpty(Place(DrawBeforeLast, Cell(3), Cross))
    ensures forall k :: 0 <= k < 8 ==> !Full(Place(DrawBeforeLast, Cell(3), Cross), Cross, WinVariants[k])
    ensures forall k :: 0 <= k < 8 ==> !Full(Place(DrawBeforeLast, Cell(3), Cross), Circle, WinVariants[k])
  {
    var after := Place(DrawBeforeLast, Cell(3), Cross);
    assert after == DrawBeforeLast[3 := Cross];
    DrawNoLine(after, Cross);
    DrawNoLine(after, Circle);
  }

  lemma {:induction false} DrawNoLine(after: seq<Mark>, m: Mark)
    requires after == DrawBeforeLast[3 := Cross]
    ensures forall k :: 0 <= k < 8 ==> !Full(after, m, WinVariants[k])
  {
    NotFull(after, m, WinVariants[0]);
    NotFull(after, m, WinVariants[1]);
    NotFull(after, m, WinVariants[2]);
    NotFull(after, m, WinVariants[3]);
    NotFull(after, m, WinVariants[4]);
    NotFull(after, m, WinVariants[5]);
    NotFull(after, m, WinVariants[6]);
    NotFull(after, m, WinVariants[7]);
  }
}
