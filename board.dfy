/** The board of the game: nine cells numbered 0..8 row by row, the eight
    winning lines, and the scans that `_canWinIndex` and `_isPlayerWon` run
    over them, stated as functions of a snapshot of the board. */
module Board {

  datatype Option<T> = None | Some(value: T)

  /** What a cell holds: '' (empty), 'X' (the human) or 'O' (the computer). */
  datatype Mark = Empty | Cross | Circle

  /** The property key that `_moves[id] = player` writes: one of the nine
      cells, or a key outside them (`undefined`, or a character other than
      '0'..'8'), which leaves all nine cells as they were. */
  datatype Slot = Cell(index: nat) | Outside

  const Cells: nat := 9
  const NumberOfSteps: int := 9

  /** WIN_VARIANTS, in the source's order. */
  const WinVariants: seq<Line> :=
    [[0, 1, 2], [0, 3, 6], [0, 4, 8],
     [3, 4, 5], [6, 7, 8], [1, 4, 7],
     [2, 5, 8], [2, 4, 6]]

  /** Three distinct cells of the board. */
  predicate IsLine(line: seq<nat>) {
    |line| == 3 && line[0] < Cells && line[1] < Cells && line[2] < Cells &&
    line[0] != line[1] && line[1] != line[2] && line[0] != line[2]
  }

  type Line = line: seq<nat> | IsLine(line) witness [0, 1, 2]

  lemma VariantsDistinct()
    ensures forall i, j :: 0 <= i < j < 8 ==> WinVariants[i] != WinVariants[j]
  {
    forall i, j | 0 <= i < j < 8 ensures WinVariants[i] != WinVariants[j] {
      assert WinVariants[i][0] != WinVariants[j][0] ||
             WinVariants[i][1] != WinVariants[j][1] ||
             WinVariants[i][2] != WinVariants[j][2];
    }
  }

  /** The board with `m` written at `s` and every other cell as it was. */
  function Place(b: seq<Mark>, s: Slot, m: Mark): (r: seq<Mark>)
    requires s.Cell? ==> s.index < |b|
    ensures |r| == |b|
    ensures s.Cell? ==> r[s.index] == m
    ensures forall j :: 0 <= j < |b| && s != Cell(j) ==> r[j] == b[j]
  {
    if s.Cell? then b[s.index := m] else b
  }

  /** The indices below n whose cell holds m, in increasing order: the list
      that the source builds with `forEach` and `push`. */
  function Owned(b: seq<Mark>, m: Mark, n: nat): seq<nat>
    requires n <= |b|
  {
    if n == 0 then [] else Owned(b, m, n - 1) + (if b[n - 1] == m then [n - 1] else [])
  }

  /** An index is listed exactly when its cell holds m, and the list is
      increasing. */
  lemma {:induction false} OwnedSpec(b: seq<Mark>, m: Mark, n: nat)
    requires n <= |b|
    ensures forall x: nat :: x in Owned(b, m, n) <==> x < n && b[x] == m
    ensures forall i, j :: 0 <= i < j < |Owned(b, m, n)| ==> Owned(b, m, n)[i] < Owned(b, m, n)[j]
  {
    if n > 0 {
      OwnedSpec(b, m, n - 1);
      var prev := Owned(b, m, n - 1);
      assert forall i :: 0 <= i < |prev| ==> prev[i] in prev;
    }
  }

  /** `variant.filter(cell => !filled.includes(cell))`. */
  function Unowned(line: seq<nat>, filled: seq<nat>): seq<nat> {
    if line == [] then []
    else (if line[0] in filled then [] else [line[0]]) + Unowned(line[1..], filled)
  }

  lemma {:induction false} UnownedOfTriple(x: nat, y: nat, z: nat, filled: seq<nat>)
    ensures Unowned([x, y, z], filled) ==
      (if x in filled then [] else [x]) + (if y in filled then [] else [y]) +
      (if z in filled then [] else [z])
  {
    assert [z][1..] == [];
    assert Unowned([z], filled) == (if z in filled then [] else [z]) + Unowned([], filled);
    assert [y, z][1..] == [z];
    assert Unowned([y, z], filled) == (if y in filled then [] else [y]) + Unowned([z], filled);
    assert [x, y, z][1..] == [y, z];
    assert Unowned([x, y, z], filled) == (if x in filled then [] else [x]) + Unowned([y, z], filled);
  }

  /** m holds every cell of line but c, and c is empty. */
  predicate Threat(b: seq<Mark>, m: Mark, line: Line, c: nat)
    requires |b| == Cells
  {
    c in line && b[c] == Empty && forall x :: x in line && x != c ==> b[x] == m
  }

  /** The cell of line that m needs to complete it: the one empty cell of a
      line whose other two cells m holds. The empty mark completes nothing. */
  function Completion(b: seq<Mark>, m: Mark, line: Line): (r: Option<nat>)
    requires |b| == Cells
    ensures r.Some? ==> r.value in line && b[r.value] == Empty
  {
    if m == Empty then None
    else if b[line[0]] == Empty && b[line[1]] == m && b[line[2]] == m then Some(line[0])
    else if b[line[0]] == m && b[line[1]] == Empty && b[line[2]] == m then Some(line[1])
    else if b[line[0]] == m && b[line[1]] == m && b[line[2]] == Empty then Some(line[2])
    else None
  }

  /** For a player, Completion finds exactly the cell that completes the line. */
  lemma CompletionIsThreat(b: seq<Mark>, m: Mark, line: Line)
    requires |b| == Cells && m != Empty
    ensures forall c: nat :: Completion(b, m, line) == Some(c) <==> Threat(b, m, line, c)
  {
    assert line == [line[0], line[1], line[2]];
  }

  /* The scans below run over the first n lines of a list of lines; the game
     passes WIN_VARIANTS. Stating them for any list keeps the literal out of
     the proofs about them. */

  /** The result of `_canWinIndex(m)` once the first n lines are scanned:
      each matching line overwrites the result, so the last one wins. */
  function LastCompletion(b: seq<Mark>, m: Mark, lines: seq<Line>, n: nat): Option<nat>
    requires |b| == Cells && n <= |lines|
  {
    if n == 0 then None
    else match Completion(b, m, lines[n - 1])
      case Some(c) => Some(c)
      case None => LastCompletion(b, m, lines, n - 1)
  }

  /** The scan only ever answers an empty cell of the board. */
  lemma {:induction false} LastCompletionEmpty(b: seq<Mark>, m: Mark, lines: seq<Line>, n: nat)
    requires |b| == Cells && n <= |lines|
    ensures var r := LastCompletion(b, m, lines, n);
      r.Some? ==> r.value < Cells && b[r.value] == Empty
  {
    if n > 0 && Completion(b, m, lines[n - 1]).None? {
      LastCompletionEmpty(b, m, lines, n - 1);
    }
  }

  /** One turn of the `WIN_VARIANTS.forEach` in `_canWinIndex`, run on the
      list `filled` of m's cells: when exactly one cell of line k is not m's
      and it is empty, it becomes the result; otherwise the result stays. The
      scan of the first k + 1 lines then gives LastCompletion, for every m. */
  lemma {:induction false} LastCompletionScan(b: seq<Mark>, m: Mark, lines: seq<Line>, k: nat, filled: seq<nat>)
    requires |b| == Cells && k < |lines| && filled == Owned(b, m, Cells)
    ensures var rest := Unowned(lines[k], filled);
      |rest| >= 1 ==> rest[0] < Cells
    ensures var rest := Unowned(lines[k], filled);
      |rest| == 1 && b[rest[0]] == Empty ==> LastCompletion(b, m, lines, k + 1) == Some(rest[0])
    ensures var rest := Unowned(lines[k], filled);
      !(|rest| == 1 && b[rest[0]] == Empty) ==> LastCompletion(b, m, lines, k + 1) == LastCompletion(b, m, lines, k)
  {
    var line := lines[k];
    OwnedSpec(b, m, Cells);
    assert line == [line[0], line[1], line[2]];
    UnownedOfTriple(line[0], line[1], line[2], filled);
  }

  /** No cell completes line k for m. */
  ghost predicate NoThreatAt(b: seq<Mark>, m: Mark, lines: seq<Line>, k: nat)
    requires |b| == Cells && k < |lines|
  {
    forall c: nat :: !Threat(b, m, lines[k], c)
  }

  /** No line k' with k < k' < n has a cell that completes it for m. */
  ghost predicate NoThreatAfter(b: seq<Mark>, m: Mark, lines: seq<Line>, k: nat, n: nat)
    requires |b| == Cells && n <= |lines|
  {
    forall k' :: k < k' < n ==> NoThreatAt(b, m, lines, k')
  }

  /** `_canWinIndex(m)` is null exactly when no line has two cells held by m
      and its third cell empty. */
  lemma {:induction false} LastCompletionNone(b: seq<Mark>, m: Mark, lines: seq<Line>, n: nat)
    requires |b| == Cells && n <= |lines| && m != Empty
    ensures LastCompletion(b, m, lines, n) == None <==> forall k :: 0 <= k < n ==> NoThreatAt(b, m, lines, k)
  {
    if n > 0 {
      LastCompletionNone(b, m, lines, n - 1);
      CompletionIsThreat(b, m, lines[n - 1]);
      var r := Completion(b, m, lines[n - 1]);
      if r.Some? {
        assert Threat(b, m, lines[n - 1], r.value);
        assert !NoThreatAt(b, m, lines, n - 1);
      }
    }
  }

  /** Otherwise it is the empty cell of the last such line in list order. */
  lemma {:induction false} LastCompletionSome(b: seq<Mark>, m: Mark, lines: seq<Line>, n: nat)
    requires |b| == Cells && n <= |lines| && m != Empty
    requires LastCompletion(b, m, lines, n).Some?
    ensures exists k :: (0 <= k < n && Threat(b, m, lines[k], LastCompletion(b, m, lines, n).value) &&
                         NoThreatAfter(b, m, lines, k, n))
  {
    CompletionIsThreat(b, m, lines[n - 1]);
    var r := Completion(b, m, lines[n - 1]);
    var c := LastCompletion(b, m, lines, n).value;
    if r.Some? {
      assert Threat(b, m, lines[n - 1], c);
      assert NoThreatAfter(b, m, lines, n - 1, n);
    } else {
      assert NoThreatAt(b, m, lines, n - 1);
      LastCompletionSome(b, m, lines, n - 1);
      var k :| 0 <= k < n - 1 && Threat(b, m, lines[k], c) && NoThreatAfter(b, m, lines, k, n - 1);
      assert NoThreatAfter(b, m, lines, k, n);
    }
  }

  /** The cell of the last threatened line is the result, whatever the
      earlier lines hold. */
  lemma {:induction false} LastCompletionIs(b: seq<Mark>, m: Mark, lines: seq<Line>, k0: nat, c0: nat)
    requires |b| == Cells && m != Empty && k0 < |lines|
    requires Threat(b, m, lines[k0], c0) && NoThreatAfter(b, m, lines, k0, |lines|)
    ensures LastCompletion(b, m, lines, |lines|) == Some(c0)
  {
    LastCompletionNone(b, m, lines, |lines|);
    assert !NoThreatAt(b, m, lines, k0);
    LastCompletionSome(b, m, lines, |lines|);
    var c := LastCompletion(b, m, lines, |lines|).value;
    var k :| 0 <= k < |lines| && Threat(b, m, lines[k], c) && NoThreatAfter(b, m, lines, k, |lines|);
    assert !NoThreatAt(b, m, lines, k);
    assert k == k0;
    assert c in lines[k0];
  }

  /** m holds every cell of line. */
  predicate Full(b: seq<Mark>, m: Mark, line: Line)
    requires |b| == Cells
  {
    forall x :: x in line ==> b[x] == m
  }

  /** The lines among the first n that m holds completely, in order. */
  function WonLines(b: seq<Mark>, m: Mark, lines: seq<Line>, n: nat): seq<Line>
    requires |b| == Cells && n <= |lines|
  {
    if n == 0 then []
    else
      var line := lines[n - 1];
      WonLines(b, m, lines, n - 1) + (if Full(b, m, line) then [line] else [])
  }

  /** One turn of the `WIN_VARIANTS.forEach` in `_isPlayerWon`: no cell of
      the line is left outside m's cells exactly when m holds all three. */
  lemma LineWon(b: seq<Mark>, m: Mark, line: Line)
    requires |b| == Cells
    ensures Unowned(line, Owned(b, m, Cells)) == [] <==> Full(b, m, line)
  {
    OwnedSpec(b, m, Cells);
    assert line == [line[0], line[1], line[2]];
    UnownedOfTriple(line[0], line[1], line[2], Owned(b, m, Cells));
  }

  /** Every line reported is held completely by m and is one of the first n. */
  lemma {:induction false} WonLinesSound(b: seq<Mark>, m: Mark, lines: seq<Line>, n: nat)
    requires |b| == Cells && n <= |lines|
    ensures forall line :: line in WonLines(b, m, lines, n) ==>
      Full(b, m, line) && exists k :: 0 <= k < n && lines[k] == line
  {
    if n > 0 {
      WonLinesSound(b, m, lines, n - 1);
    }
  }

  /** Every one of the first n lines that m holds completely is reported. */
  lemma {:induction false} WonLinesComplete(b: seq<Mark>, m: Mark, lines: seq<Line>, n: nat)
    requires |b| == Cells && n <= |lines|
    ensures forall k :: 0 <= k < n && Full(b, m, lines[k]) ==> lines[k] in WonLines(b, m, lines, n)
  {
    if n > 0 {
      WonLinesComplete(b, m, lines, n - 1);
    }
  }

  /** When m holds none of the first n lines completely, none is reported. */
  lemma {:induction false} WonLinesNone(b: seq<Mark>, m: Mark, lines: seq<Line>, n: nat)
    requires |b| == Cells && n <= |lines|
    requires forall k :: 0 <= k < n ==> !Full(b, m, lines[k])
    ensures WonLines(b, m, lines, n) == []
  {
    if n > 0 {
      WonLinesNone(b, m, lines, n - 1);
    }
  }

  /** Of lines that are pairwise distinct, no line is reported twice. */
  lemma {:induction false} WonLinesDistinct(b: seq<Mark>, m: Mark, lines: seq<Line>, n: nat)
    requires |b| == Cells && n <= |lines|
    requires forall i, j :: 0 <= i < j < |lines| ==> lines[i] != lines[j]
    ensures forall i, j :: 0 <= i < j < |WonLines(b, m, lines, n)| ==>
      WonLines(b, m, lines, n)[i] != WonLines(b, m, lines, n)[j]
  {
    if n > 0 {
      WonLinesDistinct(b, m, lines, n - 1);
      WonLinesSound(b, m, lines, n - 1);
      assert lines[n - 1] !in WonLines(b, m, lines, n - 1);
    }
  }

  /** The number of cells that are not empty. */
  function Taken(b: seq<Mark>): nat {
    if b == [] then 0 else (if b[0] != Empty then 1 else 0) + Taken(b[1..])
  }

  lemma {:induction false} TakenAllEmpty(b: seq<Mark>)
    requires forall i :: 0 <= i < |b| ==> b[i] == Empty
    ensures Taken(b) == 0
  {
    if b != [] {
      TakenAllEmpty(b[1..]);
    }
  }

  /** Writing one cell adds at most one taken cell. */
  lemma {:induction false} TakenPlace(b: seq<Mark>, i: nat, m: Mark)
    requires i < |b|
    ensures Taken(b[i := m]) <= Taken(b) + 1
  {
    if i > 0 {
      assert b[i := m][1..] == b[1..][i - 1 := m];
      TakenPlace(b[1..], i - 1, m);
    } else {
      assert b[i := m][1..] == b[1..];
    }
  }

  /** Writing a mark into an empty cell takes exactly one more cell. */
  lemma {:induction false} TakenPlaceEmpty(b: seq<Mark>, i: nat, m: Mark)
    requires i < |b| && b[i] == Empty && m != Empty
    ensures Taken(b[i := m]) == Taken(b) + 1
  {
    if i > 0 {
      assert b[i := m][1..] == b[1..][i - 1 := m];
      TakenPlaceEmpty(b[1..], i - 1, m);
    } else {
      assert b[i := m][1..] == b[1..];
    }
  }

  /** At most every cell is taken, and every cell is taken exactly when the
      count reaches the length of the board. */
  lemma {:induction false} TakenAll(b: seq<Mark>)
    ensures Taken(b) <= |b|
    ensures Taken(b) == |b| <==> forall i :: 0 <= i < |b| ==> b[i] != Empty
  {
    if b != [] {
      TakenAll(b[1..]);
      assert forall i :: 0 < i < |b| ==> b[i] == b[1..][i - 1];
    }
  }

  /** Two distinct taken cells make at least two taken cells. */
  lemma {:induction false} TakenTwo(b: seq<Mark>, i: nat, j: nat)
    requires i < |b| && j < |b| && i != j && b[i] != Empty && b[j] != Empty
    ensures Taken(b) >= 2
  {
    if i > 0 && j > 0 {
      TakenTwo(b[1..], i - 1, j - 1);
    } else {
      var k := if i == 0 then j else i;
      TakenOne(b[1..], k - 1);
    }
  }

  lemma {:induction false} TakenOne(b: seq<Mark>, i: nat)
    requires i < |b| && b[i] != Empty
    ensures Taken(b) >= 1
  {
    if i > 0 {
      TakenOne(b[1..], i - 1);
    }
  }
}
