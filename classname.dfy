/** How `_crossMove` turns the clicked element's class attribute into a cell:
    split it at spaces, take the first class that starts with `cell_id_`,
    and use that class's last character as the key written by `_doStep`. */
module ClassName {
  import opened Board

  const CellClassPrefix: string := "cell_id_"

  /** `s.split(sep)`: the pieces between separators, empty pieces included. */
  function Split(s: string, sep: char): (r: seq<string>)
    ensures |r| >= 1
    ensures forall t :: t in r ==> sep !in t
  {
    if s == [] then [[]]
    else
      var rest := Split(s[1..], sep);
      if s[0] == sep then [[]] + rest else [[s[0]] + rest[0]] + rest[1..]
  }

  /** `ts.join(sep)`, the inverse of Split. */
  function Join(ts: seq<string>, sep: char): string
    requires |ts| >= 1
  {
    if |ts| == 1 then ts[0] else ts[0] + [sep] + Join(ts[1..], sep)
  }

  lemma {:induction false} JoinWithLongerHead(x: string, ts: seq<string>, sep: char)
    requires |ts| >= 1
    ensures Join([x + ts[0]] + ts[1..], sep) == x + Join(ts, sep)
  {
    var us := [x + ts[0]] + ts[1..];
    if |ts| > 1 {
      assert us[1..] == ts[1..];
    }
  }

  /** Joining the pieces of a split gives back the string. */
  lemma {:induction false} JoinSplit(s: string, sep: char)
    ensures Join(Split(s, sep), sep) == s
  {
    if s != [] {
      var rest := Split(s[1..], sep);
      JoinSplit(s[1..], sep);
      if s[0] == sep {
        assert ([[]] + rest)[1..] == rest;
      } else {
        JoinWithLongerHead([s[0]], rest, sep);
      }
    }
  }

  lemma {:induction false} SplitWithPrefix(t: string, rest: string, sep: char)
    requires sep !in t
    ensures Split(t + rest, sep) == [t + Split(rest, sep)[0]] + Split(rest, sep)[1..]
  {
    if t != [] {
      assert (t + rest)[1..] == t[1..] + rest;
      SplitWithPrefix(t[1..], rest, sep);
      assert [t[0]] + (t[1..] + Split(rest, sep)[0]) == t + Split(rest, sep)[0];
    } else {
      var r := Split(rest, sep);
      assert t + rest == rest;
      assert t + r[0] == r[0];
      assert r == [r[0]] + r[1..];
    }
  }

  /** Splitting the join of pieces that hold no separator gives back the pieces. */
  lemma {:induction false} SplitJoin(ts: seq<string>, sep: char)
    requires |ts| >= 1
    requires forall t :: t in ts ==> sep !in t
    ensures Split(Join(ts, sep), sep) == ts
  {
    if |ts| == 1 {
      SplitWithPrefix(ts[0], [], sep);
      assert ts[0] + [] == ts[0];
    } else {
      var tail := Join(ts[1..], sep);
      assert ts[1] in ts;
      SplitJoin(ts[1..], sep);
      assert ts[0] + [sep] + tail == ts[0] + ([sep] + tail);
      SplitWithPrefix(ts[0], [sep] + tail, sep);
      assert ([sep] + tail)[1..] == tail;
      assert Split([sep] + tail, sep) == [[]] + ts[1..];
      assert ts[0] + [] == ts[0];
      assert ts == [ts[0]] + ts[1..];
    }
  }

  /** `ts.find(el => el.startsWith(prefix))`: the first piece that starts
      with prefix, or none (`undefined`) when no piece does. */
  function FindPrefixed(ts: seq<string>, prefix: string): (r: Option<string>)
    ensures r.None? <==> forall t :: t in ts ==> !(prefix <= t)
    ensures r.Some? ==> exists i :: 0 <= i < |ts| && ts[i] == r.value && prefix <= ts[i] &&
                                    forall j :: 0 <= j < i ==> !(prefix <= ts[j])
  {
    if ts == [] then None
    else if prefix <= ts[0] then assert ts[0] in ts; Some(ts[0])
    else
      var r := FindPrefixed(ts[1..], prefix);
      assert forall t :: t in ts <==> t == ts[0] || t in ts[1..];
      assert r.Some? ==> exists i :: 1 <= i < |ts| && ts[i] == r.value && prefix <= ts[i] &&
                                     forall j :: 0 <= j < i ==> !(prefix <= ts[j]);
      r
  }

  /** The cell id `_crossMove` reads from the list of the clicked element's
      classes: the last character of the first `cell_id_` class. None stands
      for the exception the source catches when no class has that prefix. */
  function CellIdOf(classes: seq<string>): (r: Option<char>)
    ensures r.None? <==> forall t :: t in classes ==> !(CellClassPrefix <= t)
    ensures r.Some? ==>
      exists i :: 0 <= i < |classes| && CellClassPrefix <= classes[i] &&
        r.value == classes[i][|classes[i]| - 1] &&
        forall j :: 0 <= j < i ==> !(CellClassPrefix <= classes[j])
  {
    var found := FindPrefixed(classes, CellClassPrefix);
    if found.None? then None
    else
      var token := found.value;
      assert |token| >= |CellClassPrefix|;
      Some(token[|token| - 1])
  }

  /** The same, from the class attribute split at spaces. */
  function ParseCellId(className: string): Option<char> {
    CellIdOf(Split(className, ' '))
  }

  /** The character '0' + n. */
  function Digit(n: nat): char
    requires n < 10
  {
    ('0' as int + n) as char
  }

  /** The board cell that `_moves[id]` names for a one-character key id:
      '0'..'8' name the nine cells, every other key lies outside them. */
  function CellSlot(id: char): (s: Slot)
    ensures s.Cell? ==> s.index < Cells && Digit(s.index) == id
    ensures forall n :: 0 <= n < Cells && id == Digit(n) ==> s == Cell(n)
  {
    if '0' <= id <= '8' then Cell(id as int - '0' as int) else Outside
  }

  /** For a class list whose first `cell_id_` class is `cell_id_N`, N in
      0..8, the click is on cell N. */
  lemma {:induction false} ParseCellIdOfClasses(ts: seq<string>, i: nat, n: nat)
    requires |ts| >= 1 && i < |ts| && n < Cells
    requires forall t :: t in ts ==> ' ' !in t
    requires ts[i] == CellClassPrefix + [Digit(n)]
    requires forall j :: 0 <= j < i ==> !(CellClassPrefix <= ts[j])
    ensures ParseCellId(Join(ts, ' ')) == Some(Digit(n))
    ensures CellSlot(ParseCellId(Join(ts, ' ')).value) == Cell(n)
  {
    SplitJoin(ts, ' ');
    var r := FindPrefixed(ts, CellClassPrefix);
    assert CellClassPrefix <= ts[i] && ts[i] in ts;
    var k :| 0 <= k < |ts| && ts[k] == r.value && CellClassPrefix <= ts[k] &&
             forall j :: 0 <= j < k ==> !(CellClassPrefix <= ts[j]);
    assert k == i;
  }

  /** The class attribute each cell is rendered with, "cell cell_id_N". */
  function RenderedCellClass(n: nat): string
    requires n < Cells
  {
    "cell " + CellClassPrefix + [Digit(n)]
  }

  /** A click on the cell rendered as "cell cell_id_N" is a move on cell N. */
  lemma {:induction false} ParseRenderedCell(n: nat)
    requires n < Cells
    ensures ParseCellId(RenderedCellClass(n)) == Some(Digit(n))
    ensures CellSlot(Digit(n)) == Cell(n)
  {
    var ts := ["cell", CellClassPrefix + [Digit(n)]];
    assert Join(ts, ' ') == RenderedCellClass(n) by {
      assert ts[1..] == [CellClassPrefix + [Digit(n)]];
    }
    assert !(CellClassPrefix <= ts[0]) by {
      assert |ts[0]| < |CellClassPrefix|;
    }
    ParseCellIdOfClasses(ts, 1, n);
  }
}
