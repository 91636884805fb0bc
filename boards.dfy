/**
 * The `Board` of board.py (and its earlier copy in gol.py): a dense grid of
 * ints loaded from a text pattern, cell lookup with Python indexing, the
 * neighbour lookup with its edge wrapping, and the life rule.
 *
 * `size` is `(columns, rows)`, as the constructor computes it; the neighbour
 * code then compares a column with `size.1` and a row with `size.0`, so it
 * is guaranteed to stay in bounds on a square board with rows of equal
 * length (`IsSquareBoard`), which every operation past loading requires.
 */
module Boards {
  import opened Results
  import opened Python

  /** Why loading a pattern fails: `int(x)` raising ValueError, or `values[0]` raising IndexError. */
  datatype LoadError =
    | InvalidLiteral(line: nat, column: nat, literal: char)
    | NoRows

  // ---------------------------------------------------------------------------
  // Parsing a text pattern
  // ---------------------------------------------------------------------------

  /**
   * `[int(x) for x in text]`: the digit values of `text` in order, or the
   * position of the first character `int` rejects.
   */
  function RowValues(text: string): (r: Result<seq<int>, nat>)
    ensures r.Ok? ==> |r.value| == |text|
    ensures r.Err? ==> r.error < |text|
  {
    if text == [] then Ok([])
    else
      match IntOfChar(text[0])
      case None => Err(0)
      case Some(v) =>
        match RowValues(text[1..])
        case Ok(rest) => Ok([v] + rest)
        case Err(j) => Err(j + 1)
  }

  /**
   * The comprehension succeeds exactly on a string of decimal digits, giving
   * each digit's value in order; otherwise it stops at the first non-digit.
   */
  lemma {:induction false} RowValuesDigits(text: string)
    ensures RowValues(text).Ok? <==> forall j :: 0 <= j < |text| ==> IsDigit(text[j])
    ensures RowValues(text).Ok? ==> forall j :: 0 <= j < |text| ==> IntOfChar(text[j]) == Some(RowValues(text).value[j])
    ensures RowValues(text).Err? ==>
      var k := RowValues(text).error;
      !IsDigit(text[k]) && forall j :: 0 <= j < k ==> IsDigit(text[j])
  {
    if text != [] && IsDigit(text[0]) {
      RowValuesDigits(text[1..]);
      assert forall j :: 1 <= j < |text| ==> text[j] == text[1..][j - 1];
    }
  }

  /**
   * What `_initialize` builds from the lines of the pattern file: one row per
   * line, the digits of the stripped line; the first line (and in it the first
   * character) that is not a digit makes it fail.
   */
  function ParsePattern(lines: seq<string>): (r: Result<seq<seq<int>>, LoadError>)
    ensures r.Ok? <==> forall i :: 0 <= i < |lines| ==> RowValues(Strip(lines[i])).Ok?
    ensures r.Ok? ==> |r.value| == |lines|
    decreases |lines|
  {
    if lines == [] then Ok([])
    else
      var last := |lines| - 1;
      var prefix := lines[..last];
      assert forall i :: 0 <= i < last ==> prefix[i] == lines[i];
      var earlier := ParsePattern(prefix);
      if earlier.Err? then earlier
      else
        var text := Strip(lines[last]);
        var row := RowValues(text);
        if row.Err? then Err(InvalidLiteral(last, row.error, text[row.error]))
        else Ok(earlier.value + [row.value])
  }

  /** Row i of a parsed pattern is what RowValues makes of stripped line i ... */
  lemma {:induction false} ParsePatternRows(lines: seq<string>)
    requires ParsePattern(lines).Ok?
    ensures forall i :: 0 <= i < |lines| ==> RowValues(Strip(lines[i])) == Ok(ParsePattern(lines).value[i])
    decreases |lines|
  {
    if lines != [] {
      var last := |lines| - 1;
      var prefix := lines[..last];
      assert forall i :: 0 <= i < last ==> prefix[i] == lines[i];
      ParsePatternRows(prefix);
      var rows := ParsePattern(lines).value;
      assert forall i :: 0 <= i < last ==> rows[i] == ParsePattern(prefix).value[i];
    }
  }

  /**
   * ... and a failure names the first line that does not parse, the position
   * in its stripped text where RowValues stopped, and the character found there.
   */
  lemma {:induction false} ParsePatternError(lines: seq<string>)
    requires ParsePattern(lines).Err?
    ensures var e := ParsePattern(lines).error;
      && e.InvalidLiteral?
      && e.line < |lines|
      && (forall i :: 0 <= i < e.line ==> RowValues(Strip(lines[i])).Ok?)
      && RowValues(Strip(lines[e.line])) == Err(e.column)
      && e.column < |Strip(lines[e.line])|
      && Strip(lines[e.line])[e.column] == e.literal
    decreases |lines|
  {
    var last := |lines| - 1;
    var prefix := lines[..last];
    assert forall i :: 0 <= i < last ==> prefix[i] == lines[i];
    if ParsePattern(prefix).Err? {
      ParsePatternError(prefix);
    }
  }

  /** Row i of a parsed pattern holds, cell by cell, the digit values of stripped line i. */
  lemma ParsePatternCells(lines: seq<string>)
    requires ParsePattern(lines).Ok?
    ensures var rows := ParsePattern(lines).value;
      && |rows| == |lines|
      && (forall i :: 0 <= i < |lines| ==> |rows[i]| == |Strip(lines[i])|)
      && forall i, j :: 0 <= i < |lines| && 0 <= j < |Strip(lines[i])| ==>
           IntOfChar(Strip(lines[i])[j]) == Some(rows[i][j])
  {
    var rows := ParsePattern(lines).value;
    ParsePatternRows(lines);
    forall i | 0 <= i < |lines|
      ensures |rows[i]| == |Strip(lines[i])|
    {
      assert RowValues(Strip(lines[i])) == Ok(rows[i]);
    }
    forall i, j | 0 <= i < |lines| && 0 <= j < |Strip(lines[i])|
      ensures IntOfChar(Strip(lines[i])[j]) == Some(rows[i][j])
    {
      assert RowValues(Strip(lines[i])) == Ok(rows[i]);
      RowValuesDigits(Strip(lines[i]));
    }
  }

  /** Parsing fails exactly when some stripped line holds a character that is not a decimal digit. */
  lemma ParsePatternFailsOnNonDigit(lines: seq<string>)
    ensures ParsePattern(lines).Err? <==>
      exists i, j :: 0 <= i < |lines| && 0 <= j < |Strip(lines[i])| && !IsDigit(Strip(lines[i])[j])
  {
    if ParsePattern(lines).Err? {
      var e := ParsePattern(lines).error;
      ParsePatternError(lines);
      RowValuesDigits(Strip(lines[e.line]));
      assert !IsDigit(Strip(lines[e.line])[e.column]);
    } else {
      forall i, j | 0 <= i < |lines| && 0 <= j < |Strip(lines[i])|
        ensures IsDigit(Strip(lines[i])[j])
      {
        RowValuesDigits(Strip(lines[i]));
      }
    }
  }

  /** The line a row of single-digit values is written as in a pattern file. */
  function RowLine(row: seq<int>): (line: string)
    requires forall j :: 0 <= j < |row| ==> 0 <= row[j] <= 9
    ensures |line| == |row| + 1
  {
    seq(|row|, j requires 0 <= j < |row| => ('0' as int + row[j]) as char) + "\n"
  }

  /** The lines of a pattern file holding a grid of single-digit values. */
  function PatternLines(values: seq<seq<int>>): (lines: seq<string>)
    requires forall i, j :: 0 <= i < |values| && 0 <= j < |values[i]| ==> 0 <= values[i][j] <= 9
    ensures |lines| == |values|
  {
    seq(|values|, i requires 0 <= i < |values| => RowLine(values[i]))
  }

  /** Writing a grid of single digits out line by line and parsing it gives the grid back. */
  lemma ParsePatternRoundTrip(values: seq<seq<int>>)
    requires forall i, j :: 0 <= i < |values| && 0 <= j < |values[i]| ==> 0 <= values[i][j] <= 9
    ensures ParsePattern(PatternLines(values)) == Ok(values)
  {
    var lines := PatternLines(values);
    forall i | 0 <= i < |values|
      ensures RowValues(Strip(lines[i])) == Ok(values[i])
    {
      var row := values[i];
      var text := seq(|row|, j requires 0 <= j < |row| => ('0' as int + row[j]) as char);
      assert lines[i] == text + "\n";
      StripDigitLine(text);
      RowValuesDigits(text);
      var parsed := RowValues(text).value;
      assert forall j :: 0 <= j < |row| ==> IntOfChar(text[j]) == Some(parsed[j]);
      assert parsed == row;
    }
    assert ParsePattern(lines).Ok?;
    var r := ParsePattern(lines).value;
    ParsePatternRows(lines);
    forall i | 0 <= i < |values|
      ensures r[i] == values[i]
    {
      assert RowValues(Strip(lines[i])) == Ok(r[i]);
    }
    assert r == values;
  }

  // ---------------------------------------------------------------------------
  // The grid and cell lookup
  // ---------------------------------------------------------------------------

  /**
   * The shape every operation past loading relies on: at least one row, all
   * rows as long as there are rows, and `size == (columns, rows)`.
   */
  predicate IsSquareBoard(values: seq<seq<int>>, size: (int, int)) {
    && |values| >= 1
    && size == (|values[0]|, |values|)
    && size.0 == size.1
    && forall row :: 0 <= row < |values| ==> |values[row]| == size.0
  }

  /** A (row, column) pair addressing a cell of the grid with non-negative indices. */
  predicate IsCell(values: seq<seq<int>>, cell: (int, int)) {
    0 <= cell.0 < |values| && 0 <= cell.1 < |values[cell.0]|
  }

  /** Every cell holds 0 or 1. */
  predicate IsBinary(values: seq<seq<int>>) {
    forall row, column :: 0 <= row < |values| && 0 <= column < |values[row]| ==> values[row][column] == 0 || values[row][column] == 1
  }

  /** Every cell holds 0. */
  predicate AllDead(values: seq<seq<int>>) {
    forall row, column :: 0 <= row < |values| && 0 <= column < |values[row]| ==> values[row][column] == 0
  }

  /**
   * `state_of_cell(row, column)`, that is `values[row][column]` with Python's
   * indexing: either index may be negative, down to minus the length.
   */
  function StateOfCell(values: seq<seq<int>>, row: int, column: int): (v: int)
    requires -|values| <= row < |values|
    requires -|values[ResolveIndex(row, |values|)]| <= column < |values[ResolveIndex(row, |values|)]|
    ensures 0 <= row && 0 <= column ==> v == values[row][column]
  {
    var line := values[ResolveIndex(row, |values|)];
    line[ResolveIndex(column, |line|)]
  }

  // ---------------------------------------------------------------------------
  // Neighbours
  // ---------------------------------------------------------------------------

  /**
   * The neighbour index the code computes from an index and an offset of -1, 0
   * or 1 on a side of length n: an index past the end becomes `offset - n`
   * (not `index + offset - n`), anything else is `index + offset`.
   */
  function Wrap(index: int, offset: int, n: int): (r: int)
    requires n >= 1 && 0 <= index < n && -1 <= offset <= 1
    ensures -n <= r < n
  {
    if index + offset > n - 1 then offset - n else index + offset
  }

  /** `values[row][column]` reads the cell at both indices reduced modulo the lengths. */
  lemma StateOfCellIsModulo(values: seq<seq<int>>, row: int, column: int)
    requires -|values| <= row < |values|
    requires -|values[ResolveIndex(row, |values|)]| <= column < |values[ResolveIndex(row, |values|)]|
    ensures var r := row % |values|; var c := column % |values[ResolveIndex(row, |values|)]|;
      && 0 <= r < |values| && 0 <= c < |values[r]|
      && StateOfCell(values, row, column) == values[r][c]
  {
    ResolveIndexIsModulo(row, |values|);
    ResolveIndexIsModulo(column, |values[ResolveIndex(row, |values|)]|);
  }

  /** Offset -1 at index 0 gives -1, which Python reads as the last index. */
  lemma WrapFirstIndexBack(n: int)
    requires n >= 1
    ensures Wrap(0, -1, n) == -1 && ResolveIndex(Wrap(0, -1, n), n) == n - 1
  {
  }

  /** Offset +1 at the last index gives `1 - n`, which Python reads as index 1 (index 0 when n == 1). */
  lemma WrapLastIndexForward(n: int)
    requires n >= 1
    ensures Wrap(n - 1, 1, n) == 1 - n
    ensures ResolveIndex(Wrap(n - 1, 1, n), n) == if n == 1 then 0 else 1
  {
  }

  /**
   * The index the code reads is the toroidal neighbour `(index + offset) % n`
   * in every case but one: offset +1 at the last index of a side of two or more.
   */
  lemma WrapIsModuloExceptLastForward(index: int, offset: int, n: int)
    requires n >= 1 && 0 <= index < n && -1 <= offset <= 1
    ensures ResolveIndex(Wrap(index, offset, n), n) == (index + offset) % n
            <==> !(index == n - 1 && offset == 1 && n >= 2)
  {
    if index + offset == n {
      assert (index + offset) % n == 0;
    } else if index + offset == -1 {
      assert (index + offset) % n == n - 1;
    } else {
      assert (index + offset) % n == index + offset;
    }
  }

  /** The (row, column) offsets in the order the two nested loops visit them, (0, 0) skipped. */
  const Offsets: seq<(int, int)> := [(-1, -1), (-1, 0), (-1, 1), (0, -1), (0, 1), (1, -1), (1, 0), (1, 1)]

  /**
   * How many pairs the two nested offset loops have appended before reaching
   * (rowOffset, columnOffset); `columnOffset == 2` stands for the end of a row.
   */
  function PairsBefore(rowOffset: int, columnOffset: int): int {
    3 * (rowOffset + 1) + (columnOffset + 1) - (if rowOffset > 0 || (rowOffset == 0 && columnOffset > 0) then 1 else 0)
  }

  /** Every pair but (0, 0) sits in Offsets at the position the loops reach it. */
  lemma PairsBeforeIndexesOffsets(rowOffset: int, columnOffset: int)
    requires -1 <= rowOffset <= 1 && -1 <= columnOffset <= 1 && (rowOffset, columnOffset) != (0, 0)
    ensures 0 <= PairsBefore(rowOffset, columnOffset) < |Offsets|
    ensures Offsets[PairsBefore(rowOffset, columnOffset)] == (rowOffset, columnOffset)
  {
  }

  /** Offsets lists each pair of -1, 0, 1 other than (0, 0), each once. */
  lemma OffsetsComplete()
    ensures |Offsets| == 8
    ensures forall dr, dc :: -1 <= dr <= 1 && -1 <= dc <= 1 ==> ((dr, dc) in Offsets <==> (dr, dc) != (0, 0))
    ensures forall k, l :: 0 <= k < l < |Offsets| ==> Offsets[k] != Offsets[l]
  {
  }

  /** The value `_neighbours_of_cell` appends for one pair of offsets. */
  function NeighbourAt(values: seq<seq<int>>, size: (int, int), cell: (int, int), rowOffset: int, columnOffset: int): (v: int)
    requires IsSquareBoard(values, size) && IsCell(values, cell)
    requires -1 <= rowOffset <= 1 && -1 <= columnOffset <= 1
    ensures var row := ResolveIndex(Wrap(cell.0, rowOffset, size.0), size.0);
      var column := ResolveIndex(Wrap(cell.1, columnOffset, size.1), size.1);
      && 0 <= row < |values| && 0 <= column < |values[row]|
      && v == values[row][column]
  {
    StateOfCell(values, Wrap(cell.0, rowOffset, size.0), Wrap(cell.1, columnOffset, size.1))
  }

  /**
   * What `_neighbours_of_cell(cell)` returns: the value at each of the eight
   * offsets, row wrapped against `size.0` and column against `size.1`, in the
   * order of the two nested loops.
   */
  function Neighbours(values: seq<seq<int>>, size: (int, int), cell: (int, int)): (r: seq<int>)
    requires IsSquareBoard(values, size) && IsCell(values, cell)
    ensures |r| == 8
  {
    [ NeighbourAt(values, size, cell, -1, -1), NeighbourAt(values, size, cell, -1, 0), NeighbourAt(values, size, cell, -1, 1),
      NeighbourAt(values, size, cell, 0, -1),                                         NeighbourAt(values, size, cell, 0, 1),
      NeighbourAt(values, size, cell, 1, -1),  NeighbourAt(values, size, cell, 1, 0),  NeighbourAt(values, size, cell, 1, 1) ]
  }

  /** Entry k of the neighbour list is the value at offset pair k of Offsets. */
  lemma NeighboursFollowOffsets(values: seq<seq<int>>, size: (int, int), cell: (int, int))
    requires IsSquareBoard(values, size) && IsCell(values, cell)
    ensures forall k :: 0 <= k < 8 ==>
      Neighbours(values, size, cell)[k] == NeighbourAt(values, size, cell, Offsets[k].0, Offsets[k].1)
  {
  }

  /** On a board with no live cell every neighbour value is 0. */
  lemma DeadBoardHasDeadNeighbours(values: seq<seq<int>>, size: (int, int), cell: (int, int))
    requires IsSquareBoard(values, size) && IsCell(values, cell) && AllDead(values)
    ensures forall k :: 0 <= k < 8 ==> Neighbours(values, size, cell)[k] == 0
  {
    NeighboursFollowOffsets(values, size, cell);
  }

  /** `sum(self._neighbours_of_cell(cell))`, written out over the eight offset pairs. */
  function NeighbourSum(values: seq<seq<int>>, size: (int, int), cell: (int, int)): (r: int)
    requires IsSquareBoard(values, size) && IsCell(values, cell)
    ensures r == Sum(Neighbours(values, size, cell))
  {
    NeighboursFollowOffsets(values, size, cell);
    SumOfEight(Neighbours(values, size, cell));
    NeighbourAt(values, size, cell, -1, -1) + NeighbourAt(values, size, cell, -1, 0) + NeighbourAt(values, size, cell, -1, 1)
    + NeighbourAt(values, size, cell, 0, -1) + NeighbourAt(values, size, cell, 0, 1)
    + NeighbourAt(values, size, cell, 1, -1) + NeighbourAt(values, size, cell, 1, 0) + NeighbourAt(values, size, cell, 1, 1)
  }

  /** On a 0/1 board every neighbour value is 0 or 1 ... */
  lemma NeighboursAreBits(values: seq<seq<int>>, size: (int, int), cell: (int, int))
    requires IsSquareBoard(values, size) && IsCell(values, cell) && IsBinary(values)
    ensures forall k :: 0 <= k < 8 ==> Neighbours(values, size, cell)[k] == 0 || Neighbours(values, size, cell)[k] == 1
  {
    NeighboursFollowOffsets(values, size, cell);
  }

  /** ... so a cell has between 0 and 8 live neighbours. */
  lemma NeighbourSumBounds(values: seq<seq<int>>, size: (int, int), cell: (int, int))
    requires IsSquareBoard(values, size) && IsCell(values, cell) && IsBinary(values)
    ensures 0 <= Sum(Neighbours(values, size, cell)) <= 8
  {
    NeighboursAreBits(values, size, cell);
    SumOfBits(Neighbours(values, size, cell));
  }

  /** The neighbour a true torus of side n gives for one pair of offsets: both indices reduced modulo n. */
  function ToroidalAt(values: seq<seq<int>>, n: int, cell: (int, int), rowOffset: int, columnOffset: int): int
    requires n >= 1 && |values| == n && (forall row :: 0 <= row < n ==> |values[row]| == n)
  {
    values[(cell.0 + rowOffset) % n][(cell.1 + columnOffset) % n]
  }

  /** The eight toroidal neighbours, in the order of Offsets. */
  function ToroidalNeighbours(values: seq<seq<int>>, n: int, cell: (int, int)): (r: seq<int>)
    requires n >= 1 && |values| == n && (forall row :: 0 <= row < n ==> |values[row]| == n)
    ensures |r| == 8
  {
    [ ToroidalAt(values, n, cell, -1, -1), ToroidalAt(values, n, cell, -1, 0), ToroidalAt(values, n, cell, -1, 1),
      ToroidalAt(values, n, cell, 0, -1),                                    ToroidalAt(values, n, cell, 0, 1),
      ToroidalAt(values, n, cell, 1, -1),  ToroidalAt(values, n, cell, 1, 0),  ToroidalAt(values, n, cell, 1, 1) ]
  }

  /** For one pair of offsets, the code reads the toroidal neighbour unless it steps forward off the last row or column. */
  lemma NeighbourAtIsToroidal(values: seq<seq<int>>, size: (int, int), cell: (int, int), rowOffset: int, columnOffset: int)
    requires IsSquareBoard(values, size) && IsCell(values, cell)
    requires -1 <= rowOffset <= 1 && -1 <= columnOffset <= 1
    requires !(cell.0 == size.0 - 1 && rowOffset == 1 && size.0 >= 2)
    requires !(cell.1 == size.1 - 1 && columnOffset == 1 && size.1 >= 2)
    ensures NeighbourAt(values, size, cell, rowOffset, columnOffset) == ToroidalAt(values, size.0, cell, rowOffset, columnOffset)
  {
    WrapIsModuloExceptLastForward(cell.0, rowOffset, size.0);
    WrapIsModuloExceptLastForward(cell.1, columnOffset, size.1);
  }

  /**
   * Away from the last row and the last column (or on a 1 x 1 board) the code
   * finds exactly the toroidal neighbours.
   */
  lemma NeighboursAreToroidalOffLastLine(values: seq<seq<int>>, size: (int, int), cell: (int, int))
    requires IsSquareBoard(values, size) && IsCell(values, cell)
    requires size.0 == 1 || (cell.0 < size.0 - 1 && cell.1 < size.1 - 1)
    ensures Neighbours(values, size, cell) == ToroidalNeighbours(values, size.0, cell)
  {
    NeighbourAtIsToroidal(values, size, cell, -1, -1);
    NeighbourAtIsToroidal(values, size, cell, -1, 0);
    NeighbourAtIsToroidal(values, size, cell, -1, 1);
    NeighbourAtIsToroidal(values, size, cell, 0, -1);
    NeighbourAtIsToroidal(values, size, cell, 0, 1);
    NeighbourAtIsToroidal(values, size, cell, 1, -1);
    NeighbourAtIsToroidal(values, size, cell, 1, 0);
    NeighbourAtIsToroidal(values, size, cell, 1, 1);
  }

  /** On a 1 x 1 board the sole cell is all eight of its own neighbours. */
  lemma OneByOneNeighboursAreSelf(values: seq<seq<int>>, size: (int, int))
    requires IsSquareBoard(values, size) && size.0 == 1
    ensures Neighbours(values, size, (0, 0)) == [values[0][0], values[0][0], values[0][0], values[0][0],
                                                  values[0][0], values[0][0], values[0][0], values[0][0]]
  {
    NeighboursFollowOffsets(values, size, (0, 0));
  }

  /** The first neighbour of the top-left cell is the bottom-right cell. */
  lemma CornerSeesOppositeCorner(values: seq<seq<int>>, size: (int, int))
    requires IsSquareBoard(values, size)
    ensures Neighbours(values, size, (0, 0))[0] == values[size.1 - 1][size.0 - 1]
  {
    NeighboursFollowOffsets(values, size, (0, 0));
  }

  // ---------------------------------------------------------------------------
  // The life rule
  // ---------------------------------------------------------------------------

  /** The branches of `next_state_of_cell`, given the cell's value and its neighbour sum. */
  function LifeRule(cellValue: int, neighbourSum: int): (next: int)
    ensures next == 0 || next == 1
  {
    if cellValue == 1 && (neighbourSum == 2 || neighbourSum == 3) then 1
    else if cellValue == 0 && neighbourSum == 3 then 1
    else 0
  }

  /**
   * For a 0/1 cell the rule is Conway's B3/S23: alive next exactly with three
   * live neighbours, or with two when already alive; any other cell value dies.
   */
  lemma LifeRuleIsB3S23(cellValue: int, neighbourSum: int)
    ensures cellValue == 0 || cellValue == 1 ==>
      (LifeRule(cellValue, neighbourSum) == 1 <==> neighbourSum == 3 || (neighbourSum == 2 && cellValue == 1))
    ensures cellValue != 0 && cellValue != 1 ==> LifeRule(cellValue, neighbourSum) == 0
  {
  }

  /** `next_state_of_cell(cell)`: the life rule on the cell's value and the sum of its neighbours. */
  function NextStateOfCell(values: seq<seq<int>>, size: (int, int), cell: (int, int)): (next: int)
    requires IsSquareBoard(values, size) && IsCell(values, cell)
    ensures next == 0 || next == 1
  {
    LifeRule(StateOfCell(values, cell.0, cell.1), NeighbourSum(values, size, cell))
  }

  /** A dead cell none of whose neighbours is alive stays dead. */
  lemma DeadCellInDeadNeighbourhoodStaysDead(values: seq<seq<int>>, size: (int, int), cell: (int, int))
    requires IsSquareBoard(values, size) && IsCell(values, cell)
    requires values[cell.0][cell.1] == 0
    requires forall k :: 0 <= k < 8 ==> Neighbours(values, size, cell)[k] == 0
    ensures NextStateOfCell(values, size, cell) == 0
  {
    SumOfZeros(Neighbours(values, size, cell));
  }

  /** A live cell with no live neighbour dies. */
  lemma IsolatedCellDies(values: seq<seq<int>>, size: (int, int), cell: (int, int))
    requires IsSquareBoard(values, size) && IsCell(values, cell)
    requires values[cell.0][cell.1] == 1
    requires forall k :: 0 <= k < 8 ==> Neighbours(values, size, cell)[k] == 0
    ensures NextStateOfCell(values, size, cell) == 0
  {
    SumOfZeros(Neighbours(values, size, cell));
  }

  /**
   * The wrap differs from a torus in what a cell sees: on this 3 x 3 vertical
   * line, cell (1, 2) reads column 1 in place of column 0 to its right, counts
   * six live neighbours instead of three, and stays dead where a torus would
   * give birth.
   */
  lemma WrapChangesTheNextState()
    ensures var values := [[0, 1, 0], [0, 1, 0], [0, 1, 0]];
      && Sum(Neighbours(values, (3, 3), (1, 2))) == 6
      && Sum(ToroidalNeighbours(values, 3, (1, 2))) == 3
      && NextStateOfCell(values, (3, 3), (1, 2)) == 0
      && LifeRule(values[1][2], Sum(ToroidalNeighbours(values, 3, (1, 2)))) == 1
  {
    var values := [[0, 1, 0], [0, 1, 0], [0, 1, 0]];
    NeighboursFollowOffsets(values, (3, 3), (1, 2));
    assert Neighbours(values, (3, 3), (1, 2)) == [1, 0, 1, 1, 1, 1, 0, 1];
    assert ToroidalNeighbours(values, 3, (1, 2)) == [1, 0, 0, 1, 0, 1, 0, 0];
    SumOfEight([1, 0, 1, 1, 1, 1, 0, 1]);
    SumOfEight([1, 0, 0, 1, 0, 1, 0, 0]);
  }

  // ---------------------------------------------------------------------------
  // The Board object
  // ---------------------------------------------------------------------------

  class Board {
    /** The grid, one list of ints per row. */
    var values: seq<seq<int>>
    /** `(columns, rows)`, fixed at construction. */
    var size: (int, int)

    /** The size computation of `__init__`, once the rows are read. */
    constructor (rows: seq<seq<int>>)
      requires |rows| >= 1
      ensures values == rows
      ensures size == (|rows[0]|, |rows|)
    {
      values := rows;
      size := (|rows[0]|, |rows|);
    }

    /** `_initialize`: read the pattern line by line, appending one row per line. */
    static method Initialize(lines: seq<string>) returns (r: Result<seq<seq<int>>, LoadError>)
      ensures r == ParsePattern(lines)
    {
      var boardValues: seq<seq<int>> := [];
      for i := 0 to |lines|
        invariant ParsePattern(lines[..i]) == Ok(boardValues)
      {
        assert lines[..i + 1][..i] == lines[..i];
        var text := Strip(lines[i]);
        var rowValues := RowValues(text);
        if rowValues.Err? {
          r := Err(InvalidLiteral(i, rowValues.error, text[rowValues.error]));
          assert ParsePattern(lines[..i + 1]) == r;
          ParsePatternPrefixFails(lines, i + 1);
          return;
        }
        boardValues := boardValues + [rowValues.value];
      }
      assert lines[..|lines|] == lines;
      r := Ok(boardValues);
    }

    /**
     * `Board(boardfilename)`: the rows parsed from the pattern and
     * `size == (len(values[0]), len(values))`; a pattern with no lines fails
     * at `values[0]`.
     */
    static method Load(lines: seq<string>) returns (r: Result<Board, LoadError>)
      ensures ParsePattern(lines).Err? ==> r.Err? && r.error == ParsePattern(lines).error
      ensures ParsePattern(lines).Ok? && lines == [] ==> r.Err? && r.error == NoRows
      ensures r.Ok? <==> ParsePattern(lines).Ok? && lines != []
      ensures r.Ok? ==>
        && fresh(r.value)
        && r.value.values == ParsePattern(lines).value
        && r.value.size == (|r.value.values[0]|, |lines|)
    {
      var rows := Initialize(lines);
      if rows.Err? {
        return Err(rows.error);
      }
      if |rows.value| == 0 {
        return Err(NoRows);
      }
      var board := new Board(rows.value);
      return Ok(board);
    }

    predicate Square()
      reads this
    {
      IsSquareBoard(values, size)
    }

    /**
     * `_neighbours_of_cell(cell)`: two nested loops over the row and column
     * offsets, skipping (0, 0), appending the value at the wrapped indices.
     */
    method NeighboursOfCell(cell: (int, int)) returns (neighbours: seq<int>)
      requires Square() && IsCell(values, cell)
      ensures neighbours == Neighbours(values, size, cell)
    {
      var grid, dimensions := values, size;
      ghost var all := Neighbours(grid, dimensions, cell);
      neighbours := [];
      for rowAddition := -1 to 2
        invariant |neighbours| == PairsBefore(rowAddition, -1)
        invariant neighbours == all[..|neighbours|]
      {
        for columnAddition := -1 to 2
          invariant |neighbours| == PairsBefore(rowAddition, columnAddition)
          invariant neighbours == all[..|neighbours|]
        {
          if !(rowAddition == 0 && columnAddition == 0) {
            var neighbourColumn: int;
            if cell.1 + columnAddition > dimensions.1 - 1 {
              neighbourColumn := columnAddition - dimensions.1;
            } else {
              neighbourColumn := cell.1 + columnAddition;
            }
            var neighbourRow: int;
            if cell.0 + rowAddition > dimensions.0 - 1 {
              neighbourRow := rowAddition - dimensions.0;
            } else {
              neighbourRow := cell.0 + rowAddition;
            }
            assert neighbourRow == Wrap(cell.0, rowAddition, dimensions.0);
            assert neighbourColumn == Wrap(cell.1, columnAddition, dimensions.1);
            NeighboursPrefixGrows(grid, dimensions, cell, rowAddition, columnAddition);
            neighbours := neighbours + [StateOfCell(grid, neighbourRow, neighbourColumn)];
          }
        }
      }
      assert all[..8] == all;
    }
  }

  /** The prefix of the neighbour list up to an offset pair, followed by that pair's neighbour, is the next prefix. */
  lemma NeighboursPrefixGrows(values: seq<seq<int>>, size: (int, int), cell: (int, int), rowOffset: int, columnOffset: int)
    requires IsSquareBoard(values, size) && IsCell(values, cell)
    requires -1 <= rowOffset <= 1 && -1 <= columnOffset <= 1 && (rowOffset, columnOffset) != (0, 0)
    ensures var all, m := Neighbours(values, size, cell), PairsBefore(rowOffset, columnOffset);
      && 0 <= m < |all|
      && all[..m] + [NeighbourAt(values, size, cell, rowOffset, columnOffset)] == all[..m + 1]
  {
    var all, m := Neighbours(values, size, cell), PairsBefore(rowOffset, columnOffset);
    NeighboursFollowOffsets(values, size, cell);
    PairsBeforeIndexesOffsets(rowOffset, columnOffset);
    TakeOneMore(all, m);
  }

  /** Once a prefix of the lines fails to parse, the whole pattern fails with the same error. */
  lemma {:induction false} ParsePatternPrefixFails(lines: seq<string>, i: nat)
    requires i <= |lines| && ParsePattern(lines[..i]).Err?
    ensures ParsePattern(lines) == ParsePattern(lines[..i])
    decreases |lines| - i
  {
    if i < |lines| {
      assert lines[..i + 1][..i] == lines[..i];
      ParsePatternPrefixFails(lines, i + 1);
    } else {
      assert lines[..i] == lines;
    }
  }
}
