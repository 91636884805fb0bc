/**
 * A fixed pattern run through the model: the blinker, three live cells in a
 * row, in the middle of a 5 x 5 board. Stepping forward off the last row or
 * column reads row 1 or column 1 where a torus would read row 0 or column 0;
 * that raises a few neighbour sums along those edges to 2, which changes no
 * cell's outcome, so the blinker oscillates with period 2 as in Conway's game.
 */
module Patterns {
  import opened Python
  import opened Boards
  import opened Games

  /** The blinker lying along row 2, and the same blinker standing in column 2. */
  const Horizontal: seq<seq<int>> := [
    [0, 0, 0, 0, 0],
    [0, 0, 0, 0, 0],
    [0, 1, 1, 1, 0],
    [0, 0, 0, 0, 0],
    [0, 0, 0, 0, 0]]
  const Vertical: seq<seq<int>> := [
    [0, 0, 0, 0, 0],
    [0, 0, 1, 0, 0],
    [0, 0, 1, 0, 0],
    [0, 0, 1, 0, 0],
    [0, 0, 0, 0, 0]]

  /** The cells of the horizontal blinker's next generation in rows 0 to 2, by case analysis ... */
  lemma HorizontalUpperCell(row: int, column: int)
    requires 0 <= row < 3 && 0 <= column < 5
    ensures NextStateOfCell(Horizontal, (5, 5), (row, column)) == Vertical[row][column]
  {
  }

  /** ... and in rows 3 and 4. */
  lemma HorizontalLowerCell(row: int, column: int)
    requires 3 <= row < 5 && 0 <= column < 5
    ensures NextStateOfCell(Horizontal, (5, 5), (row, column)) == Vertical[row][column]
  {
  }

  /** Every cell of the horizontal blinker's next generation is the matching cell of the vertical one. */
  lemma HorizontalCell(row: int, column: int)
    requires 0 <= row < 5 && 0 <= column < 5
    ensures NextStateOfCell(Horizontal, (5, 5), (row, column)) == Vertical[row][column]
  {
    if row < 3 {
      HorizontalUpperCell(row, column);
    } else {
      HorizontalLowerCell(row, column);
    }
  }

  /** The cells of the vertical blinker's next generation in rows 0 to 2 ... */
  lemma VerticalUpperCell(row: int, column: int)
    requires 0 <= row < 3 && 0 <= column < 5
    ensures NextStateOfCell(Vertical, (5, 5), (row, column)) == Horizontal[row][column]
  {
  }

  /** ... and in rows 3 and 4. */
  lemma VerticalLowerCell(row: int, column: int)
    requires 3 <= row < 5 && 0 <= column < 5
    ensures NextStateOfCell(Vertical, (5, 5), (row, column)) == Horizontal[row][column]
  {
  }

  /** Every cell of the vertical blinker's next generation is the matching cell of the horizontal one. */
  lemma VerticalCell(row: int, column: int)
    requires 0 <= row < 5 && 0 <= column < 5
    ensures NextStateOfCell(Vertical, (5, 5), (row, column)) == Horizontal[row][column]
  {
    if row < 3 {
      VerticalUpperCell(row, column);
    } else {
      VerticalLowerCell(row, column);
    }
  }

  lemma HorizontalBecomesVertical()
    ensures Generation(Horizontal, (5, 5)) == Vertical
  {
    var h, v := Horizontal, Vertical;
    assert IsSquareBoard(h, (5, 5));
    assert |v| == 5 && forall row :: 0 <= row < 5 ==> |v[row]| == 5;
    assert forall row, column :: 0 <= row < 5 && 0 <= column < 5 ==>
             v[row][column] == NextStateOfCell(h, (5, 5), (row, column)) by {
      forall row, column | 0 <= row < 5 && 0 <= column < 5
        ensures NextStateOfCell(h, (5, 5), (row, column)) == v[row][column]
      {
        HorizontalCell(row, column);
      }
    }
    GenerationByCells(h, (5, 5), v);
  }

  lemma VerticalBecomesHorizontal()
    ensures Generation(Vertical, (5, 5)) == Horizontal
  {
    var h, v := Horizontal, Vertical;
    assert IsSquareBoard(v, (5, 5));
    assert |h| == 5 && forall row :: 0 <= row < 5 ==> |h[row]| == 5;
    assert forall row, column :: 0 <= row < 5 && 0 <= column < 5 ==>
             h[row][column] == NextStateOfCell(v, (5, 5), (row, column)) by {
      forall row, column | 0 <= row < 5 && 0 <= column < 5
        ensures NextStateOfCell(v, (5, 5), (row, column)) == h[row][column]
      {
        VerticalCell(row, column);
      }
    }
    GenerationByCells(v, (5, 5), h);
  }

  /** One round turns the blinker upright, the next lays it flat again. */
  lemma BlinkerHasPeriodTwo()
    ensures Iterate(Horizontal, (5, 5), 1) == Vertical
    ensures Iterate(Horizontal, (5, 5), 2) == Horizontal
  {
    HorizontalBecomesVertical();
    VerticalBecomesHorizontal();
    assert Iterate(Horizontal, (5, 5), 1) == Generation(Horizontal, (5, 5));
  }
}
