/**
 * The `Game` of game.py (and its earlier copy in gol.py): the generation step
 * that builds a fresh grid from the current one, and the round loop of `run`.
 */
module Games {
  import opened Python
  import opened Boards

  /**
   * The grid `simulate_next_round` returns: `size.1` rows of `size.0` cells,
   * each the next state of that cell on the unchanged current grid.
   */
  function Generation(values: seq<seq<int>>, size: (int, int)): (next: seq<seq<int>>)
    requires IsSquareBoard(values, size)
    ensures IsSquareBoard(next, size)
  {
    seq(size.1, row => seq(size.0, column => NextCell(values, size, row, column)))
  }

  /** The next state of cell (row, column) of a square grid; 0 for a pair off the grid, which no caller passes. */
  function NextCell(values: seq<seq<int>>, size: (int, int), row: int, column: int): (next: int)
    ensures next == 0 || next == 1
  {
    if IsSquareBoard(values, size) && 0 <= row < size.1 && 0 <= column < size.0
    then NextStateOfCell(values, size, (row, column))
    else 0
  }

  /** The grid after the given number of generations. */
  function Iterate(values: seq<seq<int>>, size: (int, int), rounds: nat): (r: seq<seq<int>>)
    requires IsSquareBoard(values, size)
    ensures IsSquareBoard(r, size)
  {
    if rounds == 0 then values else Generation(Iterate(values, size, rounds - 1), size)
  }

  /**
   * How many times `for round in range(rounds_to_simulate)` runs its body: the
   * least natural number not below `rounds_to_simulate`.
   */
  function RoundCount(roundsToSimulate: int): (n: nat)
    ensures n >= roundsToSimulate
    ensures n > 0 ==> n == roundsToSimulate
  {
    if roundsToSimulate > 0 then roundsToSimulate else 0
  }

  /** Cell (row, column) of the next generation is the next state of that cell on the current grid. */
  lemma GenerationCell(values: seq<seq<int>>, size: (int, int), row: int, column: int)
    requires IsSquareBoard(values, size) && 0 <= row < size.1 && 0 <= column < size.0
    ensures Generation(values, size)[row][column] == NextStateOfCell(values, size, (row, column))
  {
  }

  /** A row of `size.0` cells, each the next state of its cell in row `row`, is that row of the next generation. */
  lemma GenerationRowByCells(values: seq<seq<int>>, size: (int, int), row: int, cells: seq<int>)
    requires IsSquareBoard(values, size) && 0 <= row < size.1
    requires |cells| == size.0
    requires forall column :: 0 <= column < size.0 ==> cells[column] == NextStateOfCell(values, size, (row, column))
    ensures cells == Generation(values, size)[row]
  {
    forall column | 0 <= column < size.0
      ensures cells[column] == Generation(values, size)[row][column]
    {
      GenerationCell(values, size, row, column);
    }
  }

  /** A grid of the shape `size` whose every cell is that cell's next state is the next generation. */
  lemma GenerationByCells(values: seq<seq<int>>, size: (int, int), next: seq<seq<int>>)
    requires IsSquareBoard(values, size)
    requires |next| == size.1 && forall row :: 0 <= row < size.1 ==> |next[row]| == size.0
    requires forall row, column :: 0 <= row < size.1 && 0 <= column < size.0 ==>
               next[row][column] == NextStateOfCell(values, size, (row, column))
    ensures next == Generation(values, size)
  {
    forall row | 0 <= row < size.1
      ensures next[row] == Generation(values, size)[row]
    {
      GenerationRowByCells(values, size, row, next[row]);
    }
  }

  /** A board with no live cell is a fixed point of the generation step ... */
  lemma AllDeadStaysDead(values: seq<seq<int>>, size: (int, int))
    requires IsSquareBoard(values, size) && AllDead(values)
    ensures Generation(values, size) == values
  {
    forall row, column | 0 <= row < size.1 && 0 <= column < size.0
      ensures values[row][column] == NextStateOfCell(values, size, (row, column))
    {
      DeadBoardHasDeadNeighbours(values, size, (row, column));
      DeadCellInDeadNeighbourhoodStaysDead(values, size, (row, column));
    }
    GenerationByCells(values, size, values);
  }

  /** ... so any number of rounds leaves it as it is. */
  lemma {:induction false} AllDeadStaysDeadForever(values: seq<seq<int>>, size: (int, int), rounds: nat)
    requires IsSquareBoard(values, size) && AllDead(values)
    ensures Iterate(values, size, rounds) == values
  {
    if rounds > 0 {
      AllDeadStaysDeadForever(values, size, rounds - 1);
      AllDeadStaysDead(values, size);
    }
  }

  /** Every cell of a generation is 0 or 1, whatever digits the grid it came from held. */
  lemma GenerationIsBinary(values: seq<seq<int>>, size: (int, int))
    requires IsSquareBoard(values, size)
    ensures IsBinary(Generation(values, size))
  {
    var next := Generation(values, size);
    forall row, column | 0 <= row < |next| && 0 <= column < |next[row]|
      ensures next[row][column] == 0 || next[row][column] == 1
    {
      GenerationCell(values, size, row, column);
    }
  }

  /** So after one round or more only zeros and ones are left. */
  lemma RoundsLeaveOnlyBits(values: seq<seq<int>>, size: (int, int), rounds: nat)
    requires IsSquareBoard(values, size) && rounds >= 1
    ensures IsBinary(Iterate(values, size, rounds))
  {
    GenerationIsBinary(Iterate(values, size, rounds - 1), size);
  }

  class Game {
    var board: Board
    /** The round being simulated; diagnostics only. */
    var round: int
    var roundsToSimulate: int

    /** `Game.__init__` past the display set-up: the board, the round budget, round 0. */
    constructor (board: Board, roundsToSimulate: int)
      ensures this.board == board && this.roundsToSimulate == roundsToSimulate && round == 0
      ensures board.Square() ==> Valid()
    {
      this.board := board;
      this.roundsToSimulate := roundsToSimulate;
      round := 0;
    }

    ghost predicate Valid()
      reads this, board
    {
      board.Square()
    }

    /**
     * `simulate_next_round`: a fresh `size.1 x size.0` grid of zeros, filled
     * row by row; the current grid is only read.
     */
    method SimulateNextRound() returns (newBoard: seq<seq<int>>)
      requires Valid()
      ensures newBoard == Generation(board.values, board.size)
    {
      var values, size := board.values, board.size;
      ghost var target := Generation(values, size);
      newBoard := seq(size.1, _ => seq(size.0, _ => 0));
      for row := 0 to size.0
        invariant |newBoard| == size.1
        invariant forall r :: 0 <= r < size.1 ==> |newBoard[r]| == size.0
        invariant forall r :: 0 <= r < row ==> newBoard[r] == target[r]
      {
        for column := 0 to size.1
          invariant |newBoard| == size.1
          invariant forall r :: 0 <= r < size.1 ==> |newBoard[r]| == size.0
          invariant forall r :: 0 <= r < row ==> newBoard[r] == target[r]
          invariant forall c :: 0 <= c < column ==> newBoard[row][c] == target[row][c]
        {
          GenerationCell(values, size, row, column);
          newBoard := newBoard[row := newBoard[row][column := NextStateOfCell(values, size, (row, column))]];
        }
        assert newBoard[row] == target[row];
      }
      assert newBoard == target;
    }

    /**
     * `run` without the drawing: for each round number in `range(rounds_to_simulate)`,
     * record it in `round` and replace the board's values by the next generation.
     * The ghost result lists the values `round` took, in order.
     */
    method Run() returns (ghost roundsSeen: seq<int>)
      requires Valid()
      modifies this`round, board`values
      ensures Valid() && board.size == old(board.size)
      ensures board.values == Iterate(old(board.values), board.size, RoundCount(roundsToSimulate))
      ensures |roundsSeen| == RoundCount(roundsToSimulate) && forall i :: 0 <= i < |roundsSeen| ==> roundsSeen[i] == i
      ensures round == if roundsToSimulate > 0 then roundsToSimulate - 1 else old(round)
    {
      roundsSeen := [];
      ghost var start, size := board.values, board.size;
      for r := 0 to RoundCount(roundsToSimulate)
        invariant board.size == size && Valid()
        invariant board.values == Iterate(start, size, r)
        invariant |roundsSeen| == r && forall i :: 0 <= i < r ==> roundsSeen[i] == i
        invariant round == if r > 0 then r - 1 else old(round)
      {
        round := r;
        roundsSeen := roundsSeen + [round];
        ghost var previous := board.values;
        assert IsSquareBoard(previous, size);
        var next := SimulateNextRound();
        assert next == Iterate(start, size, r + 1);
        board.values := next;
      }
    }
  }
}
