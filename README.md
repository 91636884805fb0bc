# Game of Life: the board and the generation step

This project models the simulation core of a small Python Game of Life:

- the `Board` class of board.py, with its earlier copy in gol.py;
- the `Game` class of game.py, also with its earlier copy in gol.py.

The model covers five pieces:

- **Loading.** A board is loaded from a text pattern. Each line is stripped with `str.strip()` and becomes one row. Each character of the line becomes `int(x)`. The size is recorded as `size = (columns, rows)`.
- **Cell lookup.** `state_of_cell(row, column)` is `values[row][column]`, with Python's negative indexing.
- **Neighbour collection.** `_neighbours_of_cell` runs two nested loops over the offsets -1, 0 and 1, skipping (0, 0). It wraps an index that runs past the end as `offset - size`, and lets Python's negative indexing handle an index of -1.
- **The life rule.** `next_state_of_cell` applies the rule to a cell's value and the sum of its neighbours.
- **The generation step.** `simulate_next_round` builds a fresh grid from a frozen snapshot of the current one. `run` repeats that step `rounds_to_simulate` times.

The model is split into five modules:

| module | contents |
|---|---|
| `Python` (python.dfy) | the built-ins the code relies on, written out: `str.strip()` with Python's whitespace set, `int` on one character, `sum`, and negative list indexing |
| `Boards` (boards.dfy) | the parser, cell lookup, the wrap, the neighbour list, the life rule, and the `Board` class |
| `Games` (games.dfy) | the generation function, its iteration, and the `Game` class |
| `Patterns` (patterns.dfy) | the blinker, proved to have period 2 on a 5 x 5 board |
| `Results` (results.dfy) | `Option` and `Result` |

Pure parts of the code are module-level functions of `(values, size)`: `state_of_cell`, the life rule, and what the neighbour loop returns. The loops are methods proved against those functions:

- `Board.Initialize` (the `_initialize` loop);
- `Board.NeighboursOfCell` (the `_neighbours_of_cell` loops);
- `Game.SimulateNextRound` (the `simulate_next_round` loops);
- `Game.Run` (the `run` loop).

The operations run only on square boards: `IsSquareBoard` requires at least one row, every row of length `size.0`, and `size.0 == size.1`. The code needs this because it compares a column with `size[1]` and a row with `size[0]` (board.py:84-92). It also lets the row loop of `simulate_next_round` run over `size[0]` (game.py:46-47). On other shapes the code goes wrong in different ways, and the model excludes them all:

- A rectangular grid that is not square indexes out of range. For 2 rows of 3 cells, the neighbour lookup of cell (1, 0) reads row 2; for 3 rows of 2 cells, that of cell (0, 1) reads `values[-1][2]`.
- Ragged rows can index out of range, or read cells other than the wrapped neighbours without an error. For the lines `00` and `000`, `values[1][-1]` reads the third cell of row 1.
- A grid whose first stripped line is empty has `size[0] == 0`. `simulate_next_round` then returns rows with no cells, and `run` finishes without an error, losing every live cell.

gol.py repeats the same logic, shifted in the file:

- board.py:16-97 is gol.py:54-135.
- game.py:30-53 is gol.py:157-181.

The only difference in the modelled part is in `run`. gol.py draws the board once after the loop and waits for input, where game.py draws it after every round. Drawing is not modelled, so one model serves both files.

### Where the code differs from a textbook Game of Life

The model follows the code in each of these cases.

- **Wrapping is not toroidal.** On a torus, neighbour indices wrap modulo the side. The code replaces an index past the end by `offset - n` rather than `index + offset - n`. Stepping forward from the last row or column therefore gives `1 - n`, which on a side of two or more Python reads as index 1, not 0.
  - `Boards.WrapIsModuloExceptLastForward` proves this is the only case that differs from modulo arithmetic.
  - `Boards.NeighboursAreToroidalOffLastLine` proves that away from the last row and column the neighbours are the toroidal ones.
  - `Boards.WrapChangesTheNextState` gives a 3 x 3 board where the difference decides whether a cell is born.
  - The model keeps the code's wrap as written.
- **Digits other than 0 and 1 load.** A Game of Life cell is 0 or 1, but `int(x)` accepts any decimal digit. The life rule then treats any cell value other than 1 as dead, and other than 0 as never born (`Boards.LifeRuleIsB3S23`). Such a value still counts at full weight in its neighbours' sums. After one round only zeros and ones are left (`Games.RoundsLeaveOnlyBits`).
- **Ragged rows and blank lines are not rejected.** The loader does not check the row lengths. A blank line becomes an empty row. The shape requirement appears only as the precondition of the later operations.

## Model

| member | source | states |
|---|---|---|
| `Python.Strip` | board.py:32 | `line.strip()` is no longer than the line; `Python.StripIsSlice` gives its full characterisation |
| `Python.StripIsSlice` | board.py:32 | `line.strip()` is one contiguous slice of the line; everything cut from either end is whitespace; the result neither starts nor ends with whitespace |
| `Python.StripTrimsBothEnds` | board.py:32 | a stripped line has no whitespace at its first or last position |
| `Python.StripIdempotent` | board.py:32 | stripping twice gives the same string as stripping once |
| `Python.StripDigitLine` | board.py:31-32 | a line of digits followed by its line break strips to the digits |
| `Python.IntOfChar` | board.py:32 | `int(x)` of one character succeeds exactly on a decimal digit, with its value 0..9 |
| `Python.ResolveIndex` | board.py:48 | a Python index in `[-n, n)` resolves to a position in `[0, n)`; a non-negative index resolves to itself |
| `Python.ResolveIndexIsModulo` | board.py:48 | a Python index in `[-n, n)` reads position `i mod n` |
| `Python.Sum` | board.py:63 | `sum(s)` has no contract of its own. It is the first element plus the sum of the rest. `Python.SumOfEight`, `Python.SumOfBits` and `Python.SumOfZeros` state what the model uses |
| `Python.SumOfEight` | board.py:63 | the sum of a list of eight is its eight entries added up |
| `Python.SumOfBits` | board.py:63 | a list of zeros and ones sums to between 0 and its length |
| `Python.SumOfZeros` | board.py:66 | a list of zeros sums to 0 |
| `Boards.RowValues` | board.py:32 | the comprehension yields one value per character, or fails at a position inside the text |
| `Boards.RowValuesDigits` | board.py:32 | the comprehension succeeds if and only if every character is a digit, with value j being the value of digit j; on failure, the position is the first non-digit |
| `Boards.ParsePattern` | board.py:27-34 | loading succeeds if and only if every stripped line parses, and then yields exactly one row per line |
| `Boards.ParsePatternRows` | board.py:31-33 | row i of a loaded pattern is the parse of stripped line i |
| `Boards.ParsePatternError` | board.py:31-32 | a failure names the first line that does not parse, the first non-digit position in its stripped text, and the character there |
| `Boards.ParsePatternCells` | gol.py:68-71 | row i has as many cells as stripped line i has characters, and cell (i, j) is the digit value of character j |
| `Boards.ParsePatternFailsOnNonDigit` | board.py:32 | loading fails if and only if some stripped line holds a non-digit |
| `Boards.ParsePatternRoundTrip` | board.py:27-34 | writing a grid of single digits out line by line and loading it gives that grid back |
| `Boards.ParsePatternPrefixFails` | board.py:31-33 | once a prefix of the lines fails to load, the whole file fails with the same error |
| `Boards.Board.constructor` | board.py:16-18 | `values` is the loaded rows and `size == (len(values[0]), len(values))` |
| `Boards.Board.Initialize` | board.py:27-34 | the appending loop returns exactly `ParsePattern(lines)`: the rows, or the first `int` failure |
| `Boards.Board.Load` | board.py:10-34 | a board is built if and only if the lines load and there is at least one; it is fresh, holds the loaded rows and has `size == (columns, rows)`; otherwise the load error, or `NoRows` for an empty file |
| `Boards.StateOfCell` | board.py:38-48 | for non-negative indices, the value is `values[row][column]` |
| `Boards.StateOfCellIsModulo` | board.py:48 | for any index Python accepts, the value is the cell at both indices reduced modulo the lengths, which lie in range |
| `Boards.Wrap` | board.py:84-92 | on a side of length n, the index computed for an offset of -1, 0 or 1 lies in `[-n, n)`, so the lookup never fails |
| `Boards.WrapFirstIndexBack` | board.py:89-92 | offset -1 at index 0 gives -1, which resolves to n - 1 |
| `Boards.WrapLastIndexForward` | gol.py:122-130 | offset +1 at the last index gives `1 - n`, which resolves to 1 (to 0 when n == 1) |
| `Boards.WrapIsModuloExceptLastForward` | board.py:84-92 | the index read is `(index + offset) mod n` if and only if the step is not +1 from the last index on a side of two or more |
| `Boards.PairsBeforeIndexesOffsets` | board.py:81-83 | the nested loops reach offset pair (r, c) after exactly as many appends as its position in `Offsets` |
| `Boards.OffsetsComplete` | board.py:81-83 | the loops visit each pair of -1, 0, 1 except (0, 0), each exactly once: eight pairs |
| `Boards.Neighbours` | board.py:78 | the neighbour list has exactly 8 entries |
| `Boards.NeighboursFollowOffsets` | board.py:81-96 | entry k of the neighbour list is the value at the wrapped indices of offset pair k |
| `Boards.NeighbourAt` | board.py:84-96 | the value appended for one offset pair is the grid cell at the two wrapped and resolved indices, both in range |
| `Boards.NeighboursPrefixGrows` | board.py:94-96 | appending the value for the next offset pair extends the list built so far to the next prefix of the full neighbour list |
| `Boards.Board.NeighboursOfCell` | board.py:71-97 | the two nested loops, with the source's own wrap branches, return exactly the value at each offset's wrapped indices, in loop order |
| `Boards.DeadBoardHasDeadNeighbours` | board.py:80-97 | on a board of zeros, all eight neighbours are 0 |
| `Boards.NeighbourSum` | board.py:60-63 | the neighbour sum the rule uses, written out over the eight offset pairs, is `sum(_neighbours_of_cell(cell))` |
| `Boards.NeighboursAreBits` | board.py:80-97 | on a 0/1 board every neighbour value is 0 or 1 |
| `Boards.NeighbourSumBounds` | board.py:60-63 | on a 0/1 board the neighbour sum lies between 0 and 8 |
| `Boards.NeighbourAtIsToroidal` | board.py:84-95 | for one offset pair, the value read equals the toroidal neighbour unless the step is forward off the last row or column |
| `Boards.NeighboursAreToroidalOffLastLine` | board.py:80-97 | off the last row and column, or on a 1 x 1 board, the neighbour list equals the toroidal neighbour list |
| `Boards.OneByOneNeighboursAreSelf` | board.py:80-97 | on a 1 x 1 board, all eight neighbours are the sole cell |
| `Boards.CornerSeesOppositeCorner` | board.py:81-96 | the first neighbour of cell (0, 0) is the bottom-right cell |
| `Boards.WrapChangesTheNextState` | board.py:84-92 | on a 3 x 3 vertical line, cell (1, 2) counts six live neighbours where a torus gives three, and stays dead where a torus would give birth |
| `Boards.LifeRule` | board.py:62-69 | the rule returns 0 or 1 |
| `Boards.LifeRuleIsB3S23` | gol.py:100-107 | for a 0/1 cell, the next state is 1 if and only if the sum is 3, or the sum is 2 and the cell is alive; any other cell value gives 0 |
| `Boards.NextStateOfCell` | board.py:50-69 | the next state of a cell is 0 or 1 |
| `Boards.DeadCellInDeadNeighbourhoodStaysDead` | board.py:66-69 | a dead cell whose neighbours are all 0 stays dead |
| `Boards.IsolatedCellDies` | board.py:62-69 | a live cell whose neighbours are all 0 dies |
| `Games.Generation` | game.py:45 | the next grid has `size[1]` rows of `size[0]` cells, and is again a square board of the same size |
| `Games.NextCell` | game.py:48 | the value stored in each cell of the fresh grid is 0 or 1 |
| `Games.GenerationCell` | game.py:46-48 | cell (row, column) of the next grid is the next state of that cell on the unchanged current grid |
| `Games.GenerationRowByCells` | game.py:47-48 | a row whose every cell is that cell's next state is that row of the next grid |
| `Games.GenerationByCells` | game.py:45-48 | a grid of the right shape whose every cell is that cell's next state is the next grid |
| `Games.Game.SimulateNextRound` | game.py:38-53 | filling a fresh grid of zeros cell by cell returns exactly the next grid of the current board, reading the current grid only |
| `Games.GenerationIsBinary` | game.py:48 | every cell of the next grid is 0 or 1 |
| `Games.AllDeadStaysDead` | game.py:45-48 | a board of zeros is a fixed point of the generation step |
| `Games.Iterate` | gol.py:160-162 | after any number of rounds the grid is still a square board of the same size |
| `Games.RoundCount` | game.py:33 | the number of rounds `range(rounds_to_simulate)` runs is the least natural number not below `rounds_to_simulate`: that number when it is positive, otherwise 0 |
| `Games.AllDeadStaysDeadForever` | game.py:33-35 | any number of rounds leaves a board of zeros as it is |
| `Games.RoundsLeaveOnlyBits` | game.py:33-35 | after one round or more the grid holds only zeros and ones |
| `Games.Game.constructor` | game.py:26-28 | the game holds the board and the round budget, at round 0, and is ready to run when the board is square |
| `Games.Game.Run` | game.py:30-36 | the board's values are replaced by the next generation once per round, `rounds_to_simulate` times (none when it is not positive), so they end up `Iterate`d that many times; the size is unchanged; `round` takes the values 0, 1, ... in order, and ends at the last one |
| `Patterns.HorizontalUpperCell` | board.py:60-69 | rows 0 to 2 of the horizontal blinker's next generation are those of the vertical blinker |
| `Patterns.HorizontalLowerCell` | board.py:60-69 | rows 3 and 4 of the horizontal blinker's next generation are those of the vertical blinker |
| `Patterns.VerticalUpperCell` | board.py:60-69 | rows 0 to 2 of the vertical blinker's next generation are those of the horizontal blinker |
| `Patterns.VerticalLowerCell` | board.py:60-69 | rows 3 and 4 of the vertical blinker's next generation are those of the horizontal blinker |
| `Patterns.HorizontalCell` | board.py:60-69 | each cell of the horizontal blinker's next generation is the matching cell of the vertical blinker |
| `Patterns.VerticalCell` | board.py:60-69 | each cell of the vertical blinker's next generation is the matching cell of the horizontal blinker |
| `Patterns.HorizontalBecomesVertical` | game.py:45-48 | one step turns the horizontal blinker upright |
| `Patterns.VerticalBecomesHorizontal` | game.py:45-48 | one step lays the vertical blinker flat |
| `Patterns.BlinkerHasPeriodTwo` | game.py:33-35 | the blinker returns after two rounds, and is upright after one |

## Left out

- Drawing, the display window, the clock and the wait for input are UI and are not modelled: `output_board`, screen.py, the `pygame` calls, `clock.tick`, and `input()` in gol.py.
- Logging and its configuration are not modelled: the `logger` calls and config.py.
- game_of_life.py is entry-point glue and is not part of this model.
- Opening and reading the pattern file is left out. `Board.Load` and `Board.Initialize` take the file's lines as a sequence of strings, line breaks included. Newline translation by the text-mode file object is left out too.
- The empty-file-name branch of `_initialize` is not modelled. It returns `None` and then fails at `len(self.values[0])`.
- An empty pattern file is modelled. It fails with `NoRows`, where Python raises IndexError at board.py:18.
- Image-based loading and active-cell tracking are not modelled. No modelled file implements them.
- `Boards.Board.Load` takes lines, not a file name, and `Games.Game.constructor` takes an already-loaded `Board`. The file name is I/O.
- `Games.Game.constructor` has no default for the round budget. game.py:12 defaults `rounds_to_simulate` to 5, and no caller in the modelled files relies on that default.
- A grid whose first stripped line is empty is excluded by `IsSquareBoard`. The code runs on it without error: `size[0] == 0`, so `simulate_next_round` returns one empty row per line.
- Non-square and ragged boards are excluded by the `IsSquareBoard` precondition, because the code indexes out of range or reads the wrong cells on them. The IndexError itself is not modelled.
- `Boards.StateOfCell` requires indices Python accepts, so the IndexError path is not modelled. On a square board the neighbour code never produces any other index (`Boards.Wrap`).
- `Python.IntOfChar` accepts only the ASCII digits. Python's `int` also accepts the decimal digits of other scripts, such as Arabic-Indic digits, and those are not modelled.
- `Boards.NextStateOfCell` takes the neighbour sum from `Boards.NeighbourSum`, because a function cannot call the loop method. The contract of `Boards.NeighbourSum` and that of `Boards.Board.NeighboursOfCell` together tie that sum to the list the loops return.
- `Games.NextCell` gives 0 for a pair off the grid. `Games.Generation` never passes one.
- `Games.Game.SimulateNextRound` models `new_board` as a sequence value that is updated cell by cell. The rows Python builds are separate lists, so no aliasing is lost.
- `Games.Game.Run` returns a ghost record of the values `round` took, in place of the `logger` lines that report it.
- Other classic patterns, such as the block and the glider, are not modelled. The blinker is the pattern proved.
