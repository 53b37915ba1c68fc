# Matrices demo: a verified model of the 3x3 and 3x3x3 integer grids

The program keeps two fixed-size integer grids behind one interface of four
operations. `TwoDMatrix` holds a 3x3 `int[,]`, and `ThreeDMatrix` holds a
3x3x3 `int[,,]` whose third index `k` is the layer. Each grid can:

- read its cells from the console,
- overwrite every cell with random values from a range,
- return its smallest cell,
- print itself, one value per six-character field.

This project models both grids as Dafny classes over `array2` and `array3`
fields. The nested loops of the program stay nested loops, and each one is
proved against a specification:

- `FillRandom` rejects an inverted range before writing anything. Otherwise
  every cell ends up within `minValue..maxValue` inclusive.
- `MinElement` fails on an empty dimension before reading a cell. Otherwise
  its result is no greater than any cell and equal to some cell.
- `InputFromConsole` stores the supplied integers in the loop order of the
  program. For the 3x3x3 grid that order is layer `k` outermost, then row
  `i`, then column `j`.
- `Print` returns exactly the lines the program writes. They are proved equal
  to a pure function of the grid, `PrintedLines`. Further lemmas prove the
  layout: which line holds which row or layer title, how long a row line is,
  and that each six-character field reads back as the cell printed there.

Modules:

- `MatrixBase` holds C#'s 32-bit `int` (`Int32`), the default fill range
  -50..50, the exceptions as a `Result`/`Outcome` datatype, and
  `Random.Next`. Next is a nondeterministic choice constrained by the .NET
  contract.
- `MatrixText` holds the text written for a cell (decimal, right-aligned in
  six characters), a reader for such a field, and the round-trip lemmas that
  tie the two together.
- `TwoD` holds the 3x3 grid, and `ThreeD` holds the 3x3x3 grid.

The cells are `Int32`, so every stored value is within C#'s `int` range. The
exclusive bound `maxValue + 1` is computed without overflow, which is what
the range check of `FillRandom` evidently intends. The wrapped bound the
program actually computes is modelled beside it, under Findings.

## Model

| member | source | states |
|---|---|---|
| MatrixBase.Wrap | Program.cs:74 | C#'s unchecked `int` addition: in-range values are kept; out-of-range values are reduced modulo 2^32 |
| MatrixBase.Next | Program.cs:74 | `Random.Next(min, max)` fails with ArgumentOutOfRangeException exactly when min > max; otherwise it returns a value at least min and below max, or min itself when the bounds are equal |
| MatrixBase.UpperBoundAccepted | Program.cs:71-74 | once the guard `minValue <= maxValue` passes, Next accepts the bound `maxValue + 1`, and the values it may draw are exactly minValue..maxValue inclusive |
| MatrixBase.UpperBoundAsWrittenBelowMax | Program.cs:74 | below int.MaxValue, the wrapped bound the program computes equals maxValue + 1 |
| MatrixBase.UpperBoundAsWrittenOverflows | Program.cs:71-74 | at maxValue = int.MaxValue the guard passes for every minValue, but the wrapped bound is int.MinValue, and Next accepts it if and only if minValue = int.MinValue |
| MatrixText.IntTextRoundTrip | Program.cs:95 | reading back the decimal text of an integer gives that integer |
| MatrixText.FieldRoundTrip | Program.cs:95 | reading back a printed field (padding dropped) gives the cell printed, whatever its width |
| MatrixText.FieldWidthExact | Program.cs:95 | a cell fills exactly six characters if and only if it lies in -99999..999999 |
| MatrixText.RowLineCell | Program.cs:94-96 | when every cell of a row fits its field, the row's line is six characters per cell, and characters 6j..6j+6 read back as cell j |
| MatrixText.RowLinesAt | Program.cs:92-97 | line i of the printed rows is the line of row i |
| TwoD.TwoDMatrix.constructor | Program.cs:45-49 | a new grid is 3x3, freshly allocated, and all zeros |
| TwoD.TwoDMatrix.WithFill | Program.cs:51-55 | a new 3x3 grid holds values in -50..50 when fillRandom is set, and zeros otherwise |
| TwoD.TwoDMatrix.InputFromConsole | Program.cs:57-67 | the k-th integer read goes to a[k / 3, k % 3]: cell a[i, j] receives input[3 * i + j] |
| TwoD.TwoDMatrix.FillRandom | Program.cs:69-75 | fails with ArgumentException exactly when minValue > maxValue, and then leaves every cell unchanged; otherwise every cell lies in minValue..maxValue |
| TwoD.TwoDMatrix.MinElement | Program.cs:77-87 | fails with InvalidOperationException exactly when a dimension is 0; otherwise the result is at most every cell and equal to some cell |
| TwoD.TwoDMatrix.PrintRow | Program.cs:94-96 | the line written for row i is the fields of a[i, 0], a[i, 1], ... in column order |
| TwoD.TwoDMatrix.Print | Program.cs:89-98 | the lines written are the header followed by one line per row, top to bottom |
| TwoD.PrintedRow | Program.cs:89-98 | line 1 + i of the output, after the header, is the line of row i |
| TwoD.PrintedCell | Program.cs:89-98 | for a 3x3 grid whose cells fit their fields, the output is 4 lines with the header first; line 1 + i is 18 characters, and its j-th field reads back as a[i, j] |
| TwoD.PrintTwice | Program.cs:89-98 | Print changes nothing, so two calls in a row write the same lines |
| TwoD.MinElementTwice | Program.cs:77-87 | MinElement changes nothing, so two calls in a row give the same result |
| TwoD.NewMatrixMinElement | Program.cs:45-47 | the smallest cell of a newly constructed grid is 0 |
| ThreeD.BlockAt | Program.cs:165-171 | line 0 of a layer's block is its title, and line 1 + i is its row i |
| ThreeD.LayerBlocksAt | Program.cs:163-172 | with three rows per layer, the blocks take exactly four lines per layer; line 4k is the title of layer k, and line 4k + 1 + i is row i of layer k |
| ThreeD.ThreeDMatrix.LayersAt | Program.cs:163-169 | the grid read layer by layer gives Layers()[k][i][j] == b[i, j, k]: the layer is the third index |
| ThreeD.ThreeDMatrix.constructor | Program.cs:108-112 | a new grid is 3x3x3, freshly allocated, and all zeros |
| ThreeD.ThreeDMatrix.WithFill | Program.cs:114-118 | a new 3x3x3 grid holds values in -50..50 when fillRandom is set, and zeros otherwise |
| ThreeD.ThreeDMatrix.InputFromConsole | Program.cs:120-134 | cell b[i, j, k] receives input[9 * k + 3 * i + j]: layers outermost, then rows, then columns |
| ThreeD.ThreeDMatrix.FillRandom | Program.cs:137-144 | fails with ArgumentException exactly when minValue > maxValue, and then leaves every cell unchanged; otherwise every cell lies in minValue..maxValue |
| ThreeD.ThreeDMatrix.MinElement | Program.cs:146-156 | fails with InvalidOperationException exactly when a dimension is 0; otherwise the result is at most every cell and equal to some cell |
| ThreeD.ThreeDMatrix.PrintRow | Program.cs:168-170 | the line for row i of layer k is the fields of b[i, 0, k], b[i, 1, k], ... in column order |
| ThreeD.ThreeDMatrix.PrintLayer | Program.cs:165-171 | the lines for layer k are its title, then its rows top to bottom |
| ThreeD.ThreeDMatrix.Print | Program.cs:160-173 | the lines written are the header followed by the block of each layer k = 0, 1, 2 in turn |
| ThreeD.PrintedLayout | Program.cs:160-173 | for any three layers of three rows, the output is 13 lines with the header first; line 1 + 4k is "Слой k:", and when row i of layer k fits its fields, line 2 + 4k + i is 18 characters and its j-th field reads back as the row's j-th value |
| ThreeD.PrintedCell | Program.cs:160-173 | for a 3x3x3 grid whose cells fit their fields, the output is 13 lines with the header first; line 1 + 4k is "Слой k:", line 2 + 4k + i is 18 characters, and its j-th field reads back as b[i, j, k] |
| ThreeD.PrintTwice | Program.cs:160-173 | Print changes nothing, so two calls in a row write the same lines |
| ThreeD.MinElementTwice | Program.cs:146-156 | MinElement changes nothing, so two calls in a row give the same result |
| ThreeD.NewMatrixMinElement | Program.cs:108-110 | the smallest cell of a newly constructed grid is 0 |

## Left out

- `IMatrix` and the abstract `Matrix` class (Program.cs:6-23) are not modelled as a type, because Dafny's `trait` is not used here. Instead, both classes declare the same four operations with the same defaults and the same exceptions. Virtual dispatch through a base-typed variable (Program.cs:187-203) is not modelled.
- `ReadInt` (Program.cs:26-36), including its retry loop and its culture-dependent `int.TryParse`, is not modelled. `InputFromConsole` takes the integers ReadInt would return, in the order it would return them.
- Console output other than `Print`'s lines is not modelled: the input prompts, the layer titles echoed during input, and the constructor trace messages (Program.cs:48, 54, 59, 111, 117, 122, 125).
- Each `Print` returns its lines instead of writing them to the console. `Console.Write` followed by `Console.WriteLine()` becomes one element of the returned sequence.
- The distribution of `Random.Shared` (Program.cs:18) is not modelled. `Next` may return any value its contract allows, and only the range is proved.
- The number formatting of `{value,6}` assumes an ASCII minus sign and no group separators. The current culture's formatting is not modelled.
- The `_a == null` / `_b == null` tests of `MinElement` (Program.cs:79, 148) have no counterpart, because Dafny's array fields are never null. The dimension tests are kept, and `MinElement` does not require the 3x3 shape, so its error path is reachable.
- `Main` (Program.cs:176-219) is a demonstration script with no logic of its own and is not modelled.
- The default parameters of `FillRandom` are modelled as Dafny default parameters (-50 and 50). C#'s rules for binding defaults through an interface call are not modelled.
- TwoD.TwoDMatrix.FillRandom and ThreeD.ThreeDMatrix.FillRandom use the intended bound `maxValue + 1` without overflow, so they fill the grid with values in minValue..int.MaxValue for maxValue = int.MaxValue. As written, the program throws ArgumentOutOfRangeException there for every minValue > int.MinValue, and for minValue = int.MinValue it sets every cell to int.MinValue (see Findings).
- `Random.Next` raises ArgumentOutOfRangeException with a message of its own; the model keeps only the exception kind, not the message text.

## Findings

| source | as written | input that shows it | evidently intended | confidence | as-written member | corrected member |
|---|---|---|---|---|---|---|
| Program.cs:74 | `_rnd.Next(minValue, maxValue + 1)` (here and at Program.cs:143) computes the exclusive bound in unchecked 32-bit arithmetic, so `maxValue + 1` wraps to int.MinValue | `FillRandom(0, int.MaxValue)`: the range check passes, then `Next(0, int.MinValue)` throws ArgumentOutOfRangeException (any minValue > int.MinValue does the same; `FillRandom(int.MinValue, int.MaxValue)` instead sets every cell to int.MinValue) | every range that passes the `minValue <= maxValue` check is filled, with values in minValue..maxValue inclusive | medium, not executed | MatrixBase.UpperBoundAsWrittenOverflows | MatrixBase.UpperBoundAccepted, TwoD.TwoDMatrix.FillRandom, ThreeD.ThreeDMatrix.FillRandom |
