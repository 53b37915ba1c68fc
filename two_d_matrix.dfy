/** The 3x3 grid: a two-dimensional array of cells filled at random or from
    input, queried for its smallest cell and printed one row per line. */
module TwoD {
  import opened MatrixBase
  import opened MatrixText

  const Header := "Двовимірна матриця 3x3:"

  /** Everything Print writes for a grid given as its rows: the header, then
      one line per row. */
  function PrintedLines(rows: seq<seq<Int32>>): seq<string> {
    [Header] + RowLines(rows)
  }

  /** Line 1 + i of the output is the line of row i. */
  lemma PrintedRow(rows: seq<seq<Int32>>, i: nat)
    requires i < |rows|
    ensures PrintedLines(rows)[1 + i] == RowLine(rows[i])
  {
    RowLinesAt(rows, i);
  }

  class TwoDMatrix {
    var a: array2<Int32>
    const rows: nat := 3
    const cols: nat := 3

    /** The extents fixed at construction. */
    ghost predicate Valid()
      reads this
    {
      a.Length0 == rows && a.Length1 == cols
    }

    /** The first n cells of row i, left to right. */
    ghost function RowPrefix(i: nat, n: nat): (r: seq<Int32>)
      reads this, a
      requires i < a.Length0 && n <= a.Length1
      ensures |r| == n
    {
      if n == 0 then [] else RowPrefix(i, n - 1) + [a[i, n - 1]]
    }

    /** The first n rows, top to bottom. */
    ghost function RowsPrefix(n: nat): (g: seq<seq<Int32>>)
      reads this, a
      requires n <= a.Length0
      ensures |g| == n
    {
      if n == 0 then [] else RowsPrefix(n - 1) + [RowPrefix(n - 1, a.Length1)]
    }

    lemma {:induction false} RowPrefixAt(i: nat, n: nat, j: nat)
      requires i < a.Length0 && j < n <= a.Length1
      ensures RowPrefix(i, n)[j] == a[i, j]
    {
      if j < n - 1 {
        RowPrefixAt(i, n - 1, j);
      }
    }

    lemma {:induction false} RowsPrefixAt(n: nat, i: nat)
      requires i < n <= a.Length0
      ensures RowsPrefix(n)[i] == RowPrefix(i, a.Length1)
    {
      if i < n - 1 {
        RowsPrefixAt(n - 1, i);
      }
    }

    /** The grid as a sequence of rows: Grid()[i][j] is the cell a[i, j]. */
    ghost function Grid(): seq<seq<Int32>>
      reads this, a
    {
      RowsPrefix(a.Length0)
    }

    /** A new grid is 3x3 and all zeros. */
    constructor ()
      ensures Valid() && fresh(a)
      ensures forall i, j :: 0 <= i < rows && 0 <= j < cols ==> a[i, j] == 0
    {
      a := new Int32[3, 3]((i, j) => 0);
    }

    /** A new grid, filled at random over the default range when asked. */
    constructor WithFill(fillRandom: bool)
      ensures Valid() && fresh(a)
      ensures fillRandom ==> forall i, j :: 0 <= i < rows && 0 <= j < cols ==>
        DefaultMinValue <= a[i, j] <= DefaultMaxValue
      ensures !fillRandom ==> forall i, j :: 0 <= i < rows && 0 <= j < cols ==> a[i, j] == 0
    {
      a := new Int32[3, 3]((i, j) => 0);
      new;
      if fillRandom {
        var outcome := FillRandom();
      }
    }

    /** Overwrites the cells row by row with the integers the console
        supplies, input[3 * i + j] going to a[i, j]. */
    method InputFromConsole(input: seq<Int32>)
      requires Valid() && |input| == rows * cols
      modifies a
      ensures forall i, j :: 0 <= i < rows && 0 <= j < cols ==> a[i, j] == input[3 * i + j]
    {
      var n := 0;
      for i := 0 to a.Length0
        invariant n == 3 * i
        invariant forall p, q :: 0 <= p < i && 0 <= q < 3 ==> a[p, q] == input[3 * p + q]
      {
        for j := 0 to a.Length1
          invariant n == 3 * i + j
          invariant forall p, q :: 0 <= p < i && 0 <= q < 3 ==> a[p, q] == input[3 * p + q]
          invariant forall q :: 0 <= q < j ==> a[i, q] == input[3 * i + q]
        {
          a[i, j] := input[n];
          n := n + 1;
        }
      }
    }

    /** Rejects an inverted range before writing anything; otherwise
        overwrites every cell with a draw from minValue..maxValue inclusive. */
    method FillRandom(minValue: Int32 := DefaultMinValue, maxValue: Int32 := DefaultMaxValue)
      returns (outcome: Outcome)
      modifies a
      ensures outcome.Fail? <==> minValue > maxValue
      ensures outcome.Fail? ==> outcome.error == ArgumentException(InvertedRangeMessage)
      ensures outcome.Fail? ==> forall i, j :: 0 <= i < a.Length0 && 0 <= j < a.Length1 ==>
        a[i, j] == old(a[i, j])
      ensures outcome.Pass? ==> forall i, j :: 0 <= i < a.Length0 && 0 <= j < a.Length1 ==>
        minValue <= a[i, j] <= maxValue
    {
      if minValue > maxValue {
        return Fail(ArgumentException(InvertedRangeMessage));
      }
      for i := 0 to a.Length0
        invariant forall p, q :: 0 <= p < i && 0 <= q < a.Length1 ==> minValue <= a[p, q] <= maxValue
      {
        for j := 0 to a.Length1
          invariant forall p, q :: 0 <= p < i && 0 <= q < a.Length1 ==> minValue <= a[p, q] <= maxValue
          invariant forall q :: 0 <= q < j ==> minValue <= a[i, q] <= maxValue
        {
          var drawn := Next(minValue, UpperBound(maxValue));
          UpperBoundAccepted(minValue, maxValue, drawn.value);
          a[i, j] := drawn.value;
        }
      }
      outcome := Pass;
    }

    /** Fails when a dimension is empty, before reading any cell; otherwise
        the smallest cell: no cell is below it and some cell equals it. */
    method MinElement() returns (r: Result<Int32>)
      ensures r.Failure? <==> a.Length0 == 0 || a.Length1 == 0
      ensures r.Failure? ==> r.error == InvalidOperationException(EmptyMatrixMessage)
      ensures r.Success? ==> forall i, j :: 0 <= i < a.Length0 && 0 <= j < a.Length1 ==> r.value <= a[i, j]
      ensures r.Success? ==> exists i, j :: 0 <= i < a.Length0 && 0 <= j < a.Length1 && r.value == a[i, j]
    {
      if a.Length0 == 0 || a.Length1 == 0 {
        return Failure(InvalidOperationException(EmptyMatrixMessage));
      }
      var min := a[0, 0];
      ghost var mi, mj := 0, 0;
      for i := 0 to a.Length0
        invariant 0 <= mi < a.Length0 && 0 <= mj < a.Length1 && min == a[mi, mj]
        invariant forall p, q :: 0 <= p < i && 0 <= q < a.Length1 ==> min <= a[p, q]
      {
        for j := 0 to a.Length1
          invariant 0 <= mi < a.Length0 && 0 <= mj < a.Length1 && min == a[mi, mj]
          invariant forall p, q :: 0 <= p < i && 0 <= q < a.Length1 ==> min <= a[p, q]
          invariant forall q :: 0 <= q < j ==> min <= a[i, q]
        {
          if a[i, j] < min {
            min := a[i, j];
            mi, mj := i, j;
          }
        }
      }
      return Success(min);
    }

    /** The line Print writes for row i: the fields of a[i, 0], a[i, 1], ...
        written back to back. */
    method PrintRow(i: nat) returns (line: string)
      requires i < a.Length0
      ensures line == RowLine(RowPrefix(i, a.Length1))
    {
      line := "";
      for j := 0 to a.Length1
        invariant line == RowLine(RowPrefix(i, j))
      {
        RowLineSnoc(RowPrefix(i, j), a[i, j]);
        line := line + Field(a[i, j]);
      }
    }

    /** The lines written to the console: the header, then the line of each
        row i in turn. */
    method Print() returns (lines: seq<string>)
      ensures lines == PrintedLines(Grid())
    {
      ghost var want := RowLines(Grid());
      lines := [Header];
      for i := 0 to a.Length0
        invariant lines == [Header] + want[..i]
      {
        var line := PrintRow(i);
        RowsPrefixAt(a.Length0, i);
        RowLinesAt(Grid(), i);
        PrefixSnoc(want, i);
        AppendAssoc([Header], want[..i], [line]);
        lines := lines + [line];
      }
      assert want[..a.Length0] == want;
    }
  }

  /** Print's layout for a 3x3 grid whose cells each fit a field: four lines,
      the header first, and line 1 + i holding row i, whose j-th six-character
      field reads back as a[i, j]. */
  lemma PrintedCell(m: TwoDMatrix, i: nat, j: nat)
    requires m.Valid() && i < 3 && j < 3
    requires forall p, q :: 0 <= p < 3 && 0 <= q < 3 ==> FieldMin <= m.a[p, q] as int <= FieldMax
    ensures |PrintedLines(m.Grid())| == 4 && PrintedLines(m.Grid())[0] == Header
    ensures |PrintedLines(m.Grid())[1 + i]| == 18
    ensures ParseField(PrintedLines(m.Grid())[1 + i][6 * j..6 * j + 6]) == Some(m.a[i, j] as int)
  {
    var g := m.Grid();
    m.RowsPrefixAt(3, i);
    forall q | 0 <= q < 3
      ensures g[i][q] == m.a[i, q]
    {
      m.RowPrefixAt(i, 3, q);
    }
    PrintedRow(g, i);
    RowLineCell(g[i], j);
  }

  /** Print changes nothing, so printing twice in a row writes the same text. */
  method PrintTwice(m: TwoDMatrix) returns (first: seq<string>, second: seq<string>)
    ensures first == second
  {
    first := m.Print();
    second := m.Print();
  }

  /** MinElement changes nothing, so asking twice in a row gives the same answer. */
  method MinElementTwice(m: TwoDMatrix) returns (first: Result<Int32>, second: Result<Int32>)
    ensures first == second
  {
    first := m.MinElement();
    second := m.MinElement();
  }

  /** The smallest cell of a new grid is 0. */
  method NewMatrixMinElement() returns (r: Result<Int32>)
    ensures r == Success(0)
  {
    var m := new TwoDMatrix();
    r := m.MinElement();
  }
}
