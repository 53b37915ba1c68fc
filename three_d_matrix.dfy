/** The 3x3x3 grid: a three-dimensional array b[i, j, k] whose third index k
    is the layer. Input, random fill, the minimum scan and printing all walk
    it layer by layer (k outermost), then row i, then column j. */
module ThreeD {
  import opened MatrixBase
  import opened MatrixText

  const Header := "Тривимірна матриця 3x3x3 (по слоях):"

  /** The line that opens the block of layer k. */
  function LayerLabel(k: nat): string {
    "Слой " + IntText(k) + ":"
  }

  /** The printed block of layer k: its title, then its rows. */
  function Block(k: nat, rows: seq<seq<Int32>>): (lines: seq<string>)
    ensures |lines| == 1 + |rows|
  {
    [LayerLabel(k)] + RowLines(rows)
  }

  /** The printed blocks of the given layers, block k for layer k. */
  function Blocks(layers: seq<seq<seq<Int32>>>): (blocks: seq<seq<string>>)
    ensures |blocks| == |layers|
    ensures forall l :: 0 <= l < |layers| ==> |blocks[l]| == 1 + |layers[l]|
  {
    seq(|layers|, k requires 0 <= k < |layers| => Block(k, layers[k]))
  }

  /** Everything Print writes for a grid given as its layers: the header,
      then the blocks of the layers one after another. */
  function PrintedLines(layers: seq<seq<seq<Int32>>>): seq<string> {
    [Header] + Flatten(Blocks(layers))
  }

  /** Line 0 of a block is the title of its layer. */
  lemma BlockTitle(k: nat, rows: seq<seq<Int32>>)
    ensures Block(k, rows)[0] == LayerLabel(k)
  {
  }

  /** Line 0 of a block is the title, line 1 + i its row i. */
  lemma BlockAt(k: nat, rows: seq<seq<Int32>>, i: nat)
    requires i < |rows|
    ensures Block(k, rows)[0] == LayerLabel(k)
    ensures Block(k, rows)[1 + i] == RowLine(rows[i])
  {
    RowLinesAt(rows, i);
  }

  /** When every layer has three rows, the blocks take four lines per layer:
      line 4 * k is the title of layer k and line 4 * k + 1 + i its row i. */
  lemma LayerBlocksAt(layers: seq<seq<seq<Int32>>>, k: nat, i: nat)
    requires forall l :: 0 <= l < |layers| ==> |layers[l]| == 3
    requires k < |layers| && i < 3
    ensures |Flatten(Blocks(layers))| == 4 * |layers|
    ensures Flatten(Blocks(layers))[4 * k] == LayerLabel(k)
    ensures Flatten(Blocks(layers))[4 * k + 1 + i] == RowLine(layers[k][i])
  {
    var blocks := Blocks(layers);
    assert forall l :: 0 <= l < |blocks| ==> |blocks[l]| == 4;
    FlattenAt(blocks, k, 0);
    FlattenAt(blocks, k, 1 + i);
    BlockAt(k, layers[k], i);
  }

  class ThreeDMatrix {
    var b: array3<Int32>
    const x: nat := 3
    const y: nat := 3
    const z: nat := 3

    /** The extents fixed at construction. */
    ghost predicate Valid()
      reads this
    {
      b.Length0 == x && b.Length1 == y && b.Length2 == z
    }

    /** The first n cells of row i of layer k: b[i, 0, k], b[i, 1, k], ... */
    ghost function RowPrefix(k: nat, i: nat, n: nat): (r: seq<Int32>)
      reads this, b
      requires k < b.Length2 && i < b.Length0 && n <= b.Length1
      ensures |r| == n
    {
      if n == 0 then [] else RowPrefix(k, i, n - 1) + [b[i, n - 1, k]]
    }

    /** The first n rows of layer k. */
    ghost function LayerPrefix(k: nat, n: nat): (rows: seq<seq<Int32>>)
      reads this, b
      requires k < b.Length2 && n <= b.Length0
      ensures |rows| == n
    {
      if n == 0 then [] else LayerPrefix(k, n - 1) + [RowPrefix(k, n - 1, b.Length1)]
    }

    /** The first n layers. */
    ghost function LayersPrefix(n: nat): (layers: seq<seq<seq<Int32>>>)
      reads this, b
      requires n <= b.Length2
      ensures |layers| == n
    {
      if n == 0 then [] else LayersPrefix(n - 1) + [LayerPrefix(n - 1, b.Length0)]
    }

    /** The grid as layers of rows: Layers()[k][i][j] is the cell b[i, j, k]. */
    ghost function Layers(): seq<seq<seq<Int32>>>
      reads this, b
    {
      LayersPrefix(b.Length2)
    }

    lemma {:induction false} RowPrefixAt(k: nat, i: nat, n: nat, j: nat)
      requires k < b.Length2 && i < b.Length0 && j < n <= b.Length1
      ensures RowPrefix(k, i, n)[j] == b[i, j, k]
    {
      if j < n - 1 {
        RowPrefixAt(k, i, n - 1, j);
      }
    }

    lemma {:induction false} LayerPrefixAt(k: nat, n: nat, i: nat)
      requires k < b.Length2 && i < n <= b.Length0
      ensures LayerPrefix(k, n)[i] == RowPrefix(k, i, b.Length1)
    {
      if i < n - 1 {
        LayerPrefixAt(k, n - 1, i);
      }
    }

    lemma {:induction false} LayersPrefixAt(n: nat, k: nat)
      requires k < n <= b.Length2
      ensures LayersPrefix(n)[k] == LayerPrefix(k, b.Length0)
    {
      if k < n - 1 {
        LayersPrefixAt(n - 1, k);
      }
    }

    /** Layer k of the grid lists, for each row i, the cells b[i, j, k]
        for j = 0, 1, 2: the layer is the third index. */
    lemma LayersAt(k: nat, i: nat, j: nat)
      requires Valid() && k < 3 && i < 3 && j < 3
      ensures |Layers()| == 3 && |Layers()[k]| == 3 && |Layers()[k][i]| == 3
      ensures Layers()[k][i][j] == b[i, j, k]
    {
      LayersPrefixAt(3, k);
      LayerPrefixAt(k, 3, i);
      RowPrefixAt(k, i, 3, j);
    }

    /** A new grid is 3x3x3 and all zeros. */
    constructor ()
      ensures Valid() && fresh(b)
      ensures forall i, j, k :: 0 <= i < x && 0 <= j < y && 0 <= k < z ==> b[i, j, k] == 0
    {
      b := new Int32[3, 3, 3]((i, j, k) => 0);
    }

    /** A new grid, filled at random over the default range when asked. */
    constructor WithFill(fillRandom: bool)
      ensures Valid() && fresh(b)
      ensures fillRandom ==> forall i, j, k :: 0 <= i < x && 0 <= j < y && 0 <= k < z ==>
        DefaultMinValue <= b[i, j, k] <= DefaultMaxValue
      ensures !fillRandom ==> forall i, j, k :: 0 <= i < x && 0 <= j < y && 0 <= k < z ==> b[i, j, k] == 0
    {
      b := new Int32[3, 3, 3]((i, j, k) => 0);
      new;
      if fillRandom {
        var outcome := FillRandom();
      }
    }

    /** Overwrites the cells layer by layer, row by row, with the integers
        the console supplies, input[9 * k + 3 * i + j] going to b[i, j, k]. */
    method InputFromConsole(input: seq<Int32>)
      requires Valid() && |input| == x * y * z
      modifies b
      ensures forall i, j, k :: 0 <= i < x && 0 <= j < y && 0 <= k < z ==>
        b[i, j, k] == input[9 * k + 3 * i + j]
    {
      var n := 0;
      for k := 0 to b.Length2
        invariant n == 9 * k
        invariant forall p, q, r :: 0 <= p < 3 && 0 <= q < 3 && 0 <= r < 3 && 9 * r + 3 * p + q < n ==>
          b[p, q, r] == input[9 * r + 3 * p + q]
      {
        for i := 0 to b.Length0
          invariant n == 9 * k + 3 * i
          invariant forall p, q, r :: 0 <= p < 3 && 0 <= q < 3 && 0 <= r < 3 && 9 * r + 3 * p + q < n ==>
            b[p, q, r] == input[9 * r + 3 * p + q]
        {
          for j := 0 to b.Length1
            invariant n == 9 * k + 3 * i + j
            invariant forall p, q, r :: 0 <= p < 3 && 0 <= q < 3 && 0 <= r < 3 && 9 * r + 3 * p + q < n ==>
              b[p, q, r] == input[9 * r + 3 * p + q]
          {
            b[i, j, k] := input[n];
            n := n + 1;
          }
        }
      }
    }

    /** Rejects an inverted range before writing anything; otherwise
        overwrites every cell with a draw from minValue..maxValue inclusive. */
    method FillRandom(minValue: Int32 := DefaultMinValue, maxValue: Int32 := DefaultMaxValue)
      returns (outcome: Outcome)
      modifies b
      ensures outcome.Fail? <==> minValue > maxValue
      ensures outcome.Fail? ==> outcome.error == ArgumentException(InvertedRangeMessage)
      ensures outcome.Fail? ==> forall i, j, k :: 0 <= i < b.Length0 && 0 <= j < b.Length1 && 0 <= k < b.Length2 ==>
        b[i, j, k] == old(b[i, j, k])
      ensures outcome.Pass? ==> forall i, j, k :: 0 <= i < b.Length0 && 0 <= j < b.Length1 && 0 <= k < b.Length2 ==>
        minValue <= b[i, j, k] <= maxValue
    {
      if minValue > maxValue {
        return Fail(ArgumentException(InvertedRangeMessage));
      }
      for k := 0 to b.Length2
        invariant forall p, q, r :: 0 <= p < b.Length0 && 0 <= q < b.Length1 && 0 <= r < k ==>
          minValue <= b[p, q, r] <= maxValue
      {
        for i := 0 to b.Length0
          invariant forall p, q, r :: 0 <= p < b.Length0 && 0 <= q < b.Length1 && 0 <= r < k ==>
            minValue <= b[p, q, r] <= maxValue
          invariant forall p, q :: 0 <= p < i && 0 <= q < b.Length1 ==> minValue <= b[p, q, k] <= maxValue
        {
          for j := 0 to b.Length1
            invariant forall p, q, r :: 0 <= p < b.Length0 && 0 <= q < b.Length1 && 0 <= r < k ==>
              minValue <= b[p, q, r] <= maxValue
            invariant forall p, q :: 0 <= p < i && 0 <= q < b.Length1 ==> minValue <= b[p, q, k] <= maxValue
            invariant forall q :: 0 <= q < j ==> minValue <= b[i, q, k] <= maxValue
          {
            var drawn := Next(minValue, UpperBound(maxValue));
            UpperBoundAccepted(minValue, maxValue, drawn.value);
            b[i, j, k] := drawn.value;
          }
        }
      }
      outcome := Pass;
    }

    /** Fails when a dimension is empty, before reading any cell; otherwise
        the smallest cell: no cell is below it and some cell equals it. */
    method MinElement() returns (r: Result<Int32>)
      ensures r.Failure? <==> b.Length0 == 0 || b.Length1 == 0 || b.Length2 == 0
      ensures r.Failure? ==> r.error == InvalidOperationException(EmptyMatrixMessage)
      ensures r.Success? ==> forall i, j, k :: 0 <= i < b.Length0 && 0 <= j < b.Length1 && 0 <= k < b.Length2 ==>
        r.value <= b[i, j, k]
      ensures r.Success? ==> exists i, j, k ::
        (0 <= i < b.Length0 && 0 <= j < b.Length1 && 0 <= k < b.Length2 && r.value == b[i, j, k])
    {
      if b.Length0 == 0 || b.Length1 == 0 || b.Length2 == 0 {
        return Failure(InvalidOperationException(EmptyMatrixMessage));
      }
      var min := b[0, 0, 0];
      ghost var mi, mj, mk := 0, 0, 0;
      for k := 0 to b.Length2
        invariant 0 <= mi < b.Length0 && 0 <= mj < b.Length1 && 0 <= mk < b.Length2 && min == b[mi, mj, mk]
        invariant forall p, q, r :: 0 <= p < b.Length0 && 0 <= q < b.Length1 && 0 <= r < k ==> min <= b[p, q, r]
      {
        for i := 0 to b.Length0
          invariant 0 <= mi < b.Length0 && 0 <= mj < b.Length1 && 0 <= mk < b.Length2 && min == b[mi, mj, mk]
          invariant forall p, q, r :: 0 <= p < b.Length0 && 0 <= q < b.Length1 && 0 <= r < k ==> min <= b[p, q, r]
          invariant forall p, q :: 0 <= p < i && 0 <= q < b.Length1 ==> min <= b[p, q, k]
        {
          for j := 0 to b.Length1
            invariant 0 <= mi < b.Length0 && 0 <= mj < b.Length1 && 0 <= mk < b.Length2 && min == b[mi, mj, mk]
            invariant forall p, q, r :: 0 <= p < b.Length0 && 0 <= q < b.Length1 && 0 <= r < k ==> min <= b[p, q, r]
            invariant forall p, q :: 0 <= p < i && 0 <= q < b.Length1 ==> min <= b[p, q, k]
            invariant forall q :: 0 <= q < j ==> min <= b[i, q, k]
          {
            if b[i, j, k] < min {
              min := b[i, j, k];
              mi, mj, mk := i, j, k;
            }
          }
        }
      }
      return Success(min);
    }

    /** The line Print writes for row i of layer k: the fields of
        b[i, 0, k], b[i, 1, k], ... written back to back. */
    method PrintRow(k: nat, i: nat) returns (line: string)
      requires k < b.Length2 && i < b.Length0
      ensures line == RowLine(RowPrefix(k, i, b.Length1))
    {
      line := "";
      for j := 0 to b.Length1
        invariant line == RowLine(RowPrefix(k, i, j))
      {
        RowLineSnoc(RowPrefix(k, i, j), b[i, j, k]);
        line := line + Field(b[i, j, k]);
      }
    }

    /** The lines Print writes for layer k: its title, then row i listing
        b[i, 0, k], b[i, 1, k], ... for each i in turn. */
    method PrintLayer(k: nat) returns (block: seq<string>)
      requires k < b.Length2
      ensures block == Block(k, LayerPrefix(k, b.Length0))
    {
      ghost var want := Block(k, LayerPrefix(k, b.Length0));
      BlockTitle(k, LayerPrefix(k, b.Length0));
      block := [LayerLabel(k)];
      for i := 0 to b.Length0
        invariant block == want[..1 + i]
      {
        var line := PrintRow(k, i);
        LayerPrefixAt(k, b.Length0, i);
        BlockAt(k, LayerPrefix(k, b.Length0), i);
        PrefixSnoc(want, 1 + i);
        block := block + [line];
      }
      assert want[..1 + b.Length0] == want;
    }

    /** The lines written to the console: the header, then the block of
        each layer k in turn. */
    method Print() returns (lines: seq<string>)
      ensures lines == PrintedLines(Layers())
    {
      ghost var blocks := Blocks(Layers());
      lines := [Header];
      for k := 0 to b.Length2
        invariant lines == [Header] + Flatten(blocks[..k])
      {
        var block := PrintLayer(k);
        LayersPrefixAt(b.Length2, k);
        HeadedFlattenSnoc([Header], blocks, k);
        lines := lines + block;
      }
      assert blocks[..b.Length2] == blocks;
    }
  }

  /** Print's layout for a grid given as three layers of three rows: thirteen
      lines, the header first; line 1 + 4 * k labels layer k, and line
      2 + 4 * k + i holds row i of that layer, whose j-th six-character field
      reads back as its j-th value when the row's values fit their fields. */
  lemma PrintedLayout(layers: seq<seq<seq<Int32>>>, k: nat, i: nat, j: nat)
    requires |layers| == 3 && forall l :: 0 <= l < 3 ==> |layers[l]| == 3
    requires k < 3 && i < 3 && j < 3 && |layers[k][i]| == 3 && FitsRow(layers[k][i])
    ensures |PrintedLines(layers)| == 13 && PrintedLines(layers)[0] == Header
    ensures PrintedLines(layers)[1 + 4 * k] == LayerLabel(k)
    ensures |PrintedLines(layers)[2 + 4 * k + i]| == 18
    ensures ParseField(PrintedLines(layers)[2 + 4 * k + i][6 * j..6 * j + 6]) == Some(layers[k][i][j] as int)
  {
    LayerBlocksAt(layers, k, i);
    RowLineCell(layers[k][i], j);
  }

  /** Print's layout for a 3x3x3 grid whose cells each fit a field: line
      2 + 4 * k + i holds row i of layer k, whose j-th six-character field
      reads back as b[i, j, k]. */
  lemma PrintedCell(m: ThreeDMatrix, k: nat, i: nat, j: nat)
    requires m.Valid() && k < 3 && i < 3 && j < 3
    requires forall p, q, r :: 0 <= p < 3 && 0 <= q < 3 && 0 <= r < 3 ==> FieldMin <= m.b[p, q, r] as int <= FieldMax
    ensures |PrintedLines(m.Layers())| == 13 && PrintedLines(m.Layers())[0] == Header
    ensures PrintedLines(m.Layers())[1 + 4 * k] == LayerLabel(k)
    ensures |PrintedLines(m.Layers())[2 + 4 * k + i]| == 18
    ensures ParseField(PrintedLines(m.Layers())[2 + 4 * k + i][6 * j..6 * j + 6]) == Some(m.b[i, j, k] as int)
  {
    var layers := m.Layers();
    m.LayersAt(k, i, j);
    forall l | 0 <= l < 3
      ensures |layers[l]| == 3
    {
      m.LayersAt(l, 0, 0);
    }
    var row := layers[k][i];
    forall q | 0 <= q < 3
      ensures row[q] == m.b[i, q, k]
    {
      m.LayersAt(k, i, q);
    }
    PrintedLayout(layers, k, i, j);
  }

  /** Print changes nothing, so printing twice in a row writes the same text. */
  method PrintTwice(m: ThreeDMatrix) returns (first: seq<string>, second: seq<string>)
    ensures first == second
  {
    first := m.Print();
    second := m.Print();
  }

  /** MinElement changes nothing, so asking twice in a row gives the same answer. */
  method MinElementTwice(m: ThreeDMatrix) returns (first: Result<Int32>, second: Result<Int32>)
    ensures first == second
  {
    first := m.MinElement();
    second := m.MinElement();
  }

  /** The smallest cell of a new grid is 0. */
  method NewMatrixMinElement() returns (r: Result<Int32>)
    ensures r == Success(0)
  {
    var m := new ThreeDMatrix();
    r := m.MinElement();
  }
}
