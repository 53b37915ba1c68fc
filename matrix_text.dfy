/** The text Print writes: each cell in decimal, right-aligned in a field of
    six characters (the alignment component of `{value,6}`), the fields of a
    row written back to back on one line. Beside the writer sits a reader
    that recovers a cell from its field, so that what a printed line means is
    stated as a round trip. */
module MatrixText {
  import opened MatrixBase

  datatype Option<T> = None | Some(value: T)

  /** Width of the field every printed cell occupies. */
  const FieldWidth: nat := 6

  /** The values whose decimal text fits in one field. */
  const FieldMin: int := -99999
  const FieldMax: int := 999999

  predicate IsDigit(c: char) {
    '0' <= c <= '9'
  }

  predicate AllDigits(s: string) {
    forall i :: 0 <= i < |s| ==> IsDigit(s[i])
  }

  function DigitChar(d: nat): (c: char)
    requires d < 10
    ensures IsDigit(c) && c as int - '0' as int == d
  {
    ('0' as int + d) as char
  }

  function Pow10(k: nat): (p: nat)
    ensures p >= 1
  {
    if k == 0 then 1 else 10 * Pow10(k - 1)
  }

  /** The decimal digits of n, most significant first, without leading zeros. */
  function NatText(n: nat): (s: string)
    ensures |s| > 0 && AllDigits(s)
  {
    if n < 10 then [DigitChar(n)] else NatText(n / 10) + [DigitChar(n % 10)]
  }

  function Abs(x: int): nat {
    if x < 0 then -x else x
  }

  /** What interpolating an integer writes: a minus sign for a negative value,
      then the digits of its magnitude. */
  function IntText(x: int): (s: string)
    ensures |s| > 0 && s[0] != ' '
  {
    (if x < 0 then "-" else "") + NatText(Abs(x))
  }

  /** The value of a run of decimal digits, most significant first. */
  function DigitsValue(s: string): nat
    requires AllDigits(s)
  {
    if s == [] then 0 else 10 * DigitsValue(s[..|s| - 1]) + (s[|s| - 1] as int - '0' as int)
  }

  /** Reads an integer: an optional minus sign followed by at least one digit. */
  function ParseInt(s: string): Option<int> {
    if |s| > 1 && s[0] == '-' && AllDigits(s[1..]) then Some(0 - DigitsValue(s[1..]) as int)
    else if |s| > 0 && AllDigits(s) then Some(DigitsValue(s))
    else None
  }

  function Spaces(n: nat): (s: string)
    ensures |s| == n
  {
    if n == 0 then "" else " " + Spaces(n - 1)
  }

  /** Right-aligns s in a field of width w; text wider than w is kept whole. */
  function PadLeft(s: string, w: nat): (r: string)
    ensures |r| == if |s| < w then w else |s|
  {
    if |s| < w then Spaces(w - |s|) + s else s
  }

  /** Drops the padding in front of a field. */
  function TrimStart(s: string): string {
    if |s| > 0 && s[0] == ' ' then TrimStart(s[1..]) else s
  }

  /** What Print writes for one cell. */
  function Field(x: Int32): string {
    PadLeft(IntText(x as int), FieldWidth)
  }

  /** Reads one printed field back. */
  function ParseField(f: string): Option<int> {
    ParseInt(TrimStart(f))
  }

  /** Strings written one after another with nothing between them. */
  function Concat(parts: seq<string>): string {
    if parts == [] then "" else Concat(parts[..|parts| - 1]) + parts[|parts| - 1]
  }

  /** The fields of a row's values, left to right. */
  function Fields(row: seq<Int32>): (fs: seq<string>)
    ensures |fs| == |row|
  {
    if row == [] then [] else Fields(row[..|row| - 1]) + [Field(row[|row| - 1])]
  }

  /** One printed row: the fields of its values written back to back. */
  function RowLine(row: seq<Int32>): string {
    Concat(Fields(row))
  }

  /** The printed rows of a grid, one line per row, top to bottom. */
  function RowLines(rows: seq<seq<Int32>>): (lines: seq<string>)
    ensures |lines| == |rows|
  {
    if rows == [] then [] else RowLines(rows[..|rows| - 1]) + [RowLine(rows[|rows| - 1])]
  }

  predicate FitsRow(row: seq<Int32>) {
    forall j :: 0 <= j < |row| ==> FieldMin <= row[j] as int <= FieldMax
  }

  lemma {:induction false} NatTextRoundTrip(n: nat)
    ensures DigitsValue(NatText(n)) == n
  {
    if n >= 10 {
      NatTextRoundTrip(n / 10);
      var s := NatText(n);
      assert s[..|s| - 1] == NatText(n / 10);
    }
  }

  /** Reading back what interpolation writes gives the integer written. */
  lemma IntTextRoundTrip(x: int)
    ensures ParseInt(IntText(x)) == Some(x)
  {
    NatTextRoundTrip(Abs(x));
    if x < 0 {
      assert IntText(x)[1..] == NatText(-x);
    } else {
      assert IntText(x) == NatText(x);
    }
  }

  lemma {:induction false} TrimSpaces(n: nat, t: string)
    requires |t| > 0 && t[0] != ' '
    ensures TrimStart(Spaces(n) + t) == t
  {
    var s := Spaces(n) + t;
    if n > 0 {
      assert s[0] == ' ';
      assert s[1..] == Spaces(n - 1) + t;
      TrimSpaces(n - 1, t);
      assert TrimStart(s) == TrimStart(s[1..]);
    } else {
      assert s == t;
    }
  }

  /** Reading back a printed field gives the cell printed, whatever its width. */
  lemma FieldRoundTrip(x: Int32)
    ensures ParseField(Field(x)) == Some(x as int)
  {
    var s := IntText(x as int);
    if |s| < FieldWidth {
      TrimSpaces(FieldWidth - |s|, s);
    }
    IntTextRoundTrip(x as int);
  }

  /** n has at most k digits exactly when it is below 10^k. */
  lemma {:induction false} NatTextLength(n: nat, k: nat)
    requires k > 0
    ensures |NatText(n)| <= k <==> n < Pow10(k)
  {
    if n >= 10 {
      if k > 1 {
        NatTextLength(n / 10, k - 1);
      }
    }
  }

  /** A cell fills its field exactly, with no overflow of the layout, just
      when it lies in FieldMin..FieldMax. */
  lemma FieldWidthExact(x: Int32)
    ensures |Field(x)| == FieldWidth <==> FieldMin <= x as int <= FieldMax
  {
    assert Pow10(5) == 100000 && Pow10(6) == 1000000;
    if x < 0 {
      NatTextLength(-(x as int), 5);
    } else {
      NatTextLength(x as int, 6);
    }
  }

  /** Writing one more value extends the line by that value's field. */
  lemma RowLineSnoc(row: seq<Int32>, x: Int32)
    ensures RowLine(row + [x]) == RowLine(row) + Field(x)
  {
    assert (row + [x])[..|row|] == row;
  }

  lemma {:induction false} FieldsAt(row: seq<Int32>, j: nat)
    requires j < |row|
    ensures Fields(row)[j] == Field(row[j])
  {
    if j < |row| - 1 {
      FieldsAt(row[..|row| - 1], j);
    }
  }

  lemma ConcatSlices(p: string, q: string, lo: nat, hi: nat)
    requires lo <= hi <= |p|
    ensures (p + q)[lo..hi] == p[lo..hi]
    ensures (p + q)[|p|..|p| + |q|] == q
  {
  }

  lemma {:induction false} ConcatSlice(parts: seq<string>, j: nat)
    requires forall k :: 0 <= k < |parts| ==> |parts[k]| == 6
    requires j < |parts|
    ensures |Concat(parts)| == 6 * |parts|
    ensures Concat(parts)[6 * j..6 * j + 6] == parts[j]
  {
    var n := |parts| - 1;
    var init := parts[..n];
    if n > 0 {
      ConcatSlice(init, if j < n then j else 0);
    }
    var p, q := Concat(init), parts[n];
    assert Concat(parts) == p + q;
    if j < n {
      ConcatSlices(p, q, 6 * j, 6 * j + 6);
    } else {
      ConcatSlices(p, q, 0, 0);
    }
  }

  /** When every value of a row fits its field, the printed line is six
      characters per value and its j-th field reads back as the j-th value. */
  lemma RowLineCell(row: seq<Int32>, j: nat)
    requires FitsRow(row) && j < |row|
    ensures |RowLine(row)| == 6 * |row|
    ensures RowLine(row)[6 * j..6 * j + 6] == Field(row[j])
    ensures ParseField(RowLine(row)[6 * j..6 * j + 6]) == Some(row[j] as int)
  {
    var fs := Fields(row);
    forall k | 0 <= k < |fs|
      ensures |fs[k]| == 6
    {
      FieldsAt(row, k);
      FieldWidthExact(row[k]);
    }
    FieldsAt(row, j);
    ConcatSlice(fs, j);
    FieldRoundTrip(row[j]);
  }

  /** Line i of the printed rows is row i. */
  lemma {:induction false} RowLinesAt(rows: seq<seq<Int32>>, i: nat)
    requires i < |rows|
    ensures RowLines(rows)[i] == RowLine(rows[i])
  {
    if i < |rows| - 1 {
      RowLinesAt(rows[..|rows| - 1], i);
    }
  }

  /** Blocks of lines written one after another. */
  function Flatten<T>(blocks: seq<seq<T>>): seq<T> {
    if blocks == [] then [] else Flatten(blocks[..|blocks| - 1]) + blocks[|blocks| - 1]
  }

  lemma PrefixSnoc<T>(s: seq<T>, n: nat)
    requires n < |s|
    ensures s[..n + 1] == s[..n] + [s[n]]
  {
  }

  lemma AppendAssoc<T>(p: seq<T>, q: seq<T>, r: seq<T>)
    ensures (p + q) + r == p + (q + r)
  {
  }

  /** Writing the first n + 1 blocks writes the first n, then block n. */
  lemma FlattenSnoc<T>(blocks: seq<seq<T>>, n: nat)
    requires n < |blocks|
    ensures Flatten(blocks[..n + 1]) == Flatten(blocks[..n]) + blocks[n]
  {
    assert blocks[..n + 1][..n] == blocks[..n];
  }

  /** Writing block n after a heading and the first n blocks. */
  lemma HeadedFlattenSnoc<T>(head: seq<T>, blocks: seq<seq<T>>, n: nat)
    requires n < |blocks|
    ensures head + Flatten(blocks[..n + 1]) == (head + Flatten(blocks[..n])) + blocks[n]
  {
    FlattenSnoc(blocks, n);
  }

  /** Blocks of four lines each flatten to four lines per block, line p of
      block k landing at 4 * k + p. */
  lemma {:induction false} FlattenAt<T>(blocks: seq<seq<T>>, k: nat, p: nat)
    requires forall l :: 0 <= l < |blocks| ==> |blocks[l]| == 4
    requires k < |blocks| && p < 4
    ensures |Flatten(blocks)| == 4 * |blocks|
    ensures Flatten(blocks)[4 * k + p] == blocks[k][p]
  {
    var n := |blocks| - 1;
    var init := blocks[..n];
    assert Flatten(blocks) == Flatten(init) + blocks[n];
    if n > 0 {
      assert forall l :: 0 <= l < |init| ==> |init[l]| == 4;
      if k < n {
        FlattenAt(init, k, p);
        assert init[k] == blocks[k];
      } else {
        FlattenAt(init, 0, 0);
      }
    }
  }
}
