/**
 The key grid of clients/keyboard.c: keys drawn row by row until a row is full,
 and found again by subtracting widths from a cell number.
 */
module KeyboardLayout {
  import opened Numbers

  const KEY_WIDTH := 60
  const KEY_HEIGHT := 50

  type Width = w: int | 0 < w witness 1

  function Sum(widths: seq<Width>): nat {
    if widths == [] then 0 else Sum(widths[..|widths| - 1]) + widths[|widths| - 1]
  }

  /** Where a key is drawn, in cells. */
  datatype Place = Place(row: nat, col: nat)

  function After(p: Place, width: Width, columns: nat): Place {
    if p.col + width >= columns then Place(p.row + 1, 0) else Place(p.row, p.col + width)
  }

  function PlaceOf(widths: seq<Width>, columns: nat, i: nat): Place
    requires i <= |widths|
  {
    if i == 0 then Place(0, 0) else After(PlaceOf(widths, columns, i - 1), widths[i - 1], columns)
  }

  /** A key's first cell, counting along the rows. */
  function CellOf(widths: seq<Width>, columns: nat, i: nat): nat
    requires i <= |widths|
  {
    PlaceOf(widths, columns, i).row * columns + PlaceOf(widths, columns, i).col
  }

  /** The pixels of a key as it is drawn. */
  predicate Drawn(widths: seq<Width>, columns: nat, i: nat, x: int, y: int)
    requires i < |widths|
  {
    var p := PlaceOf(widths, columns, i);
    && p.col * KEY_WIDTH <= x < (p.col + widths[i]) * KEY_WIDTH
    && p.row * KEY_HEIGHT <= y < (p.row + 1) * KEY_HEIGHT
  }

  method DrawKeys(widths: seq<Width>, columns: nat) returns (places: seq<Place>)
    ensures |places| == |widths|
    ensures forall i | 0 <= i < |widths| :: places[i] == PlaceOf(widths, columns, i)
  {
    places := [];
    var row: nat, col: nat := 0, 0;
    for i := 0 to |widths|
      invariant |places| == i && Place(row, col) == PlaceOf(widths, columns, i)
      invariant forall k | 0 <= k < i :: places[k] == PlaceOf(widths, columns, k)
    {
      places := places + [Place(row, col)];
      NextPlace(widths, columns, i);
      col := col + widths[i];
      if col >= columns {
        row := row + 1;
        col := 0;
      }
    }
  }

  datatype Key = Key(i: nat) | NoKey

  /** The key whose widths, laid end to end, cover the cell. */
  predicate Covers(widths: seq<Width>, cell: int, i: nat) {
    i < |widths| && Sum(widths[..i]) <= cell < Sum(widths[..i + 1])
  }

  /** Division that drops the fraction, as conversion to an integer does. */
  function Truncated(n: int, d: nat): int
    requires d > 0
  {
    if n < 0 then -(-n / d) else n / d
  }

  /** The cell of a point; left of the keyboard and above it as well. */
  function PointCell(columns: nat, x: int, y: int): int {
    Truncated(x + Truncated(y, KEY_HEIGHT) * columns * KEY_WIDTH, KEY_WIDTH)
  }

  lemma CellInside(columns: nat, x: nat, y: nat)
    ensures PointCell(columns, x, y) == x / KEY_WIDTH + y / KEY_HEIGHT * columns
  {
    var cells := y / KEY_HEIGHT * columns;
    assert (x + cells * KEY_WIDTH) / KEY_WIDTH == x / KEY_WIDTH + cells;
  }

  /** The hit test of a button press or touch; a point before the first cell is taken
      for one in it. */
  method KeyAt(widths: seq<Width>, columns: nat, x: int, y: int) returns (key: Key)
    requires -KEY_HEIGHT < y
    ensures var cell := Max(0, PointCell(columns, x, y));
      && (key.Key? ==> Covers(widths, cell, key.i))
      && (key.NoKey? ==> Sum(widths) <= cell)
  {
    var row := Truncated(y, KEY_HEIGHT);
    var col := Truncated(x + row * columns * KEY_WIDTH, KEY_WIDTH);
    ghost var cell := col;
    for i := 0 to |widths|
      invariant col == cell - Sum(widths[..i]) && (i > 0 ==> 0 <= col)
    {
      assert widths[..i + 1][..i] == widths[..i];
      col := col - widths[i];
      if col < 0 {
        return Key(i);
      }
    }
    assert widths[..|widths|] == widths;
    return NoKey;
  }

  // ------------------------------------------------------- hit testing inverts drawing

  lemma SumOfPrefix(widths: seq<Width>, i: nat)
    requires i < |widths|
    ensures Sum(widths[..i + 1]) == Sum(widths[..i]) + widths[i]
  {
    assert widths[..i + 1][..i] == widths[..i];
  }

  lemma {:induction false} SumGrows(widths: seq<Width>, i: nat, j: nat)
    requires i <= j <= |widths|
    ensures Sum(widths[..i]) + (j - i) <= Sum(widths[..j])
  {
    if i < j {
      SumGrows(widths, i, j - 1);
      SumOfPrefix(widths, j - 1);
    }
  }

  /** A cell is covered by one key at most. */
  lemma CoversUnique(widths: seq<Width>, cell: int, i: nat, j: nat)
    requires Covers(widths, cell, i) && Covers(widths, cell, j)
    ensures i == j
  {
    if i < j {
      SumGrows(widths, i + 1, j);
    } else if j < i {
      SumGrows(widths, j + 1, i);
    }
  }

  /** A key that ends within the columns. */
  predicate Fits(widths: seq<Width>, columns: nat, i: nat) {
    i < |widths| && PlaceOf(widths, columns, i).col + widths[i] <= columns
  }

  predicate AllFit(widths: seq<Width>, columns: nat, n: nat) {
    forall i: nat | i < n :: Fits(widths, columns, i)
  }

  /** No row is filled past its last column; the last key may be. */
  predicate ExactFill(widths: seq<Width>, columns: nat) {
    widths == [] || AllFit(widths, columns, |widths| - 1)
  }

  /** Every point of a key's rectangle hits that key. */
  ghost predicate HitsItself(widths: seq<Width>, columns: nat, i: nat)
    requires i < |widths|
  {
    forall x: nat, y: nat | Drawn(widths, columns, i, x, y) :: Covers(widths, PointCell(columns, x, y), i)
  }

  /** Cells count the widths before a key, less what overfull rows have lost. */
  lemma {:induction false} CellBehind(widths: seq<Width>, columns: nat, i: nat)
    requires i <= |widths|
    ensures CellOf(widths, columns, i) <= Sum(widths[..i])
    ensures AllFit(widths, columns, i) <==> CellOf(widths, columns, i) == Sum(widths[..i])
  {
    if i > 0 {
      assert AllFit(widths, columns, i) <==> AllFit(widths, columns, i - 1) && Fits(widths, columns, i - 1);
      CellBehind(widths, columns, i - 1);
      SumOfPrefix(widths, i - 1);
      CellStep(widths, columns, i - 1);
    }
  }

  lemma CellStep(widths: seq<Width>, columns: nat, i: nat)
    requires i < |widths|
    ensures var p := PlaceOf(widths, columns, i);
      CellOf(widths, columns, i + 1) == CellOf(widths, columns, i) +
        if Fits(widths, columns, i) then widths[i] else columns - p.col
  {
    var p := PlaceOf(widths, columns, i);
    assert (p.row + 1) * columns == p.row * columns + columns;
  }

  lemma PointInKey(row: nat, col: nat, width: nat, columns: nat, x: nat, y: nat)
    requires col * KEY_WIDTH <= x < (col + width) * KEY_WIDTH
    requires row * KEY_HEIGHT <= y < (row + 1) * KEY_HEIGHT
    ensures row * columns + col <= PointCell(columns, x, y) < row * columns + col + width
  {
    CellInside(columns, x, y);
  }

  lemma HitsItselfIff(widths: seq<Width>, columns: nat, i: nat)
    requires i < |widths|
    ensures HitsItself(widths, columns, i) <==> CellOf(widths, columns, i) == Sum(widths[..i])
  {
    var p := PlaceOf(widths, columns, i);
    SumOfPrefix(widths, i);
    if HitsItself(widths, columns, i) {
      CornersCover(widths, columns, i);
    }
    if CellOf(widths, columns, i) == Sum(widths[..i]) {
      forall x: nat, y: nat | Drawn(widths, columns, i, x, y)
        ensures Covers(widths, PointCell(columns, x, y), i)
      {
        PointInKey(p.row, p.col, widths[i], columns, x, y);
      }
    }
  }

  /** The first and the last cell of a rectangle. */
  lemma CornersCover(widths: seq<Width>, columns: nat, i: nat)
    requires i < |widths| && HitsItself(widths, columns, i)
    ensures Covers(widths, CellOf(widths, columns, i), i)
    ensures Covers(widths, CellOf(widths, columns, i) + widths[i] - 1, i)
  {
    var p := PlaceOf(widths, columns, i);
    var x, x', y := p.col * KEY_WIDTH, (p.col + widths[i] - 1) * KEY_WIDTH, p.row * KEY_HEIGHT;
    assert Drawn(widths, columns, i, x, y) && Drawn(widths, columns, i, x', y);
    CellInside(columns, x, y);
    CellInside(columns, x', y);
    assert x / KEY_WIDTH == p.col && x' / KEY_WIDTH == p.col + widths[i] - 1 && y / KEY_HEIGHT == p.row;
    assert Covers(widths, PointCell(columns, x, y), i);
    assert Covers(widths, PointCell(columns, x', y), i);
  }

  /** Hit testing inverts drawing exactly for layouts whose rows come out even. */
  lemma HitInvertsDrawIff(widths: seq<Width>, columns: nat)
    ensures (forall i: nat | i < |widths| :: HitsItself(widths, columns, i)) <==> ExactFill(widths, columns)
  {
    forall i: nat | i < |widths|
      ensures HitsItself(widths, columns, i) <==> CellOf(widths, columns, i) == Sum(widths[..i])
    {
      HitsItselfIff(widths, columns, i);
    }
    forall i: nat | i < |widths|
      ensures AllFit(widths, columns, i) <==> CellOf(widths, columns, i) == Sum(widths[..i])
    {
      CellBehind(widths, columns, i);
    }
    if ExactFill(widths, columns) {
      forall i: nat | i < |widths| ensures HitsItself(widths, columns, i) {
        assert AllFit(widths, columns, i);
      }
    }
    if (forall i: nat | i < |widths| :: HitsItself(widths, columns, i)) && |widths| > 0 {
      var last := |widths| - 1;
      assert HitsItself(widths, columns, last);
    }
  }

  /** The hit test finds key i at every point drawn for key i. */
  method FindDrawn(widths: seq<Width>, columns: nat, i: nat, x: nat, y: nat) returns (key: Key)
    requires ExactFill(widths, columns) && i < |widths| && Drawn(widths, columns, i, x, y)
    ensures key == Key(i)
  {
    key := KeyAt(widths, columns, x, y);
    DrawnIsCovered(widths, columns, i, x, y);
    CellInside(columns, x, y);
    if key.Key? {
      CoversUnique(widths, PointCell(columns, x, y), key.i, i);
    }
  }

  lemma DrawnIsCovered(widths: seq<Width>, columns: nat, i: nat, x: nat, y: nat)
    requires ExactFill(widths, columns) && i < |widths| && Drawn(widths, columns, i, x, y)
    ensures Covers(widths, PointCell(columns, x, y), i) && PointCell(columns, x, y) < Sum(widths)
  {
    HitInvertsDrawIff(widths, columns);
    assert HitsItself(widths, columns, i);
    SumGrows(widths, i + 1, |widths|);
    assert widths[..|widths|] == widths;
  }

  // ------------------------------------------------------------------ the three tables

  function Ones(n: nat): (s: seq<Width>)
    ensures |s| == n && forall i | 0 <= i < n :: s[i] == 1
  {
    seq(n, i => 1)
  }

  function Widths(rows: seq<seq<Width>>): seq<Width> {
    if rows == [] then [] else Widths(rows[..|rows| - 1]) + rows[|rows| - 1]
  }

  /** The widths of the keys, row by row. */
  const NORMAL: seq<seq<Width>> := [Ones(10) + [2], Ones(10) + [2], [2] + Ones(10), [1, 5] + Ones(4) + [2]]
  const NUMERIC: seq<seq<Width>> := [Ones(10) + [2], [4, 2] + Ones(4) + [2]]
  const ARABIC: seq<seq<Width>> := [Ones(10) + [2] + Ones(1), Ones(11) + [2],
    [2] + Ones(9) + [2], Ones(3) + [6] + Ones(2) + [2]]

  lemma {:induction false} SumOfConcatenation(s: seq<Width>, t: seq<Width>)
    ensures Sum(s + t) == Sum(s) + Sum(t)
  {
    if t == [] {
      assert s + t == s;
    } else {
      assert (s + t)[..|s + t| - 1] == s + t[..|t| - 1];
      SumOfConcatenation(s, t[..|t| - 1]);
    }
  }

  lemma {:induction false} SumOfOnes(n: nat)
    ensures Sum(Ones(n)) == n
  {
    if n > 0 {
      assert Ones(n)[..n - 1] == Ones(n - 1);
      SumOfOnes(n - 1);
    }
  }

  /** Drawing depends on the keys before only. */
  lemma {:induction false} PlaceInPrefix(s: seq<Width>, t: seq<Width>, columns: nat, i: nat)
    requires i <= |s|
    ensures PlaceOf(s + t, columns, i) == PlaceOf(s, columns, i)
  {
    if i > 0 {
      PlaceInPrefix(s, t, columns, i - 1);
    }
  }

  /** After full rows, a key stands as many columns in as the widths before it in its row. */
  lemma {:induction false} PlaceInRow(s: seq<Width>, row: seq<Width>, columns: nat, i: nat)
    requires i < |row| && Sum(row) == columns && PlaceOf(s, columns, |s|).col == 0
    ensures PlaceOf(s + row, columns, |s| + i) == Place(PlaceOf(s, columns, |s|).row, Sum(row[..i]))
    ensures Sum(row[..i]) + row[i] <= columns
  {
    EndsWithin(row, i);
    if i == 0 {
      PlaceInPrefix(s, row, columns, |s|);
      assert row[..0] == [];
    } else {
      PlaceInRow(s, row, columns, i - 1);
      EndsWithin(row, i - 1);
      NextPlace(s + row, columns, |s| + i - 1);
    }
  }

  lemma EndsWithin(row: seq<Width>, i: nat)
    requires i < |row|
    ensures Sum(row[..i + 1]) == Sum(row[..i]) + row[i]
    ensures if i + 1 < |row| then Sum(row[..i + 1]) < Sum(row) else Sum(row[..i + 1]) == Sum(row)
  {
    SumOfPrefix(row, i);
    SumGrows(row, i + 1, |row|);
    assert row[..|row|] == row;
  }

  lemma NextPlace(widths: seq<Width>, columns: nat, i: nat)
    requires i < |widths|
    ensures PlaceOf(widths, columns, i + 1) == After(PlaceOf(widths, columns, i), widths[i], columns)
  {
  }

  /** A table of rows that each fill the columns comes out even. */
  lemma {:induction false} FullRowsFill(rows: seq<seq<Width>>, columns: nat)
    requires columns > 0 && forall row <- rows :: Sum(row) == columns
    ensures var s := Widths(rows); PlaceOf(s, columns, |s|).col == 0 && AllFit(s, columns, |s|)
  {
    if rows != [] {
      var most, row := rows[..|rows| - 1], rows[|rows| - 1];
      FullRowsFill(most, columns);
      RowFills(Widths(most), row, columns);
    }
  }

  lemma RowFills(s: seq<Width>, row: seq<Width>, columns: nat)
    requires columns > 0 && Sum(row) == columns
    requires PlaceOf(s, columns, |s|).col == 0 && AllFit(s, columns, |s|)
    ensures PlaceOf(s + row, columns, |s + row|).col == 0 && AllFit(s + row, columns, |s + row|)
  {
    forall i: nat | i < |s + row| ensures Fits(s + row, columns, i) {
      if i < |s| {
        assert Fits(s, columns, i);
        PlaceInPrefix(s, row, columns, i);
      } else {
        PlaceInRow(s, row, columns, i - |s|);
      }
    }
    PlaceInRow(s, row, columns, |row| - 1);
    SumOfPrefix(row, |row| - 1);
    assert row[..|row|] == row;
  }

  lemma RowSum(a: seq<Width>, n: nat, b: seq<Width>)
    ensures Sum(a + Ones(n) + b) == Sum(a) + n + Sum(b)
  {
    SumOfConcatenation(a + Ones(n), b);
    SumOfConcatenation(a, Ones(n));
    SumOfOnes(n);
  }

  lemma TablesFill()
    ensures ExactFill(Widths(NORMAL), 12) && ExactFill(Widths(NUMERIC), 12) && ExactFill(Widths(ARABIC), 13)
  {
    NormalRows();
    NumericRows();
    ArabicRows();
    FullRowsFill(NORMAL, 12);
    FullRowsFill(NUMERIC, 12);
    FullRowsFill(ARABIC, 13);
  }

  lemma SmallSums()
    ensures Sum([1]) == 1 && Sum([2]) == 2 && Sum([6]) == 6 && Sum([1, 5]) == 6 && Sum([4, 2]) == 6 && Sum([]) == 0
  {
    SumOfConcatenation([1], [5]);
    SumOfConcatenation([4], [2]);
    assert [1] + [5] == [1, 5] && [4] + [2] == [4, 2];
  }

  lemma NormalRows()
    ensures forall row <- NORMAL :: Sum(row) == 12
  {
    SmallSums();
    assert Ones(10) + [2] == [] + Ones(10) + [2];
    RowSum([], 10, [2]);
    assert [2] + Ones(10) == [2] + Ones(10) + [];
    RowSum([2], 10, []);
    RowSum([1, 5], 4, [2]);
  }

  lemma NumericRows()
    ensures forall row <- NUMERIC :: Sum(row) == 12
  {
    SmallSums();
    assert Ones(10) + [2] == [] + Ones(10) + [2];
    RowSum([], 10, [2]);
    RowSum([4, 2], 4, [2]);
  }

  lemma ArabicRows()
    ensures forall row <- ARABIC :: Sum(row) == 13
  {
    SmallSums();
    assert Ones(10) + [2] == [] + Ones(10) + [2];
    RowSum([], 10, [2]);
    RowSum(Ones(10) + [2], 1, []);
    assert Ones(10) + [2] + Ones(1) == Ones(10) + [2] + Ones(1) + [];
    assert Ones(11) + [2] == [] + Ones(11) + [2];
    RowSum([], 11, [2]);
    RowSum([2], 9, [2]);
    assert Ones(3) + [6] == [] + Ones(3) + [6];
    RowSum([], 3, [6]);
    RowSum(Ones(3) + [6], 2, [2]);
  }
}
