/**
 The metric grid of Inicio.py:279-293: a dict's items are laid out row by
 row, at most four per row, in the dict's key order. Each row is created with
 `num_cols` columns, so the cells after the last item of the final row stay
 empty (`None`).
 */
module Grid {
  import opened Values

  /** One `(key, value)` pair of the dict, shown as one metric. */
  type Item = (string, Value)

  /** A row of `st.columns(num_cols)` cells, each holding a metric or nothing. */
  type Row = seq<Option<Item>>

  const MaxColumns: nat := 4

  function Min(a: int, b: int): int
  {
    if a <= b then a else b
  }

  /** `num_cols`: as many columns as items, capped at four, and one column for an empty dict. */
  function Columns(n: nat): (k: nat)
    ensures 1 <= k <= MaxColumns
    ensures n == 0 ==> k == 1
    ensures n > 0 ==> k <= n
    ensures n > 0 ==> k == n || k == MaxColumns
    ensures n >= MaxColumns ==> k == MaxColumns
  {
    if n > 0 then Min(n, MaxColumns) else 1
  }

  /** `rows`: floor division plus one for a remainder -- the least row count whose cells hold all `n` items. */
  function Rows(n: nat, k: nat): (rows: nat)
    requires k >= 1
    ensures rows * k >= n
    ensures n > 0 ==> (rows - 1) * k < n
    ensures n == 0 ==> rows == 0
  {
    var q, m := n / k, n % k;
    assert n == q * k + m;
    if m != 0 then
      assert (q + 1) * k == q * k + k;
      q + 1
    else q
  }

  /** The intended content of cell `c` of row `r`: the item with running index `r * k + c`, if there is one. */
  function Cell(items: seq<Item>, k: nat, r: nat, c: nat): Option<Item>
  {
    if r * k + c < |items| then Some(items[r * k + c]) else None
  }

  /** `grid` is the layout of `items` in rows of `k` columns. */
  ghost predicate IsLayout(grid: seq<Row>, items: seq<Item>, k: nat)
  {
    && k >= 1
    && |grid| == Rows(|items|, k)
    && (forall r :: 0 <= r < |grid| ==> |grid[r]| == k)
    && (forall r, c :: 0 <= r < |grid| && 0 <= c < |grid[r]| ==> grid[r][c] == Cell(items, k, r, c))
  }

  /**
   The nested loop of Inicio.py:284-293: `rows` rows of `num_cols` cells, a
   running index `idx` that fills the next cell while items remain. `placed`
   is the final value of `idx`.
   */
  method PlaceMetrics(items: seq<Item>) returns (grid: seq<Row>, placed: nat)
    ensures placed == |items|
    ensures |grid| == Rows(|items|, Columns(|items|))
    ensures forall r :: 0 <= r < |grid| ==> |grid[r]| == Columns(|items|)
    ensures forall r, c :: 0 <= r < |grid| && 0 <= c < |grid[r]| ==> grid[r][c] == Cell(items, Columns(|items|), r, c)
  {
    var n := |items|;
    var k := Columns(n);
    var rows := Rows(n, k);
    grid := [];
    var idx := 0;
    var row := 0;
    while row < rows
      invariant 0 <= row <= rows
      invariant |grid| == row
      invariant idx == Min(row * k, n)
      invariant forall r :: 0 <= r < row ==> |grid[r]| == k
      invariant forall r, c :: 0 <= r < row && 0 <= c < |grid[r]| ==> grid[r][c] == Cell(items, k, r, c)
    {
      var cells: Row := [];
      var c := 0;
      while c < k
        invariant 0 <= c <= k
        invariant |cells| == c
        invariant idx == Min(row * k + c, n)
        invariant forall j :: 0 <= j < c ==> cells[j] == Cell(items, k, row, j)
      {
        if idx < n {
          cells := cells + [Some(items[idx])];
          idx := idx + 1;
        } else {
          cells := cells + [None];
        }
        c := c + 1;
      }
      assert row * k + k == (row + 1) * k;
      grid := grid + [cells];
      row := row + 1;
    }
    placed := idx;
  }

  /** The metrics shown in one row, left to right. */
  function Shown(row: Row): seq<Item>
  {
    if row == [] then []
    else (if row[0].Some? then [row[0].value] else []) + Shown(row[1..])
  }

  /** The metrics shown by the whole grid, row after row. */
  function ShownAll(grid: seq<Row>): seq<Item>
  {
    if grid == [] then [] else ShownAll(grid[..|grid| - 1]) + Shown(grid[|grid| - 1])
  }

  /** A row whose first `m` cells hold `s[..m]` and whose other cells are empty shows exactly `s[..m]`. */
  lemma {:induction false} ShownFilledPrefix(row: Row, s: seq<Item>, m: nat)
    requires m <= |row| && m <= |s|
    requires forall c :: 0 <= c < m ==> row[c] == Some(s[c])
    requires forall c :: m <= c < |row| ==> row[c] == None
    ensures Shown(row) == s[..m]
  {
    if row != [] {
      if m == 0 {
        ShownFilledPrefix(row[1..], s, 0);
      } else {
        ShownFilledPrefix(row[1..], s[1..], m - 1);
        assert s[..m] == [s[0]] + s[1..][..m - 1];
      }
    }
  }

  /** Row `r` of a layout shows the items with indices `r * k` up to the next row's start or the end. */
  lemma ShownRow(grid: seq<Row>, items: seq<Item>, k: nat, r: nat)
    requires IsLayout(grid, items, k) && r < |grid|
    ensures r * k < |items|
    ensures Shown(grid[r]) == items[r * k .. Min(r * k + k, |items|)]
  {
    var n := |items|;
    MulMonotone(r, |grid| - 1, k);
    var m := Min(k, n - r * k);
    var s := items[r * k ..];
    forall c | 0 <= c < m ensures grid[r][c] == Some(s[c]) {
      assert grid[r][c] == Cell(items, k, r, c);
    }
    forall c | m <= c < |grid[r]| ensures grid[r][c] == None {
      assert grid[r][c] == Cell(items, k, r, c);
    }
    ShownFilledPrefix(grid[r], s, m);
  }

  /** Rows each showing the next run of `k` items (fewer at the end) together show the first `min(r * k, n)` items, in order. */
  lemma {:induction false} ShownPrefix(grid: seq<Row>, items: seq<Item>, k: nat, r: nat)
    requires r <= |grid|
    requires forall j :: 0 <= j < |grid| ==> j * k < |items| && Shown(grid[j]) == items[j * k .. Min(j * k + k, |items|)]
    ensures ShownAll(grid[..r]) == items[..Min(r * k, |items|)]
  {
    if r > 0 {
      var lo := (r - 1) * k;
      MulPred(r, k);
      assert lo < |items| && Shown(grid[r - 1]) == items[lo .. Min(lo + k, |items|)];
      var hi := Min(lo + k, |items|);
      ShownPrefix(grid, items, k, r - 1);
      assert grid[..r][..r - 1] == grid[..r - 1];
      assert ShownAll(grid[..r]) == items[..lo] + items[lo..hi];
      assert items[..lo] + items[lo..hi] == items[..hi];
    }
  }

  /** Every item is shown exactly once, in the dict's key order: reading the grid row by row gives back the items. */
  lemma ShownAllIsItems(grid: seq<Row>, items: seq<Item>, k: nat)
    requires IsLayout(grid, items, k)
    ensures ShownAll(grid) == items
  {
    forall j | 0 <= j < |grid|
      ensures j * k < |items| && Shown(grid[j]) == items[j * k .. Min(j * k + k, |items|)]
    {
      ShownRow(grid, items, k, j);
    }
    ShownPrefix(grid, items, k, |grid|);
    assert grid[..|grid|] == grid;
  }

  /** Multiplication by a non-negative factor is monotone. */
  lemma MulMonotone(a: nat, b: nat, k: nat)
    requires a <= b
    ensures a * k <= b * k
  {
  }

  /** One row fewer is `k` cells fewer. */
  lemma MulPred(r: nat, k: nat)
    requires r >= 1
    ensures (r - 1) * k + k == r * k
  {
  }

  /** An index below `rows * k` lies in one of the first `rows` rows. */
  lemma RowOfIndex(i: nat, k: nat, rows: nat)
    requires k >= 1 && i < rows * k
    ensures i / k < rows && i == (i / k) * k + i % k
  {
    var q := i / k;
    if q >= rows {
      MulMonotone(rows, q, k);
    }
  }

  /** Item `i` sits in row `i / k`, column `i % k`. */
  lemma ItemPosition(grid: seq<Row>, items: seq<Item>, k: nat, i: nat)
    requires IsLayout(grid, items, k) && i < |items|
    ensures i / k < |grid| && i % k < |grid[i / k]|
    ensures grid[i / k][i % k] == Some(items[i])
  {
    var q, m := i / k, i % k;
    RowOfIndex(i, k, |grid|);
    assert grid[q][m] == Cell(items, k, q, m);
  }

  /** Euclidean division is unique: `i = r * k + c` with `0 <= c < k` forces `r = i / k` and `c = i % k`. */
  lemma DivModUnique(i: nat, k: nat, r: nat, c: nat)
    requires k >= 1 && c < k && r * k + c == i
    ensures r == i / k && c == i % k
  {
    var q, m := i / k, i % k;
    if r < q {
      MulMonotone(r + 1, q, k);
    } else if r > q {
      MulMonotone(q + 1, r, k);
    }
  }

  /**
   The cell with running index `i` is the one at `(i / k, i % k)` and no
   other, and it holds item `i` when that item exists: no item is placed twice.
   */
  lemma CellIndexUnique(grid: seq<Row>, items: seq<Item>, k: nat, r: nat, c: nat, i: nat)
    requires IsLayout(grid, items, k) && r < |grid| && c < |grid[r]| && r * k + c == i
    ensures r == i / k && c == i % k
    ensures grid[r][c] == (if i < |items| then Some(items[i]) else None)
  {
    DivModUnique(i, k, r, c);
    assert grid[r][c] == Cell(items, k, r, c);
  }

  /** No row shows more than `k` metrics, every row but the last is full, and the last shows at least one. */
  lemma RowSizes(grid: seq<Row>, items: seq<Item>, k: nat, r: nat)
    requires IsLayout(grid, items, k) && r < |grid|
    ensures 1 <= |Shown(grid[r])| <= k
    ensures r < |grid| - 1 ==> |Shown(grid[r])| == k
  {
    ShownRow(grid, items, k, r);
    if r < |grid| - 1 {
      MulMonotone(r + 1, |grid| - 1, k);
      MulPred(r + 1, k);
    }
  }

  /** The loop's grid is the layout of the items in `Columns(n)` columns. */
  lemma PlaceMetricsIsLayout(items: seq<Item>, grid: seq<Row>)
    requires |grid| == Rows(|items|, Columns(|items|))
    requires forall r :: 0 <= r < |grid| ==> |grid[r]| == Columns(|items|)
    requires forall r, c :: 0 <= r < |grid| && 0 <= c < |grid[r]| ==> grid[r][c] == Cell(items, Columns(|items|), r, c)
    ensures IsLayout(grid, items, Columns(|items|))
    ensures ShownAll(grid) == items
  {
    ShownAllIsItems(grid, items, Columns(|items|));
  }
}
