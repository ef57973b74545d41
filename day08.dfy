/** Day 8: which trees of the grid can be seen from outside it, and how far
    each tree can see. A matrix is its sequence of rows. */
module Day08 {
  import opened Common

  type Grid = seq<seq<int>>

  function Width(g: Grid): nat {
    if |g| == 0 then 0 else |g[0]|
  }

  /** Every row has the same length. */
  predicate Rectangular(g: Grid) {
    forall i :: 0 <= i < |g| ==> |g[i]| == Width(g)
  }

  // ---------------------------------------------------------------------
  // Parsing
  // ---------------------------------------------------------------------

  /** One character parsed as an `i32`: only a decimal digit succeeds. */
  function ParseHeight(c: char): (r: Option<int>)
    ensures r.Some? <==> IsDigit(c)
    ensures r.Some? ==> r.value == DigitValue(c)
  {
    if IsDigit(c) then Some(DigitValue(c)) else None
  }

  /** `parse_row`: one height per character; None where the source's
      `unwrap` panics. */
  function ParseRow(line: string): (r: Option<seq<int>>)
    ensures r.Some? <==> forall k :: 0 <= k < |line| ==> IsDigit(line[k])
    ensures r.Some? ==> |r.value| == |line| && forall k :: 0 <= k < |line| ==> r.value[k] == DigitValue(line[k])
  {
    MapAll(ParseHeight, line)
  }

  /** `parse_input`: one row per non-empty line. `DMatrix::from_rows`
      panics when there is no row or the rows differ in length. */
  function ParseInput(input: string): (r: Option<Grid>)
    ensures r.Some? ==> |r.value| == |NonEmpty(Split(input, '\n'))| > 0 && Rectangular(r.value)
    ensures r.Some? ==> forall i :: 0 <= i < |r.value| ==> ParseRow(NonEmpty(Split(input, '\n'))[i]) == Some(r.value[i])
  {
    var lines := NonEmpty(Split(input, '\n'));
    var rows := MapAll(ParseRow, lines);
    if rows.None? || |rows.value| == 0 || !Rectangular(rows.value) then None
    else
      assert forall i :: 0 <= i < |lines| ==> ParseRow(lines[i]) == Some(rows.value[i]);
      rows
  }

  /** A row of digits as a line. */
  function RenderRow(row: seq<int>): (line: string)
    requires forall k :: 0 <= k < |row| ==> 0 <= row[k] < 10
    ensures |line| == |row| && forall k :: 0 <= k < |row| ==> IsDigit(line[k]) && DigitValue(line[k]) == row[k]
  {
    seq(|row|, k requires 0 <= k < |row| => DigitChar(row[k]))
  }

  /** Parsing a line undoes rendering the row. */
  lemma ParseRenderRow(row: seq<int>)
    requires forall k :: 0 <= k < |row| ==> 0 <= row[k] < 10
    ensures ParseRow(RenderRow(row)) == Some(row)
  {
    var r := ParseRow(RenderRow(row));
    assert r.value == row;
  }

  /** Heights between 0 and 9 in a non-empty rectangle whose rows are not
      empty. */
  predicate DigitGrid(g: Grid) {
    |g| > 0 && Width(g) > 0 && Rectangular(g) &&
    forall i, j :: 0 <= i < |g| && 0 <= j < |g[i]| ==> 0 <= g[i][j] < 10
  }

  /** The grid's rows as lines. */
  function GridLines(g: Grid): (lines: seq<string>)
    requires DigitGrid(g)
    ensures |lines| == |g| && forall i :: 0 <= i < |g| ==> lines[i] == RenderRow(g[i])
  {
    seq(|g|, i requires 0 <= i < |g| => RenderRow(g[i]))
  }

  /** Parsing the grid's lines gives the grid back. */
  lemma ParseRenderGrid(g: Grid)
    requires DigitGrid(g)
    ensures ParseInput(Join(GridLines(g), '\n')) == Some(g)
  {
    var lines := GridLines(g);
    forall i, j | 0 <= i < |lines| && 0 <= j < |lines[i]| ensures lines[i][j] != '\n' {
      assert IsDigit(lines[i][j]);
    }
    SplitJoin(lines, '\n');
    assert forall i :: 0 <= i < |lines| ==> |lines[i]| == Width(g) > 0;
    NonEmptyKeepsAll(lines);
    forall i | 0 <= i < |g| ensures ParseRow(lines[i]) == Some(g[i]) {
      ParseRenderRow(g[i]);
    }
    var rows := MapAll(ParseRow, lines);
    assert rows.value == g;
  }

  // ---------------------------------------------------------------------
  // Visibility from the four edges
  // ---------------------------------------------------------------------

  /** Every tree of the sequence is shorter than `h`, decided tree by tree. */
  function AllShorter(trees: seq<int>, h: int): (b: bool)
    ensures b <==> forall k :: 0 <= k < |trees| ==> trees[k] < h
  {
    trees == [] || (trees[0] < h && AllShorter(trees[1..], h))
  }

  /** Column `j` of the grid, top to bottom. */
  function Column(g: Grid, j: nat): (col: seq<int>)
    requires Rectangular(g) && j < Width(g)
    ensures |col| == |g| && forall i :: 0 <= i < |g| ==> col[i] == g[i][j]
  {
    seq(|g|, i requires 0 <= i < |g| => g[i][j])
  }

  /** A tree is seen from an edge when it is taller than the rolling
      maximum's start value -1 and than every tree between it and that
      edge. */
  predicate SeenOver(h: int, between: seq<int>) {
    h > -1 && AllShorter(between, h)
  }

  predicate VisibleFromTop(g: Grid, i: nat, j: nat)
    requires Rectangular(g) && i < |g| && j < Width(g)
  {
    SeenOver(g[i][j], Column(g, j)[..i])
  }

  predicate VisibleFromBottom(g: Grid, i: nat, j: nat)
    requires Rectangular(g) && i < |g| && j < Width(g)
  {
    SeenOver(g[i][j], Column(g, j)[i + 1..])
  }

  predicate VisibleFromLeft(g: Grid, i: nat, j: nat)
    requires Rectangular(g) && i < |g| && j < Width(g)
  {
    SeenOver(g[i][j], g[i][..j])
  }

  predicate VisibleFromRight(g: Grid, i: nat, j: nat)
    requires Rectangular(g) && i < |g| && j < Width(g)
  {
    SeenOver(g[i][j], g[i][j + 1..])
  }

  predicate Visible(g: Grid, i: nat, j: nat)
    requires Rectangular(g) && i < |g| && j < Width(g)
  {
    VisibleFromTop(g, i, j) || VisibleFromBottom(g, i, j) || VisibleFromLeft(g, i, j) || VisibleFromRight(g, i, j)
  }

  /** With heights of at least 0, every tree on the edge of the grid can be
      seen. */
  lemma EdgeTreesAreVisible(g: Grid, i: nat, j: nat)
    requires Rectangular(g) && i < |g| && j < Width(g) && g[i][j] >= 0
    requires i == 0 || j == 0 || i == |g| - 1 || j == Width(g) - 1
    ensures Visible(g, i, j)
  {
    if i == 0 {
      assert Column(g, j)[..i] == [];
    } else if j == 0 {
      assert g[i][..j] == [];
    } else if i == |g| - 1 {
      assert Column(g, j)[i + 1..] == [];
    } else {
      assert g[i][j + 1..] == [];
    }
  }

  /** The flag one line of the rolling maximum computes for place `c`. */
  predicate TallerThanEarlier(lines: seq<seq<int>>, r: nat, c: nat)
    requires r < |lines| && c < |lines[r]|
    requires forall k :: 0 <= k < r ==> c < |lines[k]|
  {
    lines[r][c] > -1 && forall k :: 0 <= k < r ==> lines[k][c] < lines[r][c]
  }

  /** The mapping closure shared by `get_rolling_max_rowwise` and
      `get_rolling_max_colwise`: each line is compared place by place with
      the running maximum, which starts at -1, and then raises it. */
  method RollingMax(lines: seq<seq<int>>, width: nat) returns (flags: seq<seq<bool>>)
    requires forall r :: 0 <= r < |lines| ==> |lines[r]| == width
    ensures |flags| == |lines|
    ensures forall r :: 0 <= r < |lines| ==> |flags[r]| == width
    ensures forall r, c :: 0 <= r < |lines| && 0 <= c < width ==> (flags[r][c] <==> TallerThanEarlier(lines, r, c))
  {
    var currentMax := seq(width, _ => -1);
    flags := [];
    for r := 0 to |lines|
      invariant |currentMax| == width && |flags| == r
      invariant forall c :: 0 <= c < width ==> currentMax[c] >= -1
      invariant forall c, k :: 0 <= c < width && 0 <= k < r ==> lines[k][c] <= currentMax[c]
      invariant forall c :: 0 <= c < width ==> currentMax[c] == -1 || exists k :: 0 <= k < r && lines[k][c] == currentMax[c]
      invariant forall q :: 0 <= q < r ==> |flags[q]| == width
      invariant forall q, c :: 0 <= q < r && 0 <= c < width ==> (flags[q][c] <==> TallerThanEarlier(lines, q, c))
    {
      var row := lines[r];
      var flag := seq(width, c requires 0 <= c < width => row[c] > currentMax[c]);
      forall c | 0 <= c < width ensures flag[c] <==> TallerThanEarlier(lines, r, c) {
        if currentMax[c] != -1 {
          var k :| 0 <= k < r && lines[k][c] == currentMax[c];
        }
      }
      currentMax := seq(width, c requires 0 <= c < width => Max(row[c], currentMax[c]));
      flags := flags + [flag];
    }
  }

  /** Running over the rows top down flags the trees seen from the top. */
  lemma RowsDownwards(grid: Grid, i: nat, j: nat)
    requires Rectangular(grid) && i < |grid| && j < Width(grid)
    ensures TallerThanEarlier(grid, i, j) <==> VisibleFromTop(grid, i, j)
  {
    var col := Column(grid, j);
    assert forall k :: 0 <= k < i ==> col[..i][k] == grid[k][j];
  }

  /** Running over the rows bottom up flags the trees seen from the
      bottom. */
  lemma RowsUpwards(grid: Grid, i: nat, j: nat)
    requires Rectangular(grid) && i < |grid| && j < Width(grid)
    ensures TallerThanEarlier(Reverse(grid), |grid| - 1 - i, j) <==> VisibleFromBottom(grid, i, j)
  {
    if TallerThanEarlier(Reverse(grid), |grid| - 1 - i, j) {
      UpwardsSeen(grid, i, j);
    }
    if VisibleFromBottom(grid, i, j) {
      SeenUpwards(grid, i, j);
    }
  }

  /** Row `k` of the reversed grid. */
  lemma ReversedRow(grid: Grid, k: nat)
    requires k < |grid|
    ensures Reverse(grid)[k] == grid[|grid| - 1 - k]
  {
  }

  lemma UpwardsSeen(grid: Grid, i: nat, j: nat)
    requires Rectangular(grid) && i < |grid| && j < Width(grid)
    requires TallerThanEarlier(Reverse(grid), |grid| - 1 - i, j)
    ensures VisibleFromBottom(grid, i, j)
  {
    var n := |grid|;
    var lines := Reverse(grid);
    var below := Column(grid, j)[i + 1..];
    var h := grid[i][j];
    ReversedRow(grid, n - 1 - i);
    assert lines[n - 1 - i][j] == h;
    forall q | 0 <= q < |below| ensures below[q] < h {
      var k := n - 2 - i - q;
      BelowInReverse(grid, i, j, k);
      assert lines[k][j] < h;
    }
  }

  lemma SeenUpwards(grid: Grid, i: nat, j: nat)
    requires Rectangular(grid) && i < |grid| && j < Width(grid)
    requires VisibleFromBottom(grid, i, j)
    ensures TallerThanEarlier(Reverse(grid), |grid| - 1 - i, j)
  {
    var n := |grid|;
    var lines := Reverse(grid);
    var below := Column(grid, j)[i + 1..];
    var h := grid[i][j];
    assert lines[n - 1 - i][j] == h;
    forall k | 0 <= k < n - 1 - i ensures lines[k][j] < h {
      BelowInReverse(grid, i, j, k);
    }
  }

  /** Row `k` of the reversed grid, above row `i` there, holds in column `j`
      a tree below row `i` of the grid. */
  lemma BelowInReverse(grid: Grid, i: nat, j: nat, k: nat)
    requires Rectangular(grid) && i < |grid| && j < Width(grid) && k < |grid| - 1 - i
    ensures j < |Reverse(grid)[k]| && Reverse(grid)[k][j] == Column(grid, j)[i + 1..][|grid| - 2 - i - k]
  {
    var m := |grid| - 1 - k;
    ReversedRow(grid, k);
    assert |grid[m]| == Width(grid);
    assert Column(grid, j)[m] == grid[m][j];
  }

  /** `get_rolling_max_rowwise`: visibility from the top, or, when not
      downwards, from the bottom by running over the rows in reverse and
      reversing the result. */
  method RollingMaxRowwise(grid: Grid, downwards: bool) returns (vis: seq<seq<bool>>)
    requires Rectangular(grid)
    ensures |vis| == |grid| && forall i :: 0 <= i < |grid| ==> |vis[i]| == Width(grid)
    ensures forall i, j :: 0 <= i < |grid| && 0 <= j < Width(grid) ==>
      (vis[i][j] <==> if downwards then VisibleFromTop(grid, i, j) else VisibleFromBottom(grid, i, j))
  {
    if downwards {
      vis := RollingMax(grid, Width(grid));
      forall i, j | 0 <= i < |grid| && 0 <= j < Width(grid) ensures vis[i][j] <==> VisibleFromTop(grid, i, j) {
        RowsDownwards(grid, i, j);
      }
    } else {
      var n := |grid|;
      var flags := RollingMax(Reverse(grid), Width(grid));
      vis := Reverse(flags);
      forall i, j | 0 <= i < n && 0 <= j < Width(grid) ensures vis[i][j] <==> VisibleFromBottom(grid, i, j) {
        assert vis[i] == flags[n - 1 - i];
        RowsUpwards(grid, i, j);
      }
    }
  }

  /** The columns of the grid, left to right. */
  function Columns(g: Grid): (cols: seq<seq<int>>)
    requires Rectangular(g)
    ensures |cols| == Width(g) && forall j :: 0 <= j < Width(g) ==> cols[j] == Column(g, j)
  {
    seq(Width(g), j requires 0 <= j < Width(g) => Column(g, j))
  }

  /** `DMatrix::from_columns`: the rows of a matrix given by its columns. */
  function FromColumns(cols: seq<seq<bool>>, height: nat): (m: seq<seq<bool>>)
    requires forall j :: 0 <= j < |cols| ==> |cols[j]| == height
    ensures |m| == height && forall i :: 0 <= i < height ==> |m[i]| == |cols|
    ensures forall i, j :: 0 <= i < height && 0 <= j < |cols| ==> m[i][j] == cols[j][i]
  {
    seq(height, i requires 0 <= i < height => seq(|cols|, j requires 0 <= j < |cols| => cols[j][i]))
  }

  /** Running over the columns left to right flags the trees seen from
      the left. */
  lemma ColumnsRightwards(grid: Grid, i: nat, j: nat)
    requires Rectangular(grid) && i < |grid| && j < Width(grid)
    ensures TallerThanEarlier(Columns(grid), j, i) <==> VisibleFromLeft(grid, i, j)
  {
    var cols := Columns(grid);
    assert forall k :: 0 <= k < j ==> grid[i][..j][k] == cols[k][i];
  }

  /** Running over the columns right to left flags the trees seen from
      the right. */
  lemma ColumnsLeftwards(grid: Grid, i: nat, j: nat)
    requires Rectangular(grid) && i < |grid| && j < Width(grid)
    ensures var w := Width(grid); TallerThanEarlier(Reverse(Columns(grid)), w - 1 - j, i) <==> VisibleFromRight(grid, i, j)
  {
    var w := Width(grid);
    var lines := Reverse(Columns(grid));
    ReversedColumns(grid);
    if TallerThanEarlier(lines, w - 1 - j, i) {
      LeftwardsSeen(grid, lines, i, j);
    }
    if VisibleFromRight(grid, i, j) {
      LeftwardsVisible(grid, lines, i, j);
    }
  }

  /** The columns right to left, read place by place. */
  lemma ReversedColumns(grid: Grid)
    requires Rectangular(grid)
    ensures var lines := Reverse(Columns(grid));
      |lines| == Width(grid) &&
      forall k, i :: 0 <= k < Width(grid) && 0 <= i < |grid| ==>
        |lines[k]| == |grid| && lines[k][i] == grid[i][Width(grid) - 1 - k]
  {
  }

  /** A tree taller than every one to its right in the reversed columns is seen from the right. */
  lemma LeftwardsSeen(grid: Grid, lines: seq<seq<int>>, i: nat, j: nat)
    requires Rectangular(grid) && i < |grid| && j < Width(grid)
    requires |lines| == Width(grid)
    requires forall k, i :: 0 <= k < Width(grid) && 0 <= i < |grid| ==>
        |lines[k]| == |grid| && lines[k][i] == grid[i][Width(grid) - 1 - k]
    requires TallerThanEarlier(lines, Width(grid) - 1 - j, i)
    ensures VisibleFromRight(grid, i, j)
  {
    var w := Width(grid);
    var after := grid[i][j + 1..];
    var h := grid[i][j];
    forall q | 0 <= q < |after| ensures after[q] < h {
      assert after[q] == lines[w - 2 - j - q][i];
    }
  }

  /** A tree seen from the right is taller than the ones before it in the reversed columns. */
  lemma LeftwardsVisible(grid: Grid, lines: seq<seq<int>>, i: nat, j: nat)
    requires Rectangular(grid) && i < |grid| && j < Width(grid)
    requires |lines| == Width(grid)
    requires forall k, i :: 0 <= k < Width(grid) && 0 <= i < |grid| ==>
        |lines[k]| == |grid| && lines[k][i] == grid[i][Width(grid) - 1 - k]
    requires VisibleFromRight(grid, i, j)
    ensures TallerThanEarlier(lines, Width(grid) - 1 - j, i)
  {
    var w := Width(grid);
    var after := grid[i][j + 1..];
    var h := grid[i][j];
    forall k | 0 <= k < w - 1 - j ensures lines[k][i] < h {
      assert lines[k][i] == after[w - 2 - j - k];
    }
  }

  /** `get_rolling_max_colwise`: visibility from the left, or, when not
      downwards, from the right. */
  method RollingMaxColwise(grid: Grid, downwards: bool) returns (vis: seq<seq<bool>>)
    requires Rectangular(grid)
    ensures |vis| == |grid| && forall i :: 0 <= i < |grid| ==> |vis[i]| == Width(grid)
    ensures forall i, j :: 0 <= i < |grid| && 0 <= j < Width(grid) ==>
      (vis[i][j] <==> if downwards then VisibleFromLeft(grid, i, j) else VisibleFromRight(grid, i, j))
  {
    var w := Width(grid);
    var cols := Columns(grid);
    if downwards {
      var flags := RollingMax(cols, |grid|);
      vis := FromColumns(flags, |grid|);
      forall i, j | 0 <= i < |grid| && 0 <= j < w ensures vis[i][j] <==> VisibleFromLeft(grid, i, j) {
        ColumnsRightwards(grid, i, j);
      }
    } else {
      var lines := Reverse(cols);
      var flags := RollingMax(lines, |grid|);
      var columns := Reverse(flags);
      vis := FromColumns(columns, |grid|);
      forall i, j | 0 <= i < |grid| && 0 <= j < w ensures vis[i][j] <==> VisibleFromRight(grid, i, j) {
        assert vis[i][j] == flags[w - 1 - j][i];
        ColumnsLeftwards(grid, i, j);
      }
    }
  }

  /** The visibility of every tree. */
  function VisibilityMap(g: Grid): (m: seq<seq<bool>>)
    requires Rectangular(g)
    ensures |m| == |g| && forall i :: 0 <= i < |g| ==> |m[i]| == Width(g)
    ensures forall i, j :: 0 <= i < |g| && 0 <= j < Width(g) ==> (m[i][j] <==> Visible(g, i, j))
  {
    seq(|g|, i requires 0 <= i < |g| => seq(Width(g), j requires 0 <= j < Width(g) => Visible(g, i, j)))
  }

  /** Number of true places in a row. */
  function CountRow(row: seq<bool>): (n: nat)
    ensures n <= |row|
  {
    if row == [] then 0 else (if row[0] then 1 else 0) + CountRow(row[1..])
  }

  /** Number of true places in the matrix (`map` to 0/1, then `sum`). */
  function CountTrue(m: seq<seq<bool>>): nat {
    if m == [] then 0 else CountRow(m[0]) + CountTrue(m[1..])
  }

  /** `get_visible_trees`: the trees seen from at least one edge. */
  method GetVisibleTrees(grid: Grid) returns (count: nat)
    requires Rectangular(grid)
    ensures count == CountTrue(VisibilityMap(grid))
  {
    var fromTop := RollingMaxRowwise(grid, true);
    var fromLeft := RollingMaxColwise(grid, true);
    var fromBottom := RollingMaxRowwise(grid, false);
    var fromRight := RollingMaxColwise(grid, false);
    var combined := seq(|grid|, i requires 0 <= i < |grid| =>
      seq(Width(grid), j requires 0 <= j < Width(grid) => fromTop[i][j] || fromLeft[i][j] || fromBottom[i][j] || fromRight[i][j]));
    forall i | 0 <= i < |grid| ensures combined[i] == VisibilityMap(grid)[i] {
      assert forall j :: 0 <= j < Width(grid) ==> combined[i][j] == VisibilityMap(grid)[i][j];
    }
    assert combined == VisibilityMap(grid);
    count := CountTrue(combined);
  }

  /** Between the number of trees on the edge and the number of trees. */
  lemma {:induction false} CountTrueBound(m: seq<seq<bool>>, w: nat)
    requires forall i :: 0 <= i < |m| ==> |m[i]| == w
    ensures CountTrue(m) <= |m| * w
    decreases |m|
  {
    if m != [] {
      CountTrueBound(m[1..], w);
    }
  }

  /** At most every tree is visible. */
  lemma VisibleAtMostAll(g: Grid)
    requires Rectangular(g)
    ensures CountTrue(VisibilityMap(g)) <= |g| * Width(g)
  {
    CountTrueBound(VisibilityMap(g), Width(g));
  }

  // ---------------------------------------------------------------------
  // Viewing distances and the scenic score
  // ---------------------------------------------------------------------

  /** The trees a tree of height `h` sees along `trees`, nearest first: up
      to and including the first that is at least as tall. */
  function ViewingDistance(h: int, trees: seq<int>): (n: nat)
    ensures n <= |trees|
    ensures forall k :: 0 <= k < n - 1 ==> trees[k] < h
    ensures n < |trees| ==> n > 0 && trees[n - 1] >= h
    ensures n == |trees| && n > 0 ==> trees[n - 1] >= h || AllShorter(trees, h)
  {
    if trees == [] then 0
    else if trees[0] >= h then 1
    else
      var rest := ViewingDistance(h, trees[1..]);
      assert trees[1..] == trees[1..];
      1 + rest
  }

  /** The distance is the position of the first tree that blocks the view,
      or every tree when none does. */
  lemma ViewingDistanceIsFirstBlock(h: int, trees: seq<int>, k: nat)
    requires k < |trees| && trees[k] >= h
    requires forall q :: 0 <= q < k ==> trees[q] < h
    ensures ViewingDistance(h, trees) == k + 1
  {
  }

  /** `count_visible_trees`: count trees along the slice, forward or in
      reverse, stopping after the first that is at least `value`. */
  method CountVisibleTrees(value: int, slice: seq<int>, reverse: bool) returns (count: nat)
    ensures count == ViewingDistance(value, if reverse then Reverse(slice) else slice)
  {
    var trees := if reverse then Reverse(slice) else slice;
    count := 0;
    while count < |trees|
      invariant count <= |trees|
      invariant forall k :: 0 <= k < count ==> trees[k] < value
      invariant ViewingDistance(value, trees[count..]) + count == ViewingDistance(value, trees)
    {
      var a := trees[count];
      assert trees[count..][1..] == trees[count + 1..];
      count := count + 1;
      if a >= value {
        return;
      }
    }
  }

  /** `get_scenic_score`: the product of the viewing distances up, left,
      right and down from place (i, j), for a tree of height `v`. */
  function ScenicScore(grid: Grid, i: nat, j: nat, v: int): (score: int)
    requires Rectangular(grid) && i < |grid| && j < Width(grid)
    ensures 0 <= score
  {
    var col := Column(grid, j);
    var up := ViewingDistance(v, Reverse(col[..i]));
    var left := ViewingDistance(v, Reverse(grid[i][..j]));
    var right := ViewingDistance(v, grid[i][j + 1..]);
    var down := ViewingDistance(v, col[i + 1..]);
    ProductLe(up, left, right, down, up, left, right, down);
    up * left * right * down
  }

  /** A tree on the edge sees nothing in one direction, so its score is 0. */
  lemma EdgeScoreIsZero(grid: Grid, i: nat, j: nat, v: int)
    requires Rectangular(grid) && i < |grid| && j < Width(grid)
    requires i == 0 || j == 0 || i == |grid| - 1 || j == Width(grid) - 1
    ensures ScenicScore(grid, i, j, v) == 0
  {
    var col := Column(grid, j);
    assert |grid[i]| == Width(grid) && |col| == |grid|;
    var a := ViewingDistance(v, Reverse(col[..i]));
    var b := ViewingDistance(v, Reverse(grid[i][..j]));
    var c := ViewingDistance(v, grid[i][j + 1..]);
    var d := ViewingDistance(v, col[i + 1..]);
    assert a == 0 || b == 0 || c == 0 || d == 0;
    ZeroFactor(a, b, c, d);
  }

  lemma ZeroFactor(a: int, b: int, c: int, d: int)
    requires a == 0 || b == 0 || c == 0 || d == 0
    ensures a * b * c * d == 0
  {
  }

  /** The score never exceeds the product of the number of trees in each
      direction. */
  lemma ScenicScoreBound(grid: Grid, i: nat, j: nat, v: int)
    requires Rectangular(grid) && i < |grid| && j < Width(grid)
    ensures 0 <= ScenicScore(grid, i, j, v) <= i * j * (Width(grid) - j - 1) * (|grid| - i - 1)
  {
    var col := Column(grid, j);
    var a := ViewingDistance(v, Reverse(col[..i]));
    var b := ViewingDistance(v, Reverse(grid[i][..j]));
    var c := ViewingDistance(v, grid[i][j + 1..]);
    var d := ViewingDistance(v, col[i + 1..]);
    assert ScenicScore(grid, i, j, v) == a * b * c * d;
    assert a <= i && b <= j && c <= Width(grid) - j - 1 && d <= |grid| - i - 1;
    ProductLe(a, b, c, d, i, j, Width(grid) - j - 1, |grid| - i - 1);
  }

  /** Products of four naturals grow with every factor. */
  lemma ProductLe(a: nat, b: nat, c: nat, d: nat, a': nat, b': nat, c': nat, d': nat)
    requires a <= a' && b <= b' && c <= c' && d <= d'
    ensures 0 <= a * b * c * d <= a' * b' * c' * d'
  {
    MulLe(a, a', b, b');
    MulLe(a * b, a' * b', c, c');
    MulLe(a * b * c, a' * b' * c', d, d');
  }

  lemma MulLe(a: nat, a': nat, b: nat, b': nat)
    requires a <= a' && b <= b'
    ensures 0 <= a * b <= a' * b'
  {
    assert a * b <= a' * b;
    assert a' * b <= a' * b';
  }

  /** The scores of all places (`get_scenic_scores`). */
  function ScenicScores(grid: Grid): (m: seq<seq<int>>)
    requires Rectangular(grid)
    ensures |m| == |grid| && forall i :: 0 <= i < |grid| ==> |m[i]| == Width(grid)
    ensures forall i, j :: 0 <= i < |grid| && 0 <= j < Width(grid) ==> m[i][j] == ScenicScore(grid, i, j, grid[i][j])
  {
    seq(|grid|, i requires 0 <= i < |grid| =>
      seq(Width(grid), j requires 0 <= j < Width(grid) => ScenicScore(grid, i, j, grid[i][j])))
  }

  // ---------------------------------------------------------------------
  // The example grid
  // ---------------------------------------------------------------------

  function ExampleGrid(): Grid {
    [[3, 0, 3, 7, 3], [2, 5, 5, 1, 2], [6, 5, 3, 3, 2], [3, 3, 5, 4, 9], [3, 5, 3, 9, 0]]
  }

  /** The tree of height 5 in the middle of the second row sees 1 up, 1
      left, 2 right and 2 down. */
  lemma ExampleScenicScoreOne()
    ensures ScenicScore(ExampleGrid(), 1, 2, 5) == 4
  {
    var g := ExampleGrid();
    var col := Column(g, 2);
    assert col == [3, 5, 3, 5, 3];
    assert Reverse(col[..1]) == [3];
    assert Reverse(g[1][..2]) == [5, 2];
    assert g[1][3..] == [1, 2];
    assert col[2..] == [3, 5, 3];
    ViewingDistanceIsFirstBlock(5, [5, 2], 0);
    ViewingDistanceIsFirstBlock(5, [3, 5, 3], 1);
  }

  /** The tree of height 5 in the middle of the fourth row sees 2 up, 2
      left, 2 right and 1 down. */
  lemma ExampleScenicScoreTwo()
    ensures ScenicScore(ExampleGrid(), 3, 2, 5) == 8
  {
    var g := ExampleGrid();
    var col := Column(g, 2);
    assert col == [3, 5, 3, 5, 3];
    assert Reverse(col[..3]) == [3, 5, 3];
    assert Reverse(g[3][..2]) == [3, 3];
    assert g[3][3..] == [4, 9];
    assert col[4..] == [3];
    ViewingDistanceIsFirstBlock(5, [3, 5, 3], 1);
    ViewingDistanceIsFirstBlock(5, [4, 9], 1);
  }
}
