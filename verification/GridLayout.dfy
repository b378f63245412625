// Grid layout and the automatic tiling that uses it (compositor/src/layout.rs,
// compositor/src/compositor.rs). When the gaps do not fit in the container, the source's
// unsigned subtraction for the last column or row underflows.
module GridLayout {
  import opened Options
  import opened Arithmetic
  import opened Geometry

  // --- One axis -------------------------------------------------------------------------------

  // `cells` cells of a row or column of the given size, with gaps between them.
  datatype Axis = Axis(origin: int, size: nat, cells: nat, gap: nat)
  {
    predicate Good() { 1 <= cells }

    // The gaps fit.
    predicate Fits() { Good() && (cells - 1) * gap <= size }

    // The size of every cell but the last.
    function Cell(): nat
      requires Good()
    {
      Max(size - (cells - 1) * gap, 0) / cells
    }

    function Start(k: nat): int
      requires Good() && k < cells
    {
      origin + k * (Cell() + gap)
    }

    // The last cell takes what is left. A negative length is an underflow.
    function Length(k: nat): int
      requires Good() && k < cells
    {
      if k == cells - 1 then size - Cell() * (cells - 1) - (cells - 1) * gap else Cell()
    }
  }

  lemma ShareFits(total: nat, cells: nat)
    requires 1 <= cells
    ensures cells * (total / cells) <= total
  {
  }

  // The last cell is at least as large as the others.
  lemma LastIsLargest(a: Axis)
    requires a.Fits()
    ensures a.Cell() <= a.Length(a.cells - 1)
  {
    var rest := a.size - (a.cells - 1) * a.gap;
    ShareFits(rest, a.cells);
    var c := a.Cell();
    assert a.cells * c == c * (a.cells - 1) + c;
  }

  // The lengths are those of a real row exactly when the gaps fit.
  lemma LengthsIff(a: Axis, k: nat)
    requires a.Good() && k < a.cells
    ensures 0 <= a.Length(k) <==> k < a.cells - 1 || a.Fits()
  {
    if a.Fits() {
      LastIsLargest(a);
    } else {
      Quotient(a.cells);
    }
  }

  lemma Quotient(n: nat)
    requires 1 <= n
    ensures 0 / n == 0
  {
  }

  // Cells and gaps tile the axis: each cell is followed by a gap and the next cell, and the last
  // cell ends exactly at the end.
  lemma CellsTile(a: Axis, k: nat)
    requires a.Fits() && k < a.cells
    ensures 0 <= a.Length(k)
    ensures k + 1 < a.cells ==> a.Start(k) + a.Length(k) + a.gap == a.Start(k + 1)
    ensures k + 1 == a.cells ==> a.Start(k) + a.Length(k) == a.origin + a.size
  {
    LastIsLargest(a);
    var s := a.Cell() + a.gap;
    if k + 1 < a.cells {
      Distribute(s, k, 1);
      assert (k + 1) * s == s * (k + 1) && k * s == s * k;
    } else {
      Distribute(k, a.Cell(), a.gap);
    }
  }

  // The lengths of the first n cells and the gaps after them.
  function Extent(a: Axis, n: nat): int
    requires a.Fits() && n <= a.cells
  {
    if n == 0 then 0 else Extent(a, n - 1) + a.Length(n - 1) + if n < a.cells then a.gap else 0
  }

  // A full row or column with its gaps sums exactly to the size of the area.
  lemma {:induction false} ExtentIsStart(a: Axis, n: nat)
    requires a.Fits() && n <= a.cells
    ensures n < a.cells ==> Extent(a, n) == a.Start(n) - a.origin
    ensures n == a.cells ==> Extent(a, n) == a.size
  {
    if 0 < n {
      ExtentIsStart(a, n - 1);
      CellsTile(a, n - 1);
    }
  }

  lemma {:induction false} CellsFollow(a: Axis, j: nat, k: nat)
    requires a.Fits() && j < k < a.cells
    ensures a.Start(j) + a.Length(j) + a.gap <= a.Start(k)
  {
    CellsTile(a, k - 1);
    if j < k - 1 {
      CellsFollow(a, j, k - 1);
    }
  }

  // Every cell lies inside the axis.
  lemma CellInside(a: Axis, k: nat)
    requires a.Fits() && k < a.cells
    ensures a.origin <= a.Start(k) && 0 <= a.Length(k) && a.Start(k) + a.Length(k) <= a.origin + a.size
  {
    hide Axis.Start, Axis.Length;
    CellsTile(a, k);
    FirstStart(a);
    if 0 < k { CellsFollow(a, 0, k); CellsTile(a, 0); }
    if k < a.cells - 1 {
      CellsFollow(a, k, a.cells - 1);
      CellsTile(a, a.cells - 1);
    }
  }

  lemma FirstStart(a: Axis)
    requires a.Fits()
    ensures a.Start(0) == a.origin
  {
  }

  // --- The grid -------------------------------------------------------------------------------

  datatype GridItem = GridItem(id: nat, maxWidth: Option<nat>, maxHeight: Option<nat>)

  // The two axes of a grid.
  datatype Grid = Grid(x: Axis, y: Axis)
  {
    predicate Good() { x.Good() && y.Good() }
    predicate Fits() { x.Fits() && y.Fits() }

    // How many cells there are.
    function Cells(): nat { y.cells * x.cells }
  }

  function GridOf(container: Rect, rows: nat, cols: nat, gap: nat): (g: Grid)
    ensures g.Good()
  {
    Grid(Axis(container.x, container.width, Max(cols, 1), gap), Axis(container.y, container.height, Max(rows, 1), gap))
  }

  lemma RowAndColumn(i: nat, cols: nat)
    requires 1 <= cols
    ensures 0 <= i / cols && 0 <= i % cols < cols && i == cols * (i / cols) + i % cols
  {
  }

  function Row(i: nat, cols: nat): nat
    requires 1 <= cols
  {
    i / cols
  }

  function Col(i: nat, cols: nat): (c: nat)
    requires 1 <= cols
    ensures c < cols
  {
    i % cols
  }

  predicate Placed(g: Grid, i: nat) {
    g.Good() && Row(i, g.x.cells) < g.y.cells
  }

  // The i-th child's size is computed by a subtraction that underflows.
  predicate Underflows(g: Grid, i: nat)
    requires Placed(g, i)
  {
    (!g.x.Fits() && Col(i, g.x.cells) == g.x.cells - 1) || (!g.y.Fits() && Row(i, g.x.cells) == g.y.cells - 1)
  }

  lemma Underflow(g: Grid, i: nat)
    requires Placed(g, i)
    ensures Underflows(g, i) <==> g.x.Length(Col(i, g.x.cells)) < 0 || g.y.Length(Row(i, g.x.cells)) < 0
  {
    LengthsIff(g.x, Col(i, g.x.cells));
    LengthsIff(g.y, Row(i, g.x.cells));
  }

  // The rectangle of the i-th child, row by row.
  function CellRect(g: Grid, i: nat, c: GridItem): Rect
    requires Placed(g, i) && !Underflows(g, i)
  {
    Underflow(g, i);
    var row, col := Row(i, g.x.cells), Col(i, g.x.cells);
    Rect(g.x.Start(col), g.y.Start(row), AtMost(g.x.Length(col), c.maxWidth), AtMost(g.y.Length(row), c.maxHeight))
  }

  lemma RowBound(i: nat, cols: nat, rows: nat)
    requires 1 <= cols
    ensures Row(i, cols) < rows <==> i < rows * cols
  {
    RowAndColumn(i, cols);
    var q := i / cols;
    if q < rows {
      assert rows * cols == cols * q + cols * (rows - q);
      Grows(rows - q, cols);
    } else {
      assert cols * q == rows * cols + cols * (q - rows);
      NotNegative(cols, q - rows);
    }
  }

  lemma Grows(q: nat, m: nat)
    requires 1 <= q
    ensures m <= m * q
  {
    NotNegative(m, q - 1);
    assert m * q == m + m * (q - 1);
  }

  lemma NotNegative(a: nat, b: nat)
    ensures 0 <= a * b
  {
  }

  // As many children as there are cells are placed, each in its cell. `None` is the underflow.
  method LayoutGrid(container: Rect, rows: nat, cols: nat, children: seq<GridItem>, gap: nat)
    returns (result: Option<seq<(nat, Rect)>>)
    ensures var g := GridOf(container, rows, cols, gap);
            var n := Min(|children|, g.Cells());
            && (result.Some? <==> forall i: nat | i < n && Placed(g, i) :: !Underflows(g, i))
            && (result.Some? ==>
                  && |result.value| == n
                  && forall i | 0 <= i < n ::
                       && Placed(g, i) && !Underflows(g, i)
                       && result.value[i] == (children[i].id, CellRect(g, i, children[i])))
  {
    hide Underflows, Row, Col, Axis.Start, Axis.Length, Axis.Fits;
    var g := GridOf(container, rows, cols, gap);
    var placed := [];
    for i := 0 to |children|
      invariant |placed| == i <= g.Cells()
      invariant forall k | 0 <= k < i ::
                  && Placed(g, k) && !Underflows(g, k)
                  && placed[k] == (children[k].id, CellRect(g, k, children[k]))
    {
      var row, col := Row(i, g.x.cells), Col(i, g.x.cells);
      RowBound(i, g.x.cells, g.y.cells);
      if g.y.cells <= row { return Some(placed); }
      Underflow(g, i);
      var width, height := g.x.Length(col), g.y.Length(row);
      if width < 0 || height < 0 { return None; }
      placed := placed + [(children[i].id, Rect(g.x.Start(col), g.y.Start(row),
                                                AtMost(width, children[i].maxWidth),
                                                AtMost(height, children[i].maxHeight)))];
    }
    result := Some(placed);
  }

  // Two children in the same row are in different columns, and otherwise in different rows.
  lemma DifferentCells(i: nat, j: nat, cols: nat)
    requires 1 <= cols && i < j
    ensures Row(i, cols) < Row(j, cols) || (Row(i, cols) == Row(j, cols) && Col(i, cols) < Col(j, cols))
  {
    RowAndColumn(i, cols);
    RowAndColumn(j, cols);
    RowBound(j, cols, i / cols);
    assert (i / cols) * cols == cols * (i / cols);
  }

  // Cells share no pixel.
  lemma CellsDisjoint(g: Grid, i: nat, j: nat, c: GridItem, d: GridItem, x: int, y: int)
    requires g.Fits() && i < j && Placed(g, i) && Placed(g, j)
    ensures !(Inside(CellRect(g, i, c), x, y) && Inside(CellRect(g, j, d), x, y))
  {
    DifferentCells(i, j, g.x.cells);
    hide Row, Col, Axis.Start, Axis.Length;
    if Row(i, g.x.cells) < Row(j, g.x.cells) {
      CellsFollow(g.y, Row(i, g.x.cells), Row(j, g.x.cells));
    } else {
      CellsFollow(g.x, Col(i, g.x.cells), Col(j, g.x.cells));
    }
  }

  // Cells lie inside the area.
  lemma CellInArea(g: Grid, i: nat, c: GridItem, x: int, y: int)
    requires g.Fits() && Placed(g, i) && Inside(CellRect(g, i, c), x, y)
    ensures g.x.origin <= x < g.x.origin + g.x.size && g.y.origin <= y < g.y.origin + g.y.size
  {
    hide Row, Col, Axis.Start, Axis.Length;
    CellInside(g.x, Col(i, g.x.cells));
    CellInside(g.y, Row(i, g.x.cells));
  }

  // The cell in the given row and column of a container whose gaps fit, without maxima: the first one is
  // in the corner, the next one is a gap to the right and as tall, the one below a gap down and as wide,
  // the last ones end where the container ends, and all but the last are as large as the first.
  lemma NeighbourCells(container: Rect, rows: nat, cols: nat, gap: nat, row: nat, col: nat, c: GridItem)
    requires row < rows && col < cols && GridOf(container, rows, cols, gap).Fits()
    requires c.maxWidth.None? && c.maxHeight.None?
    ensures var g, i := GridOf(container, rows, cols, gap), row * cols + col;
            && Placed(g, 0) && Placed(g, i)
            && var r, first := CellRect(g, i, c), CellRect(g, 0, c);
            && first.x == container.x && first.y == container.y
            && (col + 1 < cols ==>
                  && Placed(g, i + 1) && r.width == first.width
                  && var next := CellRect(g, i + 1, c);
                  next.x == r.x + r.width + gap && next.y == r.y && next.height == r.height)
            && (col + 1 == cols ==> r.x + r.width == container.x + container.width)
            && (row + 1 < rows ==>
                  && Placed(g, i + cols) && r.height == first.height
                  && var below := CellRect(g, i + cols, c);
                  below.y == r.y + r.height + gap && below.x == r.x && below.width == r.width)
            && (row + 1 == rows ==> r.y + r.height == container.y + container.height)
  {
    var g := GridOf(container, rows, cols, gap);
    FirstStart(g.x);
    FirstStart(g.y);
    CellsTile(g.x, col);
    CellsTile(g.y, row);
    CellsTile(g.x, 0);
    CellsTile(g.y, 0);
    AtRowAndColumn(row, col, cols);
    AtRowAndColumn(0, 0, cols);
    if col + 1 < cols { AtRowAndColumn(row, col + 1, cols); CellsTile(g.x, col + 1); }
    if row + 1 < rows {
      AtRowAndColumn(row + 1, col, cols);
      CellsTile(g.y, row + 1);
      assert (row + 1) * cols + col == row * cols + col + cols;
    }
    hide Row, Col, Axis.Start;
  }

  lemma AtRowAndColumn(row: nat, col: nat, cols: nat)
    requires col < cols
    ensures Row(row * cols + col, cols) == row && Col(row * cols + col, cols) == col
  {
    var i := row * cols + col;
    RowAndColumn(i, cols);
    RowBound(i, cols, row);
    RowBound(i, cols, row + 1);
    assert (row + 1) * cols == row * cols + cols;
    NotNegative(row, cols);
    assert row * cols == cols * row;
  }

  // A maximum cuts a cell down at its far side and changes nothing else.
  lemma MaximumCuts(g: Grid, i: nat, c: GridItem)
    requires Placed(g, i) && !Underflows(g, i)
    ensures var r, full := CellRect(g, i, c), CellRect(g, i, GridItem(c.id, None, None));
            && r.x == full.x && r.y == full.y
            && r.width == (if c.maxWidth.Some? then Min(full.width, c.maxWidth.value) else full.width)
            && r.height == (if c.maxHeight.Some? then Min(full.height, c.maxHeight.value) else full.height)
  {
    hide Row, Col, Axis.Start;
  }

  // --- Automatic tiling -----------------------------------------------------------------------

  // The least number of columns whose square holds all windows, and the fewest rows of that many.
  predicate Chosen(count: nat, rows: nat, cols: nat) {
    && 1 <= cols && count <= cols * cols && (cols - 1) * (cols - 1) < count
    && 1 <= rows && count <= rows * cols && (rows - 1) * cols < count
  }

  method PickGrid(count: nat) returns (rows: nat, cols: nat)
    requires 1 <= count
    ensures Chosen(count, rows, cols)
  {
    cols := 1;
    while cols * cols < count
      invariant 1 <= cols && (cols - 1) * (cols - 1) < count
      decreases count - cols * cols
    {
      Square(cols);
      cols := cols + 1;
    }
    rows := (count + cols - 1) / cols;
    RowsHold(count, cols);
  }

  lemma Square(c: nat)
    ensures (c + 1) * (c + 1) == c * c + 2 * c + 1
  {
  }

  lemma RowsHold(count: nat, cols: nat)
    requires 1 <= cols && 1 <= count
    ensures var rows := (count + cols - 1) / cols;
            count <= rows * cols && (rows - 1) * cols < count && 1 <= rows
  {
    var n := count + cols - 1;
    RowAndColumn(n, cols);
    var rows := n / cols;
    assert cols * rows == rows * cols;
    assert (rows - 1) * cols == rows * cols - cols;
    RowBound(n, cols, 1);
  }

  // The choice is the only one there is.
  lemma ChosenIsUnique(count: nat, rows: nat, cols: nat, rows': nat, cols': nat)
    requires Chosen(count, rows, cols) && Chosen(count, rows', cols')
    ensures rows == rows' && cols == cols'
  {
    if cols < cols' {
      SquareGrows(cols, cols' - 1);
      assert false;
    }
    if cols' < cols {
      SquareGrows(cols', cols - 1);
      assert false;
    }
    if rows < rows' {
      Scale(rows, rows' - 1, cols);
      assert false;
    }
    if rows' < rows {
      Scale(rows', rows - 1, cols);
      assert false;
    }
  }

  lemma SquareGrows(a: nat, b: nat)
    requires a <= b
    ensures a * a <= b * b
  {
    Scale(a, b, a);
    Scale(a, b, b);
    assert b * a == a * b;
  }

  lemma Scale(a: nat, b: nat, k: nat)
    requires a <= b
    ensures a * k <= b * k
  {
    NotNegative(b - a, k);
    assert b * k == a * k + (b - a) * k;
  }

  // The first row reaches the last column, and the last row is reached.
  lemma CornersReached(g: Grid, count: nat)
    requires g.Good() && Chosen(count, g.y.cells, g.x.cells)
    ensures var i := g.x.cells - 1; i < count && Placed(g, i) && Col(i, g.x.cells) == g.x.cells - 1
    ensures var i := (g.y.cells - 1) * g.x.cells; 0 <= i < count && Placed(g, i) && Row(i, g.x.cells) == g.y.cells - 1
  {
    var cols, rows := g.x.cells, g.y.cells;
    if 2 <= cols { Grows(cols - 1, cols - 1); }
    RowAndColumn(cols - 1, cols);
    RowBound(cols - 1, cols, 1);
    NotNegative(rows - 1, cols);
    var i := (rows - 1) * cols;
    RowBound(i, cols, rows);
    RowBound(i, cols, rows - 1);
    assert rows * cols == i + cols;
  }

  lemma ChosenBasics(count: nat, rows: nat, cols: nat)
    requires Chosen(count, rows, cols)
    ensures 1 <= rows && 1 <= cols && count <= rows * cols
  {
  }

  // --- The windows that are shown ---------------------------------------------------------------

  const MIN_WINDOW_WIDTH := 140
  const MIN_WINDOW_HEIGHT := 100
  const AUTO_TILE_MARGIN := 8

  // A window is never smaller than the minimum, whatever its cell.
  function WindowRect(r: Rect): Rect {
    Rect(Max(r.x, 0), Max(r.y, 0), Max(r.width, MIN_WINDOW_WIDTH), Max(r.height, MIN_WINDOW_HEIGHT))
  }

  function TiledWindow(g: Grid, i: nat): Rect
    requires Placed(g, i) && g.Fits()
  {
    WindowRect(CellRect(g, i, GridItem(0, None, None)))
  }

  // Every window is moved to a cell of its own, or the tiling underflows: exactly when the gaps of
  // the chosen grid do not fit in the area. Without windows or area nothing is moved.
  method TileWindows(area: Rect, ids: seq<nat>, gap: nat)
    returns (result: Option<seq<(nat, Rect)>>, rows: nat, cols: nat)
    ensures ids == [] || area.width == 0 || area.height == 0 ==> result == Some([])
    ensures ids != [] && area.width != 0 && area.height != 0 ==>
              var g := GridOf(area, rows, cols, gap);
              && Chosen(|ids|, rows, cols)
              && (result.Some? <==> g.Fits())
              && (result.Some? ==>
                    && |result.value| == |ids|
                    && forall i | 0 <= i < |ids| :: Placed(g, i) && result.value[i] == (ids[i], TiledWindow(g, i)))
  {
    hide Chosen, Axis.Start, Axis.Length, Axis.Fits, Row, Col;
    if ids == [] || area.width == 0 || area.height == 0 { return Some([]), 0, 0; }
    rows, cols := PickGrid(|ids|);
    ChosenBasics(|ids|, rows, cols);
    var items := seq(|ids|, i requires 0 <= i < |ids| => GridItem(ids[i], None, None));
    var cells := LayoutGrid(area, rows, cols, items, gap);
    CornersReached(GridOf(area, rows, cols, gap), |ids|);
    if cells.None? { return None, rows, cols; }
    var windows := [];
    ghost var g := GridOf(area, rows, cols, gap);
    for k := 0 to |ids|
      invariant |windows| == k
      invariant forall i | 0 <= i < k :: windows[i] == (ids[i], TiledWindow(g, i))
    {
      windows := windows + [(cells.value[k].0, WindowRect(cells.value[k].1))];
    }
    result := Some(windows);
  }

  // A tiled window is in the corner of its cell and fills it; it is larger only where the cell is smaller
  // than the minimum.
  lemma TiledWindowFillsCell(area: Rect, rows: nat, cols: nat, gap: nat, i: nat)
    requires var g := GridOf(area, rows, cols, gap); g.Fits() && Placed(g, i)
    requires 0 <= area.x && 0 <= area.y
    ensures var g := GridOf(area, rows, cols, gap);
            var w, cell := TiledWindow(g, i), CellRect(g, i, GridItem(0, None, None));
            && w.x == cell.x && w.y == cell.y
            && w.width >= MIN_WINDOW_WIDTH && w.width >= cell.width
            && (cell.width >= MIN_WINDOW_WIDTH ==> w.width == cell.width)
            && (cell.width < MIN_WINDOW_WIDTH ==> w.width == MIN_WINDOW_WIDTH)
            && w.height >= MIN_WINDOW_HEIGHT && w.height >= cell.height
            && (cell.height >= MIN_WINDOW_HEIGHT ==> w.height == cell.height)
            && (cell.height < MIN_WINDOW_HEIGHT ==> w.height == MIN_WINDOW_HEIGHT)
  {
    var g := GridOf(area, rows, cols, gap);
    hide Row, Col, Axis.Start, Axis.Length, Axis.Fits;
    CellInside(g.x, Col(i, g.x.cells));
    CellInside(g.y, Row(i, g.x.cells));
  }

  ghost predicate WindowsOverlap(g: Grid, i: nat, j: nat)
    requires Placed(g, i) && Placed(g, j) && g.Fits()
  {
    exists x, y :: Inside(TiledWindow(g, i), x, y) && Inside(TiledWindow(g, j), x, y)
  }

  // A minimum fits between the starts of neighbouring cells.
  predicate RoomFor(a: Axis, minimum: nat)
    requires a.Good()
  {
    a.cells == 1 || minimum <= a.Cell() + a.gap
  }

  lemma {:induction false} RoomToNext(a: Axis, j: nat, k: nat, minimum: nat)
    requires a.Fits() && j < k < a.cells && RoomFor(a, minimum)
    ensures a.Start(j) + Max(a.Length(j), minimum) <= a.Start(k)
  {
    CellsTile(a, j);
    if j + 1 < k {
      CellsFollow(a, j + 1, k);
      CellsTile(a, j + 1);
    }
  }

  // The windows are apart exactly when their minimum sizes fit between the cells.
  lemma TiledWindowsApartIff(g: Grid, count: nat)
    requires g.Fits() && 0 <= g.x.origin && 0 <= g.y.origin
    requires Chosen(count, g.y.cells, g.x.cells)
    ensures (forall i: nat, j: nat | i < j < count && Placed(g, i) && Placed(g, j) :: !WindowsOverlap(g, i, j))
            <==> RoomFor(g.x, MIN_WINDOW_WIDTH) && RoomFor(g.y, MIN_WINDOW_HEIGHT)
  {
    hide WindowsOverlap, RoomFor, Chosen;
    if RoomFor(g.x, MIN_WINDOW_WIDTH) && RoomFor(g.y, MIN_WINDOW_HEIGHT) {
      forall i: nat, j: nat | i < j < count && Placed(g, i) && Placed(g, j) ensures !WindowsOverlap(g, i, j) {
        WindowsApart(g, i, j);
      }
    } else if !RoomFor(g.x, MIN_WINDOW_WIDTH) {
      FirstColumnsOverlap(g, count);
    } else {
      FirstRowsOverlap(g, count);
    }
  }

  lemma WindowsApart(g: Grid, i: nat, j: nat)
    requires g.Fits() && 0 <= g.x.origin && 0 <= g.y.origin
    requires RoomFor(g.x, MIN_WINDOW_WIDTH) && RoomFor(g.y, MIN_WINDOW_HEIGHT)
    requires i < j && Placed(g, i) && Placed(g, j)
    ensures !WindowsOverlap(g, i, j)
  {
    hide RoomFor, Row, Col, Axis.Start, Axis.Length;
    DifferentCells(i, j, g.x.cells);
    StartsRight(g, i);
    StartsRight(g, j);
    if Row(i, g.x.cells) < Row(j, g.x.cells) {
      RoomToNext(g.y, Row(i, g.x.cells), Row(j, g.x.cells), MIN_WINDOW_HEIGHT);
    } else {
      RoomToNext(g.x, Col(i, g.x.cells), Col(j, g.x.cells), MIN_WINDOW_WIDTH);
    }
  }

  // A cell's window starts where the cell does.
  lemma StartsRight(g: Grid, i: nat)
    requires g.Fits() && 0 <= g.x.origin && 0 <= g.y.origin && Placed(g, i)
    ensures TiledWindow(g, i).x == g.x.Start(Col(i, g.x.cells)) && TiledWindow(g, i).y == g.y.Start(Row(i, g.x.cells))
  {
    hide Row, Col, Axis.Start, Axis.Length;
    CellInside(g.x, Col(i, g.x.cells));
    CellInside(g.y, Row(i, g.x.cells));
  }

  lemma FirstColumnsOverlap(g: Grid, count: nat)
    requires g.Fits() && 0 <= g.x.origin && 0 <= g.y.origin
    requires Chosen(count, g.y.cells, g.x.cells) && !RoomFor(g.x, MIN_WINDOW_WIDTH)
    ensures 1 < count && Placed(g, 0) && Placed(g, 1) && WindowsOverlap(g, 0, 1)
  {
    var cols := g.x.cells;
    Grows(cols - 1, cols - 1);
    RowAndColumn(0, cols);
    RowAndColumn(1, cols);
    RowBound(0, cols, 1);
    RowBound(1, cols, 1);
    assert 0 % cols == 0 && 1 % cols == 1;
    StartsRight(g, 0);
    StartsRight(g, 1);
    CellsTile(g.x, 0);
    assert Inside(TiledWindow(g, 0), g.x.Start(1), g.y.Start(0))
           && Inside(TiledWindow(g, 1), g.x.Start(1), g.y.Start(0));
  }

  lemma FirstRowsOverlap(g: Grid, count: nat)
    requires g.Fits() && 0 <= g.x.origin && 0 <= g.y.origin
    requires Chosen(count, g.y.cells, g.x.cells) && !RoomFor(g.y, MIN_WINDOW_HEIGHT)
    ensures g.x.cells < count && Placed(g, 0) && Placed(g, g.x.cells) && WindowsOverlap(g, 0, g.x.cells)
  {
    var cols := g.x.cells;
    Scale(1, g.y.cells - 1, cols);
    RowAndColumn(0, cols);
    RowAndColumn(cols, cols);
    RowBound(0, cols, 1);
    RowBound(cols, cols, 1);
    RowBound(cols, cols, 2);
    StartsRight(g, 0);
    StartsRight(g, cols);
    CellsTile(g.y, 0);
    assert cols % cols == 0;
    assert Inside(TiledWindow(g, 0), g.x.Start(0), g.y.Start(1))
           && Inside(TiledWindow(g, cols), g.x.Start(0), g.y.Start(1));
  }

  // On a 640 x 480 screen, below the 48-pixel toolbar, ten tiled windows are apart and of seventeen
  // the first two overlap.
  lemma TilingExamples(small: Grid, large: Grid)
    requires small == GridOf(Rect(0, 48, 640, 432), 3, 4, AUTO_TILE_MARGIN)
    requires large == GridOf(Rect(0, 48, 640, 432), 4, 5, AUTO_TILE_MARGIN)
    ensures Chosen(10, 3, 4) && small.Fits() && Chosen(17, 4, 5) && large.Fits()
    ensures forall i: nat, j: nat | i < j < 10 && Placed(small, i) && Placed(small, j) :: !WindowsOverlap(small, i, j)
    ensures Placed(large, 0) && Placed(large, 1) && WindowsOverlap(large, 0, 1)
  {
    assert RoomFor(small.x, MIN_WINDOW_WIDTH) && RoomFor(small.y, MIN_WINDOW_HEIGHT);
    assert !RoomFor(large.x, MIN_WINDOW_WIDTH);
    hide WindowsOverlap, RoomFor, Placed;
    TiledWindowsApartIff(small, 10);
    FirstColumnsOverlap(large, 17);
  }
}
