/**
 * The GUI's pure arithmetic: how many columns the responsive check-box
 * grid gets and where each box goes (`_relayout_checks`), and the clamp
 * that turns a reported percentage into a progress-bar value
 * (`_poll_progress`). The download name template is in module Filenames.
 */
module Gui {

  import opened Wrappers
  import opened Numbers

  /** The container width used for the layout: the measured one, at least 1, or 800 when measuring fails. */
  function LayoutWidth(measured: Option<int>): (w: int)
    ensures w >= 1
    ensures measured.Some? && measured.value >= 1 ==> w == measured.value
    ensures measured.Some? && measured.value < 1 ==> w == 1
    ensures measured.None? ==> w == 800
  {
    match measured
    case None => 800
    case Some(m) => if m >= 1 then m else 1
  }

  /** `max(1, min(max_cols, width // min_col_width))`; Python raises on a zero divisor. */
  function Columns(width: int, minColWidth: int, maxCols: int): (cols: int)
    requires minColWidth != 0
  {
    var fit := FloorDiv(width, minColWidth);
    var capped := if maxCols < fit then maxCols else fit;
    if capped < 1 then 1 else capped
  }

  /**
   * The column count is at least 1 and at most `max_cols` (unless that is
   * below 1); with a positive column width it is the largest count whose
   * columns all fit, or 1 when not even one fits.
   */
  lemma ColumnsBounds(width: int, minColWidth: int, maxCols: int)
    requires minColWidth != 0
    ensures Columns(width, minColWidth, maxCols) >= 1
    ensures Columns(width, minColWidth, maxCols) <= maxCols || Columns(width, minColWidth, maxCols) == 1
  {
  }

  lemma ColumnsFit(width: int, minColWidth: int, maxCols: int)
    requires minColWidth > 0
    ensures var cols := Columns(width, minColWidth, maxCols);
      (cols == 1 || cols * minColWidth <= width) && (cols >= maxCols || (cols + 1) * minColWidth > width)
  {
    var fit := FloorDiv(width, minColWidth);
    var cols := Columns(width, minColWidth, maxCols);
    assert fit * minColWidth <= width < fit * minColWidth + minColWidth;
    if cols != 1 && cols < fit {
      MulMonotone(cols, fit, minColWidth);
    }
    if cols < maxCols && cols >= 1 && cols < fit + 1 {
      assert cols == fit || fit < 1;
      if fit < 1 {
        MulMonotone(fit + 1, cols + 1, minColWidth);
      }
    }
  }

  lemma MulMonotone(a: int, b: int, c: int)
    requires a <= b && c > 0
    ensures a * c <= b * c
  {
    assert b * c == a * c + (b - a) * c;
  }

  lemma MulCancelLess(x: int, y: int, c: int)
    requires c > 0 && x * c < y * c
    ensures x < y
  {
    if y <= x {
      MulMonotone(y, x, c);
      assert false;
    }
  }

  /** A grid position: `divmod(i, cols)`. */
  datatype Cell = Cell(row: nat, column: nat)

  /** What one relayout decides: the column count, the columns given equal weight, and each widget's cell. */
  datatype Layout = Layout(cols: nat, weighted: seq<nat>, cells: seq<Cell>)

  /** Cell `c` is where widget `i` goes in row-major order over `cols` columns. */
  predicate PlacedAt(c: Cell, i: nat, cols: nat) {
    c.column < cols && c.row * cols + c.column == i
  }

  /**
   * `_relayout_checks`: every widget gets the cell of its index in
   * row-major order, and columns `0 .. cols-1` are configured.
   */
  method RelayoutChecks(measured: Option<int>, widgets: nat, minColWidth: int, maxCols: int)
    returns (layout: Layout)
    requires minColWidth != 0
    ensures layout.cols == Columns(LayoutWidth(measured), minColWidth, maxCols)
    ensures |layout.weighted| == layout.cols
    ensures forall c :: 0 <= c < |layout.weighted| ==> layout.weighted[c] == c
    ensures |layout.cells| == widgets
    ensures forall i :: 0 <= i < |layout.cells| ==> PlacedAt(layout.cells[i], i, layout.cols)
  {
    var width := LayoutWidth(measured);
    ColumnsBounds(width, minColWidth, maxCols);
    var cols: nat := Columns(width, minColWidth, maxCols);
    var weighted := WeightColumns(cols);
    var cells := PlaceWidgets(widgets, cols);
    layout := Layout(cols, weighted, cells);
  }

  /** The `grid_columnconfigure` loop: columns `0 .. cols-1`, in order. */
  method WeightColumns(cols: nat) returns (weighted: seq<nat>)
    ensures |weighted| == cols
    ensures forall c :: 0 <= c < |weighted| ==> weighted[c] == c
  {
    weighted := [];
    var c: nat := 0;
    while c < cols
      invariant c <= cols
      invariant |weighted| == c
      invariant forall j :: 0 <= j < c ==> weighted[j] == j
    {
      weighted := weighted + [c];
      c := c + 1;
    }
  }

  /** The `grid` loop: widget `i` goes to `divmod(i, cols)`. */
  method PlaceWidgets(widgets: nat, cols: nat) returns (cells: seq<Cell>)
    requires cols > 0
    ensures |cells| == widgets
    ensures forall i :: 0 <= i < |cells| ==> PlacedAt(cells[i], i, cols)
  {
    cells := [];
    var i: nat := 0;
    while i < widgets
      invariant i <= widgets
      invariant |cells| == i
      invariant forall j :: 0 <= j < i ==> PlacedAt(cells[j], j, cols)
    {
      DivModPlaced(i, cols);
      cells := cells + [Cell(i / cols, i % cols)];
      i := i + 1;
    }
  }

  /** `divmod(i, cols)` is the cell whose row-major index is `i`. */
  lemma DivModPlaced(i: nat, cols: nat)
    requires cols > 0
    ensures PlacedAt(Cell(i / cols, i % cols), i, cols)
  {
  }

  /** A cell's row is the number of full rows before its widget. */
  lemma RowBelow(c: Cell, i: nat, cols: nat)
    requires PlacedAt(c, i, cols)
    ensures c.row * cols <= i < (c.row + 1) * cols
  {
    assert (c.row + 1) * cols == c.row * cols + cols;
  }

  /** Row-major order follows widget order, so two widgets never share a cell. */
  lemma PlacedDistinct(a: Cell, i: nat, b: Cell, j: nat, cols: nat)
    requires PlacedAt(a, i, cols) && PlacedAt(b, j, cols)
    requires i < j
    ensures a != b
    ensures a.row < b.row || (a.row == b.row && a.column < b.column)
  {
    RowBelow(a, i, cols);
    RowBelow(b, j, cols);
    MulCancelLess(a.row, b.row + 1, cols);
  }

  /** The cell of widget `i` is exactly `divmod(i, cols)`. */
  lemma {:induction false} PlacedIsDivMod(c: Cell, i: nat, cols: nat)
    requires PlacedAt(c, i, cols)
    ensures c.row == i / cols && c.column == i % cols
  {
    var d := Cell(i / cols, i % cols);
    DivModPlaced(i, cols);
    RowBelow(c, i, cols);
    RowBelow(d, i, cols);
    MulCancelLess(c.row, d.row + 1, cols);
    MulCancelLess(d.row, c.row + 1, cols);
  }

  /** `int(max(0, min(100, pct)))` for the integer percentages the pipeline reports. */
  function ProgressValue(pct: int): (v: int)
    ensures 0 <= v <= 100
    ensures 0 <= pct <= 100 ==> v == pct
    ensures pct < 0 ==> v == 0
    ensures pct > 100 ==> v == 100
  {
    if pct < 0 then 0 else if pct > 100 then 100 else pct
  }

  /** The clamp never reverses the order of two reports. */
  lemma ProgressMonotone(p: int, q: int)
    requires p <= q
    ensures ProgressValue(p) <= ProgressValue(q)
  {
  }
}
