/** The allocation grid: blocks drawn for cells, and the cell under a pixel. */
module MapGrid {
  import opened Wrappers
  import opened MapUnits

  datatype Geometry = Geometry(width: nat, height: nat, columns: nat, rows: nat, cells: nat)
  {
    predicate OneBlockPerCell() {
      cells <= width * height
    }
  }

  function Ceiling(a: nat, b: nat): nat
    requires b > 0
  {
    (a + b - 1) / b
  }

  /** Fitting the cells into near-square blocks; no grid without cells. ideal is the rounded square root aimed for. */
  function AllocationGrid(cells: int, width: int, height: int, ideal: int): Option<Geometry> {
    if cells <= 0 then None else Some(Grid(cells, width, height, ideal))
  }

  function Grid(cells: nat, width: int, height: int, ideal: int): Geometry
    requires cells > 0
  {
    var w: nat, h: nat := if width < 1 then 1 else width, if height < 1 then 1 else height;
    if cells > w * h then Geometry(w, h, w, h, cells)
    else
      var least := if Ceiling(cells, h) < 1 then 1 else Ceiling(cells, h);
      var most := if w < cells then w else cells;
      var wish := if ideal < 1 then 1 else ideal;
      var bounded := if most < wish then most else wish;
      var columns := if least < bounded then bounded else least;
      Geometry(w, h, columns, Ceiling(cells, columns), cells)
  }

  /** No more blocks than pixels either way, and just enough rows. */
  predicate Fits(g: Geometry) {
    && 0 < g.columns <= g.width && 0 < g.rows <= g.height && 0 < g.cells <= g.columns * g.rows
    && (g.rows - 1) * g.columns < g.cells
  }

  // ---- division ---------------------------------------------------------------------------------

  /** A number is at most a quotient exactly when its product fits. */
  lemma AtMostQuotient(q: nat, n: nat, d: nat)
    requires d > 0
    ensures q <= n / d <==> q * d <= n
  {
    DivMod(n, d);
    if q <= n / d {
      Times(q, n / d, d);
    } else {
      Times(n / d + 1, q, d);
      NextProduct(n / d, d);
    }
  }

  lemma CeilingIs(a: nat, b: nat)
    requires b > 0
    ensures a <= Ceiling(a, b) * b && (a > 0 ==> Ceiling(a, b) > 0 && (Ceiling(a, b) - 1) * b < a)
  {
    var c := Ceiling(a, b);
    DivMod(a + b - 1, b);
    if a > 0 {
      AtMostQuotient(1, a + b - 1, b);
      NextProduct(c - 1, b);
    }
  }

  lemma CeilingAtMost(a: nat, b: nat, c: nat)
    requires b > 0 && a <= c * b
    ensures Ceiling(a, b) <= c
  {
    CeilingIs(a, b);
    if Ceiling(a, b) > c {
      Times(c, Ceiling(a, b) - 1, b);
    }
  }

  /** There is a grid exactly when there are cells, and blocks of their own fit into it. */
  lemma GridFits(cells: int, width: int, height: int, ideal: int)
    ensures AllocationGrid(cells, width, height, ideal).Some? <==> cells > 0
    ensures cells > 0 ==>
              var g := AllocationGrid(cells, width, height, ideal).value;
              g.cells == cells && (g.OneBlockPerCell() ==> Fits(g))
  {
    if cells > 0 {
      GeometryFits(cells, width, height, ideal);
    }
  }

  lemma GeometryFits(cells: nat, width: int, height: int, ideal: int)
    requires cells > 0
    ensures var g := Grid(cells, width, height, ideal); g.cells == cells && (g.OneBlockPerCell() ==> Fits(g))
  {
    var w: nat, h: nat := if width < 1 then 1 else width, if height < 1 then 1 else height;
    if cells <= w * h {
      var g := Grid(cells, width, height, ideal);
      hide Ceiling;
      CeilingIs(cells, h);
      CeilingAtMost(cells, h, w);
      CeilingIs(cells, g.columns);
      Times(Ceiling(cells, h), g.columns, h);
      Swap(g.columns, h);
      CeilingAtMost(cells, g.columns, h);
      Swap(g.rows, g.columns);
    }
  }

  function AtLeastOne(x: int): (n: nat)
    ensures n >= 1 && n >= x && (n == 1 || n == x)
  {
    if x < 1 then 1 else x
  }

  /** So many columns give every cell a block of its own. */
  predicate Feasible(cells: nat, width: nat, height: nat, columns: int) {
    1 <= columns <= width && columns <= cells && cells <= columns * height
  }

  function Apart(a: int, b: int): nat {
    if a < b then b - a else a - b
  }

  /** The grid has the size of the target, one pixel at least, with the feasible number of columns nearest to the ideal
      one; when there are more cells than pixels every pixel is a block. */
  lemma GridIs(cells: nat, width: int, height: int, ideal: int)
    requires cells > 0
    ensures var g := Grid(cells, width, height, ideal);
            && g.width == AtLeastOne(width) && g.height == AtLeastOne(height)
            && (g.OneBlockPerCell() ==>
                  && Feasible(cells, g.width, g.height, g.columns)
                  && forall c | Feasible(cells, g.width, g.height, c) :: Apart(g.columns, ideal) <= Apart(c, ideal))
            && (!g.OneBlockPerCell() ==> g.columns == g.width && g.rows == g.height)
  {
    var g := Grid(cells, width, height, ideal);
    if g.OneBlockPerCell() {
      hide Ceiling;
      var least := Ceiling(cells, g.height);
      CeilingIs(cells, g.height);
      CeilingAtMost(cells, g.height, g.width);
      CellsAreRows(cells, g.height);
      CeilingAtMost(cells, g.height, cells);
      Times(least, g.columns, g.height);
      forall c | Feasible(cells, g.width, g.height, c) ensures c >= least {
        CeilingAtMost(cells, g.height, c);
      }
    }
  }

  lemma CellsAreRows(cells: nat, height: nat)
    requires height >= 1
    ensures cells <= cells * height
  {
    Times(1, height, cells);
    Swap(cells, height);
  }

  // ---- one axis ---------------------------------------------------------------------------------

  /** The slot a pixel belongs to. */
  function Slot(p: nat, pixels: nat, slots: nat): nat
    requires pixels > 0 && slots > 0
  {
    var s := ((p + 1) * slots - 1) / pixels;
    if slots - 1 < s then slots - 1 else s
  }

  /** Slots are cut like cells, at floor(c * pixels / slots): a pixel lies in the cut of a slot
      exactly when it hits it. */
  lemma SlotInverts(p: nat, pixels: nat, slots: nat, c: nat)
    requires 0 < slots <= pixels && p < pixels && c < slots
    ensures Boundary(c, pixels, slots) <= p < Boundary(c + 1, pixels, slots) <==> Slot(p, pixels, slots) == c
  {
    var n: nat := (p + 1) * slots - 1;
    SlotBound(p, pixels, slots);
    LowerCut(p, pixels, slots, c);
    UpperCut(p, pixels, slots, c);
  }

  lemma SlotBound(p: nat, pixels: nat, slots: nat)
    requires 0 < slots && p < pixels
    ensures (p + 1) * slots >= 1 && ((p + 1) * slots - 1) / pixels < slots
  {
    NextProduct(p, slots);
    Times(p + 1, pixels, slots);
    Swap(pixels, slots);
    AtMostQuotient(slots, (p + 1) * slots - 1, pixels);
  }

  lemma LowerCut(p: nat, pixels: nat, slots: nat, c: nat)
    requires 0 < slots && 0 < pixels
    ensures (p + 1) * slots >= 1
    ensures Boundary(c, pixels, slots) <= p <==> c <= ((p + 1) * slots - 1) / pixels
  {
    NextProduct(p, slots);
    AtMostQuotient(p + 1, c * pixels, slots);
    AtMostQuotient(c, (p + 1) * slots - 1, pixels);
  }

  lemma UpperCut(p: nat, pixels: nat, slots: nat, c: nat)
    requires 0 < slots && 0 < pixels
    ensures (p + 1) * slots >= 1
    ensures p < Boundary(c + 1, pixels, slots) <==> ((p + 1) * slots - 1) / pixels < c + 1
  {
    NextProduct(p, slots);
    AtMostQuotient(p + 1, (c + 1) * pixels, slots);
    AtMostQuotient(c + 1, (p + 1) * slots - 1, pixels);
  }

  // ---- blocks -----------------------------------------------------------------------------------

  /** The pixels [x0, x1) by [y0, y1) of a cell's block. */
  datatype Block = Block(x0: nat, x1: nat, y0: nat, y1: nat)
  {
    predicate Has(x: nat, y: nat) {
      x0 <= x < x1 && y0 <= y < y1
    }
  }

  /** Cells fill the rows from left to right. */
  function RowOf(i: nat, columns: nat): nat
    requires columns > 0
  {
    i / columns
  }

  function BlockOf(g: Geometry, i: nat): Block
    requires Fits(g) && i < g.cells
  {
    var row, column := RowOf(i, g.columns), i % g.columns;
    Block(Boundary(column, g.width, g.columns), Boundary(column + 1, g.width, g.columns),
          Boundary(row, g.height, g.rows), Boundary(row + 1, g.height, g.rows))
  }

  /** The block of a cell; none without a block of its own for every cell, or for a number that is no cell. */
  function BlockBounds(g: Geometry, i: int): Option<Block>
    requires Fits(g)
  {
    if !g.OneBlockPerCell() || i < 0 || i >= g.cells then None else Some(BlockOf(g, i))
  }

  /** The cell drawn at a pixel. */
  function SourceCellAt(g: Geometry, x: int, y: int): Option<nat>
    requires g.width > 0 && g.height > 0 && g.columns > 0 && g.rows > 0 && g.cells > 0
  {
    if x < 0 || y < 0 || x >= g.width || y >= g.height then None
    else if g.OneBlockPerCell() then
      var index := Slot(y, g.height, g.rows) * g.columns + Slot(x, g.width, g.columns);
      if index < g.cells then Some(index) else None
    else
      var pixel := y * g.width + x;
      PixelsPositive(g.width, g.height);
      var cell: nat := pixel * g.cells / (g.width * g.height);
      Some(if g.cells - 1 < cell then g.cells - 1 else cell)
  }

  lemma PixelsPositive(w: nat, h: nat)
    requires w > 0 && h > 0
    ensures w * h > 0
  {
    Times(1, w, h);
  }

  lemma RowInside(g: Geometry, i: nat)
    requires Fits(g) && i < g.cells
    ensures i / g.columns < g.rows && i % g.columns < g.columns && i == i / g.columns * g.columns + i % g.columns
  {
    DivMod(i, g.columns);
    Swap(g.rows, g.columns);
    AtMostQuotient(g.rows, i, g.columns);
  }

  /** Hit-testing inverts drawing: with no more cells than pixels every block has pixels, and the cell under a pixel is
      exactly the one whose block holds it, so blocks do not overlap. */
  lemma HitInvertsDraw(g: Geometry, i: nat, x: int, y: int)
    requires Fits(g) && g.OneBlockPerCell()
    ensures BlockBounds(g, i).Some? <==> i < g.cells
    ensures SourceCellAt(g, x, y) == Some(i) <==> x >= 0 && y >= 0 && i < g.cells && BlockBounds(g, i).value.Has(x, y)
    ensures i < g.cells ==> var b := BlockBounds(g, i).value; b.x0 < b.x1 <= g.width && b.y0 < b.y1 <= g.height
  {
    hide Fits, BlockOf, SourceCellAt;
    if i < g.cells {
      BlockInside(g, i);
      if 0 <= x < g.width && 0 <= y < g.height {
        HitInBlock(g, i, x, y);
      } else {
        NothingOutside(g, x, y);
      }
    } else {
      HitIsCell(g, x, y);
    }
  }

  lemma NothingOutside(g: Geometry, x: int, y: int)
    requires Fits(g) && !(0 <= x < g.width && 0 <= y < g.height)
    ensures SourceCellAt(g, x, y) == None
  {
  }

  lemma HitIsCell(g: Geometry, x: int, y: int)
    requires Fits(g) && g.OneBlockPerCell()
    ensures SourceCellAt(g, x, y).Some? ==> SourceCellAt(g, x, y).value < g.cells
  {
  }

  lemma BlockInside(g: Geometry, i: nat)
    requires Fits(g) && i < g.cells
    ensures BlockOf(g, i).x0 < BlockOf(g, i).x1 <= g.width && BlockOf(g, i).y0 < BlockOf(g, i).y1 <= g.height
  {
    hide Boundary;
    RowInside(g, i);
    BoundariesSplit(g.width, g.columns, i % g.columns);
    BoundariesSplit(g.height, g.rows, i / g.columns);
  }

  lemma HitInBlock(g: Geometry, i: nat, x: nat, y: nat)
    requires Fits(g) && g.OneBlockPerCell() && i < g.cells && x < g.width && y < g.height
    ensures BlockOf(g, i).Has(x, y) <==> SourceCellAt(g, x, y) == Some(i)
  {
    hide Boundary, Slot;
    RowInside(g, i);
    var row, column := i / g.columns, i % g.columns;
    SlotInverts(x, g.width, g.columns, column);
    SlotInverts(y, g.height, g.rows, row);
    SlotInside(x, g.width, g.columns);
    var r, c := Slot(y, g.height, g.rows), Slot(x, g.width, g.columns);
    if r * g.columns + c == i {
      Quotient(i, g.columns, r, c);
    }
  }

  lemma SlotInside(p: nat, pixels: nat, slots: nat)
    requires 0 < slots && p < pixels
    ensures Slot(p, pixels, slots) < slots
  {
  }

  /** With more cells than pixels every pixel shows the first cell of its own stretch of the cells, and no two pixels
      the same; the final clamp never acts. */
  lemma CrowdedPixels(g: Geometry, x: nat, y: nat)
    requires 0 < g.width && 0 < g.height && 0 < g.columns && 0 < g.rows && !g.OneBlockPerCell() && x < g.width
             && y < g.height
    ensures g.width * g.height > 0 && y * g.width + x < g.width * g.height
    ensures SourceCellAt(g, x, y) == Some(Boundary(y * g.width + x, g.cells, g.width * g.height))
    ensures Boundary(y * g.width + x, g.cells, g.width * g.height) < Boundary(y * g.width + x + 1, g.cells,
            g.width * g.height) <= g.cells
  {
    var pixel, pixels := y * g.width + x, g.width * g.height;
    PixelsPositive(g.width, g.height);
    Times(y + 1, g.height, g.width);
    NextProduct(y, g.width);
    Swap(g.height, g.width);
    BoundariesSplit(g.cells, pixels, pixel);
  }
}
