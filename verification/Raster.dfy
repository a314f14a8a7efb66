// The background pass of cmd/tuidbg/render.go: from cells to pixels.
module Raster {
  import opened Prelude
  import opened Sgr
  import opened Screen

  const PAD := 8
  const LINE_H := 33

  type Rows = seq<seq<Cell>>

  // ---------------------------------------------------------------------
  // Sizes
  // ---------------------------------------------------------------------

  ghost predicate IsGridCols(grid: Rows, n: nat) {
    && (forall row :: row in grid ==> |row| <= n)
    && (n == 0 || exists row :: row in grid && |row| == n)
  }

  method GridCols(grid: Rows) returns (n: nat)
    ensures IsGridCols(grid, n)
  {
    n := 0;
    for k := 0 to |grid|
      invariant IsGridCols(grid[..k], n)
    {
      assert grid[..k + 1] == grid[..k] + [grid[k]];
      assert grid[k] in grid[..k + 1];
      if |grid[k]| > n {
        n := |grid[k]|;
      } else if n != 0 {
        ghost var widest :| widest in grid[..k] && |widest| == n;
        assert widest in grid[..k + 1];
      }
    }
    assert grid[..|grid|] == grid;
  }

  // The left edge of column c, in cells of charW pixels; rows use LINE_H.
  function Edge(c: nat, step: nat): nat { PAD + c * step }

  // ---------------------------------------------------------------------
  // What every pixel shows
  // ---------------------------------------------------------------------

  function Slot(x: nat, step: nat): int
    requires step > 0
  {
    if x < PAD then -1 else (x - PAD) / step
  }

  // The cell a pixel belongs to decides; everywhere else is the page.
  function Pixel(grid: Rows, charW: nat, x: nat, y: nat): Colour
    requires charW > 0
  {
    var r, c := Slot(y, LINE_H), Slot(x, charW);
    if 0 <= r < |grid| && 0 <= c < |grid[r]| then grid[r][c].bg else DEFAULT_BG
  }

  lemma Multiples(a: nat, b: nat, step: nat)
    requires a <= b
    ensures a * step <= b * step
  {
  }

  lemma SlotIsBetweenEdges(x: nat, c: nat, step: nat)
    requires step > 0
    ensures Slot(x, step) == c <==> Edge(c, step) <= x < Edge(c, step) + step
  {
    if x >= PAD {
      var d := x - PAD;
      var q := d / step;
      assert d == step * q + d % step;
      if q < c {
        Multiples(q + 1, c, step);
      } else if c < q {
        Multiples(c + 1, q, step);
      }
    } else {
      Multiples(0, c, step);
    }
  }

  lemma EdgesGrow(c: nat, d: nat, step: nat)
    requires c < d
    ensures Edge(c, step) + step <= Edge(d, step)
  {
    Multiples(c + 1, d, step);
  }

  datatype Rect = Rect(x0: nat, y0: nat, x1: nat, y1: nat)
  {
    predicate Has(x: nat, y: nat) { x0 <= x < x1 && y0 <= y < y1 }
  }

  function CellRect(r: nat, c: nat, charW: nat): Rect {
    Rect(Edge(c, charW), Edge(r, LINE_H), Edge(c, charW) + charW, Edge(r, LINE_H) + LINE_H)
  }

  lemma CellRectIsItsSlot(r: nat, c: nat, charW: nat, x: nat, y: nat)
    requires charW > 0
    ensures CellRect(r, c, charW).Has(x, y) <==> Slot(x, charW) == c && Slot(y, LINE_H) == r
  {
    SlotIsBetweenEdges(x, c, charW);
    SlotIsBetweenEdges(y, r, LINE_H);
  }

  // Rectangles of different cells share no pixel, and every rectangle of a
  // grid lies inside the image, whose margin on every side is PAD.
  lemma CellRectsTile(grid: Rows, n: nat, charW: nat, r: nat, c: nat, r': nat, c': nat, x: nat, y: nat)
    requires charW > 0 && IsGridCols(grid, n)
    requires r < |grid| && c < |grid[r]| && CellRect(r, c, charW).Has(x, y)
    ensures CellRect(r', c', charW).Has(x, y) ==> r' == r && c' == c
    ensures PAD <= x < PAD + n * charW && PAD <= y < PAD + |grid| * LINE_H
  {
    CellRectIsItsSlot(r, c, charW, x, y);
    CellRectIsItsSlot(r', c', charW, x, y);
    assert grid[r] in grid;
    EdgesGrow(c, n, charW);
    EdgesGrow(r, |grid|, LINE_H);
  }

  // The page in numbers: cell (r, c) is charW by 33 pixels behind a margin of
  // 8, and shows its own background; what no cell covers is near black.
  lemma PixelsOfThePage(grid: Rows, charW: nat, r: nat, c: nat, x: nat, y: nat)
    requires charW > 0
    ensures r < |grid| && c < |grid[r]| && 8 + c * charW <= x < 8 + c * charW + charW && 8 + r * 33 <= y < 8 + r * 33 + 33
      ==> Pixel(grid, charW, x, y) == grid[r][c].bg
    ensures (forall i: nat, j: nat :: i < |grid| && j < |grid[i]| ==> !CellRect(i, j, charW).Has(x, y))
      ==> Pixel(grid, charW, x, y) == Colour(0x1e, 0x1e, 0x1e)
  {
    CellRectIsItsSlot(r, c, charW, x, y);
    var i, j := Slot(y, LINE_H), Slot(x, charW);
    if 0 <= i && 0 <= j {
      CellRectIsItsSlot(i, j, charW, x, y);
    }
  }

  // On a decoded screen a wide character stands on one solid block of two
  // columns, continuation included.
  lemma WideCharacterStandsOnTwoColumns(s: seq<Byte>, width: int -> Width, charW: nat, r: nat, c: nat, x: nat, y: nat)
    requires charW > 0 && r < |Grid(s, width)| && c < |Grid(s, width)[r]| && Grid(s, width)[r][c].width == 2
    requires CellRect(r, c, charW).Has(x, y) || CellRect(r, c + 1, charW).Has(x, y)
    ensures Pixel(Grid(s, width), charW, x, y) == Grid(s, width)[r][c].bg
  {
    var grid := Grid(s, width);
    GridIsWellFormed(s, width);
    assert grid[r] in grid;
    CellRectIsItsSlot(r, c, charW, x, y);
    CellRectIsItsSlot(r, c + 1, charW, x, y);
  }

  // ---------------------------------------------------------------------
  // Painting
  // ---------------------------------------------------------------------

  // draw.Draw of a uniform colour over a rectangle inside the image.
  method Fill(img: array2<Colour>, area: Rect, colour: Colour)
    requires area.x0 <= area.x1 <= img.Length0 && area.y0 <= area.y1 <= img.Length1
    modifies img
    ensures forall x, y :: 0 <= x < img.Length0 && 0 <= y < img.Length1 ==>
      img[x, y] == if area.Has(x, y) then colour else old(img[x, y])
  {
    forall x, y | area.x0 <= x < area.x1 && area.y0 <= y < area.y1 {
      img[x, y] := colour;
    }
  }

  // The cells already painted when the loops stand at row r, column c.
  predicate Done(r: nat, c: nat, row: int, col: int) { row < r || (row == r && col < c) }

  function PixelSoFar(grid: Rows, charW: nat, r: nat, c: nat, x: nat, y: nat): Colour
    requires charW > 0
  {
    if Done(r, c, Slot(y, LINE_H), Slot(x, charW)) then Pixel(grid, charW, x, y) else DEFAULT_BG
  }

  ghost predicate Painted(img: array2<Colour>, grid: Rows, charW: nat, r: nat, c: nat)
    requires charW > 0
    reads img
  {
    forall x, y :: 0 <= x < img.Length0 && 0 <= y < img.Length1 ==> img[x, y] == PixelSoFar(grid, charW, r, c, x, y)
  }

  method PaintCell(img: array2<Colour>, grid: Rows, charW: nat, n: nat, r: nat, c: nat)
    requires charW > 0 && IsGridCols(grid, n) && r < |grid| && c < |grid[r]|
    requires img.Length0 == PAD * 2 + n * charW && img.Length1 == PAD * 2 + |grid| * LINE_H
    requires Painted(img, grid, charW, r, c)
    modifies img
    ensures Painted(img, grid, charW, r, c + 1)
  {
    var area := CellRect(r, c, charW);
    assert grid[r] in grid;
    EdgesGrow(c, n, charW);
    EdgesGrow(r, |grid|, LINE_H);
    Fill(img, area, grid[r][c].bg);
    forall x, y | 0 <= x < img.Length0 && 0 <= y < img.Length1
      ensures img[x, y] == PixelSoFar(grid, charW, r, c + 1, x, y)
    {
      CellRectIsItsSlot(r, c, charW, x, y);
    }
  }

  // renderGrid up to the end of the background pass.
  method RenderBackground(grid: Rows, charW: nat) returns (img: array2<Colour>)
    requires charW > 0
    ensures exists n: nat :: IsGridCols(grid, n) && img.Length0 == 16 + n * charW
    ensures img.Length1 == 16 + |grid| * 33
    ensures forall x, y :: 0 <= x < img.Length0 && 0 <= y < img.Length1 ==> img[x, y] == Pixel(grid, charW, x, y)
  {
    var n := GridCols(grid);
    img := new Colour[PAD * 2 + n * charW, PAD * 2 + |grid| * LINE_H]((_, _) => DEFAULT_BG);
    for r := 0 to |grid|
      invariant Painted(img, grid, charW, r, 0)
    {
      var row := grid[r];
      for c := 0 to |row|
        invariant Painted(img, grid, charW, r, c)
      {
        PaintCell(img, grid, charW, n, r, c);
      }
      assert Painted(img, grid, charW, r + 1, 0);
    }
  }
}
