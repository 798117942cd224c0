/** The terrain mesh generator: a `size_x` by `size_y` grid of vertices in
    row-major order, triangulated two triangles per cell. Heights come from
    Perlin noise and normals from float cross products; both stay out of the
    model, so a vertex is identified by the grid point it was built from. */
module Terrain {
  import opened Common
  import opened ObjLoader

  /** A terrain vertex: the grid point it was built from. */
  datatype GridPoint = GridPoint(x: nat, y: nat)

  /** Row-major slot of grid point (x, y) in a grid `width` points wide. */
  function Index(x: nat, y: nat, width: nat): nat
  {
    y * width + x
  }

  /** Distinct points of a row of width `width` have distinct slots. */
  lemma IndexInjective(x: nat, y: nat, x': nat, y': nat, width: nat)
    requires x < width && x' < width
    requires Index(x, y, width) == Index(x', y', width)
    ensures x == x' && y == y'
  {
    if y < y' {
      MulMono(y + 1, y', width);
    } else if y' < y {
      MulMono(y' + 1, y, width);
    }
  }

  /** Every point of a `width` by `height` grid has a slot below `width * height`. */
  lemma IndexBound(x: nat, y: nat, width: nat, height: nat)
    requires x < width && y < height
    ensures Index(x, y, width) < width * height
  {
    RowMajorBound(x, y, width, height);
  }

  /** The six indices of cell (x, y): triangle (x,y), (x+1,y), (x,y+1) and
      triangle (x+1,y+1), (x+1,y), (x,y+1), sharing the diagonal. */
  function CellIndices(x: nat, y: nat, width: nat): seq<nat>
  {
    [Index(x, y, width), Index(x + 1, y, width), Index(x, y + 1, width),
     Index(x + 1, y + 1, width), Index(x + 1, y, width), Index(x, y + 1, width)]
  }

  /** Indices of the first `cells` cells of row `y`. */
  function RowIndices(y: nat, width: nat, cells: nat): seq<nat>
  {
    if cells == 0 then [] else RowIndices(y, width, cells - 1) + CellIndices(cells - 1, y, width)
  }

  /** Indices of the first `rows` rows of cells, each row `width - 1` cells long. */
  function GridIndices(width: nat, rows: nat): seq<nat>
    requires width >= 1 || rows == 0
  {
    if rows == 0 then [] else GridIndices(width, rows - 1) + RowIndices(rows - 1, width, width - 1)
  }

  lemma {:induction false} RowIndicesFacts(y: nat, width: nat, cells: nat)
    ensures |RowIndices(y, width, cells)| == 6 * cells
    ensures forall x, k :: 0 <= x < cells && 0 <= k < 6 ==>
              RowIndices(y, width, cells)[6 * x + k] == CellIndices(x, y, width)[k]
  {
    if cells > 0 {
      RowIndicesFacts(y, width, cells - 1);
    }
  }

  lemma {:induction false} RowIndicesBound(y: nat, width: nat, cells: nat)
    requires cells < width
    ensures forall p :: 0 <= p < |RowIndices(y, width, cells)| ==>
              RowIndices(y, width, cells)[p] < (y + 2) * width
  {
    if cells > 0 {
      RowIndicesBound(y, width, cells - 1);
      var x := cells - 1;
      assert Index(x + 1, y + 1, width) < (y + 2) * width;
    }
  }

  /** The index buffer of `rows` rows has `6 * (rows * (width - 1))` entries. */
  lemma {:induction false} GridIndicesLength(width: nat, rows: nat)
    requires width >= 1
    ensures |GridIndices(width, rows)| == 6 * (rows * (width - 1))
  {
    if rows > 0 {
      GridIndicesLength(width, rows - 1);
      RowIndicesFacts(rows - 1, width, width - 1);
      assert (rows - 1) * (width - 1) + (width - 1) == rows * (width - 1);
    }
  }

  /** Cells are laid out row-major: cell (x, y) occupies the six entries from
      `6 * (y * (width - 1) + x)` on. */
  lemma {:induction false} GridIndicesCell(width: nat, rows: nat, x: nat, y: nat, k: nat)
    requires width >= 1 && x < width - 1 && y < rows && k < 6
    ensures 6 * (y * (width - 1) + x) + k < |GridIndices(width, rows)|
    ensures GridIndices(width, rows)[6 * (y * (width - 1) + x) + k] == CellIndices(x, y, width)[k]
  {
    var cells := width - 1;
    GridIndicesLength(width, rows - 1);
    RowIndicesFacts(rows - 1, width, cells);
    var prefix := GridIndices(width, rows - 1);
    var row := RowIndices(rows - 1, width, cells);
    assert GridIndices(width, rows) == prefix + row;
    if y < rows - 1 {
      MulMono(y + 1, rows - 1, cells);
      assert y * cells + x < (y + 1) * cells;
      GridIndicesCell(width, rows - 1, x, y, k);
    } else {
      assert 6 * (y * cells + x) + k == |prefix| + (6 * x + k);
    }
  }

  /** Every index of `rows` rows of cells addresses one of the `rows + 1` rows of points. */
  lemma {:induction false} GridIndicesBound(width: nat, rows: nat)
    requires width >= 1
    ensures forall p :: 0 <= p < |GridIndices(width, rows)| ==>
              GridIndices(width, rows)[p] < width * (rows + 1)
  {
    if rows > 0 {
      GridIndicesBound(width, rows - 1);
      RowIndicesBound(rows - 1, width, width - 1);
      assert (rows - 1 + 2) * width == width * (rows + 1);
      MulMono(rows, rows + 1, width);
    }
  }

  /** The material the terrain is drawn with. */
  const TerrainMaterial: Material := ColorMaterial("terrain", Color(1.0, 0.5, 0.0))

  /** The vertex loop of `generate`: points pushed row by row. */
  method GridVertices(sizeX: nat, sizeY: nat) returns (vertices: seq<GridPoint>)
    ensures |vertices| == sizeY * sizeX
    ensures forall x, y :: 0 <= x < sizeX && 0 <= y < sizeY ==>
              Index(x, y, sizeX) < |vertices| && vertices[Index(x, y, sizeX)] == GridPoint(x, y)
  {
    vertices := [];
    var y := 0;
    while y < sizeY
      invariant 0 <= y <= sizeY
      invariant |vertices| == y * sizeX
      invariant forall yy, xx :: 0 <= yy < y && 0 <= xx < sizeX ==>
                  Index(xx, yy, sizeX) < |vertices| && vertices[Index(xx, yy, sizeX)] == GridPoint(xx, yy)
    {
      vertices := AppendRow(vertices, y, sizeX);
      y := y + 1;
    }
  }

  method AppendRow(prefix: seq<GridPoint>, y: nat, sizeX: nat) returns (vertices: seq<GridPoint>)
    requires |prefix| == y * sizeX
    ensures |vertices| == (y + 1) * sizeX
    ensures vertices[..|prefix|] == prefix
    ensures forall x :: 0 <= x < sizeX ==> Index(x, y, sizeX) < |vertices| && vertices[Index(x, y, sizeX)] == GridPoint(x, y)
  {
    vertices := prefix;
    var x := 0;
    while x < sizeX
      invariant 0 <= x <= sizeX
      invariant |vertices| == y * sizeX + x
      invariant vertices[..|prefix|] == prefix
      invariant forall xx :: 0 <= xx < x ==>
                  Index(xx, y, sizeX) < |vertices| && vertices[Index(xx, y, sizeX)] == GridPoint(xx, y)
    {
      vertices := vertices + [GridPoint(x, y)];
      x := x + 1;
    }
  }

  /** The index loop of `generate`: cells visited row by row, left to right. */
  method GridIndexLoop(sizeX: nat, sizeY: nat) returns (indices: seq<nat>)
    requires 1 <= sizeY && (1 <= sizeX || sizeY == 1)
    ensures indices == GridIndices(sizeX, sizeY - 1)
  {
    indices := [];
    var cy := 0;
    while cy < sizeY - 1
      invariant 0 <= cy <= sizeY - 1
      invariant indices == GridIndices(sizeX, cy)
    {
      var cx := 0;
      while cx < sizeX - 1
        invariant 0 <= cx <= sizeX - 1
        invariant indices == GridIndices(sizeX, cy) + RowIndices(cy, sizeX, cx)
      {
        indices := indices + CellIndices(cx, cy, sizeX);
        cx := cx + 1;
      }
      cy := cy + 1;
    }
  }

  /** The index buffer of `rows` rows of cells, `width` points wide: its
      length, and every entry names one of the `rows + 1` rows of points. */
  lemma GridIndicesOfSize(width: nat, rows: nat)
    requires width >= 1 || rows == 0
    ensures |GridIndices(width, rows)| == 6 * (rows * (width - 1))
    ensures forall p :: 0 <= p < |GridIndices(width, rows)| ==> GridIndices(width, rows)[p] < width * (rows + 1)
  {
    if width >= 1 {
      GridIndicesLength(width, rows);
      GridIndicesBound(width, rows);
    }
  }

  /** `generate`: one geometry whose vertex `Index(x, y, size_x)` is grid point
      (x, y) and whose index buffer triangulates every cell. A zero `size_y`
      makes `size_y - 1` underflow in the generator, and so does a zero
      `size_x` once a row of cells is visited; `size_x = 0` with `size_y = 1`
      visits none and gives an empty geometry. The vertex count must fit in a `u32`. */
  method Generate(sizeX: nat, sizeY: nat) returns (o: Obj<GridPoint>)
    requires 1 <= sizeY && (1 <= sizeX || sizeY == 1) && sizeX * sizeY <= U32Max
    ensures |o.geometries| == 1
    ensures |o.geometries[0].vertices| == sizeX * sizeY
    ensures forall x, y :: 0 <= x < sizeX && 0 <= y < sizeY ==>
              Index(x, y, sizeX) < |o.geometries[0].vertices| && o.geometries[0].vertices[Index(x, y, sizeX)] == GridPoint(x, y)
    ensures o.geometries[0].indices == GridIndices(sizeX, sizeY - 1)
    ensures |o.geometries[0].indices| == 6 * ((sizeY - 1) * (sizeX - 1))
    ensures forall p :: 0 <= p < |o.geometries[0].indices| ==> o.geometries[0].indices[p] < sizeX * sizeY
    ensures o.geometries[0].material == TerrainMaterial
  {
    var vertices := GridVertices(sizeX, sizeY);
    var indices := GridIndexLoop(sizeX, sizeY);
    GridIndicesOfSize(sizeX, sizeY - 1);
    o := Obj([Geometry(vertices, indices, TerrainMaterial)]);
  }
}
