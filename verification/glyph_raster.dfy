/** Turning one rendered glyph into texture data, after FreeType has
    produced it: metrics from 26.6 fixed point to whole pixels, the
    greyscale bitmap copied into a map one advance wide, and the map
    expanded into white RGBA texels whose alpha is the grey value. Loading
    the face and rendering the bitmap are FreeType's and not modelled; the
    metrics and bitmap are inputs. */
module GlyphRaster {
  import opened Common

  /** 2^64: `usize` and `u64` arithmetic is modulo this. */
  const Modulus64: int := 0x1_0000_0000_0000_0000

  /** FreeType's glyph metrics, in 1/64 pixel. */
  datatype FtMetrics = FtMetrics(horiBearingX: int, horiBearingY: int, horiAdvance: int, width: int, height: int)

  /** `GlyphMetrics`, in pixels: bearing, bitmap size and advance. */
  datatype GlyphMetrics = GlyphMetrics(startX: int, startY: int, width: nat, height: nat, advance: int)

  /** `x >> 6` on an `i64`: an arithmetic shift, which rounds toward
      negative infinity, as Dafny's division by a positive number does. */
  function Shift6(x: int): (r: int)
    ensures r * 64 <= x < r * 64 + 64
  {
    x / 64
  }

  /** `x as u64` / `x as usize` for a 64-bit integer. */
  function As64(x: int): (r: nat)
    ensures r < Modulus64
    ensures 0 <= x < Modulus64 ==> r == x
    ensures -Modulus64 <= x < 0 ==> r == x + Modulus64
  {
    x % Modulus64
  }

  /** The metrics `raw_glyph` reports: every field shifted down to whole
      pixels, the sizes reinterpreted as unsigned. */
  function Metrics(m: FtMetrics): (g: GlyphMetrics)
    ensures g.startX * 64 <= m.horiBearingX < g.startX * 64 + 64
    ensures g.startY * 64 <= m.horiBearingY < g.startY * 64 + 64
    ensures g.advance * 64 <= m.horiAdvance < g.advance * 64 + 64
    ensures 0 <= m.width < Modulus64 ==> g.width * 64 <= m.width < g.width * 64 + 64
    ensures 0 <= m.height < Modulus64 ==> g.height * 64 <= m.height < g.height * 64 + 64
  {
    GlyphMetrics(Shift6(m.horiBearingX), Shift6(m.horiBearingY), As64(Shift6(m.width)), As64(Shift6(m.height)), Shift6(m.horiAdvance))
  }

  /** Rows of the map: the bitmap height, but at least one. */
  function Rows(g: GlyphMetrics): (r: nat)
    ensures r >= 1 && r >= g.height
  {
    if g.height == 0 then 1 else g.height
  }

  /** Columns of the map: the advance (none when it is not positive). */
  function Cols(g: GlyphMetrics): nat
  {
    if g.advance > 0 then g.advance else 0
  }

  /** What copying the bitmap needs: with any pixel to copy, a positive
      advance (a map row to index, and no underflow in `advance - 1`), and
      a buffer holding `height * width` grey values. */
  predicate CopyFits(g: GlyphMetrics, buffer: seq<U8>)
  {
    && |buffer| >= g.height * g.width
    && (g.height > 0 && g.width > 0 ==> g.advance >= 1)
  }

  /** The map column bitmap column `j` is copied to: `start_x + j` in
      `usize`, wrapping modulo 2^64, clamped to the last column. */
  function Column(g: GlyphMetrics, j: nat): (col: int)
    ensures col <= g.advance - 1
    ensures g.advance >= 1 ==> 0 <= col
  {
    var wanted := (As64(g.startX) + j) % Modulus64;
    if wanted < g.advance - 1 then wanted else g.advance - 1
  }

  /** The last of bitmap columns `0 .. n - 1` copied to map column `c`: the
      one whose value survives, as later copies overwrite earlier ones. */
  function LastWriter(g: GlyphMetrics, c: nat, n: nat): (r: Option<nat>)
    ensures r.Some? ==> r.value < n && Column(g, r.value) == c
    ensures r.Some? ==> forall j :: r.value < j < n ==> Column(g, j) != c
    ensures r.None? ==> forall j :: 0 <= j < n ==> Column(g, j) != c
  {
    if n == 0 then None
    else if Column(g, n - 1) == c then Some(n - 1)
    else LastWriter(g, c, n - 1)
  }

  /** Map cell (i, c): the grey value of the last bitmap pixel of row i
      copied to column c, or 0 when none is. */
  function Cell(g: GlyphMetrics, buffer: seq<U8>, i: nat, c: nat, n: nat): U8
    requires CopyFits(g, buffer) && n <= g.width
  {
    if i < g.height then
      match LastWriter(g, c, n)
      case None => 0
      case Some(j) => RowMajorBound(j, i, g.width, g.height); buffer[i * g.width + j]
    else 0
  }

  /** Copy bitmap row `i` into a map row. */
  method FillRow(g: GlyphMetrics, buffer: seq<U8>, i: nat, blank: seq<U8>) returns (row: seq<U8>)
    requires CopyFits(g, buffer) && i < g.height
    requires |blank| == Cols(g) && forall c :: 0 <= c < |blank| ==> blank[c] == 0
    ensures |row| == Cols(g)
    ensures forall c :: 0 <= c < |row| ==> row[c] == Cell(g, buffer, i, c, g.width)
  {
    row := blank;
    var j := 0;
    while j < g.width
      invariant 0 <= j <= g.width && |row| == Cols(g)
      invariant forall c :: 0 <= c < |row| ==> row[c] == Cell(g, buffer, i, c, j)
    {
      var col := Column(g, j);
      RowMajorBound(j, i, g.width, g.height);
      row := row[col := buffer[i * g.width + j]];
      j := j + 1;
    }
  }

  /** The map loop of `raw_glyph`: `Rows` rows of `Cols` columns, row i
      holding bitmap row i as `Cell` places it, rows past the bitmap zero. */
  method RawMap(g: GlyphMetrics, buffer: seq<U8>) returns (map_: seq<seq<U8>>)
    requires CopyFits(g, buffer)
    ensures |map_| == Rows(g)
    ensures forall r :: 0 <= r < |map_| ==> |map_[r]| == Cols(g)
    ensures forall r, c :: 0 <= r < |map_| && 0 <= c < Cols(g) ==> map_[r][c] == Cell(g, buffer, r, c, g.width)
  {
    var blank: seq<U8> := seq(Cols(g), _ => 0);
    map_ := seq(Rows(g), _ => blank);
    var i := 0;
    while i < g.height
      invariant 0 <= i <= g.height && |map_| == Rows(g)
      invariant forall r :: 0 <= r < |map_| ==> |map_[r]| == Cols(g)
      invariant forall r, c :: 0 <= r < i && 0 <= c < Cols(g) ==> map_[r][c] == Cell(g, buffer, r, c, g.width)
      invariant forall r :: i <= r < |map_| ==> map_[r] == blank
    {
      var row := FillRow(g, buffer, i, blank);
      map_ := map_[i := row];
      i := i + 1;
    }
  }

  /** Where the bitmap lands, in closed form. With a non-negative bearing,
      pixel j goes to column `start_x + j` while that is left of the last
      column, and the last column keeps the rightmost pixel reaching it. */
  lemma {:induction false} LastWriterClosedForm(g: GlyphMetrics, c: nat, n: nat)
    requires 0 <= g.startX && g.startX + n <= Modulus64 && g.advance >= 1 && c < g.advance && n >= 1
    ensures c < g.advance - 1 ==>
              LastWriter(g, c, n) == (if g.startX <= c < g.startX + n then Some(c - g.startX) else None)
    ensures c == g.advance - 1 ==>
              LastWriter(g, c, n) == (if g.startX + (n - 1) >= c then Some(n - 1) else None)
  {
    if n > 1 {
      LastWriterClosedForm(g, c, n - 1);
    }
  }

  /** With a negative bearing the `usize` cast wraps to a huge column, so
      every pixel left of the pen origin (`j < -start_x`) is clamped into
      the last column and the rightmost of them wins. */
  lemma {:induction false} NegativeBearingClamps(g: GlyphMetrics, c: nat, n: nat)
    requires -Modulus64 <= g.startX < 0 && 1 <= g.advance <= Modulus64 + g.startX && c < g.advance
    requires 1 <= n <= -g.startX
    ensures LastWriter(g, c, n) == (if c == g.advance - 1 then Some(n - 1) else None)
  {
    if n > 1 {
      NegativeBearingClamps(g, c, n - 1);
    }
  }

  /** A bitmap with a negative bearing that crosses the pen origin: the
      `usize` sum `start_x as usize + j` overflows for the pixels from the
      origin on (a debug build panics there) and wraps back to `start_x + j`,
      so those pixels land at `start_x + j`, clamped, while every pixel left
      of the origin lands in the last column. */
  lemma {:induction false} OriginCrossingLastWriter(g: GlyphMetrics, c: nat, n: nat)
    requires -Modulus64 <= g.startX < 0 && 1 <= g.advance <= Modulus64 + g.startX && c < g.advance
    requires -g.startX <= n <= Modulus64
    ensures c < g.advance - 1 ==>
              LastWriter(g, c, n) == (if c < g.startX + n then Some(c - g.startX) else None)
    ensures c == g.advance - 1 ==>
              LastWriter(g, c, n) == (if g.startX + (n - 1) >= c then Some(n - 1) else Some(-g.startX - 1))
  {
    if n == -g.startX {
      NegativeBearingClamps(g, c, n);
    } else {
      OriginCrossingLastWriter(g, c, n - 1);
    }
  }

  /** One map row as texels: each grey value becomes white with that alpha. */
  function RowTexels(row: seq<U8>): (t: seq<U8>)
    ensures |t| == 4 * |row|
  {
    if row == [] then [] else RowTexels(row[..|row| - 1]) + [255, 255, 255, row[|row| - 1]]
  }

  /** The texel loop of `raw_glyph`: the rows' texels one after another. */
  function Texels(map_: seq<seq<U8>>): seq<U8>
  {
    if map_ == [] then [] else Texels(map_[..|map_| - 1]) + RowTexels(map_[|map_| - 1])
  }

  lemma {:induction false} RowTexelAt(row: seq<U8>, j: nat, k: nat)
    requires j < |row| && k < 4
    ensures RowTexels(row)[4 * j + k] == if k < 3 then 255 else row[j]
  {
    if j < |row| - 1 {
      RowTexelAt(row[..|row| - 1], j, k);
    }
  }

  /** Where texel byte `k` of map cell (i, j) sits, rows `width` wide. */
  function TexelIndex(width: nat, i: nat, j: nat, k: nat): nat
  {
    4 * (i * width + j) + k
  }

  lemma {:induction false} TexelsLength(map_: seq<seq<U8>>, width: nat)
    requires forall r :: 0 <= r < |map_| ==> |map_[r]| == width
    ensures |Texels(map_)| == 4 * (|map_| * width)
  {
    if map_ != [] {
      TexelsLength(map_[..|map_| - 1], width);
      assert (|map_| - 1) * width + width == |map_| * width;
    }
  }

  /** Texels of a map whose rows are `width` wide: byte `k` of cell (i, j)
      is 255 for red, green and blue and `map[i][j]` for alpha. */
  lemma {:induction false} TexelAt(map_: seq<seq<U8>>, width: nat, i: nat, j: nat, k: nat)
    requires forall r :: 0 <= r < |map_| ==> |map_[r]| == width
    requires i < |map_| && j < width && k < 4
    ensures TexelIndex(width, i, j, k) < |Texels(map_)|
    ensures Texels(map_)[TexelIndex(width, i, j, k)] == if k < 3 then 255 else map_[i][j]
  {
    var n := |map_| - 1;
    TexelsLength(map_[..n], width);
    if i < n {
      TexelAt(map_[..n], width, i, j, k);
    } else {
      RowTexelAt(map_[n], j, k);
      assert TexelIndex(width, i, j, k) == 4 * (n * width) + (4 * j + k);
    }
  }

  /** All texels at once: `4 * rows * width` bytes, each cell white with
      the map value as alpha. */
  lemma TexelsOfMap(map_: seq<seq<U8>>, width: nat)
    requires forall r :: 0 <= r < |map_| ==> |map_[r]| == width
    ensures |Texels(map_)| == 4 * (|map_| * width)
    ensures forall i, j, k :: 0 <= i < |map_| && 0 <= j < width && 0 <= k < 4 ==>
              TexelIndex(width, i, j, k) < |Texels(map_)| &&
              Texels(map_)[TexelIndex(width, i, j, k)] == if k < 3 then 255 else map_[i][j]
  {
    TexelsLength(map_, width);
    forall i, j, k | 0 <= i < |map_| && 0 <= j < width && 0 <= k < 4
      ensures TexelIndex(width, i, j, k) < |Texels(map_)|
      ensures Texels(map_)[TexelIndex(width, i, j, k)] == if k < 3 then 255 else map_[i][j]
    {
      TexelAt(map_, width, i, j, k);
    }
  }

  /** `raw_glyph` after FreeType: the pixel metrics, and the texels of the
      map, `4 * Rows * Cols` bytes. */
  method RawGlyph(m: FtMetrics, buffer: seq<U8>) returns (g: GlyphMetrics, texels: seq<U8>)
    requires CopyFits(Metrics(m), buffer)
    ensures g == Metrics(m)
    ensures |texels| == 4 * (Rows(g) * Cols(g))
    ensures forall i, j, k :: 0 <= i < Rows(g) && 0 <= j < Cols(g) && 0 <= k < 4 ==>
              TexelIndex(Cols(g), i, j, k) < |texels| &&
              texels[TexelIndex(Cols(g), i, j, k)] == if k < 3 then 255 else Cell(g, buffer, i, j, g.width)
  {
    g := Metrics(m);
    var map_ := RawMap(g, buffer);
    texels := Texels(map_);
    TexelsOfMap(map_, Cols(g));
  }
}
