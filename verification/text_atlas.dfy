/** Laying a string's glyphs out in one texture (`tex_from_string`): the
    glyphs stand side by side, each in a column as wide as its advance, all
    on one baseline; above and below each glyph the column is padded with
    transparent texels so that every column is exactly as tall as the
    texture. The texture comes back with its four corner UVs. The texture
    itself is only the record of what is uploaded where. */
module TextAtlas {
  import opened Common
  import opened GlyphRaster
  import HudVertex
  import HudEntity
  import TextureDescriptor

  /** One rasterised glyph: its metrics and its texels. */
  datatype Glyph = Glyph(metrics: GlyphMetrics, texels: seq<U8>)

  /** One `upload_part_raw`: a rectangle at (x, y), and its texels. */
  datatype Upload = Upload(x: nat, y: nat, width: nat, height: nat, data: seq<U8>)

  /** The texture built for a string: its size, what was uploaded into it,
      in order, and the UVs of its corners. */
  datatype Atlas = Atlas(width: nat, height: nat, uploads: seq<Upload>, uvs: seq<HudVertex.Uv>)

  /** How far a glyph's bitmap reaches below the baseline. */
  function Descent(m: GlyphMetrics): int
  {
    m.height - m.startY
  }

  /** `n` transparent bytes. */
  function Zeros(n: nat): (z: seq<U8>)
    ensures |z| == n && forall k :: 0 <= k < n ==> z[k] == 0
  {
    seq(n, _ => 0)
  }

  /** The index of the first character that failed to rasterise, or the
      length when none did. */
  function FirstMissing(gs: seq<Option<Glyph>>): (n: nat)
    ensures n <= |gs|
    ensures forall k :: 0 <= k < n ==> gs[k].Some?
    ensures n < |gs| ==> gs[n].None?
  {
    if gs == [] || gs[0].None? then 0 else 1 + FirstMissing(gs[1..])
  }

  /** The glyphs of a list in which every character rasterised. */
  function Values(gs: seq<Option<Glyph>>): (r: seq<Glyph>)
    requires forall k :: 0 <= k < |gs| ==> gs[k].Some?
    ensures |r| == |gs| && forall k :: 0 <= k < |gs| ==> r[k] == gs[k].value
  {
    seq(|gs|, k requires 0 <= k < |gs| => gs[k].value)
  }

  /** The glyphs the first loop gets through: those before the first
      failure. */
  function Prefix(gs: seq<Option<Glyph>>): seq<Glyph>
  {
    Values(gs[..FirstMissing(gs)])
  }

  /** The height above the baseline: the tallest bearing, and at least 0. */
  function TopHeight(glyphs: seq<Glyph>): (t: nat)
    ensures forall k :: 0 <= k < |glyphs| ==> glyphs[k].metrics.startY <= t
    ensures t == 0 || exists k :: 0 <= k < |glyphs| && glyphs[k].metrics.startY == t
  {
    if glyphs == [] then 0
    else
      var t := TopHeight(glyphs[..|glyphs| - 1]);
      var sy := glyphs[|glyphs| - 1].metrics.startY;
      if t < sy then sy else t
  }

  /** The depth below the baseline: the largest descent, and at least 0. */
  function BottomHeight(glyphs: seq<Glyph>): (b: nat)
    ensures forall k :: 0 <= k < |glyphs| ==> Descent(glyphs[k].metrics) <= b
    ensures b == 0 || exists k :: 0 <= k < |glyphs| && Descent(glyphs[k].metrics) == b
  {
    if glyphs == [] then 0
    else
      var b := BottomHeight(glyphs[..|glyphs| - 1]);
      var d := Descent(glyphs[|glyphs| - 1].metrics);
      if b < d then d else b
  }

  /** The summed advances: the texture's width. */
  function TotalAdvance(glyphs: seq<Glyph>): int
  {
    if glyphs == [] then 0 else TotalAdvance(glyphs[..|glyphs| - 1]) + glyphs[|glyphs| - 1].metrics.advance
  }

  /** What the first loop needs to stay within `u32`: every advance, bearing
      and descent fits, and so does the total advance. */
  predicate Measurable(glyphs: seq<Glyph>)
  {
    && (forall k :: 0 <= k < |glyphs| ==>
          0 <= glyphs[k].metrics.advance <= U32Max
          && glyphs[k].metrics.startY <= U32Max && Descent(glyphs[k].metrics) <= U32Max)
    && TotalAdvance(glyphs) <= U32Max
  }

  /** What the second loop needs to stay within `u32`: the texture height,
      and each padding's byte count, `advance * 4` first. */
  predicate Placeable(glyphs: seq<Glyph>)
  {
    var t := TopHeight(glyphs);
    var b := BottomHeight(glyphs);
    && t + b <= U32Max
    && forall k :: 0 <= k < |glyphs| ==>
         var m := glyphs[k].metrics;
         && m.advance * 4 <= U32Max
         && m.advance * 4 * (t - m.startY) <= U32Max
         && m.advance * 4 * (b - Descent(m)) <= U32Max
  }

  /** Every glyph fits under the top height `t` and above the bottom height
      `b`, and none has a negative advance. */
  predicate Bounded(glyphs: seq<Glyph>, t: int, b: int)
  {
    forall k :: 0 <= k < |glyphs| ==>
      0 <= glyphs[k].metrics.advance && glyphs[k].metrics.startY <= t && Descent(glyphs[k].metrics) <= b
  }

  /** The three uploads of one glyph at column `offset`: the glyph with its
      top `t - start_y` rows down, the padding above it, and the padding
      below it down to `t + b`. */
  function GlyphUploads(t: int, b: int, offset: nat, g: Glyph): seq<Upload>
    requires 0 <= g.metrics.advance && g.metrics.startY <= t && Descent(g.metrics) <= b
  {
    var m := g.metrics;
    var top := t - m.startY;
    var bottom := b - Descent(m);
    [Upload(offset, top, m.advance, m.height, g.texels),
     Upload(offset, 0, m.advance, top, Zeros(m.advance * 4 * top)),
     Upload(offset, top + m.height, m.advance, bottom, Zeros(m.advance * 4 * bottom))]
  }

  /** The uploads of the second loop, column after column. */
  function Placements(t: int, b: int, glyphs: seq<Glyph>): (r: seq<Upload>)
    requires Bounded(glyphs, t, b)
    ensures |r| == 3 * |glyphs|
  {
    if glyphs == [] then []
    else
      var n := |glyphs| - 1;
      assert 0 <= TotalAdvance(glyphs[..n]) by { TotalAdvanceMonotone(glyphs[..n], 0); }
      Placements(t, b, glyphs[..n]) + GlyphUploads(t, b, TotalAdvance(glyphs[..n]), glyphs[n])
  }

  /** The corner UVs of a `width` by `height` texture: bottom-left,
      bottom-right, top-right, top-left, with v counted from the top. */
  function CornerUvs(width: nat, height: nat): seq<HudVertex.Uv>
  {
    [HudVertex.Uv(0, height), HudVertex.Uv(width, height), HudVertex.Uv(width, 0), HudVertex.Uv(0, 0)]
  }

  /** Column `k` of the atlas, as promised: three uploads at the column's
      offset and as wide as the glyph's advance, stacked top padding,
      glyph, bottom padding from row 0 to the texture height, the glyph's
      baseline on the shared top height, and the paddings transparent. */
  predicate ColumnLayout(a: Atlas, glyphs: seq<Glyph>, k: nat)
    requires k < |glyphs| && |a.uploads| == 3 * |glyphs|
  {
    var m := glyphs[k].metrics;
    var glyph := a.uploads[3 * k];
    var top := a.uploads[3 * k + 1];
    var bottom := a.uploads[3 * k + 2];
    && glyph.x == top.x == bottom.x == TotalAdvance(glyphs[..k])
    && glyph.x + m.advance <= a.width
    && glyph.width == top.width == bottom.width == m.advance
    && top.y == 0 && glyph.y == top.height && bottom.y == glyph.y + glyph.height
    && bottom.y + bottom.height == a.height
    && glyph.y + m.startY == TopHeight(glyphs)
    && glyph.height == m.height && glyph.data == glyphs[k].texels
    && top.data == Zeros(top.width * 4 * top.height)
    && bottom.data == Zeros(bottom.width * 4 * bottom.height)
  }

  /** The atlas of a string: as wide as the advances, as tall as the top
      and bottom heights, its corner UVs, and every column laid out. */
  predicate AtlasLayout(a: Atlas, glyphs: seq<Glyph>)
  {
    && a.width == TotalAdvance(glyphs)
    && a.height == TopHeight(glyphs) + BottomHeight(glyphs)
    && a.uvs == CornerUvs(a.width, a.height)
    && |a.uploads| == 3 * |glyphs|
    && forall k :: 0 <= k < |glyphs| ==> ColumnLayout(a, glyphs, k)
  }

  /** With no negative advance, the advances of a prefix plus the next one
      never exceed the total. */
  lemma {:induction false} TotalAdvanceMonotone(glyphs: seq<Glyph>, k: nat)
    requires forall j :: 0 <= j < |glyphs| ==> 0 <= glyphs[j].metrics.advance
    requires k <= |glyphs|
    ensures 0 <= TotalAdvance(glyphs[..k]) <= TotalAdvance(glyphs)
    ensures k < |glyphs| ==> TotalAdvance(glyphs[..k]) + glyphs[k].metrics.advance <= TotalAdvance(glyphs)
  {
    if k == |glyphs| {
      assert glyphs[..k] == glyphs;
      if k > 0 {
        TotalAdvanceMonotone(glyphs[..k - 1], k - 1);
      }
    } else {
      var n := |glyphs| - 1;
      assert glyphs[..n][..k] == glyphs[..k];
      if k < n {
        TotalAdvanceMonotone(glyphs[..n], k);
      } else {
        assert glyphs[..k] == glyphs[..n];
        TotalAdvanceMonotone(glyphs[..n], n);
      }
    }
  }

  /** The advances up to and including glyph `k`. */
  lemma TotalAdvanceStep(glyphs: seq<Glyph>, k: nat)
    requires k < |glyphs|
    ensures TotalAdvance(glyphs[..k + 1]) == TotalAdvance(glyphs[..k]) + glyphs[k].metrics.advance
  {
    assert glyphs[..k + 1][..k] == glyphs[..k];
  }

  /** Uploads `3k .. 3k + 2` are glyph `k`'s, at the advances before it. */
  lemma {:induction false} PlacementsAt(t: int, b: int, glyphs: seq<Glyph>, k: nat)
    requires Bounded(glyphs, t, b) && k < |glyphs|
    ensures 0 <= TotalAdvance(glyphs[..k])
    ensures Placements(t, b, glyphs)[3 * k..3 * k + 3] == GlyphUploads(t, b, TotalAdvance(glyphs[..k]), glyphs[k])
  {
    TotalAdvanceMonotone(glyphs, k);
    var n := |glyphs| - 1;
    if k < n {
      assert glyphs[..n][..k] == glyphs[..k];
      PlacementsAt(t, b, glyphs[..n], k);
    }
  }

  /** No glyph moves the pen backwards. */
  predicate Forward(glyphs: seq<Glyph>)
  {
    forall k :: 0 <= k < |glyphs| ==> 0 <= glyphs[k].metrics.advance
  }

  /** The atlas the two loops build from a list of glyphs. */
  function Build(glyphs: seq<Glyph>): Atlas
    requires Forward(glyphs)
  {
    var t, b := TopHeight(glyphs), BottomHeight(glyphs);
    assert 0 <= TotalAdvance(glyphs) by { TotalAdvanceMonotone(glyphs, 0); }
    Atlas(TotalAdvance(glyphs), t + b, Placements(t, b, glyphs), CornerUvs(TotalAdvance(glyphs), t + b))
  }

  lemma ColumnAt(glyphs: seq<Glyph>, k: nat)
    requires Forward(glyphs) && k < |glyphs|
    ensures |Build(glyphs).uploads| == 3 * |glyphs|
    ensures ColumnLayout(Build(glyphs), glyphs, k)
  {
    var a := Build(glyphs);
    PlacementsAt(TopHeight(glyphs), BottomHeight(glyphs), glyphs, k);
    TotalAdvanceMonotone(glyphs, k);
    var us := a.uploads[3 * k..3 * k + 3];
    assert a.uploads[3 * k] == us[0] && a.uploads[3 * k + 1] == us[1] && a.uploads[3 * k + 2] == us[2];
  }

  /** The atlas the loops build is laid out as promised. */
  lemma BuildLayout(glyphs: seq<Glyph>)
    requires Forward(glyphs)
    ensures AtlasLayout(Build(glyphs), glyphs)
  {
    forall k | 0 <= k < |glyphs|
      ensures ColumnLayout(Build(glyphs), glyphs, k)
    {
      ColumnAt(glyphs, k);
    }
  }

  /** Consecutive columns touch, so no two overlap. */
  lemma ColumnsDisjoint(a: Atlas, glyphs: seq<Glyph>, k1: nat, k2: nat)
    requires AtlasLayout(a, glyphs) && k1 < k2 < |glyphs|
    requires forall k :: 0 <= k < |glyphs| ==> 0 <= glyphs[k].metrics.advance
    ensures a.uploads[3 * k1].x + glyphs[k1].metrics.advance <= a.uploads[3 * k2].x
  {
    assert ColumnLayout(a, glyphs, k1) && ColumnLayout(a, glyphs, k2);
    TotalAdvanceStep(glyphs, k1);
    TotalAdvanceMonotone(glyphs[..k2], k1 + 1);
    assert glyphs[..k2][..k1 + 1] == glyphs[..k1 + 1];
  }

  /** One more glyph: the running maxima and sum take it in. */
  lemma MeasureStep(gs: seq<Option<Glyph>>, i: nat, glyphs: seq<Glyph>)
    requires i < |gs| && forall k :: 0 <= k <= i ==> gs[k].Some?
    requires glyphs == Values(gs[..i])
    ensures glyphs + [gs[i].value] == Values(gs[..i + 1])
    ensures var m := gs[i].value.metrics;
            && TopHeight(glyphs + [gs[i].value]) == (if TopHeight(glyphs) < m.startY then m.startY else TopHeight(glyphs))
            && BottomHeight(glyphs + [gs[i].value]) == (if BottomHeight(glyphs) < Descent(m) then Descent(m) else BottomHeight(glyphs))
            && TotalAdvance(glyphs + [gs[i].value]) == TotalAdvance(glyphs) + m.advance
  {
    var g := gs[i].value;
    assert (glyphs + [g])[..|glyphs|] == glyphs;
  }

  /** The first loop of `tex_from_string`: collect the glyphs while
      tracking the top height, the bottom height and the total advance;
      give up at the first character that did not rasterise. */
  method Measure(gs: seq<Option<Glyph>>) returns (ok: bool, glyphs: seq<Glyph>, t: nat, b: nat, w: int)
    ensures ok <==> forall k :: 0 <= k < |gs| ==> gs[k].Some?
    ensures ok ==> glyphs == Values(gs)
    ensures ok ==> t == TopHeight(glyphs) && b == BottomHeight(glyphs) && w == TotalAdvance(glyphs)
  {
    t, b, w := 0, 0, 0;
    glyphs := [];
    var i := 0;
    while i < |gs|
      invariant 0 <= i <= |gs|
      invariant forall k :: 0 <= k < i ==> gs[k].Some?
      invariant glyphs == Values(gs[..i])
      invariant t == TopHeight(glyphs) && b == BottomHeight(glyphs) && w == TotalAdvance(glyphs)
    {
      if gs[i].None? {
        return false, glyphs, t, b, w;
      }
      var g := gs[i].value;
      if t < g.metrics.startY {
        t := g.metrics.startY;
      }
      if b < Descent(g.metrics) {
        b := Descent(g.metrics);
      }
      w := w + g.metrics.advance;
      MeasureStep(gs, i, glyphs);
      glyphs := glyphs + [g];
      i := i + 1;
    }
    assert gs[..|gs|] == gs;
    ok := true;
  }

  /** When every character rasterised, the first loop gets through all of
      them. */
  lemma AllPresent(gs: seq<Option<Glyph>>)
    requires forall k :: 0 <= k < |gs| ==> gs[k].Some?
    ensures FirstMissing(gs) == |gs| && Prefix(gs) == Values(gs)
  {
    assert gs[..|gs|] == gs;
  }

  /** `tex_from_string` after rasterising: `None` as soon as a character
      fails to rasterise; otherwise the atlas of the glyphs, laid out. */
  method TexFromString(gs: seq<Option<Glyph>>) returns (r: Option<Atlas>)
    requires Measurable(Prefix(gs))
    requires FirstMissing(gs) == |gs| ==> Placeable(Prefix(gs))
    ensures r.None? <==> exists k :: 0 <= k < |gs| && gs[k].None?
    ensures r.Some? ==> AtlasLayout(r.value, Values(gs))
  {
    var ok, glyphs, t, b, w := Measure(gs);
    if !ok {
      return None;
    }
    AllPresent(gs);
    assert Forward(glyphs);
    var atlas := Assemble(glyphs, t, b, w);
    r := Some(atlas);
  }

  /** The rest of `tex_from_string` once every glyph is measured: a texture
      `w` wide and `t + b` tall, the second loop's uploads, and the four
      corner UVs. */
  method Assemble(glyphs: seq<Glyph>, t: nat, b: nat, w: int) returns (a: Atlas)
    requires Forward(glyphs)
    requires t == TopHeight(glyphs) && b == BottomHeight(glyphs) && w == TotalAdvance(glyphs)
    ensures AtlasLayout(a, glyphs)
  {
    var uploads, offset := Uploads(glyphs, t, b);
    a := Atlas(w, t + b, uploads, CornerUvs(w, t + b));
    assert a == Build(glyphs);
    BuildLayout(glyphs);
  }

  /** The second loop of `tex_from_string`: for each glyph in turn, its
      three uploads at the running offset, which then moves on by the
      glyph's advance. */
  method Uploads(glyphs: seq<Glyph>, t: int, b: int) returns (uploads: seq<Upload>, offset: nat)
    requires Bounded(glyphs, t, b)
    ensures uploads == Placements(t, b, glyphs)
    ensures offset == TotalAdvance(glyphs)
  {
    uploads, offset := [], 0;
    var j := 0;
    while j < |glyphs|
      invariant 0 <= j <= |glyphs|
      invariant uploads == Placements(t, b, glyphs[..j]) && offset == TotalAdvance(glyphs[..j])
    {
      var m := glyphs[j].metrics;
      var top := t - m.startY;
      var bottom := b - Descent(m);
      uploads := uploads + [Upload(offset, top, m.advance, m.height, glyphs[j].texels)];
      uploads := uploads + [Upload(offset, 0, m.advance, top, Zeros(m.advance * 4 * top))];
      uploads := uploads + [Upload(offset, top + m.height, m.advance, bottom, Zeros(m.advance * 4 * bottom))];
      assert glyphs[..j + 1][..j] == glyphs[..j];
      offset := offset + m.advance;
      j := j + 1;
    }
    assert glyphs[..j] == glyphs;
  }

  /** The texels `raw_glyph` produces fill the glyph's upload rectangle
      exactly when the glyph has a bitmap row; a glyph without one (a
      space) brings one row of texels to a rectangle of no rows. */
  lemma GlyphDataSize(g: Glyph)
    requires |g.texels| == 4 * (Rows(g.metrics) * Cols(g.metrics)) && 0 <= g.metrics.advance
    ensures g.metrics.height >= 1 ==> |g.texels| == g.metrics.advance * 4 * g.metrics.height
    ensures g.metrics.height == 0 ==> |g.texels| == g.metrics.advance * 4
  {
  }

  /** The atlas as the HUD receives it: the texture, its corner UVs and a
      line height. */
  function AtlasRaster(a: Atlas, handle: nat, lineHeight: int): HudEntity.Raster
  {
    HudEntity.Raster(TextureDescriptor.Texture(a.width, a.height, handle), a.uvs, lineHeight)
  }

  /** The text quad shows the atlas pixel for pixel and upright: with both
      sizes within `i32`, every corner sits at x = u and
      y = height - v - line_height, so texture row 0 is the quad's top. */
  lemma QuadShowsAtlas(a: Atlas, glyphs: seq<Glyph>, handle: nat, lineHeight: int)
    requires AtlasLayout(a, glyphs)
    requires a.width <= HudEntity.I32Max && a.height <= HudEntity.I32Max
    requires HudEntity.IsI32(lineHeight) && HudEntity.IsI32(-lineHeight) && HudEntity.IsI32(a.height - lineHeight)
    ensures HudEntity.QuadFits(AtlasRaster(a, handle, lineHeight))
    ensures forall i :: 0 <= i < 4 ==>
              var corner := HudEntity.TextQuad(AtlasRaster(a, handle, lineHeight))[i];
              HudVertex.GetPos(corner) == HudVertex.Position(corner.uv.u, a.height - corner.uv.v - lineHeight)
  {
  }

  /** `x as u32` for a 64-bit integer: its low 32 bits. */
  function AsU32(x: int): (r: nat)
    ensures r <= U32Max
    ensures 0 <= x <= U32Max ==> r == x
    ensures -U32Max <= x < 0 ==> r == x + U32Max + 1
  {
    x % (U32Max + 1)
  }

  /** The bottom padding of one glyph as the second loop computes it in
      `u32`: its top row `(height - start_y) as u32 + max_top_height` and
      its height `max_bottom_height - (height - start_y) as u32`; `None`
      where either overflows, which panics in a debug build. */
  function BottomPaddingAsWritten(t: nat, b: nat, m: GlyphMetrics): (r: Option<(nat, nat)>)
    ensures r.Some? ==> r.value.0 + r.value.1 == t + b
  {
    var d := AsU32(Descent(m));
    if b < d || d + t > U32Max then None else Some((d + t, b - d))
  }

  /** For a glyph reaching below the baseline the `u32` arithmetic gives
      the bottom padding of `GlyphUploads`. */
  lemma BottomPaddingAgrees(t: nat, b: nat, m: GlyphMetrics)
    requires 0 <= Descent(m) <= b && m.startY <= t && t + b <= U32Max
    ensures BottomPaddingAsWritten(t, b, m) == Some((t - m.startY + m.height, b - Descent(m)))
  {
  }

  /** For a glyph wholly above the baseline (a hyphen, a quote mark) the
      descent is negative, its `u32` cast wraps, and the sum overflows:
      a debug build panics on any string holding such a glyph. */
  lemma RaisedGlyphOverflows(t: nat, b: nat, m: GlyphMetrics)
    requires -U32Max <= Descent(m) < 0 && m.startY <= t
    ensures BottomPaddingAsWritten(t, b, m).None?
  {
  }

  /** A hyphen, bearing 8 and bitmap 2 rows tall, alone: the overflow hits
      an input the rest of the layout handles, and the intended bottom
      padding is the 6 rows between the bitmap and the baseline. */
  lemma HyphenExample()
    ensures var g := Glyph(GlyphMetrics(1, 8, 6, 2, 8), Zeros(64));
            && Forward([g]) && Measurable([g]) && Placeable([g])
            && TopHeight([g]) == 8 && BottomHeight([g]) == 0
            && BottomPaddingAsWritten(8, 0, g.metrics).None?
            && Build([g]).uploads[2] == Upload(0, 2, 8, 6, Zeros(192))
  {
    var g := Glyph(GlyphMetrics(1, 8, 6, 2, 8), Zeros(64));
    assert [g][..0] == [];
    RaisedGlyphOverflows(8, 0, g.metrics);
  }
}
