# luminance_test engine core in Dafny

A Dafny model of the integer and combinatorial bookkeeping of the
`luminance_test` engine, a small Rust game engine built on the `luminance`
GPU crate. The model covers these parts:

- **Terrain** (`terrain.dfy`). Lays a `size_x` by `size_y` vertex grid out
  row-major and splits each grid cell into two triangles that share a
  diagonal.
- **OBJ loading** (`obj_loader.dfy`). Starts from an already-parsed object
  and models three things:
  - choosing each geometry's material, where the last library entry with a
    matching name wins and the built-in `Default` material is the fallback;
  - the per-geometry vertex cache, keyed by position/texture/normal index
    triples;
  - the two load errors.
- **HUD vertices and entities** (`hud_vertex.dfy`, `hud_entity.dfy`,
  `texture_data.dfy`). Covers constructors, setters, the optional table of
  named UV states, and the text quad that `update_text` rebuilds on text
  entities.
- **The older textured entities** (`legacy_entity.dfy`). `SimpleEntity` and
  `DynamicStateTexEntity`.
- **The HUD frame** (`hud_renderer.dfy`). A stable sort by descending depth,
  then the command sequence the frame issues: the depth preview first, then
  each entity.
- **The entity registry and the key registry** (`entity_registry.dfy`,
  `key_registry.dfy`).
- **Text rendering** (`font.dfy`, `glyph_raster.dfy`, `text_atlas.dfy`):
  - font file names;
  - the grey-to-RGBA rasterisation of one glyph's FreeType bitmap;
  - the layout of a string's glyphs into one texture. The glyphs stand in
    side-by-side columns on a shared baseline, and transparent padding
    above and below each glyph fills its column.
- **Sound playback bookkeeping** (`sound.dfy`). Remaining length,
  play/update/stop, and when a sound is done.
- **`RgbaColor`** and its printed form (`rgba_color.dfy`).

Shared definitions (`Option`, `Result`, bytes, `u32` bounds, distinctness,
and enumeration of a hash container) are in `common.dfy`.

### Modelling conventions

- **Data.** Operations are pure functions over immutable datatypes. A
  setter returns the updated record.
- **Hash containers.** `HashMap`/`HashSet` become Dafny `map`/`set`. Where
  the source iterates over one, the model enumerates it in an order the
  caller does not choose (`Common.Enumerate`).
- **Floats.** `f32`/`f64` quantities become `real`.
- **Fixed-width integers.** Three casts are modelled with their wrap written
  out: `i64 as usize` (`GlyphRaster.As64`), `u32 as i32`
  (`HudEntity.AsI32`), and `i64 as u32` in the bottom padding
  (`TextAtlas.AsU32`). The `usize` sum `start_x as usize + j` of the glyph
  copy wraps modulo 2^64 in `GlyphRaster.Column`. Only the as-written member
  `TextAtlas.BottomPaddingAsWritten` uses `TextAtlas.AsU32`. The other
  `as u32` casts of the text atlas are kept in range by preconditions
  instead (see `TextAtlas.TexFromString` under "## Left out").
- **Errors and panics.** A panic with a message (`expect`) and an early
  error return (`ok_or(..)?`) both become an error value. A panic from
  indexing or from an overflowing `u32` operation becomes a precondition,
  with two exceptions, where the model follows a release build's
  wrap-around instead of excluding the input:
  - The bottom padding of `tex_from_string` (`src/engine/text.rs:247`,
    `255`, `259`). There `TextAtlas.TexFromString` computes the intended
    padding, which equals the wrapped value. The panic a debug build hits
    is recorded under "## Findings" (`TextAtlas.BottomPaddingAsWritten`).
  - The `usize` sum `start_x as usize + j` of `raw_glyph`
    (`src/engine/text.rs:147-148`), which overflows for a glyph with a
    negative bearing whose bitmap crosses the pen origin (see
    `GlyphRaster.RawGlyph` under "## Left out").
- **GPU resources.** A texture is its size and an identity. Uploads into a
  texture are recorded as a sequence of rectangles with their bytes.
- **FreeType.** The glyph metrics and the glyph's grey bitmap are inputs.

### Notes on the code

- **Terrain sizes.** `generate` accepts sizes of 1, which give an empty
  index buffer. A zero `size_y` underflows `size_y - 1` at
  `src/terrain.rs:50`, and a zero `size_x` underflows `size_x - 1` at
  line 51 once a row of cells is visited. The one zero size that works is
  `size_x = 0` with `size_y = 1`: no row of cells is visited, and the
  result is one empty geometry with the terrain material. The model
  requires exactly what avoids the underflow.
- **The text quad's line height.** `tex_from_string` returns a texture and
  four UVs (`src/engine/text.rs:185`). The HUD text entity destructures a
  third value, `line_height` (`src/engine/hud/entity.rs:151`). The model
  follows each file as written: the text quad takes the line height as an
  input (`HudEntity.Raster`), and `TextAtlas.AtlasRaster` combines an
  atlas with a given line height.

## Model

| member | source | states |
|---|---|---|
| Common.Enumerate | src/engine/key_registry.rs:41-43 | iterating a hash set or map yields each element exactly once, and nothing else |
| Terrain.IndexInjective | src/terrain.rs:138-140 | two grid points whose x lies below the width land in the same row-major slot only if they are the same point |
| Terrain.IndexBound | src/terrain.rs:138-140 | a point inside a `width` by `height` grid has a slot below `width * height` |
| Terrain.GridVertices | src/terrain.rs:99-108 | the vertex list has `size_x * size_y` entries, and slot `index(x, y)` holds grid point (x, y) |
| Terrain.AppendRow | src/terrain.rs:100-107 | one row of the vertex loop keeps the earlier rows and puts point (x, y) at slot `index(x, y)` |
| Terrain.RowIndicesFacts | src/terrain.rs:51-63 | one row of cells emits six indices per cell, and cell x's six sit at positions `6x` to `6x+5` |
| Terrain.RowIndicesBound | src/terrain.rs:54-63 | every index emitted for cell row y names a vertex of grid row y or y+1 |
| Terrain.GridIndicesLength | src/terrain.rs:50-63 | the index buffer has `6 * (size_y-1) * (size_x-1)` entries |
| Terrain.GridIndicesCell | src/terrain.rs:50-63 | cell (x, y) occupies positions `6*(y*(size_x-1)+x)` to `+5` and emits `[i(x,y), i(x+1,y), i(x,y+1), i(x+1,y+1), i(x+1,y), i(x,y+1)]`, so both triangles share the diagonal (x+1,y)-(x,y+1) |
| Terrain.GridIndicesBound | src/terrain.rs:54-63 | every emitted index is below the vertex count |
| Terrain.GridIndexLoop | src/terrain.rs:50-63 | the nested loops build exactly the row-major cell sequence, including the empty sequence for `size_x = 0, size_y = 1` |
| Terrain.Generate | src/terrain.rs:11-127 | the terrain object has exactly one geometry, with `size_x * size_y` grid vertices laid out row-major, the cell triangulation as its index buffer (`6 * (size_x-1) * (size_y-1)` entries, all below the vertex count) and the orange `terrain` colour material; `size_y` must be at least 1, `size_x` too unless `size_y` is 1 (lines 50-51), and their `u32` product must not overflow (line 42) |
| ObjLoader.NewMaterial | src/engine/spatial/obj.rs:26-46 | `new_material` stores the name, specular coefficient, three colours and illumination it is given, and makes the material opaque with no emission, optical density or UV map |
| ObjLoader.ColorMaterial | src/engine/spatial/obj.rs:48-65 | `color_material` uses the colour as the diffuse colour, with white ambient, grey specular, coefficient 300 and ambient-diffuse-specular illumination, and the `new_material` defaults otherwise |
| ObjLoader.LastNamed | src/engine/spatial/obj.rs:140-150 | the library scan finds the last material with the wanted name, or reports that none has it |
| ObjLoader.SelectMaterial | src/engine/spatial/obj.rs:140-182 | with no library or no material name, or with no library entry of that name, the result is the built-in Default; otherwise it is the last entry with that name |
| ObjLoader.FirstSeenDistinct | src/engine/spatial/obj.rs:190-211 | the cached vertex keys, in order of first appearance, are distinct and are exactly the keys used |
| ObjLoader.NoErrorMeansNormals | src/engine/spatial/obj.rs:194-216 | a geometry without a load error has only triangles, every key has a normal, and there are three keys per shape |
| ObjLoader.FirstErrorExtends | src/engine/spatial/obj.rs:194-216 | once a shape fails, later shapes cannot change the reported error |
| ObjLoader.FirstErrorIffSomeError | src/engine/spatial/obj.rs:194-216 | a geometry fails exactly when some shape is a non-triangle or lacks a normal, and the error is one of the two messages |
| ObjLoader.CacheHit | src/engine/spatial/obj.rs:197-198 | a key already cached appends its earlier index and adds no vertex |
| ObjLoader.CacheMiss | src/engine/spatial/obj.rs:199-211 | a new key gets index `vertices.len()`, its vertex is `(positions[v], normals[n])`, and it is appended |
| ObjLoader.CacheStateIsExpected | src/engine/spatial/obj.rs:190-225 | a finished cache run over a geometry's keys is the expected geometry |
| ObjLoader.VisitKey | src/engine/spatial/obj.rs:197-211 | one cache lookup reuses the cached index on a hit and appends a new vertex and its index on a miss |
| ObjLoader.VisitCorner | src/engine/spatial/obj.rs:196-211 | a corner without a normal fails and any other corner advances the cache |
| ObjLoader.VisitTriangle | src/engine/spatial/obj.rs:194-216 | a shape yields the non-triangle or missing-normal error exactly when it has one; otherwise its three keys pass through the cache |
| ObjLoader.LoadGeometry | src/engine/spatial/obj.rs:188-223 | the per-geometry loop produces exactly the expected geometry or its first error |
| ObjLoader.GeometryShape | src/engine/spatial/obj.rs:188-223 | a loaded geometry has three indices per triangle, one vertex per distinct key, every index below the vertex count, vertex `indices[j]` built from key j's position and normal, two positions share an index exactly when their keys are equal, and the geometry carries the chosen material |
| ObjLoader.CacheReuse | src/engine/spatial/obj.rs:197-211 | a repeated key reuses the index of its first appearance, and a new key gets the number of distinct keys seen before it |
| ObjLoader.GeometryErrors | src/engine/spatial/obj.rs:194-216 | loading a geometry fails exactly when some shape is a non-triangle or lacks a normal |
| ObjLoader.Load | src/engine/spatial/obj.rs:138-225 | the object loads exactly when every geometry loads; it then holds one geometry per source geometry, in order, each with its chosen material, and otherwise it returns the first geometry's error |
| ObjLoader.ErrorsPersist | src/engine/spatial/obj.rs:138-225 | an error in one geometry is the error of the whole load |
| ObjLoader.OneGeometryEach | src/engine/spatial/obj.rs:138-139 | a successful load has exactly one geometry per source geometry, the i-th from source geometry i |
| HudVertex.UpdateUv | src/engine/hud/mod.rs:47-49 | `update_uv` replaces the uv and keeps the position |
| HudVertex.UpdatePos | src/engine/hud/mod.rs:51-53 | `update_pos` replaces the position and keeps the uv |
| HudVertex.GetUv | src/engine/hud/mod.rs:55-57 | `get_uv` answers the one uv whose write-back leaves the vertex unchanged, that is the current uv |
| HudVertex.GetPos | src/engine/hud/mod.rs:59-61 | `get_pos` answers the one position whose write-back leaves the vertex unchanged, that is the current position |
| HudVertex.ReadAfterWrite | src/engine/hud/mod.rs:47-61 | `get_uv` and `get_pos` return what was last written, and each update leaves the other field alone |
| HudVertex.UpdatesCommute | src/engine/hud/mod.rs:47-53 | uv and position writes commute, the last uv write wins, and writing back the current uv changes nothing |
| HudVertex.WithUvs | src/engine/hud/entity.rs:216-224 | the entity's `update_uv` gives vertex i the new uv i and keeps its position, for every vertex |
| HudVertex.WithPositions | src/engine/hud/entity.rs:226-234 | the entity's `update_pos` gives vertex i the new position i and keeps its uv |
| HudVertex.WithPairs | src/engine/hud/entity.rs:236-245 | the entity's `update` gives vertex i both halves of pair i |
| HudVertex.PairsArePositionsThenUvs | src/engine/hud/entity.rs:236-245 | `update` with pairs equals `update_pos` with the positions followed by `update_uv` with the uvs |
| HudVertex.WithUvsIdempotent | src/engine/hud/entity.rs:216-224 | writing the same uvs twice is the same as once |
| HudVertex.WithOwnUvs | src/engine/hud/entity.rs:216-224 | writing the uvs the vertices already have changes nothing |
| TextureDescriptor.UvTable | src/engine/hud/entity.rs:105-112 | the UV-state table has exactly the descriptor's state names, each with its coordinates as uvs, in order |
| TextureDescriptor.DefaultVertices | src/engine/hud/entity.rs:96-104 | the initial vertices exist exactly when the default state is in the descriptor, and vertex i pairs position i with default uv i |
| HudEntity.NewFromTex | src/engine/hud/entity.rs:62-88 | a fresh entity keeps the given mesh, texture and kind, records the texture's size, and starts at scale 1, position (0, 0), depth 0 and with no UV states |
| HudEntity.NewWithTextureData | src/engine/hud/entity.rs:90-126 | building from a descriptor fails with the default-UV message exactly when the default state is missing, and with the image message exactly when the image is missing; otherwise vertex i is (position i, default uv i), the UV table covers every descriptor state, and the entity is a regular one with the fresh defaults, holding the image as its texture and the image's size as its texture size |
| HudEntity.SetPos | src/engine/hud/entity.rs:183-185 | `set_pos` changes the position and nothing else |
| HudEntity.SetScale | src/engine/hud/entity.rs:187-189 | `set_scale` changes the scale and nothing else |
| HudEntity.SetDepth | src/engine/hud/entity.rs:191-193 | `set_depth` changes the depth and nothing else |
| HudEntity.GetDepth | src/engine/hud/entity.rs:195-197 | `get_depth` answers the one depth whose `set_depth` leaves the entity unchanged, that is the current depth |
| HudEntity.DepthReadAfterWrite | src/engine/hud/entity.rs:183-197 | `get_depth` returns the last depth set and ignores position and scale changes, and the three setters commute |
| HudEntity.StateIds | src/engine/hud/entity.rs:199-205 | `state_ids` is empty without a UV table, and otherwise lists each state name of the table exactly once |
| HudEntity.SetState | src/engine/hud/entity.rs:207-224 | `set_state` succeeds exactly when the table holds the state; it then gives vertex i the state's uv i and keeps every position and every other field; otherwise it changes nothing |
| HudEntity.SetStateIdempotent | src/engine/hud/entity.rs:207-224 | setting the same state twice gives what setting it once gives |
| HudEntity.DefaultStateIsInitial | src/engine/hud/entity.rs:90-126 | setting the default state on a freshly built entity succeeds and changes nothing |
| HudEntity.AsI32 | src/engine/hud/entity.rs:161-169 | `width as i32` on a `u32` keeps values up to `i32::MAX` and otherwise wraps modulo 2^32 into the `i32` range |
| HudEntity.TextQuad | src/engine/hud/entity.rs:151-173 | the text quad's corners are (0, -lh), (w, -lh), (w, h-lh), (0, h-lh), with `w` and `h` the texture size cast to `i32`, and they carry uvs 0 to 3 |
| HudEntity.NewEntityFromString | src/engine/hud/entity.rs:146-181 | a text entity exists exactly when rasterising the string succeeds; it is a text entity with the text quad, the two triangles `0 1 2 0 2 3` (all indices inside the quad), the new texture and its size, and the fresh defaults |
| HudEntity.UpdateText | src/engine/hud/entity.rs:247-283 | `update_text` succeeds exactly on a text entity whose string rasterises; it then installs the new texture and size and the new quad and changes nothing else; on failure, or on a regular entity, nothing changes |
| HudEntity.UpdateTextIsRebuild | src/engine/hud/entity.rs:247-283 | updating a text entity's text yields what building a new text entity from the same string yields, apart from the entity's own position, scale, depth, indices and UV table |
| LegacyEntity.NewFromTex | src/engine/entity.rs:93-115 | a fresh `SimpleEntity` keeps the mesh and texture, records the texture's size, and starts at scale 1, position (0, 0), depth 0 |
| LegacyEntity.SetPos | src/engine/entity.rs:118-120 | `set_pos` changes the position and nothing else |
| LegacyEntity.SetScale | src/engine/entity.rs:123-125 | `set_scale` changes the scale and nothing else |
| LegacyEntity.SetDepth | src/engine/entity.rs:128-130 | `set_depth` changes the depth and nothing else |
| LegacyEntity.UpdateUv | src/engine/entity.rs:133-141 | `update_uv` gives vertex i the new uv i, keeps the positions, and changes no other field |
| LegacyEntity.SettersCommute | src/engine/entity.rs:118-141 | the setters and `update_uv` commute with one another, and the last depth set wins |
| LegacyEntity.New | src/engine/entity.rs:204-240 | building from a descriptor fails with the default-UV message exactly when the default state is missing, and with the image message exactly when the image is missing; otherwise vertex i is (position i, default uv i), the UV table covers every descriptor state, and the entity has the fresh defaults, holding the image as its texture and the image's size as its texture size |
| LegacyEntity.SetPosDynamic | src/engine/entity.rs:260-262 | the wrapper's `set_pos` applies `set_pos` to the inner entity and keeps the UV table |
| LegacyEntity.SetScaleDynamic | src/engine/entity.rs:265-267 | the wrapper's `set_scale` applies `set_scale` to the inner entity and keeps the UV table |
| LegacyEntity.SetDepthDynamic | src/engine/entity.rs:270-272 | the wrapper's `set_depth` applies `set_depth` to the inner entity and keeps the UV table |
| LegacyEntity.StateIds | src/engine/entity.rs:275-277 | `state_ids` lists each name of the UV table exactly once |
| LegacyEntity.SetState | src/engine/entity.rs:280-286 | `set_state` succeeds exactly when the table holds the state; it then overwrites every vertex uv with the state's and keeps positions, table and other fields; otherwise nothing changes |
| LegacyEntity.SetStateIdempotent | src/engine/entity.rs:280-286 | setting the same state twice gives what setting it once gives |
| LegacyEntity.DefaultStateIsInitial | src/engine/entity.rs:204-240 | setting the default state on a freshly built entity succeeds and changes nothing |
| HudRenderer.InsertKeepsOrder | src/engine/hud/renderer.rs:46-51 | inserting the next entity after every entity at least as deep, and before the first shallower one, keeps the order deepest-first and stable |
| HudRenderer.Insert | src/engine/hud/renderer.rs:46-51 | one insertion step keeps the draw order sorted by descending depth and stable |
| HudRenderer.InsertStepValues | src/engine/hud/renderer.rs:45-51 | after each insertion the ordered entities are a permutation of the entities seen so far |
| HudRenderer.SortByDepth | src/engine/hud/renderer.rs:45-51 | the draw order is a permutation of the registry values, with depths non-increasing along it, and entities of equal depth keep their `values()` order |
| HudRenderer.EntityDraws | src/engine/hud/renderer.rs:56-59 | each ordered entity is drawn once, in order, right after `depth_tex` is set to false |
| HudRenderer.FrameShape | src/engine/hud/renderer.rs:52-61 | a frame sets `depth_tex` to true, draws the preview exactly once, first, and then for each entity in order sets `depth_tex` to false and draws it |
| HudRenderer.Render | src/engine/hud/renderer.rs:36-62 | rendering draws every registered entity exactly once, deepest first with a stable order, after the depth preview, with `depth_tex` true for the preview and false for each entity |
| EntityRegistry.Get | src/engine/entity_registry.rs:19-21 | `get` finds an entity exactly when the name is registered, and returns that entity |
| EntityRegistry.New | src/engine/entity_registry.rs:9-13 | a new registry holds no names |
| EntityRegistry.Register | src/engine/entity_registry.rs:15-17 | after `register(n, e)`, `get(n)` is `e`, every other name's lookup is unchanged, and `n` joins the names |
| EntityRegistry.GetMut | src/engine/entity_registry.rs:23-25 | `get_mut` finds the same entry `get` finds |
| EntityRegistry.WriteThrough | src/engine/entity_registry.rs:23-25 | writing through `get_mut`'s reference changes that name's entity only |
| EntityRegistry.LastWriteWins | src/engine/entity_registry.rs:15-25 | registering a name twice keeps only the second entity, and writing back an unchanged entity leaves the registry as it was |
| EntityRegistry.GetDetermines | src/engine/entity_registry.rs:19-21 | two registries that agree on every lookup are equal |
| EntityRegistry.Values | src/engine/entity_registry.rs:27-29 | `values()` has one entry per registered name, each the entity registered under it |
| KeyRegistry.New | src/engine/key_registry.rs:11-15 | a new registry has no active key |
| KeyRegistry.Event | src/engine/key_registry.rs:17-35 | a press adds the key (no change if already active), a release removes it (no change if inactive), and repeats and all other events leave the set alone |
| KeyRegistry.EventIgnoresScancodeAndMods | src/engine/key_registry.rs:19-32 | only the key and action of an event matter, and repeating an event changes nothing further |
| KeyRegistry.HeldIffLastPressed | src/engine/key_registry.rs:17-35 | after a run of events a key is active exactly when its last press or release was a press, or when it had none and was active before |
| KeyRegistry.FreshHeldIffLastPressed | src/engine/key_registry.rs:11-35 | from a new registry, a key is active exactly when its last press or release was a press |
| KeyRegistry.ForPressedKeys | src/engine/key_registry.rs:37-44 | the callback runs exactly once for each active key and for no other |
| Font.New | src/engine/text.rs:45-52 | `Font::new` stores the family name, weight, style and size it is given |
| Font.FileName | src/engine/text.rs:54-58 | a font file name starts with the family name and a dash and ends in `.ttf` |
| Font.FileNameInjective | src/engine/text.rs:54-58 | within one family, different weight/style pairs get different file names |
| Font.FileNameExample | src/engine/text.rs:54-58 | the black regular Roboto face is `Roboto-Black.ttf` |
| Font.FileNameItalicExample | src/engine/text.rs:54-58 | the light italic Roboto face is `Roboto-LightItalic.ttf`: the style follows the weight |
| GlyphRaster.Shift6 | src/engine/text.rs:115-119 | `>> 6` on a FreeType 26.6 value is the floor of division by 64 |
| GlyphRaster.As64 | src/engine/text.rs:147-148 | `i64 as usize` keeps non-negative values and wraps negative ones modulo 2^64 |
| GlyphRaster.Metrics | src/engine/text.rs:114-121 | every glyph metric is its FreeType value in whole pixels, rounded down |
| GlyphRaster.Column | src/engine/text.rs:147-150 | bitmap column j lands in a map column no further right than the last one, and never left of column 0 when the map has a column |
| GlyphRaster.LastWriter | src/engine/text.rs:142-151 | the bitmap column whose value ends up in map column c is the last one the clamped column formula sends there, if any |
| GlyphRaster.LastWriterClosedForm | src/engine/text.rs:145-150 | with a non-negative bearing, map column c holds bitmap column `c - start_x`; the last map column collects every bitmap column that lands at or beyond it, and the last of them wins |
| GlyphRaster.NegativeBearingClamps | src/engine/text.rs:147-150 | with a negative bearing and a bitmap no wider than `-start_x`, the cast wraps, every bitmap column clamps to the last map column, and the others stay blank |
| GlyphRaster.OriginCrossingLastWriter | src/engine/text.rs:147-150 | with a negative bearing and a bitmap crossing the pen origin, the wrapped `usize` sum sends the pixels from the origin on to `start_x + j`, so map column c holds bitmap column `c - start_x`; every pixel left of the origin lands in the last map column, which keeps the rightmost pixel reaching it |
| GlyphRaster.FillRow | src/engine/text.rs:142-151 | one bitmap row is copied into a zeroed map row, each map cell ending with its last writer's bitmap value |
| GlyphRaster.RawMap | src/engine/text.rs:123-152 | the map has `max(height, 1)` rows and `advance` columns, and each cell holds the bitmap value of its last writer or 0 |
| GlyphRaster.TexelsOfMap | src/engine/text.rs:154-166 | the RGBA expansion has four bytes per map cell, row-major, with red, green and blue 255 and alpha the map value |
| GlyphRaster.RawGlyph | src/engine/text.rs:114-167 | a glyph's texels are `rows * cols * 4` bytes; texel (i, j) is white with the alpha of the bitmap pixel that lands in map cell (i, j), and 0 where none does |
| TextAtlas.TopHeight | src/engine/text.rs:192-194 | the top height is the largest `start_y` of the string, or 0 when none is positive |
| TextAtlas.BottomHeight | src/engine/text.rs:195-197 | the bottom height is the largest descent `height - start_y`, or 0 when none is positive |
| TextAtlas.TotalAdvanceMonotone | src/engine/text.rs:198 | with no negative advance, each glyph's column ends within the total width |
| TextAtlas.Measure | src/engine/text.rs:186-204 | the first loop fails exactly when some glyph cannot be rasterised, and otherwise yields the glyphs with their top height, bottom height and total advance |
| TextAtlas.Uploads | src/engine/text.rs:214-267 | the second loop uploads each glyph and its two paddings at the running offset, and the offset ends at the total advance |
| TextAtlas.PlacementsAt | src/engine/text.rs:214-266 | glyph k's three uploads sit at x offset `sum of advances of glyphs 0..k-1` |
| TextAtlas.ColumnAt | src/engine/text.rs:214-266 | in glyph k's column the top padding covers rows `[0, T-start_y)`, the glyph `[T-start_y, T-start_y+height)` with its baseline on row T, and the bottom padding the rest down to `T+B`, all as wide as the advance and the paddings transparent |
| TextAtlas.BuildLayout | src/engine/text.rs:205-276 | the atlas of a string is as wide as the sum of advances and as tall as `T + B`, every column is tiled as above, and the corner UVs are `[[0,h],[w,h],[w,0],[0,0]]` |
| TextAtlas.ColumnsDisjoint | src/engine/text.rs:266 | the columns of two glyphs do not overlap |
| TextAtlas.Assemble | src/engine/text.rs:204-276 | once every glyph is measured, the texture is the total advance wide and `T + B` tall, and its uploads and corner UVs are laid out as `BuildLayout` states |
| TextAtlas.TexFromString | src/engine/text.rs:181-281 | `tex_from_string` returns nothing exactly when some glyph of the string cannot be rasterised, and otherwise the atlas above |
| TextAtlas.GlyphDataSize | src/engine/text.rs:154-156 | the bytes uploaded for a glyph fill its `advance` by `height` rectangle exactly, except that a glyph of height 0 still brings one row of `advance * 4` bytes |
| TextAtlas.QuadShowsAtlas | src/engine/hud/entity.rs:151-173 | each corner of a string's text quad sits at `(u, h - v - lh)` for its UV `(u, v)`, so the quad shows the whole atlas the right way up with its top on the line height |
| TextAtlas.AsU32 | src/engine/text.rs:247 | `i64 as u32` keeps values in range and wraps negative ones modulo 2^32 |
| TextAtlas.BottomPaddingAsWritten | src/engine/text.rs:244-265 | the bottom padding as the `u32` arithmetic computes it: where nothing overflows, its top row plus its height reaches the texture's bottom `T + B` |
| TextAtlas.BottomPaddingAgrees | src/engine/text.rs:244-265 | for a glyph reaching below the baseline, the `u32` bottom-padding arithmetic gives the row `T - start_y + height` and the height `B - (height - start_y)` |
| TextAtlas.RaisedGlyphOverflows | src/engine/text.rs:244-265 | for a glyph whose bitmap ends above the baseline, the `u32` bottom-padding arithmetic overflows |
| TextAtlas.HyphenExample | src/engine/text.rs:244-265 | a hyphen alone is a valid input whose `u32` bottom padding overflows, while its intended bottom padding is the 6 rows between the bitmap and the baseline |
| Sound.UpdateLeft | src/engine/sound/sound_entities.rs:17-24 | `update_left` subtracts the elapsed time from a finite length and leaves an infinite one |
| Sound.IsDoneLength | src/engine/sound/sound_entities.rs:26-31 | a length is done exactly when it is finite with nothing left |
| Sound.ElapseSubtracts | src/engine/sound/sound_entities.rs:17-31 | a run of updates subtracts the total elapsed time from a finite length, and an infinite length is never done |
| Sound.Tick | src/engine/sound/sound_entities.rs:63-70 | an update counts the playing sound down and drops it once it is done |
| Sound.Done | src/engine/sound/sound_entities.rs:84-90 | a sound is done when nothing plays, or when what plays has no time left |
| Sound.FinitePlayback | src/engine/sound/sound_entities.rs:59-90 | a sound started with `s` seconds is done exactly when the updates total at least `s`, and until then it has `s` minus the total left |
| Sound.InfinitePlayback | src/engine/sound/sound_entities.rs:59-90 | a sound started with an infinite length plays on through any updates |
| Sound.NewPositioned | src/engine/sound/sound_entities.rs:43-50 | a new positioned sound is at rest, plays nothing and is done |
| Sound.SetVelocity | src/engine/sound/sound_entities.rs:52-57 | `set_velocity` stores the velocity and changes nothing else |
| Sound.UpdatePositioned | src/engine/sound/sound_entities.rs:59-71 | `update` moves the position by velocity times elapsed time and counts the playing sound down, dropping it once done; the configured length never changes |
| Sound.PlayPositioned | src/engine/sound/sound_entities.rs:73-76 | `play` starts a fresh copy of the configured length under a new controller and changes nothing else |
| Sound.StopPositioned | src/engine/sound/sound_entities.rs:78-82 | `stop` tells the playing controller, if any, to stop and leaves the sound's state as it was |
| Sound.PositionedIsDone | src/engine/sound/sound_entities.rs:84-90 | a positioned sound is done when nothing plays or what plays has no time left |
| Sound.NewUnpositioned | src/engine/sound/sound_entities.rs:99-104 | a new unpositioned sound plays nothing and is done |
| Sound.UpdateUnpositioned | src/engine/sound/sound_entities.rs:106-113 | `update` counts the playing sound down and drops it once done |
| Sound.PlayUnpositioned | src/engine/sound/sound_entities.rs:115-118 | `play` starts a fresh copy of the configured length under a new controller |
| Sound.StopUnpositioned | src/engine/sound/sound_entities.rs:120-125 | `stop` tells the playing controller, if any, to stop, and afterwards nothing plays |
| Sound.UnpositionedIsDone | src/engine/sound/sound_entities.rs:127-133 | an unpositioned sound is done when nothing plays or what plays has no time left |
| Sound.ReplayRestarts | src/engine/sound/sound_entities.rs:106-118 | a finite sound is done once the updates total its length, and playing it again restarts the full length because the configured length is never counted down |
| RgbaColor.New | src/engine/utils.rs:42-44 | `new` stores the four channels unchanged |
| RgbaColor.Array | src/engine/utils.rs:47-49 | `array` returns the channels in red, green, blue, alpha order, from which `new` rebuilds the colour |
| RgbaColor.ArrayOfNew | src/engine/utils.rs:42-49 | `new` followed by `array` gives the channels back in argument order |
| RgbaColor.Debug | src/engine/utils.rs:52-56 | the `Debug` text opens with `RGBA(` and closes with `)`; `RgbaColor.ParseDebugInverse` shows it holds the four channels |
| RgbaColor.DebugExample | src/engine/utils.rs:52-56 | `Debug` prints `RGBA(255, 128, 0, 7)` for those channels |
| RgbaColor.ParseDebugInverse | src/engine/utils.rs:52-56 | the `Debug` text can be read back to give the colour it was printed from |
| RgbaColor.Display | src/engine/utils.rs:58-62 | `Display` prints what `Debug` prints |
| RgbaColor.DebugInjective | src/engine/utils.rs:52-62 | different colours print differently under `Debug` and `Display` |

## Left out

- GPU work is not modelled. This covers building tessellations, creating
  textures, uploading texels, binding textures, uniforms, shader programs
  and every `render` method. A texture is its size and an identity, and an
  upload is a recorded rectangle.
- TextAtlas.TexFromString: a failure to create the texture or to upload a
  part (`src/engine/text.rs:205-213`, `218-265`) is a GPU error and is not
  modelled, so the result is absent only when a glyph is missing.
- TextAtlas.TexFromString: the `as u32` casts of an advance, a bearing, a
  descent and the paddings (`src/engine/text.rs:193`, `196`, `198`, `217`,
  `220`, `229`, `237`) are not modelled as wrapping. These casts never
  panic; a negative advance, or a metric beyond `u32`, would wrap silently.
  The preconditions `Measurable` and `Placeable` exclude such glyphs: no
  advance is negative and every metric and padding size fits in `u32`.
  FreeType gives non-negative advances and small metrics for real fonts,
  and the wrapped layout would not be a picture of the text.
- TextAtlas.TexFromString: for a glyph whose bitmap ends above the
  baseline (`start_y > height`), the bottom padding's `u32` arithmetic
  (`src/engine/text.rs:247`, `255`, `259`) panics in a debug build. The
  model does not reproduce that panic: it returns the atlas a release build
  produces, which has the intended padding (see "## Findings").
- TextAtlas.GlyphDataSize: for a glyph of height 0 (a space), the upload
  brings `advance * 4` bytes for a zero-row rectangle. What the texture
  library does with the surplus row is not modelled.
- FreeType is not modelled: library and face loading, character sizing,
  and rendering a character (`src/engine/text.rs:102-113`). The metrics
  and the grey bitmap are inputs, and the failure branches at
  `src/engine/text.rs:170-178` become a missing glyph.
- GlyphRaster.RawGlyph: the bitmap is read with the glyph's metric width
  as its row stride, as the source indexes it. FreeType's own pitch is not
  modelled.
- GlyphRaster.RawGlyph: for a glyph with a negative bearing whose bitmap
  crosses the pen origin (`width > -start_x`, as for a `j` in many fonts),
  `start_x as usize + j` (`src/engine/text.rs:147-148`) overflows `usize`
  for every pixel from the origin on. A debug build panics there. The
  model does not reproduce the panic: it computes the release build's
  wrapped sum (`GlyphRaster.Column`), whose effect is stated by
  `GlyphRaster.OriginCrossingLastWriter`.
- Terrain heights and normals are floating point and are not modelled, and
  the Perlin noise source is not part of this model
  (`src/terrain.rs:17-24`, `27-36`, `65-96`). A terrain vertex is the grid
  point it was built from.
- Terrain.Generate: the `as VertexIndex` casts of the indices are not
  modelled as truncation. The precondition `size_x * size_y <= u32::MAX`,
  which the `u32` product at line 42 needs anyway, keeps every index in
  range.
- ObjLoader.Load: the `vertices.len() as VertexIndex` cast is not modelled
  as truncation, so a geometry with more than 2^32 vertices is outside the
  model.
- OBJ and MTL text parsing, file loading, and the single-object assertion
  (`src/engine/spatial/obj.rs:99-137`) are not modelled. The parsed object
  is the input. An out-of-range position or normal index, which panics
  when indexed, is excluded by a precondition.
- `Obj::to_tess` (`src/engine/spatial/obj.rs:80-97`) is GPU work and is
  not modelled.
- Image decoding, RON descriptor loading and the `load` helpers
  (`src/engine/utils.rs:10-31`, `src/engine/texture.rs:19-31`,
  `src/engine/entity.rs:242-257`, `src/engine/hud/entity.rs:129-144`) are
  not modelled. A missing image becomes the "image not found" error value.
- The file-path constructors `new` and `new_from_img` of both entity kinds
  are image loading followed by `new_from_tex`, and are not modelled
  separately.
- `SimpleEntity::print_uv` and `draw_map` only print, and are not modelled.
- HudRenderer.SortByDepth: the NaN branch of the comparator is not
  modelled. Depths are reals and so totally ordered.
- Sound.UpdatePositioned: the position is integrated in exact real
  arithmetic, not in `f32`.
- Sound.FinitePlayback: the remaining length counts down in exact real
  arithmetic, not in `f32` (`src/engine/sound/sound_entities.rs:17-24`).
  "Done exactly when the updates total at least `s`" holds for reals. In
  `f32`, rounding in the repeated subtraction can make it finish slightly
  early or late.
- The audio library's `SoundController` calls (stop, velocity and position
  updates) are not modelled. A controller is an identity, and `stop`
  returns the controller it stops.
- `Display`/`Debug` for `EntityRegistry` are not modelled. `Display`
  recurses into itself.
- Camera and pose math, the depth-preview entity's construction, the GLFW
  event loop in `src/main.rs`, WAV loading and asset packing are not part
  of this model.

## Findings

| source | as written | input that shows it | evidently intended | confidence | as-written member | corrected member |
|---|---|---|---|---|---|---|
| src/engine/text.rs:244-265 | The bottom padding's top row is `(height - start_y) as u32 + max_top_height` and its height is `max_bottom_height - (height - start_y) as u32`. For a glyph whose bitmap ends above the baseline (`start_y > height`), the cast wraps to nearly 2^32, the sum overflows and the difference underflows. A debug build panics; a release build wraps back to the intended numbers. | A hyphen alone: start_y 8, height 2, advance 8, so T = 8 and B = 0. `(2 - 8) as u32` is 2^32 - 6, and `2^32 - 6 + 8` overflows `u32`. | Padding from row `T - start_y + height` down to `T + B`, which is `B - (height - start_y)` rows, computed without wrapping. For the hyphen that is rows 2 to 8. | not executed; the overflow follows from the `u32` arithmetic as written | TextAtlas.BottomPaddingAsWritten, shown by TextAtlas.RaisedGlyphOverflows and TextAtlas.HyphenExample | TextAtlas.TexFromString, with the tiling proved in TextAtlas.BuildLayout |
