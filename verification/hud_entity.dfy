/** A HUD entity: a textured mesh drawn at an integer screen position with a
    scale and a depth, optionally carrying a table of named UV states, and
    either a regular sprite or a line of text whose texture is re-rasterised
    on demand. The mesh is its vertex buffer and index list; the texture is
    known by its size. */
module HudEntity {
  import opened Common
  import opened HudVertex
  import opened TextureDescriptor

  const I32Min: int := -0x8000_0000
  const I32Max: int := 0x7FFF_FFFF

  predicate IsI32(n: int) { I32Min <= n <= I32Max }

  /** `EntityKind`: only text entities accept new text. */
  datatype EntityKind = Regular | Text

  /** `Entity`. `f32` fields are reals. */
  datatype Entity = Entity(
    vertices: seq<Vertex>,
    indices: seq<nat>,
    tex: Texture,
    texSize: (nat, nat),
    scale: real,
    pos: (int, int),
    depth: real,
    uvStates: Option<map<string, seq<Uv>>>,
    kind: EntityKind)

  /** `new_from_tex`: the mesh and texture as given, the texture's size,
      unit scale, origin position, depth zero and no UV states. */
  function NewFromTex(vertices: seq<Vertex>, indices: seq<nat>, tex: Texture, kind: EntityKind): (e: Entity)
    ensures e.vertices == vertices && e.indices == indices && e.tex == tex && e.kind == kind
    ensures e.texSize == (tex.width, tex.height)
    ensures e.scale == 1.0 && e.pos == (0, 0) && e.depth == 0.0
    ensures e.uvStates.None?
  {
    Entity(vertices, indices, tex, (tex.width, tex.height), 1.0, (0, 0), 0.0, None, kind)
  }

  /** `new_with_texture_data`: vertex i is `positions[i]` with the default
      state's uv i and the UV-state table holds every descriptor state. It
      fails when the default state is not in the table, and otherwise when
      `image` (the image read from the descriptor's file) is missing. */
  function NewWithTextureData(positions: seq<Position>, indices: seq<nat>, data: TextureData, image: Option<Texture>)
    : (r: Result<Entity, BuildError>)
    requires data.defaultUv in data.uv ==> |data.uv[data.defaultUv]| >= |positions|
    ensures r == Err(DefaultUvInvalid(data.file)) <==> data.defaultUv !in data.uv
    ensures r == Err(ImageNotFound(data.file)) <==> data.defaultUv in data.uv && image.None?
    ensures r.Ok? ==> image.Some? && r.value.tex == image.value && r.value.kind == Regular
    ensures r.Ok? ==> r.value.texSize == (image.value.width, image.value.height)
    ensures r.Ok? ==> r.value.uvStates == Some(UvTable(data.uv)) && r.value.indices == indices
    ensures r.Ok? ==> |r.value.vertices| == |positions|
    ensures r.Ok? ==> forall i :: 0 <= i < |positions| ==>
              GetPos(r.value.vertices[i]) == positions[i] &&
              GetUv(r.value.vertices[i]) == Uv(data.uv[data.defaultUv][i].0, data.uv[data.defaultUv][i].1)
    ensures r.Ok? ==> r.value.scale == 1.0 && r.value.pos == (0, 0) && r.value.depth == 0.0
  {
    match DefaultVertices(positions, data)
    case None => Err(DefaultUvInvalid(data.file))
    case Some(vertices) =>
      match image
      case None => Err(ImageNotFound(data.file))
      case Some(tex) => Ok(NewFromTex(vertices, indices, tex, Regular).(uvStates := Some(UvTable(data.uv))))
  }

  /** `set_pos`: only the position changes. */
  function SetPos(e: Entity, newPos: (int, int)): (r: Entity)
    ensures r.pos == newPos && r.(pos := e.pos) == e
  {
    e.(pos := newPos)
  }

  /** `set_scale`: only the scale changes. */
  function SetScale(e: Entity, newScale: real): (r: Entity)
    ensures r.scale == newScale && r.(scale := e.scale) == e
  {
    e.(scale := newScale)
  }

  /** `set_depth`: only the depth changes. */
  function SetDepth(e: Entity, newDepth: real): (r: Entity)
    ensures r.depth == newDepth && r.(depth := e.depth) == e
  {
    e.(depth := newDepth)
  }

  /** `get_depth`. */
  function GetDepth(e: Entity): (d: real)
    ensures SetDepth(e, d) == e
  {
    e.depth
  }

  /** `get_depth` answers the depth set last; the other setters do not
      disturb it, and setters of different fields commute. */
  lemma DepthReadAfterWrite(e: Entity, d: real, d': real, p: (int, int), s: real)
    ensures GetDepth(SetDepth(e, d)) == d
    ensures GetDepth(SetDepth(SetDepth(e, d'), d)) == d
    ensures GetDepth(SetPos(e, p)) == GetDepth(e)
    ensures GetDepth(SetScale(e, s)) == GetDepth(e)
    ensures SetPos(SetDepth(e, d), p) == SetDepth(SetPos(e, p), d)
    ensures SetScale(SetDepth(e, d), s) == SetDepth(SetScale(e, s), d)
    ensures SetScale(SetPos(e, p), s) == SetPos(SetScale(e, s), p)
  {
  }

  /** The state names an entity answers to, as a set. */
  function StateNames(e: Entity): set<string>
  {
    if e.uvStates.Some? then e.uvStates.value.Keys else {}
  }

  /** `state_ids`: every state name once, in the table's own order; none
      without a table. */
  method StateIds(e: Entity) returns (ids: seq<string>)
    ensures Distinct(ids)
    ensures e.uvStates.None? ==> ids == []
    ensures forall id :: id in ids <==> e.uvStates.Some? && id in e.uvStates.value
  {
    if e.uvStates.Some? {
      ids := Enumerate(e.uvStates.value.Keys);
    } else {
      ids := [];
    }
  }

  /** What `set_state` needs of the table: the state's uv list covers the buffer. */
  predicate StateCovers(e: Entity, id: string)
  {
    e.uvStates.Some? && id in e.uvStates.value ==> |e.uvStates.value[id]| >= |e.vertices|
  }

  /** `set_state`: with a known state every vertex takes that state's uv and
      keeps its position, and nothing else changes; with an unknown state or
      no table it fails and nothing changes at all. */
  function SetState(e: Entity, id: string): (r: (Entity, Result<(), ()>))
    requires StateCovers(e, id)
    ensures r.1.Ok? <==> id in StateNames(e)
    ensures r.1.Err? ==> r.0 == e
    ensures r.1.Ok? ==> r.0.(vertices := e.vertices) == e && |r.0.vertices| == |e.vertices|
    ensures r.1.Ok? ==> forall i :: 0 <= i < |e.vertices| ==>
              GetUv(r.0.vertices[i]) == e.uvStates.value[id][i] && GetPos(r.0.vertices[i]) == GetPos(e.vertices[i])
  {
    if e.uvStates.Some? && id in e.uvStates.value then
      (e.(vertices := WithUvs(e.vertices, e.uvStates.value[id])), Ok(()))
    else
      (e, Err(()))
  }

  /** Selecting a state twice leaves the entity as selecting it once. */
  lemma {:induction false} SetStateIdempotent(e: Entity, id: string)
    requires StateCovers(e, id)
    ensures StateCovers(SetState(e, id).0, id)
    ensures SetState(SetState(e, id).0, id) == SetState(e, id)
  {
    if id in StateNames(e) {
      WithUvsIdempotent(e.vertices, e.uvStates.value[id]);
    }
  }

  /** An entity built from a descriptor already shows its default state:
      selecting it succeeds and changes nothing. */
  lemma {:induction false} DefaultStateIsInitial(positions: seq<Position>, indices: seq<nat>, data: TextureData, image: Option<Texture>)
    requires data.defaultUv in data.uv ==> |data.uv[data.defaultUv]| >= |positions|
    requires NewWithTextureData(positions, indices, data, image).Ok?
    ensures StateCovers(NewWithTextureData(positions, indices, data, image).value, data.defaultUv)
    ensures SetState(NewWithTextureData(positions, indices, data, image).value, data.defaultUv)
         == (NewWithTextureData(positions, indices, data, image).value, Ok(()))
  {
    var e := NewWithTextureData(positions, indices, data, image).value;
    var uvs := e.uvStates.value[data.defaultUv];
    assert uvs == ToUvs(data.uv[data.defaultUv]);
    WithOwnUvs(e.vertices, uvs);
  }

  /** `tex_from_string` as the entity consumes it: a texture, the four atlas
      uv corners and the line height. */
  datatype Raster = Raster(tex: Texture, uvs: seq<Uv>, lineHeight: int)

  /** `n as i32` for a `u32`: two's-complement wrap-around. */
  function AsI32(n: nat): (r: int)
    requires n <= U32Max
    ensures IsI32(r)
    ensures (r - n) % 0x1_0000_0000 == 0
    ensures n <= I32Max ==> r == n
  {
    if n <= I32Max then n else n - 0x1_0000_0000
  }

  /** What the text-quad arithmetic needs: four uvs, a `u32` texture size,
      and `-line_height` and `height as i32 - line_height` within `i32`. */
  predicate QuadFits(raster: Raster)
  {
    && |raster.uvs| == 4
    && raster.tex.width <= U32Max && raster.tex.height <= U32Max
    && IsI32(raster.lineHeight) && IsI32(-raster.lineHeight)
    && IsI32(AsI32(raster.tex.height) - raster.lineHeight)
  }

  /** The text quad: an axis-aligned rectangle as wide and as tall as the
      texture (through the `i32` cast), its bottom edge `line_height` below
      the entity's origin, corners bottom-left, bottom-right, top-right,
      top-left carrying the four atlas uvs in order. */
  function TextQuad(raster: Raster): (r: seq<Vertex>)
    requires QuadFits(raster)
    ensures |r| == 4
    ensures GetPos(r[0]) == Position(0, -raster.lineHeight)
    ensures GetPos(r[0]).x == GetPos(r[3]).x && GetPos(r[1]).x == GetPos(r[2]).x
    ensures GetPos(r[0]).y == GetPos(r[1]).y && GetPos(r[2]).y == GetPos(r[3]).y
    ensures GetPos(r[1]).x - GetPos(r[0]).x == AsI32(raster.tex.width)
    ensures GetPos(r[3]).y - GetPos(r[0]).y == AsI32(raster.tex.height)
    ensures forall i :: 0 <= i < 4 ==> GetUv(r[i]) == raster.uvs[i]
  {
    var w := AsI32(raster.tex.width);
    var h := AsI32(raster.tex.height);
    var lh := raster.lineHeight;
    [Vertex(Position(0, -lh), raster.uvs[0]),
     Vertex(Position(w, -lh), raster.uvs[1]),
     Vertex(Position(w, h - lh), raster.uvs[2]),
     Vertex(Position(0, h - lh), raster.uvs[3])]
  }

  /** The two triangles of the text quad. */
  const TextIndices: seq<nat> := [0, 1, 2, 0, 2, 3]

  /** `new_entity_from_string`: a text entity showing the quad of a
      successful rasterisation, with the defaults of `new_from_tex`; `None`
      when rasterising fails. */
  function NewEntityFromString(raster: Option<Raster>): (r: Option<Entity>)
    requires raster.Some? ==> QuadFits(raster.value)
    ensures r.Some? <==> raster.Some?
    ensures r.Some? ==> r.value.kind == Text && r.value.uvStates.None?
    ensures r.Some? ==> r.value.vertices == TextQuad(raster.value) && r.value.indices == TextIndices
    ensures r.Some? ==> r.value.tex == raster.value.tex && r.value.texSize == (raster.value.tex.width, raster.value.tex.height)
    ensures r.Some? ==> r.value.scale == 1.0 && r.value.pos == (0, 0) && r.value.depth == 0.0
    ensures r.Some? ==> forall k :: 0 <= k < |r.value.indices| ==> r.value.indices[k] < |r.value.vertices|
  {
    match raster
    case None => None
    case Some(ra) => Some(NewFromTex(TextQuad(ra), TextIndices, ra.tex, Text))
  }

  /** A vertex list as the `(position, uv)` pairs `update` takes. */
  function AsPairs(vertices: seq<Vertex>): (r: seq<(Position, Uv)>)
    ensures |r| == |vertices|
    ensures forall i :: 0 <= i < |r| ==> r[i] == (GetPos(vertices[i]), GetUv(vertices[i]))
  {
    seq(|vertices|, i requires 0 <= i < |vertices| => (vertices[i].position, vertices[i].uv))
  }

  /** What `update_text` needs: a text entity's buffer has at most the four
      quad vertices the update writes. */
  predicate TextFits(e: Entity, raster: Option<Raster>)
  {
    e.kind.Text? && raster.Some? ==> QuadFits(raster.value) && |e.vertices| <= 4
  }

  /** `update_text`: a text entity whose text rasterises takes the new
      texture, its size, and the new quad over its buffer; a regular entity,
      or a failed rasterisation, fails and changes nothing. */
  function UpdateText(e: Entity, raster: Option<Raster>): (r: (Entity, Result<(), ()>))
    requires TextFits(e, raster)
    ensures r.1.Ok? <==> e.kind.Text? && raster.Some?
    ensures r.1.Err? ==> r.0 == e
    ensures r.1.Ok? ==> r.0.(vertices := e.vertices, tex := e.tex, texSize := e.texSize) == e
    ensures r.1.Ok? ==> r.0.tex == raster.value.tex && r.0.texSize == (raster.value.tex.width, raster.value.tex.height)
    ensures r.1.Ok? ==> r.0.vertices == TextQuad(raster.value)[..|e.vertices|]
  {
    if e.kind.Text? && raster.Some? then
      var ra := raster.value;
      (e.(texSize := (ra.tex.width, ra.tex.height), tex := ra.tex,
          vertices := WithPairs(e.vertices, AsPairs(TextQuad(ra)))), Ok(()))
    else
      (e, Err(()))
  }

  /** Re-texting a four-vertex text entity gives the entity a fresh one would
      have for the new text, except for what the caller set on the old one:
      position, scale, depth, indices and states survive. */
  lemma UpdateTextIsRebuild(e: Entity, raster: Raster)
    requires e.kind.Text? && |e.vertices| == 4 && QuadFits(raster)
    ensures UpdateText(e, Some(raster)).0
         == NewEntityFromString(Some(raster)).value.(scale := e.scale, pos := e.pos, depth := e.depth,
                                                     indices := e.indices, uvStates := e.uvStates)
  {
    assert TextQuad(raster)[..4] == TextQuad(raster);
  }
}
