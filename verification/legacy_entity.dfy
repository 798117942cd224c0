/** The first-generation textured entities: `SimpleEntity`, a mesh with a
    texture, position, scale and depth, and `DynamicStateTexEntity`, which
    wraps one together with a table of named UV states that, unlike the HUD
    entity's, is always present. Both share the vertex layout of the HUD
    (`HudVertex`), which declares the same position and uv fields. */
module LegacyEntity {
  import opened Common
  import opened HudVertex
  import opened TextureDescriptor

  /** `SimpleEntity`. */
  datatype SimpleEntity = SimpleEntity(
    vertices: seq<Vertex>,
    indices: seq<nat>,
    tex: Texture,
    texSize: (nat, nat),
    scale: real,
    pos: (int, int),
    depth: real)

  /** `SimpleEntity::new_from_tex`: the mesh and texture as given, the
      texture's size, unit scale, origin position and depth zero. */
  function NewFromTex(vertices: seq<Vertex>, indices: seq<nat>, tex: Texture): (e: SimpleEntity)
    ensures e.vertices == vertices && e.indices == indices && e.tex == tex
    ensures e.texSize == (tex.width, tex.height)
    ensures e.scale == 1.0 && e.pos == (0, 0) && e.depth == 0.0
  {
    SimpleEntity(vertices, indices, tex, (tex.width, tex.height), 1.0, (0, 0), 0.0)
  }

  /** `SimpleEntity::set_pos`: only the position changes. */
  function SetPos(e: SimpleEntity, newPos: (int, int)): (r: SimpleEntity)
    ensures r.pos == newPos && r.(pos := e.pos) == e
  {
    e.(pos := newPos)
  }

  /** `SimpleEntity::set_scale`: only the scale changes. */
  function SetScale(e: SimpleEntity, newScale: real): (r: SimpleEntity)
    ensures r.scale == newScale && r.(scale := e.scale) == e
  {
    e.(scale := newScale)
  }

  /** `SimpleEntity::set_depth`: only the depth changes. */
  function SetDepth(e: SimpleEntity, newDepth: real): (r: SimpleEntity)
    ensures r.depth == newDepth && r.(depth := e.depth) == e
  {
    e.(depth := newDepth)
  }

  /** `SimpleEntity::update_uv`: every vertex takes its new uv and keeps its
      position; nothing else changes. */
  function UpdateUv(e: SimpleEntity, newUvs: seq<Uv>): (r: SimpleEntity)
    requires |newUvs| >= |e.vertices|
    ensures r.(vertices := e.vertices) == e && |r.vertices| == |e.vertices|
    ensures forall i :: 0 <= i < |e.vertices| ==>
              GetUv(r.vertices[i]) == newUvs[i] && GetPos(r.vertices[i]) == GetPos(e.vertices[i])
  {
    e.(vertices := WithUvs(e.vertices, newUvs))
  }

  /** The setters touch disjoint fields: they commute with each other and
      with a uv update, and a later write of a field wins. */
  lemma SettersCommute(e: SimpleEntity, p: (int, int), s: real, d: real, d': real, uvs: seq<Uv>)
    requires |uvs| >= |e.vertices|
    ensures SetPos(SetScale(e, s), p) == SetScale(SetPos(e, p), s)
    ensures SetPos(SetDepth(e, d), p) == SetDepth(SetPos(e, p), d)
    ensures SetScale(SetDepth(e, d), s) == SetDepth(SetScale(e, s), d)
    ensures SetDepth(SetDepth(e, d'), d) == SetDepth(e, d)
    ensures UpdateUv(SetPos(e, p), uvs) == SetPos(UpdateUv(e, uvs), p)
  {
  }

  /** `DynamicStateTexEntity`. */
  datatype DynamicStateTexEntity = DynamicStateTexEntity(simpleEntity: SimpleEntity, uvStates: map<string, seq<Uv>>)

  /** `DynamicStateTexEntity::new`: vertex i is `positions[i]` with the
      default state's uv i and the table holds every descriptor state. It
      fails when the default state is not in the table, and otherwise when
      `image` (the image read from the descriptor's file) is missing. */
  function New(positions: seq<Position>, indices: seq<nat>, data: TextureData, image: Option<Texture>)
    : (r: Result<DynamicStateTexEntity, BuildError>)
    requires data.defaultUv in data.uv ==> |data.uv[data.defaultUv]| >= |positions|
    ensures r == Err(DefaultUvInvalid(data.file)) <==> data.defaultUv !in data.uv
    ensures r == Err(ImageNotFound(data.file)) <==> data.defaultUv in data.uv && image.None?
    ensures r.Ok? ==> image.Some? && r.value.simpleEntity.tex == image.value
    ensures r.Ok? ==> r.value.simpleEntity.texSize == (image.value.width, image.value.height)
    ensures r.Ok? ==> r.value.uvStates == UvTable(data.uv) && r.value.simpleEntity.indices == indices
    ensures r.Ok? ==> |r.value.simpleEntity.vertices| == |positions|
    ensures r.Ok? ==> forall i :: 0 <= i < |positions| ==>
              GetPos(r.value.simpleEntity.vertices[i]) == positions[i] &&
              GetUv(r.value.simpleEntity.vertices[i]) == Uv(data.uv[data.defaultUv][i].0, data.uv[data.defaultUv][i].1)
    ensures r.Ok? ==> r.value.simpleEntity.scale == 1.0 && r.value.simpleEntity.pos == (0, 0) && r.value.simpleEntity.depth == 0.0
  {
    match DefaultVertices(positions, data)
    case None => Err(DefaultUvInvalid(data.file))
    case Some(vertices) =>
      match image
      case None => Err(ImageNotFound(data.file))
      case Some(tex) => Ok(DynamicStateTexEntity(NewFromTex(vertices, indices, tex), UvTable(data.uv)))
  }

  /** `DynamicStateTexEntity::set_pos`: the inner entity's `set_pos`. */
  function SetPosDynamic(e: DynamicStateTexEntity, newPos: (int, int)): (r: DynamicStateTexEntity)
    ensures r == DynamicStateTexEntity(SetPos(e.simpleEntity, newPos), e.uvStates)
  {
    e.(simpleEntity := SetPos(e.simpleEntity, newPos))
  }

  /** `DynamicStateTexEntity::set_scale`: the inner entity's `set_scale`. */
  function SetScaleDynamic(e: DynamicStateTexEntity, newScale: real): (r: DynamicStateTexEntity)
    ensures r == DynamicStateTexEntity(SetScale(e.simpleEntity, newScale), e.uvStates)
  {
    e.(simpleEntity := SetScale(e.simpleEntity, newScale))
  }

  /** `DynamicStateTexEntity::set_depth`: the inner entity's `set_depth`. */
  function SetDepthDynamic(e: DynamicStateTexEntity, newDepth: real): (r: DynamicStateTexEntity)
    ensures r == DynamicStateTexEntity(SetDepth(e.simpleEntity, newDepth), e.uvStates)
  {
    e.(simpleEntity := SetDepth(e.simpleEntity, newDepth))
  }

  /** `DynamicStateTexEntity::state_ids`: every state name once, in the
      table's own order. */
  method StateIds(e: DynamicStateTexEntity) returns (ids: seq<string>)
    ensures Distinct(ids)
    ensures forall id :: id in ids <==> id in e.uvStates
    ensures |ids| == |e.uvStates.Keys|
  {
    ids := Enumerate(e.uvStates.Keys);
  }

  /** What `set_state` needs of the table: the state's uv list covers the buffer. */
  predicate StateCovers(e: DynamicStateTexEntity, id: string)
  {
    id in e.uvStates ==> |e.uvStates[id]| >= |e.simpleEntity.vertices|
  }

  /** `DynamicStateTexEntity::set_state`: a known state is written over the
      inner entity's uvs with `update_uv`; an unknown one fails and changes
      nothing. */
  function SetState(e: DynamicStateTexEntity, id: string): (r: (DynamicStateTexEntity, Result<(), ()>))
    requires StateCovers(e, id)
    ensures r.1.Ok? <==> id in e.uvStates
    ensures r.1.Err? ==> r.0 == e
    ensures r.1.Ok? ==> r.0.uvStates == e.uvStates
    ensures r.1.Ok? ==> r.0.simpleEntity.(vertices := e.simpleEntity.vertices) == e.simpleEntity
    ensures r.1.Ok? ==> |r.0.simpleEntity.vertices| == |e.simpleEntity.vertices|
    ensures r.1.Ok? ==> forall i :: 0 <= i < |e.simpleEntity.vertices| ==>
              GetUv(r.0.simpleEntity.vertices[i]) == e.uvStates[id][i] &&
              GetPos(r.0.simpleEntity.vertices[i]) == GetPos(e.simpleEntity.vertices[i])
  {
    if id in e.uvStates then
      (e.(simpleEntity := UpdateUv(e.simpleEntity, e.uvStates[id])), Ok(()))
    else
      (e, Err(()))
  }

  /** Selecting a state twice leaves the entity as selecting it once. */
  lemma {:induction false} SetStateIdempotent(e: DynamicStateTexEntity, id: string)
    requires StateCovers(e, id)
    ensures StateCovers(SetState(e, id).0, id)
    ensures SetState(SetState(e, id).0, id) == SetState(e, id)
  {
    if id in e.uvStates {
      WithUvsIdempotent(e.simpleEntity.vertices, e.uvStates[id]);
    }
  }

  /** A fresh entity already shows its default state: selecting it succeeds
      and changes nothing. */
  lemma {:induction false} DefaultStateIsInitial(positions: seq<Position>, indices: seq<nat>, data: TextureData, image: Option<Texture>)
    requires data.defaultUv in data.uv ==> |data.uv[data.defaultUv]| >= |positions|
    requires New(positions, indices, data, image).Ok?
    ensures StateCovers(New(positions, indices, data, image).value, data.defaultUv)
    ensures SetState(New(positions, indices, data, image).value, data.defaultUv)
         == (New(positions, indices, data, image).value, Ok(()))
  {
    var e := New(positions, indices, data, image).value;
    var uvs := e.uvStates[data.defaultUv];
    assert uvs == ToUvs(data.uv[data.defaultUv]);
    WithOwnUvs(e.simpleEntity.vertices, uvs);
  }
}
