/** The texture descriptor an entity with UV states is built from: an image
    file, the name of the default state, and per state one texel coordinate
    per vertex. Reading the descriptor (RON) and the image from disk is not
    modelled; the decoded values are the inputs. */
module TextureDescriptor {
  import opened Common
  import opened HudVertex

  /** `TextureData`. */
  datatype TextureData = TextureData(file: string, defaultUv: string, uv: map<string, seq<(nat, nat)>>)

  /** A GPU texture, known to the model by its size and an identity. */
  datatype Texture = Texture(width: nat, height: nat, handle: nat)

  /** Why building an entity from a descriptor panics. */
  datatype BuildError =
    | DefaultUvInvalid(file: string)   // the default state is not in the table
    | ImageNotFound(file: string)      // the image file could not be read

  /** One state's coordinates as vertex uvs, in order. */
  function ToUvs(coords: seq<(nat, nat)>): (r: seq<Uv>)
    ensures |r| == |coords|
    ensures forall i :: 0 <= i < |r| ==> r[i] == Uv(coords[i].0, coords[i].1)
  {
    seq(|coords|, i requires 0 <= i < |coords| => Uv(coords[i].0, coords[i].1))
  }

  /** The UV-state table: every descriptor state, converted. */
  function UvTable(uv: map<string, seq<(nat, nat)>>): (r: map<string, seq<Uv>>)
    ensures r.Keys == uv.Keys
    ensures forall id :: id in r ==> r[id] == ToUvs(uv[id])
  {
    map id | id in uv :: ToUvs(uv[id])
  }

  /** The initial vertex buffer: vertex i is `positions[i]` with the default
      state's uv i; `None` when the default state is missing. */
  function DefaultVertices(positions: seq<Position>, data: TextureData): (r: Option<seq<Vertex>>)
    requires data.defaultUv in data.uv ==> |data.uv[data.defaultUv]| >= |positions|
    ensures r.Some? <==> data.defaultUv in data.uv
    ensures r.Some? ==> |r.value| == |positions|
    ensures r.Some? ==> forall i :: 0 <= i < |positions| ==>
              r.value[i] == Vertex(positions[i], UvTable(data.uv)[data.defaultUv][i])
  {
    if data.defaultUv !in data.uv then None
    else
      var coords := data.uv[data.defaultUv];
      Some(seq(|positions|, i requires 0 <= i < |positions| => Vertex(positions[i], Uv(coords[i].0, coords[i].1))))
  }
}
