/** HUD vertices and the vertex buffer of a HUD entity. A vertex pairs an
    integer screen position (`[i32; 2]`) with a texel coordinate in the
    entity's texture (`[u32; 2]`). The GPU buffer behind an entity is modelled
    as the sequence of its vertices. */
module HudVertex {

  /** `VertexPosition`. */
  datatype Position = Position(x: int, y: int)

  /** `VertexUV`. */
  datatype Uv = Uv(u: nat, v: nat)

  /** `Vertex`: a position and a uv. */
  datatype Vertex = Vertex(position: Position, uv: Uv)

  /** `Vertex::update_uv`: the uv is replaced, the position kept. */
  function UpdateUv(vertex: Vertex, newUv: Uv): (r: Vertex)
    ensures r.uv == newUv
    ensures r.position == vertex.position
  {
    vertex.(uv := newUv)
  }

  /** `Vertex::update_pos`: the position is replaced, the uv kept. */
  function UpdatePos(vertex: Vertex, newPos: Position): (r: Vertex)
    ensures r.position == newPos
    ensures r.uv == vertex.uv
  {
    vertex.(position := newPos)
  }

  /** `Vertex::get_uv`: the current uv, the one value whose write-back
      changes nothing. */
  function GetUv(vertex: Vertex): (u: Uv)
    ensures UpdateUv(vertex, u) == vertex
  {
    vertex.uv
  }

  /** `Vertex::get_pos`: the current position, the one value whose
      write-back changes nothing. */
  function GetPos(vertex: Vertex): (p: Position)
    ensures UpdatePos(vertex, p) == vertex
  {
    vertex.position
  }

  /** The getters return what was written last, and each update leaves the
      other getter's answer alone. */
  lemma ReadAfterWrite(vertex: Vertex, newUv: Uv, newPos: Position)
    ensures GetUv(UpdateUv(vertex, newUv)) == newUv
    ensures GetPos(UpdateUv(vertex, newUv)) == GetPos(vertex)
    ensures GetPos(UpdatePos(vertex, newPos)) == newPos
    ensures GetUv(UpdatePos(vertex, newPos)) == GetUv(vertex)
  {
  }

  /** The two updates touch disjoint fields, so their order does not matter,
      and a second write of the same field overwrites the first. */
  lemma UpdatesCommute(vertex: Vertex, uv1: Uv, uv2: Uv, newPos: Position)
    ensures UpdatePos(UpdateUv(vertex, uv1), newPos) == UpdateUv(UpdatePos(vertex, newPos), uv1)
    ensures UpdateUv(UpdateUv(vertex, uv1), uv2) == UpdateUv(vertex, uv2)
    ensures UpdateUv(vertex, GetUv(vertex)) == vertex
  {
  }

  /** Entity `update_uv`: vertex i takes `newUvs[i]` for every vertex of the
      buffer and keeps its position. A shorter uv list would make the
      indexing panic. */
  function WithUvs(vertices: seq<Vertex>, newUvs: seq<Uv>): (r: seq<Vertex>)
    requires |newUvs| >= |vertices|
    ensures |r| == |vertices|
    ensures forall i :: 0 <= i < |r| ==> GetUv(r[i]) == newUvs[i] && GetPos(r[i]) == GetPos(vertices[i])
  {
    seq(|vertices|, i requires 0 <= i < |vertices| => UpdateUv(vertices[i], newUvs[i]))
  }

  /** Entity `update_pos`: vertex i takes `newPositions[i]` and keeps its uv. */
  function WithPositions(vertices: seq<Vertex>, newPositions: seq<Position>): (r: seq<Vertex>)
    requires |newPositions| >= |vertices|
    ensures |r| == |vertices|
    ensures forall i :: 0 <= i < |r| ==> GetPos(r[i]) == newPositions[i] && GetUv(r[i]) == GetUv(vertices[i])
  {
    seq(|vertices|, i requires 0 <= i < |vertices| => UpdatePos(vertices[i], newPositions[i]))
  }

  /** Entity `update`: vertex i takes both halves of `newVertices[i]`, so the
      result depends on the old buffer only through its length. */
  function WithPairs(vertices: seq<Vertex>, newVertices: seq<(Position, Uv)>): (r: seq<Vertex>)
    requires |newVertices| >= |vertices|
    ensures |r| == |vertices|
    ensures forall i :: 0 <= i < |r| ==> GetPos(r[i]) == newVertices[i].0 && GetUv(r[i]) == newVertices[i].1
  {
    seq(|vertices|, i requires 0 <= i < |vertices| => UpdateUv(UpdatePos(vertices[i], newVertices[i].0), newVertices[i].1))
  }

  /** Writing positions and then uvs is the same as writing the pairs. */
  lemma PairsArePositionsThenUvs(vertices: seq<Vertex>, newVertices: seq<(Position, Uv)>)
    requires |newVertices| >= |vertices|
    ensures WithPairs(vertices, newVertices)
         == WithUvs(WithPositions(vertices, seq(|newVertices|, i requires 0 <= i < |newVertices| => newVertices[i].0)),
                    seq(|newVertices|, i requires 0 <= i < |newVertices| => newVertices[i].1))
  {
  }

  /** Writing the same uvs twice gives the buffer of writing them once. */
  lemma WithUvsIdempotent(vertices: seq<Vertex>, newUvs: seq<Uv>)
    requires |newUvs| >= |vertices|
    ensures WithUvs(WithUvs(vertices, newUvs), newUvs) == WithUvs(vertices, newUvs)
  {
  }

  /** Writing back the uvs a buffer already holds changes nothing. */
  lemma WithOwnUvs(vertices: seq<Vertex>, newUvs: seq<Uv>)
    requires |newUvs| >= |vertices|
    requires forall i :: 0 <= i < |vertices| ==> GetUv(vertices[i]) == newUvs[i]
    ensures WithUvs(vertices, newUvs) == vertices
  {
  }
}
