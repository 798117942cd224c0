/** Turning an already-parsed Wavefront object into GPU-ready geometries:
    the material lookup, the per-geometry vertex cache keyed by
    (position, texture, normal) indices, and the two load errors.
    Text parsing of OBJ/MTL files is done by a foreign parser and is not part
    of this model: the parsed object is the input. */
module ObjLoader {
  import opened Common

  /** An `mtl::Color`. */
  datatype Color = Color(r: real, g: real, b: real)

  /** The illumination models of the MTL format this engine uses. */
  datatype Illumination = Ambient | AmbientDiffuse | AmbientDiffuseSpecular

  /** An `mtl::Material`. */
  datatype Material = Material(
    name: string,
    specularCoefficient: real,
    colorAmbient: Color,
    colorDiffuse: Color,
    colorSpecular: Color,
    colorEmissive: Option<Color>,
    opticalDensity: Option<real>,
    alpha: real,
    illumination: Illumination,
    uvMap: Option<string>)

  /** `new_material`: opaque, no emission, no optical density, no UV map. */
  function NewMaterial(name: string, specularCoefficient: real, ambient: Color,
                       diffuse: Color, specular: Color, illumination: Illumination): (m: Material)
    ensures m.name == name && m.specularCoefficient == specularCoefficient && m.illumination == illumination
    ensures m.colorAmbient == ambient && m.colorDiffuse == diffuse && m.colorSpecular == specular
    ensures m.colorEmissive.None? && m.opticalDensity.None? && m.uvMap.None? && m.alpha == 1.0
  {
    Material(name, specularCoefficient, ambient, diffuse, specular, None, None, 1.0, illumination, None)
  }

  /** `color_material`: a plain coloured material with white ambient and grey specular light. */
  function ColorMaterial(name: string, color: Color): (m: Material)
    ensures m.name == name && m.colorDiffuse == color
    ensures m.colorAmbient == Color(1.0, 1.0, 1.0) && m.colorSpecular == Color(0.5, 0.5, 0.5)
    ensures m.specularCoefficient == 300.0 && m.illumination == AmbientDiffuseSpecular
    ensures m.colorEmissive.None? && m.opticalDensity.None? && m.uvMap.None? && m.alpha == 1.0
  {
    NewMaterial(name, 300.0, Color(1.0, 1.0, 1.0), color, Color(0.5, 0.5, 0.5), AmbientDiffuseSpecular)
  }

  /** The built-in material used when no library material matches. */
  const DefaultMaterial: Material :=
    Material("Default", 225.0, Color(1.0, 1.0, 1.0), Color(0.001174, 0.0, 0.8),
             Color(0.5, 0.5, 0.5), Some(Color(0.0, 0.0, 0.0)), Some(1.45), 1.0,
             AmbientDiffuseSpecular, None)

  /** A mesh with its material; `indices` refer to `vertices` by position. */
  datatype Geometry<V> = Geometry(vertices: seq<V>, indices: seq<nat>, material: Material)

  /** A loaded model: one geometry per geometry of the source object. */
  datatype Obj<V> = Obj(geometries: seq<Geometry<V>>)

  // ---------------------------------------------------------------------
  // The parsed object handed over by the OBJ parser.

  /** A `VTNIndex`: position index, optional texture index, optional normal index. */
  datatype Vtn = Vtn(v: nat, t: Option<nat>, n: Option<nat>)

  datatype Primitive = Point(p: Vtn) | Line(a: Vtn, b: Vtn) | Triangle(a: Vtn, b: Vtn, c: Vtn)

  datatype ParsedGeometry = ParsedGeometry(materialName: Option<string>, shapes: seq<Primitive>)

  /** Positions and normals stay abstract (`P`, `N`): only which one is picked matters. */
  datatype ParsedObject<P, N> =
    ParsedObject(name: string, vertices: seq<P>, normals: seq<N>, geometry: seq<ParsedGeometry>)

  /** A spatial vertex. */
  datatype Vertex<P, N> = Vertex(position: P, normal: N)

  const NonTriangleError: string := "unsupported non-triangle shape"
  const MissingNormalError: string := "missing normal for a vertex"

  // ---------------------------------------------------------------------
  // Material selection.

  /** Position of the last material of `mats` called `name`. */
  function LastNamed(mats: seq<Material>, name: string): (r: Option<nat>)
    ensures r.Some? ==> r.value < |mats| && mats[r.value].name == name
    ensures r.Some? ==> forall j :: r.value < j < |mats| ==> mats[j].name != name
    ensures r.None? ==> forall j :: 0 <= j < |mats| ==> mats[j].name != name
  {
    if |mats| == 0 then None
    else if mats[|mats| - 1].name == name then Some(|mats| - 1)
    else LastNamed(mats[..|mats| - 1], name)
  }

  /** The material a geometry gets: the last library material whose name is
      the geometry's material name, else the built-in default. */
  function MaterialFor(lib: Option<seq<Material>>, name: Option<string>): Material
  {
    if lib.None? || name.None? then DefaultMaterial
    else match LastNamed(lib.value, name.value)
      case Some(i) => lib.value[i]
      case None => DefaultMaterial
  }

  /** The scan the loader performs: every matching material overwrites the previous pick. */
  method SelectMaterial(lib: Option<seq<Material>>, name: Option<string>) returns (m: Material)
    ensures m == MaterialFor(lib, name)
    ensures lib.None? || name.None? ==> m == DefaultMaterial
    ensures lib.Some? && name.Some? && (forall j :: 0 <= j < |lib.value| ==> lib.value[j].name != name.value) ==>
              m == DefaultMaterial
    ensures lib.Some? && name.Some? && (exists j :: 0 <= j < |lib.value| && lib.value[j].name == name.value) ==>
              exists i :: 0 <= i < |lib.value| && lib.value[i] == m && m.name == name.value &&
                forall j :: i < j < |lib.value| ==> lib.value[j].name != name.value
  {
    if lib.None? || name.None? {
      return DefaultMaterial;
    }
    var mats := lib.value;
    var res: Option<Material> := None;
    var i := 0;
    while i < |mats|
      invariant 0 <= i <= |mats|
      invariant res == (match LastNamed(mats[..i], name.value)
                        case Some(k) => Some(mats[k])
                        case None => None)
    {
      assert mats[..i + 1][..i] == mats[..i];
      if mats[i].name == name.value {
        res := Some(mats[i]);
      }
      i := i + 1;
    }
    assert mats[..i] == mats;
    m := match res case Some(x) => x case None => DefaultMaterial;
  }

  // ---------------------------------------------------------------------
  // Reference definition of one geometry.

  /** The cache keys a primitive contributes, in visiting order. */
  function PrimitiveKeys(p: Primitive): seq<Vtn>
  {
    if p.Triangle? then [p.a, p.b, p.c] else []
  }

  /** All cache keys of a shape list, in visiting order. */
  function Keys(shapes: seq<Primitive>): seq<Vtn>
  {
    if |shapes| == 0 then []
    else Keys(shapes[..|shapes| - 1]) + PrimitiveKeys(shapes[|shapes| - 1])
  }

  /** The error a single primitive raises: only triangles are supported, and
      every corner must name a normal. */
  function PrimitiveError(p: Primitive): Option<string>
  {
    if !p.Triangle? then Some(NonTriangleError)
    else if p.a.n.None? || p.b.n.None? || p.c.n.None? then Some(MissingNormalError)
    else None
  }

  /** The error of the first failing primitive, if any. */
  function FirstError(shapes: seq<Primitive>): Option<string>
  {
    if |shapes| == 0 then None
    else match FirstError(shapes[..|shapes| - 1])
      case Some(e) => Some(e)
      case None => PrimitiveError(shapes[|shapes| - 1])
  }

  /** The distinct keys in order of first occurrence: the order in which the
      cache creates vertices. */
  function FirstSeen(keys: seq<Vtn>): seq<Vtn>
  {
    if |keys| == 0 then []
    else
      var o := FirstSeen(keys[..|keys| - 1]);
      if keys[|keys| - 1] in o then o else o + [keys[|keys| - 1]]
  }

  /** The first-seen order holds every key exactly once. */
  lemma {:induction false} FirstSeenDistinct(keys: seq<Vtn>)
    ensures Distinct(FirstSeen(keys))
    ensures forall k :: k in FirstSeen(keys) <==> k in keys
  {
    if |keys| > 0 {
      var prefix := keys[..|keys| - 1];
      FirstSeenDistinct(prefix);
      assert keys == prefix + [keys[|keys| - 1]];
    }
  }

  /** Position of the first occurrence of `x` in `xs`. */
  function IndexOf<T(==)>(xs: seq<T>, x: T): (i: nat)
    requires x in xs
    ensures i < |xs| && xs[i] == x && x !in xs[..i]
  {
    if xs[0] == x then 0
    else
      assert x in xs[1..];
      var i := 1 + IndexOf(xs[1..], x);
      assert xs[..i] == [xs[0]] + xs[1..][..i - 1];
      i
  }

  /** Every key of the shapes names an existing position and, when it names
      a normal, an existing normal (the parser only hands out such indices). */
  predicate WellIndexed<P, N>(obj: ParsedObject<P, N>, shapes: seq<Primitive>)
  {
    forall k :: k in Keys(shapes) ==>
      k.v < |obj.vertices| && (k.n.Some? ==> k.n.value < |obj.normals|)
  }

  /** The vertex built for a key. */
  function VertexFor<P, N>(obj: ParsedObject<P, N>, k: Vtn): Vertex<P, N>
    requires k.v < |obj.vertices| && k.n.Some? && k.n.value < |obj.normals|
  {
    Vertex(obj.vertices[k.v], obj.normals[k.n.value])
  }

  /** What loading one geometry yields: the first primitive error, or one
      vertex per distinct key (in first-seen order) and one index per key. */
  function ExpectedGeometry<P, N>(obj: ParsedObject<P, N>, g: ParsedGeometry, material: Material)
    : Result<Geometry<Vertex<P, N>>, string>
    requires WellIndexed(obj, g.shapes)
  {
    match FirstError(g.shapes)
    case Some(e) => Err(e)
    case None =>
      var keys := Keys(g.shapes);
      var order := FirstSeen(keys);
      NoErrorMeansNormals(g.shapes);
      FirstSeenDistinct(keys);
      Ok(Geometry(
        seq(|order|, i requires 0 <= i < |order| => VertexFor(obj, order[i])),
        seq(|keys|, j requires 0 <= j < |keys| => IndexOf(order, keys[j])),
        material))
  }

  lemma {:induction false} NoErrorMeansNormals(shapes: seq<Primitive>)
    requires FirstError(shapes).None?
    ensures forall k :: k in Keys(shapes) ==> k.n.Some?
    ensures |Keys(shapes)| == 3 * |shapes|
  {
    if |shapes| > 0 {
      NoErrorMeansNormals(shapes[..|shapes| - 1]);
    }
  }

  lemma {:induction false} FirstErrorExtends(shapes: seq<Primitive>, s: nat)
    requires s <= |shapes|
    requires FirstError(shapes[..s]).Some?
    ensures FirstError(shapes) == FirstError(shapes[..s])
    decreases |shapes| - s
  {
    if s < |shapes| {
      assert shapes[..s + 1][..s] == shapes[..s];
      FirstErrorExtends(shapes, s + 1);
    } else {
      assert shapes[..s] == shapes;
    }
  }

  lemma IndexOfUnique<T>(xs: seq<T>, x: T, i: nat)
    requires Distinct(xs)
    requires i < |xs| && xs[i] == x
    ensures IndexOf(xs, x) == i
  {
  }

  // ---------------------------------------------------------------------
  // The loader's loops.

  /** The state of the vertex cache after visiting `keys`: every visited
      key is cached at the slot of its first occurrence, the vertex there is
      built from that key, and each visit recorded that slot. */
  ghost predicate CacheState<P, N>(obj: ParsedObject<P, N>, keys: seq<Vtn>, order: seq<Vtn>,
                                   cache: map<Vtn, nat>, vertices: seq<Vertex<P, N>>, indices: seq<nat>)
  {
    && order == FirstSeen(keys)
    && (forall k :: k in cache <==> k in order)
    && (forall k :: k in cache ==> cache[k] < |order| && order[cache[k]] == k)
    && |vertices| == |order|
    && (forall i :: 0 <= i < |order| ==>
          order[i].v < |obj.vertices| && order[i].n.Some? && order[i].n.value < |obj.normals| &&
          vertices[i] == VertexFor(obj, order[i]))
    && |indices| == |keys|
    && (forall j :: 0 <= j < |keys| ==> indices[j] < |order| && order[indices[j]] == keys[j])
  }

  /** A corner whose key is cached reuses the cached slot. */
  lemma CacheHit<P, N>(obj: ParsedObject<P, N>, key: Vtn, cache: map<Vtn, nat>,
                       vertices: seq<Vertex<P, N>>, indices: seq<nat>, keys: seq<Vtn>, order: seq<Vtn>)
    requires CacheState(obj, keys, order, cache, vertices, indices)
    requires key in cache
    ensures CacheState(obj, keys + [key], order, cache, vertices, indices + [cache[key]])
  {
    var keys' := keys + [key];
    assert keys'[..|keys'| - 1] == keys;
    assert key in order;
  }

  /** A corner whose key is new gets the next slot, `|vertices|`, and a vertex
      built from the key is appended there. */
  lemma CacheMiss<P, N>(obj: ParsedObject<P, N>, key: Vtn, cache: map<Vtn, nat>,
                        vertices: seq<Vertex<P, N>>, indices: seq<nat>, keys: seq<Vtn>, order: seq<Vtn>)
    requires CacheState(obj, keys, order, cache, vertices, indices)
    requires key !in cache
    requires key.v < |obj.vertices| && key.n.Some? && key.n.value < |obj.normals|
    ensures CacheState(obj, keys + [key], order + [key], cache[key := |vertices|],
                       vertices + [VertexFor(obj, key)], indices + [|vertices|])
  {
    var keys' := keys + [key];
    assert keys'[..|keys'| - 1] == keys;
    assert key !in order;
  }

  /** After the last corner the cache state is exactly the reference geometry. */
  lemma CacheStateIsExpected<P, N>(obj: ParsedObject<P, N>, g: ParsedGeometry, material: Material,
                                   cache: map<Vtn, nat>, vertices: seq<Vertex<P, N>>,
                                   indices: seq<nat>, order: seq<Vtn>)
    requires WellIndexed(obj, g.shapes)
    requires FirstError(g.shapes).None?
    requires CacheState(obj, Keys(g.shapes), order, cache, vertices, indices)
    ensures ExpectedGeometry(obj, g, material) == Ok(Geometry(vertices, indices, material))
  {
    NoErrorMeansNormals(g.shapes);
    var keys := Keys(g.shapes);
    FirstSeenDistinct(keys);
    forall j | 0 <= j < |keys|
      ensures indices[j] == IndexOf(order, keys[j])
    {
      IndexOfUnique(order, keys[j], indices[j]);
    }
    var expected := ExpectedGeometry(obj, g, material);
    assert vertices == expected.value.vertices;
    assert indices == expected.value.indices;
  }

  /** One corner visit whose key is cached or names a normal. */
  method VisitKey<P, N>(obj: ParsedObject<P, N>, key: Vtn, cache: map<Vtn, nat>,
                        vertices: seq<Vertex<P, N>>, indices: seq<nat>,
                        ghost keys: seq<Vtn>, ghost order: seq<Vtn>)
    returns (cache': map<Vtn, nat>, vertices': seq<Vertex<P, N>>, indices': seq<nat>, ghost order': seq<Vtn>)
    requires key.v < |obj.vertices| && (key.n.Some? ==> key.n.value < |obj.normals|)
    requires key in cache || key.n.Some?
    requires CacheState(obj, keys, order, cache, vertices, indices)
    ensures CacheState(obj, keys + [key], order', cache', vertices', indices')
    ensures key in cache ==> vertices' == vertices && indices' == indices + [cache[key]]
    ensures key !in cache ==> vertices' == vertices + [VertexFor(obj, key)] && indices' == indices + [|vertices|]
  {
    if key in cache {
      CacheHit(obj, key, cache, vertices, indices, keys, order);
      cache', vertices', indices', order' := cache, vertices, indices + [cache[key]], order;
    } else {
      CacheMiss(obj, key, cache, vertices, indices, keys, order);
      var vi := |vertices|;
      cache' := cache[key := vi];
      vertices' := vertices + [VertexFor(obj, key)];
      indices' := indices + [vi];
      order' := order + [key];
    }
  }

  /** Visits one corner: reuse its cached slot, or fail when it is new and
      names no normal, or create its vertex. */
  method VisitCorner<P, N>(obj: ParsedObject<P, N>, key: Vtn, cache: map<Vtn, nat>,
                           vertices: seq<Vertex<P, N>>, indices: seq<nat>,
                           ghost keys: seq<Vtn>, ghost order: seq<Vtn>)
    returns (ok: bool, cache': map<Vtn, nat>, vertices': seq<Vertex<P, N>>,
             indices': seq<nat>, ghost order': seq<Vtn>)
    requires key.v < |obj.vertices| && (key.n.Some? ==> key.n.value < |obj.normals|)
    requires CacheState(obj, keys, order, cache, vertices, indices)
    ensures ok <==> key.n.Some?
    ensures ok ==> CacheState(obj, keys + [key], order', cache', vertices', indices')
  {
    if key !in cache && key.n.None? {
      return false, cache, vertices, indices, order;
    }
    assert key.n.Some? by {
      if key in cache {
        assert order[cache[key]] == key;
      }
    }
    ok := true;
    cache', vertices', indices', order' := VisitKey(obj, key, cache, vertices, indices, keys, order);
  }

  /** Visits the three corners of one triangle in order. */
  method VisitTriangle<P, N>(obj: ParsedObject<P, N>, shape: Primitive, cache: map<Vtn, nat>,
                             vertices: seq<Vertex<P, N>>, indices: seq<nat>,
                             ghost keys: seq<Vtn>, ghost order: seq<Vtn>)
    returns (err: Option<string>, cache': map<Vtn, nat>, vertices': seq<Vertex<P, N>>,
             indices': seq<nat>, ghost order': seq<Vtn>)
    requires shape.Triangle?
    requires forall k :: k in PrimitiveKeys(shape) ==>
               k.v < |obj.vertices| && (k.n.Some? ==> k.n.value < |obj.normals|)
    requires CacheState(obj, keys, order, cache, vertices, indices)
    ensures err == PrimitiveError(shape)
    ensures err.None? ==> CacheState(obj, keys + PrimitiveKeys(shape), order', cache', vertices', indices')
  {
    assert shape.a in PrimitiveKeys(shape) && shape.b in PrimitiveKeys(shape) && shape.c in PrimitiveKeys(shape);
    var ok;
    ok, cache', vertices', indices', order' := VisitCorner(obj, shape.a, cache, vertices, indices, keys, order);
    if !ok {
      return Some(MissingNormalError), cache', vertices', indices', order';
    }
    ok, cache', vertices', indices', order' := VisitCorner(obj, shape.b, cache', vertices', indices', keys + [shape.a], order');
    if !ok {
      return Some(MissingNormalError), cache', vertices', indices', order';
    }
    ok, cache', vertices', indices', order' := VisitCorner(obj, shape.c, cache', vertices', indices', keys + [shape.a] + [shape.b], order');
    if !ok {
      return Some(MissingNormalError), cache', vertices', indices', order';
    }
    AppendThree(keys, shape.a, shape.b, shape.c);
    assert PrimitiveKeys(shape) == [shape.a, shape.b, shape.c];
    err := None;
  }

  lemma AppendThree<T>(xs: seq<T>, a: T, b: T, c: T)
    ensures xs + [a] + [b] + [c] == xs + [a, b, c]
  {
  }

  /** Loads one geometry the way the loader does: a fresh cache, a walk over
      the shapes and their three corners, an early error return. */
  method LoadGeometry<P, N>(obj: ParsedObject<P, N>, g: ParsedGeometry, material: Material)
    returns (r: Result<Geometry<Vertex<P, N>>, string>)
    requires WellIndexed(obj, g.shapes)
    ensures r == ExpectedGeometry(obj, g, material)
  {
    var shapes := g.shapes;
    var cache: map<Vtn, nat> := map[];
    var vertices: seq<Vertex<P, N>> := [];
    var indices: seq<nat> := [];
    ghost var keys: seq<Vtn> := [];
    ghost var order: seq<Vtn> := [];
    var s := 0;
    while s < |shapes|
      invariant 0 <= s <= |shapes|
      invariant FirstError(shapes[..s]).None?
      invariant keys == Keys(shapes[..s])
      invariant CacheState(obj, keys, order, cache, vertices, indices)
    {
      assert shapes[..s + 1][..s] == shapes[..s];
      var shape := shapes[s];
      if !shape.Triangle? {
        FirstErrorExtends(shapes, s + 1);
        return Err(NonTriangleError);
      }
      KeysPrefix(shapes, s + 1);
      var err;
      err, cache, vertices, indices, order := VisitTriangle(obj, shape, cache, vertices, indices, keys, order);
      if err.Some? {
        FirstErrorExtends(shapes, s + 1);
        return Err(err.value);
      }
      keys := keys + PrimitiveKeys(shape);
      s := s + 1;
    }
    assert shapes[..s] == shapes;
    CacheStateIsExpected(obj, g, material, cache, vertices, indices, order);
    r := Ok(Geometry(vertices, indices, material));
  }

  lemma {:induction false} KeysPrefix(shapes: seq<Primitive>, s: nat)
    requires s <= |shapes|
    ensures forall k :: k in Keys(shapes[..s]) ==> k in Keys(shapes)
    decreases |shapes| - s
  {
    if s < |shapes| {
      assert shapes[..s + 1][..s] == shapes[..s];
      KeysPrefix(shapes, s + 1);
    } else {
      assert shapes[..s] == shapes;
    }
  }

  // ---------------------------------------------------------------------
  // What a loaded geometry guarantees.

  lemma {:induction false} DistinctCard<T>(xs: seq<T>)
    requires Distinct(xs)
    ensures |set x | x in xs| == |xs|
  {
    if |xs| > 0 {
      var prefix := xs[..|xs| - 1];
      DistinctCard(prefix);
      assert xs == prefix + [xs[|xs| - 1]];
      assert (set x | x in xs) == (set x | x in prefix) + {xs[|xs| - 1]};
    }
  }

  lemma {:induction false} FirstSeenPrefix(keys: seq<Vtn>, j: nat)
    requires j <= |keys|
    ensures FirstSeen(keys[..j]) <= FirstSeen(keys)
    decreases |keys| - j
  {
    if j < |keys| {
      FirstSeenPrefix(keys, j + 1);
      assert keys[..j + 1][..j] == keys[..j];
    } else {
      assert keys[..j] == keys;
    }
  }

  /** A successful load holds one vertex per distinct key and three indices
      per triangle; every index is in range and selects the vertex built from
      its own key (position `v`, normal `n`), so two corners share a vertex
      exactly when their keys are equal. */
  lemma GeometryShape<P, N>(obj: ParsedObject<P, N>, g: ParsedGeometry, material: Material)
    requires WellIndexed(obj, g.shapes)
    requires ExpectedGeometry(obj, g, material).Ok?
    ensures var geo, keys := ExpectedGeometry(obj, g, material).value, Keys(g.shapes);
      && |keys| == 3 * |g.shapes|
      && |geo.indices| == |keys|
      && |geo.vertices| == |set k | k in keys|
      && geo.material == material
      && (forall j :: 0 <= j < |keys| ==>
            && geo.indices[j] < |geo.vertices|
            && keys[j].n.Some?
            && geo.vertices[geo.indices[j]] == Vertex(obj.vertices[keys[j].v], obj.normals[keys[j].n.value]))
      && (forall j, j' :: 0 <= j < |keys| && 0 <= j' < |keys| ==>
            (geo.indices[j] == geo.indices[j'] <==> keys[j] == keys[j']))
  {
    var keys := Keys(g.shapes);
    var order := FirstSeen(keys);
    NoErrorMeansNormals(g.shapes);
    FirstSeenDistinct(keys);
    DistinctCard(order);
    assert (set k | k in keys) == (set k | k in order);
  }

  /** The cache at work: a corner whose key appeared earlier gets the index of
      that earlier corner, and a corner with a new key gets the next free slot,
      the number of distinct keys before it. */
  lemma CacheReuse<P, N>(obj: ParsedObject<P, N>, g: ParsedGeometry, material: Material, j: nat)
    requires WellIndexed(obj, g.shapes)
    requires ExpectedGeometry(obj, g, material).Ok?
    requires j < |Keys(g.shapes)|
    ensures var geo, keys := ExpectedGeometry(obj, g, material).value, Keys(g.shapes);
      && (forall i :: 0 <= i < j && keys[i] == keys[j] ==> geo.indices[i] == geo.indices[j])
      && (keys[j] !in keys[..j] ==> geo.indices[j] == |set k | k in keys[..j]|)
  {
    var keys := Keys(g.shapes);
    var order := FirstSeen(keys);
    var geo := ExpectedGeometry(obj, g, material).value;
    if keys[j] !in keys[..j] {
      var before := FirstSeen(keys[..j]);
      FirstSeenDistinct(keys[..j]);
      FirstSeenDistinct(keys);
      DistinctCard(before);
      assert (set k | k in keys[..j]) == (set k | k in before);
      assert keys[..j + 1][..j] == keys[..j];
      assert FirstSeen(keys[..j + 1]) == before + [keys[j]];
      FirstSeenPrefix(keys, j + 1);
      assert order[|before|] == keys[j];
      IndexOfUnique(order, keys[j], |before|);
    }
  }

  /** Loading fails exactly when a primitive fails, with that primitive's error. */
  lemma GeometryErrors<P, N>(obj: ParsedObject<P, N>, g: ParsedGeometry, material: Material)
    requires WellIndexed(obj, g.shapes)
    ensures ExpectedGeometry(obj, g, material).Err? <==>
              exists s :: 0 <= s < |g.shapes| && PrimitiveError(g.shapes[s]).Some?
    ensures ExpectedGeometry(obj, g, material).Err? ==>
              ExpectedGeometry(obj, g, material).error in {NonTriangleError, MissingNormalError}
  {
    FirstErrorIffSomeError(g.shapes);
  }

  lemma {:induction false} FirstErrorIffSomeError(shapes: seq<Primitive>)
    ensures FirstError(shapes).Some? <==> exists s :: 0 <= s < |shapes| && PrimitiveError(shapes[s]).Some?
    ensures FirstError(shapes).Some? ==> FirstError(shapes).value in {NonTriangleError, MissingNormalError}
  {
    if |shapes| > 0 {
      var prefix := shapes[..|shapes| - 1];
      FirstErrorIffSomeError(prefix);
      if FirstError(prefix).Some? {
        var s :| 0 <= s < |prefix| && PrimitiveError(prefix[s]).Some?;
        assert shapes[s] == prefix[s];
      }
      if exists s :: 0 <= s < |shapes| && PrimitiveError(shapes[s]).Some? {
        var s :| 0 <= s < |shapes| && PrimitiveError(shapes[s]).Some?;
        if s < |prefix| {
          assert prefix[s] == shapes[s];
        }
      }
    }
  }

  // ---------------------------------------------------------------------
  // The whole object.

  predicate AllWellIndexed<P, N>(obj: ParsedObject<P, N>)
  {
    forall i :: 0 <= i < |obj.geometry| ==> WellIndexed(obj, obj.geometry[i].shapes)
  }

  /** Loading the geometries in order, stopping at the first error. */
  function ExpectedGeometries<P, N>(obj: ParsedObject<P, N>, n: nat, lib: Option<seq<Material>>)
    : Result<seq<Geometry<Vertex<P, N>>>, string>
    requires n <= |obj.geometry|
    requires AllWellIndexed(obj)
  {
    if n == 0 then Ok([])
    else match ExpectedGeometries(obj, n - 1, lib)
      case Err(e) => Err(e)
      case Ok(done) =>
        var g := obj.geometry[n - 1];
        match ExpectedGeometry(obj, g, MaterialFor(lib, g.materialName))
        case Err(e) => Err(e)
        case Ok(geo) => Ok(done + [geo])
  }

  /** `Obj::load` after parsing: every geometry gets its material and its
      de-duplicated vertices; the first failing geometry aborts the load. */
  method Load<P, N>(obj: ParsedObject<P, N>, lib: Option<seq<Material>>)
    returns (r: Result<Obj<Vertex<P, N>>, string>)
    requires AllWellIndexed(obj)
    ensures r.Ok? <==> ExpectedGeometries(obj, |obj.geometry|, lib).Ok?
    ensures r.Ok? ==> r.value.geometries == ExpectedGeometries(obj, |obj.geometry|, lib).value
    ensures r.Err? ==> r.error == ExpectedGeometries(obj, |obj.geometry|, lib).error
  {
    var geos: seq<Geometry<Vertex<P, N>>> := [];
    var i := 0;
    while i < |obj.geometry|
      invariant 0 <= i <= |obj.geometry|
      invariant ExpectedGeometries(obj, i, lib) == Ok(geos)
    {
      var g := obj.geometry[i];
      var material := SelectMaterial(lib, g.materialName);
      var loaded := LoadGeometry(obj, g, material);
      if loaded.Err? {
        ErrorsPersist(obj, i + 1, lib);
        return Err(loaded.error);
      }
      geos := geos + [loaded.value];
      i := i + 1;
    }
    r := Ok(Obj(geos));
  }

  lemma {:induction false} ErrorsPersist<P, N>(obj: ParsedObject<P, N>, n: nat, lib: Option<seq<Material>>)
    requires n <= |obj.geometry|
    requires AllWellIndexed(obj)
    requires ExpectedGeometries(obj, n, lib).Err?
    ensures ExpectedGeometries(obj, |obj.geometry|, lib) == ExpectedGeometries(obj, n, lib)
    decreases |obj.geometry| - n
  {
    if n < |obj.geometry| {
      ErrorsPersist(obj, n + 1, lib);
    }
  }

  /** A successful load yields one geometry per source geometry, in order,
      each with the material chosen for that geometry's material name. */
  lemma {:induction false} OneGeometryEach<P, N>(obj: ParsedObject<P, N>, n: nat, lib: Option<seq<Material>>)
    requires n <= |obj.geometry|
    requires AllWellIndexed(obj)
    requires ExpectedGeometries(obj, n, lib).Ok?
    ensures |ExpectedGeometries(obj, n, lib).value| == n
    ensures forall i :: 0 <= i < n ==>
              var g := obj.geometry[i];
              var loaded := ExpectedGeometry(obj, g, MaterialFor(lib, g.materialName));
              loaded.Ok? && ExpectedGeometries(obj, n, lib).value[i] == loaded.value
  {
    if n > 0 {
      OneGeometryEach(obj, n - 1, lib);
    }
  }
}
