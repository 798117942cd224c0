/** One HUD frame: the registry's entities ordered by depth, deepest first,
    with a stable sort, then drawn after the depth-preview entity. Drawing is
    modelled as the sequence of commands the frame issues to the GPU: the
    `depth_tex` uniform updates and the draws. Depths are compared as a total
    order. */
module HudRenderer {
  import opened Common
  import opened EntityRegistry
  import opened HudEntity

  /** What a frame sends to the GPU, in order. */
  datatype Command =
    | SetDepthTex(on: bool)   // the `depth_tex` uniform
    | DrawPreview             // the depth-preview entity
    | Draw(entity: Entity)    // one registry entity

  /** `0, 1, ..., n - 1`. */
  function Range(n: nat): (r: seq<nat>)
    ensures |r| == n
    ensures forall k :: 0 <= k < n ==> r[k] == k
  {
    seq(n, k => k)
  }

  /** Entity `i` goes before entity `j`: it is deeper, or as deep and earlier
      in the order the registry handed them out. */
  predicate Before(depths: seq<real>, i: nat, j: nat)
    requires i < |depths| && j < |depths|
  {
    depths[i] > depths[j] || (depths[i] == depths[j] && i < j)
  }

  /** `order` lists positions of `depths` in stable descending order. */
  predicate SortedStable(depths: seq<real>, order: seq<nat>)
  {
    && (forall k :: 0 <= k < |order| ==> order[k] < |depths|)
    && (forall a, b :: 0 <= a < b < |order| ==> Before(depths, order[a], order[b]))
  }

  /** The entities of `values` in the order `order` lists them. */
  function Pick<T>(values: seq<T>, order: seq<nat>): (r: seq<T>)
    requires forall k :: 0 <= k < |order| ==> order[k] < |values|
    ensures |r| == |order|
    ensures forall k :: 0 <= k < |order| ==> r[k] == values[order[k]]
  {
    seq(|order|, k requires 0 <= k < |order| => values[order[k]])
  }

  lemma PickInsert<T>(values: seq<T>, order: seq<nat>, p: nat, i: nat)
    requires p <= |order| && i < |values|
    requires forall k :: 0 <= k < |order| ==> order[k] < |values|
    ensures Pick(values, order[..p] + [i] + order[p..]) == Pick(values, order)[..p] + [values[i]] + Pick(values, order)[p..]
  {
  }

  /** Inserting `i`, which comes after every position already placed, right
      behind the last entry at least as deep keeps the order stable and
      descending. */
  lemma {:induction false} InsertKeepsOrder(depths: seq<real>, order: seq<nat>, i: nat, p: nat)
    requires i < |depths| && p <= |order|
    requires SortedStable(depths, order)
    requires forall k :: 0 <= k < |order| ==> order[k] < i
    requires forall q :: 0 <= q < p ==> depths[order[q]] >= depths[i]
    requires p == |order| || depths[order[p]] < depths[i]
    ensures SortedStable(depths, order[..p] + [i] + order[p..])
  {
    var r := order[..p] + [i] + order[p..];
    forall a, b | 0 <= a < b < |r| ensures r[a] < |depths| && r[b] < |depths| && Before(depths, r[a], r[b]) {
      if b < p {
        assert r[a] == order[a] && r[b] == order[b];
      } else if b == p {
        assert r[a] == order[a] && r[b] == i;
      } else if a == p {
        assert r[b] == order[b - 1];
        assert depths[order[b - 1]] <= depths[order[p]] by {
          if b - 1 > p {
            assert Before(depths, order[p], order[b - 1]);
          }
        }
      } else if a < p {
        assert r[a] == order[a] && r[b] == order[b - 1];
      } else {
        assert r[a] == order[a - 1] && r[b] == order[b - 1];
      }
    }
  }

  /** One step of the insertion sort: place position `i`. */
  method Insert(depths: seq<real>, order: seq<nat>, i: nat) returns (r: seq<nat>, p: nat)
    requires i < |depths|
    requires SortedStable(depths, order)
    requires forall k :: 0 <= k < |order| ==> order[k] < i
    ensures p <= |order| && r == order[..p] + [i] + order[p..]
    ensures SortedStable(depths, r)
  {
    p := 0;
    while p < |order| && depths[order[p]] >= depths[i]
      invariant 0 <= p <= |order|
      invariant forall q :: 0 <= q < p ==> depths[order[q]] >= depths[i]
    {
      p := p + 1;
    }
    InsertKeepsOrder(depths, order, i, p);
    r := order[..p] + [i] + order[p..];
  }

  /** The depth of every value, in order. */
  function Depths(values: seq<Entity>): (r: seq<real>)
    ensures |r| == |values|
    ensures forall k :: 0 <= k < |values| ==> r[k] == GetDepth(values[k])
  {
    seq(|values|, k requires 0 <= k < |values| => GetDepth(values[k]))
  }

  /** Placing position `i` adds exactly `i` to the positions placed. */
  lemma InsertStepPositions(before: seq<nat>, order: seq<nat>, p: nat, i: nat)
    requires p <= |before| && order == before[..p] + [i] + before[p..]
    requires forall k :: 0 <= k < |before| ==> before[k] < i
    requires multiset(before) == multiset(Range(i))
    ensures forall k :: 0 <= k < |order| ==> order[k] < i + 1
    ensures multiset(order) == multiset(Range(i + 1))
  {
    assert before == before[..p] + before[p..];
    assert Range(i + 1) == Range(i) + [i];
  }

  /** Placing position `i` adds exactly `values[i]` to the entities placed. */
  lemma InsertStepValues<T>(values: seq<T>, before: seq<nat>, p: nat, i: nat)
    requires i < |values| && p <= |before|
    requires forall k :: 0 <= k < |before| ==> before[k] < i
    requires multiset(Pick(values, before)) == multiset(values[..i])
    ensures multiset(Pick(values, before[..p] + [i] + before[p..])) == multiset(values[..i + 1])
  {
    PickInsert(values, before, p, i);
    var picked := Pick(values, before);
    assert picked == picked[..p] + picked[p..];
    assert values[..i + 1] == values[..i] + [values[i]];
  }

  /** `sort_by` with the reversed depth comparison: a stable sort, deepest
      first. `order[k]` is the position in `values` of the k-th entity drawn;
      every position occurs exactly once. */
  method SortByDepth(values: seq<Entity>) returns (order: seq<nat>, ordered: seq<Entity>)
    ensures multiset(order) == multiset(Range(|values|))
    ensures SortedStable(Depths(values), order)
    ensures ordered == Pick(values, order)
    ensures multiset(ordered) == multiset(values)
  {
    var depths := Depths(values);
    order := [];
    var i := 0;
    while i < |values|
      invariant 0 <= i <= |values|
      invariant multiset(order) == multiset(Range(i))
      invariant forall k :: 0 <= k < |order| ==> order[k] < i
      invariant SortedStable(depths, order)
      invariant multiset(Pick(values, order)) == multiset(values[..i])
    {
      var p;
      ghost var before := order;
      order, p := Insert(depths, order, i);
      InsertStepPositions(before, order, p, i);
      InsertStepValues(values, before, p, i);
      i := i + 1;
    }
    assert values[..|values|] == values;
    ordered := Pick(values, order);
  }

  /** The commands for the entities after the preview: each draw preceded by
      turning `depth_tex` off. */
  function EntityDraws(ordered: seq<Entity>): (r: seq<Command>)
    ensures |r| == 2 * |ordered|
    ensures forall k :: 0 <= k < |ordered| ==> r[2 * k] == SetDepthTex(false) && r[2 * k + 1] == Draw(ordered[k])
  {
    if ordered == [] then []
    else EntityDraws(ordered[..|ordered| - 1]) + [SetDepthTex(false), Draw(ordered[|ordered| - 1])]
  }

  /** The whole frame: `depth_tex` on, the preview, then the entities. */
  function Frame(ordered: seq<Entity>): seq<Command>
  {
    [SetDepthTex(true), DrawPreview] + EntityDraws(ordered)
  }

  /** The preview is the first draw and happens once, with `depth_tex` on;
      the k-th entity draw is the k-th entity of the order, with `depth_tex`
      off. */
  lemma {:induction false} FrameShape(ordered: seq<Entity>)
    ensures |Frame(ordered)| == 2 + 2 * |ordered|
    ensures Frame(ordered)[0] == SetDepthTex(true) && Frame(ordered)[1] == DrawPreview
    ensures forall i :: 0 <= i < |Frame(ordered)| && Frame(ordered)[i] == DrawPreview ==> i == 1
    ensures forall k :: 0 <= k < |ordered| ==>
              Frame(ordered)[2 * k + 2] == SetDepthTex(false) && Frame(ordered)[2 * k + 3] == Draw(ordered[k])
    ensures forall i :: 0 <= i < |Frame(ordered)| && Frame(ordered)[i].Draw? ==>
              i >= 3 && Frame(ordered)[i - 1] == SetDepthTex(false)
  {
    var f := Frame(ordered);
    var rest := EntityDraws(ordered);
    forall i | 2 <= i < |f| ensures f[i] != DrawPreview && (f[i].Draw? ==> i >= 3 && f[i - 1] == SetDepthTex(false)) {
      var k := (i - 2) / 2;
      assert f[i] == rest[i - 2];
      if (i - 2) % 2 == 0 {
        assert i - 2 == 2 * k;
      } else {
        assert i - 2 == 2 * k + 1;
        assert f[i - 1] == rest[2 * k];
      }
    }
  }

  /** `render`: the registry's values as its map hands them out, the stable
      deepest-first order of them, and the frame drawn in that order. */
  method Render(reg: Registry<Entity>) returns (names: seq<string>, values: seq<Entity>, order: seq<nat>, commands: seq<Command>)
    ensures |values| == |names| == |reg.entities|
    ensures forall name :: name in names <==> name in reg.entities
    ensures forall i :: 0 <= i < |values| ==> Get(reg, names[i]) == Some(values[i])
    ensures multiset(order) == multiset(Range(|values|))
    ensures SortedStable(Depths(values), order)
    ensures commands == Frame(Pick(values, order))
    ensures |commands| == 2 + 2 * |values|
  {
    names, values := Values(reg);
    var ordered;
    order, ordered := SortByDepth(values);
    commands := Frame(ordered);
    FrameShape(ordered);
    assert |order| == |multiset(order)| == |multiset(Range(|values|))| == |values|;
  }
}
