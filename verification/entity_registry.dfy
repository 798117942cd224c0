/** `EntityRegistry<E>`: entities by name, the last registration under a
    name winning. The hash map behind it is a Dafny map; the order in which
    it hands out its values is not chosen by the caller. */
module EntityRegistry {
  import opened Common

  datatype Registry<E> = Registry(entities: map<string, E>)

  /** `get`: the entity registered under `name`, if any. */
  function Get<E>(reg: Registry<E>, name: string): (r: Option<E>)
    ensures r.Some? <==> name in reg.entities
    ensures r.Some? ==> r.value == reg.entities[name]
  {
    if name in reg.entities then Some(reg.entities[name]) else None
  }

  /** `new`: nothing is registered. */
  function New<E>(): (r: Registry<E>)
    ensures forall name :: Get(r, name) == None
    ensures |r.entities| == 0
  {
    Registry(map[])
  }

  /** `register`: afterwards `name` answers with `e`, whatever it held
      before, and every other name answers as before. */
  function Register<E>(reg: Registry<E>, name: string, e: E): (r: Registry<E>)
    ensures Get(r, name) == Some(e)
    ensures forall other :: other != name ==> Get(r, other) == Get(reg, other)
    ensures r.entities.Keys == reg.entities.Keys + {name}
  {
    Registry(reg.entities[name := e])
  }

  /** A mutable borrow handed out by `get_mut`: the name it points at and the
      entity it currently sees. */
  datatype Slot<E> = Slot(name: string, current: E)

  /** `get_mut`: a handle on the same entry `get` reads. */
  function GetMut<E>(reg: Registry<E>, name: string): (r: Option<Slot<E>>)
    ensures r.Some? <==> Get(reg, name).Some?
    ensures r.Some? ==> r.value.name == name && r.value.current == Get(reg, name).value
  {
    if name in reg.entities then Some(Slot(name, reg.entities[name])) else None
  }

  /** Writing `e` through a handle from `get_mut`. */
  function WriteThrough<E>(reg: Registry<E>, slot: Slot<E>, e: E): (r: Registry<E>)
    requires slot.name in reg.entities
    ensures Get(r, slot.name) == Some(e)
    ensures forall other :: other != slot.name ==> Get(r, other) == Get(reg, other)
    ensures r.entities.Keys == reg.entities.Keys
  {
    Registry(reg.entities[slot.name := e])
  }

  /** Registering twice under one name keeps only the second entity; writing
      back what `get_mut` returned changes nothing. */
  lemma LastWriteWins<E>(reg: Registry<E>, name: string, e1: E, e2: E)
    ensures Register(Register(reg, name, e1), name, e2) == Register(reg, name, e2)
    ensures GetMut(reg, name).Some? ==> WriteThrough(reg, GetMut(reg, name).value, GetMut(reg, name).value.current) == reg
  {
  }

  /** A registry is determined by what `get` answers. */
  lemma {:induction false} GetDetermines<E>(a: Registry<E>, b: Registry<E>)
    requires forall name :: Get(a, name) == Get(b, name)
    ensures a == b
  {
    assert a.entities.Keys == b.entities.Keys by {
      forall name | name in a.entities ensures name in b.entities {
        assert Get(a, name).Some?;
      }
      forall name | name in b.entities ensures name in a.entities {
        assert Get(b, name).Some?;
      }
    }
    forall name | name in a.entities ensures a.entities[name] == b.entities[name] {
      assert Get(a, name).Some?;
    }
  }

  /** `values`: one entity per registered name, in the map's own order;
      `names[i]` is the name `values[i]` is registered under. */
  method Values<E>(reg: Registry<E>) returns (names: seq<string>, values: seq<E>)
    ensures Distinct(names)
    ensures forall name :: name in names <==> name in reg.entities
    ensures |values| == |names| == |reg.entities|
    ensures forall i :: 0 <= i < |values| ==> Get(reg, names[i]) == Some(values[i])
  {
    names := Enumerate(reg.entities.Keys);
    values := [];
    var i := 0;
    while i < |names|
      invariant 0 <= i <= |names|
      invariant |values| == i
      invariant forall k :: 0 <= k < i ==> Get(reg, names[k]) == Some(values[k])
    {
      values := values + [reg.entities[names[i]]];
      i := i + 1;
    }
  }
}
