/** The component manager: one store per component type id, mapping entity to value,
    and a membership index from component type id to the entities holding that type. */
module Components {
  import opened Entities
  import opened SetIndex

  /** What a `ComponentStore<T>` knows of its `T`: the static `T::id` and the C++ type
      itself (by name). Every component type shares the value type `V`. */
  datatype ComponentType<V> = ComponentType(id: Component, name: string)

  /** The contents of one store together with the type it was instantiated with. */
  datatype StoreState<V> = StoreState(kind: ComponentType<V>, contents: map<Entity, V>)

  /** `unordered_map::insert`: adds `e` with value `t` only when `e` has no value yet;
      an existing value is kept. Every other entry is unchanged. */
  function InsertFirst<V>(m: map<Entity, V>, e: Entity, t: V): (r: map<Entity, V>)
  {
    if e in m then m else m[e := t]
  }

  /** After `insert`, `e` has the value it had before or, if it had none, `t`; every
      other entry is unchanged and no key but `e` is added. */
  lemma InsertFirstEffects<V>(m: map<Entity, V>, e: Entity, t: V)
    ensures var r := InsertFirst(m, e, t);
      && r.Keys == m.Keys + {e} && r[e] == (if e in m then m[e] else t)
      && forall x :: x in m && x != e ==> r[x] == m[x]
  {
  }

  /** The membership index after `e` is erased from every set in it. */
  function EraseEverywhere(index: map<Component, set<Entity>>, e: Entity): (r: map<Component, set<Entity>>)
    ensures r.Keys == index.Keys
    ensures forall id :: id in r ==> e !in r[id]
    ensures forall id, x :: id in r && x != e ==> (x in r[id] <==> x in index[id])
  {
    map id | id in index :: index[id] - {e}
  }

  /** Every store after `e` is erased from it. */
  function EraseStores<V>(stores: map<Component, StoreState<V>>, e: Entity): (r: map<Component, StoreState<V>>)
    ensures r.Keys == stores.Keys
    ensures forall id :: id in r ==> r[id].kind == stores[id].kind
    ensures forall id :: id in r ==> r[id].contents.Keys == stores[id].contents.Keys - {e}
    ensures forall id, x :: id in r && x in r[id].contents ==> r[id].contents[x] == stores[id].contents[x]
  {
    map id | id in stores :: stores[id].(contents := stores[id].contents - {e})
  }

  /** A repeated insertion with another value keeps the first value. */
  lemma InsertFirstKeepsFirst<V>(m: map<Entity, V>, e: Entity, t1: V, t2: V)
    ensures InsertFirst(InsertFirst(m, e, t1), e, t2) == InsertFirst(m, e, t1)
    ensures InsertFirst(InsertFirst(m, e, t1), e, t2)[e] == if e in m then m[e] else t1
  {
  }

  /** `ComponentStore<T>`: the values of one component type, keyed by entity. */
  class ComponentStore<V> {
    const id: Component
    const kind: ComponentType<V>
    var components: map<Entity, V>

    constructor (kind: ComponentType<V>)
      ensures this.kind == kind && id == kind.id && components == map[]
    {
      this.kind := kind;
      id := kind.id;
      components := map[];
    }

    /** Stores `t` for `e` unless `e` already has a value. */
    method AddEntity(e: Entity, t: V)
      modifies this`components
      ensures components == InsertFirst(old(components), e, t)
    {
      components := InsertFirst(components, e, t);
    }

    /** Deletes key `e` only; a no-op when `e` is absent. */
    method RemoveEntity(e: Entity)
      modifies this`components
      ensures components == old(components) - {e}
    {
      components := components - {e};
    }

    /** `&components[e]`: the value of `e`. A missing key is first inserted with the
        default-constructed value `d`, so this read grows the key set. `d` is what `T()`
        yields on this call; it may differ between calls, since some component
        constructors draw their fields from `rand()`. */
    method GetComponent(e: Entity, d: V) returns (v: V)
      modifies this`components
      ensures e in old(components) ==> components == old(components) && v == old(components)[e]
      ensures e !in old(components) ==> components == old(components)[e := d] && v == d
      ensures components.Keys == old(components).Keys + {e}
    {
      if e !in components {
        components := components[e := d];
      }
      v := components[e];
    }
  }

  class ComponentManager<V> {
    /** Membership index: component type id to the entities that hold it. */
    var components: map<Component, set<Entity>>
    /** One store per registered component type id. */
    var stores: map<Component, ComponentStore<V>>

    /** Every store sits under its own type id; so distinct ids hold distinct stores,
        as the owning `unique_ptr`s guarantee. */
    ghost predicate Valid()
      reads this`stores
    {
      forall id :: id in stores ==> stores[id].id == id && stores[id].kind.id == id
    }

    /** The contents of every store. */
    ghost function StoreStates(): (r: map<Component, StoreState<V>>)
      reads this`stores, stores.Values`components
    {
      map id | id in stores :: StoreState(stores[id].kind, stores[id].components)
    }

    /** When no store but the one under `id` changed, `StoreStates()` changed only there. */
    twostate lemma OnlyStoreChanged(id: Component)
      requires stores == old(stores) && id in stores
      requires forall k :: k in stores && k != id ==> stores[k].components == old(stores[k].components)
      ensures StoreStates() == old(StoreStates())[id := StoreState(stores[id].kind, stores[id].components)]
    {
    }

    /** When `ty.id` got a new empty store and every other store kept its contents, the
        store contents changed only there. */
    twostate lemma StoreInstalled(ty: ComponentType<V>)
      requires ty.id in stores && stores == old(stores)[ty.id := stores[ty.id]]
      requires stores[ty.id].kind == ty && stores[ty.id].components == map[]
      requires forall k :: k in old(stores) && k != ty.id ==> stores[k].components == old(stores[k].components)
      ensures StoreStates() == old(StoreStates())[ty.id := StoreState(ty, map[])]
    {
    }

    /** When every store lost key `e`, the store contents are `EraseStores` of the old ones. */
    twostate lemma StoresErased(e: Entity)
      requires stores == old(stores)
      requires forall k :: k in stores ==> stores[k].components == old(stores[k].components) - {e}
      ensures StoreStates() == EraseStores(old(StoreStates()), e)
    {
    }

    /** While neither the store map nor any store changed, neither did `StoreStates()`. */
    twostate lemma StoresUnchanged()
      requires stores == old(stores)
      requires forall k :: k in stores ==> stores[k].components == old(stores[k].components)
      ensures StoreStates() == old(StoreStates())
    {
    }

    constructor ()
      ensures Valid() && components == map[] && stores == map[]
    {
      components := map[];
      stores := map[];
    }

    /** `addComponent<T>()`: installs a fresh, empty store for `T::id`, replacing any
        store already there; the other stores and the membership index are untouched. */
    method AddComponent(ty: ComponentType<V>)
      requires Valid()
      modifies this`stores
      ensures Valid()
      ensures ty.id in stores && fresh(stores[ty.id])
      ensures stores[ty.id].kind == ty && stores[ty.id].components == map[]
      ensures stores == old(stores)[ty.id := stores[ty.id]]
    {
      var s := new ComponentStore(ty);
      stores := stores[ty.id := s];
    }

    /** Erases `e` from every membership set and from every store. */
    method RemoveEntity(e: Entity)
      requires Valid()
      modifies this`components, stores.Values`components
      ensures Valid() && stores == old(stores)
      ensures components == EraseEverywhere(old(components), e)
      ensures forall id :: id in stores ==> stores[id].components == old(stores[id].components) - {e}
    {
      var ids := components.Keys;
      while ids != {}
        modifies this`components
        invariant ids <= components.Keys == old(components).Keys
        invariant forall id :: id in components ==>
          components[id] == if id in ids then old(components)[id] else old(components)[id] - {e}
        decreases ids
      {
        var id :| id in ids;
        components := components[id := components[id] - {e}];
        ids := ids - {id};
      }
      assert components == EraseEverywhere(old(components), e);
      ids := stores.Keys;
      while ids != {}
        invariant ids <= stores.Keys
        invariant stores == old(stores)
        invariant components == EraseEverywhere(old(components), e)
        invariant forall id :: id in stores ==>
          stores[id].components == if id in ids then old(stores[id].components) else old(stores[id].components) - {e}
        decreases ids
      {
        var id :| id in ids;
        stores[id].RemoveEntity(e);
        ids := ids - {id};
      }
    }

    /** `getStore<T>()`: the store under `T::id`, which must exist (otherwise a null
        pointer is dereferenced) and must have been created for `T` (otherwise the
        `dynamic_cast` throws). */
    method GetStore(ty: ComponentType<V>) returns (s: ComponentStore<V>)
      requires ty.id in stores && stores[ty.id].kind == ty
      ensures s == stores[ty.id] && s.kind == ty
    {
      s := stores[ty.id];
    }
  }
}
