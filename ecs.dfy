/** The manager that ties the entity, component and system managers together, and a
    value-level picture of all three (a `World`) in which the cross-manager
    invariants are stated and proved. */
module Ecs {
  import opened Entities
  import opened SetIndex
  import opened Components
  import opened Systems

  /** Everything the three managers hold, as values. */
  datatype World<V> = World(
    next: Entity,                                  // em.next
    allEntities: set<Entity>,                      // em.allEntities
    entities: map<Entity, set<Component>>,         // em.entities
    components: map<Component, set<Entity>>,       // cm.components
    stores: map<Component, StoreState<V>>,         // cm.stores
    systems: seq<SystemState>)                     // sm.systems

  /** A freshly constructed manager. */
  function Empty<V>(): World<V>
  {
    World(1, {}, map[], map[], map[], [])
  }

  // ---------------------------------------------------------------------------
  // The operations, on values

  /** What `getStore<T>()` needs: a store registered under `T::id`, created for `T`. */
  ghost predicate HasStore<V>(w: World<V>, ty: ComponentType<V>)
  {
    ty.id in w.stores && w.stores[ty.id].kind == ty
  }

  /** What `addEntityComponent<T>(e, t)` needs: a valid entity (asserted), and the
      store `getStore` returns. */
  ghost predicate CanAttach<V>(w: World<V>, ty: ComponentType<V>, e: Entity)
  {
    e != InvalidEntity && HasStore(w, ty)
  }

  /** `addEntityComponent<T>(e, t)`: mark `e` live, record `T::id` in both indexes,
      insert `t` into the store (keeping an earlier value), then let every system
      whose requirement `e`'s accumulated component set now meets cache `e`. */
  function Attach<V>(w: World<V>, ty: ComponentType<V>, e: Entity, t: V): World<V>
    requires CanAttach(w, ty, e)
  {
    var entities := Insert(w.entities, e, ty.id);
    var store := w.stores[ty.id];
    w.(allEntities := w.allEntities + {e},
       entities := entities,
       components := Insert(w.components, ty.id, e),
       stores := w.stores[ty.id := store.(contents := InsertFirst(store.contents, e, t))],
       systems := UpdateAll(w.systems, e, entities[e]))
  }

  /** Destroying `e` as the collision system does it: `em.removeEntity(e)`, then
      `cm.removeEntity(e)`, then `sm.removeEntity(e)`. Nobody else's entries change. */
  function Destroy<V>(w: World<V>, e: Entity): World<V>
    requires e != InvalidEntity
  {
    w.(allEntities := w.allEntities - {e},
       entities := w.entities - {e},
       components := EraseEverywhere(w.components, e),
       stores := EraseStores(w.stores, e),
       systems := RemoveAll(w.systems, e))
  }

  /** After `addEntityComponent<T>(e, t)`: `e` is live, both indexes record it with
      `T::id`, the store holds the first value ever given for `e`, and every system
      whose requirement `e`'s accumulated component set meets caches `e`. */
  lemma AttachEffects<V>(w: World<V>, ty: ComponentType<V>, e: Entity, t: V)
    requires CanAttach(w, ty, e)
    ensures var r := Attach(w, ty, e, t);
      && e in r.allEntities && e in r.entities && ty.id in r.entities[e]
      && ty.id in r.components && e in r.components[ty.id]
      && ty.id in r.stores && e in r.stores[ty.id].contents
      && r.stores[ty.id].contents[e] == (if e in w.stores[ty.id].contents then w.stores[ty.id].contents[e] else t)
      && r.next == w.next && r.stores.Keys == w.stores.Keys && |r.systems| == |w.systems|
    ensures var r := Attach(w, ty, e, t);
      forall i :: 0 <= i < |r.systems| ==>
        (e in r.systems[i].entities <==> e in w.systems[i].entities || r.systems[i].required <= r.entities[e])
  {
  }

  /** Destroying `e` leaves no trace of it in any of the three managers, does not
      change the registered types or the counter, and leaves everyone else's entries
      as they were. */
  lemma DestroyEffects<V>(w: World<V>, e: Entity)
    requires e != InvalidEntity
    ensures var r := Destroy(w, e);
      && e !in r.allEntities && e !in r.entities
      && (forall id :: id in r.components ==> e !in r.components[id])
      && (forall id :: id in r.stores ==> e !in r.stores[id].contents)
      && (forall i :: 0 <= i < |r.systems| ==> e !in r.systems[i].entities)
      && r.next == w.next && r.components.Keys == w.components.Keys && r.stores.Keys == w.stores.Keys
    ensures var r := Destroy(w, e);
      && (forall x :: x != e ==> (x in r.allEntities <==> x in w.allEntities))
      && (forall x :: x != e ==> (x in r.entities <==> x in w.entities))
      && (forall x :: x != e && x in r.entities ==> r.entities[x] == w.entities[x])
      && (forall id, x :: id in r.components && x != e ==> (x in r.components[id] <==> x in w.components[id]))
      && (forall id :: id in r.stores ==> r.stores[id].contents.Keys == w.stores[id].contents.Keys - {e})
      && (forall id, x :: id in r.stores && x != e && x in w.stores[id].contents ==>
            x in r.stores[id].contents && r.stores[id].contents[x] == w.stores[id].contents[x])
      && |r.systems| == |w.systems|
      && (forall i, x :: 0 <= i < |r.systems| && x != e ==> (x in r.systems[i].entities <==> x in w.systems[i].entities))
  {
  }

  /** `createComponent<T>()`: a fresh, empty store for `T::id`, replacing any other. */
  function Register<V>(w: World<V>, ty: ComponentType<V>): (r: World<V>)
    ensures r.stores.Keys == w.stores.Keys + {ty.id} && r.stores[ty.id] == StoreState(ty, map[])
    ensures forall id :: id in w.stores && id != ty.id ==> r.stores[id] == w.stores[id]
    ensures r.components == w.components && r.entities == w.entities && r.systems == w.systems
    ensures r.next == w.next && r.allEntities == w.allEntities
  {
    w.(stores := w.stores[ty.id := StoreState(ty, map[])])
  }

  /** `createSystem(t)`: `t` goes to the end of the list. */
  function AddSystem<V>(w: World<V>, s: SystemState): (r: World<V>)
    ensures |r.systems| == |w.systems| + 1 && r.systems[..|w.systems|] == w.systems && r.systems[|w.systems|] == s
    ensures r.components == w.components && r.entities == w.entities && r.stores == w.stores
    ensures r.next == w.next && r.allEntities == w.allEntities
  {
    w.(systems := w.systems + [s])
  }

  /** `getStore<T>().getComponent(e)`: when `e` has no value yet, `operator[]` first
      stores the value `d` that `T()` yields on this call. Nothing else changes. */
  function ReadComponent<V>(w: World<V>, ty: ComponentType<V>, e: Entity, d: V): World<V>
    requires HasStore(w, ty)
  {
    var store := w.stores[ty.id];
    if e in store.contents then w
    else w.(stores := w.stores[ty.id := store.(contents := store.contents[e := d])])
  }

  /** `em.add(c)`: records `c` under the counter and advances it (to 0 past the largest
      value); the live set is not touched. */
  function Record<V>(w: World<V>, c: set<Component>): World<V>
  {
    w.(entities := w.entities[w.next := c], next := Increment(w.next))
  }

  // ---------------------------------------------------------------------------
  // The invariants the managers are meant to keep between them

  /** An entity is live exactly when the entity index has an entry for it, and the
      invalid id is never live. */
  ghost predicate LiveIsIndexed<V>(w: World<V>)
  {
    w.allEntities == w.entities.Keys && InvalidEntity !in w.allEntities
  }

  /** `e ∈ cm.components[id]` exactly when `id ∈ em.entities[e]`. */
  ghost predicate IndexesMirror<V>(w: World<V>)
  {
    forall e, id :: (e in w.entities && id in w.entities[e]) <==> (id in w.components && e in w.components[id])
  }

  /** Every store sits under its type's id, every indexed type has a store, and the
      key set of each store is the membership index of its type. */
  ghost predicate StoresMatchIndex<V>(w: World<V>)
  {
    && w.components.Keys <= w.stores.Keys
    && forall id :: id in w.stores ==>
         w.stores[id].kind.id == id && w.stores[id].contents.Keys == Members(w.components, id)
  }

  /** A system caches only entities that hold every component it requires. */
  ghost predicate CachesSound<V>(w: World<V>)
  {
    forall i, x :: 0 <= i < |w.systems| && x in w.systems[i].entities ==>
      x in w.entities && w.systems[i].required <= w.entities[x]
  }

  /** All four invariants together. */
  ghost predicate Consistent<V>(w: World<V>)
  {
    LiveIsIndexed(w) && IndexesMirror(w) && StoresMatchIndex(w) && CachesSound(w)
  }

  /** A freshly constructed manager is consistent. */
  lemma EmptyConsistent<V>()
    ensures Consistent(Empty<V>())
  {
  }

  /** `addEntityComponent` makes `e` live and indexes it in the same call. */
  lemma AttachKeepsLive<V>(w: World<V>, ty: ComponentType<V>, e: Entity, t: V)
    requires CanAttach(w, ty, e) && LiveIsIndexed(w)
    ensures LiveIsIndexed(Attach(w, ty, e, t))
  {
  }

  /** `addEntityComponent` records `T::id` in both indexes at once. */
  lemma AttachKeepsMirror<V>(w: World<V>, ty: ComponentType<V>, e: Entity, t: V)
    requires CanAttach(w, ty, e) && IndexesMirror(w)
    ensures IndexesMirror(Attach(w, ty, e, t))
  {
    var r := Attach(w, ty, e, t);
    forall x, id
      ensures (x in r.entities && id in r.entities[x]) <==> (id in r.components && x in r.components[id])
    {
      if x != e && id != ty.id {
        assert (x in r.entities && id in r.entities[x]) <==> (x in w.entities && id in w.entities[x]);
        assert (id in r.components && x in r.components[id]) <==> (id in w.components && x in w.components[id]);
      }
    }
  }

  /** `addEntityComponent` gives the store a key for `e` exactly when it indexes `e`. */
  lemma AttachKeepsStores<V>(w: World<V>, ty: ComponentType<V>, e: Entity, t: V)
    requires CanAttach(w, ty, e) && StoresMatchIndex(w)
    ensures StoresMatchIndex(Attach(w, ty, e, t))
  {
    var r := Attach(w, ty, e, t);
    forall id | id in r.stores
      ensures r.stores[id].contents.Keys == Members(r.components, id)
    {
      if id != ty.id {
        assert r.stores[id] == w.stores[id];
        assert Members(r.components, id) == Members(w.components, id);
      }
    }
  }

  /** A system caches `e` only when `e`'s accumulated component set meets its requirement. */
  lemma AttachKeepsCaches<V>(w: World<V>, ty: ComponentType<V>, e: Entity, t: V)
    requires CanAttach(w, ty, e) && CachesSound(w)
    ensures CachesSound(Attach(w, ty, e, t))
  {
    var r := Attach(w, ty, e, t);
    forall i, x | 0 <= i < |r.systems| && x in r.systems[i].entities
      ensures x in r.entities && r.systems[i].required <= r.entities[x]
    {
      if x != e {
        assert x in w.systems[i].entities;
      }
    }
  }

  /** `addEntityComponent` keeps every invariant that held before the call. */
  lemma AttachPreservesConsistent<V>(w: World<V>, ty: ComponentType<V>, e: Entity, t: V)
    requires CanAttach(w, ty, e) && Consistent(w)
    ensures Consistent(Attach(w, ty, e, t))
  {
    AttachKeepsLive(w, ty, e, t);
    AttachKeepsMirror(w, ty, e, t);
    AttachKeepsStores(w, ty, e, t);
    AttachKeepsCaches(w, ty, e, t);
  }

  /** Repeating `addEntityComponent<T>(e, t2)` changes nothing: the index sets stay and
      the first value stays in the store. */
  lemma AttachTwice<V>(w: World<V>, ty: ComponentType<V>, e: Entity, t1: V, t2: V)
    requires CanAttach(w, ty, e)
    ensures CanAttach(Attach(w, ty, e, t1), ty, e)
    ensures Attach(Attach(w, ty, e, t1), ty, e, t2) == Attach(w, ty, e, t1)
  {
    var once := Attach(w, ty, e, t1);
    var twice := Attach(once, ty, e, t2);
    assert twice.entities == once.entities;
    assert twice.components == once.components;
    assert twice.stores == once.stores;
    assert twice.systems == once.systems by {
      UpdateAllIdempotent(w.systems, e, once.entities[e]);
    }
  }

  /** Destruction removes `e` from the live set and from the entity index together. */
  lemma DestroyKeepsLive<V>(w: World<V>, e: Entity)
    requires e != InvalidEntity && LiveIsIndexed(w)
    ensures LiveIsIndexed(Destroy(w, e))
  {
  }

  /** Destruction erases `e` from both indexes, so they stay mirrors. */
  lemma DestroyKeepsMirror<V>(w: World<V>, e: Entity)
    requires e != InvalidEntity && IndexesMirror(w)
    ensures IndexesMirror(Destroy(w, e))
  {
  }

  /** Destruction erases `e` from every store and from every membership set alike. */
  lemma DestroyKeepsStores<V>(w: World<V>, e: Entity)
    requires e != InvalidEntity && StoresMatchIndex(w)
    ensures StoresMatchIndex(Destroy(w, e))
  {
    var r := Destroy(w, e);
    forall id | id in r.stores
      ensures r.stores[id].contents.Keys == Members(r.components, id)
    {
      assert Members(r.components, id) == Members(w.components, id) - {e};
    }
  }

  /** Destruction only removes entities from caches, and keeps everyone else's index entry. */
  lemma DestroyKeepsCaches<V>(w: World<V>, e: Entity)
    requires e != InvalidEntity && CachesSound(w)
    ensures CachesSound(Destroy(w, e))
  {
  }

  /** Destroying an entity keeps every invariant that held before. */
  lemma DestroyPreservesConsistent<V>(w: World<V>, e: Entity)
    requires e != InvalidEntity && Consistent(w)
    ensures Consistent(Destroy(w, e))
  {
    DestroyKeepsLive(w, e);
    DestroyKeepsMirror(w, e);
    DestroyKeepsStores(w, e);
    DestroyKeepsCaches(w, e);
  }

  /** Registering a type not registered before keeps every invariant. */
  lemma RegisterPreservesConsistent<V>(w: World<V>, ty: ComponentType<V>)
    requires Consistent(w) && ty.id !in w.stores
    ensures Consistent(Register(w, ty))
  {
    var r := Register(w, ty);
    assert Members(r.components, ty.id) == {};
  }

  /** Registering a type again once entities hold it empties its store while the
      membership index still lists them, so the store no longer mirrors the index. */
  lemma RegisterAgainBreaksStores<V>(w: World<V>, ty: ComponentType<V>, e: Entity)
    requires StoresMatchIndex(w) && ty.id in w.components && e in w.components[ty.id]
    ensures !StoresMatchIndex(Register(w, ty))
  {
    var r := Register(w, ty);
    assert e in Members(r.components, ty.id) && e !in r.stores[ty.id].contents.Keys;
  }

  /** Adding a system with an empty cache (as a new system has) keeps every invariant;
      the new system then sees only entities that gain a component afterwards. */
  lemma AddSystemPreservesConsistent<V>(w: World<V>, required: set<Component>)
    requires Consistent(w)
    ensures Consistent(AddSystem(w, SystemState(required, {})))
  {
    var r := AddSystem(w, SystemState(required, {}));
    forall i, x | 0 <= i < |r.systems| && x in r.systems[i].entities
      ensures x in r.entities && r.systems[i].required <= r.entities[x]
    {
      assert i < |w.systems| && r.systems[i] == w.systems[i];
    }
  }

  /** Reading a component an entity holds changes nothing. */
  lemma ReadHeldChangesNothing<V>(w: World<V>, ty: ComponentType<V>, e: Entity, d: V)
    requires HasStore(w, ty) && StoresMatchIndex(w) && e in Members(w.components, ty.id)
    ensures ReadComponent(w, ty, e, d) == w
  {
  }

  /** Reading a component an entity does not hold (as the collision system does for
      every live entity) gives the store a key the membership index does not list. */
  lemma ReadMissingBreaksStores<V>(w: World<V>, ty: ComponentType<V>, e: Entity, d: V)
    requires HasStore(w, ty) && StoresMatchIndex(w) && e !in Members(w.components, ty.id)
    ensures !StoresMatchIndex(ReadComponent(w, ty, e, d))
  {
    assert e in ReadComponent(w, ty, e, d).stores[ty.id].contents;
  }

  /** `add` under a counter that is not live gives the entity index an entry for an
      entity that is not live. */
  lemma RecordBreaksLive<V>(w: World<V>, c: set<Component>)
    requires LiveIsIndexed(w) && w.next !in w.allEntities
    ensures !LiveIsIndexed(Record(w, c))
  {
    assert w.next in Record(w, c).entities;
  }

  // ---------------------------------------------------------------------------
  // Runs of many calls

  /** One call into the runtime, as gameplay code makes them. A `GetComponent` carries
      the value `T()` yields on that call, stored if the entity has no value yet. */
  datatype Op<V> =
    | GetEntity
    | Add(components: set<Component>)
    | AddEntityComponent(ty: ComponentType<V>, e: Entity, t: V)
    | GetComponent(ty: ComponentType<V>, e: Entity, made: V)
    | CreateComponent(ty: ComponentType<V>)
    | CreateSystem(system: SystemState)
    | DestroyEntity(e: Entity)

  /** What the source demands of a call (its assertions, and `getStore`'s needs). */
  ghost predicate Enabled<V>(w: World<V>, op: Op<V>)
  {
    match op
    case AddEntityComponent(ty, e, _) => CanAttach(w, ty, e)
    case GetComponent(ty, _, _) => HasStore(w, ty)
    case DestroyEntity(e) => e != InvalidEntity
    case _ => true
  }

  /** The call is an `add` that wraps the counter from the largest value to 0. */
  ghost predicate Wraps<V>(w: World<V>, op: Op<V>)
  {
    op.Add? && w.next == UINT32_LIMIT - 1
  }

  /** The world after a call, and the ids the call handed out. */
  datatype Outcome<V> = Outcome(world: World<V>, issued: seq<Entity>)

  /** One call: only `getEntity` hands out an id, only `getEntity` and `add` move the
      counter, and only a wrapping `add` moves it down. */
  function Step<V>(w: World<V>, op: Op<V>): (o: Outcome<V>)
    requires Enabled(w, op)
    ensures !Wraps(w, op) ==> o.world.next >= w.next
    ensures !op.GetEntity? ==> o.issued == []
    ensures !op.GetEntity? && !op.Add? ==> o.world.next == w.next
  {
    match op
    case GetEntity =>
      var a := Allocate(w.next);
      Outcome(w.(next := a.next), [a.id])
    case Add(c) => Outcome(Record(w, c), [])
    case AddEntityComponent(ty, e, t) => Outcome(Attach(w, ty, e, t), [])
    case GetComponent(ty, e, d) => Outcome(ReadComponent(w, ty, e, d), [])
    case CreateComponent(ty) => Outcome(Register(w, ty), [])
    case CreateSystem(s) => Outcome(AddSystem(w, s), [])
    case DestroyEntity(e) => Outcome(Destroy(w, e), [])
  }

  /** Every call of `ops` meets the source's demands in the state it is made in. */
  ghost predicate Runs<V>(w: World<V>, ops: seq<Op<V>>)
    decreases |ops|
  {
    |ops| == 0 || (Enabled(w, ops[0]) && Runs(Step(w, ops[0]).world, ops[1..]))
  }

  /** The world after `ops`, and the ids handed out along the way, in order. */
  function Run<V>(w: World<V>, ops: seq<Op<V>>): (o: Outcome<V>)
    requires Runs(w, ops)
    decreases |ops|
  {
    if |ops| == 0 then Outcome(w, []) else
      var first := Step(w, ops[0]);
      var rest := Run(first.world, ops[1..]);
      Outcome(rest.world, first.issued + rest.issued)
  }

  /** No call of `ops` is an `add` that wraps the counter. */
  ghost predicate NoWrap<V>(w: World<V>, ops: seq<Op<V>>)
    requires Runs(w, ops)
    decreases |ops|
  {
    |ops| == 0 || (!Wraps(w, ops[0]) && NoWrap(Step(w, ops[0]).world, ops[1..]))
  }

  /** Every successful id in `ids` lies in `[lo, hi)`. */
  ghost predicate IssuedWithin(ids: seq<Entity>, lo: int, hi: int)
  {
    forall i :: 0 <= i < |ids| && ids[i] != InvalidEntity ==> lo <= ids[i] < hi
  }

  /** The successful ids in `ids` rise strictly. */
  ghost predicate Rising(ids: seq<Entity>)
  {
    forall i, j :: 0 <= i < j < |ids| && ids[i] != InvalidEntity && ids[j] != InvalidEntity ==> ids[i] < ids[j]
  }

  /** Two rising runs of ids in adjacent ranges make one rising run. */
  lemma ConcatIssued(xs: seq<Entity>, ys: seq<Entity>, lo: int, mid: int, hi: int)
    requires lo <= mid <= hi
    requires IssuedWithin(xs, lo, mid) && Rising(xs) && IssuedWithin(ys, mid, hi) && Rising(ys)
    ensures IssuedWithin(xs + ys, lo, hi) && Rising(xs + ys)
  {
    var zs := xs + ys;
    forall i | 0 <= i < |zs| && zs[i] != InvalidEntity
      ensures lo <= zs[i] < hi
    {
      if i < |xs| {
        assert zs[i] == xs[i];
      } else {
        assert zs[i] == ys[i - |xs|];
      }
    }
    forall i, j | 0 <= i < j < |zs| && zs[i] != InvalidEntity && zs[j] != InvalidEntity
      ensures zs[i] < zs[j]
    {
      if j < |xs| {
        assert zs[i] == xs[i] && zs[j] == xs[j];
      } else if i < |xs| {
        assert zs[i] == xs[i] && zs[j] == ys[j - |xs|];
      } else {
        assert zs[i] == ys[i - |xs|] && zs[j] == ys[j - |xs|];
      }
    }
  }

  /** Over any run in which `add` does not wrap the counter, the counter never goes
      down, every id handed out lies between the counter at the start and the counter
      at the end, and the ids handed out rise strictly, so no id is handed out twice. */
  lemma {:induction false} RunIssuesFreshIds<V>(w: World<V>, ops: seq<Op<V>>)
    requires Runs(w, ops) && NoWrap(w, ops)
    ensures Run(w, ops).world.next >= w.next
    ensures IssuedWithin(Run(w, ops).issued, w.next, Run(w, ops).world.next)
    ensures Rising(Run(w, ops).issued)
    decreases |ops|
  {
    if |ops| > 0 {
      var first := Step(w, ops[0]);
      RunIssuesFreshIds(first.world, ops[1..]);
      var rest := Run(first.world, ops[1..]);
      assert IssuedWithin(first.issued, w.next, first.world.next) && Rising(first.issued) by {
        if ops[0].GetEntity? {
          assert first.issued == [Allocate(w.next).id];
        }
      }
      ConcatIssued(first.issued, rest.issued, w.next, first.world.next, rest.world.next);
    }
  }

  /** An id handed out before an entity was destroyed is never handed out again, as
      long as `add` does not wrap the counter. */
  lemma DestroyedNeverReissued<V>(w: World<V>, e: Entity, ops: seq<Op<V>>)
    requires e != InvalidEntity && e < w.next
    requires Runs(Destroy(w, e), ops) && NoWrap(Destroy(w, e), ops)
    ensures e !in Run(Destroy(w, e), ops).issued
  {
    RunIssuesFreshIds(Destroy(w, e), ops);
  }

  /** A fresh manager hands out 1 first; once `add` has wrapped the counter, the second
      `getEntity` after it hands out 1 again. */
  lemma WrapReissues<V>(w: World<V>, c: set<Component>)
    requires w.next == UINT32_LIMIT - 1
    ensures Runs(Empty<V>(), [GetEntity]) && Run(Empty<V>(), [GetEntity]).issued == [1]
    ensures Runs(w, [Add(c), GetEntity, GetEntity])
    ensures Run(w, [Add(c), GetEntity, GetEntity]).issued == [InvalidEntity, 1]
  {
    var ops: seq<Op<V>> := [Add(c), GetEntity, GetEntity];
    var w1 := Step(w, ops[0]).world;
    var w2 := Step(w1, ops[1]).world;
    assert w1.next == 0 && w2.next == 1;
    assert ops[1..] == [GetEntity, GetEntity] && ops[1..][1..] == [GetEntity];
    assert Run(w2, [GetEntity]).issued == [1];
  }

  // Which runs the source's demands leave possible

  /** Every component type named in `op` is the one `types` lists under its id: a C++
      type has one static `T::id`, and distinct types have distinct ids. */
  ghost predicate InTable<V>(types: map<Component, ComponentType<V>>, op: Op<V>)
  {
    (op.AddEntityComponent? || op.GetComponent? || op.CreateComponent?) ==>
      op.ty.id in types && types[op.ty.id] == op.ty
  }

  /** Every store of `w` was created for the type `types` lists under its id. */
  ghost predicate StoresInTable<V>(types: map<Component, ComponentType<V>>, w: World<V>)
  {
    forall id :: id in w.stores ==> id in types && w.stores[id].kind == types[id]
  }

  /** The call goes through `getStore`. */
  ghost predicate UsesStore<V>(op: Op<V>)
  {
    op.AddEntityComponent? || op.GetComponent?
  }

  /** The type `ops[i]` uses is registered in `w`, or by an earlier call of `ops`. */
  ghost predicate RegisteredBefore<V>(w: World<V>, ops: seq<Op<V>>, i: nat)
    requires i < |ops| && UsesStore(ops[i])
  {
    ops[i].ty.id in w.stores ||
    exists j :: 0 <= j < i && ops[j].CreateComponent? && ops[j].ty.id == ops[i].ty.id
  }

  /** Conditions on the calls alone: every type comes from one table, every type is
      registered before its store is used, and every entity passed to
      `addEntityComponent` or destroyed is valid. */
  ghost predicate WellFormed<V>(types: map<Component, ComponentType<V>>, w: World<V>, ops: seq<Op<V>>)
  {
    && StoresInTable(types, w)
    && (forall i :: 0 <= i < |ops| ==> InTable(types, ops[i]))
    && (forall i :: 0 <= i < |ops| && UsesStore(ops[i]) ==> RegisteredBefore(w, ops, i))
    && (forall i :: 0 <= i < |ops| && (ops[i].AddEntityComponent? || ops[i].DestroyEntity?) ==>
          ops[i].e != InvalidEntity)
  }

  /** Under every call the registered ids only grow and every store keeps the type it was
      created for, as long as registrations take their types from the table. */
  lemma StepKeepsTable<V>(types: map<Component, ComponentType<V>>, w: World<V>, op: Op<V>)
    requires Enabled(w, op) && StoresInTable(types, w) && InTable(types, op)
    ensures StoresInTable(types, Step(w, op).world)
    ensures w.stores.Keys <= Step(w, op).world.stores.Keys
    ensures op.CreateComponent? ==> op.ty.id in Step(w, op).world.stores
  {
  }

  /** Calls that take their types from one table and register each type before using
      its store meet every demand of the source. */
  lemma {:induction false} WellFormedRuns<V>(types: map<Component, ComponentType<V>>, w: World<V>, ops: seq<Op<V>>)
    requires WellFormed(types, w, ops)
    ensures Runs(w, ops)
    decreases |ops|
  {
    if |ops| > 0 {
      assert Enabled(w, ops[0]) by {
        if UsesStore(ops[0]) {
          assert RegisteredBefore(w, ops, 0);
        }
      }
      StepKeepsTable(types, w, ops[0]);
      var w1 := Step(w, ops[0]).world;
      var rest := ops[1..];
      forall i | 0 <= i < |rest| && UsesStore(rest[i])
        ensures RegisteredBefore(w1, rest, i)
      {
        assert rest[i] == ops[i + 1] && RegisteredBefore(w, ops, i + 1);
        if rest[i].ty.id !in w.stores {
          var j :| 0 <= j < i + 1 && ops[j].CreateComponent? && ops[j].ty.id == rest[i].ty.id;
          if j > 0 {
            assert rest[j - 1] == ops[j];
          }
        }
      }
      assert forall i :: 0 <= i < |rest| ==> rest[i] == ops[i + 1];
      WellFormedRuns(types, w1, rest);
    }
  }

  /** What keeps the invariants on top of the source's demands: types are registered
      once, new systems start with an empty cache, components are read only from
      entities that hold them, and `add` is not called (gameplay code never calls it). */
  ghost predicate Careful<V>(w: World<V>, op: Op<V>)
  {
    match op
    case Add(_) => false
    case GetComponent(ty, e, _) => e in Members(w.components, ty.id)
    case CreateComponent(ty) => ty.id !in w.stores
    case CreateSystem(s) => s.entities == {}
    case _ => true
  }

  /** Every call of the run is careful in the state it is made in. */
  ghost predicate Disciplined<V>(w: World<V>, ops: seq<Op<V>>)
    requires Runs(w, ops)
    decreases |ops|
  {
    |ops| == 0 || (Careful(w, ops[0]) && Disciplined(Step(w, ops[0]).world, ops[1..]))
  }

  /** A disciplined run from a consistent world ends in a consistent world. */
  lemma {:induction false} RunKeepsConsistent<V>(w: World<V>, ops: seq<Op<V>>)
    requires Consistent(w) && Runs(w, ops) && Disciplined(w, ops)
    ensures Consistent(Run(w, ops).world)
    decreases |ops|
  {
    if |ops| > 0 {
      var op := ops[0];
      match op {
        case GetEntity =>
        case AddEntityComponent(ty, e, t) => AttachPreservesConsistent(w, ty, e, t);
        case GetComponent(ty, e, d) => ReadHeldChangesNothing(w, ty, e, d);
        case CreateComponent(ty) => RegisterPreservesConsistent(w, ty);
        case CreateSystem(s) => AddSystemPreservesConsistent(w, s.required);
        case DestroyEntity(e) => DestroyPreservesConsistent(w, e);
      }
      RunKeepsConsistent(Step(w, op).world, ops[1..]);
    }
  }

  // ---------------------------------------------------------------------------
  // The manager object

  class Manager<V> {
    const em: EntityManager
    const cm: ComponentManager<V>
    const sm: SystemManager

    ghost predicate Valid()
      reads cm`stores
    {
      cm.Valid()
    }

    /** The state of all three managers, as a value. */
    ghost function Snapshot(): World<V>
      reads em`next, em`allEntities, em`entities, cm`components, cm`stores, cm.stores.Values`components, sm`systems, sm.systems`required, sm.systems`entities
    {
      World(em.next, em.allEntities, em.entities, cm.components, cm.StoreStates(), sm.States())
    }

    constructor ()
      ensures Valid() && fresh(em) && fresh(cm) && fresh(sm)
      ensures em.next == 1 && em.allEntities == {} && em.entities == map[]
      ensures cm.components == map[] && cm.stores == map[] && sm.systems == []
      ensures Snapshot() == Empty()
    {
      em := new EntityManager();
      cm := new ComponentManager();
      sm := new SystemManager();
    }

    /** Between two states in which the managers changed exactly as `addEntityComponent`
        changes them, the snapshot moved by `Attach`. */
    twostate lemma Attached(ty: ComponentType<V>, e: Entity, t: V)
      requires e != InvalidEntity && ty.id in old(cm.stores) && old(cm.stores[ty.id].kind) == ty
      requires cm.stores == old(cm.stores) && sm.systems == old(sm.systems)
      requires em.next == old(em.next) && em.allEntities == old(em.allEntities) + {e}
      requires em.entities == Insert(old(em.entities), e, ty.id)
      requires cm.components == Insert(old(cm.components), ty.id, e)
      requires cm.stores[ty.id].components == InsertFirst(old(cm.stores[ty.id].components), e, t)
      requires forall k :: k in cm.stores && k != ty.id ==> cm.stores[k].components == old(cm.stores[k].components)
      requires forall s :: s in sm.systems ==> s.required == old(s.required) && s.entities == Join(old(s.entities), s.required, e, em.entities[e])
      ensures CanAttach(old(Snapshot()), ty, e) && Snapshot() == Attach(old(Snapshot()), ty, e, t)
    {
      cm.OnlyStoreChanged(ty.id);
    }

    /** `addEntityComponent<T>(e, t)`; see `Attach`. */
    method AddEntityComponent(ty: ComponentType<V>, e: Entity, t: V)
      requires Valid()
      requires e != InvalidEntity && ty.id in cm.stores && cm.stores[ty.id].kind == ty
      modifies em`allEntities, em`entities, cm`components, {cm.stores[ty.id]}`components, sm.systems`entities
      ensures em.allEntities == old(em.allEntities) + {e} && em.entities == Insert(old(em.entities), e, ty.id)
      ensures cm.components == Insert(old(cm.components), ty.id, e)
      ensures cm.stores[ty.id].components == InsertFirst(old(cm.stores[ty.id].components), e, t)
      ensures forall s :: s in sm.systems ==> s.entities == Join(old(s.entities), s.required, e, em.entities[e])
    {
      em.allEntities := em.allEntities + {e};
      em.entities := Insert(em.entities, e, ty.id);
      cm.components := Insert(cm.components, ty.id, e);
      var store := cm.GetStore(ty);
      store.AddEntity(e, t);
      sm.UpdateEntity(e, em.entities[e]);
    }

    /** Between two states in which only the store under `ty.id` changed, as
        `ComponentStore.GetComponent(e, d)` changes it, the snapshot moved by `ReadComponent`. */
    twostate lemma ComponentRead(ty: ComponentType<V>, e: Entity, d: V)
      requires ty.id in old(cm.stores) && old(cm.stores[ty.id].kind) == ty
      requires cm.stores == old(cm.stores) && sm.systems == old(sm.systems)
      requires em.next == old(em.next) && em.allEntities == old(em.allEntities) && em.entities == old(em.entities)
      requires cm.components == old(cm.components)
      requires cm.stores[ty.id].components ==
        if e in old(cm.stores[ty.id].components) then old(cm.stores[ty.id].components)
        else old(cm.stores[ty.id].components)[e := d]
      requires forall k :: k in cm.stores && k != ty.id ==> cm.stores[k].components == old(cm.stores[k].components)
      requires forall s :: s in sm.systems ==> s.required == old(s.required) && s.entities == old(s.entities)
      ensures HasStore(old(Snapshot()), ty) && Snapshot() == ReadComponent(old(Snapshot()), ty, e, d)
    {
      cm.OnlyStoreChanged(ty.id);
      sm.StatesUnchanged();
    }

    /** Between two states in which only the entity index and the counter changed, as
        `EntityManager.Add(c)` changes them, the snapshot moved by `Record`. */
    twostate lemma Recorded(c: set<Component>)
      requires em.entities == old(em.entities)[old(em.next) := c] && em.next == Increment(old(em.next))
      requires em.allEntities == old(em.allEntities)
      requires cm.components == old(cm.components) && cm.stores == old(cm.stores)
      requires forall k :: k in cm.stores ==> cm.stores[k].components == old(cm.stores[k].components)
      requires sm.systems == old(sm.systems)
      requires forall s :: s in sm.systems ==> s.required == old(s.required) && s.entities == old(s.entities)
      ensures Snapshot() == Record(old(Snapshot()), c)
    {
      cm.StoresUnchanged();
      sm.StatesUnchanged();
    }

    /** Between two states in which only `cm.stores` changed, by a fresh empty store for
        `ty` under `ty.id`, the snapshot moved by `Register`. */
    twostate lemma Registered(ty: ComponentType<V>)
      requires em.next == old(em.next) && em.allEntities == old(em.allEntities) && em.entities == old(em.entities)
      requires cm.components == old(cm.components) && sm.systems == old(sm.systems)
      requires ty.id in cm.stores && cm.stores == old(cm.stores)[ty.id := cm.stores[ty.id]]
      requires cm.stores[ty.id].kind == ty && cm.stores[ty.id].components == map[]
      requires forall k :: k in old(cm.stores) && k != ty.id ==> cm.stores[k].components == old(cm.stores[k].components)
      requires forall s :: s in sm.systems ==> s.required == old(s.required) && s.entities == old(s.entities)
      ensures Snapshot() == Register(old(Snapshot()), ty)
    {
      cm.StoreInstalled(ty);
      sm.StatesUnchanged();
    }

    /** `createComponent<T>()`: only delegates to `cm.addComponent<T>()`. */
    method CreateComponent(ty: ComponentType<V>)
      requires Valid()
      modifies cm`stores
      ensures Valid() && ty.id in cm.stores && fresh(cm.stores[ty.id])
      ensures cm.stores[ty.id].kind == ty && cm.stores[ty.id].components == map[]
      ensures cm.stores == old(cm.stores)[ty.id := cm.stores[ty.id]]
    {
      cm.AddComponent(ty);
    }

    /** Between two states in which only `sm.systems` changed, by appending `t`, the
        snapshot moved by `AddSystem`. */
    twostate lemma SystemAppended(t: System)
      requires em.next == old(em.next) && em.allEntities == old(em.allEntities) && em.entities == old(em.entities)
      requires cm.components == old(cm.components) && cm.stores == old(cm.stores)
      requires forall k :: k in cm.stores ==> cm.stores[k].components == old(cm.stores[k].components)
      requires sm.systems == old(sm.systems) + [t]
      requires forall s :: s in sm.systems ==> s.required == old(s.required) && s.entities == old(s.entities)
      ensures Snapshot() == AddSystem(old(Snapshot()), SystemState(t.required, t.entities))
    {
      cm.StoresUnchanged();
    }

    /** `createSystem(t)`: appends `t` to the system list. */
    method CreateSystem(t: System)
      modifies sm`systems
      ensures sm.systems == old(sm.systems) + [t]
    {
      sm.AddSystem(t);
    }

    /** Between two states in which the managers changed exactly as `DestroyEntity`
        changes them, the snapshot moved by `Destroy`. */
    twostate lemma Destroyed(e: Entity)
      requires e != InvalidEntity
      requires cm.stores == old(cm.stores) && sm.systems == old(sm.systems)
      requires em.next == old(em.next) && em.allEntities == old(em.allEntities) - {e}
      requires em.entities == old(em.entities) - {e}
      requires cm.components == EraseEverywhere(old(cm.components), e)
      requires forall k :: k in cm.stores ==> cm.stores[k].components == old(cm.stores[k].components) - {e}
      requires forall s :: s in sm.systems ==> s.required == old(s.required)
      requires forall s :: s in sm.systems ==> s.entities == old(s.entities) - {e}
      ensures Snapshot() == Destroy(old(Snapshot()), e)
    {
      cm.StoresErased(e);
      sm.StatesRemoved(e);
    }

    /** Destroys `e` with the three calls gameplay code makes:
        `em.removeEntity(e)`, `cm.removeEntity(e)`, `sm.removeEntity(e)`. */
    method DestroyEntity(e: Entity)
      requires Valid() && e != InvalidEntity
      modifies em`allEntities, em`entities, cm`components, cm.stores.Values`components, sm.systems`entities
      ensures em.allEntities == old(em.allEntities) - {e} && em.entities == old(em.entities) - {e}
      ensures cm.components == EraseEverywhere(old(cm.components), e)
      ensures forall id :: id in cm.stores ==> cm.stores[id].components == old(cm.stores[id].components) - {e}
      ensures forall s :: s in sm.systems ==> s.entities == old(s.entities) - {e}
    {
      em.RemoveEntity(e);
      cm.RemoveEntity(e);
      sm.RemoveEntity(e);
    }
  }
}
