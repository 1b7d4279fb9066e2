# An entity/component/system runtime, modelled in Dafny

This project models the runtime in `src/ecs/` of a small C++ entity/component/system
(ECS) game framework. Gameplay code uses it as follows:

- it asks the `EntityManager` for entity ids;
- it registers component types with the `ComponentManager`;
- it attaches component values to entities through `Manager::addEntityComponent`;
- it registers systems with the `SystemManager`.

Each system declares the set of component type ids it requires. It also keeps a cache of
the entities that hold all of them. The cache is updated step by step whenever a
component is added.

The files follow the C++ classes:

| file | module | models |
|---|---|---|
| `entity_manager.dfy` | `Entities` | `EntityManager`: the `next` counter, the live set `allEntities`, the index `entities` (entity to component type ids), `getEntity`, `add`, `removeEntity`; `MAX_ENTITIES`, `invalidEntity`; `uint32_t` ids |
| `set_index.dfy` | `SetIndex` | the `map[k].insert(x)` idiom on a map of sets, which both index maps use |
| `component_manager.dfy` | `Components` | `ComponentStore<T>` and `ComponentManager` as classes: the store per type id, the membership index `components` (type id to entities), `addEntity`, `removeEntity`, `getComponent`, `addComponent`, `getStore` |
| `system_manager.dfy` | `Systems` | `System` and `SystemManager` as classes: `update`, `removeEntity`, `updateEntity` (with its inner loop and early `break`), `addSystem` |
| `ecs.dfy` | `Ecs` | `Manager`: `addEntityComponent`, `createComponent`, `createSystem`, plus whole-entity destruction as gameplay code performs it (`em.removeEntity; cm.removeEntity; sm.removeEntity`, `src/systems.hpp:96-98`) |

Each C++ class with mutable fields is a Dafny `class` with the same fields. Each of its
methods has `modifies` clauses that name exactly the fields the C++ code writes.

The managers are tied to a value-level picture, `Ecs.World`, through view functions:

- `ComponentManager.StoreStates`;
- `SystemManager.States`;
- `Manager.Snapshot`.

The operations appear on that picture as `Attach`, `Destroy`, `Register`, `AddSystem`,
`ReadComponent` and `Record`. Six `twostate` lemmas prove the link: `Manager.Attached`,
`Registered`, `SystemAppended`, `Destroyed`, `ComponentRead` and `Recorded`. Take two
heaps related as a method's postcondition and frame relate them. Between them, the
snapshot moves by the corresponding value-level operation.

What is proved on the value level:

- the effects of each operation;
- that `addEntityComponent`, whole-entity destruction, first-time type registration
  and system registration preserve the cross-manager invariants. Those invariants are:
  - the live set equals the entity index's key set;
  - the two indexes mirror each other;
  - each store's key set equals its type's membership set;
  - every cached entity meets its system's requirement;
- for runs of calls, where each call is `getEntity`, `add`, `addEntityComponent`,
  `getComponent`, `createComponent`, `createSystem` or whole-entity destruction:
  - if no `add` wraps the counter, the counter never decreases and no id is handed out
    twice. Once `add` wraps it, ids are handed out again (`Ecs.WrapReissues`);
  - calls that take each type from one table of types, and register a type before they
    use its store, meet every precondition of the source (`Ecs.WellFormedRuns`);
  - the invariants survive a run that registers each type once, adds systems with empty
    caches, reads components only from entities that hold them, and never calls `add`
    (`Ecs.RunKeepsConsistent`). Gameplay code never calls `add`.
  - a `getComponent` on an entity without that component breaks the store invariant
    (`Ecs.ReadMissingBreaksStores`). The collision system makes such reads: it reads the
    position and size of every live entity (`src/systems.hpp:67-72`);
  - an `add` under a counter value that is not live breaks the live-set invariant
    (`Ecs.RecordBreaksLive`).

Some design choices:

- The templated `ComponentStore<T>` is one generic class over a value type `V`.
- A C++ component type `T` is a `ComponentType<V>`, which carries two things: its
  static `T::id` and a name standing for the C++ type.
- The value that `T()` default-constructs inside `getComponent` is a parameter of each
  read (`d`). Two reads can receive different values, as with constructors that call
  `rand()`.
- `getStore<T>()` does a `dynamic_cast` on `*stores[T::id]`. This becomes a
  precondition: a store must exist under `T::id` and must have been created for `T`.

Where the behaviour described for the system differs from the code, the model follows the
code:

- `getEntity` does not add the entity to `allEntities`. Only `addEntityComponent` does.
- `addEntity` uses `unordered_map::insert`. A second value for the same entity is
  therefore dropped, not written over the first.
- `getComponent` returns `&components[e]`. This inserts a default value for a missing
  key, so a read can grow a store's key set.
- `addComponent<T>()` on an id that is already registered replaces the store with an
  empty one. The membership index still lists the old holders
  (`Ecs.RegisterAgainBreaksStores`).
- A system's cache never shrinks under `updateEntity`. Only `removeEntity` removes
  entries.

## Model

| member | source | states |
|---|---|---|
| Entities.Increment | src/ecs/entity_manager.hpp:28 | `next++` on a `uint32_t` is addition modulo 2^32 |
| Entities.Allocate | src/ecs/entity_manager.hpp:50-57 | `getEntity` returns either `invalidEntity` or the current counter; when it succeeds the counter moves up by exactly one, and it never moves down |
| Entities.AllocateManyIds | src/ecs/entity_manager.hpp:50-57 | the i-th of successive `getEntity` calls from counter `next` returns `next + i` while that is below `MAX_ENTITIES`, and `invalidEntity` from then on |
| Entities.NextAfterBounds | src/ecs/entity_manager.hpp:50-57 | after n calls the counter is `min(next + n, MAX_ENTITIES)`; once at or past `MAX_ENTITIES` it stays where it is |
| Entities.FreshAllocations | src/ecs/entity_manager.hpp:50-58 | from a fresh manager the i-th call returns `i + 1`, and a call succeeds if and only if fewer than `MAX_ENTITIES - 1` calls came before it |
| Entities.AllocationsDistinct | src/ecs/entity_manager.hpp:50-57 | the successful results of successive calls rise strictly, so no id is returned twice |
| Entities.AddedIdNeverIssued | src/ecs/entity_manager.hpp:25-57 | after `add` has used the counter's value, no later successful `getEntity` returns that value, for every counter value including the one `add` wraps from |
| Entities.EntityManager.constructor | src/ecs/entity_manager.hpp:58-60 | a new manager has counter 1 and empty live set and index |
| Entities.EntityManager.Add | src/ecs/entity_manager.hpp:25-29 | records the set under the current counter, then advances the counter modulo 2^32; the live set is not touched |
| Entities.EntityManager.RemoveEntity | src/ecs/entity_manager.hpp:30-36 | requires a valid id; removes exactly `e` from the live set and from the index; the counter is not touched |
| Entities.EntityManager.GetEntity | src/ecs/entity_manager.hpp:50-57 | result and new counter are those of `Allocate`; only the counter may change |
| SetIndex.InsertEffects | src/ecs/ecs.hpp:31-32 | `idx[k].insert(x)` adds `x` under `k`, creating the entry if needed, and leaves every other key's set alone |
| SetIndex.InsertIdempotent | src/ecs/ecs.hpp:31-32 | inserting the same member twice equals inserting it once |
| Components.InsertFirstEffects | src/ecs/component_manager.hpp:28-31 | after `insert`, the key set gains exactly `e`, `e` maps to its earlier value if it had one, else to `t`, and no other entry changes |
| Components.InsertFirstKeepsFirst | src/ecs/component_manager.hpp:28-31 | a second insertion for the same entity, with any value, changes nothing |
| Components.EraseEverywhere | src/ecs/component_manager.hpp:89-92 | erasing `e` from every membership set keeps the type ids, leaves `e` in no set, and keeps every other entity's memberships |
| Components.EraseStores | src/ecs/component_manager.hpp:93-96 | erasing `e` from every store keeps the type ids and store kinds, removes exactly key `e`, and keeps every other value |
| Components.ComponentStore.constructor | src/ecs/component_manager.hpp:27 | a new store carries `T::id` and is empty |
| Components.ComponentStore.AddEntity | src/ecs/component_manager.hpp:28-31 | the new contents are `InsertFirst` of the old: an existing value is kept |
| Components.ComponentStore.RemoveEntity | src/ecs/component_manager.hpp:32-35 | removes key `e` only; a no-op when it is absent |
| Components.ComponentStore.GetComponent | src/ecs/component_manager.hpp:36-39 | returns the stored value; for a missing key it first stores the value `T()` yields on this call and then returns it, so the key set always gains `e` |
| Components.ComponentManager.OnlyStoreChanged | src/ecs/component_manager.hpp:28-31 | when only the store under one id changed its contents, the store view changed only at that id |
| Components.ComponentManager.StoreInstalled | src/ecs/component_manager.hpp:83-86 | a fresh empty store installed under `T::id` changes the store view only at that id, to an empty store of `T` |
| Components.ComponentManager.StoresErased | src/ecs/component_manager.hpp:93-96 | when every store lost key `e`, the store view is `EraseStores` of the old view |
| Components.ComponentManager.StoresUnchanged | src/ecs/component_manager.hpp:104-105 | unchanged stores give an unchanged store view |
| Components.ComponentManager.constructor | src/ecs/component_manager.hpp:57-59 | a new manager has no membership sets and no stores |
| Components.ComponentManager.AddComponent | src/ecs/component_manager.hpp:83-86 | installs a fresh, empty store of type `T` under `T::id`, replacing any store there; every other store stays |
| Components.ComponentManager.RemoveEntity | src/ecs/component_manager.hpp:87-97 | the index becomes `EraseEverywhere` of the old index; every store loses key `e` and nothing else; the store map is unchanged |
| Components.ComponentManager.GetStore | src/ecs/component_manager.hpp:98-102 | requires a store under `T::id` created for `T`; returns that store |
| Systems.Join | src/ecs/system_manager.hpp:76-88 | `e` is in the new cache if and only if it was already cached or the required set is a subset of `c`; no other entity changes |
| Systems.UpdateAll | src/ecs/system_manager.hpp:72-90 | every system's cache is joined as in `Join`; the list length and every required set stay |
| Systems.RemoveAll | src/ecs/system_manager.hpp:65-71 | every system's cache loses `e`; the list length and every required set stay |
| Systems.UpdateAllGrows | src/ecs/system_manager.hpp:85-88 | `updateEntity` never removes an entity from a cache |
| Systems.UpdateAllIdempotent | src/ecs/system_manager.hpp:72-90 | two identical `updateEntity` calls give the same state as one |
| Systems.EmptyRequirementJoins | src/ecs/system_manager.hpp:76-88 | a system with an empty required set receives every entity passed in |
| Systems.RequiresMet | src/ecs/system_manager.hpp:76-84 | the `valid` flag, computed with its early `break`, is true if and only if the required set is a subset of `c` |
| Systems.System.constructor | src/systems.hpp:12-16 | a concrete system starts with its required set filled in and an empty cache |
| Systems.System.RemoveEntity | src/ecs/system_manager.hpp:20-23 | the cache loses exactly `e` |
| Systems.SystemManager.StatesRemoved | src/ecs/system_manager.hpp:65-71 | when every listed system lost `e` from its cache, the system view is `RemoveAll` of the old view |
| Systems.SystemManager.StatesUnchanged | src/ecs/system_manager.hpp:24-25 | unchanged systems give an unchanged system view |
| Systems.SystemManager.constructor | src/ecs/system_manager.hpp:33-35 | a new manager has no systems |
| Systems.SystemManager.Update | src/ecs/system_manager.hpp:36-42 | every system is called exactly once, in list order |
| Systems.SystemManager.RemoveEntity | src/ecs/system_manager.hpp:65-71 | every listed system's cache loses exactly `e`; only caches are written |
| Systems.SystemManager.UpdateEntity | src/ecs/system_manager.hpp:72-90 | every listed system's cache becomes `Join` of its old cache; only caches are written, so the list and every required set stay |
| Systems.SystemManager.AddSystem | src/ecs/system_manager.hpp:106-110 | the new list is the old list followed by `t` |
| Ecs.Register | src/ecs/ecs.hpp:37-40 | registering adds `T::id` with an empty store of `T`, keeping the other stores, both indexes, the systems, the counter and the live set |
| Ecs.AddSystem | src/ecs/ecs.hpp:41-48 | the new system goes to the end, after the old systems in their order; the counter, the live set, both indexes and the stores are unchanged |
| Ecs.AttachEffects | src/ecs/ecs.hpp:26-35 | after `addEntityComponent`, `e` is live, both indexes record it with `T::id`, the store holds the first value given for `e`, and a system caches `e` if and only if it did before or its requirement is met by `e`'s accumulated component set |
| Ecs.DestroyEffects | src/systems.hpp:96-98 | after destruction, `e` is in no live set, index, store or cache; the counter and registered type ids stay; each store's key set is its old one minus `e`, and every other entity's entries and values are unchanged |
| Ecs.EmptyConsistent | src/ecs/ecs.hpp:13-15 | a new manager satisfies all four cross-manager invariants |
| Ecs.AttachKeepsLive | src/ecs/ecs.hpp:30-31 | `addEntityComponent` keeps the live set equal to the entity index's key set |
| Ecs.AttachKeepsMirror | src/ecs/ecs.hpp:31-32 | `addEntityComponent` keeps the two indexes mirrors of each other |
| Ecs.AttachKeepsStores | src/ecs/ecs.hpp:32-33 | `addEntityComponent` keeps each store's key set equal to its membership set |
| Ecs.AttachKeepsCaches | src/ecs/ecs.hpp:31-34 | `addEntityComponent` keeps every cached entity meeting its system's requirement |
| Ecs.AttachPreservesConsistent | src/ecs/ecs.hpp:26-35 | `addEntityComponent` preserves all four invariants |
| Ecs.AttachTwice | src/ecs/ecs.hpp:30-34 | repeating `addEntityComponent` for the same entity and type, with any value, changes nothing |
| Ecs.DestroyKeepsLive | src/systems.hpp:96-98 | whole-entity destruction keeps the live set equal to the entity index's key set |
| Ecs.DestroyKeepsMirror | src/systems.hpp:96-98 | whole-entity destruction keeps the two indexes mirrors of each other |
| Ecs.DestroyKeepsStores | src/systems.hpp:96-98 | whole-entity destruction keeps each store's key set equal to its type's membership set |
| Ecs.DestroyKeepsCaches | src/systems.hpp:96-98 | whole-entity destruction keeps every cached entity meeting its system's requirement |
| Ecs.DestroyPreservesConsistent | src/systems.hpp:96-98 | whole-entity destruction preserves all four invariants |
| Ecs.RegisterPreservesConsistent | src/ecs/ecs.hpp:37-40 | registering a type id not registered before preserves all four invariants |
| Ecs.RegisterAgainBreaksStores | src/ecs/component_manager.hpp:83-86 | registering an id again while an entity holds it breaks the store/index equality |
| Ecs.AddSystemPreservesConsistent | src/ecs/ecs.hpp:41-48 | appending a system with an empty cache preserves all four invariants |
| Ecs.ReadHeldChangesNothing | src/ecs/component_manager.hpp:36-39 | reading a component that the entity holds changes nothing |
| Ecs.ReadMissingBreaksStores | src/ecs/component_manager.hpp:36-39 | reading a component that the entity does not hold gives the store a key that the membership index does not list |
| Ecs.RecordBreaksLive | src/ecs/entity_manager.hpp:25-29 | `add` under a counter value that is not live gives the entity index an entry for an entity that is not live |
| Ecs.Step | src/ecs/entity_manager.hpp:25-57 | only `getEntity` hands out an id; only `getEntity` and `add` move the counter; only an `add` that wraps moves it down |
| Ecs.RunIssuesFreshIds | src/ecs/entity_manager.hpp:50-57 | in a run where no `add` wraps, the counter never goes down, every id handed out lies between the start and end counters, and the ids handed out rise strictly |
| Ecs.DestroyedNeverReissued | src/ecs/entity_manager.hpp:30-57 | in a run where no `add` wraps, an id handed out before its entity was destroyed is never handed out again |
| Ecs.WrapReissues | src/ecs/entity_manager.hpp:25-57 | a fresh manager hands out 1 first; after `add` wraps the counter, the second `getEntity` hands out 1 again |
| Ecs.StepKeepsTable | src/ecs/component_manager.hpp:83-86 | under every call the registered ids only grow, and every store keeps the type it was created for, as long as registrations take their types from the one table |
| Ecs.WellFormedRuns | src/ecs/component_manager.hpp:98-102 | calls that take their types from one table, register each type before using its store, and pass valid entities meet every precondition of the source |
| Ecs.RunKeepsConsistent | src/ecs/ecs.hpp:26-48 | a run that registers each type once, adds systems with empty caches, reads only held components and never calls `add` ends in a consistent state when it starts in one |
| Ecs.Manager.constructor | src/ecs/ecs.hpp:13-15 | three fresh managers: counter 1, no entities, no membership sets, no stores, no systems; the snapshot is the empty world |
| Ecs.Manager.Attached | src/ecs/ecs.hpp:26-35 | the state change `AddEntityComponent` makes moves the snapshot by `Attach`, and the call is allowed there |
| Ecs.Manager.AddEntityComponent | src/ecs/ecs.hpp:26-35 | requires a valid id and a store of type `T` under `T::id`; marks `e` live, inserts `T::id` and `e` into the two indexes, inserts `t` into the store keeping an earlier value, and joins `e` to the systems whose requirement its component set meets; writes nothing else |
| Ecs.Manager.ComponentRead | src/ecs/component_manager.hpp:36-39 | the state change that `ComponentStore.GetComponent` makes moves the snapshot by `ReadComponent` |
| Ecs.Manager.Recorded | src/ecs/entity_manager.hpp:25-29 | the state change that `EntityManager.Add` makes moves the snapshot by `Record` |
| Ecs.Manager.Registered | src/ecs/ecs.hpp:37-40 | the state change `CreateComponent` makes moves the snapshot by `Register` |
| Ecs.Manager.CreateComponent | src/ecs/ecs.hpp:37-40 | delegates to `addComponent`: a fresh empty store for `T` under `T::id`, every other store kept |
| Ecs.Manager.SystemAppended | src/ecs/ecs.hpp:41-48 | the state change `CreateSystem` makes moves the snapshot by `AddSystem` |
| Ecs.Manager.CreateSystem | src/ecs/ecs.hpp:41-48 | appends `t` to the system list and writes nothing else |
| Ecs.Manager.Destroyed | src/systems.hpp:96-98 | the state change `DestroyEntity` makes moves the snapshot by `Destroy` |
| Ecs.Manager.DestroyEntity | src/systems.hpp:96-98 | removes `e` from the live set, the entity index, every membership set, every store and every cache, and from nothing else |

## Left out

- All `print()` methods: they only write to the console.
- `SystemManager::getSystem` always returns `NULL`; the rest of its body is commented out.
- The per-system `update` bodies, `float dt`, and the gameplay systems, components and
  main loop are left out. These are the floating-point formulas, `rand()` and rendering
  in `src/systems.hpp`, `src/components.hpp` and `src/main.cpp`. `SystemManager.Update`
  returns the sequence of systems it calls.
- The unused `ComponentManager::next` field.
- Writes through the pointer that `getComponent` returns are not modelled. The model
  returns the value, and it models only the default insertion that `operator[]` performs.
- How `T()` computes its value is not modelled, including the `rand()` calls in some
  component constructors. Each read receives the value as an argument, and no property
  depends on it.
- `createSystem` assigns `t->em`, `t->cm` and `t->sm`, but neither `System` nor any
  concrete system declares those members (`System` declares only `manager`). The model
  leaves the assignments out. `Manager` also has no `update`, though `main.cpp` calls one.
- A system's `manager` back-pointer is not modelled. Aliasing between a system and the
  managers is not modelled either.
- Entity ids and component ids are `uint32_t`. `add` advances the counter without a bound
  check, so the counter can wrap to 0 (`Increment`).
- Ecs.RunIssuesFreshIds: this is stated only for runs in which no `add` wraps the
  counter. After a wrap, `getEntity` hands out ids again (`Ecs.WrapReissues`).
- Ecs.DestroyedNeverReissued: this is stated only for runs in which no `add` wraps the
  counter, for the same reason.
- `getEntity` itself never wraps, because it stops at `MAX_ENTITIES`.
- The templated store is one class generic over a single value type `V`. Component types
  whose C++ value types differ are therefore modelled with one shared `V`, and they are
  distinguished by `ComponentType`.
- `std::set` and `std::unordered_map` iteration order is not modelled. Every loop over
  them picks an arbitrary next element, and every contract is independent of order.
- Ecs.Manager.AddEntityComponent, CreateComponent, CreateSystem, DestroyEntity: these
  methods state their effects field by field, on the objects they write.
  - The step to the value-level picture is proved separately, by the twostate
    lemmas `Attached`, `Registered`, `SystemAppended` and `Destroyed`. `ComponentRead`
    and `Recorded` do the same for `ComponentStore.GetComponent` and
    `EntityManager.Add`. Their hypotheses
    are those postconditions together with the methods' `modifies` frames.
  - The methods do not restate the snapshot themselves.
- Ecs.RegisterPreservesConsistent: this is stated only for a type id that is not yet
  registered. Registering an id again can break the invariants
  (`RegisterAgainBreaksStores`).
- Ecs.RunKeepsConsistent: this is stated only for runs that never call `add` and that
  read components only from entities that hold them. Other runs can break the
  invariants (`Ecs.RecordBreaksLive`, `Ecs.ReadMissingBreaksStores`).
- A run of calls has no step for a tick of `SystemManager::update`. In this model a
  tick is the calls that the systems' `update` bodies make, written as steps of the
  run. `SystemManager.Update` itself changes nothing.
- Ecs.AddSystemPreservesConsistent: this is stated only for a system whose cache starts
  empty, as every concrete system's does.
