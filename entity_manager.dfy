/** The entity manager: hands out entity ids from a counter and records, per entity,
    the set of component type ids it holds. */
module Entities {

  /** Both `Entity` and `Component` are `uint32_t`. */
  const UINT32_LIMIT: int := 0x1_0000_0000
  type Uint32 = x: int | 0 <= x < UINT32_LIMIT
  type Entity = Uint32
  type Component = Uint32

  const MAX_ENTITIES: Entity := 1000000
  /** The reserved id that signals "no entity" and allocation failure. */
  const InvalidEntity: Entity := 0

  /** `next++` on a `uint32_t`: wraps to 0 past the largest value. */
  function Increment(n: Uint32): (r: Uint32)
    ensures r == (n + 1) % UINT32_LIMIT
  {
    if n + 1 == UINT32_LIMIT then 0 else n + 1
  }

  /** The outcome of one `getEntity` call: the id returned and the new counter. */
  datatype Allocation = Allocation(id: Entity, next: Entity)

  /** `getEntity` on counter `next`: fails with `InvalidEntity` once the counter has
      reached `MAX_ENTITIES`, otherwise returns the counter and post-increments it. */
  function Allocate(next: Entity): (a: Allocation)
    ensures a.next >= next
    ensures a.id == InvalidEntity || a.id == next
    ensures a.id != InvalidEntity ==> a.next == a.id + 1
  {
    if next >= MAX_ENTITIES then Allocation(InvalidEntity, next)
    else Allocation(next, next + 1)
  }

  /** The ids returned by `n` successive `getEntity` calls starting from counter `next`. */
  function AllocateMany(next: Entity, n: nat): (ids: seq<Entity>)
    ensures |ids| == n
    decreases n
  {
    if n == 0 then [] else
      var a := Allocate(next);
      [a.id] + AllocateMany(a.next, n - 1)
  }

  /** The counter after `n` successive `getEntity` calls starting from `next`. */
  function NextAfter(next: Entity, n: nat): (r: Entity)
    decreases n
  {
    if n == 0 then next else NextAfter(Allocate(next).next, n - 1)
  }

  /** Successive calls return consecutive ids starting at the counter, until the
      counter reaches `MAX_ENTITIES`; from then on every call fails. */
  lemma {:induction false} AllocateManyIds(next: Entity, n: nat)
    ensures forall i :: 0 <= i < n ==>
      AllocateMany(next, n)[i] == if next + i < MAX_ENTITIES then next + i else InvalidEntity
    decreases n
  {
    if n > 0 {
      var a := Allocate(next);
      AllocateManyIds(a.next, n - 1);
      var ids := AllocateMany(next, n);
      assert ids == [a.id] + AllocateMany(a.next, n - 1);
      forall i | 1 <= i < n
        ensures ids[i] == if next + i < MAX_ENTITIES then next + i else InvalidEntity
      {
        assert ids[i] == AllocateMany(a.next, n - 1)[i - 1];
      }
    }
  }

  /** The counter never goes down, and it stops at `MAX_ENTITIES`. */
  lemma {:induction false} NextAfterBounds(next: Entity, n: nat)
    ensures NextAfter(next, n) >= next
    ensures next <= MAX_ENTITIES ==> NextAfter(next, n) == if next + n < MAX_ENTITIES then next + n else MAX_ENTITIES
    ensures next >= MAX_ENTITIES ==> NextAfter(next, n) == next
    decreases n
  {
    if n > 0 {
      NextAfterBounds(Allocate(next).next, n - 1);
    }
  }

  /** From a fresh manager (counter 1) the first call returns 1, the i-th returns i,
      and exactly `MAX_ENTITIES - 1` calls succeed before every further call fails. */
  lemma FreshAllocations(n: nat)
    ensures forall i :: 0 <= i < n ==>
      (AllocateMany(1, n)[i] != InvalidEntity <==> i < MAX_ENTITIES - 1)
    ensures forall i :: 0 <= i < n && i < MAX_ENTITIES - 1 ==> AllocateMany(1, n)[i] == i + 1
  {
    AllocateManyIds(1, n);
  }

  /** No id is returned twice: the successful results of successive calls rise strictly. */
  lemma AllocationsDistinct(next: Entity, n: nat)
    ensures var ids := AllocateMany(next, n);
      forall i, j :: 0 <= i < j < n && ids[i] != InvalidEntity && ids[j] != InvalidEntity ==> ids[i] < ids[j]
  {
    AllocateManyIds(next, n);
  }

  /** After `add` has recorded an entity under counter `next`, no later successful
      `getEntity` returns `next`, whatever the counter was: past the largest value `add`
      wraps the counter to 0, from where `getEntity` counts up to `MAX_ENTITIES` only. */
  lemma AddedIdNeverIssued(next: Entity, n: nat)
    ensures forall i :: 0 <= i < n && AllocateMany(Increment(next), n)[i] != InvalidEntity ==>
      AllocateMany(Increment(next), n)[i] != next
  {
    var ids := AllocateMany(Increment(next), n);
    AllocateManyIds(Increment(next), n);
    forall i | 0 <= i < n && ids[i] != InvalidEntity
      ensures ids[i] != next
    {
      if Increment(next) == 0 {
        assert ids[i] < MAX_ENTITIES < next;
      }
    }
  }

  class EntityManager {
    /** The id the next successful `getEntity` returns. */
    var next: Entity
    /** Entities that have been given a component. */
    var allEntities: set<Entity>
    /** Per entity, the component type ids it holds. */
    var entities: map<Entity, set<Component>>

    constructor ()
      ensures next == 1 && allEntities == {} && entities == map[]
    {
      next := 1;
      allEntities := {};
      entities := map[];
    }

    /** Records `components` under the current counter and advances the counter,
        without a bound check (so a `uint32_t` counter wraps). */
    method Add(components: set<Component>)
      modifies this`entities, this`next
      ensures entities == old(entities)[old(next) := components]
      ensures next == Increment(old(next))
    {
      entities := entities[next := components];
      next := Increment(next);
    }

    /** Forgets `e`: erases it from the live set and from the entity index. */
    method RemoveEntity(e: Entity)
      requires e != InvalidEntity
      modifies this`allEntities, this`entities
      ensures allEntities == old(allEntities) - {e}
      ensures entities == old(entities) - {e}
    {
      allEntities := allEntities - {e};
      entities := entities - {e};
    }

    /** Hands out the next id, or `InvalidEntity` once `MAX_ENTITIES` is reached;
        only the counter changes. */
    method GetEntity() returns (e: Entity)
      modifies this`next
      ensures e == Allocate(old(next)).id
      ensures next == Allocate(old(next)).next
    {
      if next >= MAX_ENTITIES {
        return InvalidEntity;
      }
      e := next;
      next := next + 1;
    }
  }
}
