/** The system manager: an ordered list of systems, each with a required set of
    component type ids and a cache of the entities it operates on. The cache is
    updated step by step whenever a component is added. */
module Systems {
  import opened Entities

  /** What a system holds: its required component type ids and its entity cache. */
  datatype SystemState = SystemState(required: set<Component>, entities: set<Entity>)

  /** A system's cache after `updateEntity(e, c)`: `e` joins exactly when every
      required type id is in `c`; nothing ever leaves. */
  function Join(cache: set<Entity>, required: set<Component>, e: Entity, c: set<Component>): (r: set<Entity>)
    ensures e in r <==> e in cache || required <= c
    ensures r - {e} == cache - {e}
  {
    if required <= c then cache + {e} else cache
  }

  /** Every system after `updateEntity(e, c)`. */
  function UpdateAll(systems: seq<SystemState>, e: Entity, c: set<Component>): (r: seq<SystemState>)
    ensures |r| == |systems|
    ensures forall i :: 0 <= i < |r| ==> r[i].required == systems[i].required
    ensures forall i :: 0 <= i < |r| ==> r[i].entities == Join(systems[i].entities, systems[i].required, e, c)
  {
    seq(|systems|, i requires 0 <= i < |systems| =>
      systems[i].(entities := Join(systems[i].entities, systems[i].required, e, c)))
  }

  /** Every system after `removeEntity(e)`. */
  function RemoveAll(systems: seq<SystemState>, e: Entity): (r: seq<SystemState>)
    ensures |r| == |systems|
    ensures forall i :: 0 <= i < |r| ==> r[i].required == systems[i].required
    ensures forall i :: 0 <= i < |r| ==> r[i].entities == systems[i].entities - {e}
  {
    seq(|systems|, i requires 0 <= i < |systems| =>
      systems[i].(entities := systems[i].entities - {e}))
  }

  /** `updateEntity` never removes an entity from any cache. */
  lemma UpdateAllGrows(systems: seq<SystemState>, e: Entity, c: set<Component>, i: nat)
    requires i < |systems|
    ensures systems[i].entities <= UpdateAll(systems, e, c)[i].entities
  {
  }

  /** A second `updateEntity(e, c)` changes nothing. */
  lemma UpdateAllIdempotent(systems: seq<SystemState>, e: Entity, c: set<Component>)
    ensures UpdateAll(UpdateAll(systems, e, c), e, c) == UpdateAll(systems, e, c)
  {
    var once := UpdateAll(systems, e, c);
    var twice := UpdateAll(once, e, c);
    assert forall i :: 0 <= i < |twice| ==> twice[i] == once[i];
  }

  /** A system that requires nothing receives every entity passed to `updateEntity`. */
  lemma EmptyRequirementJoins(systems: seq<SystemState>, e: Entity, c: set<Component>, i: nat)
    requires i < |systems| && systems[i].required == {}
    ensures e in UpdateAll(systems, e, c)[i].entities
  {
  }

  /** The inner loop of `updateEntity`: `valid` stays true until some required type id
      is missing from `c`, and the loop then stops early. */
  method RequiresMet(required: set<Component>, c: set<Component>) returns (valid: bool)
    ensures valid <==> required <= c
  {
    valid := true;
    var rest := required;
    while rest != {}
      invariant rest <= required
      invariant required - rest <= c
      decreases rest
    {
      var r :| r in rest;
      if r !in c {
        valid := false;
        break;
      }
      rest := rest - {r};
    }
  }

  /** A system; its per-tick `update` is opaque here. */
  class System {
    var entities: set<Entity>
    var required: set<Component>

    /** A concrete system as its constructor leaves it: `required` filled in and an
        empty cache. */
    constructor (required: set<Component>)
      ensures this.required == required && entities == {}
    {
      this.required := required;
      entities := {};
    }

    method RemoveEntity(e: Entity)
      modifies this`entities
      ensures entities == old(entities) - {e}
    {
      entities := entities - {e};
    }
  }

  /** The required set and cache of each system in `ss`, in order. */
  ghost function StatesOf(ss: seq<System>): (r: seq<SystemState>)
    reads ss`required, ss`entities
    ensures |r| == |ss|
    ensures forall i :: 0 <= i < |ss| ==> r[i] == SystemState(ss[i].required, ss[i].entities)
  {
    if ss == [] then [] else [SystemState(ss[0].required, ss[0].entities)] + StatesOf(ss[1..])
  }


  class SystemManager {
    /** Registration order is execution order; the same system may appear twice. */
    var systems: seq<System>

    /** The required set and cache of every listed system, in list order. */
    ghost function States(): (r: seq<SystemState>)
      reads this`systems, systems`required, systems`entities
    {
      StatesOf(systems)
    }

    /** When every listed system's cache lost `e`, the states are `RemoveAll` of the old ones. */
    twostate lemma StatesRemoved(e: Entity)
      requires systems == old(systems)
      requires forall s :: s in systems ==> s.required == old(s.required)
      requires forall s :: s in systems ==> s.entities == old(s.entities) - {e}
      ensures States() == RemoveAll(old(States()), e)
    {
    }

    /** While neither the list nor any listed system changed, neither did `States()`. */
    twostate lemma StatesUnchanged()
      requires systems == old(systems)
      requires forall s :: s in systems ==> s.required == old(s.required) && s.entities == old(s.entities)
      ensures States() == old(States())
    {
    }

    constructor ()
      ensures systems == []
    {
      systems := [];
    }

    /** Runs every system once, in list order; returns the systems in the order called. */
    method Update(dt: real) returns (calls: seq<System>)
      ensures calls == systems
    {
      calls := [];
      var i := 0;
      while i < |systems|
        invariant 0 <= i <= |systems|
        invariant calls == systems[..i]
      {
        calls := calls + [systems[i]];
        i := i + 1;
      }
    }

    /** Erases `e` from every system's cache; the list and every required set stay. */
    method RemoveEntity(e: Entity)
      modifies systems`entities
      ensures forall s :: s in systems ==> s.entities == old(s.entities) - {e}
    {
      var i := 0;
      while i < |systems|
        invariant 0 <= i <= |systems|
        invariant forall s :: s in systems ==> s.required == old(s.required)
        invariant forall s :: s in systems ==>
          s.entities == if s in systems[..i] then old(s.entities) - {e} else old(s.entities)
      {
        systems[i].RemoveEntity(e);
        i := i + 1;
      }
      assert systems[..i] == systems;
    }

    /** Puts `e` into the cache of every system whose required set is a subset of `c`;
        the list and every required set stay. */
    method UpdateEntity(e: Entity, c: set<Component>)
      modifies systems`entities
      ensures forall s :: s in systems ==> s.entities == Join(old(s.entities), s.required, e, c)
    {
      var i := 0;
      while i < |systems|
        invariant 0 <= i <= |systems|
        invariant forall s :: s in systems ==> s.required == old(s.required)
        invariant forall s :: s in systems ==>
          s.entities == if s in systems[..i] then Join(old(s.entities), s.required, e, c) else old(s.entities)
      {
        var s := systems[i];
        var valid := RequiresMet(s.required, c);
        if valid {
          s.entities := s.entities + {e};
        }
        i := i + 1;
      }
      assert systems[..i] == systems;
    }

    /** Appends `t`, keeping the systems already listed in their order. */
    method AddSystem(t: System)
      modifies this`systems
      ensures systems == old(systems) + [t]
    {
      systems := systems + [t];
    }
  }
}
