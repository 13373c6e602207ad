/**
  The direct entity store: columns live in the store's own map and queries
  read or update them in place; nothing is ever checked out.
 */
module DirectStore {
  import opened Columns

  class EntitySystem<V> {
    /** `components: HashMap<TypeId, Vec<Option<Box<dyn Any>>>>`. */
    var components: map<TypeId, Column<V>>
    /** `amount_of_entities: u64`. */
    var amountOfEntities: nat

    /**
      Every column has one slot per entity and holds boxes of its own type.
     */
    ghost predicate Valid()
      reads this
    {
      && WellTyped(components)
      && forall t :: t in components ==> |components[t]| == amountOfEntities
    }

    /** `EntitySystem::new`: no entities, no columns. */
    constructor ()
      ensures Valid()
      ensures components == map[] && amountOfEntities == 0
    {
      components := map[];
      amountOfEntities := 0;
    }

    /**
      `add_entity`: one more entity; every existing column gets one absent slot
      at the end and no column is created.
     */
    method AddEntity()
      requires Valid()
      modifies this
      ensures Valid()
      ensures amountOfEntities == old(amountOfEntities) + 1
      ensures components == PadAll(old(components))
    {
      var pending := components.Keys;
      while pending != {}
        invariant pending <= components.Keys
        invariant forall k :: (k in components) == (k in old(components))
        invariant amountOfEntities == old(amountOfEntities)
        invariant forall k :: k in components ==>
          components[k] == if k in pending then old(components)[k] else old(components)[k] + [None]
        decreases pending
      {
        NonEmptyHasMember(pending);
        var t: TypeId :| t in pending;
        components := components[t := components[t] + [None]];
        pending := pending - {t};
      }
      amountOfEntities := amountOfEntities + 1;
      MapsEqual(components, PadAll(old(components)));
    }

    /**
      `with`: panics when there is no entity. Otherwise the column of `t`
      (created as `amount_of_entities` absent slots if missing) gets the
      component in the slot of the last entity; nothing else changes.
     */
    method With(t: TypeId, component: V)
      requires Valid()
      requires amountOfEntities > 0
      modifies this
      ensures Valid()
      ensures amountOfEntities == old(amountOfEntities)
      ensures components == WithComponent(old(components), t, amountOfEntities, component)
    {
      WithComponentWellTyped(components, t, amountOfEntities, component);
      var column := if t in components then components[t] else Nones(amountOfEntities);
      components := components[t := column[|column| - 1 := Some(Boxed(t, component))]];
    }

    /**
      `query_with_one`: the values of the present slots of `t`'s column in
      index order, and nothing when `t` has no column.
     */
    function QueryWithOne(t: TypeId): (r: seq<V>)
      reads this
      requires Valid()
      ensures t !in components ==> r == []
      ensures t in components ==> ListsPresent(Typed(components[t], t), r)
    {
      if t in components then Present(Typed(components[t], t)) else []
    }

    /**
      `mut_query_with_one` followed by the caller's writes: each present value
      `x` of `t`'s column becomes `f(x)` in place; absent slots, the column's
      length and every other column are unchanged. No column, no effect.
     */
    method MutQueryWithOne(t: TypeId, f: V -> V)
      requires Valid()
      modifies this
      ensures Valid()
      ensures amountOfEntities == old(amountOfEntities)
      ensures components == if t in old(components)
        then old(components)[t := Erased(MapPresent(f, Typed(old(components)[t], t)), t)]
        else old(components)
    {
      if t in components {
        var column := UpdatePresent(components[t], t, f);
        components := components[t := column];
      }
    }

    /**
      `query_with_two`: a pair for exactly the indices where both `t`'s and
      `y`'s columns are present, in index order; nothing if either column is
      missing.
     */
    function QueryWithTwo(t: TypeId, y: TypeId): (r: seq<(V, V)>)
      reads this
      requires Valid()
      ensures t !in components || y !in components ==> r == []
      ensures t in components && y in components ==>
        ListsJoined(Typed(components[t], t), Typed(components[y], y), r)
    {
      if t in components && y in components
      then Joined(Typed(components[t], t), Typed(components[y], y))
      else []
    }
  }

  /**
    The walk `mut_query_with_one` hands out over the column of `t`: slot by
    slot, a present value `x` becomes `f(x)` and an absent slot is skipped.
   */
  method UpdatePresent<V>(column: Column<V>, t: TypeId, f: V -> V) returns (updated: Column<V>)
    requires Tagged(column, t)
    ensures updated == Erased(MapPresent(f, Typed(column, t)), t)
  {
    updated := column;
    var i := 0;
    while i < |updated|
      invariant |updated| == |column| && 0 <= i <= |updated|
      invariant forall j :: 0 <= j < i ==>
        updated[j] == if column[j].Some? then Some(Boxed(t, f(column[j].value.payload))) else None
      invariant forall j :: i <= j < |updated| ==> updated[j] == column[j]
    {
      if updated[i].Some? {
        var value := Downcast(updated[i].value, t);
        updated := updated[i := Some(Boxed(t, f(value)))];
      }
      i := i + 1;
    }
    ghost var after := Erased(MapPresent(f, Typed(column, t)), t);
    forall j | 0 <= j < |column|
      ensures updated[j] == after[j]
    {
      UpdatedSlot(column, t, f, j);
    }
  }
}
