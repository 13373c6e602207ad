/**
  `SingleMutQuery<T>`: like `SingleQuery`, but its `iter` hands out mutable
  references to the present values; whatever was written through them is what
  `Drop` checks back in.
 */
module SingleMutQueryView {
  import opened Columns

  class SingleMutQuery<V> {
    /** `TypeId::of::<T>()`. */
    const tag: TypeId
    /** `row: Option<Vec<Option<T>>>`; `None` once `Drop` has taken it. */
    var row: Option<Row<V>>
    /** The shared map the row is written back into. */
    const components: ComponentMap<V>

    /** `SingleMutQuery::new`: panics unless every present slot is a `T`. */
    constructor (tag: TypeId, row: Column<V>, components: ComponentMap<V>)
      requires Tagged(row, tag)
      ensures this.tag == tag && this.components == components
      ensures this.row == Some(Typed(row, tag))
    {
      this.tag := tag;
      this.row := Some(Typed(row, tag));
      this.components := components;
    }

    /**
      `iter` followed by the caller's writes: every present value `x` becomes
      `f(x)`, in index order; absent slots and the length stay as they were.
     */
    method IterMut(f: V -> V)
      requires row.Some?
      modifies this
      ensures row == Some(MapPresent(f, old(row).value))
    {
      ghost var before := row.value;
      var i := 0;
      while i < |row.value|
        invariant row.Some? && |row.value| == |before|
        invariant 0 <= i <= |before|
        invariant forall j :: 0 <= j < i ==> row.value[j] == MapPresent(f, before)[j]
        invariant forall j :: i <= j < |before| ==> row.value[j] == before[j]
      {
        if row.value[i].Some? {
          row := Some(row.value[i := Some(f(row.value[i].value))]);
        }
        i := i + 1;
      }
      assert row.value == MapPresent(f, before);
    }

    /** `Drop`: boxes the (possibly updated) row and inserts it under `T`. */
    method Release()
      requires row.Some?
      modifies this, components
      ensures row == None
      ensures components.columns == old(components.columns)[tag := Erased(old(row).value, tag)]
    {
      var typed := row.value;
      row := None;
      components.columns := components.columns[tag := Erased(typed, tag)];
    }
  }

  /**
    Check a column out, update it through the query, drop the query: the map
    holds the updated column, with the same length and presence pattern.
   */
  method UpdateThroughQuery<V>(components: ComponentMap<V>, t: TypeId, f: V -> V)
    requires t in components.columns && Tagged(components.columns[t], t)
    modifies components
    ensures forall k :: k in components.columns <==> k in old(components.columns)
    ensures forall k :: k in components.columns && k != t ==> components.columns[k] == old(components.columns)[k]
    ensures |components.columns[t]| == |old(components.columns)[t]|
    ensures forall i :: 0 <= i < |components.columns[t]| ==>
      (components.columns[t][i].Some? <==> old(components.columns)[t][i].Some?)
    ensures Tagged(components.columns[t], t)
    ensures Present(Typed(components.columns[t], t)) == MapSeq(f, Present(Typed(old(components.columns)[t], t)))
  {
    var column := components.columns[t];
    components.columns := components.columns - {t};
    var q := new SingleMutQuery(t, column, components);
    q.IterMut(f);
    q.Release();
    MutationVisibleToQuery(column, t, f);
  }
}
