/**
  `SingleQuery<T>`: a read-only view that owns one column checked out of the
  shared component map, downcast to `T`, until it is dropped.
 */
module SingleQueryView {
  import opened Columns

  class SingleQuery<V> {
    /** `TypeId::of::<T>()`. */
    const tag: TypeId
    /** `row: Option<Vec<Option<T>>>`; `None` once `Drop` has taken it. */
    var row: Option<Row<V>>
    /** The shared map the row is written back into. */
    const components: ComponentMap<V>

    /** `SingleQuery::new`: panics unless every present slot is a `T`. */
    constructor (tag: TypeId, row: Column<V>, components: ComponentMap<V>)
      requires Tagged(row, tag)
      ensures this.tag == tag && this.components == components
      ensures this.row == Some(Typed(row, tag))
    {
      this.tag := tag;
      this.row := Some(Typed(row, tag));
      this.components := components;
    }

    /** `iter`: the present values of the row, in index order. */
    function Iter(): (r: seq<V>)
      reads this
      requires row.Some?
      ensures ListsPresent(row.value, r)
    {
      Present(row.value)
    }

    /**
      `Drop`: boxes the row again and inserts it under `T`, overwriting any
      column the map holds for `T` by then.
     */
    method Release()
      requires row.Some?
      modifies this, components
      ensures row == None
      ensures components.columns == old(components.columns)[tag := Erased(old(row).value, tag)]
    {
      var typed := row.value;
      row := None;
      components.columns := components.columns[tag := Erased(typed, tag)];
    }
  }

  /**
    Checking a column out into a `SingleQuery` and dropping the query puts the
    very same column back.
   */
  method CheckOutAndIn<V>(components: ComponentMap<V>, t: TypeId)
    requires t in components.columns && Tagged(components.columns[t], t)
    modifies components
    ensures components.columns == old(components.columns)
  {
    var column := components.columns[t];
    components.columns := components.columns - {t};
    var q := new SingleQuery(t, column, components);
    q.Release();
    CheckinUndoesCheckout(column, t);
  }
}
