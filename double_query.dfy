/**
  `DoubleQuery<T, U>`: a read-only view owning two columns checked out of the
  shared component map; `iter` inner-joins them by entity index.
 */
module DoubleQueryView {
  import opened Columns

  class DoubleQuery<V> {
    /** `TypeId::of::<T>()` and `TypeId::of::<U>()`. */
    const tagT: TypeId
    const tagU: TypeId
    /** `row_t` and `row_u`; `None` once `Drop` has taken them. */
    var rowT: Option<Row<V>>
    var rowU: Option<Row<V>>
    /** The shared map both rows are written back into. */
    const components: ComponentMap<V>

    /**
      `DoubleQuery::new`: each row is downcast on its own; panics unless every
      present slot of `row_t` is a `T` and every present slot of `row_u` a `U`.
     */
    constructor (tagT: TypeId, tagU: TypeId, rowT: Column<V>, rowU: Column<V>, components: ComponentMap<V>)
      requires Tagged(rowT, tagT) && Tagged(rowU, tagU)
      ensures this.tagT == tagT && this.tagU == tagU && this.components == components
      ensures this.rowT == Some(Typed(rowT, tagT)) && this.rowU == Some(Typed(rowU, tagU))
    {
      this.tagT, this.tagU := tagT, tagU;
      this.rowT := Some(Typed(rowT, tagT));
      this.rowU := Some(Typed(rowU, tagU));
      this.components := components;
    }

    /**
      `iter`: a pair `(t, u)` for exactly the indices below both lengths where
      both rows are present, in index order. Reading leaves both rows as they are.
     */
    function Iter(): (r: seq<(V, V)>)
      reads this
      requires rowT.Some? && rowU.Some?
      ensures ListsJoined(rowT.value, rowU.value, r)
    {
      Joined(rowT.value, rowU.value)
    }

    /**
      `Drop`: boxes both rows again and inserts the `T` row, then the `U` row,
      each under its own type, overwriting what the map holds for them.
     */
    method Release()
      requires rowT.Some? && rowU.Some?
      modifies this, components
      ensures rowT == None && rowU == None
      ensures components.columns == old(components.columns)
        [tagT := Erased(old(rowT).value, tagT)][tagU := Erased(old(rowU).value, tagU)]
    {
      var typedT, typedU := rowT.value, rowU.value;
      rowT, rowU := None, None;
      components.columns := components.columns[tagT := Erased(typedT, tagT)];
      components.columns := components.columns[tagU := Erased(typedU, tagU)];
    }
  }

  /**
    Checking two distinct columns out into a `DoubleQuery` and dropping it
    puts both columns back as they were; no other column is touched.
   */
  method CheckOutAndInTwo<V>(components: ComponentMap<V>, t: TypeId, u: TypeId)
    requires t != u && t in components.columns && u in components.columns
    requires Tagged(components.columns[t], t) && Tagged(components.columns[u], u)
    modifies components
    ensures components.columns == old(components.columns)
  {
    var columnT, columnU := components.columns[t], components.columns[u];
    components.columns := components.columns - {t, u};
    var q := new DoubleQuery(t, u, columnT, columnU, components);
    q.Release();
    CheckinUndoesCheckout(columnT, t);
    CheckinUndoesCheckout(columnU, u);
  }
}
