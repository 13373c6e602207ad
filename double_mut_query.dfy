/**
  `DoubleMutQuery<T, U>`: like `DoubleQuery`, but `iter` hands out mutable
  references to both values of every joined pair; `Drop` checks both
  (possibly updated) rows back in.
 */
module DoubleMutQueryView {
  import opened Columns

  class DoubleMutQuery<V> {
    /** `TypeId::of::<T>()` and `TypeId::of::<U>()`. */
    const tagT: TypeId
    const tagU: TypeId
    /** `row_t` and `row_u`; `None` once `Drop` has taken them. */
    var rowT: Option<Row<V>>
    var rowU: Option<Row<V>>
    /** The shared map both rows are written back into. */
    const components: ComponentMap<V>

    /** `DoubleMutQuery::new`: panics on a slot of the wrong type in either row. */
    constructor (tagT: TypeId, tagU: TypeId, rowT: Column<V>, rowU: Column<V>, components: ComponentMap<V>)
      requires Tagged(rowT, tagT) && Tagged(rowU, tagU)
      ensures this.tagT == tagT && this.tagU == tagU && this.components == components
      ensures this.rowT == Some(Typed(rowT, tagT)) && this.rowU == Some(Typed(rowU, tagU))
    {
      this.tagT, this.tagU := tagT, tagU;
      this.rowT := Some(Typed(rowT, tagT));
      this.rowU := Some(Typed(rowU, tagU));
      this.components := components;
    }

    /**
      `iter` followed by the caller's writes: at every index below both lengths
      where both rows are present, in index order, the pair `(t, u)` becomes
      `f(t, u)`; every other slot stays as it was.
     */
    method IterMut(f: (V, V) -> (V, V))
      requires rowT.Some? && rowU.Some?
      modifies this
      ensures rowT == Some(JoinUpdate(old(rowT).value, old(rowU).value, f).0)
      ensures rowU == Some(JoinUpdate(old(rowT).value, old(rowU).value, f).1)
    {
      ghost var a, b := rowT.value, rowU.value;
      ghost var goal := JoinUpdate(a, b, f);
      var i := 0;
      while i < |rowT.value| && i < |rowU.value|
        invariant rowT.Some? && rowU.Some? && |rowT.value| == |a| && |rowU.value| == |b|
        invariant 0 <= i <= Min(|a|, |b|)
        invariant forall j :: 0 <= j < i ==> rowT.value[j] == goal.0[j]
        invariant forall j :: 0 <= j < i ==> rowU.value[j] == goal.1[j]
        invariant forall j :: i <= j < |a| ==> rowT.value[j] == a[j]
        invariant forall j :: i <= j < |b| ==> rowU.value[j] == b[j]
      {
        if rowT.value[i].Some? && rowU.value[i].Some? {
          var p := f(rowT.value[i].value, rowU.value[i].value);
          rowT := Some(rowT.value[i := Some(p.0)]);
          rowU := Some(rowU.value[i := Some(p.1)]);
        }
        i := i + 1;
      }
      assert rowT.value == goal.0;
      assert rowU.value == goal.1;
    }

    /** `Drop`: inserts the `T` row, then the `U` row, each under its own type. */
    method Release()
      requires rowT.Some? && rowU.Some?
      modifies this, components
      ensures rowT == None && rowU == None
      ensures components.columns == old(components.columns)
        [tagT := Erased(old(rowT).value, tagT)][tagU := Erased(old(rowU).value, tagU)]
    {
      var typedT, typedU := rowT.value, rowU.value;
      rowT, rowU := None, None;
      components.columns := components.columns[tagT := Erased(typedT, tagT)];
      components.columns := components.columns[tagU := Erased(typedU, tagU)];
    }
  }

  /**
    Check two distinct columns out, update the joined pairs, drop the query:
    both columns are back with their lengths and presence patterns, and a join
    over them yields exactly the updated pairs.
   */
  method UpdateThroughQuery<V>(components: ComponentMap<V>, t: TypeId, u: TypeId, f: (V, V) -> (V, V))
    requires t != u && t in components.columns && u in components.columns
    requires Tagged(components.columns[t], t) && Tagged(components.columns[u], u)
    modifies components
    ensures forall k :: k in components.columns <==> k in old(components.columns)
    ensures forall k :: k in components.columns && k != t && k != u ==>
      components.columns[k] == old(components.columns)[k]
    ensures |components.columns[t]| == |old(components.columns)[t]|
    ensures |components.columns[u]| == |old(components.columns)[u]|
    ensures forall i :: 0 <= i < |components.columns[t]| ==>
      (components.columns[t][i].Some? <==> old(components.columns)[t][i].Some?)
    ensures forall i :: 0 <= i < |components.columns[u]| ==>
      (components.columns[u][i].Some? <==> old(components.columns)[u][i].Some?)
    ensures Tagged(components.columns[t], t) && Tagged(components.columns[u], u)
    ensures Joined(Typed(components.columns[t], t), Typed(components.columns[u], u))
         == MapSeq((p: (V, V)) => f(p.0, p.1),
                   Joined(Typed(old(components.columns)[t], t), Typed(old(components.columns)[u], u)))
  {
    var columnT, columnU := components.columns[t], components.columns[u];
    components.columns := components.columns - {t, u};
    var q := new DoubleMutQuery(t, u, columnT, columnU, components);
    q.IterMut(f);
    var rowT, rowU := q.rowT.value, q.rowU.value;
    q.Release();
    var a, b := Typed(columnT, t), Typed(columnU, u);
    CheckoutUndoesCheckin(rowT, t);
    CheckoutUndoesCheckin(rowU, u);
    JoinedAfterUpdate(a, b, f);
  }
}
