/**
  The checkout store: the columns live in a map shared with the queries
  (`Arc<Mutex<HashMap<..>>>`). Creating a query takes its columns out of the
  map, the query is cached in the store under a type key, and dropping the
  query puts its (possibly updated) rows back.
 */
module CheckoutStore {
  import opened Columns
  import opened SingleQueryView
  import opened SingleMutQueryView
  import opened DoubleQueryView
  import opened DoubleMutQueryView

  /** The key a query is cached under: `TypeId::of::<T>()` or `TypeId::of::<(A, B)>()`. */
  datatype QueryKey = Of(t: TypeId) | PairOf(first: TypeId, second: TypeId)

  /**
    How an entry of `queris` is stored: as a plain `Box` of the query, or as a
    `Box` around an `Arc` handle shared with other owners.
   */
  datatype EntryType = BoxedQuery | SharedQuery

  /**
    An entry of `queris`: the `Box<dyn Any>` holds a single or a double read
    query, stored as `kind`.
   */
  datatype ReadQuery<V> =
    | ReadOne(single: SingleQuery<V>, kind: EntryType)
    | ReadTwo(double: DoubleQuery<V>, kind: EntryType)

  /** An entry of `mut_queris`: a single or a double mutable query. */
  datatype MutQuery<V> = MutOne(single: SingleMutQuery<V>) | MutTwo(double: DoubleMutQuery<V>)

  function ReadObject<V>(e: ReadQuery<V>): object
  {
    match e
    case ReadOne(q, _) => q
    case ReadTwo(q, _) => q
  }

  function MutObject<V>(e: MutQuery<V>): object
  {
    match e
    case MutOne(q) => q
    case MutTwo(q) => q
  }

  /**
    `query_with_two::<T, U>` caches its query under the tuple of the two types
    with the larger type id first, so both orders of the same two types share
    one key.
   */
  function ReadPairKey(t: TypeId, u: TypeId): (k: QueryKey)
    requires t != u
    ensures k.PairOf? && k.first > k.second
    ensures (k.first == t && k.second == u) || (k.first == u && k.second == t)
  {
    if t > u then PairOf(t, u) else PairOf(u, t)
  }

  /** The order of the two types does not change the key. */
  lemma ReadPairKeySymmetric(t: TypeId, u: TypeId)
    requires t != u
    ensures ReadPairKey(t, u) == ReadPairKey(u, t)
  {
  }

  /**
    A read entry sits under its own key, shares the store's map, still holds
    its rows, and has no more slots than there are entities. A double query
    is keyed by its two types, the larger type id first.
   */
  ghost predicate ReadEntryValid<V>(k: QueryKey, e: ReadQuery<V>, components: ComponentMap<V>, amount: nat)
    reads ReadObject(e)
  {
    match e
    case ReadOne(q, kind) =>
      && kind == BoxedQuery && k == Of(q.tag) && q.components == components
      && q.row.Some? && |q.row.value| <= amount
    case ReadTwo(q, kind) =>
      && kind == BoxedQuery && k == PairOf(q.tagT, q.tagU) && q.tagT > q.tagU && q.components == components
      && q.rowT.Some? && q.rowU.Some?
      && |q.rowT.value| <= amount && |q.rowU.value| <= amount
  }

  /** As `ReadEntryValid`, for a mutable entry; its key keeps the order it was asked in. */
  ghost predicate MutEntryValid<V>(k: QueryKey, e: MutQuery<V>, components: ComponentMap<V>, amount: nat)
    reads MutObject(e)
  {
    match e
    case MutOne(q) =>
      && k == Of(q.tag) && q.components == components
      && q.row.Some? && |q.row.value| <= amount
    case MutTwo(q) =>
      && k == PairOf(q.tagT, q.tagU) && q.tagT != q.tagU && q.components == components
      && q.rowT.Some? && q.rowU.Some?
      && |q.rowT.value| <= amount && |q.rowU.value| <= amount
  }

  class EntitySystem<V> {
    /** `components: Arc<Mutex<HashMap<TypeId, Vec<Option<Box<dyn Any>>>>>>`. */
    const components: ComponentMap<V>
    /** `queris`: the cached read queries. */
    var queris: map<QueryKey, ReadQuery<V>>
    /** `mut_queris`: the cached mutable queries. */
    var mutQueris: map<QueryKey, MutQuery<V>>
    /** `amount_of_entities: u64`. */
    var amountOfEntities: nat
    /** The shared map and every cached query. */
    ghost var Repr: set<object>

    /**
      The map holds boxes of each column's own type, no column is longer than
      the number of entities (a column that is checked out misses the slots of
      entities added meanwhile), and every cached query is valid.
     */
    ghost predicate Valid()
      reads this, Repr
    {
      && components in Repr
      && WellTyped(components.columns)
      && (forall t :: t in components.columns ==> |components.columns[t]| <= amountOfEntities)
      && (forall k :: k in queris ==> ReadObject(queris[k]) in Repr && ReadEntryValid(k, queris[k], components, amountOfEntities))
      && (forall k :: k in mutQueris ==> MutObject(mutQueris[k]) in Repr && MutEntryValid(k, mutQueris[k], components, amountOfEntities))
    }

    /** The mutable query cached under `k`, as a frame. */
    ghost function MutObjectsAt(k: QueryKey): set<object>
      reads this
    {
      if k in mutQueris then {MutObject(mutQueris[k])} else {}
    }

    /** The read query cached under `k`, as a frame. */
    ghost function ReadObjectsAt(k: QueryKey): set<object>
      reads this
    {
      if k in queris then {ReadObject(queris[k])} else {}
    }

    /**
      What a read of `t` sees: the row of the cached single query, or else the
      resident column of `t`.
     */
    ghost function ReadRowOf(t: TypeId): Row<V>
      reads this, Repr
      requires Valid()
      requires Of(t) in queris || t in components.columns
    {
      if Of(t) in queris then queris[Of(t)].single.row.value else Typed(components.columns[t], t)
    }

    /**
      What a read of the pair `(t, u)` sees: the rows of the cached double
      query, put back in the order asked for, or else the resident columns.
     */
    ghost function ReadRowsOf(t: TypeId, u: TypeId): (Row<V>, Row<V>)
      reads this, Repr
      requires Valid() && t != u
      requires ReadPairKey(t, u) in queris || (t in components.columns && u in components.columns)
    {
      var k := ReadPairKey(t, u);
      if k in queris then
        var q := queris[k].double;
        if q.tagT == t then (q.rowT.value, q.rowU.value) else (q.rowU.value, q.rowT.value)
      else
        (Typed(components.columns[t], t), Typed(components.columns[u], u))
    }

    /** What a mutable iteration over `t` works on: the cached row or the resident column. */
    ghost function MutRowOf(t: TypeId): Row<V>
      reads this, Repr
      requires Valid()
      requires Of(t) in mutQueris || t in components.columns
    {
      if Of(t) in mutQueris then mutQueris[Of(t)].single.row.value else Typed(components.columns[t], t)
    }

    /** What a mutable iteration over `(t, u)` works on. */
    ghost function MutRowsOf(t: TypeId, u: TypeId): (Row<V>, Row<V>)
      reads this, Repr
      requires Valid()
      requires PairOf(t, u) in mutQueris || (t != u && t in components.columns && u in components.columns)
    {
      if PairOf(t, u) in mutQueris then
        var q := mutQueris[PairOf(t, u)].double;
        (q.rowT.value, q.rowU.value)
      else
        (Typed(components.columns[t], t), Typed(components.columns[u], u))
    }

    /** `EntitySystem::new`: an empty shared map, no cached query, no entity. */
    constructor ()
      ensures Valid() && fresh(Repr)
      ensures components.columns == map[]
      ensures queris == map[] && mutQueris == map[] && amountOfEntities == 0
    {
      var c := new ComponentMap();
      components := c;
      queris := map[];
      mutQueris := map[];
      amountOfEntities := 0;
      Repr := {c};
    }

    /**
      `add_entity`: one more entity; every column resident in the map gets an
      absent slot at the end. Columns held by cached queries are not padded.
     */
    method AddEntity()
      requires Valid()
      modifies this, components
      ensures Valid() && Repr == old(Repr)
      ensures amountOfEntities == old(amountOfEntities) + 1
      ensures components.columns == PadAll(old(components.columns))
      ensures queris == old(queris) && mutQueris == old(mutQueris)
    {
      var pending := components.columns.Keys;
      while pending != {}
        invariant pending <= components.columns.Keys
        invariant forall k :: (k in components.columns) == (k in old(components.columns))
        invariant forall k :: k in components.columns ==>
          components.columns[k] == if k in pending then old(components.columns)[k] else old(components.columns)[k] + [None]
        invariant unchanged(this)
        decreases pending
      {
        NonEmptyHasMember(pending);
        var t: TypeId :| t in pending;
        components.columns := components.columns[t := components.columns[t] + [None]];
        pending := pending - {t};
      }
      MapsEqual(components.columns, PadAll(old(components.columns)));
      amountOfEntities := amountOfEntities + 1;
      forall k | k in queris
        ensures ReadEntryValid(k, queris[k], components, amountOfEntities)
      {
        assert ReadEntryValid(k, queris[k], components, amountOfEntities - 1);
      }
      forall k | k in mutQueris
        ensures MutEntryValid(k, mutQueris[k], components, amountOfEntities)
      {
        assert MutEntryValid(k, mutQueris[k], components, amountOfEntities - 1);
      }
    }

    /**
      `with`: the resident column of `t` (created as one absent slot per entity
      if missing) gets the component in its last slot. Panics when that column
      has no slot.
     */
    method With(t: TypeId, component: V)
      requires Valid()
      requires |ColumnOr(components.columns, t, amountOfEntities)| > 0
      modifies components
      ensures Valid()
      ensures components.columns == WithComponent(old(components.columns), t, amountOfEntities, component)
    {
      WithComponentWellTyped(components.columns, t, amountOfEntities, component);
      var column := if t in components.columns then components.columns[t] else Nones(amountOfEntities);
      components.columns := components.columns[t := column[|column| - 1 := Some(Boxed(t, component))]];
    }

    /**
      `query_with_one`: the first call for `t` checks its column out into a
      new cached query (panicking when the map has no column for `t`); later
      calls reuse the cached query. Either way the result lists the present
      values of what a read of `t` sees, and a repeated read sees the same.
     */
    method QueryWithOne(t: TypeId) returns (r: seq<V>)
      requires Valid()
      requires Of(t) in queris || t in components.columns
      modifies this, components
      ensures Valid() && fresh(Repr - old(Repr))
      ensures Of(t) in queris && ReadRowOf(t) == old(ReadRowOf(t))
      ensures ListsPresent(old(ReadRowOf(t)), r)
      ensures mutQueris == old(mutQueris) && amountOfEntities == old(amountOfEntities)
      ensures old(Of(t) in queris) ==> queris == old(queris) && components.columns == old(components.columns)
      ensures old(Of(t) !in queris) ==> components.columns == old(components.columns) - {t}
      ensures old(Of(t) !in queris) ==> queris == old(queris)[Of(t) := queris[Of(t)]]
    {
      if Of(t) !in queris {
        CacheRead(t);
      }
      r := queris[Of(t)].single.Iter();
    }

    /**
      The `or_insert_with` closure of `query_with_one`: takes the column of
      `t` out of the map into a new query cached under `t`.
     */
    method CacheRead(t: TypeId)
      requires Valid() && Of(t) !in queris && t in components.columns
      modifies this, components
      ensures Valid() && fresh(Repr - old(Repr))
      ensures Of(t) in queris && ReadRowOf(t) == old(ReadRowOf(t))
      ensures mutQueris == old(mutQueris) && amountOfEntities == old(amountOfEntities)
      ensures components.columns == old(components.columns) - {t}
      ensures queris == old(queris)[Of(t) := queris[Of(t)]]
    {
      var column := components.columns[t];
      components.columns := components.columns - {t};
      var q := new SingleQuery(t, column, components);
      queris := queris[Of(t) := ReadOne(q, BoxedQuery)];
      Repr := Repr + {q};
      forall k | k in queris && k != Of(t)
        ensures ReadEntryValid(k, queris[k], components, amountOfEntities)
      {
        assert queris[k] == old(queris)[k];
      }
    }

    /**
      `mut_query_with_one` followed by the caller's writes, with the cache
      filled lazily: the first call for `t` checks its column out into a new
      cached mutable query, later calls reuse it. Every present value `x` the
      query holds becomes `f(x)`; absent slots and the length are kept.
     */
    method MutQueryWithOne(t: TypeId, f: V -> V)
      requires Valid()
      requires Of(t) in mutQueris || t in components.columns
      modifies this, components, MutObjectsAt(Of(t))
      ensures Valid() && fresh(Repr - old(Repr))
      ensures Of(t) in mutQueris && MutRowOf(t) == MapPresent(f, old(MutRowOf(t)))
      ensures queris == old(queris) && amountOfEntities == old(amountOfEntities)
      ensures old(Of(t) in mutQueris) ==> mutQueris == old(mutQueris) && components.columns == old(components.columns)
      ensures old(Of(t) !in mutQueris) ==> components.columns == old(components.columns) - {t}
      ensures old(Of(t) !in mutQueris) ==> mutQueris == old(mutQueris)[Of(t) := mutQueris[Of(t)]]
    {
      if Of(t) !in mutQueris {
        CacheMut(t);
      }
      var q := mutQueris[Of(t)].single;
      q.IterMut(f);
      forall k | k in mutQueris && k != Of(t)
        ensures MutEntryValid(k, mutQueris[k], components, amountOfEntities)
      {
        assert MutObject(mutQueris[k]) != q;
      }
    }

    /**
      Fills the cache entry of `mut_query_with_one` lazily: takes the column
      of `t` out of the map into a new mutable query cached under `t`.
     */
    method CacheMut(t: TypeId)
      requires Valid() && Of(t) !in mutQueris && t in components.columns
      modifies this, components
      ensures Valid() && fresh(Repr - old(Repr))
      ensures Of(t) in mutQueris && MutRowOf(t) == old(MutRowOf(t))
      ensures mutQueris[Of(t)].MutOne? && fresh(mutQueris[Of(t)].single)
      ensures queris == old(queris) && amountOfEntities == old(amountOfEntities)
      ensures components.columns == old(components.columns) - {t}
      ensures mutQueris == old(mutQueris)[Of(t) := mutQueris[Of(t)]]
    {
      var column := components.columns[t];
      components.columns := components.columns - {t};
      var q := new SingleMutQuery(t, column, components);
      mutQueris := mutQueris[Of(t) := MutOne(q)];
      Repr := Repr + {q};
      forall k | k in mutQueris && k != Of(t)
        ensures MutEntryValid(k, mutQueris[k], components, amountOfEntities)
      {
        assert mutQueris[k] == old(mutQueris)[k];
      }
    }

    /**
      `query_with_two`: panics when `t == u`. The first call for the pair
      checks both columns out into a cached double query ordered by type id
      (panicking when either column is missing); the pairs come back in the
      order asked for. The result pairs the values at exactly the indices
      where both rows are present, in index order.
     */
    method QueryWithTwo(t: TypeId, u: TypeId) returns (r: seq<(V, V)>)
      requires Valid() && t != u
      requires ReadPairKey(t, u) in queris || (t in components.columns && u in components.columns)
      modifies this, components
      ensures Valid() && fresh(Repr - old(Repr))
      ensures ReadPairKey(t, u) in queris && ReadRowsOf(t, u) == old(ReadRowsOf(t, u))
      ensures ListsJoined(old(ReadRowsOf(t, u)).0, old(ReadRowsOf(t, u)).1, r)
      ensures mutQueris == old(mutQueris) && amountOfEntities == old(amountOfEntities)
      ensures old(ReadPairKey(t, u) in queris) ==>
        queris == old(queris) && components.columns == old(components.columns)
      ensures old(ReadPairKey(t, u) !in queris) ==>
        components.columns == old(components.columns) - {ReadPairKey(t, u).first} - {ReadPairKey(t, u).second}
      ensures old(ReadPairKey(t, u) !in queris) ==>
        queris == old(queris)[ReadPairKey(t, u) := queris[ReadPairKey(t, u)]]
    {
      var k := ReadPairKey(t, u);
      if k !in queris {
        CacheReadPair(k.first, k.second);
      }
      var q := queris[k].double;
      var pairs := q.Iter();
      if t > u {
        r := pairs;
      } else {
        r := Swapped(pairs);
        JoinedOrderIndependent(q.rowU.value, q.rowT.value);
      }
    }

    /**
      The `or_insert_with` closure of `query_with_two`: takes the columns of
      `hi` and then `lo` (the larger type id first) out of the map into a new
      double query cached under `(hi, lo)`.
     */
    method CacheReadPair(hi: TypeId, lo: TypeId)
      requires Valid() && hi > lo && PairOf(hi, lo) !in queris
      requires hi in components.columns && lo in components.columns
      modifies this, components
      ensures Valid() && fresh(Repr - old(Repr))
      ensures PairOf(hi, lo) in queris && ReadPairKey(hi, lo) == PairOf(hi, lo)
      ensures ReadRowsOf(hi, lo) == old(ReadRowsOf(hi, lo)) && ReadRowsOf(lo, hi) == old(ReadRowsOf(lo, hi))
      ensures mutQueris == old(mutQueris) && amountOfEntities == old(amountOfEntities)
      ensures components.columns == old(components.columns) - {hi} - {lo}
      ensures queris == old(queris)[PairOf(hi, lo) := queris[PairOf(hi, lo)]]
    {
      var columnHi, columnLo := components.columns[hi], components.columns[lo];
      components.columns := components.columns - {hi} - {lo};
      var q := new DoubleQuery(hi, lo, columnHi, columnLo, components);
      queris := queris[PairOf(hi, lo) := ReadTwo(q, BoxedQuery)];
      Repr := Repr + {q};
      forall k | k in queris && k != PairOf(hi, lo)
        ensures ReadEntryValid(k, queris[k], components, amountOfEntities)
      {
        assert queris[k] == old(queris)[k];
      }
    }

    /**
      `mut_query_with_two` followed by the caller's writes. The query is
      cached under `(t, u)` as given; the first call checks both columns out
      (panicking when `t == u` or either column is missing). Every pair at an
      index where both rows are present is replaced by `f` of it; afterwards a
      join over the rows yields exactly the updated pairs.
     */
    method MutQueryWithTwo(t: TypeId, u: TypeId, f: (V, V) -> (V, V))
      requires Valid()
      requires PairOf(t, u) in mutQueris || (t != u && t in components.columns && u in components.columns)
      modifies this, components, MutObjectsAt(PairOf(t, u))
      ensures Valid() && fresh(Repr - old(Repr))
      ensures PairOf(t, u) in mutQueris
      ensures MutRowsOf(t, u) == (JoinUpdate(old(MutRowsOf(t, u)).0, old(MutRowsOf(t, u)).1, f).0,
                                  JoinUpdate(old(MutRowsOf(t, u)).0, old(MutRowsOf(t, u)).1, f).1)
      ensures Joined(MutRowsOf(t, u).0, MutRowsOf(t, u).1)
           == MapSeq((p: (V, V)) => f(p.0, p.1), Joined(old(MutRowsOf(t, u)).0, old(MutRowsOf(t, u)).1))
      ensures queris == old(queris) && amountOfEntities == old(amountOfEntities)
      ensures old(PairOf(t, u) in mutQueris) ==>
        mutQueris == old(mutQueris) && components.columns == old(components.columns)
      ensures old(PairOf(t, u) !in mutQueris) ==> components.columns == old(components.columns) - {t} - {u}
      ensures old(PairOf(t, u) !in mutQueris) ==>
        mutQueris == old(mutQueris)[PairOf(t, u) := mutQueris[PairOf(t, u)]]
    {
      ghost var before := MutRowsOf(t, u);
      if PairOf(t, u) !in mutQueris {
        CacheMutPair(t, u);
      }
      var q := mutQueris[PairOf(t, u)].double;
      q.IterMut(f);
      JoinedAfterUpdate(before.0, before.1, f);
      forall k | k in mutQueris && k != PairOf(t, u)
        ensures MutEntryValid(k, mutQueris[k], components, amountOfEntities)
      {
        assert MutObject(mutQueris[k]) != q;
      }
    }

    /**
      The `or_insert_with` closure of `mut_query_with_two`: takes the columns
      of `t` and then `u` out of the map into a new mutable query cached under
      `(t, u)`, which then works on exactly those columns.
     */
    method CacheMutPair(t: TypeId, u: TypeId)
      requires Valid() && PairOf(t, u) !in mutQueris
      requires t != u && t in components.columns && u in components.columns
      modifies this, components
      ensures Valid() && fresh(Repr - old(Repr))
      ensures PairOf(t, u) in mutQueris && MutRowsOf(t, u) == old(MutRowsOf(t, u))
      ensures mutQueris[PairOf(t, u)].MutTwo? && fresh(mutQueris[PairOf(t, u)].double)
      ensures queris == old(queris) && amountOfEntities == old(amountOfEntities)
      ensures components.columns == old(components.columns) - {t} - {u}
      ensures mutQueris == old(mutQueris)[PairOf(t, u) := mutQueris[PairOf(t, u)]]
    {
      var columnT, columnU := components.columns[t], components.columns[u];
      components.columns := components.columns - {t} - {u};
      var q := new DoubleMutQuery(t, u, columnT, columnU, components);
      mutQueris := mutQueris[PairOf(t, u) := MutTwo(q)];
      Repr := Repr + {q};
      forall k | k in mutQueris && k != PairOf(t, u)
        ensures MutEntryValid(k, mutQueris[k], components, amountOfEntities)
      {
        assert mutQueris[k] == old(mutQueris)[k];
      }
    }

    /**
      `try_clear_query_with_one` with the cached entry taken as the store's
      only handle on the query: the entry for `t` is removed and, if there was
      one, dropping it checks its row back into the map under `t`.
     */
    method TryClearQueryWithOne(t: TypeId)
      requires Valid()
      modifies this, components, ReadObjectsAt(Of(t))
      ensures Valid() && Repr == old(Repr)
      ensures Of(t) !in queris && queris == old(queris) - {Of(t)}
      ensures mutQueris == old(mutQueris) && amountOfEntities == old(amountOfEntities)
      ensures old(Of(t) in queris) ==>
        components.columns == old(components.columns)[t := Erased(old(queris[Of(t)].single.row.value), t)]
      ensures old(Of(t) !in queris) ==> components.columns == old(components.columns)
    {
      if Of(t) in queris {
        var q := queris[Of(t)].single;
        queris := queris - {Of(t)};
        q.Release();
        forall k | k in queris
          ensures ReadEntryValid(k, queris[k], components, amountOfEntities)
        {
          assert ReadObject(queris[k]) != q;
        }
      }
    }
  }

  /** The outcome of `try_clear_query_with_one`. */
  datatype ClearOutcome = Cleared | StillActive | Panicked

  /**
    `try_clear_query_with_one` as written: an entry is downcast to
    `Arc<SingleQuery<T>>` and unwrapped, so it panics unless the entry really
    is a shared handle; a shared handle with other owners is reported as still
    active.
   */
  function TryClearAsWritten(entry: Option<EntryType>, strong: nat): (r: ClearOutcome)
    ensures r == Panicked <==> entry == Some(BoxedQuery)
    ensures r == StillActive <==> entry == Some(SharedQuery) && strong > 1
  {
    match entry
    case None => Cleared
    case Some(BoxedQuery) => Panicked
    case Some(SharedQuery) => if strong > 1 then StillActive else Cleared
  }

  /**
    `query_with_one` stores every read query it caches as a plain box, so in a
    valid store the entry of a queried type is one, and clearing that type as
    written panics, whatever the handle count. The entry has already been
    removed from `queris` when the downcast fails.
   */
  lemma TryClearAfterQueryPanics<V>(es: EntitySystem<V>, t: TypeId, strong: nat)
    requires es.Valid() && Of(t) in es.queris
    ensures TryClearAsWritten(Some(es.queris[Of(t)].kind), strong) == Panicked
  {
    assert ReadEntryValid(Of(t), es.queris[Of(t)], es.components, es.amountOfEntities);
  }

  /** The outcome of `mut_query_with_one`. */
  datatype MutQueryOutcome = Created | MissingColumn | Relocked

  /**
    `mut_query_with_one` as written builds the query before asking the cache
    (`or_insert` rather than `or_insert_with`), so it always takes the column
    out of the map and unwraps it: it panics when the column is not resident,
    and when the column is resident but a query is already cached, the unused
    query is dropped while the map's lock is still held and its drop locks the
    map again.
   */
  function MutQueryWithOneAsWritten(cached: bool, resident: bool): (r: MutQueryOutcome)
    ensures r == Created <==> !cached && resident
    ensures r == MissingColumn <==> !resident
  {
    if !resident then MissingColumn
    else if cached then Relocked
    else Created
  }

  /**
    A first mutable query on a type that is resident and not yet cached would
    succeed as written; it checks the column out into the cache, so a second
    one on the same type finds the column gone and, as written, panics.
   */
  method SecondMutQueryWithOneFails<V>(es: EntitySystem<V>, t: TypeId, f: V -> V)
    requires es.Valid() && Of(t) !in es.mutQueris && t in es.components.columns
    modifies es, es.components
    ensures old(MutQueryWithOneAsWritten(Of(t) in es.mutQueris, t in es.components.columns)) == Created
    ensures MutQueryWithOneAsWritten(Of(t) in es.mutQueris, t in es.components.columns) == MissingColumn
  {
    es.MutQueryWithOne(t, f);
  }
}
