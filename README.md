# bimber_ecs entity store, modelled in Dafny

`bimber_ecs` is a small entity-component store. An entity is only an index.
Each component type, identified by its `TypeId`, owns one column. A column
has one slot per entity. Each slot is either empty or holds a type-erased box
(`Box<dyn Any>`). Components are attached with `add_entity().with(x)`.
Queries yield the components of one type, or the pairs of components of two
types that sit on the same entity, in entity order.

The crate ships two stores. This project models both, and the query views the
second one uses:

- **The direct store** (`entity_system/mod.rs`, module `DirectStore`). Its
  columns live in the store's own map. Queries read the map, or update it in
  place.
- **The checkout store** (`entity_system.rs`, module `CheckoutStore`). The map
  is shared with the queries through `Arc<Mutex<..>>`, modelled by the class
  `Columns.ComponentMap`. Creating a query removes ("checks out") its columns
  from the map and downcasts them to typed rows. The query is then cached
  in the store under its type key. When the query is dropped, its rows are
  boxed again and written back into the map ("checked in").
- **The query views** (`query/*.rs`, modules `SingleQueryView`,
  `SingleMutQueryView`, `DoubleQueryView`, `DoubleMutQueryView`). `Drop` is
  the explicit method `Release`.

Shared vocabulary (module `Columns`):

- `Typed` and `Erased` are the downcast and re-boxing conversions.
  `CheckinUndoesCheckout` and `CheckoutUndoesCheckin` prove that each undoes
  the other.
- `Present` is what a one-type iterator yields. `ListsPresent` defines the
  same thing independently, as an ascending walk over the present slots.
- `Joined` is what a two-type iterator yields. `ListsJoined` is its
  independent definition.
- A mutable iteration is modelled as applying a caller-supplied update `f` to
  every yielded slot: `MapPresent` for one type, `JoinUpdate` for two.

Module `Scenarios` replays every unit test of both stores (`mod.rs:107-220`,
`entity_system.rs:200-227`) on concrete values and proves the results they
assert.

## Model

| member | source | states |
|---|---|---|
| Columns.Typed | crates/bimber_ecs/src/entity_system/query/single_query.rs:18-29 | downcasting a column whose boxes all carry type `t` keeps its length and presence pattern; each value is the payload of its box |
| Columns.Erased | crates/bimber_ecs/src/entity_system/query.rs:14-16 | re-boxing a row keeps its length and presence; every present slot becomes a box of type `t` |
| Columns.CheckinUndoesCheckout | crates/bimber_ecs/src/entity_system/query/single_query.rs:32-47 | checking a well-typed column out into a query and back in gives the original column exactly |
| Columns.CheckoutUndoesCheckin | crates/bimber_ecs/src/entity_system/query/single_query.rs:18-29 | boxing a typed row and downcasting it again gives the same row |
| Columns.Present | crates/bimber_ecs/src/entity_system/query/single_query.rs:14-16 | the values yielded are exactly the present slots, in ascending index order (`ListsPresent`) |
| Columns.PresentIsDetermined | crates/bimber_ecs/src/entity_system/query/single_query.rs:14-16 | any sequence that lists the present slots in ascending order equals `Present` |
| Columns.Joined | crates/bimber_ecs/src/entity_system/query/double_query.rs:15-28 | the pairs yielded are exactly the indices below both lengths where both rows are present, in ascending order (`ListsJoined`) |
| Columns.JoinedIsDetermined | crates/bimber_ecs/src/entity_system/query/double_query.rs:15-28 | any sequence that lists the joined pairs in ascending order equals `Joined` |
| Columns.PresentOfMapped | crates/bimber_ecs/src/entity_system/query/single_mut_query.rs:14-20 | iterating after updating every present slot yields `f` applied to each value that was yielded before |
| Columns.JoinedOrderIndependent | crates/bimber_ecs/src/entity_system.rs:153-168 | joining `b` with `a` and swapping every pair gives the join of `a` with `b` |
| Columns.JoinUpdate | crates/bimber_ecs/src/entity_system/query/double_mut_query.rs:15-23 | a zipped mutation keeps both lengths and presence patterns; it leaves every slot outside the join untouched |
| Columns.JoinedAfterUpdate | crates/bimber_ecs/src/entity_system/query/double_mut_query.rs:15-23 | after a zipped mutation, the join yields `f` applied to each pair it yielded before |
| Columns.MutationVisibleToQuery | crates/bimber_ecs/src/entity_system/mod.rs:71-77 | an update written through a mutable query, then re-boxed and read by a later query, shows `f` applied to each earlier value |
| Columns.UpdatedSlot | crates/bimber_ecs/src/entity_system/mod.rs:71-77 | after an update, slot `i` of the re-boxed column is `f` of the old payload, boxed at `t`, when present, and empty otherwise |
| Columns.Nones | crates/bimber_ecs/src/entity_system/mod.rs:51-59 | the column `with` creates for a new type has one empty slot per entity |
| Columns.Padded | crates/bimber_ecs/src/entity_system/mod.rs:38-45 | one more empty slot at the end; every earlier slot is unchanged |
| Columns.PadAll | crates/bimber_ecs/src/entity_system/mod.rs:38-45 | `add_entity` keeps the set of columns and pads every column with one empty slot |
| Columns.WithComponent | crates/bimber_ecs/src/entity_system/mod.rs:51-59 | `with` writes the component, boxed at its type, into the last slot of its column (created if missing); every other slot and column is unchanged |
| Columns.WithComponentWellTyped | crates/bimber_ecs/src/entity_system/mod.rs:51-59 | `with` keeps every column holding boxes of its own type |
| Columns.LastWrittenIsLastYielded | crates/bimber_ecs/src/entity_system/mod.rs:51-67 | a component attached with `with` is the last value a later query on its type yields |
| Columns.LastPresentIsLastYielded | crates/bimber_ecs/src/entity_system/query/single_query.rs:14-16 | when the last slot of a row is present, its value is the last one iterated |
| DirectStore.EntitySystem.constructor | crates/bimber_ecs/src/entity_system/mod.rs:30-35 | a new store has no entities and no columns |
| DirectStore.EntitySystem.AddEntity | crates/bimber_ecs/src/entity_system/mod.rs:38-45 | the entity count goes up by one; every existing column is padded with one empty slot; no column is created; every column's length stays equal to the entity count |
| DirectStore.EntitySystem.With | crates/bimber_ecs/src/entity_system/mod.rs:51-59 | with at least one entity, the new column map is `WithComponent` of the old one; the store stays well typed with one slot per entity |
| DirectStore.EntitySystem.QueryWithOne | crates/bimber_ecs/src/entity_system/mod.rs:62-67 | yields nothing for a type without a column; otherwise yields the present values of that column in entity order |
| DirectStore.EntitySystem.MutQueryWithOne | crates/bimber_ecs/src/entity_system/mod.rs:71-77 | `t`'s column becomes the old column with `f` applied inside every present slot; every other column and the entity count are unchanged; a missing column means no effect |
| DirectStore.UpdatePresent | crates/bimber_ecs/src/entity_system/mod.rs:71-77 | the slot-by-slot loop gives exactly the re-boxed `MapPresent(f, ..)` of the column |
| DirectStore.EntitySystem.QueryWithTwo | crates/bimber_ecs/src/entity_system/mod.rs:80-99 | yields nothing if either column is missing; otherwise yields exactly the entities holding both components, in entity order |
| SingleQueryView.SingleQuery.constructor | crates/bimber_ecs/src/entity_system/query/single_query.rs:18-29 | requires every box of the row to carry type `T` (the `expect` otherwise panics); holds the downcast row |
| SingleQueryView.SingleQuery.Iter | crates/bimber_ecs/src/entity_system/query/single_query.rs:14-16 | yields exactly the present values, in ascending order |
| SingleQueryView.SingleQuery.Release | crates/bimber_ecs/src/entity_system/query/single_query.rs:32-47 | takes the row and inserts it, re-boxed, under `T`, overwriting that key only |
| SingleQueryView.CheckOutAndIn | crates/bimber_ecs/src/entity_system/query/single_query.rs:18-47 | checking a column out into a query and dropping the query leaves the shared map as it was |
| SingleMutQueryView.SingleMutQuery.constructor | crates/bimber_ecs/src/entity_system/query/single_mut_query.rs:22-33 | requires every box to carry type `T`; holds the downcast row |
| SingleMutQueryView.SingleMutQuery.IterMut | crates/bimber_ecs/src/entity_system/query/single_mut_query.rs:14-20 | every present value `x` becomes `f(x)`; empty slots and the length are unchanged |
| SingleMutQueryView.SingleMutQuery.Release | crates/bimber_ecs/src/entity_system/query/single_mut_query.rs:36-51 | takes the row and inserts it, re-boxed, under `T` |
| SingleMutQueryView.UpdateThroughQuery | crates/bimber_ecs/src/entity_system/query/single_mut_query.rs:14-51 | a checkout, mutation and drop leaves the same keys and other columns; keeps `t`'s length, presence and type; a later query yields `f` of each earlier value |
| DoubleQueryView.DoubleQuery.constructor | crates/bimber_ecs/src/entity_system/query/double_query.rs:30-53 | requires `row_t`'s boxes to carry `T` and `row_u`'s to carry `U` (checked separately); holds both downcast rows |
| DoubleQueryView.DoubleQuery.Iter | crates/bimber_ecs/src/entity_system/query/double_query.rs:15-28 | yields exactly the pairs at indices where both rows are present, in ascending order |
| DoubleQueryView.DoubleQuery.Release | crates/bimber_ecs/src/entity_system/query/double_query.rs:56-82 | inserts the re-boxed `T` row, then the `U` row, each under its own type |
| DoubleQueryView.CheckOutAndInTwo | crates/bimber_ecs/src/entity_system/query/double_query.rs:30-82 | checking two distinct columns out and dropping the query leaves the map as it was |
| DoubleMutQueryView.DoubleMutQuery.constructor | crates/bimber_ecs/src/entity_system/query/double_mut_query.rs:25-30 | requires both rows' boxes to carry their types; holds both downcast rows |
| DoubleMutQueryView.DoubleMutQuery.IterMut | crates/bimber_ecs/src/entity_system/query/double_mut_query.rs:15-23 | both rows become the zipped mutation `JoinUpdate` of the old rows under `f` |
| DoubleMutQueryView.DoubleMutQuery.Release | crates/bimber_ecs/src/entity_system/query/double_mut_query.rs:33-40 | inserts the re-boxed `T` row, then the `U` row |
| DoubleMutQueryView.UpdateThroughQuery | crates/bimber_ecs/src/entity_system/query/double_mut_query.rs:15-40 | a checkout, zipped mutation and drop leaves the same keys and other columns; keeps both lengths, presence patterns and types; a later join yields `f` of each earlier pair |
| CheckoutStore.ReadPairKey | crates/bimber_ecs/src/entity_system.rs:133-168 | a read pair query is cached under its two types, the larger type id first |
| CheckoutStore.ReadPairKeySymmetric | crates/bimber_ecs/src/entity_system.rs:133-168 | `query_with_two::<T, U>` and `query_with_two::<U, T>` share one cache key |
| CheckoutStore.EntitySystem.constructor | crates/bimber_ecs/src/entity_system.rs:40-47 | a new store has no entities, an empty shared map and no cached queries |
| CheckoutStore.EntitySystem.AddEntity | crates/bimber_ecs/src/entity_system.rs:50-57 | the entity count goes up by one; every resident column is padded with one empty slot; the caches are unchanged |
| CheckoutStore.EntitySystem.With | crates/bimber_ecs/src/entity_system.rs:63-77 | requires the target column to be non-empty (`last_mut().expect`); the shared map becomes `WithComponent` of the old one |
| CheckoutStore.EntitySystem.QueryWithOne | crates/bimber_ecs/src/entity_system.rs:91-109 | requires a cached query or a resident column (`remove(..).expect`); yields the present values of the cached row; a cache hit changes nothing; a miss moves the column from the map into a new cache entry |
| CheckoutStore.EntitySystem.CacheRead | crates/bimber_ecs/src/entity_system.rs:95-104 | the `or_insert_with` closure: removes `t`'s column from the map and caches a fresh `SingleQuery` holding it; no other entry changes |
| CheckoutStore.EntitySystem.MutQueryWithOne | crates/bimber_ecs/src/entity_system.rs:112-131 | the cached mutable row becomes `MapPresent(f, ..)` of the old one; a hit leaves the map alone; a miss checks the column out (lazy construction, see Findings) |
| CheckoutStore.EntitySystem.CacheMut | crates/bimber_ecs/src/entity_system.rs:118-126 | removes `t`'s column from the map and caches a fresh `SingleMutQuery` holding it; no other entry changes |
| CheckoutStore.EntitySystem.QueryWithTwo | crates/bimber_ecs/src/entity_system.rs:133-172 | requires distinct types (`panic!` otherwise) and a cached query or both columns resident; yields the joined pairs in the requested order (swapped when `T < U`); a miss moves both columns into one cache entry |
| CheckoutStore.EntitySystem.CacheReadPair | crates/bimber_ecs/src/entity_system.rs:139-165 | removes both columns and caches a fresh `DoubleQuery` under the larger-first key; no other entry changes |
| CheckoutStore.EntitySystem.MutQueryWithTwo | crates/bimber_ecs/src/entity_system.rs:175-193 | both cached rows become the zipped mutation of the old ones; the join then yields `f` of each earlier pair; a miss removes both columns from the map |
| CheckoutStore.EntitySystem.CacheMutPair | crates/bimber_ecs/src/entity_system.rs:181-188 | removes both columns and caches a fresh `DoubleMutQuery` under `(T, U)`; no other entry changes |
| CheckoutStore.EntitySystem.TryClearQueryWithOne | crates/bimber_ecs/src/entity_system.rs:79-89 | the corrected `try_clear`: removes the cached read query of `t`; if there was one, its row is checked back in under `t` |
| CheckoutStore.TryClearAsWritten | crates/bimber_ecs/src/entity_system.rs:79-89 | as written: it panics exactly when the entry is a plain box, and reports "still active" only for a shared handle with more than one owner |
| CheckoutStore.TryClearAfterQueryPanics | crates/bimber_ecs/src/entity_system.rs:79-109 | in every valid store, the cached entry of a queried type is stored as a plain box (line 97, kept by `CacheRead` and `ReadEntryValid`), so clearing that type as written panics, whatever the handle count |
| CheckoutStore.MutQueryWithOneAsWritten | crates/bimber_ecs/src/entity_system.rs:112-131 | as written: the query is built before the cache lookup, so the call succeeds only when nothing is cached and the column is resident |
| CheckoutStore.SecondMutQueryWithOneFails | crates/bimber_ecs/src/entity_system.rs:112-131 | on a store where the type is resident and not cached, the first call would succeed as written; after `EntitySystem.MutQueryWithOne` the column is gone, so a second call as written panics |
| Scenarios.DirectQueryWithTwoComplex | crates/bimber_ecs/src/entity_system/mod.rs:109-122 | in the test's three-entity store, the `(&str, i32)` query yields two pairs |
| Scenarios.DirectQueryWithTwoSimple | crates/bimber_ecs/src/entity_system/mod.rs:126-133 | the one-entity store yields exactly the pair `(12, "test")` |
| Scenarios.DirectMutQueryDoubles | crates/bimber_ecs/src/entity_system/mod.rs:136-150 | after doubling every `i32`, the sum is `12*2 + 15*2` |
| Scenarios.DirectQueryWithOneSimple | crates/bimber_ecs/src/entity_system/mod.rs:153-160 | the one-entity store with `12` yields exactly `12`, so its count is 1 |
| Scenarios.DirectQueryWithOneComplex | crates/bimber_ecs/src/entity_system/mod.rs:162-174 | the `i32` query yields exactly `12, 15`, so its count is 2 |
| Scenarios.DirectCountsEntities | crates/bimber_ecs/src/entity_system/mod.rs:178-191 | a new store has 0 entities; after three `add_entity` calls it has 3 |
| Scenarios.DirectOneColumn | crates/bimber_ecs/src/entity_system/mod.rs:194-203 | one `with(12)` creates exactly the `i32` column |
| Scenarios.DirectColumnsPerType | crates/bimber_ecs/src/entity_system/mod.rs:207-220 | repeated types share a column: there are exactly three columns |
| Scenarios.CheckoutSumInts | crates/bimber_ecs/src/entity_system.rs:201-213 | the first `i32` query on the checkout store sums to `12 + 15` and caches the `i32` row |
| Scenarios.CheckoutCountTexts | crates/bimber_ecs/src/entity_system.rs:215 | the `&str` query yields three values |
| Scenarios.CheckoutQueries | crates/bimber_ecs/src/entity_system.rs:201-218 | the three queries of the test give 27, 3 and 2; the last one is served from the cache |
| Scenarios.CheckoutPairOrder | crates/bimber_ecs/src/entity_system.rs:221-227 | `query_with_two::<i32, &str>` yields `(12, "test")`, and the reversed order yields `("test", 12)` from the same cached query |

## Left out

- Locking is not modelled: the `Mutex`, lock poisoning, threads and the `unsafe impl Send` blocks. The shared map is a single heap object.
- `amount_of_entities: u64` is an unbounded `nat`; the overflow after 2^64 entities is not modelled.
- `Vec::with_capacity` is not modelled; capacity is not observable.
- The cache key of a read pair query cannot collide with the key of a tuple-typed component. `PairOf` and `Of` are distinct constructors, while in Rust `TypeId::of::<(A, B)>()` could equal a component's `TypeId`.
- Dropping the whole checkout `EntitySystem` is not modelled. Nor is the order in which the cached queries would then check their rows back in.
- CheckoutStore.EntitySystem.AddEntity: while a column is checked out, its query's row gets no new slot. So the invariant proved is only that no column is longer than the entity count, not that every column has one slot per entity.
- CheckoutStore.EntitySystem.TryClearQueryWithOne: `Arc::strong_count` is not tracked. The cached entry is taken to be the only handle, so the corrected operation always clears. The "still active" outcome is modelled only in `TryClearAsWritten`.
- Mutable iteration is modelled as one pure update `f` applied to every yielded slot (or pair). An iterator the caller stops early, or one whose updates depend on earlier updates, is not captured.
- `SafeType` and `Any` are treated as the same erased box. A `TypeId` is an integer compared by equality and order.
- CheckoutStore.EntitySystem.QueryWithOne: requires a cached query or a resident column, because `expect` at line 101 of `entity_system.rs` panics for a type that was never written. This is unlike the direct store's `query_with_one` (`mod.rs:62-67`), which yields nothing there.
- A read pair query is cached under the larger type id first (`entity_system.rs:138-156`), so both orders of two types share one entry; mutable pair queries are keyed in the order asked.
- `lib.rs`, the examples (`learning.rs`, `entity_system_example.rs`) and the renderer crate are not part of this model.

## Findings

| source | as written | input that shows it | evidently intended | confidence | as-written member | corrected member |
|---|---|---|---|---|---|---|
| crates/bimber_ecs/src/entity_system.rs:79-89 | `try_clear_query_with_one` downcasts the cached entry to `Arc<SingleQuery<T>>` and unwraps. But `query_with_one` caches a `Box<SingleQuery<T>>`. | `query_with_one::<i32>()` followed by `try_clear_query_with_one::<i32>()`: line 80 removes the entry, then the downcast at line 81 fails and the `unwrap` panics | remove the cached query and check its row back in (unless other handles exist) | not executed | CheckoutStore.TryClearAsWritten, CheckoutStore.TryClearAfterQueryPanics | CheckoutStore.EntitySystem.TryClearQueryWithOne |
| crates/bimber_ecs/src/entity_system.rs:112-131 | `mut_query_with_one` passes an already built query to `or_insert`, so the column is removed and unwrapped even when a query is already cached | two calls of `mut_query_with_one::<i32>()`: the second finds the column checked out, and `remove(..).unwrap()` panics | build the query lazily (`or_insert_with`, as `query_with_one` does) so a cached query is reused | not executed | CheckoutStore.MutQueryWithOneAsWritten, CheckoutStore.SecondMutQueryWithOneFails | CheckoutStore.EntitySystem.MutQueryWithOne |
