/**
  The repository's own examples, replayed on the model with three component
  types: `i32`, `f64` and `&str` values, each boxed at its own type id. The
  example stores are built one entity per step; each step states the columns
  it leaves behind.
 */
module Scenarios {
  import opened Columns
  import DirectStore
  import CheckoutStore

  datatype Value = Int32(n: int) | Float64(x: real) | Text(s: string)

  const I32: TypeId := 1
  const F64: TypeId := 2
  const STR: TypeId := 3

  /** `sum::<i32>()` over the yielded values; values that are not `i32` add nothing. */
  function SumInt32(xs: seq<Value>): int
  {
    if |xs| == 0 then 0
    else SumInt32(xs[..|xs| - 1]) + (if xs[|xs| - 1].Int32? then xs[|xs| - 1].n else 0)
  }

  /** `*x *= 2` on an `i32`. */
  function Doubled(v: Value): Value
  {
    if v.Int32? then Int32(2 * v.n) else v
  }

  /** The present values of a three-slot row whose middle slot is absent. */
  lemma PresentAroundGap<A>(a: A, b: A)
    ensures Present([Some(a), None, Some(b)]) == [a, b]
  {
    var row := [Some(a), None, Some(b)];
    assert [Some(a)][..0] == [];
    assert Present([Some(a)]) == [a];
    assert row[..2][..1] == [Some(a)];
    assert Present(row[..2]) == [a];
    assert row[..2] == [Some(a), None];
  }

  /** The present values of a three-slot row with every slot present. */
  lemma PresentOfFull<A>(a: A, b: A, c: A)
    ensures Present([Some(a), Some(b), Some(c)]) == [a, b, c]
  {
    var row := [Some(a), Some(b), Some(c)];
    assert [Some(a)][..0] == [];
    assert Present([Some(a)]) == [a];
    assert row[..2][..1] == [Some(a)];
    assert Present(row[..2]) == [a, b];
  }

  // Direct store

  /** `new().add_entity().with(12).with("test")`. */
  method DirectFirstEntity() returns (es: DirectStore.EntitySystem<Value>)
    ensures fresh(es) && es.Valid() && es.amountOfEntities == 1
    ensures forall k :: k in es.components <==> k == I32 || k == STR
    ensures es.components[I32] == [Some(Boxed(I32, Int32(12)))]
    ensures es.components[STR] == [Some(Boxed(STR, Text("test")))]
  {
    es := new DirectStore.EntitySystem<Value>();
    es.AddEntity();
    es.With(I32, Int32(12));
    es.With(STR, Text("test"));
  }

  /** `.add_entity().with(3.14).with("Alfred")`. */
  method DirectSecondEntity(es: DirectStore.EntitySystem<Value>)
    requires es.Valid() && es.amountOfEntities == 1
    requires forall k :: k in es.components <==> k == I32 || k == STR
    requires es.components[I32] == [Some(Boxed(I32, Int32(12)))]
    requires es.components[STR] == [Some(Boxed(STR, Text("test")))]
    modifies es
    ensures es.Valid() && es.amountOfEntities == 2
    ensures forall k :: k in es.components <==> k == I32 || k == STR || k == F64
    ensures es.components[I32] == [Some(Boxed(I32, Int32(12))), None]
    ensures es.components[STR] == [Some(Boxed(STR, Text("test"))), Some(Boxed(STR, Text("Alfred")))]
  {
    es.AddEntity();
    es.With(F64, Float64(3.14));
    es.With(STR, Text("Alfred"));
  }

  /** `.add_entity().with(15)`. */
  method DirectThirdEntity(es: DirectStore.EntitySystem<Value>)
    requires es.Valid() && es.amountOfEntities == 2
    requires forall k :: k in es.components <==> k == I32 || k == STR || k == F64
    requires es.components[I32] == [Some(Boxed(I32, Int32(12))), None]
    requires es.components[STR] == [Some(Boxed(STR, Text("test"))), Some(Boxed(STR, Text("Alfred")))]
    modifies es
    ensures es.Valid() && es.amountOfEntities == 3
    ensures forall k :: k in es.components <==> k == I32 || k == STR || k == F64
    ensures es.components[I32] == [Some(Boxed(I32, Int32(12))), None, Some(Boxed(I32, Int32(15)))]
    ensures es.components[STR] == [Some(Boxed(STR, Text("test"))), Some(Boxed(STR, Text("Alfred"))), None]
  {
    es.AddEntity();
    es.With(I32, Int32(15));
  }

  /** Two entities have both an `&str` and an `i32`. */
  method DirectQueryWithTwoComplex() returns (count: nat)
    ensures count == 2
  {
    var es := DirectFirstEntity();
    DirectSecondEntity(es);
    DirectThirdEntity(es);
    es.With(STR, Text("Hallo"));
    var strs := Typed(es.components[STR], STR);
    var ints := Typed(es.components[I32], I32);
    assert strs == [Some(Text("test")), Some(Text("Alfred")), Some(Text("Hallo"))];
    assert ints == [Some(Int32(12)), None, Some(Int32(15))];
    assert Zipped(strs, ints) == [Some((Text("test"), Int32(12))), None, Some((Text("Hallo"), Int32(15)))];
    PresentAroundGap((Text("test"), Int32(12)), (Text("Hallo"), Int32(15)));
    var pairs := es.QueryWithTwo(STR, I32);
    count := |pairs|;
  }

  /** One entity with an `i32` and an `&str` gives one pair. */
  method DirectQueryWithTwoSimple() returns (pairs: seq<(Value, Value)>)
    ensures pairs == [(Int32(12), Text("test"))]
  {
    var es := DirectFirstEntity();
    var ints := Typed(es.components[I32], I32);
    var strs := Typed(es.components[STR], STR);
    assert Zipped(ints, strs) == [Some((Int32(12), Text("test")))];
    assert Zipped(ints, strs)[..0] == [];
    pairs := es.QueryWithTwo(I32, STR);
  }

  /** Doubling every `i32` through a mutable query doubles their sum. */
  method DirectMutQueryDoubles() returns (sum: int)
    ensures sum == 12 * 2 + 15 * 2
  {
    var es := DirectFirstEntity();
    DirectSecondEntity(es);
    DirectThirdEntity(es);
    assert Typed(es.components[I32], I32) == [Some(Int32(12)), None, Some(Int32(15))];
    es.MutQueryWithOne(I32, Doubled);
    DoubledSum();
    var values := es.QueryWithOne(I32);
    sum := SumInt32(values);
  }

  /** After the doubling, the `i32` column yields 24 and 30. */
  lemma DoubledSum()
    ensures var row := [Some(Int32(12)), None, Some(Int32(15))];
      SumInt32(Present(Typed(Erased(MapPresent(Doubled, row), I32), I32))) == 12 * 2 + 15 * 2
  {
    var row := [Some(Int32(12)), None, Some(Int32(15))];
    CheckoutUndoesCheckin(MapPresent(Doubled, row), I32);
    PresentAroundGap(Int32(12), Int32(15));
    PresentOfMapped(Doubled, row);
    var doubled := MapSeq(Doubled, [Int32(12), Int32(15)]);
    assert |doubled| == 2 && doubled[0] == Doubled(Int32(12)) && doubled[1] == Doubled(Int32(15));
    assert doubled == [Int32(24), Int32(30)];
    assert [Int32(24)][..0] == [];
    assert SumInt32([Int32(24)]) == 24;
    assert [Int32(24), Int32(30)][..1] == [Int32(24)];
  }

  /** `new().add_entity().with(12)`: the `i32` query yields that one value. */
  method DirectQueryWithOneSimple() returns (values: seq<Value>)
    ensures values == [Int32(12)]
  {
    var es := new DirectStore.EntitySystem<Value>();
    es.AddEntity();
    es.With(I32, Int32(12));
    values := es.QueryWithOne(I32);
    assert Typed(es.components[I32], I32) == [Some(Int32(12))];
    assert [Some(Int32(12))][..0] == [];
  }

  /** The `i32` of two of three entities are yielded, in entity order. */
  method DirectQueryWithOneComplex() returns (values: seq<Value>)
    ensures values == [Int32(12), Int32(15)]
  {
    var es := DirectFirstEntity();
    DirectSecondEntity(es);
    DirectThirdEntity(es);
    values := es.QueryWithOne(I32);
    assert Typed(es.components[I32], I32) == [Some(Int32(12)), None, Some(Int32(15))];
    PresentAroundGap(Int32(12), Int32(15));
  }

  /** A new store has no entity; three `add_entity` calls make three. */
  method DirectCountsEntities() returns (empty: nat, three: nat)
    ensures empty == 0 && three == 3
  {
    var es := new DirectStore.EntitySystem<Value>();
    empty := es.amountOfEntities;
    es.AddEntity();
    es.AddEntity();
    es.AddEntity();
    three := es.amountOfEntities;
  }

  /** One `with` makes one column. */
  method DirectOneColumn() returns (types: set<TypeId>)
    ensures forall t :: t in types <==> t == I32
  {
    var es := new DirectStore.EntitySystem<Value>();
    es.AddEntity();
    es.With(I32, Int32(12));
    types := es.components.Keys;
  }

  /** Four `with`s of three distinct types make three columns. */
  method DirectColumnsPerType() returns (types: set<TypeId>)
    ensures forall t :: t in types <==> t == STR || t == I32 || t == F64
  {
    var es := new DirectStore.EntitySystem<Value>();
    es.AddEntity();
    es.With(STR, Text("Test"));
    es.With(I32, Int32(12));
    es.AddEntity();
    es.With(F64, Float64(3.14));
    es.With(I32, Int32(14));
    types := es.components.Keys;
  }

  // Checkout store

  /** `new().add_entity().with(12).with("test")`. */
  method CheckoutFirstEntity() returns (es: CheckoutStore.EntitySystem<Value>)
    ensures fresh(es) && fresh(es.Repr) && es.Valid() && es.amountOfEntities == 1
    ensures es.queris == map[] && es.mutQueris == map[]
    ensures forall k :: k in es.components.columns <==> k == I32 || k == STR
    ensures es.components.columns[I32] == [Some(Boxed(I32, Int32(12)))]
    ensures es.components.columns[STR] == [Some(Boxed(STR, Text("test")))]
  {
    es := new CheckoutStore.EntitySystem<Value>();
    es.AddEntity();
    es.With(I32, Int32(12));
    es.With(STR, Text("test"));
  }

  /** `.add_entity().with(3.14).with("Alfred")`. */
  method CheckoutSecondEntity(es: CheckoutStore.EntitySystem<Value>)
    requires es.Valid() && es.amountOfEntities == 1
    requires es.queris == map[] && es.mutQueris == map[]
    requires forall k :: k in es.components.columns <==> k == I32 || k == STR
    requires es.components.columns[I32] == [Some(Boxed(I32, Int32(12)))]
    requires es.components.columns[STR] == [Some(Boxed(STR, Text("test")))]
    modifies es, es.components
    ensures es.Valid() && es.amountOfEntities == 2
    ensures es.queris == map[] && es.mutQueris == map[]
    ensures forall k :: k in es.components.columns <==> k == I32 || k == STR || k == F64
    ensures es.components.columns[I32] == [Some(Boxed(I32, Int32(12))), None]
    ensures es.components.columns[STR] == [Some(Boxed(STR, Text("test"))), Some(Boxed(STR, Text("Alfred")))]
  {
    es.AddEntity();
    es.With(F64, Float64(3.14));
    es.With(STR, Text("Alfred"));
  }

  /** `.add_entity().with(15).with("Hallo")`. */
  method CheckoutThirdEntity(es: CheckoutStore.EntitySystem<Value>)
    requires es.Valid() && es.amountOfEntities == 2
    requires es.queris == map[] && es.mutQueris == map[]
    requires forall k :: k in es.components.columns <==> k == I32 || k == STR || k == F64
    requires es.components.columns[I32] == [Some(Boxed(I32, Int32(12))), None]
    requires es.components.columns[STR] == [Some(Boxed(STR, Text("test"))), Some(Boxed(STR, Text("Alfred")))]
    modifies es, es.components
    ensures es.Valid() && es.amountOfEntities == 3
    ensures es.queris == map[] && es.mutQueris == map[]
    ensures forall k :: k in es.components.columns <==> k == I32 || k == STR || k == F64
    ensures es.components.columns[I32] == [Some(Boxed(I32, Int32(12))), None, Some(Boxed(I32, Int32(15)))]
    ensures es.components.columns[STR] ==
      [Some(Boxed(STR, Text("test"))), Some(Boxed(STR, Text("Alfred"))), Some(Boxed(STR, Text("Hallo")))]
  {
    es.AddEntity();
    es.With(I32, Int32(15));
    es.With(STR, Text("Hallo"));
  }

  /** The `i32` values of the three-entity example, as a typed row. */
  function IntRow(): Row<Value>
  {
    [Some(Int32(12)), None, Some(Int32(15))]
  }

  /** The first `query_with_one::<i32>()` checks the column out and sums to 27. */
  method CheckoutSumInts(es: CheckoutStore.EntitySystem<Value>) returns (sum: int)
    requires es.Valid() && CheckoutStore.Of(I32) !in es.queris
    requires I32 in es.components.columns && Typed(es.components.columns[I32], I32) == IntRow()
    modifies es, es.components
    ensures es.Valid()
    ensures CheckoutStore.Of(I32) in es.queris && es.ReadRowOf(I32) == IntRow()
    ensures forall k :: k in es.queris <==> k in old(es.queris) || k == CheckoutStore.Of(I32)
    ensures forall k :: k in es.components.columns <==> k in old(es.components.columns) && k != I32
    ensures forall k :: k in es.components.columns ==> es.components.columns[k] == old(es.components.columns[k])
    ensures sum == 12 + 15
  {
    var first := es.QueryWithOne(I32);
    PresentIsDetermined(IntRow(), first);
    SumOfIntRow();
    sum := SumInt32(first);
  }

  /** The `i32` values of the example sum to 27. */
  lemma SumOfIntRow()
    ensures SumInt32(Present(IntRow())) == 12 + 15
  {
    PresentAroundGap(Int32(12), Int32(15));
    assert [Int32(12)][..0] == [];
    assert SumInt32([Int32(12)]) == 12;
    assert [Int32(12), Int32(15)][..1] == [Int32(12)];
  }

  /** `query_with_one::<&str>()` yields the three texts. */
  method CheckoutCountTexts(es: CheckoutStore.EntitySystem<Value>) returns (texts: nat)
    requires es.Valid() && CheckoutStore.Of(I32) in es.queris && es.ReadRowOf(I32) == IntRow()
    requires CheckoutStore.Of(STR) !in es.queris && STR in es.components.columns
    requires es.components.columns[STR] ==
      [Some(Boxed(STR, Text("test"))), Some(Boxed(STR, Text("Alfred"))), Some(Boxed(STR, Text("Hallo")))]
    modifies es, es.components
    ensures es.Valid() && CheckoutStore.Of(I32) in es.queris && es.ReadRowOf(I32) == IntRow()
    ensures texts == 3
  {
    ghost var strRow := Typed(es.components.columns[STR], STR);
    assert strRow == [Some(Text("test")), Some(Text("Alfred")), Some(Text("Hallo"))];
    var strs := es.QueryWithOne(STR);
    PresentIsDetermined(strRow, strs);
    PresentOfFull(Text("test"), Text("Alfred"), Text("Hallo"));
    texts := |strs|;
  }

  /**
    The `i32` sum, the `&str` count, and the `i32` count again from the
    cached query.
   */
  method CheckoutQueries() returns (sum: int, texts: nat, ints: nat)
    ensures sum == 12 + 15 && texts == 3 && ints == 2
  {
    var es := CheckoutFirstEntity();
    CheckoutSecondEntity(es);
    CheckoutThirdEntity(es);
    assert Typed(es.components.columns[I32], I32) == IntRow();
    sum := CheckoutSumInts(es);
    texts := CheckoutCountTexts(es);
    var again := es.QueryWithOne(I32);
    PresentIsDetermined(IntRow(), again);
    PresentAroundGap(Int32(12), Int32(15));
    ints := |again|;
  }

  /** Both orders of the same two types share one cached query and keep their own pair order. */
  method CheckoutPairOrder() returns (forward: seq<(Value, Value)>, backward: seq<(Value, Value)>)
    ensures forward == [(Int32(12), Text("test"))]
    ensures backward == [(Text("test"), Int32(12))]
  {
    var es := CheckoutFirstEntity();
    ghost var ints := Typed(es.components.columns[I32], I32);
    ghost var strs := Typed(es.components.columns[STR], STR);
    assert ints == [Some(Int32(12))] && strs == [Some(Text("test"))];
    forward := es.QueryWithTwo(I32, STR);
    JoinedIsDetermined(ints, strs, forward);
    assert Zipped(ints, strs) == [Some((Int32(12), Text("test")))];
    assert Zipped(ints, strs)[..0] == [];
    backward := es.QueryWithTwo(STR, I32);
    JoinedIsDetermined(strs, ints, backward);
    assert Zipped(strs, ints) == [Some((Text("test"), Int32(12)))];
    assert Zipped(strs, ints)[..0] == [];
  }

}
