/**
  Type-erased component columns shared by both entity stores.

  A component type is identified by its `TypeId`, an opaque totally ordered
  number. The store keeps every component as an erased box that remembers the
  type it was boxed at (`Box<dyn Any>`); a query recovers the static type by a
  tag check (`downcast`) and turns the box back into a typed value, and puts
  the values back into boxes (`make_box_any`) when the column is checked in.
  An entity is nothing but an index into every column.
 */
module Columns {

  /** `TypeId::of::<T>()`: compared only for equality and order. */
  type TypeId = int

  datatype Option<+T> = None | Some(value: T)

  /** A `Box<dyn Any>` holding a component of type `tag`. */
  datatype Boxed<V> = Boxed(tag: TypeId, payload: V)

  /** A column as the store keeps it: one erased slot per entity. */
  type Column<V> = seq<Option<Boxed<V>>>

  /** A column after downcasting: the typed slots a query owns. */
  type Row<V> = seq<Option<V>>

  /**
    The `components` map, `HashMap<TypeId, Vec<Option<Box<dyn Any>>>>`. In the
    checkout store it is shared (behind `Arc<Mutex<..>>`) between the store and
    every query, which writes its column back into it when it is dropped.
   */
  class ComponentMap<V> {
    var columns: map<TypeId, Column<V>>

    constructor ()
      ensures columns == map[]
    {
      columns := map[];
    }
  }

  function Min(a: int, b: int): int
  {
    if a < b then a else b
  }

  /** Every present slot of `col` is a box of type `t`. */
  predicate Tagged<V>(col: Column<V>, t: TypeId)
  {
    forall i :: 0 <= i < |col| && col[i].Some? ==> col[i].value.tag == t
  }

  /** Every column holds boxes of the type it is stored under. */
  predicate WellTyped<V>(m: map<TypeId, Column<V>>)
  {
    forall t :: t in m ==> Tagged(m[t], t)
  }

  /** `box.downcast::<T>().unwrap()`: the tag check is the precondition. */
  function Downcast<V>(b: Boxed<V>, t: TypeId): V
    requires b.tag == t
  {
    b.payload
  }

  /**
    The conversion every query constructor performs
    (`row.into_iter().map(|o| o.map(|b| *b.downcast::<T>().unwrap()))`):
    same length, same presence pattern, and each present typed value is the
    payload of the box of type `t` it came from.
   */
  function Typed<V>(col: Column<V>, t: TypeId): (r: Row<V>)
    requires Tagged(col, t)
    ensures |r| == |col|
    ensures forall i :: 0 <= i < |col| ==> (r[i].Some? <==> col[i].Some?)
    ensures forall i :: 0 <= i < |col| && col[i].Some? ==> col[i].value == Boxed(t, r[i].value)
  {
    if col == [] then []
    else [if col[0].Some? then Some(Downcast(col[0].value, t)) else None] + Typed(col[1..], t)
  }

  /**
    The conversion every query's `Drop` performs
    (`row.into_iter().map(|o| o.map(|x| make_box_any(x)))`): same length and
    presence, every present slot boxed at type `t`.
   */
  function Erased<V>(row: Row<V>, t: TypeId): (r: Column<V>)
    ensures |r| == |row|
    ensures forall i :: 0 <= i < |row| ==> (r[i].Some? <==> row[i].Some?)
    ensures forall i :: 0 <= i < |row| && row[i].Some? ==> r[i].value == Boxed(t, row[i].value)
    ensures Tagged(r, t)
  {
    if row == [] then []
    else [if row[0].Some? then Some(Boxed(t, row[0].value)) else None] + Erased(row[1..], t)
  }

  /** Checking a column out into a query and back in restores it exactly. */
  lemma CheckinUndoesCheckout<V>(col: Column<V>, t: TypeId)
    requires Tagged(col, t)
    ensures Erased(Typed(col, t), t) == col
  {
    var back := Erased(Typed(col, t), t);
    assert |back| == |col|;
    forall i | 0 <= i < |col|
      ensures back[i] == col[i]
    {
      if col[i].Some? {
        assert back[i].value == col[i].value;
      }
    }
  }

  /** Boxing a typed row and downcasting it again gives the same row. */
  lemma CheckoutUndoesCheckin<V>(row: Row<V>, t: TypeId)
    ensures Typed(Erased(row, t), t) == row
  {
    var back := Typed(Erased(row, t), t);
    assert |back| == |row|;
    forall i | 0 <= i < |row|
      ensures back[i] == row[i]
    {
      if row[i].Some? {
        assert Erased(row, t)[i].value == Boxed(t, back[i].value);
      }
    }
  }

  /**
    The positions a forward scan skipping `None` visits: in range, present,
    strictly ascending, and every present position among them.
   */
  ghost function PresentIndices<A>(s: seq<Option<A>>): (idx: seq<nat>)
    ensures forall j :: 0 <= j < |idx| ==> idx[j] < |s| && s[idx[j]].Some?
    ensures forall j, k :: 0 <= j < k < |idx| ==> idx[j] < idx[k]
    ensures forall i :: 0 <= i < |s| && s[i].Some? ==> i in idx
  {
    if s == [] then []
    else
      var n := |s| - 1;
      var before := PresentIndices(s[..n]);
      assert forall i :: 0 <= i < n ==> s[..n][i] == s[i];
      before + (if s[n].Some? then [n] else [])
  }

  /** `r` is the values of the present slots of `s`, in ascending index order. */
  ghost predicate ListsPresent<A>(s: seq<Option<A>>, r: seq<A>)
  {
    var idx := PresentIndices(s);
    |r| == |idx| && forall j :: 0 <= j < |r| ==> s[idx[j]] == Some(r[j])
  }

  /** `iter().filter_map(|x| x.as_ref())`: the present values of a row. */
  function Present<A>(s: seq<Option<A>>): (r: seq<A>)
    ensures ListsPresent(s, r)
  {
    if s == [] then []
    else
      var n := |s| - 1;
      assert forall i :: 0 <= i < n ==> s[..n][i] == s[i];
      Present(s[..n]) + (if s[n].Some? then [s[n].value] else [])
  }

  /** The values an iteration over present slots yields are determined by the row. */
  lemma PresentIsDetermined<A>(s: seq<Option<A>>, r: seq<A>)
    requires ListsPresent(s, r)
    ensures r == Present(s)
  {
    var idx := PresentIndices(s);
    var p := Present(s);
    assert |r| == |p|;
    forall j | 0 <= j < |r|
      ensures r[j] == p[j]
    {
      assert Some(r[j]) == s[idx[j]] == Some(p[j]);
    }
  }

  /** `a.iter().zip(b.iter())`, keeping a pair only where both slots are present. */
  function Zipped<A, B>(a: seq<Option<A>>, b: seq<Option<B>>): (z: seq<Option<(A, B)>>)
    ensures |z| == Min(|a|, |b|)
  {
    seq(Min(|a|, |b|), i requires 0 <= i < Min(|a|, |b|) =>
      if a[i].Some? && b[i].Some? then Some((a[i].value, b[i].value)) else None)
  }

  /**
    The positions an inner join of two rows by index visits: below both
    lengths, present in both rows, strictly ascending, and every such position.
   */
  ghost function JoinIndices<A, B>(a: seq<Option<A>>, b: seq<Option<B>>): (idx: seq<nat>)
    ensures forall j :: 0 <= j < |idx| ==>
      idx[j] < |a| && idx[j] < |b| && a[idx[j]].Some? && b[idx[j]].Some?
    ensures forall j, k :: 0 <= j < k < |idx| ==> idx[j] < idx[k]
    ensures forall i :: 0 <= i < |a| && i < |b| && a[i].Some? && b[i].Some? ==> i in idx
  {
    var z := Zipped(a, b);
    assert forall i :: 0 <= i < |a| && i < |b| && a[i].Some? && b[i].Some? ==> z[i].Some?;
    PresentIndices(z)
  }

  /** `r` is the pairs of the inner join of `a` and `b` by index, in index order. */
  ghost predicate ListsJoined<A, B>(a: seq<Option<A>>, b: seq<Option<B>>, r: seq<(A, B)>)
  {
    var idx := JoinIndices(a, b);
    |r| == |idx| &&
    forall j :: 0 <= j < |r| ==> a[idx[j]] == Some(r[j].0) && b[idx[j]] == Some(r[j].1)
  }

  /** The pairs an inner join yields are determined by the two rows. */
  lemma JoinedIsDetermined<A, B>(a: seq<Option<A>>, b: seq<Option<B>>, r: seq<(A, B)>)
    requires ListsJoined(a, b, r)
    ensures r == Joined(a, b)
  {
    var idx := JoinIndices(a, b);
    var p := Joined(a, b);
    assert |r| == |p|;
    forall j | 0 <= j < |r|
      ensures r[j] == p[j]
    {
      assert a[idx[j]] == Some(r[j].0) == Some(p[j].0);
      assert b[idx[j]] == Some(r[j].1) == Some(p[j].1);
    }
  }

  /** `zip(..).filter_map(..)` of two rows: the pairs present in both. */
  function Joined<A, B>(a: seq<Option<A>>, b: seq<Option<B>>): (r: seq<(A, B)>)
    ensures ListsJoined(a, b, r)
  {
    Present(Zipped(a, b))
  }

  /** Applies `f` inside every present slot. */
  function MapPresent<A, B>(f: A -> B, s: seq<Option<A>>): seq<Option<B>>
  {
    seq(|s|, i requires 0 <= i < |s| => if s[i].Some? then Some(f(s[i].value)) else None)
  }

  function MapSeq<A, B>(f: A -> B, s: seq<A>): seq<B>
  {
    seq(|s|, i requires 0 <= i < |s| => f(s[i]))
  }

  /** Updating every present slot and then iterating yields the updated values. */
  lemma {:induction false} PresentOfMapped<A, B>(f: A -> B, s: seq<Option<A>>)
    ensures Present(MapPresent(f, s)) == MapSeq(f, Present(s))
  {
    if s != [] {
      var n := |s| - 1;
      assert MapPresent(f, s)[..n] == MapPresent(f, s[..n]);
      PresentOfMapped(f, s[..n]);
      var tail := if s[n].Some? then [s[n].value] else [];
      assert MapSeq(f, Present(s[..n]) + tail) == MapSeq(f, Present(s[..n])) + MapSeq(f, tail);
    }
  }

  /** Swaps each pair: `.map(|(x, y)| (y, x))`. */
  function Swapped<A, B>(ps: seq<(A, B)>): seq<(B, A)>
  {
    seq(|ps|, i requires 0 <= i < |ps| => (ps[i].1, ps[i].0))
  }

  /** Joining `b` with `a` and swapping every pair is joining `a` with `b`. */
  lemma JoinedOrderIndependent<A, B>(a: seq<Option<A>>, b: seq<Option<B>>)
    ensures Swapped(Joined(b, a)) == Joined(a, b)
  {
    var swap := (p: (B, A)) => (p.1, p.0);
    assert Zipped(a, b) == MapPresent(swap, Zipped(b, a));
    PresentOfMapped(swap, Zipped(b, a));
    assert Swapped(Joined(b, a)) == MapSeq(swap, Joined(b, a));
  }

  /**
    Mutation through a zipped `iter_mut`: `f` rewrites the pair at every index
    where both rows are present; every other slot, the presence pattern and
    both lengths are unchanged.
   */
  function JoinUpdate<A, B>(a: seq<Option<A>>, b: seq<Option<B>>, f: (A, B) -> (A, B))
    : (r: (seq<Option<A>>, seq<Option<B>>))
    ensures |r.0| == |a| && |r.1| == |b|
    ensures forall i :: 0 <= i < |a| ==> (r.0[i].Some? <==> a[i].Some?)
    ensures forall i :: 0 <= i < |b| ==> (r.1[i].Some? <==> b[i].Some?)
    ensures forall i :: 0 <= i < |a| && !(i < |b| && a[i].Some? && b[i].Some?) ==> r.0[i] == a[i]
    ensures forall i :: 0 <= i < |b| && !(i < |a| && a[i].Some? && b[i].Some?) ==> r.1[i] == b[i]
  {
    (seq(|a|, i requires 0 <= i < |a| =>
       if i < |b| && a[i].Some? && b[i].Some? then Some(f(a[i].value, b[i].value).0) else a[i]),
     seq(|b|, i requires 0 <= i < |b| =>
       if i < |a| && a[i].Some? && b[i].Some? then Some(f(a[i].value, b[i].value).1) else b[i]))
  }

  /** After a zipped mutation, the join yields exactly the rewritten pairs. */
  lemma JoinedAfterUpdate<A, B>(a: seq<Option<A>>, b: seq<Option<B>>, f: (A, B) -> (A, B))
    ensures Joined(JoinUpdate(a, b, f).0, JoinUpdate(a, b, f).1)
         == MapSeq((p: (A, B)) => f(p.0, p.1), Joined(a, b))
  {
    var g := (p: (A, B)) => f(p.0, p.1);
    var u := JoinUpdate(a, b, f);
    forall i | 0 <= i < Min(|a|, |b|)
      ensures Zipped(u.0, u.1)[i] == MapPresent(g, Zipped(a, b))[i]
    {
      if a[i].Some? && b[i].Some? {
        var p := f(a[i].value, b[i].value);
        assert (p.0, p.1) == p;
      }
    }
    assert Zipped(u.0, u.1) == MapPresent(g, Zipped(a, b));
    PresentOfMapped(g, Zipped(a, b));
  }

  /**
    Downcasting a column, updating every present value with `f` and boxing it
    again: the next query on the column yields exactly the updated values.
   */
  lemma MutationVisibleToQuery<V>(col: Column<V>, t: TypeId, f: V -> V)
    requires Tagged(col, t)
    ensures Present(Typed(Erased(MapPresent(f, Typed(col, t)), t), t)) == MapSeq(f, Present(Typed(col, t)))
  {
    CheckoutUndoesCheckin(MapPresent(f, Typed(col, t)), t);
    PresentOfMapped(f, Typed(col, t));
  }

  /**
    Slot `i` of a column updated in place by `f`: a present box of type `t`
    now holds `f` of its old payload, an absent slot stays absent.
   */
  lemma UpdatedSlot<V>(col: Column<V>, t: TypeId, f: V -> V, i: nat)
    requires Tagged(col, t) && i < |col|
    ensures Erased(MapPresent(f, Typed(col, t)), t)[i]
         == if col[i].Some? then Some(Boxed(t, f(col[i].value.payload))) else None
  {
    var row := Typed(col, t);
    assert MapPresent(f, row)[i] == if row[i].Some? then Some(f(row[i].value)) else None;
  }

  /** A column of `n` absent slots, as `with` creates for a new component type. */
  function Nones<V>(n: nat): (r: Column<V>)
    ensures |r| == n && forall i :: 0 <= i < n ==> r[i] == None
  {
    seq(n, _ => None)
  }

  /** The column `with` writes into: the resident one, or `n` absent slots. */
  function ColumnOr<V>(m: map<TypeId, Column<V>>, t: TypeId, n: nat): Column<V>
  {
    if t in m then m[t] else Nones(n)
  }

  /** One more absent slot at the end of a column. */
  function Padded<V>(col: Column<V>): (r: Column<V>)
    ensures |r| == |col| + 1 && r[|col|] == None
    ensures forall i :: 0 <= i < |col| ==> r[i] == col[i]
  {
    col + [None]
  }

  /** `add_entity`: one more absent slot at the end of every column in `m`. */
  function PadAll<V>(m: map<TypeId, Column<V>>): (r: map<TypeId, Column<V>>)
    ensures forall k :: k in r <==> k in m
    ensures forall k :: k in m ==> r[k] == Padded(m[k])
  {
    map t | t in m :: Padded(m[t])
  }

  /**
    `with`: the column of `t` (created as `n` absent slots if missing) gets the
    boxed component in its last slot; no other slot and no other column changes.
   */
  function WithComponent<V>(m: map<TypeId, Column<V>>, t: TypeId, n: nat, component: V)
    : (r: map<TypeId, Column<V>>)
    requires |ColumnOr(m, t, n)| > 0
    ensures forall k :: k in r <==> k in m || k == t
    ensures forall k :: k in m && k != t ==> r[k] == m[k]
    ensures |r[t]| == |ColumnOr(m, t, n)|
    ensures r[t][|r[t]| - 1] == Some(Boxed(t, component))
    ensures forall i :: 0 <= i < |r[t]| - 1 ==> r[t][i] == ColumnOr(m, t, n)[i]
  {
    var column := ColumnOr(m, t, n);
    m[t := column[|column| - 1 := Some(Boxed(t, component))]]
  }

  /** `with` keeps every column holding boxes of its own type. */
  lemma WithComponentWellTyped<V>(m: map<TypeId, Column<V>>, t: TypeId, n: nat, component: V)
    requires WellTyped(m)
    requires |ColumnOr(m, t, n)| > 0
    ensures WellTyped(WithComponent(m, t, n, component))
  {
    var r := WithComponent(m, t, n, component);
    forall k | k in r
      ensures Tagged(r[k], k)
    {
      if k == t {
        assert Tagged(r[t], t);
      }
    }
  }

  /** A component attached with `with` is the last value a query on its type yields. */
  lemma {:induction false} LastWrittenIsLastYielded<V>(
    m: map<TypeId, Column<V>>, t: TypeId, n: nat, component: V)
    requires WellTyped(m)
    requires |ColumnOr(m, t, n)| > 0
    ensures WellTyped(WithComponent(m, t, n, component))
    ensures var r := Present(Typed(WithComponent(m, t, n, component)[t], t));
      |r| > 0 && r[|r| - 1] == component
  {
    WithComponentWellTyped(m, t, n, component);
    var column := WithComponent(m, t, n, component)[t];
    var last := |column| - 1;
    assert column[last] == Some(Boxed(t, component));
    var row := Typed(column, t);
    assert row[last] == Some(component);
    LastPresentIsLastYielded(row, component);
  }

  /** A row whose last slot is present yields that slot's value last. */
  lemma LastPresentIsLastYielded<A>(s: seq<Option<A>>, a: A)
    requires |s| > 0 && s[|s| - 1] == Some(a)
    ensures var r := Present(s); |r| > 0 && r[|r| - 1] == a
  {
    assert Present(s) == Present(s[..|s| - 1]) + [a];
  }

  // Proof helpers. The lemmas below are facts about sets and maps that the
  // solver does not find by itself; they state nothing about the store.

  /** A non-empty set of component types has a member. */
  lemma NonEmptyHasMember(s: set<TypeId>)
    requires s != {}
    ensures exists x :: x in s
  {
    if forall x :: x !in s {
      assert false;
    }
  }

  /** Two different column maps differ at some type, in presence or in column. */
  lemma MapsDiffer<V>(m: map<TypeId, Column<V>>, n: map<TypeId, Column<V>>)
    requires m != n
    ensures (exists k :: (k in m) != (k in n)) || exists k :: k in m && k in n && m[k] != n[k]
  {
    if (forall k :: (k in m) == (k in n)) && forall k :: k in m && k in n ==> m[k] == n[k] {
      assert false;
    }
  }

  /** Column maps with the same types and the same column at each type are equal. */
  lemma MapsEqual<V>(m: map<TypeId, Column<V>>, n: map<TypeId, Column<V>>)
    requires forall k :: (k in m) == (k in n)
    requires forall k :: k in m ==> m[k] == n[k]
    ensures m == n
  {
    if m != n {
      MapsDiffer(m, n);
      assert false;
    }
  }
}
