/**
 The map and set objects (ext/src/Map.c, ext/src/Set.c): the entry table, the cached hash with its
 dirty flag, and the two iteration pointers.
 */
module Containers {
  import opened Options
  import T = Types
  import opened Hashing
  import opened Tables
  import opened TableRuns
  import opened Iteration

  /** `php_driver_validate_object` on the values of this model. */
  predicate Accepts(t: T.CassType, v: Value) {
    match v
    case Null => true
    case String(_) => t == T.Scalar(T.Varchar) || t == T.Scalar(T.Text) || t == T.Scalar(T.Ascii)
    case Double(_) => t == T.Scalar(T.Double)
    case Long(_) => t == T.Scalar(T.Int)
    case True => t == T.Scalar(T.Boolean)
    case False => t == T.Scalar(T.Boolean)
    case Bigint(_) => t == T.Scalar(T.Bigint) || t == T.Scalar(T.Counter)
    case Tuple(u, _) => t.TupleOf? && T.TypeCompare(u, t) == 0
  }

  // ---- hashes --------------------------------------------------------------------------------

  function MapHash(cells: map<Id, Cell<Value>>, ids: seq<Id>, seed: bv32): bv32
    requires forall id :: id in ids ==> id in cells
  {
    if ids == [] then seed
    else
      MapHash(cells, ids[1..],
              CombineHash(CombineHash(seed, ValueHash(cells[ids[0]].key)), ValueHash(cells[ids[0]].value)))
  }

  // ---- equal contents ------------------------------------------------------------------------

  /** What comparison sees of a map: its keys, and its values. */
  ghost function SeenContent(t: Table<Value>): map<Value, Value>
    requires Ordered(t)
  {
    map k | k in Content(t) :: Seen(Content(t)[k])
  }

  lemma {:induction false} BindingsCount<V>(cells: map<Id, Cell<V>>, ids: seq<Id>)
    requires (forall id :: id in ids ==> id in cells) && Sorted(ids) && Distinct(cells)
    ensures |Bindings(cells, ids).Keys| == |ids|
  {
    if ids != [] {
      BindingsCount(cells, ids[1..]);
      assert ids[0] in ids && ids[0] !in ids[1..];
      var x := Seen(cells[ids[0]].key);
      BindingsAbsent(cells, ids[1..], x);
      assert Bindings(cells, ids).Keys == Bindings(cells, ids[1..]).Keys + {x};
    }
  }

  lemma Pigeonhole<T>(a: set<T>, b: set<T>)
    requires a <= b && |a| == |b|
    ensures a == b
  {
    if x :| x in b && x !in a {
      Smaller(a, b - {x});
    }
  }

  lemma {:induction false} Smaller<T>(a: set<T>, b: set<T>)
    requires a <= b
    ensures |a| <= |b|
  {
    if x :| x in a {
      Smaller(a - {x}, b - {x});
    }
  }

  /** The key of the entry `id` is found in the other table. */
  predicate IsFound<V>(t: Table<V>, other: Table<V>, id: Id)
    requires id in t.cells
  {
    Find(other, t.cells[id].key).Some?
  }

  ghost predicate AllFound<V>(t: Table<V>, other: Table<V>) {
    forall id :: id in t.cells ==> IsFound(t, other, id)
  }

  lemma SameKeysSameCount<V>(t: Table<V>, other: Table<V>)
    requires WellFormed(t) && WellFormed(other)
    ensures Content(t).Keys == Content(other).Keys ==> |t.order| == |other.order|
  {
    BindingsCount(t.cells, t.order);
    BindingsCount(other.cells, other.order);
  }

  lemma FoundIsContent<V>(t: Table<V>, other: Table<V>, id: Id)
    requires WellFormed(t) && WellFormed(other) && id in t.cells
    ensures Seen(t.cells[id].key) in Content(t)
    ensures IsFound(t, other, id) <==> Seen(t.cells[id].key) in Content(other)
  {
    BindingsAt(t.cells, t.order, id);
    LookupIsContent(other, t.cells[id].key);
  }

  lemma FoundIsSubset<V>(t: Table<V>, other: Table<V>)
    requires WellFormed(t) && WellFormed(other)
    ensures AllFound(t, other) <==> Content(t).Keys <= Content(other).Keys
  {
    if AllFound(t, other) {
      forall x | x in Content(t) ensures x in Content(other) {
        KeyOwner(t, x);
        var id :| id in t.cells && Seen(t.cells[id].key) == x;
        FoundIsContent(t, other, id);
      }
    }
    if Content(t).Keys <= Content(other).Keys {
      forall id | id in t.cells ensures IsFound(t, other, id) {
        FoundIsContent(t, other, id);
      }
    }
  }

  /** Equal counts make one direction enough: if every key of one table is found in the other, the
      tables have the same keys. */
  lemma FoundBothWays<V>(t: Table<V>, other: Table<V>)
    requires WellFormed(t) && WellFormed(other) && |t.order| == |other.order|
    ensures AllFound(t, other) <==> Content(t).Keys == Content(other).Keys
  {
    FoundIsSubset(t, other);
    if Content(t).Keys <= Content(other).Keys {
      BindingsCount(t.cells, t.order);
      BindingsCount(other.cells, other.order);
      Pigeonhole(Content(t).Keys, Content(other).Keys);
    }
  }

  lemma KeyOwner<V>(t: Table<V>, x: Value)
    requires WellFormed(t) && x in Content(t)
    ensures exists id :: id in t.cells && Seen(t.cells[id].key) == x
  {
    BindingsDomain(t.cells, t.order);
    ImagesAt(t.cells, t.order);
    var i :| 0 <= i < |t.order| && Keys(t)[i] == x;
    assert t.order[i] in t.order;
  }

  /** An element that is there already needs no new value. */
  lemma AddIsPut(t: Table<()>, v: Value)
    requires Chained(t)
    ensures Put(t, v, ()) == if Find(t, v).None? then Append(t, v, ()) else t
  {
    var e := Find(t, v);
    if e.Some? {
      assert t.cells[e.value].value == ();
      assert t.cells[e.value := Cell(t.cells[e.value].key, ())] == t.cells;
    }
  }

  /** A call keeps the table well-formed and `iter_temp` null or live. */
  lemma CallSafe<V>(it: Iter<V>, op: Op<V>)
    requires WellFormed(it.table) && TempOk(it.table, it.cursor.temp)
    ensures WellFormed(Call(it, op).table) && TempOk(Call(it, op).table, Call(it, op).cursor.temp)
    ensures View(Call(it, op).table) == SpecStep(View(it.table), op)
  {
    StepRefines(it.table, op);
    PendingStep(it.table, it.cursor.temp, op);
  }

  /** What a removal that finds its entry does, pointer by pointer. */
  lemma DropCall<V>(it: Iter<V>, k: Value)
    requires Chained(it.table) && Find(it.table, k).Some?
    ensures var id := Find(it.table, k).value;
            Call(it, DropOp(k)) ==
              Iter(Remove(it.table, id),
                   if Some(id) == it.cursor.temp then it.cursor.(temp := NextAfter(it.table.order, id)) else it.cursor)
  {
  }

  // ---- the iterator --------------------------------------------------------------------------

  function Rest(ids: seq<Id>): seq<Id> { if ids == [] then [] else ids[1..] }

  lemma RewindPending(order: seq<Id>)
    requires Sorted(order)
    ensures Rewind(order).curr == First(order) && Pending(order, Rewind(order).temp) == Rest(order)
  {
    if order != [] {
      assert order[0] in order;
      NextPending(order, order[0]);
      assert SuffixAt(order, order[0]) == order;
    }
  }

  lemma AdvancePending(order: seq<Id>, c: Cursor)
    requires Sorted(order) && (c.temp.Some? ==> c.temp.value in order)
    ensures var coming := Pending(order, c.temp);
            Next(order, c).curr == First(coming) && Pending(order, Next(order, c).temp) == Rest(coming)
  {
    if c.temp.Some? {
      NextPending(order, c.temp.value);
      SuffixStarts(order, c.temp.value);
    }
  }

  // ---- sets ----------------------------------------------------------------------------------

  class SetObject {
    const setType: T.CassType
    const elementType: T.CassType
    var table: Table<()>
    var cursor: Cursor
    var index: nat

    ghost predicate Valid()
      reads this
    {
      && WellFormed(table) && TempOk(table, cursor.temp)
      && setType == T.SetOf(elementType)
    }

    function State(): Iter<()>
      reads this
    {
      Iter(table, cursor)
    }

    constructor (t: T.CassType)
      ensures Valid() && elementType == t && table == Empty(32)
    {
      setType, elementType := T.SetOf(t), t;
      table, cursor, index := Empty(32), Cursor(None, None), 0;
      new;
      EmptyWellFormed<()>(32);
    }

    /** `php_driver_set_add`. A value that is already there leaves the table alone. */
    method Add(v: Value) returns (ok: bool)
      requires Valid()
      modifies this
      ensures Valid() && ok == (v != Null && Accepts(elementType, v))
      ensures ok ==> View(table) == SpecStep(old(View(table)), PutOp(v, ()))
      ensures State() == if ok then Call(old(State()), PutOp(v, ())) else old(State())
      ensures ok && Seen(v) in old(Content(table)) ==> table == old(table)
    {
      if v == Null || !Accepts(elementType, v) { return false; }
      CallSafe(State(), PutOp(v, ()));
      AddIsPut(table, v);
      LookupIsContent(table, v);
      if Find(table, v).None? {
        table := Append(table, v, ());
      }
      return true;
    }

    /** `php_driver_set_del`. */
    method Del(v: Value) returns (found: bool)
      requires Valid()
      modifies this
      ensures Valid()
      ensures found == (Accepts(elementType, v) && Seen(v) in old(Content(table)))
      ensures found ==> View(table) == SpecStep(old(View(table)), DropOp(v))
      ensures State() == if found then Call(old(State()), DropOp(v)) else old(State())
    {
      if !Accepts(elementType, v) { return false; }
      CallSafe(State(), DropOp(v));
      LookupIsContent(table, v);
      var e := Find(table, v);
      if e.None? { return false; }
      DropCall(State(), v);
      ghost var it := State();
      if e == cursor.temp {
        cursor := cursor.(temp := NextAfter(table.order, e.value));
      }
      table := Remove(table, e.value);
      assert State() == Call(it, DropOp(v));
      return true;
    }

    /** `php_driver_set_has`. */
    method Has(v: Value) returns (r: bool)
      requires Valid()
      ensures r == (Accepts(elementType, v) && Seen(v) in Content(table))
    {
      LookupIsContent(table, v);
      r := Accepts(elementType, v) && Find(table, v).Some?;
    }

    /** `Set::rewind`. */
    method RewindIteration()
      requires Valid()
      modifies this`cursor, this`index
      ensures Valid() && index == 0 && cursor == Rewind(table.order)
      ensures cursor.curr == First(table.order) && Pending(table.order, cursor.temp) == Rest(table.order)
    {
      RewindPending(table.order);
      cursor := Rewind(table.order);
      index := 0;
    }

    /** `Set::next`. */
    method NextEntry()
      requires Valid()
      modifies this`cursor, this`index
      ensures Valid() && index == old(index) + 1 && cursor == Next(table.order, old(cursor))
      ensures var coming := Pending(table.order, old(cursor).temp);
              cursor.curr == First(coming) && Pending(table.order, cursor.temp) == Rest(coming)
    {
      AdvancePending(table.order, cursor);
      cursor := Next(table.order, cursor);
      index := index + 1;
    }

    /** `php_driver_set_compare`: zero exactly for sets of one type with the same elements, in
        whatever order they were added; otherwise as the types, then the counts; two sets of one size
        that differ are each greater than the other. */
    method Compare(other: SetObject) returns (r: int)
      requires Valid() && other.Valid()
      ensures r == 0 <==> T.TypeCompare(setType, other.setType) == 0
                          && Content(table).Keys == Content(other.table).Keys
      ensures T.TypeCompare(setType, other.setType) != 0 ==> r == T.TypeCompare(setType, other.setType)
      ensures T.TypeCompare(setType, other.setType) == 0 ==>
                && (|table.order| < |other.table.order| ==> r == -1)
                && (|table.order| > |other.table.order| ==> r == 1)
                && (|table.order| == |other.table.order| ==> r == 0 || r == 1)
    {
      SameKeysSameCount(table, other.table);
      r := T.TypeCompare(setType, other.setType);
      if r != 0 { return; }
      var n, m := |table.order|, |other.table.order|;
      if n != m {
        return if n < m then -1 else 1;
      }
      ScanKeysZero(table, other.table);
      r := FindAll(table.cells, table.order, other.table);
    }
  }

  /** The loop of the comparison of sets. */
  function ScanKeys<V>(cells: map<Id, Cell<V>>, ids: seq<Id>, other: Table<V>): (r: int)
    requires forall id :: id in ids ==> id in cells
    ensures r == 0 || r == 1
  {
    if ids == [] then 0
    else if Find(other, cells[ids[0]].key).None? then 1
    else ScanKeys(cells, ids[1..], other)
  }

  lemma {:induction false} ScanKeysFinds<V>(cells: map<Id, Cell<V>>, ids: seq<Id>, other: Table<V>)
    requires forall id :: id in ids ==> id in cells
    ensures ScanKeys(cells, ids, other) == 0 <==> forall id :: id in ids ==> Find(other, cells[id].key).Some?
  {
    if ids != [] {
      ScanKeysFinds(cells, ids[1..], other);
      assert ids == [ids[0]] + ids[1..];
    }
  }

  lemma ScanKeysZero<V>(t: Table<V>, other: Table<V>)
    requires WellFormed(t) && WellFormed(other) && |t.order| == |other.order|
    ensures ScanKeys(t.cells, t.order, other) == 0 <==> Content(t).Keys == Content(other).Keys
  {
    ScanKeysFinds(t.cells, t.order, other);
    FoundBothWays(t, other);
  }

  method FindAll<V>(cells: map<Id, Cell<V>>, ids: seq<Id>, other: Table<V>) returns (r: int)
    requires forall id :: id in ids ==> id in cells
    ensures r == ScanKeys(cells, ids, other)
  {
    var i := 0;
    while i < |ids|
      invariant 0 <= i <= |ids| && ScanKeys(cells, ids, other) == ScanKeys(cells, ids[i..], other)
    {
      if Find(other, cells[ids[i]].key).None? { return 1; }
      assert ids[i..][1..] == ids[i + 1..];
      i := i + 1;
    }
    return 0;
  }

  /** Only one direction is scanned, yet comparing equal is symmetric. */
  method SetCompareSymmetric(a: SetObject, b: SetObject) returns (there: int, back: int)
    requires a.Valid() && b.Valid()
    ensures there == 0 <==> back == 0
  {
    T.TypeCompareZero(a.setType, b.setType);
    T.TypeCompareZero(b.setType, a.setType);
    there := a.Compare(b);
    back := b.Compare(a);
  }

  // ---- maps ----------------------------------------------------------------------------------

  /** The entry `id` of `t` has a counterpart in `other`, with a value that compares equal. */
  ghost predicate Agrees(t: Table<Value>, other: Table<Value>, id: Id)
    requires id in t.cells
  {
    var e := Find(other, t.cells[id].key);
    e.Some? && ValueCompare(t.cells[id].value, other.cells[e.value].value) == 0
  }

  lemma SameKeys(t: Table<Value>, other: Table<Value>)
    requires WellFormed(t) && WellFormed(other) && |t.order| == |other.order|
    requires forall id :: id in t.cells ==> Agrees(t, other, id)
    ensures SeenContent(t).Keys == SeenContent(other).Keys
  {
    FoundBothWays(t, other);
    assert SeenContent(t).Keys == Content(t).Keys && SeenContent(other).Keys == Content(other).Keys;
  }

  lemma SameValue(t: Table<Value>, other: Table<Value>, x: Value)
    requires WellFormed(t) && WellFormed(other) && x in Content(t)
    requires forall id :: id in t.cells ==> Agrees(t, other, id)
    ensures x in Content(other) && SeenContent(t)[x] == SeenContent(other)[x]
  {
    KeyOwner(t, x);
    var id :| id in t.cells && Seen(t.cells[id].key) == x;
    AgreesAt(t, other, id);
  }

  /** Agreement of every entry of one table, with equal counts, is equality of what comparison sees. */
  lemma AgreesBothWays(t: Table<Value>, other: Table<Value>)
    requires WellFormed(t) && WellFormed(other) && |t.order| == |other.order|
    ensures (forall id :: id in t.cells ==> Agrees(t, other, id)) <==> SeenContent(t) == SeenContent(other)
  {
    if forall id :: id in t.cells ==> Agrees(t, other, id) {
      SameKeys(t, other);
      forall x | x in Content(t) ensures SeenContent(t)[x] == SeenContent(other)[x] {
        SameValue(t, other, x);
      }
    } else {
      var id :| id in t.cells && !Agrees(t, other, id);
      AgreesAt(t, other, id);
      assert Seen(t.cells[id].key) in SeenContent(t);
    }
  }

  lemma AgreesAt(t: Table<Value>, other: Table<Value>, id: Id)
    requires WellFormed(t) && WellFormed(other) && id in t.cells
    ensures var x := Seen(t.cells[id].key);
            && x in Content(t)
            && (Agrees(t, other, id) <==> x in Content(other) && SeenContent(t)[x] == SeenContent(other)[x])
  {
    var k := t.cells[id].key;
    BindingsAt(t.cells, t.order, id);
    LookupIsContent(other, k);
    var e := Find(other, k);
    if e.Some? {
      ValueCompareZero(t.cells[id].value, other.cells[e.value].value);
    }
  }

  class MapObject {
    const mapType: T.CassType
    const keyType: T.CassType
    const valueType: T.CassType
    var table: Table<Value>
    var dirty: bool
    var hashv: bv32
    var cursor: Cursor

    ghost predicate Valid()
      reads this
    {
      && WellFormed(table) && TempOk(table, cursor.temp)
      && mapType == T.MapOf(keyType, valueType)
      && (!dirty ==> hashv == MapHash(table.cells, table.order, 0))
    }

    function State(): Iter<Value>
      reads this
    {
      Iter(table, cursor)
    }

    constructor (k: T.CassType, v: T.CassType)
      ensures Valid() && keyType == k && valueType == v && table == Empty(32)
    {
      mapType, keyType, valueType, dirty, hashv := T.MapOf(k, v), k, v, false, 0;
      table, cursor := Empty(32), Cursor(None, None);
      new;
      EmptyWellFormed<Value>(32);
    }

    /** `php_driver_map_set`. */
    method Set(k: Value, v: Value) returns (ok: bool)
      requires Valid()
      modifies this
      ensures Valid()
      ensures ok == (k != Null && v != Null && Accepts(keyType, k) && Accepts(valueType, v))
      ensures ok ==> View(table) == SpecStep(old(View(table)), PutOp(k, v))
      ensures State() == if ok then Call(old(State()), PutOp(k, v)) else old(State())
    {
      if k == Null || v == Null || !Accepts(keyType, k) || !Accepts(valueType, v) { return false; }
      CallSafe(State(), PutOp(k, v));
      dirty := true;
      table := Put(table, k, v);
      return true;
    }

    /** `php_driver_map_get`. */
    method Get(k: Value) returns (r: Option<Value>)
      requires Valid()
      ensures r == if Accepts(keyType, k) && Seen(k) in Content(table) then Some(Content(table)[Seen(k)]) else None
    {
      LookupIsContent(table, k);
      if !Accepts(keyType, k) { return None; }
      var e := Find(table, k);
      if e.None? { return None; }
      return Some(table.cells[e.value].value);
    }

    /** `php_driver_map_del`. */
    method Del(k: Value) returns (found: bool)
      requires Valid()
      modifies this
      ensures Valid()
      ensures found == (Accepts(keyType, k) && Seen(k) in old(Content(table)))
      ensures found ==> View(table) == SpecStep(old(View(table)), DropOp(k))
      ensures State() == if found then Call(old(State()), DropOp(k)) else old(State())
    {
      if !Accepts(keyType, k) { return false; }
      CallSafe(State(), DropOp(k));
      LookupIsContent(table, k);
      var e := Find(table, k);
      if e.None? { return false; }
      DropCall(State(), k);
      ghost var it := State();
      dirty := true;
      if e == cursor.temp {
        cursor := cursor.(temp := NextAfter(table.order, e.value));
      }
      table := Remove(table, e.value);
      assert State() == Call(it, DropOp(k));
      return true;
    }

    /** `php_driver_map_has`. */
    method Has(k: Value) returns (r: bool)
      requires Valid()
      ensures r == (Accepts(keyType, k) && Seen(k) in Content(table))
    {
      LookupIsContent(table, k);
      r := Accepts(keyType, k) && Find(table, k).Some?;
    }

    /** `Map::rewind`. */
    method RewindIteration()
      requires Valid()
      modifies this`cursor
      ensures Valid() && cursor == Rewind(table.order)
      ensures cursor.curr == First(table.order) && Pending(table.order, cursor.temp) == Rest(table.order)
    {
      RewindPending(table.order);
      cursor := Rewind(table.order);
    }

    /** `Map::next`. */
    method NextEntry()
      requires Valid()
      modifies this`cursor
      ensures Valid() && cursor == Next(table.order, old(cursor))
      ensures var coming := Pending(table.order, old(cursor).temp);
              cursor.curr == First(coming) && Pending(table.order, cursor.temp) == Rest(coming)
    {
      AdvancePending(table.order, cursor);
      cursor := Next(table.order, cursor);
    }

    /** `php_driver_map_hash_value`. */
    method HashValue() returns (h: bv32)
      requires Valid()
      modifies this`dirty, this`hashv
      ensures Valid() && h == MapHash(table.cells, table.order, 0)
    {
      if !dirty { return hashv; }
      h := 0;
      var i := 0;
      while i < |table.order|
        invariant 0 <= i <= |table.order|
        invariant MapHash(table.cells, table.order[i..], h) == MapHash(table.cells, table.order, 0)
      {
        var cell := table.cells[table.order[i]];
        h := CombineHash(h, ValueHash(cell.key));
        h := CombineHash(h, ValueHash(cell.value));
        assert table.order[i..][1..] == table.order[i+1..];
        i := i + 1;
      }
      hashv := h;
      dirty := false;
    }

    /** `php_driver_map_compare`: zero exactly for maps of one type with the same keys and the same
        values under them, in whatever order they were set; otherwise as the types, then the counts, then
        as this map's first entry that has no equal in the other. */
    method Compare(other: MapObject) returns (r: int)
      requires Valid() && other.Valid()
      ensures r == 0 <==> T.TypeCompare(mapType, other.mapType) == 0
                          && SeenContent(table) == SeenContent(other.table)
      ensures T.TypeCompare(mapType, other.mapType) != 0 ==> r == T.TypeCompare(mapType, other.mapType)
      ensures T.TypeCompare(mapType, other.mapType) == 0 ==>
                && (|table.order| < |other.table.order| ==> r == -1)
                && (|table.order| > |other.table.order| ==> r == 1)
                && (|table.order| == |other.table.order| && r != 0 ==>
                      FirstUnmatched(table.cells, table.order, other.table, r))
    {
      CountsDiffer(table, other.table);
      r := T.TypeCompare(mapType, other.mapType);
      if r != 0 { return; }
      var n, m := |table.order|, |other.table.order|;
      if n != m {
        return if n < m then -1 else 1;
      }
      ScanPairsZero(table, other.table);
      ScanPairsFirst(table.cells, table.order, other.table);
      r := MatchAll(table.cells, table.order, other.table);
    }
  }

  /** What the loop of the comparison of maps sees of one entry. */
  function ComparePair(cell: Cell<Value>, other: Table<Value>): int {
    var e := Find(other, cell.key);
    if e.None? then 1 else ValueCompare(cell.value, other.cells[e.value].value)
  }

  /** The loop of the comparison of maps. */
  function ScanPairs(cells: map<Id, Cell<Value>>, ids: seq<Id>, other: Table<Value>): int
    requires forall id :: id in ids ==> id in cells
  {
    if ids == [] then 0
    else
      var r := ComparePair(cells[ids[0]], other);
      if r != 0 then r else ScanPairs(cells, ids[1..], other)
  }

  lemma {:induction false} ScanPairsAgree(cells: map<Id, Cell<Value>>, ids: seq<Id>, other: Table<Value>)
    requires forall id :: id in ids ==> id in cells
    ensures ScanPairs(cells, ids, other) == 0 <==> forall id :: id in ids ==> ComparePair(cells[id], other) == 0
  {
    if ids != [] {
      ScanPairsAgree(cells, ids[1..], other);
      assert ids == [ids[0]] + ids[1..];
    }
  }

  /** `r` is the answer at the first entry, in insertion order, that has no equal: 1 for a missing key,
      otherwise the comparison of the values. */
  ghost predicate FirstUnmatched(cells: map<Id, Cell<Value>>, ids: seq<Id>, other: Table<Value>, r: int) {
    exists i :: 0 <= i < |ids| && ids[i] in cells && r == ComparePair(cells[ids[i]], other) != 0
                && forall j :: 0 <= j < i ==> ids[j] in cells && ComparePair(cells[ids[j]], other) == 0
  }

  lemma {:induction false} ScanPairsFirst(cells: map<Id, Cell<Value>>, ids: seq<Id>, other: Table<Value>)
    requires forall id :: id in ids ==> id in cells
    ensures var r := ScanPairs(cells, ids, other);
            r != 0 ==> FirstUnmatched(cells, ids, other, r)
  {
    if ids != [] && ComparePair(cells[ids[0]], other) == 0 {
      ScanPairsFirst(cells, ids[1..], other);
      var r := ScanPairs(cells, ids[1..], other);
      if r != 0 {
        var i :| 0 <= i < |ids| - 1 && ids[1..][i] in cells && r == ComparePair(cells[ids[1..][i]], other) != 0
                 && forall j :: 0 <= j < i ==> ids[1..][j] in cells && ComparePair(cells[ids[1..][j]], other) == 0;
        forall j | 0 <= j < i + 1 ensures ids[j] in cells && ComparePair(cells[ids[j]], other) == 0 {
          if j > 0 { assert ids[1..][j - 1] == ids[j]; }
        }
        assert ids[1..][i] == ids[i + 1];
      }
    }
  }

  lemma ScanPairsZero(t: Table<Value>, other: Table<Value>)
    requires WellFormed(t) && WellFormed(other) && |t.order| == |other.order|
    ensures ScanPairs(t.cells, t.order, other) == 0 <==> SeenContent(t) == SeenContent(other)
  {
    ScanPairsAgree(t.cells, t.order, other);
    AgreesBothWays(t, other);
    assert forall id :: id in t.cells ==> (Agrees(t, other, id) <==> ComparePair(t.cells[id], other) == 0);
  }

  method MatchAll(cells: map<Id, Cell<Value>>, ids: seq<Id>, other: Table<Value>) returns (r: int)
    requires forall id :: id in ids ==> id in cells
    ensures r == ScanPairs(cells, ids, other)
  {
    var i := 0;
    while i < |ids|
      invariant 0 <= i <= |ids| && ScanPairs(cells, ids, other) == ScanPairs(cells, ids[i..], other)
    {
      var cell := cells[ids[i]];
      var e := Find(other, cell.key);
      if e.None? { return 1; }
      r := ValueCompare(cell.value, other.cells[e.value].value);
      if r != 0 { return; }
      assert ids[i..][1..] == ids[i + 1..];
      i := i + 1;
    }
    return 0;
  }

  lemma CountsDiffer(t: Table<Value>, other: Table<Value>)
    requires WellFormed(t) && WellFormed(other)
    ensures SeenContent(t) == SeenContent(other) ==> |t.order| == |other.order|
  {
    SameKeysSameCount(t, other);
    assert SeenContent(t).Keys == Content(t).Keys && SeenContent(other).Keys == Content(other).Keys;
  }

  method MapCompareSymmetric(a: MapObject, b: MapObject) returns (there: int, back: int)
    requires a.Valid() && b.Valid()
    ensures there == 0 <==> back == 0
  {
    T.TypeCompareZero(a.mapType, b.mapType);
    T.TypeCompareZero(b.mapType, a.mapType);
    there := a.Compare(b);
    back := b.Compare(a);
  }

  // ---- when equal maps hash equal --------------------------------------------------------------

  /** The hash as a function of the keys in insertion order and of what is bound to them. */
  function SpecHash(keys: seq<Value>, content: map<Value, Value>, seed: bv32): bv32
    requires forall k :: k in keys ==> k in content
  {
    if keys == [] then seed
    else SpecHash(keys[1..], content, CombineHash(CombineHash(seed, ValueHash(keys[0])), ValueHash(content[keys[0]])))
  }

  lemma {:induction false} FoldIsSpecHash(cells: map<Id, Cell<Value>>, ids: seq<Id>, content: map<Value, Value>, seed: bv32)
    requires forall id :: id in ids ==>
               && id in cells && Seen(cells[id].key) in content
               && content[Seen(cells[id].key)] == Seen(cells[id].value)
    ensures forall k :: k in Images(cells, ids) ==> k in content
    ensures MapHash(cells, ids, seed) == SpecHash(Images(cells, ids), content, seed)
  {
    if ids != [] {
      var cell := cells[ids[0]];
      assert ids[0] in ids;
      HashOfSeen(cell.key);
      HashOfSeen(cell.value);
      FoldIsSpecHash(cells, ids[1..], content, CombineHash(CombineHash(seed, ValueHash(cell.key)), ValueHash(cell.value)));
      assert Images(cells, ids)[1..] == Images(cells, ids[1..]);
    }
  }

  /** The hash of a map depends on its key order and on what comparison sees of it, on nothing else. */
  lemma HashOfView(t: Table<Value>)
    requires WellFormed(t)
    ensures forall k :: k in Keys(t) ==> k in SeenContent(t)
    ensures MapHash(t.cells, t.order, 0) == SpecHash(Keys(t), SeenContent(t), 0)
  {
    forall id | id in t.order
      ensures && Seen(t.cells[id].key) in SeenContent(t)
              && SeenContent(t)[Seen(t.cells[id].key)] == Seen(t.cells[id].value)
    {
      BindingsAt(t.cells, t.order, id);
    }
    FoldIsSpecHash(t.cells, t.order, SeenContent(t), 0);
  }

  /** Maps that look the same to comparison hash equal if their keys were first set in the same order. */
  lemma SameOrderSameHash(t: Table<Value>, u: Table<Value>)
    requires WellFormed(t) && WellFormed(u) && Keys(t) == Keys(u) && SeenContent(t) == SeenContent(u)
    ensures MapHash(t.cells, t.order, 0) == MapHash(u.cells, u.order, 0)
  {
    HashOfView(t);
    HashOfView(u);
  }

  /** Two int keys with value 0. */
  function TwoInts(first: Int64, second: Int64): Spec<Value> {
    Spec([Long(first), Long(second)], map[Long(first) := Long(0), Long(second) := Long(0)])
  }

  lemma SpecTwoPuts(first: Int64, second: Int64)
    requires first != second
    ensures SpecStep(SpecStep(Spec([], map[]), PutOp(Long(first), Long(0))), PutOp(Long(second), Long(0)))
            == TwoInts(first, second)
  {
    var one := SpecStep(Spec([], map[]), PutOp(Long(first), Long(0)));
    assert one == Spec([Long(first)], map[Long(first) := Long(0)]);
    assert one.keys + [Long(second)] == [Long(first), Long(second)];
  }

  lemma EmptyView()
    ensures WellFormed(Empty<Value>(32)) && View(Empty<Value>(32)) == Spec([], map[])
  {
    EmptyWellFormed<Value>(32);
  }

  /** A map of ints with one key. */
  method OneKey(first: Int64) returns (m: MapObject)
    ensures fresh(m) && m.Valid() && m.keyType == m.valueType == T.Scalar(T.Int)
    ensures View(m.table) == SpecStep(Spec([], map[]), PutOp(Long(first), Long(0)))
  {
    EmptyView();
    m := new MapObject(T.Scalar(T.Int), T.Scalar(T.Int));
    var ok := m.Set(Long(first), Long(0));
  }

  /** A map of ints with two keys, set in the given order. */
  method TwoKeys(first: Int64, second: Int64) returns (m: MapObject)
    requires first != second
    ensures fresh(m) && m.Valid() && m.keyType == m.valueType == T.Scalar(T.Int)
    ensures View(m.table) == TwoInts(first, second)
  {
    SpecTwoPuts(first, second);
    m := OneKey(first);
    var ok := m.Set(Long(second), Long(0));
  }

  lemma SmallHashes()
    ensures ValueHash(Long(0)) == 0 && ValueHash(Long(1)) == 1 && ValueHash(Long(2)) == 2
  {
  }

  lemma FoldsDiffer()
    ensures CombineHash(CombineHash(CombineHash(CombineHash(0, 1), 0), 2), 0) !=
            CombineHash(CombineHash(CombineHash(CombineHash(0, 2), 0), 1), 0)
  {
  }

  lemma SpecHashStep(k: Value, rest: seq<Value>, content: map<Value, Value>, seed: bv32)
    requires k in content && forall x :: x in rest ==> x in content
    ensures SpecHash([k] + rest, content, seed) ==
              SpecHash(rest, content, CombineHash(CombineHash(seed, ValueHash(k)), ValueHash(content[k])))
  {
    assert ([k] + rest)[1..] == rest;
  }

  lemma HashOfTwo(first: Int64, second: Int64, content: map<Value, Value>)
    requires Long(first) in content && Long(second) in content
    requires content[Long(first)] == Long(0) && content[Long(second)] == Long(0)
    ensures SpecHash([Long(first), Long(second)], content, 0) ==
              CombineHash(CombineHash(CombineHash(CombineHash(0, ValueHash(Long(first))), 0), ValueHash(Long(second))), 0)
  {
    SmallHashes();
    assert [Long(first), Long(second)] == [Long(first)] + ([Long(second)] + []);
    SpecHashStep(Long(first), [Long(second)] + [], content, 0);
    SpecHashStep(Long(second), [], content, CombineHash(CombineHash(0, ValueHash(Long(first))), 0));
  }

  lemma SpecHashesDiffer()
    ensures var s, t := TwoInts(1, 2), TwoInts(2, 1);
            s.content == t.content && SpecHash(s.keys, s.content, 0) != SpecHash(t.keys, t.content, 0)
  {
    HashOfTwo(1, 2, TwoInts(1, 2).content);
    HashOfTwo(2, 1, TwoInts(2, 1).content);
    SmallHashes();
    FoldsDiffer();
  }

  lemma SeenInts(t: Table<Value>, first: Int64, second: Int64)
    requires WellFormed(t) && View(t) == TwoInts(first, second)
    ensures SeenContent(t) == TwoInts(first, second).content
  {
    assert Content(t) == TwoInts(first, second).content;
  }

  lemma TwoOrders(t: Table<Value>, u: Table<Value>)
    requires WellFormed(t) && WellFormed(u) && View(t) == TwoInts(1, 2) && View(u) == TwoInts(2, 1)
    ensures SeenContent(t) == SeenContent(u) && MapHash(t.cells, t.order, 0) != MapHash(u.cells, u.order, 0)
  {
    SeenInts(t, 1, 2);
    SeenInts(u, 2, 1);
    HashOfView(t);
    HashOfView(u);
    SpecHashesDiffer();
  }

  /** Compares two maps and hashes both. */
  method CompareAndHash(a: MapObject, b: MapObject) returns (compared: int, ha: bv32, hb: bv32)
    requires a != b && a.Valid() && b.Valid()
    modifies a, b
    ensures compared == 0 <==> T.TypeCompare(a.mapType, b.mapType) == 0
                               && old(SeenContent(a.table)) == old(SeenContent(b.table))
    ensures ha == old(MapHash(a.table.cells, a.table.order, 0))
    ensures hb == old(MapHash(b.table.cells, b.table.order, 0))
  {
    compared := a.Compare(b);
    ha := a.HashValue();
    hb := b.HashValue();
  }

  /** {1: 0, 2: 0} built in the two possible orders: the maps compare equal and hash differently. */
  method OrderChangesHash() returns (compared: int, up: bv32, down: bv32)
    ensures compared == 0 && up != down
  {
    var a := TwoKeys(1, 2);
    var b := TwoKeys(2, 1);
    TwoOrders(a.table, b.table);
    T.TypeCompareZero(a.mapType, b.mapType);
    compared, up, down := CompareAndHash(a, b);
  }
}
