/**
 Maps and sets as seen from PHP (ext/src/Map.c, ext/src/Set.c): the bucketed table refines a finite
 map from keys, taken up to comparing equal, together with the sequence of keys in insertion order.
 */
module TableRuns {
  import opened Options
  import opened Hashing
  import opened Tables

  /** `php_driver_map_set` on the table: a present entry gets the new value, an absent key a new entry. */
  function Put<V>(t: Table<V>, k: Value, v: V): Table<V>
    requires Chained(t)
  {
    var e := Find(t, k);
    if e.None? then Append(t, k, v) else Overwrite(t, e.value, v)
  }

  /** `php_driver_map_del` and `php_driver_set_del` on the table. */
  function Drop<V>(t: Table<V>, k: Value): Table<V>
    requires Chained(t)
  {
    var e := Find(t, k);
    if e.None? then t else Remove(t, e.value)
  }

  function Lookup<V>(t: Table<V>, k: Value): Option<V>
    requires Chained(t)
  {
    var e := Find(t, k);
    if e.None? then None else Some(t.cells[e.value].value)
  }

  // ---- the abstract view ---------------------------------------------------------------------

  /** Keys, as comparison sees them, to values. */
  function Bindings<V>(cells: map<Id, Cell<V>>, ids: seq<Id>): map<Value, V>
    requires forall id :: id in ids ==> id in cells
  {
    if ids == [] then map[]
    else Bindings(cells, ids[1..])[Seen(cells[ids[0]].key) := cells[ids[0]].value]
  }

  /** What comparison sees of the keys of `ids`, in order. */
  function Images<V>(cells: map<Id, Cell<V>>, ids: seq<Id>): seq<Value>
    requires forall id :: id in ids ==> id in cells
  {
    if ids == [] then [] else [Seen(cells[ids[0]].key)] + Images(cells, ids[1..])
  }

  /** The finite map a table stands for. */
  ghost function Content<V>(t: Table<V>): map<Value, V>
    requires Ordered(t)
  {
    Bindings(t.cells, t.order)
  }

  /** The keys in insertion order. */
  ghost function Keys<V>(t: Table<V>): seq<Value>
    requires Ordered(t)
  {
    Images(t.cells, t.order)
  }

  lemma {:induction false} BindingsDomain<V>(cells: map<Id, Cell<V>>, ids: seq<Id>)
    requires forall id :: id in ids ==> id in cells
    ensures forall x :: x in Bindings(cells, ids) <==> x in Images(cells, ids)
  {
    if ids != [] { BindingsDomain(cells, ids[1..]); }
  }

  lemma {:induction false} BindingsAt<V>(cells: map<Id, Cell<V>>, ids: seq<Id>, id: Id)
    requires (forall j :: j in ids ==> j in cells) && id in ids && Distinct(cells)
    ensures Seen(cells[id].key) in Bindings(cells, ids)
    ensures Bindings(cells, ids)[Seen(cells[id].key)] == cells[id].value
  {
    if id != ids[0] {
      assert id in ids[1..];
      BindingsAt(cells, ids[1..], id);
    }
  }

  lemma {:induction false} BindingsAbsent<V>(cells: map<Id, Cell<V>>, ids: seq<Id>, x: Value)
    requires forall id :: id in ids ==> id in cells && Seen(cells[id].key) != x
    ensures x !in Bindings(cells, ids) && x !in Images(cells, ids)
  {
    if ids != [] {
      assert ids[0] in ids;
      BindingsAbsent(cells, ids[1..], x);
    }
  }

  lemma LookupIsContent<V>(t: Table<V>, k: Value)
    requires WellFormed(t)
    ensures Lookup(t, k) == if Seen(k) in Content(t) then Some(Content(t)[Seen(k)]) else None
  {
    var e := Find(t, k);
    if e.Some? {
      FindSpec(t, k, e.value);
      BindingsAt(t.cells, t.order, e.value);
    } else {
      FindNone(t, k);
      BindingsAbsent(t.cells, t.order, Seen(k));
    }
  }

  lemma {:induction false} ImagesAt<V>(cells: map<Id, Cell<V>>, ids: seq<Id>)
    requires forall id :: id in ids ==> id in cells
    ensures |Images(cells, ids)| == |ids|
    ensures forall i :: 0 <= i < |ids| ==> Images(cells, ids)[i] == Seen(cells[ids[i]].key)
  {
    if ids != [] { ImagesAt(cells, ids[1..]); }
  }

  /** The key sequence lists the domain of the finite map, each key once. */
  lemma KeysAreDomain<V>(t: Table<V>)
    requires WellFormed(t)
    ensures forall x :: x in Keys(t) <==> x in Content(t)
    ensures forall i, j :: 0 <= i < j < |Keys(t)| ==> Keys(t)[i] != Keys(t)[j]
    ensures |Keys(t)| == |t.order|
  {
    BindingsDomain(t.cells, t.order);
    ImagesAt(t.cells, t.order);
    var keys, order := Keys(t), t.order;
    forall i, j | 0 <= i < j < |keys| ensures keys[i] != keys[j] {
      assert order[i] in order && order[j] in order && order[i] != order[j];
    }
  }

  // ---- one step --------------------------------------------------------------------------------

  lemma {:induction false} ImagesFrame<V>(cells: map<Id, Cell<V>>, cells': map<Id, Cell<V>>, ids: seq<Id>)
    requires forall id :: id in ids ==> id in cells && id in cells' && cells[id].key == cells'[id].key
    ensures Images(cells', ids) == Images(cells, ids)
  {
    if ids != [] { ImagesFrame(cells, cells', ids[1..]); }
  }

  lemma {:induction false} ImagesAppend<V>(cells: map<Id, Cell<V>>, ids: seq<Id>, id: Id)
    requires id in cells && forall j :: j in ids ==> j in cells
    ensures Images(cells, ids + [id]) == Images(cells, ids) + [Seen(cells[id].key)]
  {
    if ids == [] {
      assert ids + [id] == [id];
    } else {
      assert (ids + [id])[1..] == ids[1..] + [id];
      ImagesAppend(cells, ids[1..], id);
    }
  }

  lemma {:induction false} ImagesWithout<V>(cells: map<Id, Cell<V>>, ids: seq<Id>, id: Id)
    requires id in cells && Distinct(cells) && forall j :: j in ids ==> j in cells
    ensures forall j :: j in Without(ids, id) ==> j in cells
    ensures Images(cells, Without(ids, id)) == Without(Images(cells, ids), Seen(cells[id].key))
  {
    WithoutMembers(ids, id);
    if ids != [] {
      ImagesWithout(cells, ids[1..], id);
      WithoutMembers(ids[1..], id);
    }
  }

  lemma {:induction false} BindingsFrame<V>(cells: map<Id, Cell<V>>, cells': map<Id, Cell<V>>, ids: seq<Id>)
    requires forall id :: id in ids ==> id in cells && id in cells' && cells[id] == cells'[id]
    ensures Bindings(cells', ids) == Bindings(cells, ids)
  {
    if ids != [] { BindingsFrame(cells, cells', ids[1..]); }
  }

  lemma {:induction false} BindingsAppend<V>(cells: map<Id, Cell<V>>, ids: seq<Id>, id: Id)
    requires id in cells && id !in ids && Distinct(cells) && forall j :: j in ids ==> j in cells
    ensures Bindings(cells, ids + [id]) == Bindings(cells, ids)[Seen(cells[id].key) := cells[id].value]
  {
    if ids == [] {
      assert ids + [id] == [id];
    } else {
      assert (ids + [id])[1..] == ids[1..] + [id];
      BindingsAppend(cells, ids[1..], id);
      assert ids[0] in ids;
    }
  }

  lemma {:induction false} BindingsOverwrite<V>(cells: map<Id, Cell<V>>, ids: seq<Id>, id: Id, v: V)
    requires id in ids && Sorted(ids) && Distinct(cells) && forall j :: j in ids ==> j in cells
    ensures Bindings(cells[id := Cell(cells[id].key, v)], ids) == Bindings(cells, ids)[Seen(cells[id].key) := v]
  {
    var cells' := cells[id := Cell(cells[id].key, v)];
    assert ids[0] in ids;
    if ids[0] == id {
      BindingsFrame(cells, cells', ids[1..]);
    } else {
      BindingsOverwrite(cells, ids[1..], id, v);
    }
  }

  lemma {:induction false} BindingsWithout<V>(cells: map<Id, Cell<V>>, ids: seq<Id>, id: Id)
    requires id in cells && Distinct(cells) && forall j :: j in ids ==> j in cells
    ensures forall j :: j in Without(ids, id) ==> j in cells
    ensures Bindings(cells, Without(ids, id)) == Bindings(cells, ids) - {Seen(cells[id].key)}
  {
    WithoutMembers(ids, id);
    if ids != [] {
      BindingsWithout(cells, ids[1..], id);
      WithoutMembers(ids[1..], id);
      assert ids[0] in ids;
    }
  }

  lemma AppendContent<V>(t: Table<V>, k: Value, v: V)
    requires Ordered(t) && Chained(t) && Ordered(Append(t, k, v)) && Distinct(Append(t, k, v).cells)
    ensures Content(Append(t, k, v)) == Content(t)[Seen(k) := v]
    ensures Keys(Append(t, k, v)) == Keys(t) + [Seen(k)]
  {
    var cells := t.cells[t.next := Cell(k, v)];
    BindingsAppend(cells, t.order, t.next);
    ImagesAppend(cells, t.order, t.next);
    BindingsFrame(t.cells, cells, t.order);
    ImagesFrame(t.cells, cells, t.order);
  }

  lemma PutRefines<V>(t: Table<V>, k: Value, v: V)
    requires WellFormed(t)
    ensures WellFormed(Put(t, k, v))
    ensures Content(Put(t, k, v)) == Content(t)[Seen(k) := v]
    ensures Keys(Put(t, k, v)) == if Seen(k) in Content(t) then Keys(t) else Keys(t) + [Seen(k)]
  {
    LookupIsContent(t, k);
    var e := Find(t, k);
    if e.None? {
      AppendWellFormed(t, k, v);
      AppendContent(t, k, v);
    } else {
      FindSpec(t, k, e.value);
      OverwriteWellFormed(t, e.value, v);
      BindingsOverwrite(t.cells, t.order, e.value, v);
      ImagesFrame(t.cells, Put(t, k, v).cells, t.order);
    }
  }

  lemma RemoveContent<V>(t: Table<V>, id: Id)
    requires Ordered(t) && Chained(t) && Distinct(t.cells) && id in t.cells && Ordered(Remove(t, id))
    ensures Content(Remove(t, id)) == Content(t) - {Seen(t.cells[id].key)}
    ensures Keys(Remove(t, id)) == Without(Keys(t), Seen(t.cells[id].key))
  {
    var rest := Without(t.order, id);
    BindingsWithout(t.cells, t.order, id);
    ImagesWithout(t.cells, t.order, id);
    BindingsFrame(t.cells, t.cells - {id}, rest);
    ImagesFrame(t.cells, t.cells - {id}, rest);
  }

  lemma DropRefines<V>(t: Table<V>, k: Value)
    requires WellFormed(t)
    ensures WellFormed(Drop(t, k))
    ensures Content(Drop(t, k)) == Content(t) - {Seen(k)}
    ensures Keys(Drop(t, k)) == Without(Keys(t), Seen(k))
  {
    var e := Find(t, k);
    if e.Some? {
      FindSpec(t, k, e.value);
      RemoveWellFormed(t, e.value);
      RemoveContent(t, e.value);
    } else {
      FindNone(t, k);
      BindingsAbsent(t.cells, t.order, Seen(k));
      WithoutAbsent(Keys(t), Seen(k));
      MapWithoutAbsent(Content(t), Seen(k));
    }
  }

  lemma MapWithoutAbsent<K, V>(m: map<K, V>, x: K)
    requires x !in m
    ensures m - {x} == m
  {
  }

  lemma {:induction false} WithoutAbsent<T>(s: seq<T>, x: T)
    requires x !in s
    ensures Without(s, x) == s
  {
    if s != [] { WithoutAbsent(s[1..], x); }
  }

  // ---- whole runs ------------------------------------------------------------------------------

  /** The calls of a program on one map, and bucket expansion, which may come at any time. */
  datatype Op<V> = PutOp(key: Value, value: V) | DropOp(key: Value) | RebucketOp(buckets: nat)

  function Step<V>(t: Table<V>, op: Op<V>): Table<V>
    requires Chained(t)
  {
    match op
    case PutOp(k, v) => Put(t, k, v)
    case DropOp(k) => Drop(t, k)
    case RebucketOp(n) => if n > 0 then Rebucket(t, n) else t
  }

  /** The specification: a finite map and the sequence of its keys. */
  datatype Spec<V> = Spec(keys: seq<Value>, content: map<Value, V>)

  function SpecStep<V>(s: Spec<V>, op: Op<V>): Spec<V> {
    match op
    case PutOp(k, v) =>
      Spec(if Seen(k) in s.content then s.keys else s.keys + [Seen(k)], s.content[Seen(k) := v])
    case DropOp(k) => Spec(Without(s.keys, Seen(k)), s.content - {Seen(k)})
    case RebucketOp(_) => s
  }

  function SpecRun<V>(s: Spec<V>, ops: seq<Op<V>>): Spec<V>
    decreases |ops|
  {
    if ops == [] then s else SpecRun(SpecStep(s, ops[0]), ops[1..])
  }

  ghost function View<V>(t: Table<V>): Spec<V>
    requires WellFormed(t)
  {
    Spec(Keys(t), Content(t))
  }

  lemma StepRefines<V>(t: Table<V>, op: Op<V>)
    requires WellFormed(t)
    ensures WellFormed(Step(t, op)) && View(Step(t, op)) == SpecStep(View(t), op)
  {
    match op
    case PutOp(k, v) => PutRefines(t, k, v);
    case DropOp(k) => DropRefines(t, k);
    case RebucketOp(n) => if n > 0 { RebucketWellFormed(t, n); }
  }

  ghost function Run<V>(t: Table<V>, ops: seq<Op<V>>): (t': Table<V>)
    requires WellFormed(t)
    ensures WellFormed(t')
    decreases |ops|
  {
    if ops == [] then t else StepRefines(t, ops[0]); Run(Step(t, ops[0]), ops[1..])
  }

  /** After any run, the table stands for what the specification computes, and every lookup, which
      searches one bucket, answers as the finite map does and as a scan of all entries does. */
  lemma {:induction false} RunRefines<V>(t: Table<V>, ops: seq<Op<V>>, k: Value)
    requires WellFormed(t)
    ensures var t' := Run(t, ops);
            var s := SpecRun(View(t), ops);
            && View(t') == s
            && Lookup(t', k) == (if Seen(k) in s.content then Some(s.content[Seen(k)]) else None)
            && Find(t', k) == Scan(t'.cells, t'.order, k)
    decreases |ops|
  {
    if ops == [] {
      LookupIsContent(t, k);
      FindIsLinearScan(t, k);
    } else {
      StepRefines(t, ops[0]);
      RunRefines(Step(t, ops[0]), ops[1..], k);
    }
  }
}
