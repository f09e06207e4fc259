/**
 What each call on a container leaves in its items (ext/src/Collection.c, ext/src/Set.c, ext/src/Map.c,
 ext/src/Tuple.c, ext/src/UserTypeValue.c), and that no two items of a list, tuple or user type share a
 slot.
 */
module ContainerCalls {
  import opened Options
  import opened Types
  import opened Typed

  /** A call changes its own container only. */
  lemma OthersUntouched(heap: Heap, op: Op, next: ObjectId, o: ObjectId)
    requires o in heap && (op.Create? || op.o != o)
    ensures o in Step(heap, op, next) && Step(heap, op, next)[o] == heap[o]
  {
  }

  /** `create` makes an empty container of the type. */
  lemma CreateEffect(heap: Heap, t: CassType, next: ObjectId)
    requires next !in heap && !t.Scalar?
    ensures var heap' := Step(heap, Create(t), next);
            next in heap' && heap'[next].ctype == t && heap'[next].items == [] && heap'.Keys == heap.Keys + {next}
  {
  }

  // ---- lists -----------------------------------------------------------------------------------

  lemma {:induction false} WithoutSlotSplit(a: seq<Item>, b: seq<Item>, slot: Slot)
    requires forall i :: 0 <= i < |a| ==> a[i].slot != slot
    ensures WithoutSlot(a + b, slot) == a + WithoutSlot(b, slot)
    decreases |a|
  {
    if a == [] {
      assert a + b == b;
    } else {
      assert (a + b)[1..] == a[1..] + b;
      WithoutSlotSplit(a[1..], b, slot);
    }
  }

  /** `remove` takes out the item at the index; the items before and after it keep their order and their
      indexes, and the next free index stays. */
  lemma ListRemoveEffect(heap: Heap, o: ObjectId, next: ObjectId, a: seq<Item>, v: Php, b: seq<Item>, index: nat)
    requires o in heap && heap[o].ctype.ListOf? && heap[o].items == a + [Item(At(index), v)] + b
    requires Unique(heap[o])
    ensures Step(heap, ListRemove(o, index), next)[o] == heap[o].(items := a + b)
  {
    var items, item := heap[o].items, Item(At(index), v);
    assert items[|a|] == item;
    forall i | 0 <= i < |a| ensures a[i].slot != At(index) { assert items[i] == a[i]; }
    forall i | 0 <= i < |b| ensures b[i].slot != At(index) { assert items[|a| + 1 + i] == b[i]; }
    assert items == a + ([item] + b);
    WithoutSlotSplit(a, [item] + b, At(index));
    assert ([item] + b)[1..] == b;
    WithoutSlotSplit(b, [], At(index));
    assert b + [] == b;
  }

  /** `remove` at an index that is not there changes nothing. */
  lemma ListRemoveMissing(heap: Heap, o: ObjectId, next: ObjectId, index: nat)
    requires o in heap && heap[o].ctype.ListOf?
    requires forall i :: 0 <= i < |heap[o].items| ==> heap[o].items[i].slot != At(index)
    ensures Step(heap, ListRemove(o, index), next) == heap
  {
    WithoutSlotSplit(heap[o].items, [], At(index));
    assert heap[o].items + [] == heap[o].items;
    assert heap[o].(items := heap[o].items) == heap[o];
  }

  // ---- sets and maps ---------------------------------------------------------------------------

  /** `add` puts a new element at the end, and changes nothing for one that is there or is refused. */
  lemma SetAddEffect(heap: Heap, o: ObjectId, next: ObjectId, v: Php, present: bool)
    requires o in heap && heap[o].ctype.SetOf?
    ensures var accepted := v != PhpNull && Validate(heap, v, heap[o].ctype.element);
            var c' := Step(heap, SetAdd(o, v, present), next)[o];
            c'.ctype == heap[o].ctype &&
            c'.items == heap[o].items + (if accepted && !present then [Item(Element, v)] else [])
  {
  }

  lemma SetDelEffect(heap: Heap, o: ObjectId, next: ObjectId, a: seq<Item>, item: Item, b: seq<Item>)
    requires o in heap && heap[o].ctype.SetOf? && heap[o].items == a + [item] + b
    ensures Step(heap, SetDel(o, |a|), next)[o].items == a + b
  {
    assert (a + [item] + b)[..|a|] == a;
    assert (a + [item] + b)[|a| + 1..] == b;
  }

  /** `set` on a new key puts key and value at the end. */
  lemma MapSetNewEffect(heap: Heap, o: ObjectId, next: ObjectId, k: Php, v: Php)
    requires o in heap && heap[o].ctype.MapOf?
    ensures var t := heap[o].ctype;
            var accepted := k != PhpNull && v != PhpNull && Validate(heap, k, t.key) && Validate(heap, v, t.value);
            Step(heap, MapSet(o, k, v, None), next)[o].items ==
              heap[o].items + (if accepted then [Item(Key, k), Item(Val, v)] else [])
  {
  }

  /** `set` on a key that is there replaces the value behind it and keeps the key. */
  lemma MapSetExistingEffect(heap: Heap, o: ObjectId, next: ObjectId, a: seq<Item>, k: Php, u: Php, b: seq<Item>,
                             k': Php, v: Php)
    requires o in heap && heap[o].ctype.MapOf? && heap[o].items == a + [Item(Key, k), Item(Val, u)] + b
    requires k' != PhpNull && v != PhpNull
    requires Validate(heap, k', heap[o].ctype.key) && Validate(heap, v, heap[o].ctype.value)
    ensures Step(heap, MapSet(o, k', v, Some(|a|)), next)[o].items == a + [Item(Key, k), Item(Val, v)] + b
  {
    var items := heap[o].items;
    assert items[|a|] == Item(Key, k) && items[|a| + 1] == Item(Val, u);
  }

  lemma MapDelEffect(heap: Heap, o: ObjectId, next: ObjectId, a: seq<Item>, k: Php, v: Php, b: seq<Item>)
    requires o in heap && heap[o].ctype.MapOf? && heap[o].items == a + [Item(Key, k), Item(Val, v)] + b
    ensures Step(heap, MapDel(o, |a|), next)[o].items == a + b
  {
    var items := heap[o].items;
    assert items[..|a|] == a && items[|a| + 2..] == b;
  }

  // ---- records ---------------------------------------------------------------------------------

  /** `set` by index puts the value in its slot, and refuses an index or a value that does not fit. */
  lemma TupleSetEffect(heap: Heap, o: ObjectId, next: ObjectId, index: nat, v: Php)
    requires o in heap && heap[o].ctype.TupleOf?
    ensures var t, c' := Nth(heap[o].ctype.types, index), Step(heap, TupleSet(o, index, v), next)[o];
            if t.Some? && Validate(heap, v, t.value) then SetAt(heap[o], c', At(index), v) else c' == heap[o]
  {
    SetSlotItems(heap[o].items, At(index), v);
  }

  /** `set` by name does the same. */
  lemma UserSetEffect(heap: Heap, o: ObjectId, next: ObjectId, name: string, v: Php)
    requires o in heap && heap[o].ctype.UserType?
    ensures var t, c' := FieldNamed(heap[o].ctype.fields, name), Step(heap, UserSet(o, name, v), next)[o];
            if t.Some? && Validate(heap, v, t.value) then SetAt(heap[o], c', Named(name), v) else c' == heap[o]
  {
    SetSlotItems(heap[o].items, Named(name), v);
  }

  // ---- slots are not shared ----------------------------------------------------------------------

  predicate DistinctSlots(items: seq<Item>) {
    forall i, j :: 0 <= i < j < |items| ==> items[i].slot != items[j].slot
  }

  /** Items of a list, tuple or user type have slots of their own; a list's free indexes are free. */
  predicate Unique(c: Container) {
    && (c.ctype.ListOf? || IsRecord(c.ctype) ==> DistinctSlots(c.items))
    && (c.ctype.ListOf? ==> forall i :: 0 <= i < |c.items| ==> c.items[i].slot.At? && c.items[i].slot.index < c.nextIndex)
  }

  lemma AppendedUnique(c: Container, c': Container, values: seq<Php>)
    requires c.ctype.ListOf? && Unique(c) && Appended(c, c', values)
    ensures Unique(c')
  {
    var n := |c.items|;
    forall i | 0 <= i < |c'.items|
      ensures c'.items[i].slot.At? && (i >= n ==> c'.items[i].slot.index == c.nextIndex + i - n)
      ensures i < n ==> c'.items[i] == c.items[i]
    {
      if i < n {
        assert c'.items[i] == c'.items[..n][i];
      } else {
        assert c'.items[n + (i - n)] == Item(At(c.nextIndex + (i - n)), values[i - n]);
      }
    }
  }

  lemma SetAtUnique(c: Container, c': Container, slot: Slot, v: Php)
    requires IsRecord(c.ctype) && Unique(c) && SetAt(c, c', slot, v)
    ensures Unique(c')
  {
    PositionFirst(c.items, slot);
  }

  lemma {:induction false} WithoutSlotItems(items: seq<Item>, slot: Slot)
    ensures forall x :: x in WithoutSlot(items, slot) ==> x in items
  {
    if items != [] {
      WithoutSlotItems(items[1..], slot);
      assert forall x :: x in items[1..] ==> x in items;
    }
  }

  lemma {:induction false} WithoutSlotKeeps(items: seq<Item>, slot: Slot)
    requires DistinctSlots(items)
    ensures DistinctSlots(WithoutSlot(items, slot))
  {
    if items != [] {
      var rest := WithoutSlot(items[1..], slot);
      WithoutSlotKeeps(items[1..], slot);
      WithoutSlotItems(items[1..], slot);
      forall i | 0 <= i < |rest| ensures rest[i].slot != items[0].slot {
        assert rest[i] in items[1..];
        var j :| 0 <= j < |items| - 1 && rest[i] == items[1..][j];
        assert items[1..][j] == items[j + 1];
      }
    }
  }

  lemma ListRemoveUnique(c: Container, index: nat)
    requires c.ctype.ListOf? && Unique(c)
    ensures Unique(c.(items := WithoutSlot(c.items, At(index))))
  {
    WithoutSlotKeeps(c.items, At(index));
    WithoutSlotItems(c.items, At(index));
    var items' := WithoutSlot(c.items, At(index));
    forall i | 0 <= i < |items'| ensures items'[i].slot.At? && items'[i].slot.index < c.nextIndex {
      assert items'[i] in c.items;
    }
  }

  lemma ChangeUnique(heap: Heap, c: Container, op: Op)
    requires Unique(c)
    ensures Unique(Change(heap, c, op))
  {
    match op
    case ListAdd(_, values) =>
      if c.ctype.ListOf? {
        InsertedItems(c, values);
        AppendedUnique(c, Inserted(c, values), values);
      }
    case ListRemove(_, index) => if c.ctype.ListOf? { ListRemoveUnique(c, index); }
    case TupleSet(_, index, v) =>
      if c.ctype.TupleOf? {
        SetSlotItems(c.items, At(index), v);
        SetAtUnique(c, c.(items := SetSlot(c.items, At(index), v)), At(index), v);
      }
    case UserSet(_, name, v) =>
      if c.ctype.UserType? {
        SetSlotItems(c.items, Named(name), v);
        SetAtUnique(c, c.(items := SetSlot(c.items, Named(name), v)), Named(name), v);
      }
    case _ =>
  }

  ghost predicate AllUnique(heap: Heap) { forall o :: o in heap ==> Unique(heap[o]) }

  /** Over every run, no two items of a list, tuple or user type share a slot, so each index and each
      field is converted at most once. */
  lemma {:induction false} RunUnique(heap: Heap, ops: seq<(Op, ObjectId)>)
    requires AllUnique(heap)
    ensures AllUnique(Run(heap, ops))
    decreases |ops|
  {
    if ops != [] {
      var op := ops[0].0;
      if !op.Create? && op.o in heap { ChangeUnique(heap, heap[op.o], op); }
      RunUnique(Step(heap, op, ops[0].1), ops[1..]);
    }
  }
}
