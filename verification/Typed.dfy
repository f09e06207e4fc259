/**
 Typed containers and their conversion to native values (ext/util/collections.c and the insertion
 methods of ext/src/Collection.c, ext/src/Set.c, ext/src/Map.c, ext/src/Tuple.c and
 ext/src/UserTypeValue.c).

 Containers are objects: one container can be an element of several others, and can be changed
 after it was inserted. `php_driver_validate_object` looks only at a container's declared type, so
 what makes conversion safe is the discipline of all insertions together.
 */
module Typed {
  import opened Options
  import opened Types
  import opened Powers

  type ObjectId = nat

  /** The class of a PHP value that is not a container. */
  datatype Class =
    | StringClass | DoubleClass | LongClass | BoolClass | FloatClass | BigintClass | SmallintClass
    | TinyintClass | BlobClass | DecimalClass | DurationClass | TimestampClass | DateClass | TimeClass
    | UuidClass | VarintClass | TimeuuidClass | InetClass | OtherClass

  datatype Php = PhpNull | PhpScalar(class_: Class) | PhpRef(ref: ObjectId)

  /** Where a container keeps a value: a list index or tuple position, a set element, a map key or
      the value under it, a field of a user type. */
  datatype Slot = At(index: nat) | Element | Key | Val | Named(name: string)

  datatype Item = Item(slot: Slot, value: Php)

  /** `items` is in iteration order; an entry of a map is a key followed by a value. */
  datatype Container = Container(ctype: CassType, items: seq<Item>, nextIndex: nat)

  type Heap = map<ObjectId, Container>

  /** The class that `php_driver_validate_object` asks for; none fits a custom type. */
  predicate ScalarFits(kind: Kind, c: Class) {
    match kind
    case Varchar => c == StringClass case Text => c == StringClass case Ascii => c == StringClass
    case Double => c == DoubleClass case Int => c == LongClass case Boolean => c == BoolClass
    case Float => c == FloatClass case Counter => c == BigintClass case Bigint => c == BigintClass
    case Smallint => c == SmallintClass case Tinyint => c == TinyintClass case Blob => c == BlobClass
    case Decimal => c == DecimalClass case Duration => c == DurationClass
    case Timestamp => c == TimestampClass case Date => c == DateClass case Time => c == TimeClass
    case Uuid => c == UuidClass case Varint => c == VarintClass case Timeuuid => c == TimeuuidClass
    case Inet => c == InetClass
    case Custom => false
  }

  /** The storage in which a value keeps its contents: a zval itself, or a struct of its class. */
  datatype Storage =
    | ZvalString | ZvalDouble | ZvalLong | ZvalBool | FloatStruct | BigintStruct | SmallintStruct
    | TinyintStruct | BlobStruct | DecimalStruct | DurationStruct | TimestampStruct | DateStruct
    | TimeStruct | UuidStruct | VarintStruct | InetStruct

  /** What the classes hold; both classes of uuids have the same struct. */
  function Holds(c: Class): Option<Storage> {
    match c
    case StringClass => Some(ZvalString) case DoubleClass => Some(ZvalDouble) case LongClass => Some(ZvalLong)
    case BoolClass => Some(ZvalBool) case FloatClass => Some(FloatStruct) case BigintClass => Some(BigintStruct)
    case SmallintClass => Some(SmallintStruct) case TinyintClass => Some(TinyintStruct)
    case BlobClass => Some(BlobStruct) case DecimalClass => Some(DecimalStruct)
    case DurationClass => Some(DurationStruct) case TimestampClass => Some(TimestampStruct)
    case DateClass => Some(DateStruct) case TimeClass => Some(TimeStruct) case UuidClass => Some(UuidStruct)
    case VarintClass => Some(VarintStruct) case TimeuuidClass => Some(UuidStruct)
    case InetClass => Some(InetStruct) case OtherClass => None
  }

  /** What the converter reads for a type, whatever value it is given; a custom type has no branch. */
  function Reads(kind: Kind): Option<Storage> {
    match kind
    case Text => Some(ZvalString) case Ascii => Some(ZvalString) case Varchar => Some(ZvalString)
    case Bigint => Some(BigintStruct) case Counter => Some(BigintStruct) case Smallint => Some(SmallintStruct)
    case Tinyint => Some(TinyintStruct) case Blob => Some(BlobStruct) case Boolean => Some(ZvalBool)
    case Double => Some(ZvalDouble) case Float => Some(FloatStruct) case Int => Some(ZvalLong)
    case Timestamp => Some(TimestampStruct) case Date => Some(DateStruct) case Time => Some(TimeStruct)
    case Uuid => Some(UuidStruct) case Timeuuid => Some(UuidStruct) case Varint => Some(VarintStruct)
    case Decimal => Some(DecimalStruct) case Duration => Some(DurationStruct) case Inet => Some(InetStruct)
    case Custom => None
  }

  /** A validated value holds what the converter will read: the two switches agree on every kind. */
  lemma FitsIsReadable(kind: Kind, c: Class)
    requires ScalarFits(kind, c)
    ensures Reads(kind).Some? && Holds(c) == Reads(kind)
  {
  }

  lemma ReadableFits(kind: Kind, c: Class)
    requires Reads(kind).Some? && Holds(c) == Reads(kind) && kind != Uuid && kind != Timeuuid
    ensures ScalarFits(kind, c)
  {
  }

  /** Validation is as strict as reading needs, and stricter only between the two classes of uuids. */
  lemma FitsExactly(kind: Kind, c: Class)
    ensures ScalarFits(kind, c) <==>
              && Reads(kind).Some? && Holds(c) == Reads(kind)
              && (kind == Uuid ==> c != TimeuuidClass) && (kind == Timeuuid ==> c != UuidClass)
  {
    if ScalarFits(kind, c) {
      FitsIsReadable(kind, c);
    } else if kind != Uuid && kind != Timeuuid && Reads(kind).Some? && Holds(c) == Reads(kind) {
      ReadableFits(kind, c);
    }
  }

  /** `php_driver_validate_object`: shallow, and null always passes. */
  predicate Validate(heap: Heap, v: Php, t: CassType) {
    match v
    case PhpNull => true
    case PhpScalar(c) => t.Scalar? && ScalarFits(t.kind, c)
    case PhpRef(o) => !t.Scalar? && o in heap && TypeCompare(heap[o].ctype, t) == 0
  }

  // ---- slots -----------------------------------------------------------------------------------

  function Nth<T>(xs: List<T>, i: nat): Option<T> {
    if xs.Nil? then None else if i == 0 then Some(xs.head) else Nth(xs.tail, i - 1)
  }

  function FieldNamed(fs: List<FieldType>, name: string): Option<CassType> {
    if fs.Nil? then None
    else if fs.head.name == name then Some(fs.head.fieldType)
    else FieldNamed(fs.tail, name)
  }

  function SlotType(t: CassType, slot: Slot): Option<CassType> {
    match (t, slot)
    case (ListOf(e), At(_)) => Some(e)
    case (SetOf(e), Element) => Some(e)
    case (MapOf(k, _), Key) => Some(k)
    case (MapOf(_, v), Val) => Some(v)
    case (TupleOf(ts), At(i)) => Nth(ts, i)
    case (UserType(fs), Named(n)) => FieldNamed(fs, n)
    case _ => None
  }

  /** Tuples and user types may hold nulls. */
  predicate IsRecord(t: CassType) { t.TupleOf? || t.UserType? }

  // ---- type depth --------------------------------------------------------------------------------

  function Depth(t: CassType): nat {
    match t
    case Scalar(_) => 0
    case ListOf(e) => 1 + Depth(e)
    case SetOf(e) => 1 + Depth(e)
    case MapOf(k, v) => 1 + Max(Depth(k), Depth(v))
    case TupleOf(ts) => 1 + DepthTypes(ts)
    case UserType(fs) => 1 + DepthFields(fs)
  }

  function DepthTypes(ts: List<CassType>): nat {
    if ts.Nil? then 0 else Max(Depth(ts.head), DepthTypes(ts.tail))
  }

  function DepthFields(fs: List<FieldType>): nat {
    if fs.Nil? then 0 else Max(Depth(fs.head.fieldType), DepthFields(fs.tail))
  }

  lemma {:induction false} DepthNormal(t: CassType)
    ensures Depth(Normal(t)) == Depth(t)
  {
    match t
    case Scalar(_) =>
    case ListOf(e) => DepthNormal(e);
    case SetOf(e) => DepthNormal(e);
    case MapOf(k, v) => DepthNormal(k); DepthNormal(v);
    case TupleOf(ts) => DepthNormalTypes(ts);
    case UserType(fs) => DepthNormalFields(fs);
  }

  lemma {:induction false} DepthNormalTypes(ts: List<CassType>)
    ensures DepthTypes(NormalTypes(ts)) == DepthTypes(ts)
  {
    if ts.Cons? { DepthNormal(ts.head); DepthNormalTypes(ts.tail); }
  }

  lemma {:induction false} DepthNormalFields(fs: List<FieldType>)
    ensures DepthFields(NormalFields(fs)) == DepthFields(fs)
  {
    if fs.Cons? { DepthNormal(fs.head.fieldType); DepthNormalFields(fs.tail); }
  }

  /** Types that compare equal have one depth. */
  lemma SameDepth(a: CassType, b: CassType)
    requires TypeCompare(a, b) == 0
    ensures Depth(a) == Depth(b)
  {
    TypeCompareZero(a, b);
    DepthNormal(a);
    DepthNormal(b);
  }

  lemma {:induction false} NthDepth(ts: List<CassType>, i: nat)
    ensures Nth(ts, i).Some? ==> Depth(Nth(ts, i).value) <= DepthTypes(ts)
  {
    if ts.Cons? && i > 0 { NthDepth(ts.tail, i - 1); }
  }

  lemma {:induction false} FieldDepth(fs: List<FieldType>, name: string)
    ensures FieldNamed(fs, name).Some? ==> Depth(FieldNamed(fs, name).value) <= DepthFields(fs)
  {
    if fs.Cons? { FieldDepth(fs.tail, name); }
  }

  lemma SlotDepth(t: CassType, slot: Slot)
    ensures SlotType(t, slot).Some? ==> Depth(SlotType(t, slot).value) < Depth(t)
  {
    match (t, slot)
    case (TupleOf(ts), At(i)) => NthDepth(ts, i);
    case (UserType(fs), Named(n)) => FieldDepth(fs, n);
    case _ =>
  }

  // ---- the invariant -----------------------------------------------------------------------------

  predicate ItemOk(heap: Heap, t: CassType, item: Item) {
    && SlotType(t, item.slot).Some?
    && Validate(heap, item.value, SlotType(t, item.slot).value)
    && (item.value.PhpNull? ==> IsRecord(t))
  }

  predicate ContainerOk(heap: Heap, c: Container) {
    !c.ctype.Scalar? && forall i :: 0 <= i < |c.items| ==> ItemOk(heap, c.ctype, c.items[i])
  }

  /** Every container is well-typed as far as its own items' declared types go. */
  ghost predicate WellTyped(heap: Heap) {
    forall o {:trigger ContainerOk(heap, heap[o])} :: o in heap ==> ContainerOk(heap, heap[o])
  }

  // ---- operations ----------------------------------------------------------------------------------

  /** A call on a container. Lookups in sets and maps depend on hashing and comparing; their result
      comes with the call: whether an element is present, the item position of an existing key. */
  datatype Op =
    | Create(ctype: CassType)
    | ListAdd(o: ObjectId, values: seq<Php>)
    | ListRemove(o: ObjectId, index: nat)
    | SetAdd(o: ObjectId, value: Php, present: bool)
    | SetDel(o: ObjectId, position: nat)
    | MapSet(o: ObjectId, key: Php, value: Php, existing: Option<nat>)
    | MapDel(o: ObjectId, position: nat)
    | TupleSet(o: ObjectId, index: nat, value: Php)
    | UserSet(o: ObjectId, name: string, value: Php)

  predicate NonNullValid(heap: Heap, v: Php, t: CassType) { v != PhpNull && Validate(heap, v, t) }

  /** Values appended to a list take the next free indexes. */
  function Inserted(c: Container, values: seq<Php>): Container
    decreases |values|
  {
    if values == [] then c
    else Inserted(c.(items := c.items + [Item(At(c.nextIndex), values[0])], nextIndex := c.nextIndex + 1), values[1..])
  }

  /** The list keeps its items and gains the values in order, at the next free indexes. */
  predicate Appended(c: Container, c': Container, values: seq<Php>) {
    var n := |c.items|;
    && c'.ctype == c.ctype && c'.nextIndex == c.nextIndex + |values|
    && |c'.items| == n + |values| && c'.items[..n] == c.items
    && forall i :: 0 <= i < |values| ==> c'.items[n + i] == Item(At(c.nextIndex + i), values[i])
  }

  lemma {:induction false} InsertedItems(c: Container, values: seq<Php>)
    ensures Appended(c, Inserted(c, values), values)
    decreases |values|
  {
    if values != [] {
      var one := c.(items := c.items + [Item(At(c.nextIndex), values[0])], nextIndex := c.nextIndex + 1);
      var all := Inserted(one, values[1..]);
      InsertedItems(one, values[1..]);
      assert all.items[..|c.items|] == all.items[..|one.items|][..|c.items|];
      forall i | 0 <= i < |values| ensures all.items[|c.items| + i] == Item(At(c.nextIndex + i), values[i]) {
        if i == 0 {
          assert all.items[|c.items|] == all.items[..|one.items|][|c.items|];
        } else {
          assert all.items[|one.items| + (i - 1)] == Item(At(one.nextIndex + (i - 1)), values[1..][i - 1]);
        }
      }
    }
  }

  function WithoutSlot(items: seq<Item>, slot: Slot): seq<Item> {
    if items == [] then []
    else if items[0].slot == slot then WithoutSlot(items[1..], slot)
    else [items[0]] + WithoutSlot(items[1..], slot)
  }

  function RemoveRange(items: seq<Item>, position: nat, count: nat): seq<Item> {
    if position + count <= |items| then items[..position] + items[position + count..] else items
  }

  /** In place if the slot is occupied, at the end otherwise. */
  function SetSlot(items: seq<Item>, slot: Slot, v: Php): seq<Item> {
    if items == [] then [Item(slot, v)]
    else if items[0].slot == slot then [Item(slot, v)] + items[1..]
    else [items[0]] + SetSlot(items[1..], slot, v)
  }

  /** The position of the first item in the slot, the number of items if there is none. */
  function Position(items: seq<Item>, slot: Slot): nat {
    if items == [] || items[0].slot == slot then 0 else 1 + Position(items[1..], slot)
  }

  lemma {:induction false} PositionFirst(items: seq<Item>, slot: Slot)
    ensures var p := Position(items, slot);
            && p <= |items| && (p < |items| ==> items[p].slot == slot)
            && forall i :: 0 <= i < p ==> items[i].slot != slot
  {
    if items != [] && items[0].slot != slot { PositionFirst(items[1..], slot); }
  }

  /** The container has the value in the slot, where an item in that slot was, or else at the end; all
      other items stay where they are. */
  predicate SetAt(c: Container, c': Container, slot: Slot, v: Php) {
    var p := Position(c.items, slot);
    && c'.ctype == c.ctype && c'.nextIndex == c.nextIndex
    && p <= |c.items|
    && c'.items == if p < |c.items| then c.items[p := Item(slot, v)] else c.items + [Item(slot, v)]
  }

  lemma {:induction false} SetSlotItems(items: seq<Item>, slot: Slot, v: Php)
    ensures Position(items, slot) <= |items|
    ensures var p := Position(items, slot);
            SetSlot(items, slot, v) == if p < |items| then items[p := Item(slot, v)] else items + [Item(slot, v)]
  {
    PositionFirst(items, slot);
    if items != [] && items[0].slot != slot {
      SetSlotItems(items[1..], slot, v);
      assert items == [items[0]] + items[1..];
    }
  }

  function MapItems(items: seq<Item>, key: Php, value: Php, existing: Option<nat>): seq<Item> {
    match existing
    case Some(p) =>
      if p + 1 < |items| && items[p].slot == Key && items[p + 1].slot == Val then
        items[p + 1 := Item(Val, value)]
      else items
    case None => items + [Item(Key, key), Item(Val, value)]
  }

  /** What a call makes of its container; a rejected call leaves it alone. */
  function Change(heap: Heap, c: Container, op: Op): Container {
    match op
    case ListAdd(_, values) =>
      if c.ctype.ListOf? && (forall i :: 0 <= i < |values| ==> NonNullValid(heap, values[i], c.ctype.element)) then
        Inserted(c, values)
      else c
    case ListRemove(_, index) => if !c.ctype.ListOf? then c else c.(items := WithoutSlot(c.items, At(index)))
    case SetAdd(_, v, present) =>
      if c.ctype.SetOf? && NonNullValid(heap, v, c.ctype.element) && !present then
        c.(items := c.items + [Item(Element, v)])
      else c
    case SetDel(_, position) => if !c.ctype.SetOf? then c else c.(items := RemoveRange(c.items, position, 1))
    case MapSet(_, k, v, existing) =>
      if c.ctype.MapOf? && NonNullValid(heap, k, c.ctype.key) && NonNullValid(heap, v, c.ctype.value) then
        c.(items := MapItems(c.items, k, v, existing))
      else c
    case MapDel(_, position) => if !c.ctype.MapOf? then c else c.(items := RemoveRange(c.items, position, 2))
    case TupleSet(_, index, v) =>
      if c.ctype.TupleOf? && Nth(c.ctype.types, index).Some? && Validate(heap, v, Nth(c.ctype.types, index).value) then
        c.(items := SetSlot(c.items, At(index), v))
      else c
    case UserSet(_, name, v) =>
      if c.ctype.UserType? && FieldNamed(c.ctype.fields, name).Some?
         && Validate(heap, v, FieldNamed(c.ctype.fields, name).value) then
        c.(items := SetSlot(c.items, Named(name), v))
      else c
    case Create(_) => c
  }

  /** One call; `next` is the id of a container to be created. */
  function Step(heap: Heap, op: Op, next: ObjectId): Heap {
    if op.Create? then (if op.ctype.Scalar? || next in heap then heap else heap[next := Container(op.ctype, [], 0)])
    else if op.o in heap then heap[op.o := Change(heap, heap[op.o], op)]
    else heap
  }

  // ---- every call keeps the invariant -----------------------------------------------------------

  predicate ItemsOk(heap: Heap, t: CassType, items: seq<Item>) {
    forall i :: 0 <= i < |items| ==> ItemOk(heap, t, items[i])
  }

  lemma ItemsAppend(heap: Heap, t: CassType, items: seq<Item>, more: seq<Item>)
    requires ItemsOk(heap, t, items) && ItemsOk(heap, t, more)
    ensures ItemsOk(heap, t, items + more)
  {
  }

  lemma {:induction false} InsertedOk(heap: Heap, c: Container, values: seq<Php>)
    requires c.ctype.ListOf? && ItemsOk(heap, c.ctype, c.items)
    requires forall i :: 0 <= i < |values| ==> NonNullValid(heap, values[i], c.ctype.element)
    ensures Inserted(c, values).ctype == c.ctype && ItemsOk(heap, c.ctype, Inserted(c, values).items)
    decreases |values|
  {
    if values != [] {
      var item := Item(At(c.nextIndex), values[0]);
      assert ItemsOk(heap, c.ctype, [item]);
      ItemsAppend(heap, c.ctype, c.items, [item]);
      InsertedOk(heap, c.(items := c.items + [item], nextIndex := c.nextIndex + 1), values[1..]);
    }
  }

  lemma {:induction false} WithoutSlotOk(heap: Heap, t: CassType, items: seq<Item>, slot: Slot)
    requires ItemsOk(heap, t, items)
    ensures ItemsOk(heap, t, WithoutSlot(items, slot))
  {
    if items != [] {
      WithoutSlotOk(heap, t, items[1..], slot);
      ItemsAppend(heap, t, [items[0]], WithoutSlot(items[1..], slot));
    }
  }

  lemma {:induction false} SetSlotOk(heap: Heap, t: CassType, items: seq<Item>, slot: Slot, v: Php)
    requires ItemsOk(heap, t, items) && ItemOk(heap, t, Item(slot, v))
    ensures ItemsOk(heap, t, SetSlot(items, slot, v))
  {
    if items != [] {
      if items[0].slot == slot {
        ItemsAppend(heap, t, [Item(slot, v)], items[1..]);
      } else {
        SetSlotOk(heap, t, items[1..], slot, v);
        ItemsAppend(heap, t, [items[0]], SetSlot(items[1..], slot, v));
      }
    }
  }

  lemma RemoveRangeOk(heap: Heap, t: CassType, items: seq<Item>, position: nat, count: nat)
    requires ItemsOk(heap, t, items)
    ensures ItemsOk(heap, t, RemoveRange(items, position, count))
  {
  }

  lemma MapItemsOk(heap: Heap, t: CassType, items: seq<Item>, k: Php, v: Php, existing: Option<nat>)
    requires ItemsOk(heap, t, items) && t.MapOf? && NonNullValid(heap, k, t.key) && NonNullValid(heap, v, t.value)
    ensures ItemsOk(heap, t, MapItems(items, k, v, existing))
  {
    if existing.None? {
      ItemsAppend(heap, t, items, [Item(Key, k), Item(Val, v)]);
    }
  }

  lemma ChangeOk(heap: Heap, c: Container, op: Op)
    requires ContainerOk(heap, c)
    ensures Change(heap, c, op).ctype == c.ctype && ItemsOk(heap, c.ctype, Change(heap, c, op).items)
  {
    assert ItemsOk(heap, c.ctype, c.items);
    match op
    case ListAdd(_, values) =>
      if c.ctype.ListOf? && (forall i :: 0 <= i < |values| ==> NonNullValid(heap, values[i], c.ctype.element)) {
        InsertedOk(heap, c, values);
      }
    case ListRemove(_, index) => WithoutSlotOk(heap, c.ctype, c.items, At(index));
    case SetAdd(_, v, _) =>
      if c.ctype.SetOf? && NonNullValid(heap, v, c.ctype.element) {
        ItemsAppend(heap, c.ctype, c.items, [Item(Element, v)]);
      }
    case SetDel(_, position) => RemoveRangeOk(heap, c.ctype, c.items, position, 1);
    case MapSet(_, k, v, existing) =>
      if c.ctype.MapOf? && NonNullValid(heap, k, c.ctype.key) && NonNullValid(heap, v, c.ctype.value) {
        MapItemsOk(heap, c.ctype, c.items, k, v, existing);
      }
    case MapDel(_, position) => RemoveRangeOk(heap, c.ctype, c.items, position, 2);
    case TupleSet(_, index, v) =>
      if ItemOk(heap, c.ctype, Item(At(index), v)) { SetSlotOk(heap, c.ctype, c.items, At(index), v); }
    case UserSet(_, name, v) =>
      if ItemOk(heap, c.ctype, Item(Named(name), v)) { SetSlotOk(heap, c.ctype, c.items, Named(name), v); }
    case Create(_) =>
  }

  /** No declared type ever changes, and no container goes away while it is referred to. */
  ghost predicate TypesKept(heap: Heap, heap': Heap) {
    forall o :: o in heap ==> o in heap' && heap'[o].ctype == heap[o].ctype
  }

  lemma ContainerFrame(heap: Heap, heap': Heap, c: Container)
    requires ContainerOk(heap, c) && TypesKept(heap, heap')
    ensures ContainerOk(heap', c)
  {
    forall i | 0 <= i < |c.items| ensures ItemOk(heap', c.ctype, c.items[i]) {
      assert ItemOk(heap, c.ctype, c.items[i]);
    }
  }

  /** Every call, on any of the containers and whoever shares them, keeps all of them well-typed. */
  lemma StepWellTyped(heap: Heap, op: Op, next: ObjectId)
    requires WellTyped(heap)
    ensures WellTyped(Step(heap, op, next)) && TypesKept(heap, Step(heap, op, next))
  {
    var heap' := Step(heap, op, next);
    if !op.Create? && op.o in heap {
      assert ContainerOk(heap, heap[op.o]);
      ChangeOk(heap, heap[op.o], op);
    }
    forall o | o in heap' ensures ContainerOk(heap', heap'[o]) {
      if o in heap {
        assert ContainerOk(heap, heap[o]);
        ContainerFrame(heap, heap', heap'[o]);
      }
    }
  }

  function Run(heap: Heap, ops: seq<(Op, ObjectId)>): Heap
    decreases |ops|
  {
    if ops == [] then heap else Run(Step(heap, ops[0].0, ops[0].1), ops[1..])
  }

  lemma {:induction false} RunWellTyped(heap: Heap, ops: seq<(Op, ObjectId)>)
    requires WellTyped(heap)
    ensures WellTyped(Run(heap, ops)) && TypesKept(heap, Run(heap, ops))
    decreases |ops|
  {
    if ops != [] {
      StepWellTyped(heap, ops[0].0, ops[0].1);
      RunWellTyped(Step(heap, ops[0].0, ops[0].1), ops[1..]);
    }
  }

  // ---- deep typing ---------------------------------------------------------------------------------

  /** A value has a type all the way down. */
  ghost predicate DeepTyped(heap: Heap, v: Php, t: CassType)
    decreases Depth(t)
  {
    match v
    case PhpNull => true
    case PhpScalar(c) => t.Scalar? && ScalarFits(t.kind, c)
    case PhpRef(o) =>
      && !t.Scalar? && o in heap && TypeCompare(heap[o].ctype, t) == 0
      && forall i :: 0 <= i < |heap[o].items| ==>
           var item := heap[o].items[i];
           && SlotType(heap[o].ctype, item.slot).Some?
           && (item.value.PhpNull? ==> IsRecord(t))
           && (SameDepth(heap[o].ctype, t); SlotDepth(heap[o].ctype, item.slot);
               DeepTyped(heap, item.value, SlotType(heap[o].ctype, item.slot).value))
  }

  /** Shallow validation of a value is enough: it is then well-typed at every depth. */
  lemma {:induction false} ValidIsDeep(heap: Heap, v: Php, t: CassType)
    requires WellTyped(heap) && Validate(heap, v, t)
    ensures DeepTyped(heap, v, t)
    decreases Depth(t)
  {
    if v.PhpRef? {
      var c := heap[v.ref];
      assert ContainerOk(heap, c);
      SameDepth(c.ctype, t);
      forall i | 0 <= i < |c.items|
        ensures ItemOk(heap, c.ctype, c.items[i])
        ensures DeepTyped(heap, c.items[i].value, SlotType(c.ctype, c.items[i].slot).value)
      {
        assert ItemOk(heap, c.ctype, c.items[i]);
        SlotDepth(c.ctype, c.items[i].slot);
        ValidIsDeep(heap, c.items[i].value, SlotType(c.ctype, c.items[i].slot).value);
      }
      SameRecord(c.ctype, t);
    }
  }

  lemma SameRecord(a: CassType, b: CassType)
    requires TypeCompare(a, b) == 0
    ensures IsRecord(a) == IsRecord(b)
  {
    TypeCompareZero(a, b);
  }

  /** Containers can share elements but never form a cycle: depth falls along every reference. */
  lemma ReferenceDepth(heap: Heap, a: ObjectId, b: ObjectId)
    requires WellTyped(heap) && Refers(heap, a, b)
    ensures b in heap && Depth(heap[b].ctype) < Depth(heap[a].ctype)
  {
    assert ContainerOk(heap, heap[a]);
    var i :| 0 <= i < |heap[a].items| && heap[a].items[i].value == PhpRef(b);
    var item := heap[a].items[i];
    assert ItemOk(heap, heap[a].ctype, item);
    SlotDepth(heap[a].ctype, item.slot);
    SameDepth(heap[b].ctype, SlotType(heap[a].ctype, item.slot).value);
  }

  ghost predicate Refers(heap: Heap, a: ObjectId, b: ObjectId) {
    a in heap && exists i :: 0 <= i < |heap[a].items| && heap[a].items[i].value == PhpRef(b)
  }

  ghost predicate IsPath(heap: Heap, path: seq<ObjectId>) {
    |path| > 0 && path[0] in heap && forall i :: 0 <= i < |path| - 1 ==> Refers(heap, path[i], path[i + 1])
  }

  /** A chain of references is no longer than the depth of the type it starts from, so no container
      is reachable from itself. */
  lemma {:induction false} PathsAreShort(heap: Heap, path: seq<ObjectId>)
    requires WellTyped(heap) && IsPath(heap, path)
    ensures path[|path|-1] in heap
    ensures Depth(heap[path[|path|-1]].ctype) + |path| - 1 <= Depth(heap[path[0]].ctype)
    decreases |path|
  {
    if |path| > 1 {
      var rest := path[1..];
      assert Refers(heap, path[0], path[1]);
      ReferenceDepth(heap, path[0], path[1]);
      forall i | 0 <= i < |rest| - 1 ensures Refers(heap, rest[i], rest[i + 1]) {
        assert Refers(heap, path[i + 1], path[i + 2]);
      }
      PathsAreShort(heap, rest);
    }
  }

  // ---- conversion ------------------------------------------------------------------------------------

  /** A native value: what the `*_from_*` functions build. */
  datatype Native =
    | NativeNull
    | NativeScalar(kind: Kind)
    | NativeGroup(ctype: CassType, parts: seq<Part>)

  datatype Part = Part(slot: Slot, native: Native)

  /** `Crash` is reading a value as a class it does not have; `Unsupported` is the default branch;
      `Rejected` is a failed validation. */
  datatype Result<T> = Converted(native: T) | Crash | Unsupported | Rejected

  /** `php_driver_collection_append`, `php_driver_tuple_set` and `php_driver_user_type_set`: the
      branch is chosen by the declared type alone, and the value is taken to fit. */
  ghost function ConvertValue(heap: Heap, v: Php, t: CassType, inRecord: bool): Result<Native>
    requires WellTyped(heap) && Validate(heap, v, t)
    decreases Depth(t), 2, 0
  {
    if inRecord && v.PhpNull? then Converted(NativeNull)
    else match t
    case Scalar(Custom) => Unsupported
    case Scalar(kind) => if v.PhpScalar? && Holds(v.class_) == Reads(kind) then Converted(NativeScalar(kind)) else Crash
    case _ =>
      if v.PhpRef? && v.ref in heap && Code(heap[v.ref].ctype) == Code(t) then
        SameDepth(heap[v.ref].ctype, t);
        ConvertObject(heap, v.ref)
      else Crash
  }

  /** `php_driver_collection_from_collection`, `_from_set`, `_from_map`, `php_driver_tuple_from_tuple`
      and `php_driver_user_type_from_user_type_value`. The depth of the declared type bounds the
      recursion. */
  ghost function ConvertObject(heap: Heap, o: ObjectId): Result<Native>
    requires WellTyped(heap) && o in heap
    decreases Depth(heap[o].ctype), 1, 0
  {
    match ConvertItems(heap, o, 0)
    case Converted(parts) => Converted(NativeGroup(heap[o].ctype, parts))
    case Crash => Crash
    case Unsupported => Unsupported
    case Rejected => Rejected
  }

  /** The loop over the items; records validate each value once more. */
  ghost function ConvertItems(heap: Heap, o: ObjectId, i: nat): Result<seq<Part>>
    requires WellTyped(heap) && o in heap && i <= |heap[o].items|
    decreases Depth(heap[o].ctype), 0, |heap[o].items| - i
  {
    var c := heap[o];
    if i == |c.items| then Converted([])
    else
      assert ContainerOk(heap, c);
      assert ItemOk(heap, c.ctype, c.items[i]);
      var t := SlotType(c.ctype, c.items[i].slot);
      if t.None? || (IsRecord(c.ctype) && !Validate(heap, c.items[i].value, t.value)) then Rejected
      else
        SlotDepth(c.ctype, c.items[i].slot);
        match ConvertValue(heap, c.items[i].value, t.value, IsRecord(c.ctype))
        case Crash => Crash
        case Unsupported => Unsupported
        case Rejected => Rejected
        case Converted(n) =>
          match ConvertItems(heap, o, i + 1)
          case Converted(parts) => Converted([Part(c.items[i].slot, n)] + parts)
          case Crash => Crash
          case Unsupported => Unsupported
          case Rejected => Rejected
  }

  /** A native value of the type, with nulls only inside records. */
  ghost predicate Conforms(n: Native, t: CassType, nullable: bool) {
    match n
    case NativeNull => nullable
    case NativeScalar(kind) => t.Scalar? && TypeCompare(Scalar(kind), t) == 0 && kind != Custom
    case NativeGroup(u, parts) =>
      && !t.Scalar? && TypeCompare(u, t) == 0
      && forall i :: 0 <= i < |parts| ==>
           && SlotType(u, parts[i].slot).Some?
           && Conforms(parts[i].native, SlotType(u, parts[i].slot).value, IsRecord(u))
  }

  /** Conversion of any container in any reachable heap succeeds: it never meets null or a value of
      another class in a list, set or map, never reaches the default branch, never fails a
      validation, and every item is converted, in order. */
  lemma {:induction false} ConvertObjectSucceeds(heap: Heap, o: ObjectId)
    requires WellTyped(heap) && o in heap
    ensures ConvertObject(heap, o).Converted?
    ensures var n := ConvertObject(heap, o).native;
            && Conforms(n, heap[o].ctype, false) && n.NativeGroup? && |n.parts| == |heap[o].items|
            && forall i :: 0 <= i < |n.parts| ==> n.parts[i].slot == heap[o].items[i].slot
    decreases Depth(heap[o].ctype), 1, 0
  {
    assert ContainerOk(heap, heap[o]);
    ConvertItemsSucceeds(heap, o, 0);
    PartsConform(heap[o].ctype, heap[o].items, ConvertItems(heap, o, 0).native);
  }

  lemma PartsConform(t: CassType, items: seq<Item>, parts: seq<Part>)
    requires !t.Scalar? && |parts| == |items|
    requires forall j :: 0 <= j < |parts| ==> PartOk(t, items[0 + j], parts[j])
    ensures Conforms(NativeGroup(t, parts), t, false)
    ensures forall i :: 0 <= i < |parts| ==> parts[i].slot == items[i].slot
  {
    TypeCompareZero(t, t);
    forall i | 0 <= i < |parts|
      ensures parts[i].slot == items[i].slot && SlotType(t, parts[i].slot).Some?
      ensures Conforms(parts[i].native, SlotType(t, parts[i].slot).value, IsRecord(t))
    {
      assert PartOk(t, items[0 + i], parts[i]);
    }
  }

  lemma {:induction false} ConvertItemsSucceeds(heap: Heap, o: ObjectId, i: nat)
    requires WellTyped(heap) && o in heap && i <= |heap[o].items|
    ensures var r := ConvertItems(heap, o, i);
            && r.Converted? && |r.native| == |heap[o].items| - i
            && forall j :: 0 <= j < |r.native| ==> PartOk(heap[o].ctype, heap[o].items[i + j], r.native[j])
    decreases Depth(heap[o].ctype), 0, |heap[o].items| - i
  {
    var c := heap[o];
    if i < |c.items| {
      assert ContainerOk(heap, c);
      assert ItemOk(heap, c.ctype, c.items[i]);
      SlotDepth(c.ctype, c.items[i].slot);
      ConvertValueSucceeds(heap, c.items[i].value, SlotType(c.ctype, c.items[i].slot).value, IsRecord(c.ctype));
      ConvertItemsSucceeds(heap, o, i + 1);
    }
  }

  ghost predicate PartOk(t: CassType, item: Item, part: Part) {
    && part.slot == item.slot && SlotType(t, part.slot).Some?
    && Conforms(part.native, SlotType(t, part.slot).value, IsRecord(t))
  }

  lemma {:induction false} ConvertValueSucceeds(heap: Heap, v: Php, t: CassType, inRecord: bool)
    requires WellTyped(heap) && Validate(heap, v, t) && (v.PhpNull? ==> inRecord)
    ensures ConvertValue(heap, v, t, inRecord).Converted?
    ensures Conforms(ConvertValue(heap, v, t, inRecord).native, t, inRecord)
    decreases Depth(t), 2, 0
  {
    if v.PhpScalar? {
      FitsIsReadable(t.kind, v.class_);
      TypeCompareZero(t, t);
    } else if v.PhpRef? {
      SameDepth(heap[v.ref].ctype, t);
      TypeCompareZero(heap[v.ref].ctype, t);
      ConvertObjectSucceeds(heap, v.ref);
    }
  }

  /** One round of the loop. */
  lemma ConvertStep(heap: Heap, o: ObjectId, i: nat)
    requires WellTyped(heap) && o in heap && i < |heap[o].items|
    ensures var c := heap[o];
            var item, t, inRecord := c.items[i], SlotType(c.ctype, c.items[i].slot), IsRecord(c.ctype);
            && t.Some? && Depth(t.value) < Depth(c.ctype) && (!inRecord ==> Validate(heap, item.value, t.value))
            && ConvertItems(heap, o, i) ==
                 if !Validate(heap, item.value, t.value) then Rejected
                 else
                   match ConvertValue(heap, item.value, t.value, inRecord)
                   case Crash => Crash
                   case Unsupported => Unsupported
                   case Rejected => Rejected
                   case Converted(n) => Prepend([Part(item.slot, n)], ConvertItems(heap, o, i + 1))
  {
    var c := heap[o];
    assert ContainerOk(heap, c);
    assert ItemOk(heap, c.ctype, c.items[i]);
    SlotDepth(c.ctype, c.items[i].slot);
  }

  /** The conversion loop as the code runs it. */
  method FromContainer(heap: Heap, o: ObjectId) returns (r: Result<Native>)
    requires WellTyped(heap) && o in heap
    ensures r == ConvertObject(heap, o)
    decreases Depth(heap[o].ctype), 1
  {
    var c, parts, i := heap[o], [], 0;
    PrependNothing(ConvertItems(heap, o, 0));
    while i < |c.items|
      invariant 0 <= i <= |c.items|
      invariant ConvertItems(heap, o, 0) == Prepend(parts, ConvertItems(heap, o, i))
    {
      ConvertStep(heap, o, i);
      var t := SlotType(c.ctype, c.items[i].slot).value;
      if IsRecord(c.ctype) && !Validate(heap, c.items[i].value, t) { return Rejected; }
      var n := AppendValue(heap, c.items[i].value, t, IsRecord(c.ctype));
      match n
      case Crash => return Crash;
      case Unsupported => return Unsupported;
      case Rejected => return Rejected;
      case Converted(native) =>
        PrependMore(parts, Part(c.items[i].slot, native), ConvertItems(heap, o, i + 1));
        parts := parts + [Part(c.items[i].slot, native)];
        i := i + 1;
    }
    assert parts + [] == parts;
    return Converted(NativeGroup(c.ctype, parts));
  }

  lemma PrependNothing(r: Result<seq<Part>>)
    ensures Prepend([], r) == r
  {
    if r.Converted? { assert [] + r.native == r.native; }
  }

  function Prepend(parts: seq<Part>, r: Result<seq<Part>>): Result<seq<Part>> {
    if r.Converted? then Converted(parts + r.native) else r
  }

  lemma PrependMore(parts: seq<Part>, p: Part, r: Result<seq<Part>>)
    ensures Prepend(parts + [p], r) == Prepend(parts, Prepend([p], r))
  {
    if r.Converted? { assert parts + [p] + r.native == parts + ([p] + r.native); }
  }

  method AppendValue(heap: Heap, v: Php, t: CassType, inRecord: bool) returns (r: Result<Native>)
    requires WellTyped(heap) && Validate(heap, v, t)
    ensures r == ConvertValue(heap, v, t, inRecord)
    decreases Depth(t), 2
  {
    if inRecord && v.PhpNull? { return Converted(NativeNull); }
    match t
    case Scalar(kind) =>
      if kind == Custom { return Unsupported; }
      if v.PhpScalar? && Holds(v.class_) == Reads(kind) { return Converted(NativeScalar(kind)); }
      return Crash;
    case _ =>
      if !v.PhpRef? || v.ref !in heap || Code(heap[v.ref].ctype) != Code(t) { return Crash; }
      SameDepth(heap[v.ref].ctype, t);
      r := FromContainer(heap, v.ref);
  }

  // ---- the containers as objects that change in place ----------------------------------------------

  class Store {
    var heap: Heap

    constructor ()
      ensures heap == map[] && WellTyped(heap)
    {
      heap := map[];
    }

    /** `Collection::add`: all values are validated before the first one is inserted. */
    method CollectionAdd(o: ObjectId, values: seq<Php>) returns (ok: bool)
      requires WellTyped(heap) && o in heap && heap[o].ctype.ListOf?
      modifies this
      ensures WellTyped(heap)
      ensures heap.Keys == old(heap).Keys && forall p :: p in heap && p != o ==> heap[p] == old(heap)[p]
      ensures ok ==> Appended(old(heap)[o], heap[o], values)
      ensures heap == Step(old(heap), ListAdd(o, values), 0)
      ensures ok <==> forall i :: 0 <= i < |values| ==> NonNullValid(old(heap), values[i], old(heap)[o].ctype.element)
      ensures !ok ==> heap == old(heap)
    {
      StepWellTyped(heap, ListAdd(o, values), 0);
      var t := heap[o].ctype.element;
      var i := 0;
      while i < |values|
        invariant 0 <= i <= |values|
        invariant forall j :: 0 <= j < i ==> NonNullValid(heap, values[j], t)
      {
        if values[i] == PhpNull || !Validate(heap, values[i], t) {
          assert !NonNullValid(heap, values[i], t);
          return false;
        }
        i := i + 1;
      }
      InsertedItems(heap[o], values);
      InsertAll(o, values);
      return true;
    }

    method InsertAll(o: ObjectId, values: seq<Php>)
      requires o in heap
      modifies this
      ensures heap == old(heap)[o := Inserted(old(heap)[o], values)]
    {
      var i := 0;
      while i < |values|
        invariant 0 <= i <= |values| && o in heap
        invariant heap == old(heap)[o := heap[o]]
        invariant Inserted(heap[o], values[i..]) == Inserted(old(heap)[o], values)
      {
        var c := heap[o];
        assert values[i..][1..] == values[i + 1..];
        heap := heap[o := c.(items := c.items + [Item(At(c.nextIndex), values[i])], nextIndex := c.nextIndex + 1)];
        i := i + 1;
      }
    }

    /** `Tuple::set`. */
    method TupleSet(o: ObjectId, index: int, v: Php) returns (ok: bool)
      requires WellTyped(heap) && o in heap && heap[o].ctype.TupleOf?
      modifies this
      ensures WellTyped(heap)
      ensures ok <==> && 0 <= index < Length(old(heap)[o].ctype.types)
                      && Nth(old(heap)[o].ctype.types, index).Some?
                      && Validate(old(heap), v, Nth(old(heap)[o].ctype.types, index).value)
      ensures !ok ==> heap == old(heap)
      ensures ok ==> o in heap && heap == old(heap)[o := heap[o]] && SetAt(old(heap)[o], heap[o], At(index), v)
      ensures heap == if ok then Step(old(heap), Op.TupleSet(o, index, v), 0) else old(heap)
    {
      var c := heap[o];
      if index < 0 || index >= Length(c.ctype.types) { return false; }
      StepWellTyped(heap, Op.TupleSet(o, index, v), 0);
      var t := Nth(c.ctype.types, index);
      if t.None? || !Validate(heap, v, t.value) { return false; }
      SetSlotItems(c.items, At(index), v);
      heap := heap[o := c.(items := SetSlot(c.items, At(index), v))];
      return true;
    }
  }
}
