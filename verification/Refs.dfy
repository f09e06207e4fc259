/**
 Counted references to native handles (ext/util/ref.c, ext/util/ref.h).

 A `php_driver_ref` is shared by every struct field that points to it. The model keeps
 the C heap as two tables: the refs that are allocated, and the non-null pointer fields
 ("slots") of live objects and of persistent-list entries. `NewRef`, `AddRef` and `DelRef`
 are the three primitives; they touch counts exactly as the C code does and never look at
 the slot table to decide anything.

 The main result is a refinement: seen through `View`, a counted heap behaves as if every
 field owned a private copy of the native handle, and each handle is destructed exactly
 once, when its last field goes away.
 */
module Refs {

  type ObjectId = nat
  type RefId = nat

  datatype FieldName = Statement | Session | Result | NextResult

  /** The hash key of a persistent-list entry. */
  datatype PoolKey = PoolKey(text: string)

  /** A pointer field of a live object, or the session field of a persistent-list entry. */
  datatype Slot =
    | Field(owner: ObjectId, name: FieldName)
    | PoolEntry(key: PoolKey)

  datatype Ref<D> = Ref(count: int, data: D, persistent: bool)

  /** `destructed` logs destructor runs in order; `flagsAgree` stays true while every release
      passes the persistent flag its ref was allocated with. */
  datatype RefHeap<D> = RefHeap(
    refs: map<RefId, Ref<D>>,
    slots: map<Slot, RefId>,
    next: RefId,
    destructed: seq<RefId>,
    flagsAgree: bool)

  function EmptyHeap<D>(): RefHeap<D> {
    RefHeap(map[], map[], 0, [], true)
  }

  /** The slots that hold a pointer to `r`. */
  ghost function Holders<D>(h: RefHeap<D>, r: RefId): set<Slot> {
    set s | s in h.slots && h.slots[s] == r
  }

  ghost predicate CountsMatch<D>(h: RefHeap<D>) {
    forall r :: r in h.refs ==> h.refs[r].count == |Holders(h, r)| && h.refs[r].count >= 1
  }

  ghost predicate NoDangling<D>(h: RefHeap<D>) {
    forall s :: s in h.slots ==> h.slots[s] in h.refs
  }

  /** Every id handed out so far is either allocated or was destructed, never both, and
      the log holds no id twice. */
  ghost predicate DestructedOnce<D>(h: RefHeap<D>) {
    && (forall r :: r in h.refs ==> r < h.next)
    && (forall i :: 0 <= i < |h.destructed| ==> h.destructed[i] < h.next && h.destructed[i] !in h.refs)
    && (forall i, j :: 0 <= i < j < |h.destructed| ==> h.destructed[i] != h.destructed[j])
    && (forall r: RefId :: r < h.next ==> r in h.refs || r in h.destructed)
  }

  ghost predicate RefInv<D>(h: RefHeap<D>) {
    CountsMatch(h) && NoDangling(h) && DestructedOnce(h) && h.flagsAgree
  }

  /** What each field sees: the native data behind its pointer. */
  ghost function View<D>(h: RefHeap<D>): map<Slot, D>
    requires NoDangling(h)
  {
    map s | s in h.slots :: h.refs[h.slots[s]].data
  }

  // ---- primitives ------------------------------------------------------------------

  function NewRef<D>(h: RefHeap<D>, slot: Slot, data: D, persistent: bool): (h': RefHeap<D>) {
    RefHeap(h.refs[h.next := Ref(1, data, persistent)], h.slots[slot := h.next], h.next + 1,
            h.destructed, h.flagsAgree)
  }

  function AddRef<D>(h: RefHeap<D>, from: Slot, to: Slot): (h': RefHeap<D>)
    requires from in h.slots && h.slots[from] in h.refs
  {
    var r := h.slots[from];
    h.(refs := h.refs[r := h.refs[r].(count := h.refs[r].count + 1)], slots := h.slots[to := r])
  }

  /** A null pointer is left alone; the last release runs the destructor and frees the ref. The C
      code nulls the pointer only then, but every caller frees the struct that holds the field right
      after the call, so the field is gone either way. */
  function DelRef<D>(h: RefHeap<D>, slot: Slot, persistent: bool): (h': RefHeap<D>)
    requires slot in h.slots ==> h.slots[slot] in h.refs
  {
    if slot !in h.slots then h
    else
      var r := h.slots[slot];
      var c := h.refs[r].count - 1;
      var agree := h.flagsAgree && h.refs[r].persistent == persistent;
      if c <= 0 then
        RefHeap(h.refs - {r}, h.slots - {slot}, h.next, h.destructed + [r], agree)
      else
        RefHeap(h.refs[r := h.refs[r].(count := c)], h.slots - {slot}, h.next, h.destructed, agree)
  }

  // ---- each primitive keeps the invariant and acts on the view as on private copies ---

  lemma NewRefCounts<D>(h: RefHeap<D>, slot: Slot, data: D, persistent: bool)
    requires CountsMatch(h) && NoDangling(h) && h.next !in h.refs && slot !in h.slots
    ensures CountsMatch(NewRef(h, slot, data, persistent))
  {
    var h' := NewRef(h, slot, data, persistent);
    forall r | r in h'.refs
      ensures h'.refs[r].count == |Holders(h', r)| && h'.refs[r].count >= 1
    {
      if r == h.next {
        assert Holders(h', r) == {slot};
      } else {
        assert Holders(h', r) == Holders(h, r);
      }
    }
  }

  lemma NewRefLog<D>(h: RefHeap<D>, slot: Slot, data: D, persistent: bool)
    requires DestructedOnce(h)
    ensures DestructedOnce(NewRef(h, slot, data, persistent))
  {
  }

  /** `new_peref`: the new ref starts with one holder, every other field sees what it saw. */
  lemma NewRefCorrect<D>(h: RefHeap<D>, slot: Slot, data: D, persistent: bool)
    requires RefInv(h) && slot !in h.slots
    ensures var h' := NewRef(h, slot, data, persistent);
            RefInv(h') && View(h') == View(h)[slot := data]
  {
    NewRefCounts(h, slot, data, persistent);
    NewRefLog(h, slot, data, persistent);
  }

  lemma AddRefCounts<D>(h: RefHeap<D>, from: Slot, to: Slot)
    requires CountsMatch(h) && NoDangling(h) && from in h.slots && to !in h.slots
    ensures CountsMatch(AddRef(h, from, to))
  {
    var h' := AddRef(h, from, to);
    forall r | r in h'.refs
      ensures h'.refs[r].count == |Holders(h', r)| && h'.refs[r].count >= 1
    {
      if r == h.slots[from] {
        assert Holders(h', r) == Holders(h, r) + {to};
      } else {
        assert Holders(h', r) == Holders(h, r);
      }
    }
  }

  /** `add_ref`: the new field sees the same native handle as the field it was copied from. */
  lemma AddRefCorrect<D>(h: RefHeap<D>, from: Slot, to: Slot)
    requires RefInv(h) && from in h.slots && to !in h.slots
    ensures var h' := AddRef(h, from, to);
            RefInv(h') && View(h') == View(h)[to := View(h)[from]]
  {
    AddRefCounts(h, from, to);
  }

  lemma DelRefCounts<D>(h: RefHeap<D>, slot: Slot, persistent: bool)
    requires CountsMatch(h) && NoDangling(h) && slot in h.slots
    ensures CountsMatch(DelRef(h, slot, persistent)) && NoDangling(DelRef(h, slot, persistent))
  {
    var h' := DelRef(h, slot, persistent);
    var gone := h.slots[slot];
    assert Holders(h', gone) == Holders(h, gone) - {slot};
    LastHolder(h, slot);
    forall s | s in h'.slots ensures h'.slots[s] in h'.refs {
      if h'.slots[s] == gone {
        assert s in Holders(h', gone);
      }
    }
    forall r | r in h'.refs
      ensures h'.refs[r].count == |Holders(h', r)| && h'.refs[r].count >= 1
    {
      if r != gone {
        assert Holders(h', r) == Holders(h, r);
      }
    }
  }

  lemma LastHolder<D>(h: RefHeap<D>, slot: Slot)
    requires CountsMatch(h) && NoDangling(h) && slot in h.slots
    ensures h.refs[h.slots[slot]].count == 1 <==> Holders(h, h.slots[slot]) == {slot}
  {
    var hs := Holders(h, h.slots[slot]);
    assert slot in hs;
    assert |hs - {slot}| == |hs| - 1;
    if |hs| == 1 {
      assert hs - {slot} == {};
    }
  }

  /** `del_peref`: only this field goes away, and the destructor runs exactly when it was the
      last field on its ref. No field is left looking at a destructed handle. */
  lemma DelRefCorrect<D>(h: RefHeap<D>, slot: Slot, persistent: bool)
    requires RefInv(h)
    requires slot in h.slots ==> h.refs[h.slots[slot]].persistent == persistent
    ensures var h' := DelRef(h, slot, persistent);
            && RefInv(h') && View(h') == View(h) - {slot}
            && h'.destructed ==
               (if slot in h.slots && Holders(h, h.slots[slot]) == {slot}
                then h.destructed + [h.slots[slot]] else h.destructed)
  {
    if slot in h.slots {
      DelRefCounts(h, slot, persistent);
      LastHolder(h, slot);
      DelRefLog(h, slot, persistent);
      DelRefView(h, slot, persistent);
    } else {
      assert View(h) - {slot} == View(h);
    }
  }

  lemma DelRefView<D>(h: RefHeap<D>, slot: Slot, persistent: bool)
    requires NoDangling(h) && slot in h.slots && NoDangling(DelRef(h, slot, persistent))
    ensures View(DelRef(h, slot, persistent)) == View(h) - {slot}
  {
  }

  lemma DelRefLog<D>(h: RefHeap<D>, slot: Slot, persistent: bool)
    requires DestructedOnce(h) && slot in h.slots && h.slots[slot] in h.refs
    ensures DestructedOnce(DelRef(h, slot, persistent))
  {
    var h' := DelRef(h, slot, persistent);
    var gone := h.slots[slot];
    forall r: RefId | r < h'.next ensures r in h'.refs || r in h'.destructed {
      if r == gone && h.refs[r].count <= 1 {
        assert h'.destructed[|h.destructed|] == r;
      } else if r !in h.refs {
        assert r in h.destructed;
      }
    }
  }

  /** Nothing leaks: once no field points anywhere, every ref ever made has been destructed. */
  lemma NoFieldsNoRefs<D>(h: RefHeap<D>)
    requires RefInv(h) && h.slots == map[]
    ensures h.refs == map[]
    ensures forall r: RefId :: r < h.next ==> r in h.destructed
    ensures |h.destructed| == h.next
  {
    assert forall r :: r in h.refs ==> Holders(h, r) == {};
    DistinctBelow(h.destructed, h.next);
  }

  /** A duplicate-free sequence that lists exactly the numbers below `n` has length `n`. */
  lemma {:induction false} DistinctBelow(s: seq<nat>, n: nat)
    requires forall i, j :: 0 <= i < j < |s| ==> s[i] != s[j]
    requires forall i :: 0 <= i < |s| ==> s[i] < n
    requires forall r: nat :: r < n ==> r in s
    ensures |s| == n
    decreases |s|
  {
    if s == [] {
      assert n > 0 ==> n - 1 in s;
    } else {
      assert s[0] < n;
      assert n - 1 in s;
      var k :| 0 <= k < |s| && s[k] == n - 1;
      var t := s[..k] + s[k+1..];
      forall r: nat | r < n - 1 ensures r in t {
        assert r in s;
        var i :| 0 <= i < |s| && s[i] == r;
        if i < k { assert t[i] == r; } else { assert t[i-1] == r; }
      }
      DistinctBelow(t, n - 1);
    }
  }

  // ---- whole runs -----------------------------------------------------------------------

  /** One primitive call, with the persistent flag written at its call site. */
  datatype Command<D> =
    | New(slot: Slot, data: D, persistent: bool)
    | Copy(from: Slot, to: Slot)
    | Del(slot: Slot, persistent: bool)

  /** The calls of a run, the latest one last. */
  datatype History<D> = Start | Then(before: History<D>, last: Command<D>)

  /** The simple specification: every field is a private variable. */
  function FieldsAfter<D>(fields: map<Slot, D>, c: Command<D>): map<Slot, D> {
    match c
    case New(slot, data, _) => fields[slot := data]
    case Copy(from, to) => if from in fields then fields[to := fields[from]] else fields
    case Del(slot, _) => fields - {slot}
  }

  function FieldsOf<D>(log: History<D>): map<Slot, D> {
    if log.Start? then map[] else FieldsAfter(FieldsOf(log.before), log.last)
  }

  /** The flag that belongs to a slot: sessions live in persistent memory, the rest does not. */
  predicate Persistent(slot: Slot) {
    slot.PoolEntry? || slot.name == Session
  }

  /** A call is guarded if it overwrites no pointer, copies no null pointer, copies between
      fields of one memory kind, and passes the flag of its slot. */
  predicate Guard<D>(fields: map<Slot, D>, c: Command<D>) {
    match c
    case New(slot, _, flag) => slot !in fields && flag == Persistent(slot)
    case Copy(from, to) => from in fields && to !in fields && Persistent(from) == Persistent(to)
    case Del(slot, flag) => flag == Persistent(slot)
  }

  predicate Guarded<D>(log: History<D>) {
    log.Then? ==> Guarded(log.before) && Guard(FieldsOf(log.before), log.last)
  }

  ghost predicate FlagsMatchSlots<D>(h: RefHeap<D>)
    requires NoDangling(h)
  {
    forall s :: s in h.slots ==> h.refs[h.slots[s]].persistent == Persistent(s)
  }

  ghost predicate Sound<D>(h: RefHeap<D>, fields: map<Slot, D>) {
    RefInv(h) && FlagsMatchSlots(h) && View(h) == fields
  }

  /** One call on the counted heap. Following a dangling pointer has no meaning; `HeapSound` shows
      that it does not happen. */
  function Apply<D>(h: RefHeap<D>, c: Command<D>): RefHeap<D> {
    match c
    case New(slot, data, flag) => NewRef(h, slot, data, flag)
    case Copy(from, to) => if from in h.slots && h.slots[from] in h.refs then AddRef(h, from, to) else h
    case Del(slot, flag) => if slot in h.slots && h.slots[slot] !in h.refs then h else DelRef(h, slot, flag)
  }

  /** One guarded call on the counted heap is one step of the simple specification. */
  lemma ApplySound<D>(h: RefHeap<D>, fields: map<Slot, D>, c: Command<D>)
    requires Sound(h, fields) && Guard(fields, c)
    ensures Sound(Apply(h, c), FieldsAfter(fields, c))
  {
    assert h.slots.Keys == View(h).Keys;
    match c
    case New(slot, data, flag) => NewSound(h, slot, data, flag);
    case Copy(from, to) => CopySound(h, from, to);
    case Del(slot, flag) => DelSound(h, slot, flag);
  }

  lemma NewSound<D>(h: RefHeap<D>, slot: Slot, data: D, flag: bool)
    requires RefInv(h) && FlagsMatchSlots(h) && slot !in h.slots && flag == Persistent(slot)
    ensures Sound(NewRef(h, slot, data, flag), View(h)[slot := data])
  {
    NewRefCorrect(h, slot, data, flag);
  }

  lemma CopySound<D>(h: RefHeap<D>, from: Slot, to: Slot)
    requires RefInv(h) && FlagsMatchSlots(h)
    requires from in h.slots && to !in h.slots && Persistent(from) == Persistent(to)
    ensures Sound(AddRef(h, from, to), View(h)[to := View(h)[from]])
  {
    AddRefCorrect(h, from, to);
  }

  lemma DelSound<D>(h: RefHeap<D>, slot: Slot, flag: bool)
    requires RefInv(h) && FlagsMatchSlots(h) && flag == Persistent(slot)
    ensures Sound(DelRef(h, slot, flag), View(h) - {slot})
  {
    DelRefCorrect(h, slot, flag);
    DelFlags(h, slot, flag);
  }

  lemma DelFlags<D>(h: RefHeap<D>, slot: Slot, flag: bool)
    requires NoDangling(h) && FlagsMatchSlots(h) && NoDangling(DelRef(h, slot, flag))
    ensures FlagsMatchSlots(DelRef(h, slot, flag))
  {
  }

  /** The counted heap that a sequence of calls produces. */
  function HeapOf<D>(log: History<D>): RefHeap<D> {
    match log
    case Start => EmptyHeap()
    case Then(before, last) => Apply(HeapOf(before), last)
  }

  /** In every run of guarded calls each count is the number of fields on the ref, each destructor
      runs once, at the last release, and every field sees the handle it would see if it owned a
      private copy. */
  lemma {:induction false} HeapSound<D>(log: History<D>)
    requires Guarded(log)
    ensures Sound(HeapOf(log), FieldsOf(log))
  {
    match log
    case Start =>
      assert View(EmptyHeap<D>()) == map[];
    case Then(before, last) =>
      HeapSound(before);
      ApplySound(HeapOf(before), FieldsOf(before), last);
  }
}
