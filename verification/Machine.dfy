/**
 Whole runs: every operation of the extension on pages, sessions and the persistent list, in
 any order, on any objects, with any outcome of the native driver.
 */
module Machine {
  import opened Options
  import opened Refs
  import opened Driver
  import opened Paging
  import opened Sessions
  import opened Pool

  datatype Op =
    | OpNextPage(h: ObjectId, outcome: Outcome)
    | OpNextPageAsync(h: ObjectId)
    | OpGet(h: ObjectId, outcome: Outcome)
    | OpExecute(h: ObjectId, query: string, token: Option<string>, outcome: Outcome)
    | OpExecuteAsync(h: ObjectId, query: string, token: Option<string>)
    | OpExecuteBatch(rows: seq<string>, decodable: bool, async: bool)
    | OpConnect(persist: bool, key: PoolKey, outcome: Outcome)
    | OpConnectAsync(persist: bool, key: PoolKey)
    | OpSessionGet(h: ObjectId, outcome: Outcome)
    | OpClose(h: ObjectId)
    | OpListDelete(key: PoolKey)
    | OpFree(h: ObjectId)

  /** Whether the operation can be called: it names a live object of its class, and an object is
      freed only when nothing refers to it. */
  ghost predicate Enabled(s: State, op: Op) {
    match op
    case OpNextPage(h, _) => h in s.objects && s.objects[h].Rows?
    case OpNextPageAsync(h) => h in s.objects && s.objects[h].Rows?
    case OpGet(h, _) => h in s.objects && (s.objects[h].FutureRows? || s.objects[h].FutureValue?)
    case OpExecute(h, _, _, _) => h in s.objects && s.objects[h].SessionHandle?
    case OpExecuteAsync(h, _, _) => h in s.objects && s.objects[h].SessionHandle?
    case OpSessionGet(h, _) => h in s.objects && s.objects[h].FutureSession?
    case OpClose(h) => h in s.objects && s.objects[h].SessionHandle?
    case OpFree(h) => h in s.objects && Unreferenced(s, h)
    case _ => true
  }

  ghost function Step(server: Server, s: State, op: Op): (r: (State, Ret))
    requires Inv(server, s)
  {
    if !Enabled(s, op) then (s, Invalid)
    else match op
    case OpNextPage(h, outcome) => NextPage(server, s, h, outcome)
    case OpNextPageAsync(h) => NextPageAsync(server, s, h)
    case OpGet(h, outcome) => FutureGet(server, s, h, outcome)
    case OpExecute(h, query, token, outcome) => Execute(server, s, h, query, token, outcome)
    case OpExecuteAsync(h, query, token) => ExecuteAsync(server, s, h, query, token)
    case OpExecuteBatch(rows, decodable, async) => ExecuteBatch(s, rows, decodable, async)
    case OpConnect(persist, key, outcome) => Connect(s, persist, key, outcome)
    case OpConnectAsync(persist, key) => (Acquire(s, true, persist, key), Object(s.nextObject))
    case OpSessionGet(h, outcome) => SessionGet(s, h, outcome)
    case OpClose(h) => CloseInv(server, s, h); (Close(s, h), Null)
    case OpListDelete(key) => (Evict(s, key), Null)
    case OpFree(h) => (Free(s, h), Null)
  }

  lemma StepInv(server: Server, s: State, op: Op)
    requires Inv(server, s)
    ensures Inv(server, Step(server, s, op).0)
  {
    if Enabled(s, op) {
      match op
      case OpNextPage(h, outcome) => NextPageCorrect(server, s, h, outcome);
      case OpNextPageAsync(h) => NextPageAsyncCorrect(server, s, h);
      case OpGet(h, outcome) => FutureGetCorrect(server, s, h, outcome);
      case OpExecute(h, query, token, outcome) => ExecuteInv(server, s, h, query, token, outcome);
      case OpExecuteAsync(h, query, token) => ExecuteAsyncInv(server, s, h, query, token);
      case OpExecuteBatch(rows, decodable, async) => ExecuteBatchInv(server, s, rows, decodable, async);
      case OpConnect(persist, key, outcome) => ConnectInv(server, s, persist, key, outcome);
      case OpConnectAsync(persist, key) => AcquireInv(server, s, true, persist, key);
      case OpSessionGet(h, outcome) => SessionGetInv(server, s, h, outcome);
      case OpClose(h) => CloseInv(server, s, h);
      case OpListDelete(key) => EvictInv(server, s, key);
      case OpFree(h) => FreeInv(server, s, h);
    }
  }

  /** The state after a run. Every reachable state satisfies the invariant. */
  ghost function Run(server: Server, s: State, ops: seq<Op>): (s': State)
    requires Inv(server, s)
    ensures Inv(server, s')
    decreases |ops|
  {
    if ops == [] then s
    else
      StepInv(server, s, ops[0]);
      Run(server, Step(server, s, ops[0]).0, ops[1..])
  }

  lemma RunStep(server: Server, s: State, op: Op, ops: seq<Op>)
    requires Inv(server, s)
    ensures Inv(server, Step(server, s, op).0)
    ensures Run(server, s, [op] + ops) == Run(server, Step(server, s, op).0, ops)
  {
    StepInv(server, s, op);
    assert ([op] + ops)[1..] == ops;
  }

  lemma {:induction false} RunAppend(server: Server, s: State, ops: seq<Op>, more: seq<Op>)
    requires Inv(server, s)
    ensures Run(server, s, ops + more) == Run(server, Run(server, s, ops), more)
    decreases |ops|
  {
    if ops == [] {
      assert ops + more == more;
    } else {
      assert ops == [ops[0]] + ops[1..];
      assert ops + more == [ops[0]] + (ops[1..] + more);
      RunStep(server, s, ops[0], ops[1..] + more);
      RunStep(server, s, ops[0], ops[1..]);
      RunAppend(server, Step(server, s, ops[0]).0, ops[1..], more);
    }
  }

  ghost function Reach(server: Server, ops: seq<Op>): (s: State)
    ensures Inv(server, s)
  {
    InitialInv(server);
    Run(server, Initial, ops)
  }

  // ---- counted refs ------------------------------------------------------------------------

  /** Each allocated ref is counted once per live field or list entry that points to it, no field
      sees a destructed handle, every destructor ran at most once, and every release passed the
      flag of its allocation. */
  ghost predicate CountsExact(heap: RefHeap<Native>, fields: map<Slot, Native>) {
    && heap.slots.Keys == fields.Keys
    && (forall r :: r in heap.refs ==> heap.refs[r].count == |Holders(heap, r)| >= 1)
    && (forall x :: x in fields ==> heap.slots[x] in heap.refs && heap.refs[heap.slots[x]].data == fields[x])
    && (forall i, j :: 0 <= i < j < |heap.destructed| ==> heap.destructed[i] != heap.destructed[j])
    && (forall i :: 0 <= i < |heap.destructed| ==> heap.destructed[i] !in heap.refs)
    && heap.flagsAgree
  }

  lemma SoundCounts(heap: RefHeap<Native>, fields: map<Slot, Native>)
    requires Sound(heap, fields)
    ensures CountsExact(heap, fields)
  {
    assert heap.slots.Keys == View(heap).Keys;
  }

  /** In every reachable state of every run the counted heap is exact. */
  lemma RefCountsExact(server: Server, ops: seq<Op>)
    ensures var s := Reach(server, ops);
            Guarded(s.log) && CountsExact(HeapOf(s.log), s.fields)
  {
    var s := Reach(server, ops);
    HeapSound(s.log);
    SoundCounts(HeapOf(s.log), s.fields);
  }

  /** Once every object is freed and the list is empty, every handle ever wrapped in a ref has
      been destructed, exactly once. */
  lemma NothingLeaks(server: Server, ops: seq<Op>)
    requires Reach(server, ops).objects == map[] && Reach(server, ops).list.pool == map[]
    ensures var s := Reach(server, ops);
            && Guarded(s.log)
            && var heap := HeapOf(s.log);
            heap.refs == map[] && |heap.destructed| == heap.next
  {
    var s := Reach(server, ops);
    var heap := HeapOf(s.log);
    HeapSound(s.log);
    assert heap.slots.Keys == View(heap).Keys;
    assert forall x :: x in s.fields ==> SlotOk(s.objects, s.list.pool, s.fields, x);
    assert s.fields.Keys == {};
    NoFieldsNoRefs(heap);
  }
}
