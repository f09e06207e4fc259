/**
 The native futures of requests over whole runs. Each is made when a request is sent, and its id is
 kept by the future object that will read it, or freed, or lost.
 */
module Futures {
  import opened Options
  import opened Refs
  import opened Driver
  import opened Paging
  import opened Sessions
  import opened Pool
  import opened Machine
  import opened Walk

  /** The native future each live future object keeps. */
  function RequestsOf(objects: map<ObjectId, Object>): map<ObjectId, nat> {
    map k | k in objects && objects[k].FutureRows? :: objects[k].request
  }

  /** All that concerns native futures in a state. */
  datatype Ledger = Ledger(kept: map<ObjectId, nat>, futures: RequestFutures, next: nat)

  function LedgerOf(s: State): Ledger { Ledger(RequestsOf(s.objects), s.natives.futures, s.natives.next) }

  /** The futures that are not freed are exactly those some object keeps and those that were lost; no
      two objects keep the same one; none was freed twice, or freed while it was kept or lost. */
  ghost predicate Accounted(l: Ledger) {
    && l.futures.live == l.kept.Values + l.futures.lost && l.kept.Values !! l.futures.lost
    && (forall h, k :: h in l.kept && k in l.kept && h != k ==> l.kept[h] != l.kept[k])
    && (forall id :: id in l.futures.live ==> id < l.next && id !in l.futures.freed)
    && (forall id :: id in l.futures.freed ==> id < l.next)
    && (forall i, j :: 0 <= i < j < |l.futures.freed| ==> l.futures.freed[i] != l.futures.freed[j])
  }

  // ---- what can happen to the ledger -------------------------------------------------------------

  /** Ids are taken for other handles. */
  function Skip(l: Ledger, next: nat): Ledger { l.(next := next) }

  /** A future is made, after `id - l.next` other ids, and kept by a new object. */
  function MadeAndKept(l: Ledger, h: ObjectId, id: nat): Ledger {
    Ledger(l.kept[h := id], l.futures.(live := l.futures.live + {id}), id + 1)
  }

  /** A future is made and freed at once. */
  function MadeAndFreed(l: Ledger, id: nat): Ledger {
    l.(futures := l.futures.(live := l.futures.live + {id} - {id}, freed := l.futures.freed + [id]), next := id + 1)
  }

  /** A future is made, and neither kept nor freed. */
  function MadeAndLost(l: Ledger, id: nat): Ledger {
    l.(futures := l.futures.(live := l.futures.live + {id}, lost := l.futures.lost + {id}), next := id + 1)
  }

  /** The object that keeps a future goes away and frees it. */
  function KeeperFreed(l: Ledger, h: ObjectId): Ledger
    requires h in l.kept
  {
    Ledger(l.kept - {h}, l.futures.(live := l.futures.live - {l.kept[h]}, freed := l.futures.freed + [l.kept[h]]), l.next)
  }

  lemma KeptValues(kept: map<ObjectId, nat>, h: ObjectId, id: nat)
    requires h !in kept
    ensures kept[h := id].Values == kept.Values + {id}
  {
    var kept' := kept[h := id];
    forall x | x in kept.Values ensures x in kept'.Values {
      var k :| k in kept && kept[k] == x;
      assert kept'[k] == x;
    }
    assert kept'[h] == id;
  }

  lemma MadeAndKeptOk(l: Ledger, h: ObjectId, id: nat)
    requires Accounted(l) && l.next <= id && h !in l.kept
    ensures Accounted(MadeAndKept(l, h, id))
  {
    KeptValues(l.kept, h, id);
    assert forall k :: k in l.kept ==> l.kept[k] in l.kept.Values;
  }

  lemma MadeAndFreedOk(l: Ledger, id: nat)
    requires Accounted(l) && l.next <= id
    ensures Accounted(MadeAndFreed(l, id))
  {
    assert l.futures.live + {id} - {id} == l.futures.live;
    LoggedOnce(l.futures.freed, id);
  }

  lemma LoggedOnce(freed: seq<nat>, id: nat)
    requires id !in freed && forall i, j :: 0 <= i < j < |freed| ==> freed[i] != freed[j]
    ensures forall i, j :: 0 <= i < j < |freed + [id]| ==> (freed + [id])[i] != (freed + [id])[j]
    ensures forall x :: x in freed + [id] <==> x in freed || x == id
  {
    assert forall i :: 0 <= i < |freed| ==> freed[i] in freed;
  }

  lemma MadeAndLostOk(l: Ledger, id: nat)
    requires Accounted(l) && l.next <= id
    ensures Accounted(MadeAndLost(l, id))
  {
    assert forall k :: k in l.kept ==> l.kept[k] in l.kept.Values;
  }

  lemma ReleasedValues(kept: map<ObjectId, nat>, h: ObjectId)
    requires h in kept && forall j, k :: j in kept && k in kept && j != k ==> kept[j] != kept[k]
    ensures (kept - {h}).Values == kept.Values - {kept[h]}
  {
    var kept' := kept - {h};
    forall x | x in kept.Values && x != kept[h] ensures x in kept'.Values {
      var k :| k in kept && kept[k] == x;
      assert k in kept' && kept'[k] == x;
    }
  }

  lemma KeeperFreedOk(l: Ledger, h: ObjectId)
    requires Accounted(l) && h in l.kept
    ensures Accounted(KeeperFreed(l, h))
  {
    assert l.kept[h] in l.kept.Values;
    ReleasedValues(l.kept, h);
    LoggedOnce(l.futures.freed, l.kept[h]);
  }

  // ---- what each operation does ----------------------------------------------------------------

  lemma Updated(objects: map<ObjectId, Object>, h: ObjectId, o: Object)
    requires if h in objects && objects[h].FutureRows? then o.FutureRows? && o.request == objects[h].request else !o.FutureRows?
    ensures RequestsOf(objects[h := o]) == RequestsOf(objects)
  {
  }

  lemma Added(objects: map<ObjectId, Object>, h: ObjectId, o: Object)
    requires o.FutureRows? && h !in objects
    ensures RequestsOf(objects[h := o]) == RequestsOf(objects)[h := o.request] && h !in RequestsOf(objects)
  {
  }

  lemma Removed(objects: map<ObjectId, Object>, h: ObjectId)
    requires h in objects
    ensures RequestsOf(objects - {h}) == RequestsOf(objects) - {h}
    ensures !objects[h].FutureRows? ==> RequestsOf(objects) - {h} == RequestsOf(objects)
  {
  }

  lemma MakeRowsKept(s: State, from: ObjectId, result: Slot, query: string, rows: seq<string>)
    requires result in s.fields && s.fields[result].NResult? && s.nextObject !in s.objects
    ensures LedgerOf(MakeRows(s, from, result, query, rows)) == LedgerOf(s)
  {
    var o := Rows(Origin(query, s.fields[result].page), rows, None, None, NoFetches);
    assert MakeRows(s, from, result, query, rows).objects == s.objects[s.nextObject := o];
    Updated(s.objects, s.nextObject, o);
  }

  lemma RowsCreateKept(server: Server, s: State, h: ObjectId)
    requires IsRows(server, s, h) && Field(h, NextResult) in s.fields && s.fields[Field(h, NextResult)].NResult?
    ensures LedgerOf(RowsCreate(s, h).0) == LedgerOf(s)
  {
    FreshOwner(server, s);
    var o := s.objects[h];
    var rows := if o.nextRows.Some? then o.nextRows.value else s.fields[Field(h, NextResult)].page.rows;
    var s1 := Put(s, h, o.(nextRows := Some(rows)));
    Updated(s.objects, h, o.(nextRows := Some(rows)));
    MakeRowsKept(s1, h, Field(h, NextResult), o.origin.query, rows);
  }

  /** The page object has neither the result nor a future of its successor, and there is one. */
  predicate Fetching(s: State, h: ObjectId)
    requires h in s.objects && s.objects[h].Rows?
  {
    Field(h, NextResult) !in s.fields && s.objects[h].futureNextPage.None? && Field(h, Result) in s.fields
  }

  /** What `nextPage` does to the ledger: a fetch that times out or fails loses its future. */
  ghost predicate NextPageLedger(s: State, h: ObjectId, outcome: Outcome, l': Ledger)
    requires h in s.objects && s.objects[h].Rows?
  {
    var l := LedgerOf(s);
    if !Fetching(s, h) then l' == l
    else if outcome.Timeout? || outcome.Failed? then l' == MadeAndLost(l, l.next)
    else l' == MadeAndFreed(l, l.next)
  }

  lemma FillLedger(server: Server, s: State, h: ObjectId, outcome: Outcome)
    requires IsRows(server, s, h)
    ensures NextPageLedger(s, h, outcome, LedgerOf(FillNextResult(server, s, h, outcome).0))
  {
    assert ObjectOk(server, s.objects, s.fields, h);
    FillObjects(server, s, h, outcome);
    Updated(s.objects, h, CountFetch(s.objects[h], true));
    Updated(s.objects, h, CountFetch(s.objects[h], false));
    if Fetching(s, h) { FetchInv(server, s, h); }
  }

  lemma NextPageLedgerOk(server: Server, s: State, h: ObjectId, outcome: Outcome)
    requires IsRows(server, s, h)
    ensures NextPageLedger(s, h, outcome, LedgerOf(NextPage(server, s, h, outcome).0))
  {
    FillLedger(server, s, h, outcome);
    FillNextResultInv(server, s, h, outcome);
    var (s1, early) := FillNextResult(server, s, h, outcome);
    if early.None? {
      RowsCreateInv(server, s1, h);
      RowsCreateKept(server, s1, h);
    }
  }

  lemma NextPageAsyncLedger(server: Server, s: State, h: ObjectId)
    requires IsRows(server, s, h)
    ensures var l, l' := LedgerOf(s), LedgerOf(NextPageAsync(server, s, h).0);
            if Fetching(s, h) then l' == MadeAndKept(l, s.nextObject, l.next) else l' == l
  {
    assert ObjectOk(server, s.objects, s.fields, h);
    FreshOwner(server, s);
    var o := s.objects[h];
    if o.futureNextPage.Some? {
    } else if Field(h, NextResult) in s.fields {
      RowsCreateInv(server, s, h);
      RowsCreateKept(server, s, h);
      WrapLedger(server, RowsCreate(s, h).0, h, RowsCreate(s, h).1);
    } else if Field(h, Result) !in s.fields {
      Updated(s.objects, s.nextObject, FutureValue(None));
    } else {
      FetchInv(server, s, h);
      var f := FutureRows(Origin(o.origin.query, Fetch(server, s, h).1), None, s.natives.next);
      Added(s.objects, s.nextObject, f);
      Updated(s.objects[s.nextObject := f], h, WithFuture(o, s.nextObject, true));
    }
  }

  lemma WrapLedger(server: Server, s: State, h: ObjectId, ret: Ret)
    requires IsRows(server, s, h)
    ensures var v := FutureValue(if ret.Object? then Some(ret.id) else None);
            LedgerOf(Put(Put(s, s.nextObject, v), h, WithFuture(s.objects[h], s.nextObject, false))) == LedgerOf(s)
  {
    FreshOwner(server, s);
    var v := FutureValue(if ret.Object? then Some(ret.id) else None);
    Updated(s.objects, s.nextObject, v);
    Updated(s.objects[s.nextObject := v], h, WithFuture(s.objects[h], s.nextObject, false));
  }

  lemma FutureGetLedger(server: Server, s: State, f: ObjectId, outcome: Outcome)
    requires Inv(server, s) && f in s.objects && (s.objects[f].FutureRows? || s.objects[f].FutureValue?)
    ensures LedgerOf(FutureGet(server, s, f, outcome).0) == LedgerOf(s)
  {
    if s.objects[f].FutureRows? {
      var (s1, ok) := GetResult(s, f, outcome);
      if ok {
        StoreFutureResultInv(server, s, f);
        GetRowsInv(server, s1, f);
        GetRowsKept(server, s1, f);
      }
    }
  }

  lemma GetRowsKept(server: Server, s: State, f: ObjectId)
    requires IsFutureRows(server, s, f) && Field(f, Result) in s.fields && s.fields[Field(f, Result)].NResult?
    ensures LedgerOf(GetRows(s, f).0) == LedgerOf(s)
  {
    FreshOwner(server, s);
    var o := s.objects[f];
    var rows := if o.cachedRows.Some? then o.cachedRows.value else s.fields[Field(f, Result)].page.rows;
    var s1 := Put(s, f, o.(cachedRows := Some(rows)));
    Updated(s.objects, f, o.(cachedRows := Some(rows)));
    MakeRowsKept(s1, f, Field(f, Result), o.origin.query, rows);
  }

  lemma ExecuteLedger(server: Server, s: State, h: ObjectId, query: string, token: Option<string>, outcome: Outcome)
    requires Inv(server, s)
    ensures LedgerOf(Execute(server, s, h, query, token, outcome).0) == MadeAndFreed(LedgerOf(s), s.natives.next + 1)
  {
    FreshOwner(server, s);
    var o := Origin(query, server(query, token));
    Updated(s.objects, s.nextObject, Rows(o, o.page.rows, None, None, NoFetches));
  }

  lemma ExecuteAsyncLedger(server: Server, s: State, h: ObjectId, query: string, token: Option<string>)
    requires Inv(server, s)
    ensures LedgerOf(ExecuteAsync(server, s, h, query, token).0) ==
              MadeAndKept(LedgerOf(s), s.nextObject, s.natives.next + 1)
    ensures s.nextObject !in RequestsOf(s.objects)
  {
    FreshOwner(server, s);
    Added(s.objects, s.nextObject, FutureRows(Origin(query, server(query, token)), None, s.natives.next + 1));
  }

  lemma ExecuteBatchLedger(server: Server, s: State, rows: seq<string>, decodable: bool, async: bool)
    requires Inv(server, s)
    ensures s.nextObject !in RequestsOf(s.objects)
    ensures var l, l' := LedgerOf(s), LedgerOf(ExecuteBatch(s, rows, decodable, async).0);
            if async then l' == MadeAndKept(l, s.nextObject, l.next) else l' == MadeAndFreed(l, l.next)
  {
    FreshOwner(server, s);
    if async {
      Added(s.objects, s.nextObject, FutureRows(BatchOrigin(rows, decodable), None, s.natives.next));
    } else {
      Updated(s.objects, s.nextObject, Rows(BatchOrigin(rows, decodable), rows, None, None, NoFetches));
    }
  }

  lemma FreeLedger(server: Server, s: State, h: ObjectId)
    requires Inv(server, s) && h in s.objects
    ensures LedgerOf(Free(s, h)) ==
              if s.objects[h].FutureRows? then KeeperFreed(LedgerOf(s), h) else LedgerOf(s)
  {
    FreeFields(server, s, h);
    Removed(s.objects, h);
  }

  lemma AcquireLedger(s: State, async: bool, persist: bool, key: PoolKey)
    requires s.nextObject !in s.objects
    ensures var l' := LedgerOf(Acquire(s, async, persist, key));
            l'.next >= s.natives.next && l' == Skip(LedgerOf(s), l'.next)
    ensures LedgerOf(Evict(Acquire(s, async, persist, key), key)) == LedgerOf(Acquire(s, async, persist, key))
  {
    var s' := Acquire(s, async, persist, key);
    var o := s'.objects[s.nextObject];
    assert s'.objects == s.objects[s.nextObject := o];
    Updated(s.objects, s.nextObject, o);
  }

  /** Connecting and waiting for a session take ids and touch no request future. */
  lemma ConnectLedger(server: Server, s: State, op: Op)
    requires Inv(server, s) && Enabled(s, op) && ConnectOp(op)
    ensures var l' := LedgerOf(Step(server, s, op).0);
            l'.next >= s.natives.next && l' == Skip(LedgerOf(s), l'.next)
  {
    FreshOwner(server, s);
    match op
    case OpConnect(persist, key, outcome) => AcquireLedger(s, false, persist, key);
    case OpConnectAsync(persist, key) => AcquireLedger(s, true, persist, key);
    case OpSessionGet(h, outcome) => SessionGetLedger(s, h, outcome);
  }

  lemma SessionGetLedger(s: State, h: ObjectId, outcome: Outcome)
    requires h in s.objects && s.objects[h].FutureSession? && s.nextObject !in s.objects
    ensures LedgerOf(SessionGet(s, h, outcome).0) == LedgerOf(s)
  {
    var n, o := s.nextObject, SessionHandle(s.objects[h].persist);
    Updated(s.objects, n, o);
    Updated(s.objects[n := o], h, SessionGet(s, h, outcome).0.objects[h]);
  }

  // ---- whole runs ----------------------------------------------------------------------------------

  lemma NextPageAccounted(server: Server, s: State, h: ObjectId, outcome: Outcome)
    requires IsRows(server, s, h) && Accounted(LedgerOf(s))
    ensures Accounted(LedgerOf(NextPage(server, s, h, outcome).0))
  {
    NextPageLedgerOk(server, s, h, outcome);
    MadeAndLostOk(LedgerOf(s), s.natives.next);
    MadeAndFreedOk(LedgerOf(s), s.natives.next);
  }

  lemma NextPageAsyncAccounted(server: Server, s: State, h: ObjectId)
    requires IsRows(server, s, h) && Accounted(LedgerOf(s))
    ensures Accounted(LedgerOf(NextPageAsync(server, s, h).0))
  {
    NextPageAsyncLedger(server, s, h);
    FreshOwner(server, s);
    MadeAndKeptOk(LedgerOf(s), s.nextObject, s.natives.next);
  }

  lemma ExecuteSyncAccounted(server: Server, s: State, h: ObjectId, query: string, token: Option<string>, outcome: Outcome)
    requires Inv(server, s) && Accounted(LedgerOf(s))
    ensures Accounted(LedgerOf(Execute(server, s, h, query, token, outcome).0))
  {
    ExecuteLedger(server, s, h, query, token, outcome);
    MadeAndFreedOk(LedgerOf(s), s.natives.next + 1);
  }

  lemma ExecuteAsyncAccounted(server: Server, s: State, h: ObjectId, query: string, token: Option<string>)
    requires Inv(server, s) && Accounted(LedgerOf(s))
    ensures Accounted(LedgerOf(ExecuteAsync(server, s, h, query, token).0))
  {
    ExecuteAsyncLedger(server, s, h, query, token);
    MadeAndKeptOk(LedgerOf(s), s.nextObject, s.natives.next + 1);
  }

  lemma ExecuteBatchAccounted(server: Server, s: State, rows: seq<string>, decodable: bool, async: bool)
    requires Inv(server, s) && Accounted(LedgerOf(s))
    ensures Accounted(LedgerOf(ExecuteBatch(s, rows, decodable, async).0))
  {
    ExecuteBatchLedger(server, s, rows, decodable, async);
    MadeAndKeptOk(LedgerOf(s), s.nextObject, s.natives.next);
    MadeAndFreedOk(LedgerOf(s), s.natives.next);
  }

  lemma FreeAccounted(server: Server, s: State, h: ObjectId)
    requires Inv(server, s) && h in s.objects && Accounted(LedgerOf(s))
    ensures Accounted(LedgerOf(Free(s, h)))
  {
    FreeLedger(server, s, h);
    if s.objects[h].FutureRows? { KeeperFreedOk(LedgerOf(s), h); }
  }

  lemma StepAccounted(server: Server, s: State, op: Op)
    requires Inv(server, s) && Accounted(LedgerOf(s))
    ensures Accounted(LedgerOf(Step(server, s, op).0))
  {
    if Enabled(s, op) {
      if ConnectOp(op) {
        ConnectLedger(server, s, op);
      } else {
        match op
        case OpExecute(h, query, token, outcome) => ExecuteSyncAccounted(server, s, h, query, token, outcome);
        case OpExecuteAsync(h, query, token) => ExecuteAsyncAccounted(server, s, h, query, token);
        case OpExecuteBatch(rows, decodable, async) => ExecuteBatchAccounted(server, s, rows, decodable, async);
        case OpNextPage(h, outcome) => NextPageAccounted(server, s, h, outcome);
        case OpNextPageAsync(h) => NextPageAsyncAccounted(server, s, h);
        case OpGet(h, outcome) => FutureGetLedger(server, s, h, outcome);
        case OpFree(h) => FreeAccounted(server, s, h);
        case OpClose(_) =>
        case OpListDelete(_) =>
      }
    }
  }

  lemma {:induction false} RunAccounted(server: Server, s: State, ops: seq<Op>)
    requires Inv(server, s) && Accounted(LedgerOf(s))
    ensures Accounted(LedgerOf(Run(server, s, ops)))
    decreases |ops|
  {
    if ops != [] {
      StepInv(server, s, ops[0]);
      StepAccounted(server, s, ops[0]);
      RunAccounted(server, Step(server, s, ops[0]).0, ops[1..]);
    }
  }

  /** In every reachable state, the native futures of requests that are not freed are exactly those the
      live future objects keep, each its own, and those that were lost; none was freed twice. */
  lemma FuturesAccounted(server: Server, ops: seq<Op>)
    ensures var s := Reach(server, ops);
            var futures := s.natives.futures;
            && futures.live == RequestsOf(s.objects).Values + futures.lost
            && (forall h, k :: h in RequestsOf(s.objects) && k in RequestsOf(s.objects) && h != k ==>
                  RequestsOf(s.objects)[h] != RequestsOf(s.objects)[k])
            && (forall i, j :: 0 <= i < j < |futures.freed| ==> futures.freed[i] != futures.freed[j])
            && (forall id :: id in futures.live ==> id !in futures.freed)
  {
    InitialInv(server);
    assert RequestsOf(Initial.objects) == map[];
    RunAccounted(server, Initial, ops);
  }

  /** A step loses a future exactly if it is a `nextPage` that has to fetch and times out or fails. */
  lemma LosesFuture(server: Server, s: State, op: Op)
    requires Inv(server, s) && Accounted(LedgerOf(s))
    ensures var lost, lost' := s.natives.futures.lost, Step(server, s, op).0.natives.futures.lost;
            if Enabled(s, op) && op.OpNextPage? && Fetching(s, op.h) && (op.outcome.Timeout? || op.outcome.Failed?)
            then lost' == lost + {s.natives.next} && s.natives.next !in lost
            else lost' == lost
  {
    if Enabled(s, op) {
      match op
      case OpNextPage(h, outcome) => NextPageLedgerOk(server, s, h, outcome);
      case OpNextPageAsync(h) => NextPageAsyncLedger(server, s, h);
      case OpGet(h, outcome) => FutureGetLedger(server, s, h, outcome);
      case OpExecute(h, query, token, outcome) => ExecuteLedger(server, s, h, query, token, outcome);
      case OpExecuteAsync(h, query, token) => ExecuteAsyncLedger(server, s, h, query, token);
      case OpExecuteBatch(rows, decodable, async) => ExecuteBatchLedger(server, s, rows, decodable, async);
      case OpFree(h) => FreeLedger(server, s, h);
      case OpClose(_) =>
      case OpListDelete(_) =>
      case OpConnect(_, _, _) => ConnectLedger(server, s, op);
      case OpConnectAsync(_, _) => ConnectLedger(server, s, op);
      case OpSessionGet(_, _) => ConnectLedger(server, s, op);
    }
  }

  /** Once every object is freed, the futures that are left are the lost ones. */
  lemma DrainedFutures(server: Server, ops: seq<Op>)
    requires Reach(server, ops).objects == map[]
    ensures Reach(server, ops).natives.futures.live == Reach(server, ops).natives.futures.lost
  {
    FuturesAccounted(server, ops);
    assert RequestsOf(Reach(server, ops).objects) == map[];
  }
}
