/**
 Native sessions and statements keep their identity: the native driver gives each a new id, and over
 every run no two counted refs wrap the same one.
 */
module Identity {
  import opened Options
  import opened Refs
  import opened Driver
  import opened Paging
  import opened Sessions
  import opened Pool
  import opened Machine
  import opened Walk

  predicate HasId(d: Native) { d.NSession? || d.NStatement? }

  /** The call wraps a session or a statement in a new ref. */
  predicate Wraps(c: Command<Native>) { c.New? && HasId(c.data) }

  ghost predicate IdsBelow(log: History<Native>, n: nat) {
    log.Then? ==> IdsBelow(log.before, n) && (Wraps(log.last) ==> log.last.data.id < n)
  }

  /** Every session or statement is wrapped after all those with smaller ids. */
  ghost predicate IdsRise(log: History<Native>) {
    log.Then? ==> IdsRise(log.before) && (Wraps(log.last) ==> IdsBelow(log.before, log.last.data.id))
  }

  ghost predicate Ordered(log: History<Native>, n: nat) { IdsRise(log) && IdsBelow(log, n) }

  lemma {:induction false} BelowMore(log: History<Native>, n: nat, m: nat)
    requires IdsBelow(log, n) && n <= m
    ensures IdsBelow(log, m)
  {
    if log.Then? { BelowMore(log.before, n, m); }
  }

  lemma OrderedMore(log: History<Native>, n: nat, m: nat)
    requires Ordered(log, n) && n <= m
    ensures Ordered(log, m)
  {
    BelowMore(log, n, m);
  }

  lemma OrderedCall(log: History<Native>, n: nat, c: Command<Native>)
    requires Ordered(log, n) && (Wraps(c) ==> c.data.id >= n)
    ensures Ordered(Then(log, c), if Wraps(c) then c.data.id + 1 else n)
  {
    if Wraps(c) { BelowMore(log, n, c.data.id); BelowMore(log, n, c.data.id + 1); }
  }

  // ---- what the order means for fields and refs ------------------------------------------------

  lemma {:induction false} FieldsBelow(log: History<Native>, n: nat)
    requires IdsBelow(log, n)
    ensures forall x :: x in FieldsOf(log) && HasId(FieldsOf(log)[x]) ==> FieldsOf(log)[x].id < n
  {
    if log.Then? { FieldsBelow(log.before, n); }
  }

  lemma {:induction false} RefsBelow(log: History<Native>, n: nat)
    requires IdsBelow(log, n)
    ensures forall r :: r in HeapOf(log).refs && HasId(HeapOf(log).refs[r].data) ==> HeapOf(log).refs[r].data.id < n
  {
    if log.Then? { RefsBelow(log.before, n); }
  }

  /** No two refs wrap the same session or statement. */
  ghost predicate OneRefEach(heap: RefHeap<Native>) {
    forall r, q :: r in heap.refs && q in heap.refs && r != q && HasId(heap.refs[r].data) && HasId(heap.refs[q].data) ==>
      heap.refs[r].data.id != heap.refs[q].data.id
  }

  lemma {:induction false} OrderedRefs(log: History<Native>)
    requires IdsRise(log)
    ensures OneRefEach(HeapOf(log))
  {
    if log.Then? {
      OrderedRefs(log.before);
      if Wraps(log.last) { RefsBelow(log.before, log.last.data.id); }
    }
  }

  // ---- every operation keeps the order -----------------------------------------------------------

  ghost predicate Fresh(s: State) { Ordered(s.log, s.natives.next) }

  lemma IssueFresh(s: State, c: Command<Native>)
    requires Fresh(s) && !Wraps(c)
    ensures Fresh(Issue(s, c))
  {
    OrderedCall(s.log, s.natives.next, c);
  }

  /** Ids may be skipped, objects and the list may change. */
  lemma CarryFresh(s: State, s': State)
    requires Fresh(s) && s'.log == s.log && s.natives.next <= s'.natives.next
    ensures Fresh(s')
  {
    OrderedMore(s.log, s.natives.next, s'.natives.next);
  }

  lemma MakeRowsFresh(s: State, from: ObjectId, result: Slot, query: string, rows: seq<string>)
    requires Fresh(s) && result in s.fields && s.fields[result].NResult?
    ensures Fresh(MakeRows(s, from, result, query, rows))
  {
    var n := s.nextObject;
    var s1 := Put(s, n, Rows(Origin(query, s.fields[result].page), rows, None, None, NoFetches));
    var c1, c2 := Copy(Field(from, Statement), Field(n, Statement)), Copy(Field(from, Session), Field(n, Session));
    IssueFresh(s1, c1);
    IssueFresh(Issue(s1, c1), c2);
    IssueFresh(Issue(Issue(s1, c1), c2), Copy(result, Field(n, Result)));
  }

  lemma RowsCreateFresh(s: State, h: ObjectId)
    requires Fresh(s) && h in s.objects && s.objects[h].Rows?
    requires Field(h, NextResult) in s.fields && s.fields[Field(h, NextResult)].NResult?
    ensures Fresh(RowsCreate(s, h).0)
  {
    var o := s.objects[h];
    var rows := if o.nextRows.Some? then o.nextRows.value else s.fields[Field(h, NextResult)].page.rows;
    MakeRowsFresh(Put(s, h, o.(nextRows := Some(rows))), h, Field(h, NextResult), o.origin.query, rows);
  }

  lemma GetResultFresh(s: State, f: ObjectId, outcome: Outcome)
    requires Fresh(s) && f in s.objects && s.objects[f].FutureRows?
    ensures Fresh(GetResult(s, f, outcome).0)
  {
    IssueFresh(s, New(Field(f, Result), NResult(s.objects[f].origin.page), false));
  }

  lemma FetchedFresh(s: State, s': State, h: ObjectId, page: Page)
    requires Fresh(s) && s'.log == s.log && s.natives.next <= s'.natives.next
    ensures Fresh(s') && Fresh(NewField(s', Field(h, NextResult), NResult(page), false))
  {
    CarryFresh(s, s');
    IssueFresh(s', New(Field(h, NextResult), NResult(page), false));
  }

  lemma FillFresh(server: Server, s: State, h: ObjectId, outcome: Outcome)
    requires IsRows(server, s, h) && Fresh(s)
    ensures Fresh(FillNextResult(server, s, h, outcome).0)
  {
    assert ObjectOk(server, s.objects, s.fields, h);
    var o := s.objects[h];
    if Field(h, NextResult) !in s.fields {
      if o.futureNextPage.Some? {
        var f := o.futureNextPage.value;
        GetResultFresh(s, f, outcome);
        IssueFresh(GetResult(s, f, outcome).0, Copy(Field(f, Result), Field(h, NextResult)));
      } else if Field(h, Result) in s.fields {
        FetchInv(server, s, h);
        var (s1, page) := Fetch(server, s, h);
        var s2 := EndFetch(s1, s.natives.next, outcome);
        FetchedFresh(s, Put(s2, h, CountFetch(o, !outcome.Ok?)), h, page);
      }
    }
  }

  lemma NextPageFresh(server: Server, s: State, h: ObjectId, outcome: Outcome)
    requires IsRows(server, s, h) && Fresh(s)
    ensures Fresh(NextPage(server, s, h, outcome).0)
  {
    FillFresh(server, s, h, outcome);
    FillNextResultInv(server, s, h, outcome);
    var (s1, early) := FillNextResult(server, s, h, outcome);
    if early.None? {
      RowsCreateInv(server, s1, h);
      RowsCreateFresh(s1, h);
    }
  }

  lemma ShareFresh(s: State, h: ObjectId, o: Object)
    requires Fresh(s)
    ensures Fresh(ShareWithFuture(s, h, o))
  {
    var f := s.nextObject;
    var c := Copy(Field(h, Statement), Field(f, Statement));
    IssueFresh(Put(s, f, o), c);
    IssueFresh(Issue(Put(s, f, o), c), Copy(Field(h, Session), Field(f, Session)));
  }

  lemma NextPageAsyncFresh(server: Server, s: State, h: ObjectId)
    requires IsRows(server, s, h) && Fresh(s)
    ensures Fresh(NextPageAsync(server, s, h).0)
  {
    assert ObjectOk(server, s.objects, s.fields, h);
    var o := s.objects[h];
    if o.futureNextPage.Some? {
    } else if Field(h, NextResult) in s.fields {
      RowsCreateInv(server, s, h);
      RowsCreateFresh(s, h);
    } else if Field(h, Result) in s.fields {
      FetchInv(server, s, h);
      var (s1, page) := Fetch(server, s, h);
      CarryFresh(s, s1);
      ShareFresh(s1, h, FutureRows(Origin(o.origin.query, page), None, s.natives.next));
    }
  }

  lemma FutureGetFresh(server: Server, s: State, f: ObjectId, outcome: Outcome)
    requires Inv(server, s) && Fresh(s) && f in s.objects && (s.objects[f].FutureRows? || s.objects[f].FutureValue?)
    ensures Fresh(FutureGet(server, s, f, outcome).0)
  {
    if s.objects[f].FutureRows? {
      GetResultFresh(s, f, outcome);
      var (s1, ok) := GetResult(s, f, outcome);
      if ok {
        StoreFutureResultInv(server, s, f);
        GetRowsInv(server, s1, f);
        var o := s1.objects[f];
        var rows := if o.cachedRows.Some? then o.cachedRows.value else s1.fields[Field(f, Result)].page.rows;
        MakeRowsFresh(Put(s1, f, o.(cachedRows := Some(rows))), f, Field(f, Result), o.origin.query, rows);
      }
    }
  }

  /** The statement of a request gets the next free id. */
  lemma StatementFresh(s: State, slot: Slot, query: string, s': State, c: Command<Native>)
    requires Fresh(s) && c == New(slot, NStatement(s.natives.next, query), false)
    requires s'.log == s.log && s'.natives.next > s.natives.next
    ensures Fresh(Issue(s', c))
  {
    OrderedCall(s.log, s.natives.next, c);
    OrderedMore(Then(s.log, c), s.natives.next + 1, s'.natives.next);
  }

  lemma ExecuteFresh(server: Server, s: State, h: ObjectId, query: string, token: Option<string>, outcome: Outcome)
    requires Fresh(s)
    ensures Fresh(Execute(server, s, h, query, token, outcome).0)
  {
    var s1 := Answered(s, token);
    CarryFresh(s, s1);
    var page := server(query, token);
    var n := s.nextObject;
    var s2 := Put(s1, n, Rows(Origin(query, page), page.rows, None, None, NoFetches));
    var c1 := New(Field(n, Statement), NStatement(s.natives.next, query), false);
    var c2 := New(Field(n, Result), NResult(page), false);
    StatementFresh(s, Field(n, Statement), query, s2, c1);
    IssueFresh(Issue(s2, c1), c2);
    IssueFresh(Issue(Issue(s2, c1), c2), Copy(Field(h, Session), Field(n, Session)));
  }

  lemma ExecuteAsyncFresh(server: Server, s: State, h: ObjectId, query: string, token: Option<string>)
    requires Fresh(s)
    ensures Fresh(ExecuteAsync(server, s, h, query, token).0)
  {
    var s1 := MakeFuture(NewStatement(s, token));
    var f := s.nextObject;
    var s2 := Put(s1, f, FutureRows(Origin(query, server(query, token)), None, s.natives.next + 1));
    var c := New(Field(f, Statement), NStatement(s.natives.next, query), false);
    StatementFresh(s, Field(f, Statement), query, s2, c);
    IssueFresh(Issue(s2, c), Copy(Field(h, Session), Field(f, Session)));
  }

  lemma AdoptFresh(s: State, from: Slot, o: Object)
    requires Fresh(s)
    ensures Fresh(AdoptSession(s, from, o))
  {
    IssueFresh(Put(s, s.nextObject, o), Copy(from, Field(s.nextObject, Session)));
  }

  lemma OpenFresh(s: State, async: bool, persist: bool, key: PoolKey)
    requires Fresh(s)
    ensures Fresh(OpenSession(s, async, persist, key))
  {
    var c := New(Field(s.nextObject, Session), NSession(s.natives.next, persist), true);
    OrderedCall(s.log, s.natives.next, c);
    OrderedMore(Then(s.log, c), s.natives.next + 1, s.natives.next + 2);
  }

  lemma AcquireFresh(s: State, async: bool, persist: bool, key: PoolKey)
    requires Fresh(s)
    ensures Fresh(Acquire(s, async, persist, key))
  {
    if persist && key in s.list.pool {
      AdoptFresh(s, PoolEntry(key), Handle(async, persist, key, s.list.pool[key]));
    } else {
      OpenFresh(s, async, persist, key);
      IssueFresh(OpenSession(s, async, persist, key), Copy(Field(s.nextObject, Session), PoolEntry(key)));
    }
  }

  lemma EvictFresh(s: State, key: PoolKey)
    requires Fresh(s)
    ensures Fresh(Evict(s, key))
  {
    IssueFresh(s, Del(PoolEntry(key), true));
  }

  lemma SessionGetFresh(s: State, h: ObjectId, outcome: Outcome)
    requires Fresh(s) && h in s.objects && s.objects[h].FutureSession?
    ensures Fresh(SessionGet(s, h, outcome).0)
  {
    AdoptFresh(s, Field(h, Session), SessionHandle(s.objects[h].persist));
    EvictFresh(AdoptSession(s, Field(h, Session), SessionHandle(s.objects[h].persist)), s.objects[h].key);
  }

  lemma {:induction false} IssueAllFresh(s: State, cs: seq<Command<Native>>)
    requires Fresh(s) && forall i :: 0 <= i < |cs| ==> cs[i].Del?
    ensures Fresh(IssueAll(s, cs)) && IssueAll(s, cs).natives == s.natives
    decreases |cs|
  {
    if cs != [] {
      IssueAllFresh(s, cs[..|cs|-1]);
      IssueFresh(IssueAll(s, cs[..|cs|-1]), cs[|cs|-1]);
    }
  }

  lemma FreeFresh(s: State, h: ObjectId)
    requires Fresh(s) && h in s.objects
    ensures Fresh(Free(s, h))
  {
    IssueAllFresh(s, Releases(h, s.objects[h]));
    CarryFresh(IssueAll(s, Releases(h, s.objects[h])), Free(s, h));
  }

  lemma PageOpFresh(server: Server, s: State, op: Op)
    requires Inv(server, s) && Fresh(s) && Enabled(s, op) && PageOp(op)
    ensures Fresh(Step(server, s, op).0)
  {
    match op
    case OpNextPage(h, outcome) => NextPageFresh(server, s, h, outcome);
    case OpNextPageAsync(h) => NextPageAsyncFresh(server, s, h);
    case OpGet(h, outcome) => FutureGetFresh(server, s, h, outcome);
  }

  lemma ExecuteOpFresh(server: Server, s: State, op: Op)
    requires Inv(server, s) && Fresh(s) && Enabled(s, op) && ExecuteOp(op)
    ensures Fresh(Step(server, s, op).0)
  {
    match op
    case OpExecute(h, query, token, outcome) => ExecuteFresh(server, s, h, query, token, outcome);
    case OpExecuteAsync(h, query, token) => ExecuteAsyncFresh(server, s, h, query, token);
    case OpExecuteBatch(rows, decodable, async) => CarryFresh(s, ExecuteBatch(s, rows, decodable, async).0);
  }

  lemma ConnectOpFresh(server: Server, s: State, op: Op)
    requires Inv(server, s) && Fresh(s) && Enabled(s, op) && ConnectOp(op)
    ensures Fresh(Step(server, s, op).0)
  {
    match op
    case OpConnect(persist, key, outcome) =>
      AcquireFresh(s, false, persist, key);
      EvictFresh(Acquire(s, false, persist, key), key);
    case OpConnectAsync(persist, key) => AcquireFresh(s, true, persist, key);
    case OpSessionGet(h, outcome) => SessionGetFresh(s, h, outcome);
  }

  lemma StepFresh(server: Server, s: State, op: Op)
    requires Inv(server, s) && Fresh(s)
    ensures Fresh(Step(server, s, op).0)
  {
    if Enabled(s, op) {
      if PageOp(op) {
        PageOpFresh(server, s, op);
      } else if ExecuteOp(op) {
        ExecuteOpFresh(server, s, op);
      } else if ConnectOp(op) {
        ConnectOpFresh(server, s, op);
      } else {
        match op
        case OpClose(h) => CloseInv(server, s, h); CarryFresh(s, Close(s, h));
        case OpListDelete(key) => EvictFresh(s, key);
        case OpFree(h) => FreeFresh(s, h);
      }
    }
  }

  // ---- whole runs --------------------------------------------------------------------------------

  lemma {:induction false} RunFresh(server: Server, s: State, ops: seq<Op>)
    requires Inv(server, s) && Fresh(s)
    ensures Fresh(Run(server, s, ops))
    decreases |ops|
  {
    if ops != [] {
      StepInv(server, s, ops[0]);
      StepFresh(server, s, ops[0]);
      RunFresh(server, Step(server, s, ops[0]).0, ops[1..]);
    }
  }

  lemma ReachFresh(server: Server, ops: seq<Op>)
    ensures Fresh(Reach(server, ops))
  {
    InitialInv(server);
    RunFresh(server, Initial, ops);
  }

  /** Over every run, no two refs wrap the same session or statement. */
  lemma OneRefPerHandle(server: Server, ops: seq<Op>)
    ensures OneRefEach(HeapOf(Reach(server, ops).log))
  {
    ReachFresh(server, ops);
    OrderedRefs(Reach(server, ops).log);
  }

  /** In every reachable state, a connect that does not find its key on the list gives a session that
      no field held before. */
  lemma ConnectIsNew(server: Server, ops: seq<Op>, async: bool, persist: bool, key: PoolKey, x: Slot)
    requires !persist || key !in Reach(server, ops).list.pool
    ensures var s := Reach(server, ops);
            var s' := Acquire(s, async, persist, key);
            && Field(s.nextObject, Session) in s'.fields
            && (x in s.fields ==> s.fields[x] != s'.fields[Field(s.nextObject, Session)])
  {
    var s := Reach(server, ops);
    ReachFresh(server, ops);
    FieldsBelow(s.log, s.natives.next);
  }
}
