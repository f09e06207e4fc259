/**
 The persistent session list over whole runs.
 */
module PoolRuns {
  import opened Options
  import opened Refs
  import opened Driver
  import opened Paging
  import opened Sessions
  import opened Pool
  import opened Machine
  import opened Walk

  /** The native driver reported an error, not a timeout. */
  predicate IsError(outcome: Outcome) { !outcome.Ok? && !outcome.Timeout? }

  /** The steps that take the entry of `key` off the list: a persistent connect that fails with an
      error, the first failing `get` of a persistent session future, and list destruction. */
  ghost predicate Evicts(s: State, op: Op, key: PoolKey) {
    && Enabled(s, op)
    && match op
       case OpConnect(persist, k, outcome) => persist && k == key && IsError(outcome)
       case OpSessionGet(h, outcome) =>
         var o := s.objects[h];
         o.persist && o.key == key && !o.failed && o.defaultSession.None? && IsError(outcome)
       case OpListDelete(k) => k == key
       case _ => false
  }

  /** The list entry of `key` and the session it holds are the same in both states. */
  predicate SameEntry(s: State, s': State, key: PoolKey) {
    && (key in s.list.pool <==> key in s'.list.pool)
    && (PoolEntry(key) in s.fields <==> PoolEntry(key) in s'.fields)
    && (PoolEntry(key) in s.fields ==> s'.fields[PoolEntry(key)] == s.fields[PoolEntry(key)])
  }

  // ---- operations on pages do not touch the list ------------------------------------------

  lemma FillEntry(server: Server, s: State, h: ObjectId, outcome: Outcome, key: PoolKey)
    requires IsRows(server, s, h)
    ensures SameEntry(s, FillNextResult(server, s, h, outcome).0, key)
  {
  }

  lemma NextPageEntry(server: Server, s: State, h: ObjectId, outcome: Outcome, key: PoolKey)
    requires IsRows(server, s, h)
    ensures SameEntry(s, NextPage(server, s, h, outcome).0, key)
  {
    FillEntry(server, s, h, outcome, key);
    FillNextResultInv(server, s, h, outcome);
    var (s1, early) := FillNextResult(server, s, h, outcome);
    if early.None? {
      RowsCreateInv(server, s1, h);
      RowsCreateEntry(s1, h, key);
    }
  }

  lemma RowsCreateEntry(s: State, h: ObjectId, key: PoolKey)
    requires h in s.objects && s.objects[h].Rows?
    requires Field(h, NextResult) in s.fields && s.fields[Field(h, NextResult)].NResult?
    ensures SameEntry(s, RowsCreate(s, h).0, key)
  {
  }

  lemma NextPageAsyncEntry(server: Server, s: State, h: ObjectId, key: PoolKey)
    requires IsRows(server, s, h)
    ensures SameEntry(s, NextPageAsync(server, s, h).0, key)
  {
    assert ObjectOk(server, s.objects, s.fields, h);
    if s.objects[h].futureNextPage.None? && Field(h, NextResult) in s.fields {
      RowsCreateEntry(s, h, key);
    }
  }

  lemma FutureGetEntry(server: Server, s: State, f: ObjectId, outcome: Outcome, key: PoolKey)
    requires Inv(server, s) && f in s.objects && (s.objects[f].FutureRows? || s.objects[f].FutureValue?)
    ensures SameEntry(s, FutureGet(server, s, f, outcome).0, key)
  {
    if s.objects[f].FutureRows? {
      var (s1, ok) := GetResult(s, f, outcome);
      if ok {
        StoreFutureResultInv(server, s, f);
        GetRowsInv(server, s1, f);
        GetRowsEntry(s1, f, key);
      }
    }
  }

  lemma GetRowsEntry(s: State, f: ObjectId, key: PoolKey)
    requires f in s.objects && s.objects[f].FutureRows?
    requires Field(f, Result) in s.fields && s.fields[Field(f, Result)].NResult?
    ensures SameEntry(s, GetRows(s, f).0, key)
  {
  }

  lemma PageOpEntry(server: Server, s: State, op: Op, key: PoolKey)
    requires Inv(server, s) && Enabled(s, op) && PageOp(op)
    ensures SameEntry(s, Step(server, s, op).0, key)
  {
    match op
    case OpNextPage(h, outcome) => NextPageEntry(server, s, h, outcome, key);
    case OpNextPageAsync(h) => NextPageAsyncEntry(server, s, h, key);
    case OpGet(h, outcome) => FutureGetEntry(server, s, h, outcome, key);
  }

  lemma ExecuteEntry(server: Server, s: State, h: ObjectId, query: string, token: Option<string>, outcome: Outcome, key: PoolKey)
    ensures SameEntry(s, Execute(server, s, h, query, token, outcome).0, key)
  {
  }

  lemma ExecuteAsyncEntry(server: Server, s: State, h: ObjectId, query: string, token: Option<string>, key: PoolKey)
    ensures SameEntry(s, ExecuteAsync(server, s, h, query, token).0, key)
  {
  }

  lemma ExecuteOpEntry(server: Server, s: State, op: Op, key: PoolKey)
    requires Inv(server, s) && Enabled(s, op) && ExecuteOp(op)
    ensures SameEntry(s, Step(server, s, op).0, key)
  {
    match op
    case OpExecute(h, query, token, outcome) => ExecuteEntry(server, s, h, query, token, outcome, key);
    case OpExecuteAsync(h, query, token) => ExecuteAsyncEntry(server, s, h, query, token, key);
    case OpExecuteBatch(_, _, _) =>
  }

  lemma FreeEntry(server: Server, s: State, h: ObjectId, key: PoolKey)
    requires Inv(server, s) && h in s.objects
    ensures SameEntry(s, Free(s, h), key)
  {
    FreeFields(server, s, h);
  }

  // ---- connecting ---------------------------------------------------------------------------

  /** Reusing or making a session leaves the entries of other keys alone, keeps an entry that is
      there, and makes the new object share the session of the entry. */
  lemma AcquireEntry(server: Server, s: State, async: bool, persist: bool, key: PoolKey, other: PoolKey)
    requires Inv(server, s)
    ensures var s' := Acquire(s, async, persist, key);
            && Field(s.nextObject, Session) in s'.fields
            && (persist ==> key in s'.list.pool && PoolEntry(key) in s'.fields
                            && s'.fields[PoolEntry(key)] == s'.fields[Field(s.nextObject, Session)])
            && (other != key || !persist || key in s.list.pool ==> SameEntry(s, s', other))
  {
    FreshOwner(server, s);
    if key in s.list.pool {
      EntryPooled(server, s, key);
    }
  }

  lemma EvictEntry(s: State, key: PoolKey, other: PoolKey)
    ensures key !in Evict(s, key).list.pool
    ensures other != key ==> SameEntry(s, Evict(s, key), other)
  {
  }

  lemma SessionGetEntry(server: Server, s: State, h: ObjectId, outcome: Outcome, key: PoolKey)
    requires Inv(server, s) && h in s.objects && s.objects[h].FutureSession? && key in s.list.pool
    ensures var s' := SessionGet(s, h, outcome).0;
            if Evicts(s, OpSessionGet(h, outcome), key) then key !in s'.list.pool else SameEntry(s, s', key)
  {
    var o := s.objects[h];
    var s1 := AdoptSession(s, Field(h, Session), SessionHandle(o.persist));
    EvictEntry(s1, o.key, key);
  }

  /** Over every step, the entry of a key stays on the list with the same native session, except in
      the steps named by `Evicts`, which remove it. In particular a timeout never evicts. */
  lemma EntryStable(server: Server, s: State, op: Op, key: PoolKey)
    requires Inv(server, s) && key in s.list.pool
    ensures var s' := Step(server, s, op).0;
            if Evicts(s, op, key) then key !in s'.list.pool else SameEntry(s, s', key)
  {
    if Enabled(s, op) {
      if PageOp(op) {
        PageOpEntry(server, s, op, key);
      } else if ExecuteOp(op) {
        ExecuteOpEntry(server, s, op, key);
      } else {
        match op
        case OpConnect(persist, k, outcome) => ConnectEntry(server, s, persist, k, outcome, key);
        case OpConnectAsync(persist, k) => AcquireEntry(server, s, true, persist, k, key);
        case OpSessionGet(h, outcome) => SessionGetEntry(server, s, h, outcome, key);
        case OpListDelete(k) => EvictEntry(s, k, key);
        case OpFree(h) => FreeEntry(server, s, h, key);
        case OpClose(_) =>
      }
    }
  }

  lemma ConnectEntry(server: Server, s: State, persist: bool, k: PoolKey, outcome: Outcome, key: PoolKey)
    requires Inv(server, s) && key in s.list.pool
    ensures var s' := Connect(s, persist, k, outcome).0;
            if persist && k == key && IsError(outcome) then key !in s'.list.pool else SameEntry(s, s', key)
  {
    AcquireEntry(server, s, false, persist, k, key);
    EvictEntry(Acquire(s, false, persist, k), k, key);
  }

  /** No step of the run evicts the entry of `key`. */
  ghost predicate NeverEvicted(server: Server, s: State, ops: seq<Op>, key: PoolKey)
    requires Inv(server, s)
    decreases |ops|
  {
    ops != [] ==>
      !Evicts(s, ops[0], key) &&
      (StepInv(server, s, ops[0]); NeverEvicted(server, Step(server, s, ops[0]).0, ops[1..], key))
  }

  /** One key, one native session: a session connected persistently is shared with every later
      persistent connect on the same key, until a step evicts the entry. */
  lemma {:induction false} OneSessionPerKey(server: Server, s: State, ops: seq<Op>, key: PoolKey)
    requires Inv(server, s) && key in s.list.pool && NeverEvicted(server, s, ops, key)
    ensures var s' := Run(server, s, ops);
            && SameEntry(s, s', key)
            && var (s2, ret) := Connect(s', true, key, Ok);
            && ret.Object? && Field(ret.id, Session) in s2.fields
            && PoolEntry(key) in s.fields && s2.fields[Field(ret.id, Session)] == s.fields[PoolEntry(key)]
    decreases |ops|
  {
    if ops == [] {
      EntryPooled(server, s, key);
      AcquireEntry(server, s, false, true, key, key);
    } else {
      StepInv(server, s, ops[0]);
      EntryStable(server, s, ops[0], key);
      OneSessionPerKey(server, Step(server, s, ops[0]).0, ops[1..], key);
    }
  }

  predicate HoldsPersistently(o: Object) { (o.SessionHandle? || o.FutureSession?) && o.persist }

  /** `connectAsync` on a listed key, then `get`: the session of the entry, and the same object again
      on every later `get`, whatever runs in between and whatever its outcome would be. */
  lemma AsyncSharesSession(server: Server, s: State, key: PoolKey)
    requires Inv(server, s) && key in s.list.pool
    ensures var n := s.nextObject;
            var s1 := Acquire(s, true, true, key);
            && n in s1.objects && s1.objects[n].FutureSession? && Inv(server, s1)
            && var (s2, ret) := SessionGet(s1, n, Ok);
            && ret.Object? && Field(ret.id, Session) in s2.fields && PoolEntry(key) in s.fields
            && s2.fields[Field(ret.id, Session)] == s.fields[PoolEntry(key)]
            && Inv(server, s2) && n in s2.objects && s2.objects[n].FutureSession?
            && s2.objects[n].defaultSession == Some(ret.id)
  {
    EntryPooled(server, s, key);
    FreshOwner(server, s);
    AcquireInv(server, s, true, true, key);
    AcquireEntry(server, s, true, true, key, key);
    SessionGetInv(server, Acquire(s, true, true, key), s.nextObject, Ok);
  }

  lemma GetAgain(server: Server, s: State, h: ObjectId, ops: seq<Op>, outcome: Outcome)
    requires Inv(server, s) && h in s.objects && s.objects[h].FutureSession? && s.objects[h].defaultSession.Some?
    requires OpFree(h) !in ops
    ensures var s' := Run(server, s, ops);
            && h in s'.objects && s'.objects[h].FutureSession?
            && SessionGet(s', h, outcome) == (s', Object(s.objects[h].defaultSession.value))
  {
    RunKeepsCores(server, s, ops, h);
    var s' := Run(server, s, ops);
    assert ObjectOk(server, s'.objects, s'.fields, h);
  }

  /** The same over runs: until a step evicts the entry, `connectAsync` and `get` give the session
      that was listed. */
  lemma OneSessionPerKeyAsync(server: Server, s: State, ops: seq<Op>, key: PoolKey)
    requires Inv(server, s) && key in s.list.pool && NeverEvicted(server, s, ops, key)
    ensures var s' := Run(server, s, ops);
            var s1 := Acquire(s', true, true, key);
            && s'.nextObject in s1.objects && s1.objects[s'.nextObject].FutureSession?
            && var (s2, ret) := SessionGet(s1, s'.nextObject, Ok);
            && ret.Object? && Field(ret.id, Session) in s2.fields && PoolEntry(key) in s.fields
            && s2.fields[Field(ret.id, Session)] == s.fields[PoolEntry(key)]
  {
    OneSessionPerKey(server, s, ops, key);
    AsyncSharesSession(server, Run(server, s, ops), key);
  }

  /** In every reachable state the counter is the number of list entries, and no session that is on
      the list, or that a persistent handle or future holds, was ever asked to close. */
  lemma PersistentNeverClosed(server: Server, ops: seq<Op>)
    ensures var s := Reach(server, ops);
            && s.list.sessionCount == |s.list.pool|
            && (forall k :: k in s.list.pool ==>
                  PoolEntry(k) in s.fields && s.fields[PoolEntry(k)] !in s.natives.closed)
            && (forall h :: h in s.objects && HoldsPersistently(s.objects[h]) ==>
                  Field(h, Session) in s.fields && s.fields[Field(h, Session)] !in s.natives.closed)
  {
    var s := Reach(server, ops);
    forall k | k in s.list.pool
      ensures PoolEntry(k) in s.fields && s.fields[PoolEntry(k)] !in s.natives.closed
    {
      EntryPooled(server, s, k);
    }
    forall h | h in s.objects && HoldsPersistently(s.objects[h])
      ensures Field(h, Session) in s.fields && s.fields[Field(h, Session)] !in s.natives.closed
    {
      assert ObjectOk(server, s.objects, s.fields, h);
    }
  }

  /** A persistent handle leaves the native driver alone; any other handle closes its own session. */
  lemma CloseEffect(server: Server, s: State, h: ObjectId)
    requires IsSession(server, s, h)
    ensures Field(h, Session) in s.fields
    ensures s.objects[h].persist ==> Close(s, h) == s
    ensures !s.objects[h].persist ==> s.fields[Field(h, Session)] in Close(s, h).natives.closed
    ensures forall k :: k in s.list.pool ==>
              PoolEntry(k) in s.fields && s.fields[PoolEntry(k)] !in Close(s, h).natives.closed
  {
    CloseInv(server, s, h);
    forall k | k in s.list.pool
      ensures PoolEntry(k) in s.fields && s.fields[PoolEntry(k)] !in Close(s, h).natives.closed
    {
      EntryPooled(server, s, k);
    }
  }
}
