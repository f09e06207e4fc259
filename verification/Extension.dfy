/**
 The extension as an object that updates its tables in place. Pointer fields are read through
 the counted heap alone; the history components of `tables` (`fields` and `log`) are written by
 `Call` and read only in specifications. Every method says what its caller gets, keeps the counts
 exact, and is proved to do what the operation of the same name in `Paging`, `Sessions` or `Pool`
 does, so everything proved about runs of `Machine` holds of runs of these methods.
 */
module ExtensionObject {
  import opened Options
  import opened Refs
  import opened Driver
  import opened Paging
  import opened Sessions
  import opened Pool
  import opened Machine
  import opened PoolRuns

  /** The new object is a handle or a session future as asked for; a future of a listed session waits
      for the native future of the entry. */
  predicate IsHandle(s: State, n: ObjectId, async: bool, persist: bool, key: PoolKey) {
    && n in s.objects
    && (!async ==> s.objects[n] == SessionHandle(persist))
    && (async ==>
          && s.objects[n].FutureSession? && s.objects[n].persist == persist && s.objects[n].key == key
          && s.objects[n].defaultSession.None? && !s.objects[n].failed
          && (persist ==> key in s.list.pool && s.objects[n].future == Some(s.list.pool[key])))
  }

  /** The object has a session, and a persistent one shares it with the list entry of the key. */
  predicate Shares(s: State, n: ObjectId, persist: bool, key: PoolKey) {
    && Field(n, Session) in s.fields
    && (persist ==> && key in s.list.pool && PoolEntry(key) in s.fields
                    && s.fields[PoolEntry(key)] == s.fields[Field(n, Session)])
  }

  lemma AcquireShares(server: Server, s: State, async: bool, persist: bool, key: PoolKey)
    requires Inv(server, s)
    ensures var s' := Pool.Acquire(s, async, persist, key);
            && Shares(s', s.nextObject, persist, key) && IsHandle(s', s.nextObject, async, persist, key)
            && s'.list.sessionCount == s.list.sessionCount + (if persist && key !in s.list.pool then 1 else 0)
            && forall other :: other != key || !persist || key in s.list.pool ==> SameEntry(s, s', other)
  {
    forall other: PoolKey
      ensures other != key || !persist || key in s.list.pool ==> SameEntry(s, Pool.Acquire(s, async, persist, key), other)
    {
      AcquireEntry(server, s, async, persist, key, other);
    }
    AcquireEntry(server, s, async, persist, key, key);
  }

  lemma EvictEffect(server: Server, s: State, key: PoolKey)
    requires Inv(server, s)
    ensures var s' := Pool.Evict(s, key);
            && key !in s'.list.pool && PoolEntry(key) !in s'.fields
            && s'.list.sessionCount == s.list.sessionCount - (if key in s.list.pool then 1 else 0)
            && forall other :: other != key ==> SameEntry(s, s', other)
  {
    assert PoolEntry(key) in s.fields ==> SlotOk(s.objects, s.list.pool, s.fields, PoolEntry(key));
    forall other: PoolKey ensures other != key ==> SameEntry(s, Pool.Evict(s, key), other) {
      EvictEntry(s, key, other);
    }
  }

  class Extension {
    var heap: RefHeap<Native>
    var tables: State

    /** The counted heap is the one the ref calls so far produce. */
    ghost predicate Counted()
      reads this
    {
      LogOk(tables.fields, tables.log) && heap == HeapOf(tables.log)
    }

    ghost predicate Valid(server: Server)
      reads this
    {
      Counted() && Inv(server, tables)
    }

    constructor (server: Server)
      ensures Valid(server) && tables == Initial
    {
      heap, tables := EmptyHeap(), Initial;
      new;
      InitialInv(server);
    }

    lemma HeapReads()
      requires Counted()
      ensures NoDangling(heap)
      ensures forall x :: x in heap.slots <==> x in tables.fields
      ensures forall x :: x in tables.fields ==> heap.refs[heap.slots[x]].data == tables.fields[x]
    {
      HeapSound(tables.log);
      assert heap.slots.Keys == View(heap).Keys;
    }

    /** Every count is the number of fields and list entries on the ref, no field dangles, every
        destructor ran once. */
    lemma Exact()
      requires Counted()
      ensures CountsExact(heap, tables.fields)
    {
      HeapSound(tables.log);
      SoundCounts(heap, tables.fields);
    }

    /** One call of `new_peref`, `add_ref` or `del_peref`. */
    method Call(c: Command<Native>)
      requires Counted() && Guard(tables.fields, c)
      modifies this
      ensures Counted() && tables == Issue(old(tables), c)
    {
      IssueOk(tables, c);
      heap := Apply(heap, c);
      tables := Issue(tables, c);
    }

    /** Whether a pointer field is non-null. */
    method IsSet(x: Slot) returns (set_: bool)
      requires Counted()
      ensures set_ <==> x in tables.fields
    {
      HeapReads();
      set_ := x in heap.slots;
    }

    /** Following a non-null pointer field. */
    method Read(x: Slot) returns (data: Native)
      requires Counted() && x in tables.fields
      ensures data == tables.fields[x]
    {
      HeapReads();
      data := heap.refs[heap.slots[x]].data;
    }

    /** Shared tail of `php_driver_rows_create` and `FutureRows::get`. */
    method BuildRows(from: ObjectId, result: Slot, query: string, rows: seq<string>) returns (n: ObjectId)
      requires Counted() && result in tables.fields && tables.fields[result].NResult? && !Persistent(result)
      requires forall name :: Field(tables.nextObject, name) !in tables.fields
      requires tables.fields[result].page.hasMore ==>
                 Field(from, Statement) in tables.fields && Field(from, Session) in tables.fields
      modifies this
      ensures Counted() && n == old(tables).nextObject
      ensures tables == MakeRows(old(tables), from, result, query, rows)
    {
      n := tables.nextObject;
      var data := Read(result);
      tables := Put(tables, n, Rows(Origin(query, data.page), rows, None, None, NoFetches));
      if data.page.hasMore {
        Call(Copy(Field(from, Statement), Field(n, Statement)));
        Call(Copy(Field(from, Session), Field(n, Session)));
        Call(Copy(result, Field(n, Result)));
      }
    }

    /** `php_driver_future_rows_get_result`. */
    method AwaitResult(server: Server, f: ObjectId, outcome: Outcome) returns (ok: bool)
      requires Valid(server) && f in tables.objects && tables.objects[f].FutureRows?
      modifies this
      ensures Valid(server) && (tables, ok) == GetResult(old(tables), f, outcome)
      ensures ok <==> Field(f, Result) in old(tables).fields || outcome.Ok?
      ensures ok ==> Field(f, Result) in tables.fields
      ensures !ok ==> tables == old(tables)
    {
      StoreFutureResultInv(server, tables, f);
      var stored := IsSet(Field(f, Result));
      if stored { return true; }
      if !outcome.Ok? { return false; }
      Call(New(Field(f, Result), NResult(tables.objects[f].origin.page), false));
      return true;
    }

    ghost predicate Ready(server: Server, h: ObjectId)
      reads this
    {
      Valid(server) && h in tables.objects && tables.objects[h].Rows? && Field(h, NextResult) in tables.fields
    }

    /** What `php_driver_rows_create` relies on. */
    lemma RowsCreateReady(server: Server, h: ObjectId)
      requires Ready(server, h)
      ensures tables.fields[Field(h, NextResult)].NResult? && h < tables.nextObject
      ensures forall name :: Field(tables.nextObject, name) !in tables.fields
      ensures Field(h, Statement) in tables.fields && Field(h, Session) in tables.fields
    {
      FreshOwner(server, tables);
      assert ObjectOk(server, tables.objects, tables.fields, h);
    }

    /** `php_driver_rows_create`. */
    method CreateRows(server: Server, h: ObjectId) returns (ret: Ret)
      requires Ready(server, h)
      modifies this
      ensures Valid(server) && old(tables).fields[Field(h, NextResult)].NResult?
      ensures (tables, ret) == RowsCreate(old(tables), h)
    {
      RowsCreateInv(server, tables, h);
      RowsCreateReady(server, h);
      var o := tables.objects[h];
      var next := Read(Field(h, NextResult));
      if o.nextRows.None? && !next.page.decodable { return Undecodable; }
      var rows := if o.nextRows.Some? then o.nextRows.value else next.page.rows;
      tables := Put(tables, h, o.(nextRows := Some(rows)));
      var n := BuildRows(h, Field(h, NextResult), o.origin.query, rows);
      return Object(n);
    }

    /** Sets the paging state of the shared statement, then executes it, which makes a native future. */
    method SendFetch(server: Server, h: ObjectId) returns (page: Page)
      requires Valid(server) && h in tables.objects && tables.objects[h].Rows? && Field(h, Result) in tables.fields
      modifies this`tables
      ensures Valid(server) && CanFetch(old(tables), h)
      ensures (tables, page) == Fetch(server, old(tables), h)
    {
      FetchInv(server, tables, h);
      var stmt := Read(Field(h, Statement));
      var result := Read(Field(h, Result));
      tables := SetPagingState(tables, stmt.id, Some(result.page.token));
      page := server(stmt.query, tables.natives.paging[stmt.id]);
      tables := MakeFuture(tables);
    }

    method FillNext(server: Server, h: ObjectId, outcome: Outcome) returns (early: Option<Ret>)
      requires Valid(server) && h in tables.objects && tables.objects[h].Rows?
      modifies this
      ensures Valid(server)
      ensures (tables, early) == FillNextResult(server, old(tables), h, outcome)
    {
      FillNextResultInv(server, tables, h, outcome);
      assert ObjectOk(server, tables.objects, tables.fields, h);
      var o := tables.objects[h];
      var cached := IsSet(Field(h, NextResult));
      if cached { return None; }
      if o.futureNextPage.Some? {
        var f := o.futureNextPage.value;
        if !tables.objects[f].FutureRows? { return Some(UnexpectedFuture); }
        var ok := AwaitResult(server, f, outcome);
        if !ok { return Some(Error(outcome)); }
        Call(Copy(Field(f, Result), Field(h, NextResult)));
        return None;
      }
      var more := IsSet(Field(h, Result));
      if !more { return Some(Null); }
      var future := tables.natives.next;
      var page := SendFetch(server, h);
      tables := EndFetch(tables, future, outcome);
      if !outcome.Ok? {
        tables := Put(tables, h, CountFetch(o, true));
        return Some(Error(outcome));
      }
      tables := Put(tables, h, CountFetch(o, false));
      Call(New(Field(h, NextResult), NResult(page), false));
      return None;
    }

    /** `Rows::nextPage`. */
    method NextPage(server: Server, h: ObjectId, outcome: Outcome) returns (ret: Ret)
      requires Valid(server) && h in tables.objects && tables.objects[h].Rows?
      modifies this
      ensures Valid(server) && CountsExact(heap, tables.fields)
      ensures (tables, ret) == Paging.NextPage(server, old(tables), h, outcome)
      ensures ret.Error? <==> Waits(old(tables), h) && outcome != Ok
      ensures ret.Error? ==> ret.outcome == outcome
      ensures ret.Object? ==> SharesRefs(old(tables), h, tables, ret.id)
      ensures !ret.Error? ==> RightSuccessor(server, old(tables).objects[h].origin, tables, ret)
    {
      NextPageCorrect(server, tables, h, outcome);
      NextPageShares(server, tables, h, outcome);
      FillNextResultInv(server, tables, h, outcome);
      var early := FillNext(server, h, outcome);
      if early.Some? {
        Exact();
        return early.value;
      }
      ret := CreateRows(server, h);
      Exact();
    }

    /** `Rows::nextPageAsync`. */
    method NextPageAsync(server: Server, h: ObjectId) returns (ret: Ret)
      requires Valid(server) && h in tables.objects && tables.objects[h].Rows?
      modifies this
      ensures Valid(server) && CountsExact(heap, tables.fields)
      ensures (tables, ret) == Paging.NextPageAsync(server, old(tables), h)
      ensures AsyncResult(server, old(tables), h, tables, ret)
      ensures old(tables).objects[h].futureNextPage.None? && Field(h, NextResult) !in old(tables).fields && ret.Object? ==>
                SharesRefs(old(tables), h, tables, ret.id)
    {
      NextPageAsyncCorrect(server, tables, h);
      if tables.objects[h].futureNextPage.None? && Field(h, NextResult) !in tables.fields {
        NextPageAsyncShares(server, tables, h);
      }
      assert ObjectOk(server, tables.objects, tables.fields, h);
      var o := tables.objects[h];
      if o.futureNextPage.Some? { Exact(); return Object(o.futureNextPage.value); }
      var cached := IsSet(Field(h, NextResult));
      if cached {
        RowsCreateInv(server, tables, h);
        ret := CreateRows(server, h);
        var v := tables.nextObject;
        var o1 := tables.objects[h];
        tables := Put(tables, v, FutureValue(if ret.Object? then Some(ret.id) else None));
        tables := Put(tables, h, WithFuture(o1, v, false));
        if ret.Object? { ret := Object(v); }
        Exact();
        return;
      }
      var more := IsSet(Field(h, Result));
      if !more {
        ret := Object(tables.nextObject);
        tables := Put(tables, tables.nextObject, FutureValue(None));
        Exact();
        return;
      }
      var future := tables.natives.next;
      var page := SendFetch(server, h);
      ret := Object(tables.nextObject);
      ShareFuture(server, h, page, future);
      tables := Put(tables, h, WithFuture(o, ret.id, true));
      Exact();
    }

    /** The future object takes its own refs to the statement and the session. */
    method ShareFuture(server: Server, h: ObjectId, page: Page, future: nat)
      requires Valid(server) && h in tables.objects && tables.objects[h].Rows? && Field(h, Result) in tables.fields
      modifies this
      ensures Counted()
      ensures tables == ShareWithFuture(old(tables), h, FutureRows(Origin(old(tables).objects[h].origin.query, page), None, future))
    {
      assert ObjectOk(server, tables.objects, tables.fields, h);
      FreshOwner(server, tables);
      var f := tables.nextObject;
      tables := Put(tables, f, FutureRows(Origin(tables.objects[h].origin.query, page), None, future));
      Call(Copy(Field(h, Statement), Field(f, Statement)));
      Call(Copy(Field(h, Session), Field(f, Session)));
    }

    /** `FutureRows::get` and `FutureValue::get`. */
    method FutureGet(server: Server, f: ObjectId, outcome: Outcome) returns (ret: Ret)
      requires Valid(server) && f in tables.objects
      requires tables.objects[f].FutureRows? || tables.objects[f].FutureValue?
      modifies this
      ensures Valid(server) && CountsExact(heap, tables.fields)
      ensures (tables, ret) == Paging.FutureGet(server, old(tables), f, outcome)
      ensures ret.Error? <==> old(tables).objects[f].FutureRows? && Field(f, Result) !in old(tables).fields && outcome != Ok
      ensures ret.Error? ==> ret.outcome == outcome
      ensures old(tables).objects[f].FutureRows? && ret.Object? ==>
                && IsPage(tables.objects, Some(ret.id), old(tables).objects[f].origin)
                && SharesRefs(old(tables), f, tables, ret.id)
      ensures old(tables).objects[f].FutureValue? ==>
                && tables == old(tables)
                && ret == if old(tables).objects[f].value.Some? then Object(old(tables).objects[f].value.value) else Null
      ensures ret.Undecodable? ==> !old(tables).objects[f].origin.page.decodable
    {
      FutureGetCorrect(server, tables, f, outcome);
      if tables.objects[f].FutureRows? { FutureGetShares(server, tables, f, outcome); }
      if tables.objects[f].FutureValue? {
        var v := tables.objects[f].value;
        Exact();
        return if v.Some? then Object(v.value) else Null;
      }
      var ok := AwaitResult(server, f, outcome);
      if !ok { Exact(); return Error(outcome); }
      ret := DecodeRows(server, f);
      Exact();
    }

    method DecodeRows(server: Server, f: ObjectId) returns (ret: Ret)
      requires Valid(server) && f in tables.objects && tables.objects[f].FutureRows? && Field(f, Result) in tables.fields
      modifies this
      ensures Counted() && old(tables).fields[Field(f, Result)].NResult?
      ensures (tables, ret) == GetRows(old(tables), f)
    {
      assert ObjectOk(server, tables.objects, tables.fields, f);
      FreshOwner(server, tables);
      var o := tables.objects[f];
      var result := Read(Field(f, Result));
      if o.cachedRows.None? && !result.page.decodable { return Undecodable; }
      var rows := if o.cachedRows.Some? then o.cachedRows.value else result.page.rows;
      tables := Put(tables, f, o.(cachedRows := Some(rows)));
      var n := BuildRows(f, Field(f, Result), o.origin.query, rows);
      return Object(n);
    }

    /** A run of releases, each with the flag of its field. */
    method ReleaseFields(cs: seq<Command<Native>>)
      requires Counted()
      requires forall c :: c in cs ==> c.Del? && c.persistent == Persistent(c.slot)
      modifies this
      ensures Counted() && tables == IssueAll(old(tables), cs)
    {
      var i := 0;
      while i < |cs|
        invariant 0 <= i <= |cs| && Counted()
        invariant tables == IssueAll(old(tables), cs[..i])
      {
        assert cs[..i+1][..i] == cs[..i];
        assert cs[i] in cs;
        Call(cs[i]);
        i := i + 1;
      }
      assert cs[..|cs|] == cs;
    }

    static lemma ReleasesFlagged(h: ObjectId, o: Object)
      ensures forall c :: c in Releases(h, o) ==> c.Del? && c.persistent == Persistent(c.slot)
    {
    }

    /** The `*_free` function of the object's class: its releases, one by one. */
    method Free(server: Server, h: ObjectId)
      requires Valid(server) && h in tables.objects && Unreferenced(tables, h)
      modifies this
      ensures Valid(server) && CountsExact(heap, tables.fields)
      ensures h !in tables.objects && forall n :: Field(h, n) !in tables.fields
      ensures OnlyFieldsOf(h, old(tables).fields, tables.fields)
      ensures tables == Sessions.Free(old(tables), h)
    {
      FreeInv(server, tables, h);
      FreeFields(server, tables, h);
      ReleasesFlagged(h, tables.objects[h]);
      var o := tables.objects[h];
      ReleaseFields(Releases(h, o));
      if o.FutureRows? { tables := FreeFuture(tables, o.request); }
      tables := tables.(objects := tables.objects - {h});
      Exact();
    }

    /** Deleting a list entry runs `php_driver_session_dtor` on it: the entry is gone, the counter goes
        down with it, the entries of other keys stay. */
    method Evict(server: Server, key: PoolKey)
      requires Valid(server)
      modifies this
      ensures Valid(server) && CountsExact(heap, tables.fields)
      ensures key !in tables.list.pool && PoolEntry(key) !in tables.fields
      ensures tables.list.sessionCount == old(tables).list.sessionCount - (if key in old(tables).list.pool then 1 else 0)
      ensures forall other :: other != key ==> SameEntry(old(tables), tables, other)
      ensures tables == Pool.Evict(old(tables), key)
    {
      EvictInv(server, tables, key);
      EvictEffect(server, tables, key);
      if key in tables.list.pool { DestroyEntry(key); }
      Exact();
    }

    /** `php_driver_session_dtor`. */
    method DestroyEntry(key: PoolKey)
      requires Counted() && key in tables.list.pool
      modifies this
      ensures Counted() && tables == Pool.Evict(old(tables), key)
    {
      Call(Del(PoolEntry(key), true));
      tables := tables.(list := PersistentList(tables.list.pool - {key}, tables.list.sessionCount - 1));
    }

    /** A new object and its session: the listed one of this key, or a new one, which is then listed. */
    method Acquire(server: Server, async: bool, persist: bool, key: PoolKey)
      requires Valid(server)
      modifies this
      ensures Valid(server) && CountsExact(heap, tables.fields)
      ensures Shares(tables, old(tables).nextObject, persist, key)
      ensures IsHandle(tables, old(tables).nextObject, async, persist, key)
      ensures tables.list.sessionCount ==
                old(tables).list.sessionCount + (if persist && key !in old(tables).list.pool then 1 else 0)
      ensures forall other :: other != key || !persist || key in old(tables).list.pool ==>
                SameEntry(old(tables), tables, other)
      ensures tables == Pool.Acquire(old(tables), async, persist, key)
    {
      AcquireShares(server, tables, async, persist, key);
      AcquireInv(server, tables, async, persist, key);
      if persist && key in tables.list.pool {
        ReuseEntry(server, async, key);
      } else {
        OpenAndList(server, async, persist, key);
      }
      Exact();
    }

    /** The branch that finds the key on the list. */
    method ReuseEntry(server: Server, async: bool, key: PoolKey)
      requires Valid(server) && key in tables.list.pool
      modifies this
      ensures Counted() && tables == Pool.Acquire(old(tables), async, true, key)
    {
      FreshOwner(server, tables);
      EntryPooled(server, tables, key);
      var n := tables.nextObject;
      tables := Put(tables, n, Handle(async, true, key, tables.list.pool[key]));
      Call(Copy(PoolEntry(key), Field(n, Session)));
    }

    /** The branch that makes a session. */
    method OpenAndList(server: Server, async: bool, persist: bool, key: PoolKey)
      requires Valid(server) && (persist ==> key !in tables.list.pool)
      modifies this
      ensures Counted() && tables == Pool.Acquire(old(tables), async, persist, key)
    {
      FreshOwner(server, tables);
      var n := tables.nextObject;
      var session, future := NSession(tables.natives.next, persist), tables.natives.next + 1;
      if persist { AbsentEntry(server, key); }
      tables := Put(SkipNatives(tables), n, Handle(async, persist, key, future));
      Call(New(Field(n, Session), session, true));
      if persist {
        Call(Copy(Field(n, Session), PoolEntry(key)));
        tables := tables.(list := PersistentList(tables.list.pool[key := future], tables.list.sessionCount + 1));
      }
    }

    lemma AbsentEntry(server: Server, key: PoolKey)
      requires Valid(server) && key !in tables.list.pool
      ensures PoolEntry(key) !in tables.fields
    {
      assert PoolEntry(key) in tables.fields ==> SlotOk(tables.objects, tables.list.pool, tables.fields, PoolEntry(key));
    }

    /** `DefaultCluster::connect`. A persistent handle shares the session of the list entry; an error
        takes the entry off the list; a timeout leaves it. */
    method Connect(server: Server, persist: bool, key: PoolKey, outcome: Outcome) returns (ret: Ret)
      requires Valid(server)
      modifies this
      ensures Valid(server) && CountsExact(heap, tables.fields)
      ensures ret == if outcome.Ok? then Object(old(tables).nextObject) else Error(outcome)
      ensures !IsError(outcome) || !persist ==>
                Shares(tables, old(tables).nextObject, persist, key) && IsHandle(tables, old(tables).nextObject, false, persist, key)
      ensures IsError(outcome) && persist ==> key !in tables.list.pool
      ensures !IsError(outcome) && key in old(tables).list.pool ==> SameEntry(old(tables), tables, key)
      ensures (tables, ret) == Pool.Connect(old(tables), persist, key, outcome)
    {
      ret := Object(tables.nextObject);
      Acquire(server, false, persist, key);
      if outcome.Timeout? {
        ret := Error(Timeout);
      } else if !outcome.Ok? {
        if persist { Evict(server, key); }
        ret := Error(outcome);
      }
      Exact();
    }

    /** A new object with its own ref to the session another object holds. */
    method AdoptHandle(server: Server, from: ObjectId, o: Object) returns (n: ObjectId)
      requires Valid(server) && Field(from, Session) in tables.fields && tables.fields[Field(from, Session)].NSession?
      requires FreshHandle(o, tables.fields[Field(from, Session)].pooled)
      modifies this
      ensures Valid(server) && n == old(tables).nextObject
      ensures tables == AdoptSession(old(tables), Field(from, Session), o)
    {
      AdoptSessionInv(server, tables, Field(from, Session), o);
      FreshOwner(server, tables);
      n := tables.nextObject;
      tables := Put(tables, n, o);
      Call(Copy(Field(from, Session), Field(n, Session)));
    }

    /** `FutureSession::get`. The first success gives a handle with the session of the future; every
        later call gives the same handle. The first error of a persistent future evicts the entry and is
        raised again ever after. */
    method SessionGet(server: Server, h: ObjectId, outcome: Outcome) returns (ret: Ret)
      requires Valid(server) && h in tables.objects && tables.objects[h].FutureSession?
      modifies this
      ensures Valid(server) && CountsExact(heap, tables.fields)
      ensures old(tables).objects[h].failed ==> ret == Error(Failed) && tables == old(tables)
      ensures var cached := old(tables).objects[h].defaultSession;
              cached.Some? ==> ret == Object(cached.value) && tables == old(tables)
      ensures ret.Object? && old(tables).objects[h].defaultSession.None? ==>
                && Field(h, Session) in old(tables).fields && Field(ret.id, Session) in tables.fields
                && tables.fields[Field(ret.id, Session)] == old(tables).fields[Field(h, Session)]
                && h in tables.objects && tables.objects[h].FutureSession? && tables.objects[h].defaultSession == Some(ret.id)
      ensures var o := old(tables).objects[h];
              !o.failed && o.defaultSession.None? ==>
                && ret == (if outcome.Ok? then Object(old(tables).nextObject) else Error(outcome))
                && h in tables.objects
                && (outcome.Ok? ==> tables.objects[h] == o.(defaultSession := Some(ret.id)) && tables.list == old(tables).list)
                && (outcome.Timeout? || (IsError(outcome) && !o.persist) ==>
                      tables.objects[h] == o && tables.list == old(tables).list)
                && (IsError(outcome) && o.persist ==>
                      o.key !in tables.list.pool && tables.objects[h].FutureSession? && tables.objects[h].failed)
      ensures (tables, ret) == Pool.SessionGet(old(tables), h, outcome)
    {
      SessionGetInv(server, tables, h, outcome);
      if !tables.objects[h].failed && tables.objects[h].defaultSession.None? { FirstGet(tables, h, outcome); }
      assert ObjectOk(server, tables.objects, tables.fields, h);
      var o := tables.objects[h];
      if o.failed { Exact(); return Error(Failed); }
      if o.defaultSession.Some? { Exact(); return Object(o.defaultSession.value); }
      var n := AdoptHandle(server, h, SessionHandle(o.persist));
      if outcome.Ok? {
        tables := Put(tables, h, o.(defaultSession := Some(n)));
        Exact();
        return Object(n);
      }
      if !outcome.Timeout? && o.persist {
        var listed := o.key in tables.list.pool;
        Evict(server, o.key);
        tables := Put(tables, h, o.(failed := true, future := if listed then None else o.future));
      }
      Exact();
      return Error(outcome);
    }

    /** `DefaultSession::execute` on a simple or prepared statement: a page object for the server's
        answer to the query and the starting token, or an exception. */
    method Execute(server: Server, h: ObjectId, query: string, token: Option<string>, outcome: Outcome) returns (ret: Ret)
      requires Valid(server) && h in tables.objects && tables.objects[h].SessionHandle?
      modifies this
      ensures Valid(server) && CountsExact(heap, tables.fields)
      ensures ret == if outcome != Ok then Error(outcome)
                     else if server(query, token).decodable then Object(old(tables).nextObject) else Undecodable
      ensures ret.Object? ==> ret.id in tables.objects
                              && IsPage(tables.objects, Some(ret.id), Origin(query, server(query, token)))
      ensures ret.Object? && server(query, token).hasMore ==>
                && Field(h, Session) in old(tables).fields && Field(ret.id, Session) in tables.fields
                && tables.fields[Field(ret.id, Session)] == old(tables).fields[Field(h, Session)]
      ensures (tables, ret) == Sessions.Execute(server, old(tables), h, query, token, outcome)
    {
      ExecuteInv(server, tables, h, query, token, outcome);
      ExecuteShares(server, tables, h, query, token, outcome);
      assert ObjectOk(server, tables.objects, tables.fields, h);
      FreshOwner(server, tables);
      var stmt := NStatement(tables.natives.next, query);
      var page := Ask(server, query, token);
      if !outcome.Ok? { Exact(); return Error(outcome); }
      if !page.decodable { Exact(); return Undecodable; }
      var n := tables.nextObject;
      KeepRows(h, stmt, Origin(query, page));
      Exact();
      return Object(n);
    }

    /** Makes the statement, sends it, and frees the native future once it is answered. */
    method Ask(server: Server, query: string, token: Option<string>) returns (page: Page)
      requires Counted()
      modifies this`tables
      ensures Counted() && tables == Answered(old(tables), token) && page == server(query, token)
    {
      var id := tables.natives.next;
      tables := NewStatement(tables, token);
      page := server(query, tables.natives.paging[id]);
      var future := tables.natives.next;
      tables := MakeFuture(tables);
      tables := FreeFuture(tables, future);
    }

    method KeepRows(h: ObjectId, stmt: Native, o: Origin)
      requires Counted() && Field(h, Session) in tables.fields
      requires forall name :: Field(tables.nextObject, name) !in tables.fields
      modifies this
      ensures Counted() && tables == StoreRows(old(tables), h, stmt, o)
    {
      var n := tables.nextObject;
      tables := Put(tables, n, Rows(o, o.page.rows, None, None, NoFetches));
      if o.page.hasMore {
        Call(New(Field(n, Statement), stmt, false));
        Call(New(Field(n, Result), NResult(o.page), false));
        Call(Copy(Field(h, Session), Field(n, Session)));
      }
    }

    /** `DefaultSession::executeAsync` on a simple or prepared statement: a future for the server's
        answer, with its own refs to the statement and to the session of the handle. */
    method ExecuteAsync(server: Server, h: ObjectId, query: string, token: Option<string>) returns (ret: Ret)
      requires Valid(server) && h in tables.objects && tables.objects[h].SessionHandle?
      modifies this
      ensures Valid(server) && CountsExact(heap, tables.fields)
      ensures ret == Object(old(tables).nextObject) && ret.id in tables.objects
      ensures tables.objects[ret.id].FutureRows? && tables.objects[ret.id].origin == Origin(query, server(query, token))
      ensures Field(h, Session) in old(tables).fields && Field(ret.id, Session) in tables.fields
      ensures tables.fields[Field(ret.id, Session)] == old(tables).fields[Field(h, Session)]
      ensures (tables, ret) == Sessions.ExecuteAsync(server, old(tables), h, query, token)
    {
      ExecuteAsyncInv(server, tables, h, query, token);
      assert ObjectOk(server, tables.objects, tables.fields, h);
      FreshOwner(server, tables);
      var f, stmt := tables.nextObject, NStatement(tables.natives.next, query);
      tables := NewStatement(tables, token);
      var page := server(query, tables.natives.paging[stmt.id]);
      var future := tables.natives.next;
      tables := Put(MakeFuture(tables), f, FutureRows(Origin(query, page), None, future));
      Call(New(Field(f, Statement), stmt, false));
      Call(Copy(Field(h, Session), Field(f, Session)));
      Exact();
      return Object(f);
    }

    /** `DefaultSession::close`: a persistent handle closes nothing, another one its own session, and
        none a session that is on the list. */
    method Close(server: Server, h: ObjectId)
      requires Valid(server) && h in tables.objects && tables.objects[h].SessionHandle?
      modifies this`tables
      ensures Valid(server) && CountsExact(heap, tables.fields)
      ensures old(tables).objects[h].persist ==> tables == old(tables)
      ensures Field(h, Session) in old(tables).fields
      ensures !old(tables).objects[h].persist ==> old(tables).fields[Field(h, Session)] in tables.natives.closed
      ensures forall k :: k in tables.list.pool ==>
                PoolEntry(k) in tables.fields && tables.fields[PoolEntry(k)] !in tables.natives.closed
      ensures tables == Pool.Close(old(tables), h)
    {
      CloseInv(server, tables, h);
      CloseEffect(server, tables, h);
      Exact();
      if tables.objects[h].persist { return; }
      var session := Read(Field(h, Session));
      tables := tables.(natives := tables.natives.(closed := tables.natives.closed + {session}));
    }
  }
}
