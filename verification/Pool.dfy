/**
 The persistent session list (ext/src/DefaultCluster.c, ext/src/FutureSession.c,
 ext/php_driver.c, and `close` in ext/src/DefaultSession.c).
 */
module Pool {
  import opened Options
  import opened Refs
  import opened Driver
  import opened Paging
  import opened Sessions

  // ---- micro-steps -----------------------------------------------------------------------

  /** A list entry with its own ref to the session; the session counter goes up. */
  function InsertEntry(s: State, key: PoolKey, from: Slot, future: nat): State {
    CopyField(s, from, PoolEntry(key)).(list := PersistentList(s.list.pool[key := future], s.list.sessionCount + 1))
  }

  /** Removing a list entry runs `php_driver_session_dtor`; a missing entry is left alone. */
  function Evict(s: State, key: PoolKey): State {
    if key in s.list.pool then
      ClearField(s, PoolEntry(key), true).(list := PersistentList(s.list.pool - {key}, s.list.sessionCount - 1))
    else s
  }

  /** Object fields are untouched by changes to the list. */
  lemma PoolOnly(server: Server, s: State, s': State)
    requires Inv(server, s) && s'.objects == s.objects
    requires forall h, n :: (Field(h, n) in s.fields <==> Field(h, n) in s'.fields)
                            && (Field(h, n) in s.fields ==> s'.fields[Field(h, n)] == s.fields[Field(h, n)])
    ensures ObjectsOk(server, s')
  {
    forall h | h in s'.objects ensures ObjectOk(server, s'.objects, s'.fields, h) {
      assert ObjectOk(server, s.objects, s.fields, h);
      Frame(server, s.objects, s.fields, s'.objects, s'.fields, h);
    }
  }

  lemma InsertCount(pool: map<PoolKey, nat>, key: PoolKey, future: nat)
    requires key !in pool
    ensures |pool[key := future]| == |pool| + 1
  {
    assert pool[key := future].Keys == pool.Keys + {key};
  }

  lemma EvictCount(pool: map<PoolKey, nat>, key: PoolKey)
    requires key in pool
    ensures |pool - {key}| == |pool| - 1
  {
    assert (pool - {key}).Keys == pool.Keys - {key};
  }

  lemma InsertOwners(s: State, key: PoolKey, from: Slot, future: nat)
    requires OwnersLive(s) && from in s.fields && s.fields[from].NSession? && s.fields[from].pooled
    ensures OwnersLive(InsertEntry(s, key, from, future))
  {
    var s' := InsertEntry(s, key, from, future);
    forall x | x in s'.fields ensures SlotOk(s'.objects, s'.list.pool, s'.fields, x) {
      if x != PoolEntry(key) { assert SlotOk(s.objects, s.list.pool, s.fields, x); }
    }
  }

  lemma EvictOwners(s: State, key: PoolKey)
    requires OwnersLive(s)
    ensures OwnersLive(Evict(s, key))
  {
    var s' := Evict(s, key);
    forall x | x in s'.fields ensures SlotOk(s'.objects, s'.list.pool, s'.fields, x) {
      assert SlotOk(s.objects, s.list.pool, s.fields, x);
    }
  }

  lemma InsertEntryInv(server: Server, s: State, key: PoolKey, from: Slot, future: nat)
    requires Inv(server, s) && key !in s.list.pool && from in s.fields && Persistent(from)
    requires s.fields[from].NSession? && s.fields[from].pooled
    ensures Inv(server, InsertEntry(s, key, from, future))
  {
    var s' := InsertEntry(s, key, from, future);
    assert PoolEntry(key) in s.fields ==> SlotOk(s.objects, s.list.pool, s.fields, PoolEntry(key));
    IssueOk(s, Copy(from, PoolEntry(key)));
    PoolOnly(server, s, s');
    InsertOwners(s, key, from, future);
    InsertCount(s.list.pool, key, future);
  }

  lemma EvictInv(server: Server, s: State, key: PoolKey)
    requires Inv(server, s)
    ensures Inv(server, Evict(s, key))
  {
    var s' := Evict(s, key);
    if key in s.list.pool {
      IssueOk(s, Del(PoolEntry(key), true));
      PoolOnly(server, s, s');
      EvictOwners(s, key);
      EvictCount(s.list.pool, key);
    }
  }

  /** A new object that copies the session ref in `from`, or owns a session made for it. */
  function AdoptSession(s: State, from: Slot, o: Object): State {
    CopyField(Put(s, s.nextObject, o), from, Field(s.nextObject, Session))
  }

  function OwnSession(s: State, session: Native, o: Object): State {
    NewField(Put(s, s.nextObject, o), Field(s.nextObject, Session), session, true)
  }

  predicate FreshHandle(o: Object, pooled: bool) {
    && (o.SessionHandle? || (o.FutureSession? && o.future.Some? && o.defaultSession.None? && !o.failed))
    && o.persist == pooled
  }

  lemma AdoptSessionInv(server: Server, s: State, from: Slot, o: Object)
    requires Inv(server, s) && from in s.fields && Persistent(from) && s.fields[from].NSession?
    requires FreshHandle(o, s.fields[from].pooled)
    ensures Inv(server, AdoptSession(s, from, o))
  {
    FreshOwner(server, s);
    var n := s.nextObject;
    var s' := AdoptSession(s, from, o);
    IssueOk(Put(s, n, o), Copy(from, Field(n, Session)));
    assert ObjectOk(server, s'.objects, s'.fields, n);
    AddOne(server, s, s', o);
  }

  lemma OwnSessionInv(server: Server, s: State, session: Native, o: Object)
    requires Inv(server, s) && session.NSession? && FreshHandle(o, session.pooled)
    ensures Inv(server, OwnSession(s, session, o))
  {
    FreshOwner(server, s);
    var n := s.nextObject;
    var s' := OwnSession(s, session, o);
    IssueOk(Put(s, n, o), New(Field(n, Session), session, true));
    assert ObjectOk(server, s'.objects, s'.fields, n);
    AddOne(server, s, s', o);
  }

  // ---- operations ------------------------------------------------------------------------

  /** The object `connect` returns, or the one `connectAsync` returns. */
  function Handle(async: bool, persist: bool, key: PoolKey, future: nat): Object {
    if async then FutureSession(persist, key, Some(future), None, false) else SessionHandle(persist)
  }

  function SkipNatives(s: State): State {
    s.(natives := s.natives.(next := s.natives.next + 2))
  }

  /** A new session with its new object, before it is listed. */
  function OpenSession(s: State, async: bool, persist: bool, key: PoolKey): State {
    OwnSession(SkipNatives(s), NSession(s.natives.next, persist), Handle(async, persist, key, s.natives.next + 1))
  }

  /** The shared part of `connect` and `connectAsync`: reuse the list entry of this key, or make a
      session and, for a persistent cluster, list it. */
  function Acquire(s: State, async: bool, persist: bool, key: PoolKey): (s': State) {
    if persist && key in s.list.pool then
      AdoptSession(s, PoolEntry(key), Handle(async, persist, key, s.list.pool[key]))
    else if persist then
      InsertEntry(OpenSession(s, async, persist, key), key, Field(s.nextObject, Session), s.natives.next + 1)
    else OpenSession(s, async, persist, key)
  }

  lemma EntryPooled(server: Server, s: State, key: PoolKey)
    requires Inv(server, s) && key in s.list.pool
    ensures PoolEntry(key) in s.fields && s.fields[PoolEntry(key)].NSession? && s.fields[PoolEntry(key)].pooled
  {
    assert SlotOk(s.objects, s.list.pool, s.fields, PoolEntry(key));
  }

  lemma OpenSessionInv(server: Server, s: State, async: bool, persist: bool, key: PoolKey)
    requires Inv(server, s)
    ensures Inv(server, OpenSession(s, async, persist, key))
  {
    NativeOnly(server, s, SkipNatives(s));
    OwnSessionInv(server, SkipNatives(s), NSession(s.natives.next, persist),
                  Handle(async, persist, key, s.natives.next + 1));
  }

  lemma AcquireInv(server: Server, s: State, async: bool, persist: bool, key: PoolKey)
    requires Inv(server, s)
    ensures Inv(server, Acquire(s, async, persist, key))
  {
    if persist && key in s.list.pool {
      EntryPooled(server, s, key);
      AdoptSessionInv(server, s, PoolEntry(key), Handle(async, persist, key, s.list.pool[key]));
    } else {
      OpenSessionInv(server, s, async, persist, key);
      if persist {
        InsertEntryInv(server, OpenSession(s, async, persist, key), key, Field(s.nextObject, Session), s.natives.next + 1);
      }
    }
  }

  /** `DefaultCluster::connect`. On a failure the object being built stays in the store until the
      engine frees it. */
  function Connect(s: State, persist: bool, key: PoolKey, outcome: Outcome): (r: (State, Ret)) {
    var s1 := Acquire(s, false, persist, key);
    match outcome
    case Ok => (s1, Object(s.nextObject))
    case Timeout => (s1, Error(Timeout))
    case _ => (if persist then Evict(s1, key) else s1, Error(outcome))
  }

  lemma ConnectInv(server: Server, s: State, persist: bool, key: PoolKey, outcome: Outcome)
    requires Inv(server, s)
    ensures Inv(server, Connect(s, persist, key, outcome).0)
  {
    AcquireInv(server, s, false, persist, key);
    EvictInv(server, Acquire(s, false, persist, key), key);
  }

  /** `FutureSession::get`. */
  function SessionGet(s: State, h: ObjectId, outcome: Outcome): (r: (State, Ret))
    requires h in s.objects && s.objects[h].FutureSession?
  {
    var o := s.objects[h];
    if o.failed then (s, Error(Failed))
    else if o.defaultSession.Some? then (s, Object(o.defaultSession.value))
    else
      var n := s.nextObject;
      var s1 := AdoptSession(s, Field(h, Session), SessionHandle(o.persist));
      match outcome
      case Ok => (Put(s1, h, o.(defaultSession := Some(n))), Object(n))
      case Timeout => (s1, Error(Timeout))
      case _ =>
        if o.persist then
          (Put(Evict(s1, o.key), h, o.(failed := true, future := if o.key in s1.list.pool then None else o.future)),
           Error(outcome))
        else (s1, Error(outcome))
  }

  /** What the first `get` does: success caches and returns a new handle and leaves the list alone; a
      timeout changes nothing but may be tried again; an error does the same for an ordinary future, and
      for a persistent one is remembered and evicts the entry. */
  lemma FirstGet(s: State, h: ObjectId, outcome: Outcome)
    requires h in s.objects && h < s.nextObject && s.objects[h].FutureSession?
    requires !s.objects[h].failed && s.objects[h].defaultSession.None?
    ensures var (s', ret) := SessionGet(s, h, outcome);
            var o := s.objects[h];
            && ret == (if outcome.Ok? then Object(s.nextObject) else Error(outcome))
            && h in s'.objects
            && (outcome.Ok? ==>
                  && s'.objects[h] == o.(defaultSession := Some(s.nextObject)) && s'.list == s.list
                  && s.nextObject in s'.objects && s'.objects[s.nextObject] == SessionHandle(o.persist))
            && (outcome.Timeout? || (!outcome.Ok? && !o.persist) ==> s'.objects[h] == o && s'.list == s.list)
            && (!outcome.Ok? && !outcome.Timeout? && o.persist ==>
                  && s'.objects[h].FutureSession? && s'.objects[h].failed && s'.objects[h].defaultSession.None?
                  && o.key !in s'.list.pool
                  && forall k :: k != o.key ==> (k in s'.list.pool <==> k in s.list.pool))
  {
  }

  lemma SessionGetInv(server: Server, s: State, h: ObjectId, outcome: Outcome)
    requires Inv(server, s) && h in s.objects && s.objects[h].FutureSession?
    ensures Inv(server, SessionGet(s, h, outcome).0)
  {
    assert ObjectOk(server, s.objects, s.fields, h);
    var o := s.objects[h];
    if !o.failed && o.defaultSession.None? {
      var n := s.nextObject;
      AdoptSessionInv(server, s, Field(h, Session), SessionHandle(o.persist));
      SessionGetTail(server, AdoptSession(s, Field(h, Session), SessionHandle(o.persist)), h, n, outcome);
    }
  }

  lemma SessionGetTail(server: Server, s: State, h: ObjectId, n: ObjectId, outcome: Outcome)
    requires Inv(server, s) && h in s.objects && s.objects[h].FutureSession?
    requires s.objects[h].defaultSession.None? && !s.objects[h].failed
    requires n in s.objects && s.objects[n] == SessionHandle(s.objects[h].persist)
    ensures Inv(server, Put(s, h, s.objects[h].(defaultSession := Some(n))))
    ensures Inv(server, Put(Evict(s, s.objects[h].key), h,
              s.objects[h].(failed := true, future := if s.objects[h].key in s.list.pool then None else s.objects[h].future)))
  {
    var o := s.objects[h];
    assert ObjectOk(server, s.objects, s.fields, h);
    var s1 := Put(s, h, o.(defaultSession := Some(n)));
    assert ObjectOk(server, s1.objects, s1.fields, h);
    TouchOne(server, s, s1, h, o.(defaultSession := Some(n)));
    var e := Evict(s, o.key);
    EvictInv(server, s, o.key);
    assert ObjectOk(server, e.objects, e.fields, h);
    var o2 := o.(failed := true, future := if o.key in s.list.pool then None else o.future);
    var s2 := Put(e, h, o2);
    assert ObjectOk(server, s2.objects, s2.fields, h);
    TouchOne(server, e, s2, h, o2);
  }

  /** `DefaultSession::close` and `closeAsync`: a persistent handle closes nothing. */
  function Close(s: State, h: ObjectId): (s': State)
    requires h in s.objects && s.objects[h].SessionHandle?
    requires Field(h, Session) in s.fields
  {
    if s.objects[h].persist then s else s.(natives := s.natives.(closed := s.natives.closed + {s.fields[Field(h, Session)]}))
  }

  lemma CloseInv(server: Server, s: State, h: ObjectId)
    requires IsSession(server, s, h)
    ensures Field(h, Session) in s.fields && Inv(server, Close(s, h))
  {
    assert ObjectOk(server, s.objects, s.fields, h);
    var s' := Close(s, h);
    PoolOnly(server, s, s');
    assert forall x :: x in s'.fields ==>
      SlotOk(s'.objects, s'.list.pool, s'.fields, x) == SlotOk(s.objects, s.list.pool, s.fields, x);
  }
}
