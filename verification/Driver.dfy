/**
 The driver's live objects as one state machine: result pages (`Rows`, `FutureRows`,
 `FutureValue`), sessions (`DefaultSession`, `FutureSession`) and the persistent session
 list, all holding counted refs to native statements, results and sessions.

 Pointer fields that hold counted refs are slots of `Refs.RefHeap`; the remaining fields of
 each object are the fields of its `Object` constructor.
 */
module Driver {
  import opened Options
  import opened Refs

  /** One page as the server returns it. `token` is the paging state that leads to the next page.
      Whether its rows can be decoded is a property of the result: decoding it again gives the same. */
  datatype Page = Page(rows: seq<string>, hasMore: bool, token: string, decodable: bool)

  /** The server answers a query and a paging state with a page, always the same one. */
  type Server = (string, Option<string>) -> Page

  datatype Native =
    | NStatement(id: nat, query: string)
    | NResult(page: Page)
    | NSession(id: nat, pooled: bool)

  /** The query and page an object was made from. In a page object it is a history variable, which no
      operation reads; in a future object it is the result that its native future holds. */
  datatype Origin = Origin(query: string, page: Page)

  /** History variable: the fetches a page object issued, and how many of them failed. */
  datatype Fetches = Fetches(issued: nat, failed: nat)

  const NoFetches := Fetches(0, 0)

  datatype Object =
    | Rows(origin: Origin, rows: seq<string>, nextRows: Option<seq<string>>,
           futureNextPage: Option<ObjectId>, history: Fetches)
    | FutureRows(origin: Origin, cachedRows: Option<seq<string>>, request: nat)
    | FutureValue(value: Option<ObjectId>)
    | SessionHandle(persist: bool)
    | FutureSession(persist: bool, key: PoolKey, future: Option<nat>,
                    defaultSession: Option<ObjectId>, failed: bool)

  /** The native futures of requests: those that are not freed, the log of frees, and, as a history
      variable, those that the code let go without freeing them. */
  datatype RequestFutures = RequestFutures(live: set<nat>, freed: seq<nat>, lost: set<nat>)

  /** What the native driver keeps: the paging state stored in each statement, fresh ids for
      statements, sessions and futures, the sessions that were asked to close, and request futures. */
  datatype Natives = Natives(paging: map<nat, Option<string>>, next: nat, closed: set<Native>, futures: RequestFutures)

  /** The persistent list, key to connect future, and PHP_DRIVER_G(persistent_sessions). */
  datatype PersistentList = PersistentList(pool: map<PoolKey, nat>, sessionCount: int)

  /** `fields` holds what every counted-ref field sees; `log` is the sequence of ref calls made
      so far, from which `Refs.HeapOf` rebuilds the counted heap itself. */
  datatype State = State(
    fields: map<Slot, Native>,
    log: History<Native>,
    objects: map<ObjectId, Object>,
    nextObject: ObjectId,
    natives: Natives,
    list: PersistentList)

  const Initial := State(map[], Start, map[], 0, Natives(map[], 0, {}, RequestFutures({}, [], {})), PersistentList(map[], 0))

  function Issue(s: State, c: Command<Native>): State {
    s.(fields := FieldsAfter(s.fields, c), log := Then(s.log, c))
  }

  function NewField(s: State, slot: Slot, data: Native, persistent: bool): State {
    Issue(s, New(slot, data, persistent))
  }

  function CopyField(s: State, from: Slot, to: Slot): State {
    Issue(s, Copy(from, to))
  }

  function ClearField(s: State, slot: Slot, persistent: bool): State {
    Issue(s, Del(slot, persistent))
  }

  /** Every ref call so far was guarded and the fields are what those calls produce. */
  ghost predicate LogOk(fields: map<Slot, Native>, log: History<Native>) {
    Guarded(log) && fields == FieldsOf(log)
  }

  lemma IssueOk(s: State, c: Command<Native>)
    requires LogOk(s.fields, s.log) && Guard(s.fields, c)
    ensures LogOk(Issue(s, c).fields, Issue(s, c).log)
  {
  }

  // ---- the invariant of every reachable state -------------------------------------------

  /** The page the server gives after the page in `o`. */
  function Successor(server: Server, o: Origin): Origin {
    Origin(o.query, server(o.query, Some(o.page.token)))
  }

  /** `x`, when present, is a live page object made from `expected`. */
  ghost predicate IsPage(objs: map<ObjectId, Object>, x: Option<ObjectId>, expected: Origin) {
    x.Some? ==> x.value in objs && objs[x.value].Rows? && objs[x.value].origin == expected
  }

  ghost predicate RowsOk(server: Server, objs: map<ObjectId, Object>, v: map<Slot, Native>, h: ObjectId)
    requires h in objs && objs[h].Rows?
  {
    var o := objs[h];
    var more := o.origin.page.hasMore;
    var next := Successor(server, o.origin);
    && o.rows == o.origin.page.rows && o.origin.page.decodable
    && (Field(h, Result) in v <==> more)
    && (Field(h, Statement) in v <==> more)
    && (Field(h, Session) in v <==> more)
    && (more ==> v[Field(h, Result)] == NResult(o.origin.page))
    && (more ==> v[Field(h, Statement)].NStatement? && v[Field(h, Statement)].query == o.origin.query)
    && (Field(h, NextResult) in v ==> more && v[Field(h, NextResult)] == NResult(next.page))
    && (o.nextRows.Some? ==> Field(h, NextResult) in v && next.page.decodable && o.nextRows.value == next.page.rows)
    && (o.futureNextPage.Some? ==> more && o.futureNextPage.value in objs)
    && (o.futureNextPage.Some? ==>
          match objs[o.futureNextPage.value]
          case FutureRows(promised, _, _) => promised == next
          case FutureValue(x) =>
            && Field(h, NextResult) in v && IsPage(objs, x, next)
            && (x.Some? <==> next.page.decodable) && (x.Some? ==> h < x.value)
          case _ => false)
    && o.history.issued ==
       o.history.failed + (if Field(h, NextResult) in v || o.futureNextPage.Some? then 1 else 0)
  }

  ghost predicate FutureRowsOk(v: map<Slot, Native>, h: ObjectId, o: Object)
    requires o.FutureRows?
  {
    && (Field(h, Result) in v ==> v[Field(h, Result)] == NResult(o.origin.page))
    && (o.origin.page.hasMore ==> Field(h, Statement) in v && Field(h, Session) in v)
    && (Field(h, Statement) in v ==>
          v[Field(h, Statement)].NStatement? && v[Field(h, Statement)].query == o.origin.query)
    && (o.cachedRows.Some? ==> Field(h, Result) in v && o.origin.page.decodable && o.cachedRows.value == o.origin.page.rows)
    && Field(h, NextResult) !in v
  }

  /** The object holds a session ref and no other; the session is pooled iff the object says so. */
  ghost predicate OnlySession(v: map<Slot, Native>, h: ObjectId, persist: bool) {
    && Field(h, Session) in v && v[Field(h, Session)].NSession? && v[Field(h, Session)].pooled == persist
    && Field(h, Statement) !in v && Field(h, Result) !in v && Field(h, NextResult) !in v
  }

  ghost predicate ObjectOk(server: Server, objs: map<ObjectId, Object>, v: map<Slot, Native>, h: ObjectId)
    requires h in objs
  {
    match objs[h]
    case Rows(_, _, _, _, _) => RowsOk(server, objs, v, h)
    case FutureRows(_, _, _) => FutureRowsOk(v, h, objs[h])
    case FutureValue(x) =>
      && (x.Some? ==> x.value in objs && objs[x.value].Rows?)
      && (forall n :: Field(h, n) !in v)
    case SessionHandle(persist) => OnlySession(v, h, persist)
    case FutureSession(persist, _, future, cached, failed) =>
      && OnlySession(v, h, persist)
      && (!failed ==> future.Some?)
      && (cached.Some? ==> cached.value in objs && objs[cached.value].SessionHandle?
                           && objs[cached.value].persist == persist && !failed)
  }

  /** A field belongs to a live object, or to a present pool entry and then holds a pooled session. */
  predicate SlotOk(objs: map<ObjectId, Object>, pool: map<PoolKey, nat>, v: map<Slot, Native>, x: Slot)
    requires x in v
  {
    match x
    case Field(h, _) => h in objs
    case PoolEntry(k) => k in pool && v[x].NSession? && v[x].pooled
  }

  /** Only live objects and present pool entries have pointer fields. */
  ghost predicate OwnersLive(s: State) {
    && (forall h :: h in s.objects ==> h < s.nextObject)
    && (forall x {:trigger SlotOk(s.objects, s.list.pool, s.fields, x)} :: x in s.fields ==>
          SlotOk(s.objects, s.list.pool, s.fields, x))
  }

  ghost predicate PoolOk(s: State) {
    && s.list.sessionCount == |s.list.pool|
    && (forall k :: k in s.list.pool ==> PoolEntry(k) in s.fields)
    && (forall c :: c in s.natives.closed ==> c.NSession? && !c.pooled)
  }

  ghost predicate ObjectsOk(server: Server, s: State) {
    forall h {:trigger ObjectOk(server, s.objects, s.fields, h)} ::
      h in s.objects ==> ObjectOk(server, s.objects, s.fields, h)
  }

  ghost predicate Inv(server: Server, s: State) {
    LogOk(s.fields, s.log) && OwnersLive(s) && PoolOk(s) && ObjectsOk(server, s)
  }

  lemma InitialInv(server: Server)
    ensures Inv(server, Initial)
  {
  }

  // ---- framing ------------------------------------------------------------------------

  /** What other objects may rely on: the constructor, the page behind it, what a future holds. What
      is cached in an object once stays. */
  ghost predicate SameCore(a: Object, b: Object) {
    match (a, b)
    case (Rows(o, rows, _, f, _), Rows(o', rows', _, f', _)) => o == o' && rows == rows' && (f.Some? ==> f' == f)
    case (FutureRows(o, _, f), FutureRows(o', _, f')) => o == o' && f == f'
    case (FutureValue(x), FutureValue(x')) => x == x'
    case (SessionHandle(p), SessionHandle(p')) => p == p'
    case (FutureSession(p, k, _, d, e), FutureSession(p', k', _, d', e')) =>
      p == p' && k == k' && (d.Some? ==> d' == d) && (e ==> e')
    case _ => false
  }

  ghost predicate CoresKept(objs: map<ObjectId, Object>, objs': map<ObjectId, Object>) {
    forall k :: k in objs ==> k in objs' && SameCore(objs[k], objs'[k])
  }

  ghost predicate SameFields(v: map<Slot, Native>, v': map<Slot, Native>, h: ObjectId) {
    forall n :: (Field(h, n) in v <==> Field(h, n) in v')
                && (Field(h, n) in v ==> v[Field(h, n)] == v'[Field(h, n)])
  }

  /** An object whose own fields did not change stays well-formed while cores are kept. */
  lemma Frame(server: Server, objs: map<ObjectId, Object>, v: map<Slot, Native>,
              objs': map<ObjectId, Object>, v': map<Slot, Native>, h: ObjectId)
    requires h in objs && ObjectOk(server, objs, v, h)
    requires CoresKept(objs, objs') && SameFields(v, v', h) && h in objs' && objs'[h] == objs[h]
    ensures ObjectOk(server, objs', v', h)
  {
    match objs[h]
    case Rows(_, _, _, f, _) =>
      if f.Some? {
        assert SameCore(objs[f.value], objs'[f.value]);
      }
    case _ =>
  }
}
