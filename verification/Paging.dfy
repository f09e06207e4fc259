/**
 Result paging (ext/src/Rows.c, ext/src/FutureRows.c, ext/src/DefaultSession.c).

 Every page object of one query shares one native statement whose paging state is
 overwritten before each fetch. Each operation below is written in the micro-steps of the
 C code; every micro-step is proved to keep the invariant of `Driver`.
 */
module Paging {
  import opened Options
  import opened Refs
  import opened Driver

  /** How a native future answers a wait: resolved, timed out, resolved with an error, or resolved
      without a result. */
  datatype Outcome = Ok | Timeout | Failed | NoResult

  datatype Ret =
    | Null
    | Object(id: ObjectId)
    | Error(outcome: Outcome)
    | Undecodable           // an exception raised while decoding the rows of a result
    | UnexpectedFuture
    | Invalid               // the operation does not apply to this object

  // ---- micro-steps --------------------------------------------------------------------

  /** Replaces the fields of one object, or adds an object. */
  function Put(s: State, h: ObjectId, o: Object): State {
    s.(objects := s.objects[h := o],
       nextObject := if h < s.nextObject then s.nextObject else h + 1)
  }

  /** The two states agree on every counted-ref field that does not belong to `t`. */
  ghost predicate OnlyFieldsOf(t: ObjectId, f: map<Slot, Native>, f': map<Slot, Native>) {
    forall x: Slot :: !(x.Field? && x.owner == t) ==>
      (x in f <==> x in f') && (x in f ==> f'[x] == f[x])
  }

  ghost predicate SameWorld(s: State, s': State) {
    s'.list == s.list && s'.natives.closed == s.natives.closed
  }

  lemma UpdatedObjects(objs: map<ObjectId, Object>, objs': map<ObjectId, Object>, t: ObjectId, o: Object)
    requires objs' == objs[t := o]
    ensures objs'.Keys == objs.Keys + {t} && objs'[t] == o
    ensures forall h :: h in objs && h != t ==> objs'[h] == objs[h]
  {
  }

  lemma OwnersAfter(s: State, s': State, t: ObjectId)
    requires OwnersLive(s) && s'.list.pool == s.list.pool && OnlyFieldsOf(t, s.fields, s'.fields)
    requires s'.objects.Keys == s.objects.Keys + {t} && t < s'.nextObject && s.nextObject <= s'.nextObject
    ensures OwnersLive(s')
  {
    forall x | x in s'.fields ensures SlotOk(s'.objects, s'.list.pool, s'.fields, x) {
      if !(x.Field? && x.owner == t) { assert SlotOk(s.objects, s.list.pool, s.fields, x); }
    }
  }

  lemma ObjectsAfter(server: Server, s: State, s': State, t: ObjectId)
    requires ObjectsOk(server, s) && OnlyFieldsOf(t, s.fields, s'.fields)
    requires s'.objects.Keys == s.objects.Keys + {t}
    requires forall h :: h in s.objects && h != t ==> s'.objects[h] == s.objects[h]
    requires t in s.objects ==> SameCore(s.objects[t], s'.objects[t])
    ensures forall h {:trigger ObjectOk(server, s'.objects, s'.fields, h)} ::
              h in s'.objects && h != t ==> ObjectOk(server, s'.objects, s'.fields, h)
  {
    assert CoresKept(s.objects, s'.objects);
    forall h | h in s'.objects && h != t ensures ObjectOk(server, s'.objects, s'.fields, h) {
      assert ObjectOk(server, s.objects, s.fields, h);
      Frame(server, s.objects, s.fields, s'.objects, s'.fields, h);
    }
  }

  /** A step that writes one live object, keeps its core and leaves it well-formed, keeps `Inv`. */
  lemma TouchOne(server: Server, s: State, s': State, t: ObjectId, o: Object)
    requires Inv(server, s) && LogOk(s'.fields, s'.log) && SameWorld(s, s')
    requires t in s.objects && SameCore(s.objects[t], o)
    requires s'.objects == s.objects[t := o] && s'.nextObject == s.nextObject
    requires OnlyFieldsOf(t, s.fields, s'.fields)
    requires ObjectOk(server, s'.objects, s'.fields, t)
    ensures Inv(server, s')
  {
    UpdatedObjects(s.objects, s'.objects, t, o);
    ObjectsAfter(server, s, s', t);
    OwnersAfter(s, s', t);
  }

  /** A step that adds one well-formed object keeps `Inv`. */
  lemma AddOne(server: Server, s: State, s': State, o: Object)
    requires Inv(server, s) && LogOk(s'.fields, s'.log) && SameWorld(s, s')
    requires s'.objects == s.objects[s.nextObject := o] && s'.nextObject == s.nextObject + 1
    requires OnlyFieldsOf(s.nextObject, s.fields, s'.fields)
    requires ObjectOk(server, s'.objects, s'.fields, s.nextObject)
    ensures Inv(server, s')
  {
    UpdatedObjects(s.objects, s'.objects, s.nextObject, o);
    ObjectsAfter(server, s, s', s.nextObject);
    OwnersAfter(s, s', s.nextObject);
  }

  /** The id of the next object has no fields yet. */
  lemma FreshOwner(server: Server, s: State)
    requires Inv(server, s)
    ensures s.nextObject !in s.objects && forall n :: Field(s.nextObject, n) !in s.fields
  {
    assert forall n :: Field(s.nextObject, n) in s.fields ==>
      SlotOk(s.objects, s.list.pool, s.fields, Field(s.nextObject, n));
  }

  ghost predicate IsRows(server: Server, s: State, h: ObjectId) {
    Inv(server, s) && h in s.objects && s.objects[h].Rows?
  }

  ghost predicate IsFutureRows(server: Server, s: State, f: ObjectId) {
    Inv(server, s) && f in s.objects && s.objects[f].FutureRows?
  }

  /** `php_driver_future_rows_get_result`, successful branch: the result of the native future
      becomes a counted ref of the future object. */
  function StoreFutureResult(s: State, f: ObjectId): (s': State)
    requires f in s.objects && s.objects[f].FutureRows?
  {
    if Field(f, Result) in s.fields then s
    else NewField(s, Field(f, Result), NResult(s.objects[f].origin.page), false)
  }

  lemma StoreFutureResultInv(server: Server, s: State, f: ObjectId)
    requires IsFutureRows(server, s, f)
    ensures Inv(server, StoreFutureResult(s, f))
    ensures StoreFutureResult(s, f).objects == s.objects
    ensures Field(f, Result) in StoreFutureResult(s, f).fields
  {
    var s' := StoreFutureResult(s, f);
    assert ObjectOk(server, s.objects, s.fields, f);
    if Field(f, Result) !in s.fields {
      IssueOk(s, New(Field(f, Result), NResult(s.objects[f].origin.page), false));
      assert ObjectOk(server, s'.objects, s'.fields, f);
      TouchOne(server, s, s', f, s.objects[f]);
    }
  }

  // ---- fetching the next page synchronously ---------------------------------------------

  predicate CanFetch(s: State, h: ObjectId) {
    && h in s.objects && s.objects[h].Rows?
    && Field(h, Statement) in s.fields && s.fields[Field(h, Statement)].NStatement?
    && Field(h, Result) in s.fields && s.fields[Field(h, Result)].NResult?
  }

  function SetPagingState(s: State, stmt: nat, token: Option<string>): (s': State)
    ensures stmt in s'.natives.paging
  {
    s.(natives := s.natives.(paging := s.natives.paging[stmt := token]))
  }

  /** `cass_statement_set_paging_state` on the shared statement, then `cass_session_execute`,
      which reads the paging state the statement holds at that moment. */
  function Fetch(server: Server, s: State, h: ObjectId): (r: (State, Page))
    requires CanFetch(s, h)
  {
    var stmt := s.fields[Field(h, Statement)];
    var s1 := SetPagingState(s, stmt.id, Some(s.fields[Field(h, Result)].page.token));
    (MakeFuture(s1), server(stmt.query, s1.natives.paging[stmt.id]))
  }

  /** `cass_session_execute`: the native future of a request, under the next free id. */
  function MakeFuture(s: State): State {
    var futures := s.natives.futures;
    s.(natives := s.natives.(next := s.natives.next + 1,
                             futures := futures.(live := futures.live + {s.natives.next})))
  }

  /** `cass_future_free`. */
  function FreeFuture(s: State, id: nat): State {
    var futures := s.natives.futures;
    s.(natives := s.natives.(futures := futures.(live := futures.live - {id}, freed := futures.freed + [id])))
  }

  /** Returning without freeing the future; only the history notices. */
  function LoseFuture(s: State, id: nat): State {
    s.(natives := s.natives.(futures := s.natives.futures.(lost := s.natives.futures.lost + {id})))
  }

  /** The end of the fetch in `nextPage`: the branches of a timeout and of an error return at once, the
      other two free the future. */
  function EndFetch(s: State, id: nat, outcome: Outcome): State {
    if outcome.Timeout? || outcome.Failed? then LoseFuture(s, id) else FreeFuture(s, id)
  }

  lemma FetchInv(server: Server, s: State, h: ObjectId)
    requires IsRows(server, s, h) && Field(h, Result) in s.fields
    ensures CanFetch(s, h)
    ensures IsRows(server, Fetch(server, s, h).0, h)
    ensures Fetch(server, s, h).1 == Successor(server, s.objects[h].origin).page
    ensures Fetch(server, s, h).0 == s.(natives := Fetch(server, s, h).0.natives)
  {
    assert ObjectOk(server, s.objects, s.fields, h);
    NativeOnly(server, s, Fetch(server, s, h).0);
  }

  /** A step inside the native driver that closes no session. */
  lemma NativeOnly(server: Server, s: State, s': State)
    requires Inv(server, s)
    requires s' == s.(natives := s'.natives) && s'.natives.closed == s.natives.closed
    ensures Inv(server, s')
  {
    assert forall h :: ObjectOk.requires(server, s.objects, s.fields, h) ==>
      ObjectOk(server, s'.objects, s'.fields, h) == ObjectOk(server, s.objects, s.fields, h);
    assert forall x :: x in s'.fields ==>
      SlotOk(s'.objects, s'.list.pool, s'.fields, x) == SlotOk(s.objects, s.list.pool, s.fields, x);
  }

  /** The page object records that it issued a fetch, and whether the fetch failed. */
  function CountFetch(o: Object, failed: bool): Object
    requires o.Rows?
  {
    o.(history := o.history.(issued := o.history.issued + 1,
                             failed := o.history.failed + (if failed then 1 else 0)))
  }

  lemma FailedFetchInv(server: Server, s: State, h: ObjectId)
    requires IsRows(server, s, h)
    ensures Inv(server, Put(s, h, CountFetch(s.objects[h], true)))
  {
    var s' := Put(s, h, CountFetch(s.objects[h], true));
    assert ObjectOk(server, s.objects, s.fields, h);
    assert ObjectOk(server, s'.objects, s'.fields, h);
    TouchOne(server, s, s', h, CountFetch(s.objects[h], true));
  }

  /** A live page object is given its successor result, from a fetch or from its future. */
  lemma NextResultInv(server: Server, s: State, s': State, h: ObjectId, o: Object, c: Command<Native>)
    requires IsRows(server, s, h) && Guard(s.fields, c) && Field(h, NextResult) !in s.fields
    requires s.objects[h].origin.page.hasMore
    requires s' == Issue(Put(s, h, o), c)
    requires o == if s.objects[h].futureNextPage.Some? then s.objects[h] else CountFetch(s.objects[h], false)
    requires s'.fields == s.fields[Field(h, NextResult) := NResult(Successor(server, s.objects[h].origin).page)]
    ensures Inv(server, s')
  {
    IssueOk(Put(s, h, o), c);
    assert ObjectOk(server, s.objects, s.fields, h);
    assert ObjectOk(server, s'.objects, s'.fields, h);
    TouchOne(server, s, s', h, o);
  }

  // ---- building page objects ------------------------------------------------------------

  /** The tail of `php_driver_rows_create` and of `FutureRows::get`: a new page object shares
      the statement, the session and its own result only if there are more pages. */
  function MakeRows(s: State, from: ObjectId, result: Slot, query: string, rows: seq<string>): (s': State)
    requires result in s.fields && s.fields[result].NResult?
  {
    var n := s.nextObject;
    var page := s.fields[result].page;
    var s1 := Put(s, n, Rows(Origin(query, page), rows, None, None, NoFetches));
    if page.hasMore then
      CopyField(CopyField(CopyField(s1, Field(from, Statement), Field(n, Statement)),
                          Field(from, Session), Field(n, Session)),
                result, Field(n, Result))
    else s1
  }

  lemma MakeRowsLog(s: State, from: ObjectId, result: Slot, query: string, rows: seq<string>)
    requires LogOk(s.fields, s.log)
    requires result in s.fields && s.fields[result].NResult? && !Persistent(result)
    requires forall n :: Field(s.nextObject, n) !in s.fields
    requires s.fields[result].page.hasMore ==> Field(from, Statement) in s.fields && Field(from, Session) in s.fields
    ensures var s' := MakeRows(s, from, result, query, rows);
            && LogOk(s'.fields, s'.log)
            && s'.fields == (if s.fields[result].page.hasMore then
                 s.fields[Field(s.nextObject, Statement) := s.fields[Field(from, Statement)]]
                         [Field(s.nextObject, Session) := s.fields[Field(from, Session)]]
                         [Field(s.nextObject, Result) := s.fields[result]]
               else s.fields)
  {
    if s.fields[result].page.hasMore {
      var n := s.nextObject;
      var s1 := Put(s, n, Rows(Origin(query, s.fields[result].page), rows, None, None, NoFetches));
      var c1 := Copy(Field(from, Statement), Field(n, Statement));
      var c2 := Copy(Field(from, Session), Field(n, Session));
      var c3 := Copy(result, Field(n, Result));
      IssueOk(s1, c1);
      IssueOk(Issue(s1, c1), c2);
      IssueOk(Issue(Issue(s1, c1), c2), c3);
    }
  }

  /** Adding a page object for `o` that holds the three shared refs exactly when there are more pages. */
  lemma AddRows(server: Server, s: State, s': State, o: Origin)
    requires Inv(server, s) && LogOk(s'.fields, s'.log) && SameWorld(s, s')
    requires s'.objects == s.objects[s.nextObject := Rows(o, o.page.rows, None, None, NoFetches)]
    requires s'.nextObject == s.nextObject + 1 && o.page.decodable
    requires OnlyFieldsOf(s.nextObject, s.fields, s'.fields)
    requires Field(s.nextObject, NextResult) !in s'.fields
    requires forall n :: n != NextResult ==> (Field(s.nextObject, n) in s'.fields <==> o.page.hasMore)
    requires o.page.hasMore ==>
               && s'.fields[Field(s.nextObject, Result)] == NResult(o.page)
               && s'.fields[Field(s.nextObject, Statement)].NStatement?
               && s'.fields[Field(s.nextObject, Statement)].query == o.query
    ensures Inv(server, s')
  {
    assert ObjectOk(server, s'.objects, s'.fields, s.nextObject);
    AddOne(server, s, s', Rows(o, o.page.rows, None, None, NoFetches));
  }

  /** The same, with the three fields spelled out. */
  lemma AddSharedRows(server: Server, s: State, s': State, o: Origin, stmt: Native, session: Native)
    requires Inv(server, s) && LogOk(s'.fields, s'.log) && SameWorld(s, s') && o.page.decodable
    requires s'.objects == s.objects[s.nextObject := Rows(o, o.page.rows, None, None, NoFetches)]
    requires s'.nextObject == s.nextObject + 1 && forall n :: Field(s.nextObject, n) !in s.fields
    requires s'.fields == if o.page.hasMore then
                            s.fields[Field(s.nextObject, Statement) := stmt]
                                    [Field(s.nextObject, Session) := session]
                                    [Field(s.nextObject, Result) := NResult(o.page)]
                          else s.fields
    requires o.page.hasMore ==> stmt.NStatement? && stmt.query == o.query
    ensures Inv(server, s')
  {
    AddRows(server, s, s', o);
  }

  lemma MakeRowsInv(server: Server, s: State, from: ObjectId, result: Slot, query: string)
    requires Inv(server, s) && result in s.fields && s.fields[result].NResult? && !Persistent(result)
    requires s.fields[result].page.decodable
    requires s.fields[result].page.hasMore ==>
               && Field(from, Statement) in s.fields && Field(from, Session) in s.fields
               && s.fields[Field(from, Statement)].NStatement?
               && s.fields[Field(from, Statement)].query == query
    ensures var s' := MakeRows(s, from, result, query, s.fields[result].page.rows);
            && Inv(server, s')
            && s'.nextObject == s.nextObject + 1
            && s'.objects == s.objects[s.nextObject :=
                 Rows(Origin(query, s.fields[result].page), s.fields[result].page.rows, None, None, NoFetches)]
  {
    var rows := s.fields[result].page.rows;
    var s' := MakeRows(s, from, result, query, rows);
    FreshOwner(server, s);
    MakeRowsLog(s, from, result, query, rows);
    var more := s.fields[result].page.hasMore;
    AddSharedRows(server, s, s', Origin(query, s.fields[result].page),
                  if more then s.fields[Field(from, Statement)] else NStatement(0, query),
                  if more then s.fields[Field(from, Session)] else NSession(0, false));
  }

  /** `php_driver_rows_create`: decode the successor once, cache it, and wrap it in a new object. */
  function RowsCreate(s: State, h: ObjectId): (r: (State, Ret))
    requires h in s.objects && s.objects[h].Rows?
    requires Field(h, NextResult) in s.fields && s.fields[Field(h, NextResult)].NResult?
  {
    var o := s.objects[h];
    if o.nextRows.None? && !s.fields[Field(h, NextResult)].page.decodable then (s, Undecodable)
    else
      var rows := if o.nextRows.Some? then o.nextRows.value else s.fields[Field(h, NextResult)].page.rows;
      var s1 := Put(s, h, o.(nextRows := Some(rows)));
      (MakeRows(s1, h, Field(h, NextResult), o.origin.query, rows), Object(s.nextObject))
  }

  lemma RowsCreateInv(server: Server, s: State, h: ObjectId)
    requires IsRows(server, s, h) && Field(h, NextResult) in s.fields
    ensures s.fields[Field(h, NextResult)].NResult?
    ensures var (s', ret) := RowsCreate(s, h);
            && IsRows(server, s', h) && SameCore(s.objects[h], s'.objects[h])
            && s'.objects[h].futureNextPage == s.objects[h].futureNextPage
            && s'.objects[h].history == s.objects[h].history
            && Field(h, NextResult) in s'.fields
            && ret == (if Successor(server, s.objects[h].origin).page.decodable then Object(s.nextObject) else Undecodable)
            && (ret.Undecodable? ==> s' == s)
            && (ret.Object? ==> IsPage(s'.objects, Some(ret.id), Successor(server, s.objects[h].origin))
                                && s'.nextObject == s.nextObject + 1)
  {
    assert ObjectOk(server, s.objects, s.fields, h);
    var o := s.objects[h];
    if s.fields[Field(h, NextResult)].page.decodable {
      var rows := s.fields[Field(h, NextResult)].page.rows;
      var s1 := Put(s, h, o.(nextRows := Some(rows)));
      assert ObjectOk(server, s1.objects, s1.fields, h);
      TouchOne(server, s, s1, h, o.(nextRows := Some(rows)));
      MakeRowsInv(server, s1, h, Field(h, NextResult), o.origin.query);
      MakeRowsKeeps(s1, h, Field(h, NextResult), o.origin.query, rows);
    }
  }

  lemma MakeRowsKeeps(s: State, from: ObjectId, result: Slot, query: string, rows: seq<string>)
    requires result in s.fields && s.fields[result].NResult?
    ensures forall x :: x in s.fields ==> x in MakeRows(s, from, result, query, rows).fields
  {
  }

  // ---- the operations -------------------------------------------------------------------

  /** `php_driver_future_rows_get_result`: the state, and whether a result is now stored. */
  function GetResult(s: State, f: ObjectId, outcome: Outcome): (r: (State, bool))
    requires f in s.objects && s.objects[f].FutureRows?
  {
    if Field(f, Result) in s.fields || outcome.Ok? then (StoreFutureResult(s, f), true)
    else (s, false)
  }

  /** The first half of `Rows::nextPage`: fill `next_result` from the cached future or by a
      fetch. The second component is the early return, if any. */
  ghost function FillNextResult(server: Server, s: State, h: ObjectId, outcome: Outcome): (r: (State, Option<Ret>))
    requires IsRows(server, s, h)
  {
    assert ObjectOk(server, s.objects, s.fields, h);
    var o := s.objects[h];
    if Field(h, NextResult) in s.fields then (s, None)
    else if o.futureNextPage.Some? then
      var f := o.futureNextPage.value;
      if !s.objects[f].FutureRows? then (s, Some(UnexpectedFuture))
      else
        var (s1, ok) := GetResult(s, f, outcome);
        if !ok then (s1, Some(Error(outcome)))
        else (CopyField(s1, Field(f, Result), Field(h, NextResult)), None)
    else if Field(h, Result) !in s.fields then (s, Some(Null))
    else
      FetchInv(server, s, h);
      var (s1, page) := Fetch(server, s, h);
      var s2 := EndFetch(s1, s.natives.next, outcome);
      if !outcome.Ok? then (Put(s2, h, CountFetch(o, true)), Some(Error(outcome)))
      else (NewField(Put(s2, h, CountFetch(o, false)), Field(h, NextResult), NResult(page), false), None)
  }

  /** `nextPage` on this object has to wait for a native future: its own fetch, or the one of the future
      object it keeps, whose result is not there yet. */
  predicate Waits(s: State, h: ObjectId)
    requires h in s.objects && s.objects[h].Rows?
  {
    var f := s.objects[h].futureNextPage;
    && s.objects[h].origin.page.hasMore && Field(h, NextResult) !in s.fields
    && (f.None? || Field(f.value, Result) !in s.fields)
  }

  ghost predicate Filled(server: Server, s: State, h: ObjectId, outcome: Outcome, s': State, early: Option<Ret>)
    requires h in s.objects && s.objects[h].Rows?
  {
    && IsRows(server, s', h) && SameCore(s.objects[h], s'.objects[h])
    && s'.objects[h].futureNextPage == s.objects[h].futureNextPage
    && s'.objects[h].nextRows == s.objects[h].nextRows
    && s'.nextObject == s.nextObject
    && (early.None? ==> Field(h, NextResult) in s'.fields && s.objects[h].origin.page.hasMore)
    && (early.Some? ==> if s.objects[h].origin.page.hasMore then early.value == Error(outcome) else early.value == Null)
    && (early.Some? && s.objects[h].origin.page.hasMore <==> Waits(s, h) && outcome != Ok)
  }

  lemma FillFromFuture(server: Server, s: State, h: ObjectId, outcome: Outcome)
    requires IsRows(server, s, h) && Field(h, NextResult) !in s.fields && s.objects[h].futureNextPage.Some?
    ensures var (s', early) := FillNextResult(server, s, h, outcome);
            Filled(server, s, h, outcome, s', early)
  {
    assert ObjectOk(server, s.objects, s.fields, h);
    var f := s.objects[h].futureNextPage.value;
    assert s.objects[f].FutureRows?;
    var (s1, ok) := GetResult(s, f, outcome);
    if ok {
      StoreFutureResultInv(server, s, f);
      assert ObjectOk(server, s1.objects, s1.fields, f);
      var c := Copy(Field(f, Result), Field(h, NextResult));
      assert Put(s1, h, s.objects[h]) == s1;
      NextResultInv(server, s1, Issue(s1, c), h, s.objects[h], c);
    }
  }

  lemma FillFromFetch(server: Server, s: State, h: ObjectId, outcome: Outcome)
    requires IsRows(server, s, h) && Field(h, NextResult) !in s.fields
    requires s.objects[h].futureNextPage.None? && Field(h, Result) in s.fields
    ensures var (s', early) := FillNextResult(server, s, h, outcome);
            Filled(server, s, h, outcome, s', early)
  {
    assert ObjectOk(server, s.objects, s.fields, h);
    FetchInv(server, s, h);
    var (s1, page) := Fetch(server, s, h);
    var s2 := EndFetch(s1, s.natives.next, outcome);
    NativeOnly(server, s1, s2);
    if outcome.Ok? {
      var c := New(Field(h, NextResult), NResult(page), false);
      var o := CountFetch(s.objects[h], false);
      NextResultInv(server, s2, Issue(Put(s2, h, o), c), h, o, c);
    } else {
      FailedFetchInv(server, s2, h);
    }
  }

  lemma FillNextResultInv(server: Server, s: State, h: ObjectId, outcome: Outcome)
    requires IsRows(server, s, h)
    ensures var (s', early) := FillNextResult(server, s, h, outcome);
            Filled(server, s, h, outcome, s', early)
  {
    assert ObjectOk(server, s.objects, s.fields, h);
    if Field(h, NextResult) !in s.fields {
      if s.objects[h].futureNextPage.Some? {
        FillFromFuture(server, s, h, outcome);
      } else if Field(h, Result) in s.fields {
        FillFromFetch(server, s, h, outcome);
      }
    }
  }

  /** `Rows::nextPage`. */
  ghost function NextPage(server: Server, s: State, h: ObjectId, outcome: Outcome): (r: (State, Ret))
    requires IsRows(server, s, h)
  {
    FillNextResultInv(server, s, h, outcome);
    var (s1, early) := FillNextResult(server, s, h, outcome);
    if early.Some? then (s1, early.value)
    else
      RowsCreateInv(server, s1, h);
      RowsCreate(s1, h)
  }

  /** The page object after `nextPageAsync` stored a future in it. */
  function WithFuture(o: Object, f: ObjectId, fetched: bool): Object
    requires o.Rows?
  {
    o.(futureNextPage := Some(f),
       history := o.history.(issued := o.history.issued + (if fetched then 1 else 0)))
  }

  /** `Rows::nextPageAsync`. */
  ghost function NextPageAsync(server: Server, s: State, h: ObjectId): (r: (State, Ret))
    requires IsRows(server, s, h)
  {
    assert ObjectOk(server, s.objects, s.fields, h);
    var o := s.objects[h];
    if o.futureNextPage.Some? then (s, Object(o.futureNextPage.value))
    else if Field(h, NextResult) in s.fields then
      RowsCreateInv(server, s, h);
      var (s1, ret) := RowsCreate(s, h);
      var value := if ret.Object? then Some(ret.id) else None;
      var s2 := Put(s1, s1.nextObject, FutureValue(value));
      (Put(s2, h, WithFuture(s1.objects[h], s1.nextObject, false)),
       if ret.Object? then Object(s1.nextObject) else ret)
    else if Field(h, Result) !in s.fields then
      (Put(s, s.nextObject, FutureValue(None)), Object(s.nextObject))
    else
      FetchInv(server, s, h);
      var (s1, page) := Fetch(server, s, h);
      var s2 := ShareWithFuture(s1, h, FutureRows(Origin(o.origin.query, page), None, s.natives.next));
      (Put(s2, h, WithFuture(o, s1.nextObject, true)), Object(s1.nextObject))
  }

  /** `FutureRows::get` and `FutureValue::get`. */
  ghost function FutureGet(server: Server, s: State, f: ObjectId, outcome: Outcome): (r: (State, Ret))
    requires Inv(server, s) && f in s.objects && (s.objects[f].FutureRows? || s.objects[f].FutureValue?)
  {
    if s.objects[f].FutureValue? then
      (s, if s.objects[f].value.Some? then Object(s.objects[f].value.value) else Null)
    else
      var (s1, ok) := GetResult(s, f, outcome);
      if !ok then (s1, Error(outcome))
      else
        StoreFutureResultInv(server, s, f);
        GetRowsInv(server, s1, f);
        GetRows(s1, f)
  }

  // ---- what each operation returns --------------------------------------------------------

  /** What `nextPage` and a successful wait on the async future promise about a page object:
      null on the last page, otherwise a page object for the server's answer to this
      object's own paging state, or an exception if that answer cannot be decoded. */
  ghost predicate RightSuccessor(server: Server, o: Origin, s': State, ret: Ret) {
    if !o.page.hasMore then ret == Null
    else if Successor(server, o).page.decodable then
      ret.Object? && IsPage(s'.objects, Some(ret.id), Successor(server, o))
    else ret == Undecodable
  }

  lemma NextPageCorrect(server: Server, s: State, h: ObjectId, outcome: Outcome)
    requires IsRows(server, s, h)
    ensures var (s', ret) := NextPage(server, s, h, outcome);
            && Inv(server, s') && h in s'.objects && SameCore(s.objects[h], s'.objects[h])
            && s'.objects[h].futureNextPage == s.objects[h].futureNextPage
            && ret != UnexpectedFuture && ret != Invalid
            && (ret.Error? <==> Waits(s, h) && outcome != Ok) && (ret.Error? ==> ret.outcome == outcome)
            && (!ret.Error? ==> RightSuccessor(server, s.objects[h].origin, s', ret))
            && (!ret.Error? && ret != Null ==> Field(h, NextResult) in s'.fields)
  {
    FillNextResultInv(server, s, h, outcome);
    var (s1, early) := FillNextResult(server, s, h, outcome);
    if early.None? {
      RowsCreateInv(server, s1, h);
    }
  }

  /** `to` has the statement and the session of `from`, if it has any. */
  ghost predicate SharesRefs(s: State, from: ObjectId, s': State, to: ObjectId) {
    forall name :: (name == Statement || name == Session) && Field(to, name) in s'.fields ==>
      Field(from, name) in s.fields && s'.fields[Field(to, name)] == s.fields[Field(from, name)]
  }

  lemma MakeRowsShares(server: Server, s: State, from: ObjectId, result: Slot, query: string, rows: seq<string>)
    requires Inv(server, s) && result in s.fields && s.fields[result].NResult? && from in s.objects
    ensures SharesRefs(s, from, MakeRows(s, from, result, query, rows), s.nextObject)
  {
    FreshOwner(server, s);
  }

  /** The page object `nextPage` makes shares the statement and the session of this one. */
  lemma NextPageShares(server: Server, s: State, h: ObjectId, outcome: Outcome)
    requires IsRows(server, s, h)
    ensures var (s', ret) := NextPage(server, s, h, outcome);
            ret.Object? ==> SharesRefs(s, h, s', ret.id)
  {
    FillNextResultInv(server, s, h, outcome);
    FillShares(server, s, h, outcome);
    var (s1, early) := FillNextResult(server, s, h, outcome);
    if early.None? {
      RowsCreateInv(server, s1, h);
      RowsCreateShares(server, s1, h);
    }
  }

  lemma FillShares(server: Server, s: State, h: ObjectId, outcome: Outcome)
    requires IsRows(server, s, h)
    ensures SharesRefs(s, h, FillNextResult(server, s, h, outcome).0, h)
    ensures var (s', early) := FillNextResult(server, s, h, outcome);
            early.Some? ==> !early.value.Object?
  {
    assert ObjectOk(server, s.objects, s.fields, h);
  }

  lemma RowsCreateShares(server: Server, s: State, h: ObjectId)
    requires IsRows(server, s, h) && Field(h, NextResult) in s.fields && s.fields[Field(h, NextResult)].NResult?
    ensures var (s', ret) := RowsCreate(s, h);
            ret.Object? ==> SharesRefs(s, h, s', ret.id)
  {
    FreshOwner(server, s);
  }

  lemma GetRowsShares(server: Server, s: State, f: ObjectId)
    requires IsFutureRows(server, s, f) && Field(f, Result) in s.fields && s.fields[Field(f, Result)].NResult?
    ensures var (s', ret) := GetRows(s, f);
            ret.Object? ==> SharesRefs(s, f, s', ret.id)
  {
    FreshOwner(server, s);
  }

  /** The page object `get` makes shares the statement and the session of the future object. */
  lemma FutureGetShares(server: Server, s: State, f: ObjectId, outcome: Outcome)
    requires IsFutureRows(server, s, f)
    ensures var (s', ret) := FutureGet(server, s, f, outcome);
            ret.Object? ==> SharesRefs(s, f, s', ret.id)
  {
    var (s1, ok) := GetResult(s, f, outcome);
    if ok {
      StoreFutureResultInv(server, s, f);
      GetRowsInv(server, s1, f);
      GetRowsShares(server, s1, f);
    }
  }

  /** The future object `nextPageAsync` makes shares the statement and the session of the page object. */
  lemma NextPageAsyncShares(server: Server, s: State, h: ObjectId)
    requires IsRows(server, s, h) && s.objects[h].futureNextPage.None? && Field(h, NextResult) !in s.fields
    ensures var (s', ret) := NextPageAsync(server, s, h);
            ret.Object? ==> SharesRefs(s, h, s', ret.id)
  {
    assert ObjectOk(server, s.objects, s.fields, h);
    FreshOwner(server, s);
  }

  /** Adding the future of a page object, whichever kind it is, and storing it in the object. */
  lemma StoreFuture(server: Server, s: State, h: ObjectId, f: ObjectId, s': State, o: Object)
    requires IsRows(server, s, h) && f in s.objects && s.objects[h].futureNextPage.None?
    requires s.objects[h].origin.page.hasMore
    requires s' == Put(s, h, o)
    requires o == WithFuture(s.objects[h], f, s.objects[f].FutureRows?)
    requires match s.objects[f]
             case FutureRows(promised, _, _) =>
               Field(h, NextResult) !in s.fields && promised == Successor(server, s.objects[h].origin)
             case FutureValue(x) =>
               && Field(h, NextResult) in s.fields
               && IsPage(s.objects, x, Successor(server, s.objects[h].origin))
               && (x.Some? <==> Successor(server, s.objects[h].origin).page.decodable)
               && (x.Some? ==> h < x.value)
             case _ => false
    ensures Inv(server, s')
  {
    assert ObjectOk(server, s.objects, s.fields, h);
    assert ObjectOk(server, s'.objects, s'.fields, h);
    TouchOne(server, s, s', h, o);
  }

  lemma NewFutureValue(server: Server, s: State, value: Option<ObjectId>)
    requires Inv(server, s)
    requires value.Some? ==> value.value in s.objects && s.objects[value.value].Rows?
    ensures Inv(server, Put(s, s.nextObject, FutureValue(value)))
  {
    var s' := Put(s, s.nextObject, FutureValue(value));
    FreshOwner(server, s);
    assert ObjectOk(server, s'.objects, s'.fields, s.nextObject);
    AddOne(server, s, s', FutureValue(value));
  }

  /** The future object made by a fetch or by `executeAsync`, once its refs are in place. */
  lemma NewFutureRows(server: Server, s: State, s': State, o: Object)
    requires Inv(server, s) && LogOk(s'.fields, s'.log) && SameWorld(s, s')
    requires o.FutureRows? && o.cachedRows.None?
    requires s'.objects == s.objects[s.nextObject := o] && s'.nextObject == s.nextObject + 1
    requires OnlyFieldsOf(s.nextObject, s.fields, s'.fields)
    requires FutureRowsOk(s'.fields, s.nextObject, o)
    ensures Inv(server, s')
  {
    assert ObjectOk(server, s'.objects, s'.fields, s.nextObject);
    AddOne(server, s, s', o);
  }

  /** The state of `nextPageAsync` once the future object holds its statement and session. */
  function ShareWithFuture(s: State, h: ObjectId, o: Object): State {
    var f := s.nextObject;
    CopyField(CopyField(Put(s, f, o), Field(h, Statement), Field(f, Statement)),
              Field(h, Session), Field(f, Session))
  }

  lemma ShareWithFutureLog(s: State, h: ObjectId, o: Object)
    requires LogOk(s.fields, s.log) && Field(h, Statement) in s.fields && Field(h, Session) in s.fields
    requires forall n :: Field(s.nextObject, n) !in s.fields
    ensures var s' := ShareWithFuture(s, h, o);
            && LogOk(s'.fields, s'.log)
            && s'.fields == s.fields[Field(s.nextObject, Statement) := s.fields[Field(h, Statement)]]
                                    [Field(s.nextObject, Session) := s.fields[Field(h, Session)]]
  {
    var f := s.nextObject;
    var c1 := Copy(Field(h, Statement), Field(f, Statement));
    var c2 := Copy(Field(h, Session), Field(f, Session));
    IssueOk(Put(s, f, o), c1);
    IssueOk(Issue(Put(s, f, o), c1), c2);
  }

  lemma ShareWithFutureInv(server: Server, s: State, h: ObjectId, page: Page, future: nat)
    requires IsRows(server, s, h) && s.objects[h].origin.page.hasMore
    ensures var s' := ShareWithFuture(s, h, FutureRows(Origin(s.objects[h].origin.query, page), None, future));
            Inv(server, s') && s'.objects == s.objects[s.nextObject := FutureRows(Origin(s.objects[h].origin.query, page), None, future)]
  {
    var o := FutureRows(Origin(s.objects[h].origin.query, page), None, future);
    assert ObjectOk(server, s.objects, s.fields, h);
    FreshOwner(server, s);
    ShareWithFutureLog(s, h, o);
    NewFutureRows(server, s, ShareWithFuture(s, h, o), o);
  }

  /** What `nextPageAsync` promises: a future for the successor page, the same one on every call; an
      empty one on the last page, or when the successor is there and cannot be decoded. */
  ghost predicate RightFuture(server: Server, o: Origin, s': State, f: ObjectId) {
    && f in s'.objects
    && match s'.objects[f]
       case FutureRows(promised, _, _) => o.page.hasMore && promised == Successor(server, o)
       case FutureValue(x) =>
         && (x.Some? <==> o.page.hasMore && Successor(server, o).page.decodable)
         && IsPage(s'.objects, x, Successor(server, o))
       case _ => false
  }

  /** The page object keeps a future that will give null. */
  predicate HoldsEmptyFuture(s: State, h: ObjectId) {
    && h in s.objects && s.objects[h].Rows? && s.objects[h].futureNextPage.Some?
    && s.objects[h].futureNextPage.value in s.objects
    && s.objects[s.objects[h].futureNextPage.value] == FutureValue(None)
  }

  ghost predicate AsyncResult(server: Server, s: State, h: ObjectId, s': State, ret: Ret)
    requires h in s.objects && s.objects[h].Rows?
  {
    && Inv(server, s') && h in s'.objects && SameCore(s.objects[h], s'.objects[h])
    && (ret.Object? || ret == Undecodable)
    && (ret == Undecodable <==>
          && s.objects[h].origin.page.hasMore && !Successor(server, s.objects[h].origin).page.decodable
          && s.objects[h].futureNextPage.None? && Field(h, NextResult) in s.fields)
    && (ret == Undecodable ==>
          HoldsEmptyFuture(s', h))
    && (ret.Object? ==> RightFuture(server, s.objects[h].origin, s', ret.id))
    && (ret.Object? && s.objects[h].origin.page.hasMore ==> s'.objects[h].futureNextPage == Some(ret.id))
  }

  /** `nextPageAsync` when the successor result is already there. */
  lemma AsyncFromResult(server: Server, s: State, h: ObjectId)
    requires IsRows(server, s, h) && s.objects[h].futureNextPage.None? && Field(h, NextResult) in s.fields
    ensures var (s', ret) := NextPageAsync(server, s, h);
            AsyncResult(server, s, h, s', ret)
  {
    assert ObjectOk(server, s.objects, s.fields, h);
    RowsCreateInv(server, s, h);
    var (s1, ret) := RowsCreate(s, h);
    var value := if ret.Object? then Some(ret.id) else None;
    FreshOwner(server, s1);
    NewFutureValue(server, s1, value);
    var s2 := Put(s1, s1.nextObject, FutureValue(value));
    var o := WithFuture(s1.objects[h], s1.nextObject, false);
    StoreFuture(server, s2, h, s1.nextObject, Put(s2, h, o), o);
  }

  /** `nextPageAsync` when it has to issue the fetch. */
  lemma AsyncFromFetch(server: Server, s: State, h: ObjectId)
    requires IsRows(server, s, h) && s.objects[h].futureNextPage.None?
    requires Field(h, NextResult) !in s.fields && Field(h, Result) in s.fields
    ensures var (s', ret) := NextPageAsync(server, s, h);
            AsyncResult(server, s, h, s', ret)
  {
    assert ObjectOk(server, s.objects, s.fields, h);
    FetchInv(server, s, h);
    var (s1, page) := Fetch(server, s, h);
    FreshOwner(server, s1);
    ShareWithFutureInv(server, s1, h, page, s.natives.next);
    var s2 := ShareWithFuture(s1, h, FutureRows(Origin(s.objects[h].origin.query, page), None, s.natives.next));
    var o := WithFuture(s.objects[h], s1.nextObject, true);
    StoreFuture(server, s2, h, s1.nextObject, Put(s2, h, o), o);
  }

  lemma NextPageAsyncCorrect(server: Server, s: State, h: ObjectId)
    requires IsRows(server, s, h)
    ensures var (s', ret) := NextPageAsync(server, s, h);
            AsyncResult(server, s, h, s', ret)
  {
    assert ObjectOk(server, s.objects, s.fields, h);
    if s.objects[h].futureNextPage.Some? {
    } else if Field(h, NextResult) in s.fields {
      AsyncFromResult(server, s, h);
    } else if Field(h, Result) in s.fields {
      AsyncFromFetch(server, s, h);
    } else {
      NewFutureValue(server, s, None);
      FreshOwner(server, s);
    }
  }

  /** `FutureRows::get` after the result is stored: decode once, cache, build the page object. */
  function GetRows(s: State, f: ObjectId): (r: (State, Ret))
    requires f in s.objects && s.objects[f].FutureRows?
    requires Field(f, Result) in s.fields && s.fields[Field(f, Result)].NResult?
  {
    var o := s.objects[f];
    if o.cachedRows.None? && !s.fields[Field(f, Result)].page.decodable then (s, Undecodable)
    else
      var rows := if o.cachedRows.Some? then o.cachedRows.value else s.fields[Field(f, Result)].page.rows;
      var s1 := Put(s, f, o.(cachedRows := Some(rows)));
      (MakeRows(s1, f, Field(f, Result), o.origin.query, rows), Object(s.nextObject))
  }

  lemma GetRowsInv(server: Server, s: State, f: ObjectId)
    requires IsFutureRows(server, s, f) && Field(f, Result) in s.fields
    ensures s.fields[Field(f, Result)].NResult?
    ensures var (s', ret) := GetRows(s, f);
            && Inv(server, s')
            && (if s.objects[f].origin.page.decodable then ret.Object? && IsPage(s'.objects, Some(ret.id), s.objects[f].origin)
                else ret == Undecodable)
  {
    assert ObjectOk(server, s.objects, s.fields, f);
    var o := s.objects[f];
    if o.origin.page.decodable {
      var rows := s.fields[Field(f, Result)].page.rows;
      var s1 := Put(s, f, o.(cachedRows := Some(rows)));
      assert ObjectOk(server, s1.objects, s1.fields, f);
      TouchOne(server, s, s1, f, o.(cachedRows := Some(rows)));
      MakeRowsInv(server, s1, f, Field(f, Result), o.origin.query);
    }
  }

  lemma FutureGetCorrect(server: Server, s: State, f: ObjectId, outcome: Outcome)
    requires Inv(server, s) && f in s.objects && (s.objects[f].FutureRows? || s.objects[f].FutureValue?)
    ensures var (s', ret) := FutureGet(server, s, f, outcome);
            && Inv(server, s')
            && (ret.Error? <==> s.objects[f].FutureRows? && Field(f, Result) !in s.fields && outcome != Ok)
            && (ret.Error? ==> ret.outcome == outcome)
            && (s.objects[f].FutureRows? && !ret.Error? ==>
                  if s.objects[f].origin.page.decodable then
                    ret.Object? && IsPage(s'.objects, Some(ret.id), s.objects[f].origin)
                  else ret == Undecodable)
            && (s.objects[f].FutureValue? ==>
                  s' == s && ret == (if s.objects[f].value.Some? then Object(s.objects[f].value.value) else Null))
  {
    if s.objects[f].FutureRows? {
      var (s1, ok) := GetResult(s, f, outcome);
      if ok {
        StoreFutureResultInv(server, s, f);
        GetRowsInv(server, s1, f);
      }
    }
  }
}
