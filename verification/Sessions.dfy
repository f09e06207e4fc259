/**
 Executing statements (ext/src/DefaultSession.c) and the release of every kind of object (the
 `*_free` functions).
 */
module Sessions {
  import opened Options
  import opened Refs
  import opened Driver
  import opened Paging

  ghost predicate IsSession(server: Server, s: State, h: ObjectId) {
    Inv(server, s) && h in s.objects && s.objects[h].SessionHandle?
  }

  // ---- execute ---------------------------------------------------------------------------

  /** The native statement of a new request, with the paging state it starts from. */
  function NewStatement(s: State, token: Option<string>): State {
    s.(natives := s.natives.(paging := s.natives.paging[s.natives.next := token], next := s.natives.next + 1))
  }

  /** A request whose native future is freed on every path, as in `execute`. */
  function Answered(s: State, token: Option<string>): State {
    var s1 := NewStatement(s, token);
    FreeFuture(MakeFuture(s1), s1.natives.next)
  }

  /** `execute`, the branch that returns `Rows`: the statement, the result and the session are
      kept only when there are more pages. */
  function StoreRows(s: State, h: ObjectId, stmt: Native, o: Origin): State {
    var n := s.nextObject;
    var s1 := Put(s, n, Rows(o, o.page.rows, None, None, NoFetches));
    if o.page.hasMore then
      CopyField(NewField(NewField(s1, Field(n, Statement), stmt, false),
                         Field(n, Result), NResult(o.page), false),
                Field(h, Session), Field(n, Session))
    else s1
  }

  lemma StoreRowsLog(s: State, h: ObjectId, stmt: Native, o: Origin)
    requires LogOk(s.fields, s.log) && Field(h, Session) in s.fields
    requires forall n :: Field(s.nextObject, n) !in s.fields
    ensures var s' := StoreRows(s, h, stmt, o);
            && LogOk(s'.fields, s'.log)
            && s'.fields == (if o.page.hasMore then
                 s.fields[Field(s.nextObject, Statement) := stmt]
                         [Field(s.nextObject, Result) := NResult(o.page)]
                         [Field(s.nextObject, Session) := s.fields[Field(h, Session)]]
               else s.fields)
  {
    if o.page.hasMore {
      var n := s.nextObject;
      var s1 := Put(s, n, Rows(o, o.page.rows, None, None, NoFetches));
      var c1 := New(Field(n, Statement), stmt, false);
      var c2 := New(Field(n, Result), NResult(o.page), false);
      var c3 := Copy(Field(h, Session), Field(n, Session));
      IssueOk(s1, c1);
      IssueOk(Issue(s1, c1), c2);
      IssueOk(Issue(Issue(s1, c1), c2), c3);
    }
  }

  lemma StoreRowsInv(server: Server, s: State, h: ObjectId, stmt: Native, o: Origin)
    requires IsSession(server, s, h) && stmt.NStatement? && stmt.query == o.query && o.page.decodable
    ensures var s' := StoreRows(s, h, stmt, o);
            && Inv(server, s')
            && s'.objects == s.objects[s.nextObject := Rows(o, o.page.rows, None, None, NoFetches)]
  {
    assert ObjectOk(server, s.objects, s.fields, h);
    FreshOwner(server, s);
    StoreRowsLog(s, h, stmt, o);
    var s' := StoreRows(s, h, stmt, o);
    assert o.page.hasMore ==>
      s'.fields == s.fields[Field(s.nextObject, Statement) := stmt]
                           [Field(s.nextObject, Session) := s.fields[Field(h, Session)]]
                           [Field(s.nextObject, Result) := NResult(o.page)];
    AddSharedRows(server, s, s', o, stmt, s.fields[Field(h, Session)]);
  }

  /** `DefaultSession::execute` on a simple or prepared statement. */
  function Execute(server: Server, s: State, h: ObjectId, query: string, token: Option<string>,
                   outcome: Outcome): (r: (State, Ret))
  {
    var s1 := Answered(s, token);
    var page := server(query, s1.natives.paging[s.natives.next]);
    if !outcome.Ok? then (s1, Error(outcome))
    else if !page.decodable then (s1, Undecodable)
    else (StoreRows(s1, h, NStatement(s.natives.next, query), Origin(query, page)), Object(s.nextObject))
  }

  lemma ExecuteInv(server: Server, s: State, h: ObjectId, query: string, token: Option<string>, outcome: Outcome)
    requires IsSession(server, s, h)
    ensures var (s', ret) := Execute(server, s, h, query, token, outcome);
            && Inv(server, s')
            && (ret.Error? <==> outcome != Ok) && (ret.Error? ==> ret.outcome == outcome)
            && (ret.Undecodable? <==> outcome.Ok? && !server(query, token).decodable)
            && (outcome.Ok? && server(query, token).decodable ==>
                  ret == Object(s.nextObject) && ret.id in s'.objects
                  && IsPage(s'.objects, Some(ret.id), Origin(query, server(query, token)))
                  && s'.objects[ret.id].futureNextPage.None?)
  {
    NativeOnly(server, s, Answered(s, token));
    if outcome.Ok? && server(query, token).decodable {
      StoreRowsInv(server, Answered(s, token), h, NStatement(s.natives.next, query),
                   Origin(query, server(query, token)));
    }
  }

  /** A page object that has more pages gets the new statement and the session of the handle. */
  lemma ExecuteShares(server: Server, s: State, h: ObjectId, query: string, token: Option<string>, outcome: Outcome)
    requires IsSession(server, s, h)
    ensures var (s', ret) := Execute(server, s, h, query, token, outcome);
            ret.Object? && server(query, token).hasMore ==>
              && Field(h, Session) in s.fields && Field(ret.id, Session) in s'.fields && Field(ret.id, Statement) in s'.fields
              && s'.fields[Field(ret.id, Session)] == s.fields[Field(h, Session)]
              && s'.fields[Field(ret.id, Statement)] == NStatement(s.natives.next, query)
  {
    assert ObjectOk(server, s.objects, s.fields, h);
    FreshOwner(server, s);
  }

  /** `DefaultSession::executeAsync` on a simple or prepared statement. */
  function ExecuteAsync(server: Server, s: State, h: ObjectId, query: string, token: Option<string>): (r: (State, Ret)) {
    var s1 := NewStatement(s, token);
    var f := s.nextObject;
    var o := FutureRows(Origin(query, server(query, s1.natives.paging[s.natives.next])), None, s1.natives.next);
    (CopyField(NewField(Put(MakeFuture(s1), f, o), Field(f, Statement), NStatement(s.natives.next, query), false),
               Field(h, Session), Field(f, Session)),
     Object(f))
  }

  lemma ExecuteAsyncInv(server: Server, s: State, h: ObjectId, query: string, token: Option<string>)
    requires IsSession(server, s, h)
    ensures var (s', ret) := ExecuteAsync(server, s, h, query, token);
            && Inv(server, s') && ret == Object(s.nextObject) && ret.id in s'.objects
            && s'.objects[ret.id] == FutureRows(Origin(query, server(query, token)), None, s.natives.next + 1)
  {
    assert ObjectOk(server, s.objects, s.fields, h);
    var s1 := MakeFuture(NewStatement(s, token));
    NativeOnly(server, s, s1);
    FreshOwner(server, s1);
    var o := FutureRows(Origin(query, server(query, token)), None, s.natives.next + 1);
    var stmt := NStatement(s.natives.next, query);
    FutureFields(s1, h, stmt, o);
    AddFutureRows(server, s1, NewFuture(s1, h, stmt, o), o, stmt, s.fields[Field(h, Session)]);
    assert ExecuteAsync(server, s, h, query, token).0 == NewFuture(s1, h, stmt, o);
  }

  /** The future object of `executeAsync` with its two refs. */
  function NewFuture(s: State, h: ObjectId, stmt: Native, o: Object): State {
    CopyField(NewField(Put(s, s.nextObject, o), Field(s.nextObject, Statement), stmt, false),
              Field(h, Session), Field(s.nextObject, Session))
  }

  lemma FutureFields(s: State, h: ObjectId, stmt: Native, o: Object)
    requires LogOk(s.fields, s.log) && Field(h, Session) in s.fields
    requires forall n :: Field(s.nextObject, n) !in s.fields
    ensures var s' := NewFuture(s, h, stmt, o);
            && LogOk(s'.fields, s'.log)
            && s'.fields == s.fields[Field(s.nextObject, Statement) := stmt]
                                    [Field(s.nextObject, Session) := s.fields[Field(h, Session)]]
  {
    var f := s.nextObject;
    var c1, c2 := New(Field(f, Statement), stmt, false), Copy(Field(h, Session), Field(f, Session));
    IssueOk(Put(s, f, o), c1);
    IssueOk(Issue(Put(s, f, o), c1), c2);
  }

  lemma AddFutureRows(server: Server, s: State, s': State, o: Object, stmt: Native, session: Native)
    requires Inv(server, s) && LogOk(s'.fields, s'.log) && SameWorld(s, s')
    requires o.FutureRows? && o.cachedRows.None? && stmt.NStatement? && stmt.query == o.origin.query
    requires s'.objects == s.objects[s.nextObject := o] && s'.nextObject == s.nextObject + 1
    requires forall n :: Field(s.nextObject, n) !in s.fields
    requires s'.fields == s.fields[Field(s.nextObject, Statement) := stmt][Field(s.nextObject, Session) := session]
    ensures Inv(server, s')
  {
    NewFutureRows(server, s, s', o);
  }

  /** A batch has no statement to page with; the native driver never reports more pages for it. */
  function BatchOrigin(rows: seq<string>, decodable: bool): Origin {
    Origin("", Page(rows, false, "", decodable))
  }

  /** `execute` and `executeAsync` on a batch. */
  function ExecuteBatch(s: State, rows: seq<string>, decodable: bool, async: bool): (r: (State, Ret)) {
    var s1 := if async then MakeFuture(s) else FreeFuture(MakeFuture(s), s.natives.next);
    if !async && !decodable then (s1, Undecodable)
    else
      (Put(s1, s.nextObject, if async then FutureRows(BatchOrigin(rows, decodable), None, s.natives.next)
                             else Rows(BatchOrigin(rows, decodable), rows, None, None, NoFetches)),
       Object(s.nextObject))
  }

  lemma ExecuteBatchInv(server: Server, s: State, rows: seq<string>, decodable: bool, async: bool)
    requires Inv(server, s)
    ensures Inv(server, ExecuteBatch(s, rows, decodable, async).0)
  {
    var s' := ExecuteBatch(s, rows, decodable, async).0;
    if async || decodable {
      FreshOwner(server, s);
      assert ObjectOk(server, s'.objects, s'.fields, s.nextObject);
      AddOne(server, s, s', s'.objects[s.nextObject]);
    } else {
      NativeOnly(server, s, s');
    }
  }

  // ---- releasing an object -----------------------------------------------------------------

  /** The zval fields through which one object keeps another alive. */
  predicate Refers(o: Object, h: ObjectId) {
    match o
    case Rows(_, _, _, f, _) => f == Some(h)
    case FutureValue(x) => x == Some(h)
    case FutureSession(_, _, _, cached, _) => cached == Some(h)
    case _ => false
  }

  /** The engine frees an object only when no other object holds it. */
  ghost predicate Unreferenced(s: State, h: ObjectId) {
    forall k :: k in s.objects ==> !Refers(s.objects[k], h)
  }

  /** The releases in the `*_free` function of the object's class, in order. */
  function Releases(h: ObjectId, o: Object): seq<Command<Native>> {
    match o
    case Rows(_, _, _, _, _) =>
      [Del(Field(h, Result), false), Del(Field(h, Statement), false),
       Del(Field(h, Session), true), Del(Field(h, NextResult), false)]
    case FutureRows(_, _, _) =>
      [Del(Field(h, Statement), false), Del(Field(h, Session), true), Del(Field(h, Result), false)]
    case FutureValue(_) => []
    case SessionHandle(_) => [Del(Field(h, Session), true)]
    case FutureSession(_, _, _, _, _) => [Del(Field(h, Session), true)]
  }

  function IssueAll(s: State, cs: seq<Command<Native>>): State
    decreases |cs|
  {
    if cs == [] then s else Issue(IssueAll(s, cs[..|cs|-1]), cs[|cs|-1])
  }

  /** A sequence of releases of one object's fields is guarded and clears exactly those fields. */
  lemma {:induction false} ReleaseAll(s: State, cs: seq<Command<Native>>, h: ObjectId)
    requires LogOk(s.fields, s.log)
    requires forall i :: 0 <= i < |cs| ==>
               cs[i].Del? && cs[i].slot.Field? && cs[i].slot.owner == h && cs[i].persistent == Persistent(cs[i].slot)
    ensures var s' := IssueAll(s, cs);
            && LogOk(s'.fields, s'.log) && s' == s.(fields := s'.fields, log := s'.log)
            && s'.fields == s.fields - (set i | 0 <= i < |cs| :: cs[i].slot)
    decreases |cs|
  {
    if cs == [] {
      assert s.fields - {} == s.fields;
    } else {
      var front, last := cs[..|cs|-1], cs[|cs|-1];
      ReleaseAll(s, front, h);
      IssueOk(IssueAll(s, front), last);
      SlotsOf(cs);
      var rest := set i | 0 <= i < |front| :: front[i].slot;
      assert s.fields - rest - {last.slot} == s.fields - (rest + {last.slot});
    }
  }

  lemma SlotsOf(cs: seq<Command<Native>>)
    requires cs != [] && forall i :: 0 <= i < |cs| ==> cs[i].Del?
    ensures var front := cs[..|cs|-1];
            (set i | 0 <= i < |cs| :: cs[i].slot) == (set i | 0 <= i < |front| :: front[i].slot) + {cs[|cs|-1].slot}
  {
    var front := cs[..|cs|-1];
    forall i | 0 <= i < |front|
      ensures cs[i].slot in (set i | 0 <= i < |front| :: front[i].slot)
    {
      assert front[i] == cs[i];
    }
  }

  /** The `*_free` function of the object's class. */
  function Free(s: State, h: ObjectId): (s': State)
    requires h in s.objects
  {
    var s1 := IssueAll(s, Releases(h, s.objects[h]));
    var s2 := if s.objects[h].FutureRows? then FreeFuture(s1, s.objects[h].request) else s1;
    s2.(objects := s2.objects - {h})
  }

  /** The free function of a class releases every counted field its objects can have. */
  lemma FreeFields(server: Server, s: State, h: ObjectId)
    requires Inv(server, s) && h in s.objects
    ensures LogOk(Free(s, h).fields, Free(s, h).log)
    ensures Free(s, h) == s.(fields := Free(s, h).fields, log := Free(s, h).log,
                             objects := s.objects - {h}, natives := Free(s, h).natives)
    ensures Free(s, h).natives ==
              if s.objects[h].FutureRows? then FreeFuture(s, s.objects[h].request).natives else s.natives
    ensures OnlyFieldsOf(h, s.fields, Free(s, h).fields)
    ensures forall n :: Field(h, n) !in Free(s, h).fields
  {
    assert ObjectOk(server, s.objects, s.fields, h);
    var cs := Releases(h, s.objects[h]);
    ReleaseAll(s, cs, h);
    var gone := set i | 0 <= i < |cs| :: cs[i].slot;
    forall n | Field(h, n) in s.fields ensures Field(h, n) in gone {
      match n
      case Statement => assert Del(Field(h, Statement), false) in cs;
      case Session => assert Del(Field(h, Session), true) in cs;
      case Result => assert Del(Field(h, Result), false) in cs;
      case NextResult => assert Del(Field(h, NextResult), false) in cs;
    }
  }

  lemma FreeOwners(s: State, s': State, h: ObjectId)
    requires OwnersLive(s) && s'.list == s.list && s'.nextObject == s.nextObject
    requires s'.objects == s.objects - {h} && OnlyFieldsOf(h, s.fields, s'.fields)
    requires forall n :: Field(h, n) !in s'.fields
    ensures OwnersLive(s')
  {
    forall x | x in s'.fields ensures SlotOk(s'.objects, s'.list.pool, s'.fields, x) {
      assert SlotOk(s.objects, s.list.pool, s.fields, x);
    }
  }

  lemma FreeInv(server: Server, s: State, h: ObjectId)
    requires Inv(server, s) && h in s.objects && Unreferenced(s, h)
    ensures Inv(server, Free(s, h))
  {
    FreeFields(server, s, h);
    var s' := Free(s, h);
    forall k | k in s'.objects ensures ObjectOk(server, s'.objects, s'.fields, k) {
      FreeFrame(server, s, s', h, k);
    }
    FreeOwners(s, s', h);
  }

  lemma FreeFrame(server: Server, s: State, s': State, h: ObjectId, k: ObjectId)
    requires ObjectsOk(server, s) && Unreferenced(s, h)
    requires k in s.objects && k != h && s'.objects == s.objects - {h}
    requires OnlyFieldsOf(h, s.fields, s'.fields)
    ensures ObjectOk(server, s'.objects, s'.fields, k)
  {
    assert ObjectOk(server, s.objects, s.fields, k);
    assert !Refers(s.objects[k], h);
    if s.objects[k].Rows? && s.objects[k].futureNextPage.Some? {
      assert !Refers(s.objects[s.objects[k].futureNextPage.value], h);
    }
  }
}
