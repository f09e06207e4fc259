/**
 What a PHP program that pages through a result observes, whatever else happens in between.
 */
module Walk {
  import opened Options
  import opened Refs
  import opened Driver
  import opened Paging
  import opened Sessions
  import opened Pool
  import opened Machine

  // ---- a page object stays the same page ------------------------------------------------

  ghost predicate Kept(s: State, s': State, k: ObjectId) {
    k in s.objects && k in s'.objects && SameCore(s.objects[k], s'.objects[k])
  }

  /** The future cached in a page object is as it was. */
  ghost predicate FutureStays(s: State, s': State, k: ObjectId) {
    && k in s.objects && k in s'.objects
    && (s.objects[k].Rows? && s'.objects[k].Rows? ==> s'.objects[k].futureNextPage == s.objects[k].futureNextPage)
  }

  lemma KeptTrans(s: State, s1: State, s2: State, k: ObjectId)
    requires Kept(s, s1, k) && Kept(s1, s2, k)
    ensures Kept(s, s2, k)
  {
  }

  /** An object that was there before the next id was handed out. */
  predicate Old(s: State, k: ObjectId) { k in s.objects && k < s.nextObject }

  lemma RowsCreateKeeps(s: State, h: ObjectId, k: ObjectId)
    requires Old(s, h) && s.objects[h].Rows? && Old(s, k)
    requires Field(h, NextResult) in s.fields && s.fields[Field(h, NextResult)].NResult?
    ensures Kept(s, RowsCreate(s, h).0, k) && FutureStays(s, RowsCreate(s, h).0, k)
  {
  }

  lemma FillKeeps(server: Server, s: State, h: ObjectId, outcome: Outcome, k: ObjectId)
    requires IsRows(server, s, h) && k in s.objects
    ensures Kept(s, FillNextResult(server, s, h, outcome).0, k) && FutureStays(s, FillNextResult(server, s, h, outcome).0, k)
  {
    FillObjects(server, s, h, outcome);
  }

  lemma FillObjects(server: Server, s: State, h: ObjectId, outcome: Outcome)
    requires IsRows(server, s, h)
    ensures var objs := FillNextResult(server, s, h, outcome).0.objects;
            objs == s.objects || exists failed :: objs == s.objects[h := CountFetch(s.objects[h], failed)]
  {
    var objs := FillNextResult(server, s, h, outcome).0.objects;
    assert objs == s.objects || objs == s.objects[h := CountFetch(s.objects[h], !outcome.Ok?)];
  }

  lemma NextPageKeeps(server: Server, s: State, h: ObjectId, outcome: Outcome, k: ObjectId)
    requires IsRows(server, s, h) && k in s.objects
    ensures Kept(s, NextPage(server, s, h, outcome).0, k) && FutureStays(s, NextPage(server, s, h, outcome).0, k)
  {
    FillKeeps(server, s, h, outcome, k);
    FillNextResultInv(server, s, h, outcome);
    var (s1, early) := FillNextResult(server, s, h, outcome);
    if early.None? {
      RowsCreateInv(server, s1, h);
      RowsCreateKeeps(s1, h, k);
    }
  }

  lemma WrapKeeps(s: State, h: ObjectId, o: Object, f: ObjectId, k: ObjectId)
    requires Old(s, h) && s.objects[h].Rows? && s.objects[h].futureNextPage.None? && Old(s, k) && f == s.nextObject
    ensures Kept(s, Put(Put(s, f, o), h, WithFuture(s.objects[h], f, false)), k) && (k != h ==> FutureStays(s, Put(Put(s, f, o), h, WithFuture(s.objects[h], f, false)), k))
  {
  }

  lemma AsyncFetchKeeps(server: Server, s: State, h: ObjectId, k: ObjectId)
    requires CanFetch(s, h) && Old(s, h) && Old(s, k)
    ensures Kept(s, Fetch(server, s, h).0, k) && FutureStays(s, Fetch(server, s, h).0, k)
  {
  }

  lemma ShareKeeps(s: State, h: ObjectId, o: Object, k: ObjectId)
    requires Old(s, h) && s.objects[h].Rows? && s.objects[h].futureNextPage.None? && Old(s, k)
    ensures Kept(s, Put(ShareWithFuture(s, h, o), h, WithFuture(s.objects[h], s.nextObject, true)), k) && (k != h ==> FutureStays(s, Put(ShareWithFuture(s, h, o), h, WithFuture(s.objects[h], s.nextObject, true)), k))
  {
  }

  lemma NextPageAsyncKeeps(server: Server, s: State, h: ObjectId, k: ObjectId)
    requires IsRows(server, s, h) && k in s.objects
    ensures Kept(s, NextPageAsync(server, s, h).0, k) && (k != h ==> FutureStays(s, NextPageAsync(server, s, h).0, k))
  {
    assert ObjectOk(server, s.objects, s.fields, h);
    var o := s.objects[h];
    if o.futureNextPage.Some? {
    } else if Field(h, NextResult) in s.fields {
      RowsCreateInv(server, s, h);
      RowsCreateKeeps(s, h, k);
      RowsCreateKeeps(s, h, h);
      var (s1, ret) := RowsCreate(s, h);
      WrapKeeps(s1, h, FutureValue(if ret.Object? then Some(ret.id) else None), s1.nextObject, k);
    } else if Field(h, Result) in s.fields {
      FetchInv(server, s, h);
      AsyncFetchKeeps(server, s, h, k);
      var (s1, page) := Fetch(server, s, h);
      ShareKeeps(s1, h, FutureRows(Origin(o.origin.query, page), None, s.natives.next), k);
    }
  }

  lemma GetRowsKeeps(s: State, f: ObjectId, k: ObjectId)
    requires Old(s, f) && s.objects[f].FutureRows? && Old(s, k)
    requires Field(f, Result) in s.fields && s.fields[Field(f, Result)].NResult?
    ensures Kept(s, GetRows(s, f).0, k) && FutureStays(s, GetRows(s, f).0, k)
  {
  }

  lemma FutureGetKeeps(server: Server, s: State, f: ObjectId, outcome: Outcome, k: ObjectId)
    requires Inv(server, s) && f in s.objects && (s.objects[f].FutureRows? || s.objects[f].FutureValue?)
    requires k in s.objects
    ensures Kept(s, FutureGet(server, s, f, outcome).0, k) && FutureStays(s, FutureGet(server, s, f, outcome).0, k)
  {
    if s.objects[f].FutureRows? {
      var (s1, ok) := GetResult(s, f, outcome);
      if ok {
        StoreFutureResultInv(server, s, f);
        GetRowsInv(server, s1, f);
        GetRowsKeeps(s1, f, k);
      }
    }
  }

  lemma AcquireKeeps(s: State, async: bool, persist: bool, key: PoolKey, k: ObjectId)
    requires Old(s, k)
    ensures Kept(s, Acquire(s, async, persist, key), k) && Kept(s, Evict(Acquire(s, async, persist, key), key), k)
    ensures FutureStays(s, Acquire(s, async, persist, key), k)
    ensures FutureStays(s, Evict(Acquire(s, async, persist, key), key), k)
  {
  }

  lemma SessionGetKeeps(s: State, h: ObjectId, outcome: Outcome, k: ObjectId)
    requires Old(s, h) && s.objects[h].FutureSession? && Old(s, k)
    ensures Kept(s, SessionGet(s, h, outcome).0, k) && FutureStays(s, SessionGet(s, h, outcome).0, k)
  {
  }

  lemma ExecuteKeeps(server: Server, s: State, h: ObjectId, query: string, token: Option<string>, outcome: Outcome, k: ObjectId)
    requires Old(s, k)
    ensures Kept(s, Execute(server, s, h, query, token, outcome).0, k) && FutureStays(s, Execute(server, s, h, query, token, outcome).0, k)
    ensures Kept(s, ExecuteAsync(server, s, h, query, token).0, k) && FutureStays(s, ExecuteAsync(server, s, h, query, token).0, k)
  {
  }

  predicate PageOp(op: Op) { op.OpNextPage? || op.OpNextPageAsync? || op.OpGet? }

  predicate ConnectOp(op: Op) { op.OpConnect? || op.OpConnectAsync? || op.OpSessionGet? }

  predicate ExecuteOp(op: Op) { op.OpExecute? || op.OpExecuteAsync? || op.OpExecuteBatch? }

  lemma PageOpKeeps(server: Server, s: State, op: Op, k: ObjectId)
    requires Inv(server, s) && Enabled(s, op) && PageOp(op) && k in s.objects
    ensures Kept(s, Step(server, s, op).0, k)
    ensures op != OpNextPageAsync(k) ==> FutureStays(s, Step(server, s, op).0, k)
  {
    match op
    case OpNextPage(h, outcome) => NextPageKeeps(server, s, h, outcome, k);
    case OpNextPageAsync(h) => NextPageAsyncKeeps(server, s, h, k);
    case OpGet(h, outcome) => FutureGetKeeps(server, s, h, outcome, k);
  }

  lemma ConnectOpKeeps(server: Server, s: State, op: Op, k: ObjectId)
    requires Inv(server, s) && Enabled(s, op) && ConnectOp(op) && k in s.objects
    ensures Kept(s, Step(server, s, op).0, k) && FutureStays(s, Step(server, s, op).0, k)
  {
    match op
    case OpConnect(persist, key, _) => AcquireKeeps(s, false, persist, key, k);
    case OpConnectAsync(persist, key) => AcquireKeeps(s, true, persist, key, k);
    case OpSessionGet(h, outcome) => SessionGetKeeps(s, h, outcome, k);
  }

  lemma ExecuteOpKeeps(server: Server, s: State, op: Op, k: ObjectId)
    requires Inv(server, s) && Enabled(s, op) && ExecuteOp(op) && k in s.objects
    ensures Kept(s, Step(server, s, op).0, k) && FutureStays(s, Step(server, s, op).0, k)
  {
    match op
    case OpExecute(h, query, token, outcome) => ExecuteKeeps(server, s, h, query, token, outcome, k);
    case OpExecuteAsync(h, query, token) => ExecuteKeeps(server, s, h, query, token, Ok, k);
    case OpExecuteBatch(_, _, _) =>
  }

  lemma ReleaseOpKeeps(server: Server, s: State, op: Op, k: ObjectId)
    requires Inv(server, s) && Enabled(s, op) && k in s.objects
    requires op.OpClose? || op.OpListDelete? || (op.OpFree? && op.h != k)
    ensures Kept(s, Step(server, s, op).0, k) && FutureStays(s, Step(server, s, op).0, k)
  {
    match op
    case OpFree(h) => FreeKeeps(server, s, h, k);
    case OpClose(h) => CloseInv(server, s, h); SameObjectsKeep(s, Close(s, h), k);
    case OpListDelete(key) => SameObjectsKeep(s, Evict(s, key), k);
  }

  lemma SameObjectsKeep(s: State, s': State, k: ObjectId)
    requires k in s.objects && s'.objects == s.objects
    ensures Kept(s, s', k) && FutureStays(s, s', k)
  {
  }

  lemma FreeKeeps(server: Server, s: State, h: ObjectId, k: ObjectId)
    requires Inv(server, s) && h in s.objects && k in s.objects && k != h
    ensures Kept(s, Free(s, h), k) && FutureStays(s, Free(s, h), k)
  {
    FreeFields(server, s, h);
  }

  /** No operation changes which page, promise or session a live object stands for; only
      `nextPageAsync` on the object itself stores a future in it. */
  lemma StepKeepsCores(server: Server, s: State, op: Op, k: ObjectId)
    requires Inv(server, s) && k in s.objects && op != OpFree(k)
    ensures Kept(s, Step(server, s, op).0, k)
    ensures op != OpNextPageAsync(k) ==> FutureStays(s, Step(server, s, op).0, k)
  {
    if Enabled(s, op) {
      if PageOp(op) {
        PageOpKeeps(server, s, op, k);
      } else if ConnectOp(op) {
        ConnectOpKeeps(server, s, op, k);
      } else if ExecuteOp(op) {
        ExecuteOpKeeps(server, s, op, k);
      } else {
        ReleaseOpKeeps(server, s, op, k);
      }
    }
  }

  lemma {:induction false} RunKeepsCores(server: Server, s: State, ops: seq<Op>, k: ObjectId)
    requires Inv(server, s) && k in s.objects && OpFree(k) !in ops
    ensures Kept(s, Run(server, s, ops), k)
    decreases |ops|
  {
    if ops != [] {
      StepInv(server, s, ops[0]);
      StepKeepsCores(server, s, ops[0], k);
      var s1 := Step(server, s, ops[0]).0;
      RunKeepsCores(server, s1, ops[1..], k);
      KeptTrans(s, s1, Run(server, s1, ops[1..]), k);
    }
  }

  // ---- the documented loop `while ($result) { ...; $result = $result->nextPage(); }` -------

  /** The page after `o` is there and can be decoded; if it cannot, the loop ends with an exception. */
  ghost predicate GoesOn(server: Server, o: Origin) {
    o.page.hasMore && Successor(server, o).page.decodable
  }

  /** At most `n` pages follow the page in `o`. */
  ghost predicate ChainEnds(server: Server, o: Origin, n: nat)
    decreases n
  {
    GoesOn(server, o) ==> n > 0 && ChainEnds(server, Successor(server, o), n - 1)
  }

  /** The rows of the page in `o` and of every page after it, straight from the server. */
  ghost function ChainRows(server: Server, o: Origin, n: nat): seq<seq<string>>
    requires ChainEnds(server, o, n)
    decreases n
  {
    [o.page.rows] + (if GoesOn(server, o) then ChainRows(server, Successor(server, o), n - 1) else [])
  }

  /** The rows the loop sees, started on page object `h`. Between two calls of `nextPage` the
      operations `between[i]` run; the loop stops if its current object is taken away. */
  ghost function LoopRows(server: Server, s: State, h: ObjectId, between: seq<seq<Op>>): seq<seq<string>>
    requires IsRows(server, s, h)
    decreases |between|
  {
    NextPageCorrect(server, s, h, Ok);
    var (s1, ret) := NextPage(server, s, h, Ok);
    [s.objects[h].rows] +
    if ret.Object? && between != [] then
      var s2 := Run(server, s1, between[0]);
      if ret.id in s2.objects && s2.objects[ret.id].Rows? then LoopRows(server, s2, ret.id, between[1..]) else []
    else []
  }

  /** Nobody frees the object the loop variable holds. */
  ghost predicate Holds(server: Server, s: State, h: ObjectId, between: seq<seq<Op>>)
    requires IsRows(server, s, h)
    decreases |between|
  {
    NextPageCorrect(server, s, h, Ok);
    var (s1, ret) := NextPage(server, s, h, Ok);
    ret.Object? && between != [] ==>
      OpFree(ret.id) !in between[0] &&
      (RunKeepsCores(server, s1, between[0], ret.id);
       Holds(server, Run(server, s1, between[0]), ret.id, between[1..]))
  }

  /** For every finite chain of server pages the loop yields every page once and in order, and
      then ends, whatever other calls on any page objects of the same statement run in between. */
  lemma {:induction false} LoopSeesChain(server: Server, s: State, h: ObjectId, between: seq<seq<Op>>, n: nat)
    requires IsRows(server, s, h) && ChainEnds(server, s.objects[h].origin, n)
    requires |between| >= n && Holds(server, s, h, between)
    ensures LoopRows(server, s, h, between) == ChainRows(server, s.objects[h].origin, n)
    decreases n
  {
    assert ObjectOk(server, s.objects, s.fields, h);
    NextPageCorrect(server, s, h, Ok);
    var (s1, ret) := NextPage(server, s, h, Ok);
    if GoesOn(server, s.objects[h].origin) {
      RunKeepsCores(server, s1, between[0], ret.id);
      LoopSeesChain(server, Run(server, s1, between[0]), ret.id, between[1..], n - 1);
    }
  }

  // ---- the three ways to the next page agree --------------------------------------------

  /** `Rows::isLastPage`. */
  predicate IsLastPage(s: State, h: ObjectId)
    requires h in s.objects && s.objects[h].Rows?
  {
    Field(h, Result) !in s.fields && s.objects[h].nextRows.None? && s.objects[h].futureNextPage.None?
  }

  /** In every reachable state `isLastPage` answers whether the server has a page after this one,
      and agrees with `nextPage` returning null. */
  lemma IsLastPageCorrect(server: Server, s: State, h: ObjectId)
    requires IsRows(server, s, h)
    ensures IsLastPage(s, h) <==> !s.objects[h].origin.page.hasMore
    ensures IsLastPage(s, h) <==> Field(h, Result) !in s.fields
    ensures IsLastPage(s, h) <==> NextPage(server, s, h, Ok).1 == Null
  {
    assert ObjectOk(server, s.objects, s.fields, h);
    NextPageCorrect(server, s, h, Ok);
  }

  /** `nextPageAsync` followed by `get` on its future. */
  ghost function AsyncThenGet(server: Server, s: State, h: ObjectId): (r: (State, Ret))
    requires IsRows(server, s, h)
  {
    NextPageAsyncCorrect(server, s, h);
    var (s1, ret) := NextPageAsync(server, s, h);
    if ret.Object? then FutureGet(server, s1, ret.id, Ok) else (s1, ret)
  }

  /** The page after this one is there and cannot be decoded. */
  ghost predicate NextUndecodable(server: Server, o: Origin) {
    o.page.hasMore && !Successor(server, o).page.decodable
  }

  /** Without failures of the native driver in these calls, the asynchronous path gives what
      `nextPage` gives: null exactly on the last page, a page object for the same page, or the
      exception of a page that cannot be decoded. The one exception: if the object keeps an empty
      future, made by an earlier `nextPageAsync` that raised, the asynchronous path gives null where
      `nextPage` raises. */
  lemma PathsAgree(server: Server, s: State, h: ObjectId)
    requires IsRows(server, s, h)
    ensures var (s', ret) := AsyncThenGet(server, s, h);
            && Inv(server, s')
            && (if NextUndecodable(server, s.objects[h].origin) && HoldsEmptyFuture(s, h) then ret == Null
                else RightSuccessor(server, s.objects[h].origin, s', ret))
    ensures RightSuccessor(server, s.objects[h].origin, NextPage(server, s, h, Ok).0, NextPage(server, s, h, Ok).1)
    ensures HoldsEmptyFuture(s, h) ==> NextUndecodable(server, s.objects[h].origin)
  {
    assert ObjectOk(server, s.objects, s.fields, h);
    NextPageCorrect(server, s, h, Ok);
    NextPageAsyncCorrect(server, s, h);
    var (s1, ret) := NextPageAsync(server, s, h);
    if ret.Object? { FutureGetCorrect(server, s1, ret.id, Ok); }
  }

  /** How an object comes to keep an empty future: `nextPageAsync` is called when the result of an
      undecodable successor is there, as after a `nextPage`. That call raises. From then on, over
      every run, `nextPage` keeps raising and the asynchronous path gives null. */
  lemma EmptyFutureStays(server: Server, s: State, h: ObjectId, ops: seq<Op>)
    requires IsRows(server, s, h) && NextUndecodable(server, s.objects[h].origin)
    requires s.objects[h].futureNextPage.None? && Field(h, NextResult) in s.fields
    requires OpFree(h) !in ops
    ensures var (s1, ret) := NextPageAsync(server, s, h);
            && ret == Undecodable && Inv(server, s1)
            && var s2 := Run(server, s1, ops);
            && IsRows(server, s2, h) && s2.objects[h].origin == s.objects[h].origin
            && AsyncThenGet(server, s2, h).1 == Null && NextPage(server, s2, h, Ok).1 == Undecodable
  {
    NextPageAsyncCorrect(server, s, h);
    var s1 := NextPageAsync(server, s, h).0;
    RunKeepsCores(server, s1, ops, h);
    var s2 := Run(server, s1, ops);
    EmptyFutureKept(server, s1, ops, h);
    PathsAgree(server, s2, h);
  }

  /** The only way to such a future: a step leaves an object with an empty future only if it is a
      `nextPageAsync` on that object, and raises. So a caller knows of it from an earlier exception. */
  lemma EmptyFutureOnlyByRaising(server: Server, s: State, op: Op, h: ObjectId)
    requires IsRows(server, s, h) && !HoldsEmptyFuture(s, h) && HoldsEmptyFuture(Step(server, s, op).0, h)
    ensures op == OpNextPageAsync(h) && Step(server, s, op).1 == Undecodable
  {
    var s' := Step(server, s, op).0;
    assert ObjectOk(server, s.objects, s.fields, h);
    if op == OpNextPageAsync(h) {
      NextPageAsyncCorrect(server, s, h);
    } else if op == OpFree(h) {
      if Enabled(s, op) { FreeFields(server, s, h); }
    } else {
      StepKeepsCores(server, s, op, h);
      EmptyTargetOld(server, s, op, h);
    }
  }

  /** A future that an object already keeps does not become empty later. */
  lemma EmptyTargetOld(server: Server, s: State, op: Op, h: ObjectId)
    requires IsRows(server, s, h) && FutureStays(s, Step(server, s, op).0, h) && HoldsEmptyFuture(Step(server, s, op).0, h)
    ensures HoldsEmptyFuture(s, h)
  {
    assert ObjectOk(server, s.objects, s.fields, h);
    var f := s.objects[h].futureNextPage.value;
    if op == OpFree(f) {
      assert Refers(s.objects[h], f);
      assert !Enabled(s, op);
    } else {
      StepKeepsCores(server, s, op, f);
    }
  }

  /** A server with two pages, the second of which cannot be decoded. */
  function BrokenServer(query: string, token: Option<string>): Page {
    if token.None? then Page(["row"], true, "next", true) else Page(["broken"], false, "", false)
  }

  const BrokenRun := [OpConnect(false, PoolKey("c"), Ok), OpExecute(0, "q", None, Ok), OpNextPage(1, Ok), OpNextPageAsync(1)]

  lemma BrokenRunUnfolds()
    ensures var server := BrokenServer;
            && Inv(server, Initial)
            && var s1 := Step(server, Initial, BrokenRun[0]).0;
            && Inv(server, s1)
            && var s2 := Step(server, s1, BrokenRun[1]).0;
            && Inv(server, s2)
            && var s3 := Step(server, s2, BrokenRun[2]).0;
            && Inv(server, s3)
            && Inv(server, Step(server, s3, BrokenRun[3]).0)
            && Reach(server, BrokenRun) == Step(server, s3, BrokenRun[3]).0
  {
    var server := BrokenServer;
    InitialInv(server);
    RunStep(server, Initial, BrokenRun[0], BrokenRun[1..]);
    var s1 := Step(server, Initial, BrokenRun[0]).0;
    RunStep(server, s1, BrokenRun[1], BrokenRun[2..]);
    var s2 := Step(server, s1, BrokenRun[1]).0;
    RunStep(server, s2, BrokenRun[2], BrokenRun[3..]);
    var s3 := Step(server, s2, BrokenRun[2]).0;
    RunStep(server, s3, BrokenRun[3], []);
    assert BrokenRun == [BrokenRun[0]] + BrokenRun[1..];
    assert BrokenRun[1..] == [BrokenRun[1]] + BrokenRun[2..];
    assert BrokenRun[2..] == [BrokenRun[2]] + BrokenRun[3..];
    assert BrokenRun[3..] == [BrokenRun[3]] + [];
  }

  /** `nextPage`, then `nextPageAsync`, on an object whose successor cannot be decoded. */
  lemma TwoCallsLeaveEmptyFuture(server: Server, s: State, h: ObjectId)
    requires IsRows(server, s, h) && NextUndecodable(server, s.objects[h].origin) && s.objects[h].futureNextPage.None?
    ensures var (s1, ret) := NextPage(server, s, h, Ok);
            && ret == Undecodable && IsRows(server, s1, h)
            && var (s2, ret') := NextPageAsync(server, s1, h);
            ret' == Undecodable && IsRows(server, s2, h) && HoldsEmptyFuture(s2, h)
            && s2.objects[h].origin == s.objects[h].origin
  {
    NextPageCorrect(server, s, h, Ok);
    NextPageAsyncCorrect(server, NextPage(server, s, h, Ok).0, h);
  }

  lemma BrokenExecute()
    ensures var server := BrokenServer;
            && Inv(server, Initial)
            && var s1 := Step(server, Initial, BrokenRun[0]).0;
            && Inv(server, s1)
            && var s2 := Step(server, s1, BrokenRun[1]).0;
            && IsRows(server, s2, 1) && s2.objects[1].origin == Origin("q", server("q", None))
            && s2.objects[1].futureNextPage.None?
  {
    var server := BrokenServer;
    InitialInv(server);
    StepInv(server, Initial, BrokenRun[0]);
    BrokenConnect();
    var s1 := Step(server, Initial, BrokenRun[0]).0;
    ExecuteInv(server, s1, 0, "q", None, Ok);
    assert Step(server, s1, BrokenRun[1]) == Execute(server, s1, 0, "q", None, Ok);
  }

  lemma BrokenConnect()
    ensures Inv(BrokenServer, Initial)
    ensures var s1 := Step(BrokenServer, Initial, BrokenRun[0]).0;
            0 in s1.objects && s1.objects[0] == SessionHandle(false) && s1.nextObject == 1
  {
    InitialInv(BrokenServer);
    assert Step(BrokenServer, Initial, BrokenRun[0]) == Connect(Initial, false, PoolKey("c"), Ok);
  }

  /** A run that reaches such a state: connect, execute, `nextPage`, `nextPageAsync`. Then `nextPage`
      raises, and `nextPageAsync` followed by `get` gives null although there is a further page. */
  lemma PathsDisagreeWitness()
    ensures var server := BrokenServer;
            var s := Reach(server, BrokenRun);
            && IsRows(server, s, 1) && s.objects[1].origin.page.hasMore && HoldsEmptyFuture(s, 1)
            && NextPage(server, s, 1, Ok).1 == Undecodable && AsyncThenGet(server, s, 1).1 == Null
  {
    var server := BrokenServer;
    BrokenRunUnfolds();
    BrokenExecute();
    var s2 := Step(server, Step(server, Initial, BrokenRun[0]).0, BrokenRun[1]).0;
    TwoCallsLeaveEmptyFuture(server, s2, 1);
    PathsAgree(server, Reach(server, BrokenRun), 1);
  }

  /** The future an object keeps cannot be freed while the object lives. */
  lemma {:induction false} EmptyFutureKept(server: Server, s: State, ops: seq<Op>, h: ObjectId)
    requires Inv(server, s) && HoldsEmptyFuture(s, h) && OpFree(h) !in ops
    ensures HoldsEmptyFuture(Run(server, s, ops), h)
    decreases |ops|
  {
    if ops != [] {
      var f := s.objects[h].futureNextPage.value;
      StepInv(server, s, ops[0]);
      StepKeepsCores(server, s, ops[0], h);
      if ops[0] == OpFree(f) {
        assert Refers(s.objects[h], f);
        assert !Enabled(s, ops[0]);
      } else {
        StepKeepsCores(server, s, ops[0], f);
      }
      EmptyFutureKept(server, Step(server, s, ops[0]).0, ops[1..], h);
    }
  }

  /** `executeAsync` followed by `get` gives the page the server gives for the query and the starting
      token, or the exception of a page that cannot be decoded. */
  lemma ExecuteAsyncThenGet(server: Server, s: State, h: ObjectId, query: string, token: Option<string>)
    requires IsSession(server, s, h)
    ensures var (s1, future) := ExecuteAsync(server, s, h, query, token);
            && future.Object? && future.id in s1.objects && s1.objects[future.id].FutureRows? && Inv(server, s1)
            && var (s2, ret) := FutureGet(server, s1, future.id, Ok);
            && Inv(server, s2)
            && (if server(query, token).decodable then
                  ret.Object? && IsPage(s2.objects, Some(ret.id), Origin(query, server(query, token)))
                else ret == Undecodable)
  {
    ExecuteAsyncInv(server, s, h, query, token);
    var (s1, future) := ExecuteAsync(server, s, h, query, token);
    FutureGetCorrect(server, s1, future.id, Ok);
  }

  /** A page object issues one fetch beyond the ones that failed, and that one only if its
      successor was asked for: repeated `nextPage` and `nextPageAsync` calls reuse it. */
  lemma OneFetchPerPage(server: Server, s: State, h: ObjectId)
    requires IsRows(server, s, h)
    ensures var o := s.objects[h];
            && o.history.failed <= o.history.issued <= o.history.failed + 1
            && (o.history.issued == o.history.failed + 1 <==>
                  Field(h, NextResult) in s.fields || o.futureNextPage.Some?)
  {
    assert ObjectOk(server, s.objects, s.fields, h);
  }

  /** "Unexpected future instance" cannot happen: a `FutureValue` is stored only once the
      successor result is there, so `nextPage` never meets one. */
  lemma NoUnexpectedFuture(server: Server, s: State, h: ObjectId, outcome: Outcome)
    requires IsRows(server, s, h)
    ensures NextPage(server, s, h, outcome).1 != UnexpectedFuture
    ensures var f := s.objects[h].futureNextPage;
            f.Some? && f.value in s.objects && s.objects[f.value].FutureValue? ==> Field(h, NextResult) in s.fields
  {
    assert ObjectOk(server, s.objects, s.fields, h);
    NextPageCorrect(server, s, h, outcome);
  }
}
