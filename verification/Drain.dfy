/**
 Every run can be drained: in every reachable state some object is referred to by no other, so the
 engine can free objects until none is left, and then every handle has been destructed.
 */
module Drain {
  import opened Options
  import opened Refs
  import opened Driver
  import opened Paging
  import opened Sessions
  import opened Pool
  import opened Machine

  /** The page objects and filled futures, which refer to each other. */
  predicate IsLink(o: Object) { o.Rows? || (o.FutureValue? && o.value.Some?) }

  /** References between them go upwards: a page object keeps a future of a later page object. */
  function Rank(h: ObjectId, o: Object): nat {
    if o.FutureValue? && o.value.Some? then 2 * o.value.value else 2 * h + 1
  }

  lemma LinkRises(server: Server, s: State, k: ObjectId, h: ObjectId)
    requires Inv(server, s) && k in s.objects && h in s.objects && Refers(s.objects[k], h)
    requires IsLink(s.objects[h]) && !s.objects[k].FutureSession?
    ensures IsLink(s.objects[k]) && Rank(k, s.objects[k]) < Rank(h, s.objects[h])
  {
    assert ObjectOk(server, s.objects, s.fields, k);
    assert ObjectOk(server, s.objects, s.fields, h);
  }

  /** A non-empty set has an element of least rank. */
  lemma {:induction false} Least(ids: set<ObjectId>, objects: map<ObjectId, Object>) returns (m: ObjectId)
    requires ids != {} && ids <= objects.Keys
    ensures m in ids && forall x :: x in ids ==> Rank(m, objects[m]) <= Rank(x, objects[x])
    decreases |ids|
  {
    var x :| x in ids;
    m := x;
    if ids != {x} {
      assert ids - {x} != {} by { assert exists y :: y in ids && y != x; }
      var y := Least(ids - {x}, objects);
      if Rank(y, objects[y]) < Rank(x, objects[x]) { m := y; }
      assert forall z :: z in ids ==> z == x || z in ids - {x};
    }
  }

  lemma FutureSessionUnreferenced(server: Server, s: State, h: ObjectId)
    requires Inv(server, s) && h in s.objects && s.objects[h].FutureSession?
    ensures Unreferenced(s, h)
  {
    forall k | k in s.objects ensures !Refers(s.objects[k], h) {
      assert ObjectOk(server, s.objects, s.fields, k);
    }
  }

  /** References between objects are acyclic: some object is referred to by no other. */
  lemma SomeUnreferenced(server: Server, s: State) returns (h: ObjectId)
    requires Inv(server, s) && s.objects != map[]
    ensures h in s.objects && Unreferenced(s, h)
  {
    var links := set k | k in s.objects && IsLink(s.objects[k]);
    if k :| k in s.objects && s.objects[k].FutureSession? {
      h := k;
      FutureSessionUnreferenced(server, s, h);
    } else if links != {} {
      h := Least(links, s.objects);
      forall k | k in s.objects ensures !Refers(s.objects[k], h) {
        if Refers(s.objects[k], h) { LinkRises(server, s, k, h); }
      }
    } else {
      assert s.objects.Keys != {};
      h :| h in s.objects;
      forall k | k in s.objects ensures !Refers(s.objects[k], h) {
        assert k !in links;
      }
    }
  }

  /** The number of live objects and list entries. */
  function Size(s: State): nat { |s.objects.Keys| + |s.list.pool.Keys| }

  lemma FreeShrinks(server: Server, s: State, h: ObjectId)
    requires Inv(server, s) && h in s.objects && Unreferenced(s, h)
    ensures Size(Step(server, s, OpFree(h)).0) < Size(s)
  {
    FreeFields(server, s, h);
    assert Free(s, h).objects.Keys == s.objects.Keys - {h};
  }

  lemma ListDeleteShrinks(server: Server, s: State, key: PoolKey)
    requires Inv(server, s) && key in s.list.pool
    ensures Size(Step(server, s, OpListDelete(key)).0) < Size(s)
  {
    var s' := Evict(s, key);
    assert Step(server, s, OpListDelete(key)) == (s', Null);
    assert s'.objects == s.objects && s'.list.pool == s.list.pool - {key};
    EvictCount(s.list.pool, key);
    assert |s.list.pool.Keys| == |s.list.pool| && |s'.list.pool.Keys| == |s'.list.pool|;
  }

  /** Freeing an object or deleting a list entry. */
  predicate IsRelease(op: Op) { op.OpFree? || op.OpListDelete? }

  /** A step the engine may take, as long as anything is left. */
  lemma NextRelease(server: Server, s: State) returns (op: Op)
    requires Inv(server, s) && Size(s) > 0
    ensures IsRelease(op) && Size(Step(server, s, op).0) < Size(s)
  {
    if s.objects.Keys != {} {
      var h := SomeUnreferenced(server, s);
      FreeShrinks(server, s, h);
      op := OpFree(h);
    } else {
      assert s.list.pool.Keys != {};
      var key :| key in s.list.pool.Keys;
      ListDeleteShrinks(server, s, key);
      op := OpListDelete(key);
    }
  }

  lemma NothingLeft(s: State)
    requires Size(s) == 0
    ensures s.objects == map[] && s.list.pool == map[]
  {
    assert s.objects.Keys == {} && s.list.pool.Keys == {};
  }

  /** Freeing unreferenced objects and then deleting list entries empties every reachable state. */
  lemma {:induction false} Drained(server: Server, s: State) returns (ops: seq<Op>)
    requires Inv(server, s)
    ensures Size(Run(server, s, ops)) == 0
    ensures forall i :: 0 <= i < |ops| ==> IsRelease(ops[i])
    decreases Size(s)
  {
    if Size(s) == 0 {
      ops := [];
    } else {
      var op := NextRelease(server, s);
      StepInv(server, s, op);
      var rest := Drained(server, Step(server, s, op).0);
      RunStep(server, s, op, rest);
      ops := [op] + rest;
    }
  }

  /** Every run can be continued, by frees and list deletions the engine may do, to a state in which
      every handle ever wrapped in a ref has been destructed, exactly once. */
  lemma EveryRunDrains(server: Server, ops: seq<Op>) returns (more: seq<Op>)
    ensures forall i :: 0 <= i < |more| ==> IsRelease(more[i])
    ensures var s := Reach(server, ops + more);
            && Guarded(s.log)
            && var heap := HeapOf(s.log);
            heap.refs == map[] && |heap.destructed| == heap.next
  {
    InitialInv(server);
    more := Drained(server, Reach(server, ops));
    RunAppend(server, Initial, ops, more);
    NothingLeft(Reach(server, ops + more));
    NothingLeaks(server, ops + more);
  }
}
