/**
 Iterating over a map or a set while its entries are removed and added (ext/src/Map.c,
 ext/src/Set.c). The object keeps two entry pointers: `iter_curr`, the entry `current` reads, and
 `iter_temp`, the one `next` goes to, which a removal moves on when it hits that very entry.
 */
module Iteration {
  import opened Options
  import opened Hashing
  import opened Tables
  import opened TableRuns

  datatype Cursor = Cursor(curr: Option<Id>, temp: Option<Id>)

  /** The entry linked after `id`. */
  function NextAfter(order: seq<Id>, id: Id): (r: Option<Id>)
    ensures r.Some? ==> r.value in order
  {
    if order == [] then None
    else if order[0] == id then (if |order| > 1 then Some(order[1]) else None)
    else NextAfter(order[1..], id)
  }

  function First(order: seq<Id>): Option<Id> { if order == [] then None else Some(order[0]) }

  /** `rewind`. */
  function Rewind(order: seq<Id>): Cursor {
    Cursor(First(order), if order == [] then None else NextAfter(order, order[0]))
  }

  /** `next`. */
  function Next(order: seq<Id>, c: Cursor): Cursor {
    Cursor(c.temp, if c.temp.Some? then NextAfter(order, c.temp.value) else None)
  }

  /** What a call in the loop body does to `iter_temp`. */
  function TempAfter<V>(t: Table<V>, temp: Option<Id>, op: Op<V>): Option<Id>
    requires Chained(t)
  {
    if op.DropOp? && temp.Some? && Find(t, op.key) == temp then NextAfter(t.order, temp.value) else temp
  }

  // ---- the entries still to be visited -------------------------------------------------------

  function SuffixAt(order: seq<Id>, id: Id): seq<Id> {
    if order == [] || order[0] == id then order else SuffixAt(order[1..], id)
  }

  /** The entries `next` will still reach if nothing changes. */
  function Pending(order: seq<Id>, temp: Option<Id>): seq<Id> {
    if temp.None? then [] else SuffixAt(order, temp.value)
  }

  lemma {:induction false} SuffixStarts(order: seq<Id>, id: Id)
    requires id in order && Sorted(order)
    ensures var p := SuffixAt(order, id);
            && p != [] && p[0] == id && Sorted(p)
            && (forall x :: x in p <==> x in order && x >= id)
  {
    if order[0] != id {
      SuffixStarts(order[1..], id);
      assert order[0] < id;
      assert order == [order[0]] + order[1..];
    }
  }

  /** `next` visits the first pending entry and leaves the rest pending. */
  lemma {:induction false} NextPending(order: seq<Id>, id: Id)
    requires id in order && Sorted(order)
    ensures SuffixAt(order, id) != []
    ensures Pending(order, NextAfter(order, id)) == SuffixAt(order, id)[1..]
  {
    if order[0] == id {
      if |order| > 1 {
        assert order[0] < order[1];
        assert SuffixAt(order, order[1]) == SuffixAt(order[1..], order[1]) == order[1..];
      }
    } else {
      NextPending(order[1..], id);
      var n := NextAfter(order[1..], id);
      assert n.Some? ==> order[0] != n.value;
    }
  }

  lemma {:induction false} PendingAppend(order: seq<Id>, id: Id, new_: Id)
    requires id in order
    ensures SuffixAt(order + [new_], id) == SuffixAt(order, id) + [new_]
  {
    if order[0] != id {
      assert (order + [new_])[1..] == order[1..] + [new_];
      PendingAppend(order[1..], id, new_);
    }
  }

  /** Removing another entry takes it out of the pending ones and changes nothing else. */
  lemma {:induction false} PendingRemoveOther(order: seq<Id>, id: Id, gone: Id)
    requires id in order && id != gone
    ensures SuffixAt(Without(order, gone), id) == Without(SuffixAt(order, id), gone)
  {
    if order[0] != id {
      PendingRemoveOther(order[1..], id, gone);
    }
  }

  /** Removing the entry `iter_temp` points to: the pointer moves on, the rest stays pending. */
  lemma PendingRemoveTemp(order: seq<Id>, id: Id)
    requires id in order && Sorted(order)
    ensures Pending(Without(order, id), NextAfter(order, id)) == Without(SuffixAt(order, id), id)
  {
    NextPending(order, id);
    SuffixStarts(order, id);
    var p, n := SuffixAt(order, id), NextAfter(order, id);
    assert id !in p[1..];
    WithoutAbsent(p[1..], id);
    if n.Some? {
      SuffixStarts(order, n.value);
      assert p[1..][0] == n.value;
      PendingRemoveOther(order, n.value, id);
    }
  }

  /** `iter_temp` is null or points to a live entry. */
  ghost predicate TempOk<V>(t: Table<V>, temp: Option<Id>) {
    temp.Some? ==> temp.value in t.cells
  }

  /** A removal, an insertion or a new value in the loop body: `iter_temp` stays null or live; the
      pending entries lose exactly the removed one, and gain the inserted one exactly if there were
      any. */
  lemma PendingStep<V>(t: Table<V>, temp: Option<Id>, op: Op<V>)
    requires WellFormed(t) && TempOk(t, temp)
    ensures var t' := Step(t, op);
            var temp' := TempAfter(t, temp, op);
            && TempOk(t', temp')
            && Pending(t'.order, temp') ==
               match op {
                 case PutOp(k, _) =>
                   if Find(t, k).None? && temp.Some? then Pending(t.order, temp) + [t.next]
                   else Pending(t.order, temp)
                 case DropOp(k) =>
                   if Find(t, k).Some? then Without(Pending(t.order, temp), Find(t, k).value)
                   else Pending(t.order, temp)
                 case RebucketOp(_) => Pending(t.order, temp)
               }
  {
    if temp.Some? {
      match op
      case PutOp(k, _) => PendingAppend(t.order, temp.value, t.next);
      case DropOp(k) =>
        var e := Find(t, k);
        if e == temp {
          PendingRemoveTemp(t.order, temp.value);
          NextDiffers(t.order, temp.value);
        } else if e.Some? {
          PendingRemoveOther(t.order, temp.value, e.value);
        }
      case RebucketOp(_) =>
    }
  }

  lemma NextDiffers(order: seq<Id>, id: Id)
    requires id in order && Sorted(order)
    ensures NextAfter(order, id) != Some(id)
  {
    NextPending(order, id);
    SuffixStarts(order, id);
    assert |SuffixAt(order, id)[1..]| < |SuffixAt(order, id)|;
  }

  // ---- the foreach loop ------------------------------------------------------------------------

  datatype Iter<V> = Iter(table: Table<V>, cursor: Cursor)

  /** `x` is still to come in `it`. */
  predicate Coming<V>(it: Iter<V>, x: Id) { x in Pending(it.table.order, it.cursor.temp) }

  ghost predicate IterOk<V>(it: Iter<V>) {
    && WellFormed(it.table) && TempOk(it.table, it.cursor.temp)
    && (it.cursor.curr.Some? ==> it.cursor.curr.value < it.table.next)
    && (it.cursor.curr.None? ==> it.cursor.temp.None?)
    && (forall x: Id {:trigger Coming(it, x)} :: Coming(it, x) ==>
          it.cursor.curr.Some? && it.cursor.curr.value < x)
  }

  /** One call in the loop body. */
  function Call<V>(it: Iter<V>, op: Op<V>): Iter<V>
    requires Chained(it.table)
  {
    Iter(Step(it.table, op), it.cursor.(temp := TempAfter(it.table, it.cursor.temp, op)))
  }

  /** What calls in the loop body keep, for every entry `x`: nothing pending is lost unless it is
      removed, and a removed entry never comes back. */
  ghost predicate Keeps<V>(it: Iter<V>, it': Iter<V>, x: Id) {
    && it'.cursor.curr == it.cursor.curr && it.table.next <= it'.table.next
    && (Coming(it, x) && x in it'.table.cells ==> Coming(it', x))
    && (x in it'.table.cells && x < it.table.next ==> x in it.table.cells)
  }

  /** After a call an entry is pending only if it was pending before or is new. */
  lemma CallPending<V>(it: Iter<V>, op: Op<V>, x: Id)
    requires IterOk(it) && Coming(Call(it, op), x)
    ensures Coming(it, x) || (x == it.table.next && it.cursor.temp.Some?)
  {
    PendingStep(it.table, it.cursor.temp, op);
    if op.DropOp? && Find(it.table, op.key).Some? {
      WithoutMembers(Pending(it.table.order, it.cursor.temp), Find(it.table, op.key).value);
    }
  }

  lemma CallOk<V>(it: Iter<V>, op: Op<V>)
    requires IterOk(it)
    ensures IterOk(Call(it, op))
  {
    StepRefines(it.table, op);
    PendingStep(it.table, it.cursor.temp, op);
    forall x: Id | Coming(Call(it, op), x) ensures it.cursor.curr.Some? && it.cursor.curr.value < x {
      CallPending(it, op, x);
    }
  }

  lemma CallKeeps<V>(it: Iter<V>, op: Op<V>, x: Id)
    requires IterOk(it)
    ensures Keeps(it, Call(it, op), x)
  {
    PendingStep(it.table, it.cursor.temp, op);
    if op.DropOp? && Find(it.table, op.key).Some? {
      WithoutMembers(Pending(it.table.order, it.cursor.temp), Find(it.table, op.key).value);
    }
  }

  /** All calls of one round of the loop body. */
  ghost function Body<V>(it: Iter<V>, ops: seq<Op<V>>): (it': Iter<V>)
    requires IterOk(it)
    ensures IterOk(it')
    decreases |ops|
  {
    if ops == [] then it else CallOk(it, ops[0]); Body(Call(it, ops[0]), ops[1..])
  }

  lemma {:induction false} BodyKeeps<V>(it: Iter<V>, ops: seq<Op<V>>, x: Id)
    requires IterOk(it)
    ensures Keeps(it, Body(it, ops), x)
    decreases |ops|
  {
    if ops != [] {
      CallOk(it, ops[0]);
      CallKeeps(it, ops[0], x);
      var it1 := Call(it, ops[0]);
      BodyKeeps(it1, ops[1..], x);
      KeepsTransitive(it, it1, Body(it1, ops[1..]), x);
    }
  }

  lemma KeepsTransitive<V>(a: Iter<V>, b: Iter<V>, c: Iter<V>, x: Id)
    requires Keeps(a, b, x) && Keeps(b, c, x) && IterOk(a)
    ensures Keeps(a, c, x)
  {
    if Coming(a, x) { PendingLive(a, x); }
  }

  lemma PendingLive<V>(it: Iter<V>, x: Id)
    requires IterOk(it) && Coming(it, x)
    ensures x in it.table.cells
  {
    SuffixStarts(it.table.order, it.cursor.temp.value);
  }

  /** The loop head: `valid` and `current` are called here, and the current entry is live. */
  ghost predicate HeadOk<V>(it: Iter<V>) {
    IterOk(it) && (it.cursor.curr.Some? ==> it.cursor.curr.value in it.table.cells)
  }

  function Advanced<V>(it: Iter<V>): Iter<V> { Iter(it.table, Next(it.table.order, it.cursor)) }

  lemma RewindOk<V>(t: Table<V>)
    requires WellFormed(t)
    ensures var it := Iter(t, Rewind(t.order));
            && HeadOk(it)
            && forall x: Id :: x in t.cells ==> it.cursor.curr == Some(x) || Coming(it, x)
  {
    if t.order != [] {
      var first := t.order[0];
      assert first in t.order;
      NextPending(t.order, first);
      SuffixStarts(t.order, first);
      assert SuffixAt(t.order, first) == t.order == [first] + t.order[1..];
    }
  }

  /** The head of the first round. */
  ghost function Started<V>(t: Table<V>): (it: Iter<V>)
    requires WellFormed(t)
    ensures HeadOk(it)
  {
    RewindOk(t);
    Iter(t, Rewind(t.order))
  }

  lemma AdvancedOk<V>(it: Iter<V>)
    requires IterOk(it)
    ensures HeadOk(Advanced(it))
    ensures forall x: Id :: Coming(it, x) ==> Advanced(it).cursor.curr == Some(x) || Coming(Advanced(it), x)
    ensures Advanced(it).cursor.curr.Some? ==> Coming(it, Advanced(it).cursor.curr.value)
  {
    if it.cursor.temp.Some? {
      var id := it.cursor.temp.value;
      NextPending(it.table.order, id);
      SuffixStarts(it.table.order, id);
      var p := SuffixAt(it.table.order, id);
      assert p == [id] + p[1..];
    }
  }

  datatype Visited = Visited(id: Id, key: Value)

  /** The entries a foreach loop visits from its head on, if its rounds make the calls in `bodies`.
      Reading the current entry is always possible. */
  ghost function Visits<V>(it: Iter<V>, bodies: seq<seq<Op<V>>>): seq<Visited>
    requires HeadOk(it)
    decreases |bodies|
  {
    if it.cursor.curr.None? then []
    else
      var id := it.cursor.curr.value;
      [Visited(id, it.table.cells[id].key)] +
      if bodies == [] then []
      else
        var it1 := Body(it, bodies[0]);
        AdvancedOk(it1);
        Visits(Advanced(it1), bodies[1..])
  }

  /** The table when the loop has ended, or has made all the rounds in `bodies`. */
  ghost function After<V>(it: Iter<V>, bodies: seq<seq<Op<V>>>): Iter<V>
    requires HeadOk(it)
    decreases |bodies|
  {
    if it.cursor.curr.None? || bodies == [] then it
    else
      var it1 := Body(it, bodies[0]);
      AdvancedOk(it1);
      After(Advanced(it1), bodies[1..])
  }

  /** Ids grow along the sequence, from `low` on. */
  ghost predicate Rising(vs: seq<Visited>, low: Id) {
    && (forall i :: 0 <= i < |vs| ==> low <= vs[i].id)
    && (forall i, j :: 0 <= i < j < |vs| ==> vs[i].id < vs[j].id)
  }

  lemma RisingCons(v: Visited, vs: seq<Visited>, low: Id)
    requires Rising(vs, low) && (vs != [] ==> v.id < low)
    ensures Rising([v] + vs, v.id)
  {
  }

  /** Entries are visited in the order of their insertion, and none twice. */
  lemma {:induction false} ForeachInOrder<V>(it: Iter<V>, bodies: seq<seq<Op<V>>>)
    requires HeadOk(it)
    ensures it.cursor.curr.None? ==> Visits(it, bodies) == []
    ensures it.cursor.curr.Some? ==> Rising(Visits(it, bodies), it.cursor.curr.value)
    decreases |bodies|
  {
    if it.cursor.curr.Some? {
      var id := it.cursor.curr.value;
      var v := Visited(id, it.table.cells[id].key);
      if bodies == [] {
        RisingCons(v, [], id);
      } else {
        var it1 := Body(it, bodies[0]);
        BodyKeeps(it, bodies[0], 0);
        AdvancedOk(it1);
        var it2 := Advanced(it1);
        ForeachInOrder(it2, bodies[1..]);
        RisingCons(v, Visits(it2, bodies[1..]), if it2.cursor.curr.Some? then it2.cursor.curr.value else 0);
      }
    }
  }

  ghost predicate VisitedId(vs: seq<Visited>, x: Id) {
    exists i :: 0 <= i < |vs| && vs[i].id == x
  }

  lemma VisitedLater(v: Visited, vs: seq<Visited>, x: Id)
    ensures VisitedId(vs, x) || v.id == x ==> VisitedId([v] + vs, x)
  {
    var all := [v] + vs;
    assert all[0] == v;
    assert forall i :: 0 <= i < |vs| ==> vs[i] == all[i + 1];
  }

  /** No entry that was still to come is skipped: once the loop has ended, it was visited or
      removed. Together with `PendingStep` this covers the entries inserted by the body. */
  lemma {:induction false} ForeachComplete<V>(it: Iter<V>, bodies: seq<seq<Op<V>>>, x: Id)
    requires HeadOk(it) && (it.cursor.curr == Some(x) || Coming(it, x))
    requires After(it, bodies).cursor.curr.None?
    ensures VisitedId(Visits(it, bodies), x) || x !in After(it, bodies).table.cells
    decreases |bodies|
  {
    if it.cursor.curr == Some(x) {
      assert Visits(it, bodies)[0].id == x;
    } else {
      PendingLive(it, x);
      var it1 := Body(it, bodies[0]);
      BodyKeeps(it, bodies[0], x);
      AdvancedOk(it1);
      if Coming(it1, x) {
        ForeachComplete(Advanced(it1), bodies[1..], x);
        var id := it.cursor.curr.value;
        VisitedLater(Visited(id, it.table.cells[id].key), Visits(Advanced(it1), bodies[1..]), x);
      } else {
        GoneStaysGone(Advanced(it1), bodies[1..], x);
      }
    }
  }

  /** A removed entry never comes back under its id. */
  lemma {:induction false} GoneStaysGone<V>(it: Iter<V>, bodies: seq<seq<Op<V>>>, x: Id)
    requires HeadOk(it) && x !in it.table.cells && x < it.table.next
    ensures x !in After(it, bodies).table.cells
    decreases |bodies|
  {
    if it.cursor.curr.Some? && bodies != [] {
      var it1 := Body(it, bodies[0]);
      BodyKeeps(it, bodies[0], x);
      AdvancedOk(it1);
      GoneStaysGone(Advanced(it1), bodies[1..], x);
    }
  }

  /** A whole foreach loop over a table: every entry that is there at the start is visited, unless
      the loop removes it; no entry is visited twice. */
  lemma ForeachCorrect<V>(t: Table<V>, bodies: seq<seq<Op<V>>>, x: Id)
    requires WellFormed(t) && x in t.cells && After(Started(t), bodies).cursor.curr.None?
    ensures VisitedId(Visits(Started(t), bodies), x) || x !in After(Started(t), bodies).table.cells
    ensures var vs := Visits(Started(t), bodies);
            forall i, j :: 0 <= i < j < |vs| ==> vs[i].id < vs[j].id
  {
    RewindOk(t);
    ForeachComplete(Started(t), bodies, x);
    ForeachInOrder(Started(t), bodies);
  }
}
