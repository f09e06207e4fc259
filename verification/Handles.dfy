/**
 Ownership of native handles while a request is built, sent and answered (ext/src/DefaultSession.c,
 and the fetch in ext/src/Rows.c). What the native driver and the server do is given to each
 operation as a script of outcomes.
 */
module Handles {
  import opened Options

  datatype Kind = Statement | Batch | Future | Result

  datatype Handle = Handle(kind: Kind, id: nat)

  /** The native driver's handles. Freeing or using a handle demands that it is live, so a double
      free or a use after free does not verify. */
  class NativeDriver {
    var live: set<Handle>
    var freed: seq<Handle>
    var next: nat

    /** Every handle made so far is live or was freed, exactly once. */
    ghost predicate Valid()
      reads this
    {
      && (forall h :: h in live ==> h.id < next && h !in freed)
      && (forall i :: 0 <= i < |freed| ==> freed[i].id < next)
      && (forall i, j :: 0 <= i < j < |freed| ==> freed[i] != freed[j])
      && (forall id: nat :: id < next ==> Accounted(live, freed, id))
    }

    constructor ()
      ensures Valid() && live == {} && freed == []
    {
      live, freed, next := {}, [], 0;
    }

    method New(kind: Kind) returns (h: Handle)
      requires Valid()
      modifies this
      ensures Valid() && h == Handle(kind, old(next)) && h !in old(live)
      ensures live == old(live) + {h} && freed == old(freed) && next == old(next) + 1
    {
      h := Handle(kind, next);
      live, next := live + {h}, next + 1;
      assert Accounted(live, freed, h.id);
      forall id: nat | id < next - 1 ensures Accounted(live, freed, id) {
        assert Accounted(live - {h}, freed, id);
      }
    }

    /** Any native call that is given the handle. */
    method Use(h: Handle)
      requires Valid() && h in live
    {
    }

    method Free(h: Handle)
      requires Valid() && h in live
      modifies this
      ensures Valid() && live == old(live) - {h} && freed == old(freed) + [h] && next == old(next)
    {
      ghost var l, f := live, freed;
      live, freed := live - {h}, freed + [h];
      forall id: nat | id < next ensures Accounted(live, freed, id) {
        FreedAccounted(l, f, h, id);
      }
    }
  }

  ghost predicate Accounted(live: set<Handle>, freed: seq<Handle>, id: nat) {
    (exists h :: h in live && h.id == id) || (exists h :: h in freed && h.id == id)
  }

  lemma FreedAccounted(live: set<Handle>, freed: seq<Handle>, h: Handle, id: nat)
    requires Accounted(live, freed, id)
    ensures Accounted(live - {h}, freed + [h], id)
  {
    if g :| g in freed && g.id == id {
      assert g in freed + [h];
    } else {
      var g :| g in live && g.id == id;
      if g == h { assert h in freed + [h]; }
    }
  }

  // ---- building a request ----------------------------------------------------------------------

  datatype StatementKind = Simple | Prepared | Unsupported

  /** `bind` is the result of binding the arguments, if there are any. */
  datatype Entry = Entry(kind: StatementKind, bind: Option<bool>)

  /** Results of the setters, for those that are called. */
  datatype Settings = Settings(consistency: bool, serial: Option<bool>, pageSize: Option<bool>,
                               token: Option<bool>, retryPolicy: Option<bool>, timestamp: bool)

  datatype BatchSettings = BatchSettings(consistency: bool, retryPolicy: bool, timestamp: bool)

  predicate Builds(e: Entry) { e.kind != Unsupported && e.bind != Some(false) }

  predicate Succeeds(s: Settings) {
    s.consistency && s.serial != Some(false) && s.pageSize != Some(false) && s.token != Some(false)
    && s.retryPolicy != Some(false) && s.timestamp
  }

  predicate BatchBuilds(entries: seq<Entry>, s: BatchSettings) {
    (forall i :: 0 <= i < |entries| ==> Builds(entries[i])) && s.consistency && s.retryPolicy && s.timestamp
  }

  /** The handle a builder returns is new and the only one it leaves behind. */
  ghost predicate OnlyNew(before: set<Handle>, after: set<Handle>, made: Option<Handle>) {
    match made
    case None => after == before
    case Some(h) => h !in before && after == before + {h}
  }

  /** `create_statement`. */
  method CreateStatement(d: NativeDriver, e: Entry) returns (made: Option<Handle>)
    requires d.Valid()
    modifies d
    ensures d.Valid() && OnlyNew(old(d.live), d.live, made)
    ensures made.Some? <==> Builds(e)
    ensures made.Some? ==> made.value.kind == Statement
  {
    if e.kind == Unsupported { return None; }
    var stmt := d.New(Statement);
    if e.bind.Some? { d.Use(stmt); }
    if e.bind == Some(false) {
      d.Free(stmt);
      return None;
    }
    return Some(stmt);
  }

  /** `create_batch`: each statement is freed as soon as the batch has taken its contents. */
  method CreateBatch(d: NativeDriver, entries: seq<Entry>, s: BatchSettings) returns (made: Option<Handle>)
    requires d.Valid()
    modifies d
    ensures d.Valid() && OnlyNew(old(d.live), d.live, made)
    ensures made.Some? <==> BatchBuilds(entries, s)
    ensures made.Some? ==> made.value.kind == Batch
  {
    var batch := d.New(Batch);
    var i := 0;
    while i < |entries|
      invariant 0 <= i <= |entries| && d.Valid()
      invariant batch !in old(d.live) && d.live == old(d.live) + {batch}
      invariant forall j :: 0 <= j < i ==> Builds(entries[j])
    {
      var stmt := CreateStatement(d, entries[i]);
      if stmt.None? {
        d.Free(batch);
        return None;
      }
      d.Use(batch);
      d.Use(stmt.value);
      d.Free(stmt.value);
      i := i + 1;
    }
    d.Use(batch);
    if !s.consistency {
      d.Free(batch);
      return None;
    }
    d.Use(batch);
    if !s.retryPolicy {
      d.Free(batch);
      return None;
    }
    d.Use(batch);
    if !s.timestamp {
      d.Free(batch);
      return None;
    }
    return Some(batch);
  }

  /** `create_single`: a setter is called only while all before it succeeded. */
  method CreateSingle(d: NativeDriver, e: Entry, s: Settings) returns (made: Option<Handle>)
    requires d.Valid()
    modifies d
    ensures d.Valid() && OnlyNew(old(d.live), d.live, made)
    ensures made.Some? <==> Builds(e) && Succeeds(s)
    ensures made.Some? ==> made.value.kind == Statement
  {
    made := CreateStatement(d, e);
    if made.None? { return; }
    d.Use(made.value);
    var ok := s.consistency;
    if ok && s.serial.Some? { d.Use(made.value); ok := s.serial.value; }
    if ok && s.pageSize.Some? { d.Use(made.value); ok := s.pageSize.value; }
    if ok && s.token.Some? { d.Use(made.value); ok := s.token.value; }
    if ok && s.retryPolicy.Some? { d.Use(made.value); ok := s.retryPolicy.value; }
    if ok { d.Use(made.value); ok := s.timestamp; }
    if !ok {
      d.Free(made.value);
      return None;
    }
  }

  // ---- executing -----------------------------------------------------------------------------------

  datatype Request =
    | Single(entry: Entry, settings: Settings)
    | BatchOf(entries: seq<Entry>, batchSettings: BatchSettings)
    | Unknown

  /** How a fetch ends. */
  datatype Reply = TimedOut | Failed | NoResult | Undecodable | Page(more: bool)

  predicate Sent(r: Request) {
    match r
    case Single(e, s) => Builds(e) && Succeeds(s)
    case BatchOf(es, s) => BatchBuilds(es, s)
    case Unknown => false
  }

  /** The handles a returned `Rows` owns through its refs. */
  datatype Owned = Owned(statement: Option<Handle>, result: Option<Handle>)

  function HandlesOf(o: Owned): set<Handle> {
    (if o.statement.Some? then {o.statement.value} else {}) + (if o.result.Some? then {o.result.value} else {})
  }

  /** `DefaultSession::execute`. Whatever happens, the handles left behind are exactly those the
      returned `Rows` owns: the future is freed once if it was made, and statement, batch and result
      are each freed once or owned, never both. */
  method Execute(d: NativeDriver, request: Request, reply: Reply) returns (rows: Owned)
    requires d.Valid()
    modifies d
    ensures d.Valid()
    ensures d.live == old(d.live) + HandlesOf(rows) && old(d.live) !! HandlesOf(rows)
    ensures rows.statement.Some? == rows.result.Some? == (Sent(request) && request.Single? && reply == Page(true))
    ensures rows.statement.Some? ==> rows.statement.value.kind == Statement && rows.result.value.kind == Result
  {
    rows := Owned(None, None);
    var single, batch := None, None;
    match request {
      case Single(e, s) =>
        single := CreateSingle(d, e, s);
        if single.None? { return; }
        d.Use(single.value);
      case BatchOf(es, s) =>
        batch := CreateBatch(d, es, s);
        if batch.None? { return; }
        d.Use(batch.value);
      case Unknown =>
        return;
    }
    rows := Await(d, single, reply);
    if rows.statement.Some? { return; }
    if batch.Some? { d.Free(batch.value); }
    if single.Some? { d.Free(single.value); }
  }

  /** From the sending of a request to the reading of its result. */
  method Await(d: NativeDriver, single: Option<Handle>, reply: Reply) returns (rows: Owned)
    requires d.Valid() && (single.Some? ==> single.value in d.live && single.value.kind == Statement)
    modifies d
    ensures d.Valid()
    ensures rows.statement.Some? == rows.result.Some? == (single.Some? && reply == Page(true))
    ensures rows.statement.Some? ==>
              && rows.statement == single && rows.result.value.kind == Result
              && rows.result.value !in old(d.live) && d.live == old(d.live) + {rows.result.value}
    ensures rows.statement.None? ==> d.live == old(d.live)
  {
    rows := Owned(None, None);
    var future := d.New(Future);
    d.Use(future);
    if reply.TimedOut? || reply.Failed? {
      d.Free(future);
      return;
    }
    d.Use(future);
    if reply.NoResult? {
      d.Free(future);
      return;
    }
    var result := d.New(Result);
    d.Free(future);
    d.Use(result);
    if reply.Undecodable? {
      d.Free(result);
      return;
    }
    if single.Some? { d.Use(result); }
    if single.Some? && reply.more {
      return Owned(single, Some(result));
    }
    d.Free(result);
  }

  /** `DefaultSession::executeAsync`: the future object owns the native future, and the statement of a
      single request. */
  method ExecuteAsync(d: NativeDriver, request: Request) returns (statement: Option<Handle>, future: Option<Handle>)
    requires d.Valid()
    modifies d
    ensures d.Valid()
    ensures future.Some? <==> Sent(request)
    ensures statement.Some? <==> Sent(request) && request.Single?
    ensures d.live == old(d.live) + HandlesOf(Owned(statement, future))
    ensures old(d.live) !! HandlesOf(Owned(statement, future))
  {
    statement, future := None, None;
    match request {
      case Single(e, s) =>
        statement := CreateSingle(d, e, s);
        if statement.None? { return; }
        d.Use(statement.value);
        var f := d.New(Future);
        future := Some(f);
      case BatchOf(es, s) =>
        var batch := CreateBatch(d, es, s);
        if batch.None? { return; }
        d.Use(batch.value);
        var f := d.New(Future);
        future := Some(f);
        d.Free(batch.value);
      case Unknown =>
    }
  }

  /** The synchronous fetch inside `Rows::nextPage`, with the statement and result the page object
      owns. Its failing branches return without freeing the
      future: a handle is lost exactly when the wait times out or the request fails. */
  method FetchNextResult(d: NativeDriver, own: Owned, reply: Reply) returns (result: Option<Handle>, lost: Option<Handle>)
    requires d.Valid() && own.statement.Some? && own.result.Some? && HandlesOf(own) <= d.live
    modifies d
    ensures d.Valid()
    ensures lost.Some? <==> reply.TimedOut? || reply.Failed?
    ensures result.Some? <==> reply.Undecodable? || reply.Page?
    ensures lost.Some? ==> lost.value.kind == Future
    ensures d.live == old(d.live) + HandlesOf(Owned(result, lost)) && old(d.live) !! HandlesOf(Owned(result, lost))
  {
    result, lost := None, None;
    d.Use(own.statement.value);
    d.Use(own.result.value);
    var future := d.New(Future);
    d.Use(future);
    if reply.TimedOut? || reply.Failed? {
      return None, Some(future);
    }
    d.Use(future);
    if reply.NoResult? {
      d.Free(future);
      return;
    }
    var r := d.New(Result);
    result := Some(r);
    d.Free(future);
  }
}
