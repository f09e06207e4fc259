/**
 The hash table behind maps and sets: entries linked in insertion order, and bucket chains picked
 by `HASH_FUNCTION` and searched with `HASH_KEYCOMPARE` (ext/util/hash.h). Entries are named by
 ids, which stand for their addresses; an id is never used again.
 */
module Tables {
  import opened Options
  import opened Hashing

  type Id = nat

  datatype Cell<V> = Cell(key: Value, value: V)

  datatype Table<V> = Table(
    cells: map<Id, Cell<V>>,
    order: seq<Id>,
    chains: map<nat, seq<Id>>,
    buckets: nat,
    next: Id)

  /** The bucket of a key; the bucket count is a power of two, so masking the hash is a remainder. */
  function Bucket(k: Value, buckets: nat): nat
    requires buckets > 0
  {
    ValueHash(k) as int % buckets
  }

  function Empty<V>(buckets: nat): Table<V>
    requires buckets > 0
  {
    Rebucket(Table(map[], [], map[], 1, 0), buckets)
  }

  // ---- the invariant -------------------------------------------------------------------------

  ghost predicate Sorted(s: seq<Id>) {
    forall i, j :: 0 <= i < j < |s| ==> s[i] < s[j]
  }

  ghost predicate Ordered<V>(t: Table<V>) {
    && Sorted(t.order)
    && (forall id :: id in t.order <==> id in t.cells)
    && (forall id :: id in t.cells ==> id < t.next)
  }

  /** The chain of a bucket holds entries of that bucket only. */
  ghost predicate ChainOk<V>(cells: map<Id, Cell<V>>, chain: seq<Id>, b: nat, buckets: nat)
    requires buckets > 0
  {
    forall id :: id in chain ==> id in cells && Bucket(cells[id].key, buckets) == b
  }

  ghost predicate Chained<V>(t: Table<V>) {
    && t.buckets > 0
    && (forall b: nat :: b < t.buckets ==> b in t.chains && ChainOk(t.cells, t.chains[b], b, t.buckets))
    && (forall id :: id in t.cells ==> id in t.chains[Bucket(t.cells[id].key, t.buckets)])
  }

  /** No two entries have keys that compare equal. */
  ghost predicate Distinct<V>(cells: map<Id, Cell<V>>) {
    forall i, j :: i in cells && j in cells && i != j ==> Seen(cells[i].key) != Seen(cells[j].key)
  }

  ghost predicate WellFormed<V>(t: Table<V>) {
    Ordered(t) && Chained(t) && Distinct(t.cells)
  }

  lemma EmptyWellFormed<V>(buckets: nat)
    requires buckets > 0
    ensures WellFormed(Empty<V>(buckets))
  {
    var t: Table<V> := Table(map[], [], map[], 1, 0);
    RebucketWellFormed(t, buckets);
  }

  // ---- searching -----------------------------------------------------------------------------

  /** The first entry in `ids` whose key compares equal to `k`. */
  function Scan<V>(cells: map<Id, Cell<V>>, ids: seq<Id>, k: Value): (r: Option<Id>)
    ensures r.Some? ==> r.value in ids && r.value in cells
  {
    if ids == [] then None
    else if ids[0] in cells && ValueCompare(cells[ids[0]].key, k) == 0 then Some(ids[0])
    else Scan(cells, ids[1..], k)
  }

  /** `HASH_FIND_ZVAL`: only the bucket of the key is searched; without buckets there is no entry. */
  function Find<V>(t: Table<V>, k: Value): (r: Option<Id>)
    ensures r.Some? ==> r.value in t.cells
  {
    if t.buckets == 0 || Bucket(k, t.buckets) !in t.chains then None
    else Scan(t.cells, t.chains[Bucket(k, t.buckets)], k)
  }

  lemma {:induction false} ScanCorrect<V>(cells: map<Id, Cell<V>>, ids: seq<Id>, k: Value)
    ensures var r := Scan(cells, ids, k);
            && (r.Some? ==> Seen(cells[r.value].key) == Seen(k))
            && (r.None? ==> forall id :: id in ids && id in cells ==> Seen(cells[id].key) != Seen(k))
    decreases |ids|
  {
    if ids != [] {
      ScanCorrect(cells, ids[1..], k);
      if ids[0] in cells { ValueCompareZero(cells[ids[0]].key, k); }
    }
  }

  /** Keys that compare equal share a bucket: this is where hashing must agree with comparing. */
  lemma SameBucket(a: Value, b: Value, buckets: nat)
    requires buckets > 0 && Seen(a) == Seen(b)
    ensures Bucket(a, buckets) == Bucket(b, buckets)
  {
    ValueCompareZero(a, b);
    HashCoherent(a, b);
  }

  /** A search finds an entry exactly if some entry has a key that compares equal, and then finds
      that one. */
  lemma FindSpec<V>(t: Table<V>, k: Value, id: Id)
    requires WellFormed(t)
    ensures Find(t, k) == Some(id) <==> id in t.cells && Seen(t.cells[id].key) == Seen(k)
  {
    ScanCorrect(t.cells, t.chains[Bucket(k, t.buckets)], k);
    if id in t.cells && Seen(t.cells[id].key) == Seen(k) {
      SameBucket(t.cells[id].key, k, t.buckets);
    }
  }

  lemma FindNone<V>(t: Table<V>, k: Value)
    requires WellFormed(t)
    ensures Find(t, k).None? <==> forall id :: id in t.cells ==> Seen(t.cells[id].key) != Seen(k)
  {
    forall id | id in t.cells && Seen(t.cells[id].key) == Seen(k) ensures Find(t, k) == Some(id) {
      FindSpec(t, k, id);
    }
    if Find(t, k).Some? { FindSpec(t, k, Find(t, k).value); }
  }

  /** Searching one bucket gives the same answer as scanning all entries in insertion order. */
  lemma FindIsLinearScan<V>(t: Table<V>, k: Value)
    requires WellFormed(t)
    ensures Find(t, k) == Scan(t.cells, t.order, k)
  {
    ScanCorrect(t.cells, t.order, k);
    FindNone(t, k);
    var r := Scan(t.cells, t.order, k);
    if r.Some? { FindSpec(t, k, r.value); }
  }

  // ---- changing ------------------------------------------------------------------------------

  /** `HASH_ADD_ZVAL`: last in insertion order, first in its chain. */
  function Append<V>(t: Table<V>, k: Value, v: V): Table<V>
    requires Chained(t)
  {
    var b := Bucket(k, t.buckets);
    Table(t.cells[t.next := Cell(k, v)], t.order + [t.next], t.chains[b := [t.next] + t.chains[b]],
          t.buckets, t.next + 1)
  }

  function Without<T(==)>(s: seq<T>, x: T): seq<T> {
    if s == [] then [] else if s[0] == x then Without(s[1..], x) else [s[0]] + Without(s[1..], x)
  }

  /** `HASH_DEL`. */
  function Remove<V>(t: Table<V>, id: Id): Table<V>
    requires Chained(t) && id in t.cells
  {
    var b := Bucket(t.cells[id].key, t.buckets);
    Table(t.cells - {id}, Without(t.order, id), t.chains[b := Without(t.chains[b], id)], t.buckets, t.next)
  }

  /** A new value in an entry that stays where it is. */
  function Overwrite<V>(t: Table<V>, id: Id, v: V): Table<V>
    requires id in t.cells
  {
    t.(cells := t.cells[id := Cell(t.cells[id].key, v)])
  }

  /** The entries of `ids` that belong to bucket `b`. */
  function Select<V>(cells: map<Id, Cell<V>>, ids: seq<Id>, b: nat, buckets: nat): seq<Id>
    requires buckets > 0
  {
    if ids == [] then []
    else if ids[0] in cells && Bucket(cells[ids[0]].key, buckets) == b then
      [ids[0]] + Select(cells, ids[1..], b, buckets)
    else Select(cells, ids[1..], b, buckets)
  }

  /** More buckets, or the bucket array of a new table: every entry is threaded again. */
  function Rebucket<V>(t: Table<V>, buckets: nat): Table<V>
    requires buckets > 0
  {
    t.(buckets := buckets, chains := map b: nat | b < buckets :: Select(t.cells, t.order, b, buckets))
  }

  lemma {:induction false} WithoutMembers<T>(s: seq<T>, x: T)
    ensures forall y :: y in Without(s, x) <==> y in s && y != x
  {
    if s != [] {
      WithoutMembers(s[1..], x);
      assert s == [s[0]] + s[1..];
    }
  }

  lemma SortedCons(x: Id, s: seq<Id>)
    requires Sorted(s) && forall y :: y in s ==> x < y
    ensures Sorted([x] + s)
  {
    var r := [x] + s;
    assert forall j :: 1 <= j < |r| ==> r[j] == s[j-1] && r[j] in s;
  }

  lemma SortedAppend(s: seq<Id>, x: Id)
    requires Sorted(s) && forall y :: y in s ==> y < x
    ensures Sorted(s + [x])
  {
    var r := s + [x];
    assert forall i :: 0 <= i < |s| ==> r[i] == s[i] && r[i] in s;
  }

  lemma {:induction false} WithoutSorted(s: seq<Id>, x: Id)
    requires Sorted(s)
    ensures Sorted(Without(s, x))
  {
    if s != [] {
      WithoutSorted(s[1..], x);
      WithoutMembers(s[1..], x);
      SortedCons(s[0], Without(s[1..], x));
    }
  }

  lemma {:induction false} SelectMembers<V>(cells: map<Id, Cell<V>>, ids: seq<Id>, b: nat, buckets: nat)
    requires buckets > 0
    ensures forall id :: id in Select(cells, ids, b, buckets) <==>
              id in ids && id in cells && Bucket(cells[id].key, buckets) == b
  {
    if ids != [] {
      SelectMembers(cells, ids[1..], b, buckets);
      assert ids == [ids[0]] + ids[1..];
    }
  }

  lemma AppendWellFormed<V>(t: Table<V>, k: Value, v: V)
    requires WellFormed(t) && Find(t, k).None?
    ensures WellFormed(Append(t, k, v))
  {
    FindNone(t, k);
    AppendChained(t, k, v);
    SortedAppend(t.order, t.next);
  }

  lemma AppendChained<V>(t: Table<V>, k: Value, v: V)
    requires Chained(t) && t.next !in t.cells
    ensures Chained(Append(t, k, v))
  {
    var t' := Append(t, k, v);
    forall c: nat | c < t.buckets ensures ChainOk(t'.cells, t'.chains[c], c, t.buckets) {
      assert ChainOk(t.cells, t.chains[c], c, t.buckets);
    }
    forall id | id in t'.cells ensures id in t'.chains[Bucket(t'.cells[id].key, t.buckets)] {
      if id != t.next { assert id in t.chains[Bucket(t.cells[id].key, t.buckets)]; }
    }
  }

  lemma RemoveWellFormed<V>(t: Table<V>, id: Id)
    requires WellFormed(t) && id in t.cells
    ensures WellFormed(Remove(t, id))
  {
    RemoveChained(t, id);
    WithoutMembers(t.order, id);
    WithoutSorted(t.order, id);
  }

  lemma RemoveChained<V>(t: Table<V>, id: Id)
    requires Chained(t) && id in t.cells
    ensures Chained(Remove(t, id))
  {
    var t' := Remove(t, id);
    var b := Bucket(t.cells[id].key, t.buckets);
    WithoutMembers(t.chains[b], id);
    forall c: nat | c < t.buckets ensures ChainOk(t'.cells, t'.chains[c], c, t.buckets) {
      assert ChainOk(t.cells, t.chains[c], c, t.buckets);
    }
    forall j | j in t'.cells ensures j in t'.chains[Bucket(t'.cells[j].key, t.buckets)] {
      assert j in t.chains[Bucket(t.cells[j].key, t.buckets)];
    }
  }

  lemma OverwriteWellFormed<V>(t: Table<V>, id: Id, v: V)
    requires WellFormed(t) && id in t.cells
    ensures WellFormed(Overwrite(t, id, v))
  {
    var t' := Overwrite(t, id, v);
    forall c: nat | c < t.buckets ensures ChainOk(t'.cells, t'.chains[c], c, t.buckets) {
      assert ChainOk(t.cells, t.chains[c], c, t.buckets);
    }
  }

  lemma RebucketChained<V>(t: Table<V>, buckets: nat)
    requires buckets > 0 && forall id :: id in t.order <==> id in t.cells
    ensures Chained(Rebucket(t, buckets))
  {
    var t' := Rebucket(t, buckets);
    forall b: nat | b < buckets ensures b in t'.chains && ChainOk(t.cells, t'.chains[b], b, buckets) {
      SelectMembers(t.cells, t.order, b, buckets);
    }
    forall id | id in t.cells ensures id in t'.chains[Bucket(t.cells[id].key, buckets)] {
      SelectMembers(t.cells, t.order, Bucket(t.cells[id].key, buckets), buckets);
    }
  }

  lemma RebucketWellFormed<V>(t: Table<V>, buckets: nat)
    requires Ordered(t) && Distinct(t.cells) && buckets > 0
    ensures WellFormed(Rebucket(t, buckets))
  {
    RebucketChained(t, buckets);
  }
}
