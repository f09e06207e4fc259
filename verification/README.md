# Verified model of the PHP driver for Apache Cassandra

This project models the stateful and arithmetical core of the PHP extension for Apache Cassandra in
Dafny 4.11 and proves what its operations keep, compute and lose. Every file belongs to the project;
`dafny verify dfyconfig.toml` checks all of it.

**Paging, sessions and counted references** (`Refs`, `Driver`, `Paging`, `Sessions`, `Pool`,
`SessionKeys`, `Machine`, `Walk`, `PoolRuns`, `Drain`, `Futures`, `Identity`, `ExtensionObject`). Result
pages, their futures, session handles and the persistent session list are one state machine over a table of live objects. Fields that hold counted
refs are slots of a reference-counted heap. A run is any sequence of operations on any objects with
any outcome of the native driver (success, timeout, error, missing result). The server is a parameter:
a function from a query and a paging state to a page. Whether the rows of a page can be decoded is a
property of the page: `php_driver_get_result` (ext/util/result.c) gives the same answer each time it is
called on one result. Paging state is stored in the shared statement and read when the statement is
executed. The class `Extension` performs the
operations in place and reads pointers through the counted heap only.

**Containers** (`Types`, `Hashing`, `HashLaws`, `ValueOrder`, `Tables`, `TableRuns`, `Iteration`,
`Containers`, `Typed`, `ContainerCalls`). Hashing and comparing of values, the order that
comparison gives, the bucketed hash table with its insertion-order list, the two-pointer iterator, the
map, set and tuple objects with their cached hashes, and typed containers as shared mutable objects with
their conversion to native values. Values stored as keys are snapshots: a tuple
that is changed after it became a key is outside the model, as the code gives no guarantee for it.

**Numbers and text** (`Powers`, `Ieee`, `Decimals`, `TwosComplement`, `SmallintGuards`, `Numerals`,
`DecimalText`, `Durations`). IEEE 754 binary64 patterns (sections 3.4 and 5.11 of IEEE 754-2008),
conversion of doubles to decimals, decimal arithmetic on objects that may be aliased, the
two's-complement bytes of varints and decimals, overflow guards, and the text forms of decimals and
durations.

**Handles** (`Handles`). Ownership of native statements, batches, futures and results while a request is
built, sent and answered.

## Findings

Where the code does not do what a caller would expect, the model follows the code and the exact
condition is proved.

- `export_twos_complement` truncates some negative numbers: -384 is written as one byte and reads back as
  -128 (`TwosComplement.RoundTrip`, `TwosComplement.TruncationWitness`).
- `align_decimals` multiplies the stored integer of an operand but keeps its scale, so adding the same
  two objects twice gives different sums (`Decimals.AddAgain`, `Decimals.AddTwice`).
- A decimal whose text has both a dot and an exponent cannot be read back, nor can a zero with an
  exponent (`DecimalText.FormatRoundTrip`); and the reported length of a text with an exponent is one
  too large exactly when the exponent is one less than a power of ten (`DecimalText.ReportedLengthExact`,
  `DecimalText.ReportedLengthWitness`).
- The synchronous fetch in `nextPage` loses the native future exactly on a timeout or an error
  (`Handles.FetchNextResult`, and over runs `Futures.LosesFuture`).
- If the next page cannot be decoded, `nextPage` raises every time. A `nextPageAsync` called when that
  result is already there raises too, but leaves an empty future behind, so every later `nextPageAsync`
  followed by `get` gives null, as it would on the last page (`Walk.PathsAgree`, `Walk.EmptyFutureStays`,
  `Walk.PathsDisagreeWitness`).
- The list key of a persistent session joins cluster key and keyspace with `:session:`. Different clusters
  can share a list key exactly if one cluster key continues the other by `:session`, or by the separator
  and anything; a missing keyspace shares its key with an empty one (`SessionKeys.ClustersCollide`,
  `SessionKeys.KeyOfCluster`, `SessionKeys.CollisionWitness`).
- Tuples compare equal when they hold the same values at different indexes (`Hashing.IndexesIgnored`).
- Comparing values is not always an order. Where two values first differ in a bigint on one side and a
  tuple on the other, each compares greater than the other; on any set of values without such a pair,
  over kinds of types that are not tangled, comparison is a total order (`ValueOrder.ValuesOrdered`,
  `ValueOrder.ClashWitness`).
- Comparing types is not transitive as soon as text and varchar, which compare equal, meet timestamp or
  uuid, whose codes lie between theirs; over all other kinds it is (`ValueOrder.TypesOrdered`).
- Two different sets of one type and size are each greater than the other (`Containers.SetObject.Compare`).
- Maps built in different orders compare equal and can hash differently (`Containers.OrderChangesHash`);
  maps that compare equal and have the same key order hash equal (`Containers.SameOrderSameHash`).
- The minimum of a smallint divided by -1 is stored wrongly (`SmallintGuards.DivExact`,
  `SmallintGuards.DivWitness`).
- A duration with a component at the minimum of its field, or with mixed signs, prints a text that does
  not stand for it (`Durations.PrintReadable`).

## Model

| member | source | states |
|---|---|---|
| `Refs.NewRefCorrect` | ext/util/ref.c:21-31 | a new ref has one holder; every other field sees the handle it saw; the heap invariant is kept |
| `Refs.AddRefCorrect` | ext/util/ref.h:25 | the copy sees the same handle as the original; counts stay exact |
| `Refs.DelRefCorrect` | ext/util/ref.c:33-47 | only this field goes away, and the destructor runs exactly when no other field holds the ref |
| `Refs.HeapSound` | ext/util/ref.c:21-47 | after any run of guarded calls, counts equal holders, no field dangles, destructors ran once, flags agree, and fields see what private copies would show |
| `Refs.NoFieldsNoRefs` | ext/util/ref.c:33-47 | once no field points anywhere, every ref ever made was destructed, exactly once |
| `Machine.StepInv` | ext/src/Rows.c:225-336 | every operation of the whole state machine keeps the invariant of reachable states |
| `Machine.RefCountsExact` | ext/src/Rows.c:507-514 | in every reachable state of every run each count is the number of live fields and list entries on the ref, and every release used the flag of the allocation |
| `Machine.NothingLeaks` | ext/src/FutureRows.c:128-141 | when all objects are freed and the list is empty, every handle wrapped in a ref was destructed once |
| `Drain.SomeUnreferenced` | ext/src/Rows.c:304-316 | references between objects are acyclic: in every non-empty reachable state some object is referred to by no other |
| `Drain.EveryRunDrains` | ext/src/Rows.c:507-519 | every run can be continued, by freeing objects and deleting list entries only, until every handle wrapped in a ref has been destructed, once |
| `Futures.FuturesAccounted` | ext/src/FutureRows.c:139-141 | in every reachable state the native futures of requests that are not freed are exactly those the live future objects keep, each its own, and those that were lost; none was freed twice |
| `Futures.LosesFuture` | ext/src/Rows.c:266-272 | a step loses a future exactly if it is a `nextPage` that has to fetch and times out or fails |
| `Futures.DrainedFutures` | ext/src/FutureRows.c:128-141 | once all objects are freed, the futures that are left are the lost ones |
| `Identity.OneRefPerHandle` | ext/src/DefaultSession.c:690-692 | over every run no two refs wrap the same native session or statement |
| `Identity.ConnectIsNew` | ext/src/DefaultCluster.c:77-80 | in every reachable state a connect that does not find its key gives a session no field held before |
| `Sessions.FreeInv` | ext/src/Rows.c:507-514 | freeing an unreferenced object keeps the invariant of all others |
| `Sessions.FreeFields` | ext/src/FutureRows.c:135-137 | the free function of each class releases every counted field its objects can have, and nothing else |
| `Paging.RowsCreateInv` | ext/src/Rows.c:33-56 | the new page object stands for the page after the given one; the refs it takes keep the invariant |
| `Paging.NextPageCorrect` | ext/src/Rows.c:225-292 | in every reachable state `nextPage` gives null exactly on the last page, otherwise the page the server gives for this object's own result, or the exception if that page cannot be decoded; the driver's error exactly if the call has to wait for the native driver and that does not succeed |
| `Paging.NextPageShares` | ext/src/Rows.c:50-55 | the new page object holds the statement and the session of this one |
| `Paging.NextPageAsyncCorrect` | ext/src/Rows.c:294-336 | the future promises the successor page, and is empty exactly on the last page or when an undecodable successor is there; the call raises exactly when it makes such a future for a page that has more |
| `Paging.FutureGetCorrect` | ext/src/FutureRows.c:31-92 | `get` gives the page its future was made for, or the exception if that page cannot be decoded; the driver's error exactly if no result is kept yet and waiting does not succeed |
| `Paging.FutureGetShares` | ext/src/FutureRows.c:87-91 | the page object holds the statement and the session of the future object |
| `Sessions.ExecuteInv` | ext/src/DefaultSession.c:630-705 | the returned page object stands for the page the server gives for the query and the starting token; an exception exactly if the driver fails or that page cannot be decoded |
| `Sessions.ExecuteShares` | ext/src/DefaultSession.c:690-695 | a page object with more pages holds the new statement and the session of the handle |
| `Sessions.ExecuteAsyncInv` | ext/src/DefaultSession.c:786-803 | the future object promises the page the server gives for the query and the starting token |
| `Walk.RunKeepsCores` | ext/src/Rows.c:225-336 | no run changes which page, promise or session a live object stands for |
| `Walk.LoopSeesChain` | features/README.md:370-375 | for every finite chain of pages the `while ($result)` loop yields every page once, in order, and ends, whatever other calls run in between on objects sharing the statement; a page that cannot be decoded ends it with an exception |
| `Walk.IsLastPageCorrect` | ext/src/Rows.c:207-223 | `isLastPage` is true exactly if the server has no page after this one, exactly if `result` is null, exactly if `nextPage` gives null |
| `Walk.PathsAgree` | ext/src/Rows.c:304-321 | `nextPageAsync` then `get` gives what `nextPage` gives, exactly unless the object keeps an empty future for an undecodable successor, and then null where `nextPage` raises |
| `Walk.EmptyFutureStays` | ext/src/Rows.c:300-316 | `nextPageAsync` on an object whose undecodable successor is there raises, and over every later run the asynchronous path gives null while `nextPage` raises |
| `Walk.EmptyFutureOnlyByRaising` | ext/src/Rows.c:308-316 | a step leaves an object with an empty future only if it is a `nextPageAsync` on that object and raises |
| `Walk.PathsDisagreeWitness` | ext/src/Rows.c:304-316 | connect, execute, `nextPage`, `nextPageAsync` reach such a state |
| `Walk.ExecuteAsyncThenGet` | ext/src/DefaultSession.c:786-803 | `executeAsync` then `get` gives the page for the query and token, or the exception of an undecodable one |
| `Walk.OneFetchPerPage` | ext/src/Rows.c:234-282 | a page object issues at most one fetch beyond those that failed, and only if its successor was asked for |
| `Walk.NoUnexpectedFuture` | ext/src/Rows.c:238-243 | the "Unexpected future instance" branch is unreachable |
| `Pool.ConnectInv` | ext/src/DefaultCluster.c:62-131 | connecting, with any outcome, keeps the invariant of list, counter and refs |
| `Pool.SessionGetInv` | ext/src/FutureSession.c:25-84 | `get` on a session future, with any outcome, keeps it too |
| `Pool.FirstGet` | ext/src/FutureSession.c:48-84 | which outcome of the first `get` gives, keeps, remembers and evicts what |
| `PoolRuns.EntryStable` | ext/src/FutureSession.c:65-75 | in one step a list entry stays with its native session, except in the steps that remove it: a persistent connect or first `get` that fails with an error, and list destruction; a timeout never evicts |
| `PoolRuns.OneSessionPerKey` | ext/src/DefaultCluster.c:62-127 | over any run without such a step, every later persistent connect on the key shares the same native session |
| `PoolRuns.OneSessionPerKeyAsync` | ext/src/DefaultCluster.c:153-200 | the same for `connectAsync` followed by `get` |
| `PoolRuns.GetAgain` | ext/src/FutureSession.c:44-46 | once `get` gave a handle, every later `get` gives that handle, over every run |
| `PoolRuns.PersistentNeverClosed` | ext/src/DefaultSession.c:892-936 | in every reachable state the counter equals the number of entries, and no session that is listed, or held by a persistent handle or session future, was ever asked to close |
| `PoolRuns.CloseEffect` | ext/src/DefaultSession.c:905-908 | closing a persistent handle changes nothing; closing another one closes its own session and never a listed one |
| `PoolRuns.EvictEntry` | ext/php_driver.c:115-127 | deleting a list entry removes that entry and leaves those of other keys alone |
| `SessionKeys.ClustersCollide` | ext/src/DefaultCluster.c:65-66 | which clusters can share a list key: one key is a beginning of the other, followed there by `:session` alone or by the separator |
| `SessionKeys.EqualLengthsDiffer` | ext/src/DefaultCluster.c:65-66 | different cluster keys of one length never share a list key |
| `SessionKeys.KeyOfCluster` | ext/src/DefaultCluster.c:65-66 | on one cluster list keys coincide exactly for the same keyspace, a missing one counting as empty |
| `SessionKeys.CollisionWitness` | ext/src/Cluster/Builder.c:47-62 | two clusters that differ by a final `:session`, whatever comes before it, share a list key |
| `ExtensionObject.Extension.Exact` | ext/util/ref.c:21-47 | in every state the in-place object can be in, each count is the number of fields and list entries on the ref, no field dangles, every destructor ran once with the right flag |
| `ExtensionObject.Extension.NextPage` | ext/src/Rows.c:225-292 | reading pointers through the counted heap, it gives null, the successor page of this object's own result, or the decoding exception; the driver's error exactly if the call has to wait and the driver does not succeed; the new page shares statement and session; counts stay exact |
| `ExtensionObject.Extension.NextPageAsync` | ext/src/Rows.c:294-336 | the same for the future: the successor page is promised, empty on the last page, raised exactly if an undecodable result is there and no future was kept |
| `ExtensionObject.Extension.FutureGet` | ext/src/FutureRows.c:58-92 | gives a page object for the page the future was made for, sharing its statement and session, or raises; the driver's error exactly if no result is kept yet and waiting does not succeed |
| `ExtensionObject.Extension.CreateRows` | ext/src/Rows.c:33-56 | reads `next_result` through the heap, decodes and caches it once, and does what the specified step does |
| `ExtensionObject.Extension.AwaitResult` | ext/src/FutureRows.c:31-56 | stores the result once and reports exactly whether there is one |
| `ExtensionObject.Extension.Execute` | ext/src/DefaultSession.c:630-705 | a page object for the server's answer to query and token, exactly if the driver succeeds and the answer can be decoded |
| `ExtensionObject.Extension.ExecuteAsync` | ext/src/DefaultSession.c:786-803 | a future for the server's answer, sharing the session of the handle |
| `ExtensionObject.Extension.Connect` | ext/src/DefaultCluster.c:62-131 | a persistent handle shares the session of the list entry; an error takes the entry off the list, a timeout never does |
| `ExtensionObject.Extension.Acquire` | ext/src/DefaultCluster.c:153-200 | the new object shares the session of the entry; the counter grows exactly for a new entry; all other entries stay |
| `ExtensionObject.Extension.SessionGet` | ext/src/FutureSession.c:25-84 | the first success gives a handle with the future's session, is kept, and leaves the list alone; a timeout changes nothing; an error of a persistent future evicts the entry and is remembered, of another one changes nothing; later calls give the same handle or the same error |
| `ExtensionObject.Extension.Evict` | ext/php_driver.c:115-127 | the entry is gone, the counter goes down with it, the entries of other keys stay, counts stay exact |
| `ExtensionObject.Extension.Close` | ext/src/DefaultSession.c:892-914 | a persistent handle changes nothing, another one closes its own session, and no listed session is ever closed |
| `ExtensionObject.Extension.Free` | ext/src/Rows.c:507-514 | releasing one by one, the object and all its fields are gone and no other field changed |
| `Types.TypeCompareZero` | ext/util/types.c:383-413 | types compare equal exactly when they are the same at every depth up to the alias varchar = text |
| `Ieee.DoubleTotalOrder` | ext/util/hash.c:73-82 | on all 2^64 patterns the comparison is zero exactly on equal canonical bits, antisymmetric and transitive |
| `Ieee.DoubleOrderNumeric` | ext/util/hash.c:73-82 | it is the numeric order, with every NaN above everything else and -0.0 below +0.0, and nothing more |
| `Ieee.CompareIsRank` | ext/util/hash.c:73-82 | it orders all patterns by one rank: sign and magnitude, with the NaNs as one pattern |
| `ValueOrder.TypesOrdered` | ext/util/types.c:383-413 | on the types over a set of scalar kinds comparison is transitive exactly if the set does not have text and varchar together with timestamp or uuid |
| `ValueOrder.TypeAntisymmetric` | ext/util/types.c:383-413 | types compare the opposite way round at every depth |
| `ValueOrder.TypeSign` | ext/util/types.c:383-413 | different codes decide, except between text and varchar; then the elements, keys before values |
| `ValueOrder.StringSign` | ext/util/hash.c:113-114 | strings compare in lexicographic order, a prefix before its extensions |
| `ValueOrder.ScalarSign` | ext/util/hash.c:96-114 | integers and bigints compare as numbers, doubles by rank, strings in lexicographic order |
| `ValueOrder.TupleSign` | ext/src/Tuple.c:424-452 | tuples compare by type, then by count, then as the first pair of values that differ |
| `ValueOrder.ValueAntisymmetric` | ext/src/Bigint.c:432-433 | comparing the other way round gives the opposite exactly if no bigint meets a tuple where the values first differ |
| `ValueOrder.ValueTransitive` | ext/util/hash.c:84-132 | values that do not clash are in one order, at every depth |
| `ValueOrder.ValuesOrdered` | ext/util/hash.c:84-132 | on any set of values over kinds that are not tangled comparison is a total order exactly if no two of them clash |
| `ValueOrder.ClashWitness` | ext/src/Tuple.c:415-416 | a bigint and a tuple are each greater than the other |
| `Hashing.ValueCompareZero` | ext/util/hash.c:84-132 | values compare equal exactly when they agree up to NaN payloads, type aliases and tuple indexes, at every depth |
| `Hashing.CompareEquivalence` | ext/util/hash.c:84-132 | comparing equal is an equivalence relation |
| `Hashing.HashCoherent` | ext/util/hash.c:34-71 | values that compare equal hash equal, for arbitrarily nested tuples |
| `HashLaws.LongHashesAsBigint` | ext/util/hash.h:58-60 | an integer and a bigint of one value hash equal and never compare equal |
| `HashLaws.BigintHashHalves` | ext/util/hash.h:58-60 | the hash of a 64-bit number is the exclusive or of its halves |
| `HashLaws.EntriesHashAppend` | ext/src/Tuple.c:470-475 | the value set last is combined last |
| `Hashing.IndexesIgnored` | ext/src/Tuple.c:435-452 | {0: 5} and {1: 5} compare equal |
| `Hashing.EntryAtAfterSet` | ext/src/Tuple.c:30-36 | a set index reads back as set; the others keep their values |
| `Hashing.TupleObject.Set` | ext/src/Tuple.c:30-36 | updates one entry and keeps the cached hash honest |
| `Hashing.TupleObject.HashValue` | ext/src/Tuple.c:461-479 | the cached or recomputed hash is the hash of the present contents |
| `Hashing.TupleObject.CompareTo` | ext/src/Tuple.c:403-454 | the loop computes the comparison of the contents |
| `Tables.SameBucket` | ext/util/hash.h:23-27 | keys that compare equal are in the same bucket |
| `Tables.FindSpec` | ext/util/hash.h:33-34 | a search finds an entry exactly if its key compares equal |
| `Tables.FindIsLinearScan` | ext/util/hash.h:23-34 | searching one bucket gives the answer of a scan of all entries |
| `TableRuns.PutRefines` | ext/src/Map.c:26-68 | setting a key updates the finite map, and appends the key to the order exactly if it is new |
| `TableRuns.DropRefines` | ext/src/Map.c:92-119 | removing a key takes it out of the finite map and out of the order |
| `TableRuns.KeysAreDomain` | ext/src/Map.c:26-140 | the order lists the domain of the finite map, each key once |
| `TableRuns.RunRefines` | ext/src/Map.c:26-140 | after any run, with bucket expansion at any time, contents, order and every lookup are those of the specification |
| `Iteration.PendingStep` | ext/src/Map.c:105-116 | `iter_temp` stays null or live; the entries to come lose exactly the removed one and gain an inserted one exactly if there were any |
| `Iteration.NextPending` | ext/src/Map.c:376-381 | `next` visits the first entry to come and leaves the rest |
| `Iteration.ForeachInOrder` | ext/src/Map.c:376-402 | entries are visited in insertion order, none twice, whatever the loop body does |
| `Iteration.ForeachComplete` | ext/src/Map.c:376-402 | an entry still to come is visited unless it is removed |
| `Iteration.ForeachCorrect` | ext/src/Set.c:259-291 | both, for a whole loop over a table |
| `Containers.SetObject.Add` | ext/src/Set.c:26-52 | accepts exactly the valid non-null values; the set gains the value; the table is left alone if an equal element is there |
| `Containers.SetObject.Del` | ext/src/Set.c:55-81 | removes exactly the elements that compare equal and moves the iterator on |
| `Containers.SetObject.Has` | ext/src/Set.c:83-102 | answers membership of the finite set |
| `Containers.SetObject.RewindIteration` | ext/src/Set.c:285-291 | the first entry is current, all others are to come, the index is 0 |
| `Containers.SetObject.NextEntry` | ext/src/Set.c:259-265 | the first entry to come becomes current, the others stay to come; the index counts the steps |
| `Containers.SetObject.Compare` | ext/src/Set.c:419-457 | zero exactly for one type and the same elements, whatever the order of insertion; otherwise the sign of the types, then of the counts |
| `Containers.SetCompareSymmetric` | ext/src/Set.c:449-457 | zero is symmetric although one direction is scanned |
| `Containers.FoundBothWays` | ext/src/Set.c:445-457 | with equal counts, finding every key of one table in the other is having the same keys |
| `Containers.MapObject.Set` | ext/src/Map.c:26-68 | accepts exactly valid non-null keys and values, and updates the finite map |
| `Containers.MapObject.Get` | ext/src/Map.c:70-90 | gives the value of the finite map |
| `Containers.MapObject.Del` | ext/src/Map.c:92-119 | removes exactly the key that compares equal and moves the iterator on |
| `Containers.MapObject.Has` | ext/src/Map.c:121-140 | answers membership in the domain |
| `Containers.MapObject.RewindIteration` | ext/src/Map.c:397-402 | the first entry is current, all others are to come |
| `Containers.MapObject.NextEntry` | ext/src/Map.c:376-381 | the first entry to come becomes current, the others stay to come |
| `Containers.MapObject.HashValue` | ext/src/Map.c:689-709 | the cached or recomputed hash is the hash of the present contents |
| `Containers.MapObject.Compare` | ext/src/Map.c:649-686 | zero exactly for one type, the same keys and values that compare equal under them; otherwise the sign of the types, then of the counts, then of the first entry the other map does not match |
| `Containers.MapCompareSymmetric` | ext/src/Map.c:671-686 | zero is symmetric |
| `Containers.HashOfView` | ext/src/Map.c:689-709 | the hash of a map is a function of its key order and of what comparison sees of it |
| `Containers.SameOrderSameHash` | ext/src/Map.c:689-709 | maps that look the same to comparison and have the same key order hash equal |
| `Containers.OrderChangesHash` | ext/src/Map.c:698-703 | two map objects with the same entries set in different orders compare equal and hash differently |
| `Typed.StepWellTyped` | ext/util/collections.c:38-225 | every insertion or removal, on any container and whoever shares it, keeps all containers well-typed |
| `Typed.RunWellTyped` | ext/src/Collection.c:145-162 | so does every run, and no declared type changes |
| `Typed.ValidIsDeep` | ext/util/collections.c:38-225 | in a well-typed heap the shallow validation of a value makes it well-typed at every depth |
| `Typed.PathsAreShort` | ext/util/collections.c:176-220 | a chain of containers is no longer than the depth of its first type, so none contains itself |
| `Typed.FitsExactly` | ext/util/collections.c:38-225 | the classes that pass validation for a scalar kind are those whose representation the converter reads for it, up to the two classes of uuids |
| `Typed.ConvertObjectSucceeds` | ext/util/collections.c:707-857 | conversion meets no null and no wrong class in a list, set or map, never reaches the default branch, and converts every item in order |
| `Typed.ConvertValueSucceeds` | ext/util/collections.c:281-417 | the same for one value, with null allowed in tuples and user types only |
| `Typed.FromContainer` | ext/util/collections.c:743-776 | the loop computes the specified conversion; type depth bounds the recursion |
| `Typed.AppendValue` | ext/util/collections.c:281-417 | the dispatch on the declared type computes the specified conversion |
| `Typed.Store.CollectionAdd` | ext/src/Collection.c:132-165 | if all values are valid and non-null, each is put at the end under the next free index, in order, and nothing else changes; otherwise nothing at all changes |
| `Typed.Store.TupleSet` | ext/src/Tuple.c:133-160 | exactly if the index is in bounds and the value is valid, the slot has the value, all other items and containers are as they were; otherwise nothing changes |
| `ContainerCalls.ListRemoveEffect` | ext/src/Collection.c:34-43 | removing an index takes out its item only; the others keep their order and indexes |
| `ContainerCalls.MapSetExistingEffect` | ext/src/Map.c:26-68 | setting a key that is there replaces the value behind it and keeps the key |
| `ContainerCalls.UserSetEffect` | ext/src/UserTypeValue.c:144-174 | a field has the new value exactly if it is declared and the value is valid; all other fields stay |
| `ContainerCalls.OthersUntouched` | ext/src/Collection.c:145-162 | a call changes its own container only |
| `ContainerCalls.RunUnique` | ext/src/Tuple.c:30-36 | over every run no two items of a list, tuple or user type share an index or field |
| `Handles.CreateStatement` | ext/src/DefaultSession.c:408-438 | returns the one new handle it leaves behind, or leaves none |
| `Handles.CreateBatch` | ext/src/DefaultSession.c:440-502 | the same, for any number of entries and any failing one |
| `Handles.CreateSingle` | ext/src/DefaultSession.c:504-544 | the same, for any failing setter |
| `Handles.Execute` | ext/src/DefaultSession.c:630-705 | for every outcome the handles left behind are exactly those the returned `Rows` owns; every free and every native call on a handle finds it live |
| `Handles.ExecuteAsync` | ext/src/DefaultSession.c:786-819 | the handles left behind are exactly those of the future object |
| `Handles.FetchNextResult` | ext/src/Rows.c:252-286 | the future is lost exactly on a timeout or an error; otherwise only the result is left |
| `Decimals.Numeric.InitDouble` | ext/src/Decimal.c:238-245 | rejects exactly NaN and the infinities |
| `Decimals.Numeric.FromDouble` | ext/src/Decimal.c:66-140 | the decimal is exactly the double's value, with scale 0 to 1074, and an odd integer whenever the scale is positive |
| `Decimals.Numeric.StripZeros` | ext/src/Decimal.c:109-113 | moving trailing zeros to the exponent keeps the number and ends |
| `Decimals.ScaleMinimal` | ext/src/Decimal.c:120-139 | no smaller scale can represent the number; larger ones have the integer multiplied |
| `Decimals.ConversionInjective` | ext/src/Decimal.c:66-140 | one decimal stands for one number |
| `Decimals.ExactValue` | ext/src/Decimal.c:120-139 | an exact conversion has the real value of the double |
| `Decimals.Numeric.Align` | ext/src/Decimal.c:203-216 | the operand of smaller scale has its integer multiplied and its scale kept |
| `Decimals.Numeric.Add` | ext/src/Decimal.c:320-331 | the result is exactly the sum of the values on entry, also for aliased operands and negative scales; the effect on the operands |
| `Decimals.Numeric.Sub` | ext/src/Decimal.c:347-358 | the same for the difference |
| `Decimals.Numeric.Mul` | ext/src/Decimal.c:374-384 | the product of the values, with the product of the integers and the sum of the scales; operands unchanged |
| `Decimals.AlignedValue` | ext/src/Decimal.c:203-216 | alignment multiplies the value of an operand by the power of ten of the missing digits |
| `Decimals.AlignedKeepsValue` | ext/src/Decimal.c:203-216 | an operand keeps its value exactly if its scale is not the smaller one or it is zero |
| `Decimals.AddAgain` | ext/src/Decimal.c:320-331 | a second addition of the same objects gives the same sum exactly under that condition for both |
| `Decimals.AddTwice` | ext/src/Decimal.c:320-331 | 1 + 0.5 is 1.5, then 10.5 |
| `TwosComplement.RoundTrip` | ext/util/math.c:538-615 | reading back what was written gives the same number exactly for the numbers whose size is not underestimated |
| `TwosComplement.ImportBits` | ext/util/math.c:538-555 | any bytes read as the sum of their bits' weights, the weight of the top bit negative |
| `TwosComplement.ImportBytes` | ext/util/math.c:538-555 | the first byte counts from -128 to 127, the others from 0 to 255, each with the weight of its place |
| `TwosComplement.NegativeShortest` | ext/util/math.c:576-586 | other negative numbers take the fewest bytes that hold them |
| `TwosComplement.PositiveLength` | ext/util/math.c:603-611 | a positive number has a leading zero byte, which is spare exactly if its bits do not fill their bytes |
| `TwosComplement.TruncationWitness` | ext/util/math.c:576-586 | -384 is written as 0x80 and reads back as -128 |
| `SmallintGuards.AddSubExact` | ext/src/Smallint.c:174-178 | for every width up to 16, sum and difference raise exactly when out of range, and are exact otherwise |
| `SmallintGuards.MulExact` | ext/src/Smallint.c:232-237 | the same for the product: division never brings back the factor of a wrapped product |
| `SmallintGuards.IntSuffices` | ext/src/Smallint.c:174-237 | none of these operations overflows the 32-bit `int` it is carried out in |
| `SmallintGuards.DivExact` | ext/src/Smallint.c:267 | the stored quotient is exact except for the minimum divided by -1 |
| `SmallintGuards.DivWitness` | ext/src/Smallint.c:267 | -32768 / -1 is stored as -32768 |
| `DecimalText.FormatRoundTrip` | ext/util/math.c:426-536 | the text of a decimal reads back as the decimal exactly if it has no exponent or a single digit other than zero |
| `DecimalText.PlainReadable` | ext/util/math.c:239-414 | every text without exponent reads back |
| `DecimalText.ScientificReadable` | ext/util/math.c:350-378 | a text with exponent reads back for one non-zero digit and is rejected otherwise |
| `DecimalText.ExponentWritten` | ext/util/math.c:458-503 | an exponent is written exactly for a scale of at least 7 and a magnitude below 10^-6 |
| `DecimalText.PositiveExponentReadable` | ext/util/math.c:383-411 | digits, E, an optional plus and digits read as the number with the negated exponent as its scale; zero is rejected |
| `DecimalText.OctalText` | ext/util/math.c:339-343 | a leading zero without a dot makes the digits octal |
| `DecimalText.PrefixedText` | ext/util/math.c:302-306 | 0b and 0x announce binary and hexadecimal digits |
| `DecimalText.ReadBaseAppend` | ext/util/math.c:228-230 | one more digit multiplies by the base; a character that is not a digit of the base is rejected |
| `DecimalText.ReportedLengthExact` | ext/util/math.c:503-531 | the reported length is right, or one too large exactly when the exponent is one less than a power of ten |
| `DecimalText.ReportedLengthWitness` | ext/util/math.c:512-520 | 1E-9 is reported with length five |
| `DecimalText.RoundTripWitness` | ext/util/math.c:355-356 | 9.5E-8 is what 0.000000095 is written as, and is rejected |
| `DecimalText.FindParts` | ext/util/math.c:313-337 | the loop finds the dot and the exponent as specified |
| `Durations.PrintReadable` | ext/src/Duration.c:87-109 | a reader of -?MmoDdNns recovers the duration exactly if its components have one sign and none is at its minimum |
| `Durations.DurationObject.Init` | ext/src/Duration.c:112-145 | raises exactly on a component out of range or mixed signs; writes the fields before the sign check; what it accepts prints readably |
| `Durations.PrintInjective` | ext/src/Duration.c:138-144 | so two such durations never print alike |

## Left out

- The native C/C++ driver, GMP, the Zend engine and the internals of uthash beyond chains, insertion order and rebuilding of buckets: they appear as small specifications. GMP's skipping of white space inside binary and hexadecimal digits, and the sign it takes after `0b`, are not modelled.
- Installation of object handlers: the functions are modelled whether or not a class of the PHP 8 build installs them. Functions compiled only before PHP 8 are left out, such as the hash of a set, with the dirty flag that serves it.
- The native futures of connecting and their release; two session futures that share one list entry across an eviction.
- The row cursor and `first()`, column decoding, and the tokens handed to PHP by `pagingStateToken`.
- Batches that would report more pages: the native driver never does, and the model gives batch results none.
- Reading `current` inside a loop body after the body removed the current entry: `foreach` does not do it, and the code would read freed memory.
- Hashing and comparing of values other than null, booleans, integers, doubles, strings, bigints and tuples; arrays and resources, which no container accepts.
- Keys changed after insertion, and a cached hash after a nested tuple changed behind it.
- Machine.NothingLeaks: covers handles wrapped in refs; statements and results that `execute` frees itself are covered by `Handles.Execute`, native futures of requests by `Futures.FuturesAccounted`. That no two refs wrap one native result is not stated, as results carry no identity in the model.
- Futures.FuturesAccounted: covers the native futures of requests, not those of connecting and closing sessions.
- Durations.DurationObject.Init: takes integers; the doubles, strings and bigints that the constructor also converts are not modelled.
- Typed.StepWellTyped: containers filled by result decoding rather than by the insertion methods are not covered.
- Typed.ConvertObjectSucceeds: failures inside the native driver, such as running out of memory, are not modelled; freeing of nested native collections is not either.
- Decimals.Numeric.Mul: scales are unbounded integers; overflow of the `long` scale is not modelled.
- DecimalText.FormatRoundTrip: negative scales are excluded, as the formatting code asserts; exponents that do not fit an `int`, which `sscanf` leaves undefined, are read as integers; a NUL byte right after the E of a text, where the code reads an uninitialised exponent, counts as malformed.
- `Decimal` to double, integer and string casts other than the text above; `div`, `mod` and `sqrt`, which the code does not implement.
- The constructor of smallint, which narrows to 32 bits before its range check; tinyint, bigint and float arithmetic, which would add similar members.
- Schema metadata, cluster configuration, SSL, logging, timeouts as durations, and the mapping of errors to exception classes.
