/**
 Hashing and comparing PHP values (ext/util/hash.c, ext/util/hash.h), tuples
 (ext/src/Tuple.c) and bigints (ext/src/Bigint.c).
 */
module Hashing {
  import T = Types
  import Ieee

  type Int64 = n: int | -0x8000_0000_0000_0000 <= n < 0x8000_0000_0000_0000

  /** A tuple keeps the values that were set, in the order of their first setting, with their
      indexes. */
  datatype Value =
    | Null
    | False
    | True
    | Long(long: Int64)
    | Double(bits: Ieee.Double)
    | String(text: string)
    | Bigint(big: Int64)
    | Tuple(tupleType: T.CassType, entries: Entries)

  datatype Entries = Nil | Cons(index: nat, value: Value, rest: Entries)

  function Count(es: Entries): nat { if es.Nil? then 0 else 1 + Count(es.rest) }

  // ---- comparing -----------------------------------------------------------------------------

  /** The engine's type tag. */
  function Tag(v: Value): nat {
    match v
    case Null => 1
    case False => 2
    case True => 3
    case Long(_) => 4
    case Double(_) => 5
    case String(_) => 6
    case Bigint(_) => 8
    case Tuple(_, _) => 8
  }

  /** `php_driver_value_compare` with the compare handlers of bigints and tuples. */
  function ValueCompare(a: Value, b: Value): int
    decreases a
  {
    if Tag(a) != Tag(b) then (if Tag(a) < Tag(b) then -1 else 1)
    else match (a, b)
    case (Long(x), Long(y)) => T.Compare(x, y)
    case (Double(x), Double(y)) => Ieee.DoubleCompare(x, y)
    case (String(x), String(y)) => T.StringCompare(x, y)
    case (Bigint(x), Bigint(y)) => if x == y then 0 else if x < y then -1 else 1
    case (Tuple(t, es), Tuple(u, fs)) =>
      var r := T.TypeCompare(t, u);
      if r != 0 then r
      else if Count(es) != Count(fs) then (if Count(es) < Count(fs) then -1 else 1)
      else EntriesCompare(es, fs)
    case (Bigint(_), Tuple(_, _)) => 1
    case (Tuple(_, _), Bigint(_)) => 1
    case _ => 0
  }

  /** The loop of `php_driver_tuple_compare`; it never looks at the indexes. */
  function EntriesCompare(es: Entries, fs: Entries): int
    decreases es
  {
    if es.Nil? || fs.Nil? then 0
    else
      var r := ValueCompare(es.value, fs.value);
      if r != 0 then r else EntriesCompare(es.rest, fs.rest)
  }

  // ---- hashing -------------------------------------------------------------------------------

  function Word(n: Int64): bv64 {
    (if n < 0 then n + 0x1_0000_0000_0000_0000 else n) as bv64
  }

  function Low32(w: bv64): bv32 { (w & 0xffff_ffff) as bv32 }

  /** `php_driver_bigint_hash`. */
  function BigintHash(w: bv64): bv32 { Low32(w ^ (w >> 32)) }

  /** `double_hash` on the bits `double_to_bits` gives. */
  function DoubleHash(bits: Ieee.Double): bv32 { BigintHash(bits as bv64) }

  /** `php_driver_combine_hash`. */
  function CombineHash(seed: bv32, hashv: bv32): bv32 {
    seed ^ (hashv + 0x9e37_79b9 + (seed << 6) + (seed >> 2))
  }

  /** One character of the engine's string hash. */
  function StringStep(hash: bv64, c: char): bv64 { hash * 33 + (c as int % 256) as bv64 }

  /** The engine's string hash, before its top bit is set. */
  function StringHash(text: string, hash: bv64): bv64 {
    if text == [] then hash else StringHash(text[1..], StringStep(hash, text[0]))
  }

  /** `php_driver_value_hash` with the hash functions of bigints and tuples. */
  function ValueHash(v: Value): bv32 {
    match v
    case Null => 0
    case False => 0
    case True => 1
    case Long(x) => BigintHash(Word(x))
    case Double(d) => DoubleHash(Ieee.Canonical(d))
    case String(s) => Low32(StringHash(s, 5381) | 0x8000_0000_0000_0000)
    case Bigint(x) => BigintHash(Word(x))
    case Tuple(_, es) => EntriesHash(es, 0)
  }

  function EntriesHash(es: Entries, seed: bv32): bv32 {
    if es.Nil? then seed else EntriesHash(es.rest, CombineHash(seed, ValueHash(es.value)))
  }

  // ---- comparing equal -------------------------------------------------------------------------

  /** What comparison can see of a value: NaNs are one value, varchar is text, and the indexes of a
      tuple's entries do not matter. */
  function Seen(v: Value): Value {
    match v
    case Double(d) => Double(Ieee.Canonical(d))
    case Tuple(t, es) => Tuple(T.Normal(t), SeenEntries(es))
    case _ => v
  }

  function SeenEntries(es: Entries): Entries {
    if es.Nil? then Nil else Cons(0, Seen(es.value), SeenEntries(es.rest))
  }

  /** Two values compare equal exactly when comparison sees the same in both. */
  lemma {:induction false} ValueCompareZero(a: Value, b: Value)
    ensures ValueCompare(a, b) == 0 <==> Seen(a) == Seen(b)
    decreases a
  {
    match (a, b)
    case (Double(x), Double(y)) => Ieee.DoubleTotalOrder(x, y, x);
    case (String(x), String(y)) => T.StringCompareZero(x, y);
    case (Tuple(t, es), Tuple(u, fs)) =>
      T.TypeCompareZero(t, u);
      EntriesCompareZero(es, fs);
    case _ =>
  }

  lemma {:induction false} EntriesCompareZero(es: Entries, fs: Entries)
    ensures Count(es) == Count(fs) && EntriesCompare(es, fs) == 0 <==> SeenEntries(es) == SeenEntries(fs)
    decreases es
  {
    if es.Cons? && fs.Cons? {
      ValueCompareZero(es.value, fs.value);
      EntriesCompareZero(es.rest, fs.rest);
    }
  }

  /** Comparing equal is an equivalence relation. */
  lemma CompareEquivalence(a: Value, b: Value, c: Value)
    ensures ValueCompare(a, a) == 0
    ensures ValueCompare(a, b) == 0 <==> ValueCompare(b, a) == 0
    ensures ValueCompare(a, b) == 0 && ValueCompare(b, c) == 0 ==> ValueCompare(a, c) == 0
  {
    ValueCompareZero(a, a);
    ValueCompareZero(a, b);
    ValueCompareZero(b, a);
    ValueCompareZero(b, c);
    ValueCompareZero(a, c);
  }

  // ---- coherence -------------------------------------------------------------------------------

  /** A hash depends only on what comparison sees. */
  lemma {:induction false} HashOfSeen(v: Value)
    ensures ValueHash(Seen(v)) == ValueHash(v)
  {
    if v.Double? {
      CanonicalIdempotent(v.bits);
    } else if v.Tuple? {
      EntriesHashOfSeen(v.entries, 0);
    } else {
      assert Seen(v) == v;
    }
  }

  lemma CanonicalIdempotent(d: Ieee.Double)
    ensures Ieee.Canonical(Ieee.Canonical(d)) == Ieee.Canonical(d)
  {
  }

  lemma {:induction false} EntriesHashOfSeen(es: Entries, seed: bv32)
    ensures EntriesHash(SeenEntries(es), seed) == EntriesHash(es, seed)
  {
    if es.Cons? {
      HashOfSeen(es.value);
      EntriesHashOfSeen(es.rest, CombineHash(seed, ValueHash(es.value)));
    }
  }

  /** Values that compare equal hash equal, at any depth of nested tuples. */
  lemma HashCoherent(a: Value, b: Value)
    requires ValueCompare(a, b) == 0
    ensures ValueHash(a) == ValueHash(b)
  {
    ValueCompareZero(a, b);
    HashOfSeen(a);
    HashOfSeen(b);
  }

  /** Tuples that hold the same value at different indexes compare equal. */
  lemma IndexesIgnored()
    ensures var t := T.TupleOf(T.Cons(T.Scalar(T.Int), T.Cons(T.Scalar(T.Int), T.Nil)));
            var a := Tuple(t, Cons(0, Long(5), Nil));
            var b := Tuple(t, Cons(1, Long(5), Nil));
            a != b && ValueCompare(a, b) == 0
  {
    var t := T.TupleOf(T.Cons(T.Scalar(T.Int), T.Cons(T.Scalar(T.Int), T.Nil)));
    ValueCompareZero(Tuple(t, Cons(0, Long(5), Nil)), Tuple(t, Cons(1, Long(5), Nil)));
    assert SeenEntries(Cons(0, Long(5), Nil)) == SeenEntries(Cons(1, Long(5), Nil));
  }

  // ---- the tuple object ------------------------------------------------------------------------

  /** `zend_hash_index_update`: in place for a known index, at the end otherwise. */
  function SetEntry(es: Entries, index: nat, v: Value): Entries {
    if es.Nil? then Cons(index, v, Nil)
    else if es.index == index then Cons(index, v, es.rest)
    else Cons(es.index, es.value, SetEntry(es.rest, index, v))
  }

  function EntryAt(es: Entries, index: nat): Value {
    if es.Nil? then Null else if es.index == index then es.value else EntryAt(es.rest, index)
  }

  /** Reading back an index gives the last value set there, and the other indexes keep theirs. */
  lemma {:induction false} EntryAtAfterSet(es: Entries, index: nat, v: Value, other: nat)
    ensures EntryAt(SetEntry(es, index, v), other) == if other == index then v else EntryAt(es, other)
  {
    if es.Cons? && es.index != index { EntryAtAfterSet(es.rest, index, v, other); }
  }

  class TupleObject {
    const tupleType: T.CassType
    var entries: Entries
    var dirty: bool
    var hashv: bv32

    /** A clean cache holds the hash of the present contents. */
    ghost predicate Valid()
      reads this
    {
      !dirty ==> hashv == ValueHash(Snapshot())
    }

    function Snapshot(): Value
      reads this
    {
      Tuple(tupleType, entries)
    }

    /** Objects start out zeroed: not dirty, hash 0, which is the hash of the empty tuple. */
    constructor (t: T.CassType)
      ensures Valid() && Snapshot() == Tuple(t, Nil)
    {
      tupleType, entries, dirty, hashv := t, Nil, false, 0;
    }

    /** `php_driver_tuple_set`. */
    method Set(index: nat, v: Value)
      requires Valid()
      modifies this
      ensures Valid() && entries == SetEntry(old(entries), index, v)
    {
      entries := SetEntry(entries, index, v);
      dirty := true;
    }

    /** `php_driver_tuple_hash_value`: the cached or recomputed hash is the hash of the contents. */
    method HashValue() returns (h: bv32)
      requires Valid()
      modifies this`dirty, this`hashv
      ensures Valid() && h == ValueHash(Snapshot()) && !dirty
    {
      if !dirty { return hashv; }
      h := 0;
      var es := entries;
      while es.Cons?
        invariant EntriesHash(es, h) == EntriesHash(entries, 0)
        decreases es
      {
        h := CombineHash(h, ValueHash(es.value));
        es := es.rest;
      }
      hashv := h;
      dirty := false;
    }

    /** `php_driver_tuple_compare` on two tuple objects. */
    method CompareTo(other: TupleObject) returns (r: int)
      ensures r == ValueCompare(Snapshot(), other.Snapshot())
    {
      r := T.TypeCompare(tupleType, other.tupleType);
      if r != 0 { return; }
      if Count(entries) != Count(other.entries) {
        return if Count(entries) < Count(other.entries) then -1 else 1;
      }
      var es, fs := entries, other.entries;
      while es.Cons? && fs.Cons?
        invariant Count(es) == Count(fs)
        invariant EntriesCompare(es, fs) == EntriesCompare(entries, other.entries)
        decreases es
      {
        r := ValueCompare(es.value, fs.value);
        if r != 0 { return; }
        es, fs := es.rest, fs.rest;
      }
      return 0;
    }
  }
}
