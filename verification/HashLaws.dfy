/** The hash functions of ext/util/hash.h and ext/util/hash.c, said without their bodies. */
module HashLaws {
  import opened Hashing

  /** A 64-bit number in two halves. */
  function Halves(high: bv32, low: bv32): bv64 { ((high as bv64) << 32) | (low as bv64) }

  /** The hash of a 64-bit number is the exclusive or of its halves, so flipping bits of one half flips
      the same bits of the hash. */
  lemma BigintHashHalves(high: bv32, low: bv32)
    ensures BigintHash(Halves(high, low)) == high ^ low
  {
  }

  /** An integer and a bigint of the same value hash equal, although they never compare equal. */
  lemma LongHashesAsBigint(x: Int64, y: Int64)
    ensures ValueHash(Long(x)) == ValueHash(Bigint(x)) && ValueCompare(Long(x), Bigint(y)) < 0
  {
  }

  /** One more character at the end is hashed last. */
  lemma {:induction false} StringHashAppend(text: string, c: char, hash: bv64)
    ensures StringHash(text + [c], hash) == StringStep(StringHash(text, hash), c)
    decreases |text|
  {
    if text == [] {
      assert text + [c] == [c];
    } else {
      assert (text + [c])[1..] == text[1..] + [c];
      StringHashAppend(text[1..], c, StringStep(hash, text[0]));
    }
  }

  /** One more entry at the end is combined last. */
  lemma {:induction false} EntriesHashAppend(es: Entries, index: nat, v: Value, seed: bv32)
    ensures EntriesHash(Append(es, index, v), seed) == CombineHash(EntriesHash(es, seed), ValueHash(v))
    decreases es
  {
    if es.Cons? { EntriesHashAppend(es.rest, index, v, CombineHash(seed, ValueHash(es.value))); }
  }

  function Append(es: Entries, index: nat, v: Value): Entries {
    if es.Nil? then Cons(index, v, Nil) else Cons(es.index, es.value, Append(es.rest, index, v))
  }

  /** Some hashes. */
  lemma NumberHashes()
    ensures ValueHash(Null) == 0 && ValueHash(False) == 0 && ValueHash(True) == 1
    ensures ValueHash(Long(-1)) == 0 && ValueHash(Long(0x1_0000_0002)) == 3
  {
  }

  lemma TextHashes()
    ensures ValueHash(String("")) == 5381 && ValueHash(String("a")) == 177670
  {
    assert StringHash("a", 5381) == StringHash("", StringStep(5381, 'a')) == 177670 by {
      assert ('a' as int % 256) as bv64 == 97;
    }
  }

  lemma CombinedHashes()
    ensures CombineHash(0, 0) == 0x9e37_79b9 && CombineHash(1, 0) == 0x9e37_79f8
    ensures CombineHash(4, 0) == 0x9e37_7abe && CombineHash(0, 7) == 0x9e37_79c0
  {
  }
}
