/**
 The order that `php_driver_value_compare` and `php_driver_type_compare` put on values and types
 (ext/util/hash.c, ext/util/types.c): its signs, where it is antisymmetric, and where it is transitive.
 */
module ValueOrder {
  import T = Types
  import Ieee
  import opened Hashing

  /** Three comparisons x:y, y:z and x:z agree with one order. */
  predicate Chain(xy: int, yz: int, xz: int) {
    && (xy <= 0 && yz <= 0 ==> xz <= 0) && ((xy < 0 && yz <= 0) || (xy <= 0 && yz < 0) ==> xz < 0)
    && (xy >= 0 && yz >= 0 ==> xz >= 0) && ((xy > 0 && yz >= 0) || (xy >= 0 && yz > 0) ==> xz > 0)
  }

  /** First one comparison, then, if it is zero, another. */
  function Then(first: int, second: int): int { if first != 0 then first else second }

  lemma ChainThen(a: int, b: int, c: int, a': int, b': int, c': int)
    requires Chain(a, b, c) && (a == 0 && b == 0 ==> Chain(a', b', c'))
    ensures Chain(Then(a, a'), Then(b, b'), Then(c, c'))
  {
  }

  // ---- strings ---------------------------------------------------------------------------------

  /** The strings agree up to position `i`, where `a` has the smaller character. */
  predicate SmallerAt(a: string, b: string, i: nat) {
    i < |a| && i < |b| && a[..i] == b[..i] && a[i] < b[i]
  }

  /** `a` is a proper prefix of `b`, or has a smaller character where they first differ. */
  ghost predicate Before(a: string, b: string) {
    (a <= b && a != b) || exists i: nat :: SmallerAt(a, b, i)
  }

  lemma PrefixCons(c: char, x: string, y: string)
    ensures [c] + x <= [c] + y <==> x <= y
  {
    var a, b := [c] + x, [c] + y;
    if x <= y { assert b[..|a|] == [c] + y[..|x|]; }
    if a <= b { assert y[..|x|] == b[..|a|][1..]; }
  }

  lemma SmallerCons(c: char, x: string, y: string, i: nat)
    ensures SmallerAt(x, y, i) <==> SmallerAt([c] + x, [c] + y, i + 1)
  {
    var a, b := [c] + x, [c] + y;
    if i < |x| && i < |y| {
      assert a[..i + 1] == [c] + x[..i] && b[..i + 1] == [c] + y[..i];
      assert x[..i] == a[..i + 1][1..] && y[..i] == b[..i + 1][1..];
    }
  }

  lemma BeforeCons(a: string, b: string)
    requires a != [] && b != [] && a[0] == b[0]
    ensures Before(a, b) <==> Before(a[1..], b[1..])
  {
    var c, x, y := a[0], a[1..], b[1..];
    assert a == [c] + x && b == [c] + y;
    PrefixCons(c, x, y);
    if i: nat :| SmallerAt(a, b, i) {
      assert i > 0;
      SmallerCons(c, x, y, i - 1);
    }
    if i: nat :| SmallerAt(x, y, i) { SmallerCons(c, x, y, i); }
  }

  /** Strings are in lexicographic order, a prefix before its extensions. */
  lemma {:induction false} StringSign(a: string, b: string)
    ensures -1 <= T.StringCompare(a, b) <= 1
    ensures T.StringCompare(a, b) < 0 <==> Before(a, b)
    decreases |a|
  {
    if a != [] && b != [] {
      if a[0] == b[0] {
        StringSign(a[1..], b[1..]);
        BeforeCons(a, b);
      } else if a[0] < b[0] {
        assert SmallerAt(a, b, 0);
      }
    }
  }

  lemma {:induction false} StringAntisymmetric(a: string, b: string)
    ensures T.StringCompare(b, a) == -T.StringCompare(a, b)
    decreases |a|
  {
    if a != [] && b != [] { StringAntisymmetric(a[1..], b[1..]); }
  }

  lemma {:induction false} StringTransitive(a: string, b: string, c: string)
    ensures Chain(T.StringCompare(a, b), T.StringCompare(b, c), T.StringCompare(a, c))
    decreases |a|
  {
    if a != [] && b != [] && c != [] { StringTransitive(a[1..], b[1..], c[1..]); }
  }

  // ---- types -----------------------------------------------------------------------------------

  lemma {:induction false} TypeAntisymmetric(a: T.CassType, b: T.CassType)
    ensures T.TypeCompare(b, a) == -T.TypeCompare(a, b)
    decreases a
  {
    match (a, b)
    case (ListOf(x), ListOf(y)) => TypeAntisymmetric(x, y);
    case (SetOf(x), SetOf(y)) => TypeAntisymmetric(x, y);
    case (MapOf(k, v), MapOf(k', v')) => TypeAntisymmetric(k, k'); TypeAntisymmetric(v, v');
    case (TupleOf(xs), TupleOf(ys)) => TypesAntisymmetric(xs, ys);
    case (UserType(fs), UserType(gs)) => FieldsAntisymmetric(fs, gs);
    case _ =>
  }

  lemma {:induction false} TypesAntisymmetric(xs: T.List<T.CassType>, ys: T.List<T.CassType>)
    ensures T.TypesCompare(ys, xs) == -T.TypesCompare(xs, ys)
    decreases xs
  {
    if xs.Cons? && ys.Cons? {
      TypeAntisymmetric(xs.head, ys.head);
      TypesAntisymmetric(xs.tail, ys.tail);
    }
  }

  lemma {:induction false} FieldsAntisymmetric(fs: T.List<T.FieldType>, gs: T.List<T.FieldType>)
    ensures T.FieldsCompare(gs, fs) == -T.FieldsCompare(fs, gs)
    decreases fs
  {
    if fs.Cons? && gs.Cons? {
      StringAntisymmetric(fs.head.name, gs.head.name);
      TypeAntisymmetric(fs.head.fieldType, gs.head.fieldType);
      FieldsAntisymmetric(fs.tail, gs.tail);
    }
  }

  /** The scalar kinds that occur in a type. */
  function Kinds(t: T.CassType): set<T.Kind> {
    match t
    case Scalar(kind) => {kind}
    case ListOf(x) => Kinds(x)
    case SetOf(x) => Kinds(x)
    case MapOf(k, v) => Kinds(k) + Kinds(v)
    case TupleOf(xs) => TypesKinds(xs)
    case UserType(fs) => FieldsKinds(fs)
  }

  function TypesKinds(xs: T.List<T.CassType>): set<T.Kind> {
    if xs.Nil? then {} else Kinds(xs.head) + TypesKinds(xs.tail)
  }

  function FieldsKinds(fs: T.List<T.FieldType>): set<T.Kind> {
    if fs.Nil? then {} else Kinds(fs.head.fieldType) + FieldsKinds(fs.tail)
  }

  /** Text and varchar compare equal, but timestamp and uuid lie between their codes. */
  predicate Untangled(kinds: set<T.Kind>) {
    T.Text in kinds && T.Varchar in kinds ==> T.Timestamp !in kinds && T.Uuid !in kinds
  }

  /** What the codes of two types decide. */
  function Root(a: T.CassType, b: T.CassType): int {
    if T.IsStringType(a) && T.IsStringType(b) then 0 else T.Compare(T.Code(a), T.Code(b))
  }

  lemma StringCodes(t: T.CassType)
    ensures T.IsStringType(t) <==> T.Code(t) == 0x0A || T.Code(t) == 0x0D
    ensures T.Code(t) == 0x0A <==> t == T.Scalar(T.Text)
    ensures T.Code(t) == 0x0D <==> t == T.Scalar(T.Varchar)
    ensures T.Code(t) == 0x0B ==> t == T.Scalar(T.Timestamp)
    ensures T.Code(t) == 0x0C ==> t == T.Scalar(T.Uuid)
  {
  }

  lemma RootTransitive(kinds: set<T.Kind>, a: T.CassType, b: T.CassType, c: T.CassType)
    requires Untangled(kinds) && Kinds(a) <= kinds && Kinds(b) <= kinds && Kinds(c) <= kinds
    ensures Chain(Root(a, b), Root(b, c), Root(a, c))
  {
    StringCodes(a);
    StringCodes(b);
    StringCodes(c);
    assert forall k, t: T.CassType :: t == T.Scalar(k) ==> Kinds(t) == {k};
  }

  /** Over kinds that are not tangled, types are in one order. */
  lemma {:induction false} TypeTransitive(kinds: set<T.Kind>, a: T.CassType, b: T.CassType, c: T.CassType)
    requires Untangled(kinds) && Kinds(a) <= kinds && Kinds(b) <= kinds && Kinds(c) <= kinds
    ensures Chain(T.TypeCompare(a, b), T.TypeCompare(b, c), T.TypeCompare(a, c))
    decreases a
  {
    RootTransitive(kinds, a, b, c);
    match (a, b, c)
    case (ListOf(x), ListOf(y), ListOf(z)) => TypeTransitive(kinds, x, y, z);
    case (SetOf(x), SetOf(y), SetOf(z)) => TypeTransitive(kinds, x, y, z);
    case (MapOf(k, v), MapOf(k', v'), MapOf(k'', v'')) =>
      TypeTransitive(kinds, k, k', k'');
      TypeTransitive(kinds, v, v', v'');
    case (TupleOf(xs), TupleOf(ys), TupleOf(zs)) => TypesTransitive(kinds, xs, ys, zs);
    case (UserType(fs), UserType(gs), UserType(hs)) => FieldsTransitive(kinds, fs, gs, hs);
    case _ => RootDecides(a, b, c);
  }

  /** If the three types are not of one shape, their codes decide wherever they differ. */
  lemma RootDecides(a: T.CassType, b: T.CassType, c: T.CassType)
    requires Chain(Root(a, b), Root(b, c), Root(a, c))
    requires !(T.Code(a) == T.Code(b) == T.Code(c)) || a.Scalar?
    ensures Chain(T.TypeCompare(a, b), T.TypeCompare(b, c), T.TypeCompare(a, c))
  {
    StringCodes(a);
    StringCodes(b);
    StringCodes(c);
    assert forall x, y :: T.Code(x) != T.Code(y) ==> T.TypeCompare(x, y) == Root(x, y);
  }

  lemma {:induction false} TypesTransitive(kinds: set<T.Kind>, xs: T.List<T.CassType>, ys: T.List<T.CassType>, zs: T.List<T.CassType>)
    requires Untangled(kinds) && TypesKinds(xs) <= kinds && TypesKinds(ys) <= kinds && TypesKinds(zs) <= kinds
    ensures T.Length(xs) == T.Length(ys) == T.Length(zs) ==>
              Chain(T.TypesCompare(xs, ys), T.TypesCompare(ys, zs), T.TypesCompare(xs, zs))
    decreases xs
  {
    if xs.Cons? && ys.Cons? && zs.Cons? {
      TypeTransitive(kinds, xs.head, ys.head, zs.head);
      TypesTransitive(kinds, xs.tail, ys.tail, zs.tail);
    }
  }

  lemma {:induction false} FieldsTransitive(kinds: set<T.Kind>, fs: T.List<T.FieldType>, gs: T.List<T.FieldType>, hs: T.List<T.FieldType>)
    requires Untangled(kinds) && FieldsKinds(fs) <= kinds && FieldsKinds(gs) <= kinds && FieldsKinds(hs) <= kinds
    ensures T.Length(fs) == T.Length(gs) == T.Length(hs) ==>
              Chain(T.FieldsCompare(fs, gs), T.FieldsCompare(gs, hs), T.FieldsCompare(fs, hs))
    decreases fs
  {
    if fs.Cons? && gs.Cons? && hs.Cons? {
      StringTransitive(fs.head.name, gs.head.name, hs.head.name);
      TypeTransitive(kinds, fs.head.fieldType, gs.head.fieldType, hs.head.fieldType);
      FieldsTransitive(kinds, fs.tail, gs.tail, hs.tail);
    }
  }

  /** On the types over a set of kinds, comparison is transitive exactly if the kinds are not tangled. */
  lemma TypesOrdered(kinds: set<T.Kind>)
    ensures Untangled(kinds) <==>
              forall a, b, c :: Kinds(a) <= kinds && Kinds(b) <= kinds && Kinds(c) <= kinds ==>
                Chain(T.TypeCompare(a, b), T.TypeCompare(b, c), T.TypeCompare(a, c))
  {
    if Untangled(kinds) {
      forall a, b, c | Kinds(a) <= kinds && Kinds(b) <= kinds && Kinds(c) <= kinds
        ensures Chain(T.TypeCompare(a, b), T.TypeCompare(b, c), T.TypeCompare(a, c))
      {
        TypeTransitive(kinds, a, b, c);
      }
    } else {
      var between := T.Scalar(if T.Timestamp in kinds then T.Timestamp else T.Uuid);
      assert !Chain(T.TypeCompare(T.Scalar(T.Text), between), T.TypeCompare(between, T.Scalar(T.Varchar)),
                    T.TypeCompare(T.Scalar(T.Text), T.Scalar(T.Varchar)));
      assert Kinds(T.Scalar(T.Text)) <= kinds && Kinds(between) <= kinds && Kinds(T.Scalar(T.Varchar)) <= kinds;
    }
  }

  /** Different codes decide, except between text and varchar; then the elements, in order, and a tuple
      or user type with fewer of them is smaller. */
  lemma TypeSign(a: T.CassType, b: T.CassType)
    ensures Root(a, b) != 0 ==> T.TypeCompare(a, b) == Root(a, b)
    ensures T.TypeCompare(T.ListOf(a), T.ListOf(b)) == T.TypeCompare(a, b)
    ensures T.TypeCompare(T.SetOf(a), T.SetOf(b)) == T.TypeCompare(a, b)
    ensures forall k, k' :: T.TypeCompare(k, k') != 0 ==> T.TypeCompare(T.MapOf(k, a), T.MapOf(k', b)) == T.TypeCompare(k, k')
    ensures forall k :: T.TypeCompare(T.MapOf(k, a), T.MapOf(k, b)) == T.TypeCompare(a, b)
  {
    StringCodes(a);
    StringCodes(b);
    forall k ensures T.TypeCompare(T.MapOf(k, a), T.MapOf(k, b)) == T.TypeCompare(a, b) {
      T.TypeCompareZero(k, k);
    }
  }

  lemma RecordSign(xs: T.List<T.CassType>, ys: T.List<T.CassType>, fs: T.List<T.FieldType>, gs: T.List<T.FieldType>)
    ensures T.Length(xs) < T.Length(ys) ==> T.TypeCompare(T.TupleOf(xs), T.TupleOf(ys)) < 0
    ensures T.Length(fs) < T.Length(gs) ==> T.TypeCompare(T.UserType(fs), T.UserType(gs)) < 0
  {
  }

  // ---- values ------------------------------------------------------------------------------------

  lemma TagSign(a: Value, b: Value)
    ensures Tag(a) < Tag(b) ==> ValueCompare(a, b) < 0 && ValueCompare(b, a) > 0
  {
  }

  /** Numbers compare as numbers, doubles by rank, strings in lexicographic order. */
  lemma ScalarSign(x: Int64, y: Int64, d: Ieee.Double, e: Ieee.Double, s: string, t: string)
    ensures ValueCompare(Long(x), Long(y)) < 0 <==> x < y
    ensures ValueCompare(Long(x), Long(y)) > 0 <==> x > y
    ensures ValueCompare(Bigint(x), Bigint(y)) < 0 <==> x < y
    ensures ValueCompare(Bigint(x), Bigint(y)) > 0 <==> x > y
    ensures ValueCompare(Double(d), Double(e)) < 0 <==> Ieee.Rank(d) < Ieee.Rank(e)
    ensures ValueCompare(Double(d), Double(e)) > 0 <==> Ieee.Rank(d) > Ieee.Rank(e)
    ensures ValueCompare(String(s), String(t)) < 0 <==> Before(s, t)
    ensures ValueCompare(String(s), String(t)) > 0 <==> Before(t, s)
  {
    Ieee.CompareIsRank(d, e);
    StringSign(s, t);
    StringSign(t, s);
    StringAntisymmetric(s, t);
  }

  /** The value at a position in insertion order. */
  function At(es: Entries, i: nat): Value
    requires i < Count(es)
  {
    if i == 0 then es.value else At(es.rest, i - 1)
  }

  /** The entries before position `i` compare equal. */
  ghost predicate EqualBefore(es: Entries, fs: Entries, i: nat)
    requires i <= Count(es) == Count(fs)
  {
    forall j :: 0 <= j < i ==> ValueCompare(At(es, j), At(fs, j)) == 0
  }

  /** Entries compare as at the first position where they differ. */
  lemma {:induction false} FirstDifference(es: Entries, fs: Entries) returns (i: nat)
    requires Count(es) == Count(fs)
    ensures i <= Count(es) && EqualBefore(es, fs, i)
    ensures i < Count(es) ==> EntriesCompare(es, fs) == ValueCompare(At(es, i), At(fs, i)) != 0
    ensures i == Count(es) ==> EntriesCompare(es, fs) == 0
    decreases es
  {
    if es.Nil? {
      i := 0;
    } else if ValueCompare(es.value, fs.value) != 0 {
      i := 0;
    } else {
      var k := FirstDifference(es.rest, fs.rest);
      i := k + 1;
      forall j | 0 <= j < i ensures ValueCompare(At(es, j), At(fs, j)) == 0 {
        if j > 0 { assert At(es, j) == At(es.rest, j - 1) && At(fs, j) == At(fs.rest, j - 1); }
      }
    }
  }

  /** Tuples compare by type, then by the number of values, then as at the first differing value. */
  lemma TupleSign(t: T.CassType, es: Entries, u: T.CassType, fs: Entries)
    ensures var r := ValueCompare(Tuple(t, es), Tuple(u, fs));
            && (T.TypeCompare(t, u) != 0 ==> r == T.TypeCompare(t, u))
            && (T.TypeCompare(t, u) == 0 && Count(es) < Count(fs) ==> r < 0)
            && (T.TypeCompare(t, u) == 0 && Count(es) > Count(fs) ==> r > 0)
            && (T.TypeCompare(t, u) == 0 && Count(es) == Count(fs) ==>
                  if r == 0 then EqualBefore(es, fs, Count(es))
                  else exists i :: 0 <= i < Count(es) && EqualBefore(es, fs, i) && r == ValueCompare(At(es, i), At(fs, i)))
  {
    if Count(es) == Count(fs) {
      var i := FirstDifference(es, fs);
      if T.TypeCompare(t, u) == 0 && i < Count(es) {
        assert ValueCompare(Tuple(t, es), Tuple(u, fs)) == ValueCompare(At(es, i), At(fs, i));
      }
    }
  }

  /** Where two values first differ, a bigint meets a tuple: both compare handlers answer 1 for an object
      of another class. */
  predicate Clash(a: Value, b: Value)
    decreases a
  {
    match (a, b)
    case (Bigint(_), Tuple(_, _)) => true
    case (Tuple(_, _), Bigint(_)) => true
    case (Tuple(t, es), Tuple(u, fs)) => T.TypeCompare(t, u) == 0 && Count(es) == Count(fs) && EntriesClash(es, fs)
    case _ => false
  }

  predicate EntriesClash(es: Entries, fs: Entries)
    decreases es
  {
    es.Cons? && fs.Cons? &&
    if ValueCompare(es.value, fs.value) != 0 then Clash(es.value, fs.value) else EntriesClash(es.rest, fs.rest)
  }

  lemma {:induction false} ClashCompare(a: Value, b: Value)
    requires Clash(a, b)
    ensures ValueCompare(a, b) == 1 && ValueCompare(b, a) == 1
    decreases a
  {
    if a.Tuple? && b.Tuple? {
      TypeAntisymmetric(a.tupleType, b.tupleType);
      EntriesClashCompare(a.entries, b.entries);
    }
  }

  lemma {:induction false} EntriesClashCompare(es: Entries, fs: Entries)
    requires EntriesClash(es, fs)
    ensures EntriesCompare(es, fs) == 1 && EntriesCompare(fs, es) == 1
    decreases es
  {
    CompareEquivalence(es.value, fs.value, es.value);
    if ValueCompare(es.value, fs.value) != 0 {
      ClashCompare(es.value, fs.value);
    } else {
      EntriesClashCompare(es.rest, fs.rest);
    }
  }

  /** Comparing the other way round gives the opposite answer exactly for values that do not clash. */
  lemma {:induction false} ValueAntisymmetric(a: Value, b: Value)
    ensures ValueCompare(b, a) == -ValueCompare(a, b) <==> !Clash(a, b)
    decreases a
  {
    match (a, b)
    case (Double(d), Double(e)) => Ieee.DoubleTotalOrder(d, e, d);
    case (String(s), String(t)) => StringAntisymmetric(s, t);
    case (Tuple(t, es), Tuple(u, fs)) =>
      TypeAntisymmetric(t, u);
      EntriesAntisymmetric(es, fs);
    case _ =>
  }

  lemma {:induction false} EntriesAntisymmetric(es: Entries, fs: Entries)
    ensures Count(es) == Count(fs) ==>
              (EntriesCompare(fs, es) == -EntriesCompare(es, fs) <==> !EntriesClash(es, fs))
    decreases es
  {
    if es.Cons? && fs.Cons? {
      CompareEquivalence(es.value, fs.value, es.value);
      ValueAntisymmetric(es.value, fs.value);
      EntriesAntisymmetric(es.rest, fs.rest);
    }
  }

  /** The kinds in all types inside a value. */
  function ValueKinds(v: Value): set<T.Kind> {
    if v.Tuple? then Kinds(v.tupleType) + EntriesKinds(v.entries) else {}
  }

  function EntriesKinds(es: Entries): set<T.Kind> {
    if es.Nil? then {} else ValueKinds(es.value) + EntriesKinds(es.rest)
  }

  predicate NoClash(a: Value, b: Value, c: Value) { !Clash(a, b) && !Clash(b, c) && !Clash(a, c) }

  lemma ZeroNoClash(a: Value, b: Value)
    requires ValueCompare(a, b) == 0
    ensures !Clash(a, b)
  {
    if Clash(a, b) { ClashCompare(a, b); }
  }

  /** Values that do not clash, over kinds that are not tangled, are in one order, at every depth. */
  lemma {:induction false} ValueTransitive(kinds: set<T.Kind>, a: Value, b: Value, c: Value)
    requires Untangled(kinds) && ValueKinds(a) <= kinds && ValueKinds(b) <= kinds && ValueKinds(c) <= kinds
    requires NoClash(a, b, c)
    ensures Chain(ValueCompare(a, b), ValueCompare(b, c), ValueCompare(a, c))
    decreases a
  {
    match (a, b, c)
    case (Double(d), Double(e), Double(f)) =>
      Ieee.CompareIsRank(d, e);
      Ieee.CompareIsRank(e, f);
      Ieee.CompareIsRank(d, f);
    case (String(s), String(t), String(u)) => StringTransitive(s, t, u);
    case (Tuple(t, es), Tuple(u, fs), Tuple(w, gs)) =>
      TypeTransitive(kinds, t, u, w);
      TupleTransitive(kinds, a, b, c);
    case _ => TagsDecide(a, b, c);
  }

  lemma TagsDecide(a: Value, b: Value, c: Value)
    requires NoClash(a, b, c) && !(a.Double? && b.Double? && c.Double?) && !(a.String? && b.String? && c.String?)
    requires !(a.Tuple? && b.Tuple? && c.Tuple?)
    ensures Chain(ValueCompare(a, b), ValueCompare(b, c), ValueCompare(a, c))
  {
    assert forall x, y :: Tag(x) != Tag(y) ==> ValueCompare(x, y) == if Tag(x) < Tag(y) then -1 else 1;
  }

  /** The comparison of tuples in three stages. */
  lemma TupleStages(a: Value, b: Value)
    requires a.Tuple? && b.Tuple?
    ensures ValueCompare(a, b) ==
              Then(T.TypeCompare(a.tupleType, b.tupleType),
                   Then(T.Compare(Count(a.entries), Count(b.entries)), EntriesCompare(a.entries, b.entries)))
  {
  }

  lemma {:induction false} TupleTransitive(kinds: set<T.Kind>, a: Value, b: Value, c: Value)
    requires Untangled(kinds) && ValueKinds(a) <= kinds && ValueKinds(b) <= kinds && ValueKinds(c) <= kinds
    requires a.Tuple? && b.Tuple? && c.Tuple? && NoClash(a, b, c)
    requires Chain(T.TypeCompare(a.tupleType, b.tupleType), T.TypeCompare(b.tupleType, c.tupleType),
                   T.TypeCompare(a.tupleType, c.tupleType))
    ensures Chain(ValueCompare(a, b), ValueCompare(b, c), ValueCompare(a, c))
    decreases a, 0
  {
    var es, fs, gs := a.entries, b.entries, c.entries;
    TupleStages(a, b);
    TupleStages(b, c);
    TupleStages(a, c);
    var k, m, n := Count(es), Count(fs), Count(gs);
    var ab, bc, ac := T.TypeCompare(a.tupleType, b.tupleType), T.TypeCompare(b.tupleType, c.tupleType), T.TypeCompare(a.tupleType, c.tupleType);
    if ab == 0 && bc == 0 && k == m == n {
      EntriesTransitive(kinds, es, fs, gs);
    }
    if ab == 0 && bc == 0 {
      ChainThen(T.Compare(k, m), T.Compare(m, n), T.Compare(k, n), EntriesCompare(es, fs), EntriesCompare(fs, gs), EntriesCompare(es, gs));
    }
    ChainThen(ab, bc, ac, Then(T.Compare(k, m), EntriesCompare(es, fs)), Then(T.Compare(m, n), EntriesCompare(fs, gs)),
              Then(T.Compare(k, n), EntriesCompare(es, gs)));
  }

  lemma {:induction false} EntriesTransitive(kinds: set<T.Kind>, es: Entries, fs: Entries, gs: Entries)
    requires Untangled(kinds) && EntriesKinds(es) <= kinds && EntriesKinds(fs) <= kinds && EntriesKinds(gs) <= kinds
    requires Count(es) == Count(fs) == Count(gs)
    requires !EntriesClash(es, fs) && !EntriesClash(fs, gs) && !EntriesClash(es, gs)
    ensures Chain(EntriesCompare(es, fs), EntriesCompare(fs, gs), EntriesCompare(es, gs))
    decreases es
  {
    if es.Cons? {
      var x, y, z := es.value, fs.value, gs.value;
      if ValueCompare(x, y) == 0 { ZeroNoClash(x, y); }
      if ValueCompare(y, z) == 0 { ZeroNoClash(y, z); }
      if ValueCompare(x, z) == 0 { ZeroNoClash(x, z); }
      ValueTransitive(kinds, x, y, z);
      if ValueCompare(x, y) == 0 && ValueCompare(y, z) == 0 {
        CompareEquivalence(x, y, z);
        EntriesTransitive(kinds, es.rest, fs.rest, gs.rest);
      }
      ChainThen(ValueCompare(x, y), ValueCompare(y, z), ValueCompare(x, z),
                EntriesCompare(es.rest, fs.rest), EntriesCompare(fs.rest, gs.rest), EntriesCompare(es.rest, gs.rest));
    }
  }

  /** The two comparisons of a pair are opposite. */
  predicate Opposite(a: Value, b: Value) { ValueCompare(b, a) == -ValueCompare(a, b) }

  predicate InOrder(a: Value, b: Value, c: Value) {
    Chain(ValueCompare(a, b), ValueCompare(b, c), ValueCompare(a, c))
  }

  ghost predicate NoneClash(values: set<Value>) {
    forall a, b :: a in values && b in values ==> !Clash(a, b)
  }

  /** Comparison is a total order on the values, with those that compare equal identified. */
  ghost predicate TotallyOrdered(values: set<Value>) {
    && (forall a, b :: a in values && b in values ==> Opposite(a, b))
    && (forall a, b, c :: a in values && b in values && c in values ==> InOrder(a, b, c))
  }

  lemma NoneClashOrdered(kinds: set<T.Kind>, values: set<Value>)
    requires Untangled(kinds) && (forall v :: v in values ==> ValueKinds(v) <= kinds) && NoneClash(values)
    ensures TotallyOrdered(values)
  {
    forall a, b | a in values && b in values ensures Opposite(a, b) {
      ValueAntisymmetric(a, b);
    }
    forall a, b, c | a in values && b in values && c in values ensures InOrder(a, b, c) {
      ValueTransitive(kinds, a, b, c);
    }
  }

  /** On a set of values over kinds that are not tangled, comparison is a total order exactly if no two
      of the values clash. */
  lemma ValuesOrdered(kinds: set<T.Kind>, values: set<Value>)
    requires Untangled(kinds) && forall v :: v in values ==> ValueKinds(v) <= kinds
    ensures TotallyOrdered(values) <==> NoneClash(values)
  {
    if NoneClash(values) {
      NoneClashOrdered(kinds, values);
    } else {
      var a, b :| a in values && b in values && Clash(a, b);
      ValueAntisymmetric(a, b);
      assert !Opposite(a, b);
    }
  }

  /** Bigint 1 and an empty tuple are each greater than the other, and bigints 1 and 2 on both sides of
      the tuple are out of order. */
  lemma ClashWitness(t: T.CassType)
    ensures var tuple := Tuple(t, Nil);
            && Clash(Bigint(1), tuple)
            && ValueCompare(Bigint(1), tuple) == 1 && ValueCompare(tuple, Bigint(1)) == 1
            && !Chain(ValueCompare(Bigint(1), tuple), ValueCompare(tuple, Bigint(2)), ValueCompare(Bigint(1), Bigint(2)))
  {
  }
}
