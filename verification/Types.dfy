/** Cassandra types and `php_driver_type_compare` (ext/util/types.c). */
module Types {

  datatype List<T> = Nil | Cons(head: T, tail: List<T>)

  function Length<T>(xs: List<T>): nat {
    if xs.Nil? then 0 else 1 + Length(xs.tail)
  }

  datatype Kind =
    | Custom | Ascii | Bigint | Blob | Boolean | Counter | Decimal | Double | Float | Int
    | Text | Timestamp | Uuid | Varchar | Varint | Timeuuid | Inet | Date | Time | Smallint
    | Tinyint | Duration

  /** A user type is compared by its fields only; its name plays no part. */
  datatype CassType =
    | Scalar(kind: Kind)
    | ListOf(element: CassType)
    | SetOf(element: CassType)
    | MapOf(key: CassType, value: CassType)
    | TupleOf(types: List<CassType>)
    | UserType(fields: List<FieldType>)

  datatype FieldType = FieldType(name: string, fieldType: CassType)

  /** The protocol code of a type, which orders types of different kinds. */
  function Code(t: CassType): nat {
    match t
    case Scalar(kind) => ScalarCode(kind)
    case ListOf(_) => 0x20
    case MapOf(_, _) => 0x21
    case SetOf(_) => 0x22
    case UserType(_) => 0x30
    case TupleOf(_) => 0x31
  }

  function ScalarCode(kind: Kind): nat {
    match kind
    case Custom => 0x00 case Ascii => 0x01 case Bigint => 0x02 case Blob => 0x03
    case Boolean => 0x04 case Counter => 0x05 case Decimal => 0x06 case Double => 0x07
    case Float => 0x08 case Int => 0x09 case Text => 0x0A case Timestamp => 0x0B
    case Uuid => 0x0C case Varchar => 0x0D case Varint => 0x0E case Timeuuid => 0x0F
    case Inet => 0x10 case Date => 0x11 case Time => 0x12 case Smallint => 0x13
    case Tinyint => 0x14 case Duration => 0x15
  }

  predicate IsStringType(t: CassType) { t == Scalar(Text) || t == Scalar(Varchar) }

  function Compare(a: int, b: int): int {
    if a < b then -1 else if a > b then 1 else 0
  }

  /** Byte-wise comparison; a proper prefix is smaller. */
  function StringCompare(a: string, b: string): int {
    if a == [] || b == [] then Compare(|a|, |b|)
    else if a[0] != b[0] then Compare(a[0] as int, b[0] as int)
    else StringCompare(a[1..], b[1..])
  }

  lemma {:induction false} StringCompareZero(a: string, b: string)
    ensures StringCompare(a, b) == 0 <==> a == b
  {
    if a != [] && b != [] {
      StringCompareZero(a[1..], b[1..]);
      assert a == [a[0]] + a[1..] && b == [b[0]] + b[1..];
    }
  }

  /** `php_driver_type_compare`. */
  function TypeCompare(a: CassType, b: CassType): int
    decreases a
  {
    if Code(a) != Code(b) then
      if IsStringType(a) && IsStringType(b) then 0 else Compare(Code(a), Code(b))
    else match (a, b)
    case (ListOf(x), ListOf(y)) => TypeCompare(x, y)
    case (SetOf(x), SetOf(y)) => TypeCompare(x, y)
    case (MapOf(k, v), MapOf(k', v')) =>
      var r := TypeCompare(k, k');
      if r != 0 then r else TypeCompare(v, v')
    case (TupleOf(xs), TupleOf(ys)) =>
      if Length(xs) != Length(ys) then Compare(Length(xs), Length(ys)) else TypesCompare(xs, ys)
    case (UserType(fs), UserType(gs)) =>
      if Length(fs) != Length(gs) then Compare(Length(fs), Length(gs)) else FieldsCompare(fs, gs)
    case _ => 0
  }

  function TypesCompare(xs: List<CassType>, ys: List<CassType>): int
    decreases xs
  {
    if xs.Nil? || ys.Nil? then 0
    else
      var r := TypeCompare(xs.head, ys.head);
      if r != 0 then r else TypesCompare(xs.tail, ys.tail)
  }

  function FieldsCompare(fs: List<FieldType>, gs: List<FieldType>): int
    decreases fs
  {
    if fs.Nil? || gs.Nil? then 0
    else
      var n := StringCompare(fs.head.name, gs.head.name);
      if n != 0 then n
      else
        var r := TypeCompare(fs.head.fieldType, gs.head.fieldType);
        if r != 0 then r else FieldsCompare(fs.tail, gs.tail)
  }

  /** Types up to the alias varchar = text. */
  function Normal(t: CassType): CassType {
    match t
    case Scalar(kind) => Scalar(if kind == Varchar then Text else kind)
    case ListOf(x) => ListOf(Normal(x))
    case SetOf(x) => SetOf(Normal(x))
    case MapOf(k, v) => MapOf(Normal(k), Normal(v))
    case TupleOf(xs) => TupleOf(NormalTypes(xs))
    case UserType(fs) => UserType(NormalFields(fs))
  }

  function NormalTypes(xs: List<CassType>): List<CassType> {
    if xs.Nil? then Nil else Cons(Normal(xs.head), NormalTypes(xs.tail))
  }

  function NormalFields(fs: List<FieldType>): List<FieldType> {
    if fs.Nil? then Nil
    else Cons(FieldType(fs.head.name, Normal(fs.head.fieldType)), NormalFields(fs.tail))
  }

  /** Types compare equal exactly when they are the same up to the alias, at every depth. */
  lemma {:induction false} TypeCompareZero(a: CassType, b: CassType)
    ensures TypeCompare(a, b) == 0 <==> Normal(a) == Normal(b)
    decreases a
  {
    match (a, b)
    case (ListOf(x), ListOf(y)) => TypeCompareZero(x, y);
    case (SetOf(x), SetOf(y)) => TypeCompareZero(x, y);
    case (MapOf(k, v), MapOf(k', v')) =>
      TypeCompareZero(k, k');
      TypeCompareZero(v, v');
    case (TupleOf(xs), TupleOf(ys)) => TypesCompareZero(xs, ys);
    case (UserType(fs), UserType(gs)) => FieldsCompareZero(fs, gs);
    case (Scalar(j), Scalar(k)) => ScalarCodes(j, k);
    case _ =>
  }

  lemma ScalarCodes(j: Kind, k: Kind)
    ensures ScalarCode(j) == ScalarCode(k) <==> j == k
  {
  }

  lemma {:induction false} TypesCompareZero(xs: List<CassType>, ys: List<CassType>)
    ensures Length(xs) == Length(ys) && TypesCompare(xs, ys) == 0 <==> NormalTypes(xs) == NormalTypes(ys)
    decreases xs
  {
    if xs.Cons? && ys.Cons? {
      TypeCompareZero(xs.head, ys.head);
      TypesCompareZero(xs.tail, ys.tail);
    }
  }

  lemma {:induction false} FieldsCompareZero(fs: List<FieldType>, gs: List<FieldType>)
    ensures Length(fs) == Length(gs) && FieldsCompare(fs, gs) == 0 <==> NormalFields(fs) == NormalFields(gs)
    decreases fs
  {
    if fs.Cons? && gs.Cons? {
      StringCompareZero(fs.head.name, gs.head.name);
      TypeCompareZero(fs.head.fieldType, gs.head.fieldType);
      FieldsCompareZero(fs.tail, gs.tail);
    }
  }
}
