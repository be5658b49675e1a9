/** The values a column can hold, their types, and the order the dictionary relies on. */
module Values {
  import opened Wrappers

  datatype ColumnType = IntType | LongType | FloatType | DoubleType | StringType

  /** A value of one of the five column types; floating-point values are real numbers here. */
  datatype Value =
    | IntValue(i: int)
    | LongValue(l: int)
    | FloatValue(f: real)
    | DoubleValue(d: real)
    | StringValue(s: string)

  function TypeOf(v: Value): ColumnType {
    match v
    case IntValue(_) => IntType
    case LongValue(_) => LongType
    case FloatValue(_) => FloatType
    case DoubleValue(_) => DoubleType
    case StringValue(_) => StringType
  }

  // ----- order

  predicate StringLess(a: string, b: string) {
    if b == [] then false
    else if a == [] then true
    else if a[0] != b[0] then a[0] < b[0]
    else StringLess(a[1..], b[1..])
  }

  function Rank(t: ColumnType): int {
    match t
    case IntType => 0 case LongType => 1 case FloatType => 2 case DoubleType => 3 case StringType => 4
  }

  /** The order of each element type; values of different types are never compared by the column
      store, and are ordered by type to make this one order. */
  predicate Less(a: Value, b: Value) {
    match (a, b)
    case (IntValue(x), IntValue(y)) => x < y
    case (LongValue(x), LongValue(y)) => x < y
    case (FloatValue(x), FloatValue(y)) => x < y
    case (DoubleValue(x), DoubleValue(y)) => x < y
    case (StringValue(x), StringValue(y)) => StringLess(x, y)
    case _ => Rank(TypeOf(a)) < Rank(TypeOf(b))
  }

  ghost predicate TotalOrder<T(!new)>(less: (T, T) -> bool) {
    && (forall a :: !less(a, a))
    && (forall a, b :: a != b ==> less(a, b) || less(b, a))
    && (forall a, b, c :: less(a, b) && less(b, c) ==> less(a, c))
  }

  lemma {:induction false} StringLessIrreflexive(a: string)
    ensures !StringLess(a, a)
  {
    if a != [] { StringLessIrreflexive(a[1..]); }
  }

  lemma {:induction false} StringLessConnected(a: string, b: string)
    requires a != b
    ensures StringLess(a, b) || StringLess(b, a)
  {
    if a != [] && b != [] && a[0] == b[0] {
      assert a == [a[0]] + a[1..] && b == [b[0]] + b[1..];
      StringLessConnected(a[1..], b[1..]);
    }
  }

  lemma {:induction false} StringLessTransitive(a: string, b: string, c: string)
    requires StringLess(a, b) && StringLess(b, c)
    ensures StringLess(a, c)
  {
    if a != [] && a[0] == b[0] == c[0] {
      StringLessTransitive(a[1..], b[1..], c[1..]);
    }
  }

  /** Strings included, the order of the values is a strict total order. */
  lemma LessIsTotalOrder()
    ensures TotalOrder(Less)
  {
    forall a: Value ensures !Less(a, a) {
      if a.StringValue? { StringLessIrreflexive(a.s); }
    }
    forall a: Value, b: Value | a != b ensures Less(a, b) || Less(b, a) {
      if a.StringValue? && b.StringValue? { StringLessConnected(a.s, b.s); }
    }
    forall a: Value, b: Value, c: Value | Less(a, b) && Less(b, c) ensures Less(a, c) {
      if a.StringValue? && b.StringValue? && c.StringValue? { StringLessTransitive(a.s, b.s, c.s); }
    }
  }

  // ----- casts

  /** Conversion between types, which may fail; it produces values of the type asked for. */
  type Converter = f: (ColumnType, Value) -> Option<Value>
    | forall t, v :: f(t, v).Some? ==> TypeOf(f(t, v).value) == t
    witness (t: ColumnType, v: Value) => None

  /** `type_cast`: the identity on a value that already has the type, a conversion otherwise. */
  function TypeCast(convert: Converter, t: ColumnType, v: Value): (r: Option<Value>)
    ensures r.Some? ==> TypeOf(r.value) == t
    ensures TypeOf(v) == t ==> r == Some(v)
  {
    if TypeOf(v) == t then Some(v) else convert(t, v)
  }
}
