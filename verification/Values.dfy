/** The value domain of facts and constant terms, with its equality and its
    guard comparisons (packages/datalog/src/types.ts). */
module Values {
  import opened Prelude
  import opened Numbers

  /** A JavaScript number, identified with its canonical text. `Object.is`
      separates two numbers exactly when their texts differ: `-0` has a text of
      its own and every NaN is the text `NaN`. */
  type Number = s: string | IsNumberText(s) ghost witness (assert Denotes("0", 0.0); "0")

  type Byte = b: nat | b < 256

  datatype Value =
    | Null
    | Bool(flag: bool)
    | Num(number: Number)
    | Big(integer: int)
    | Str(text: string)
    | Bytes(bytes: seq<Byte>)
    | Ref(peer: string, counter: int)

  type Tuple = seq<Value>

  datatype Fact = Fact(pred: string, values: Tuple)

  /** Structural equality by cases, as `valuesEqual` decides it. It is the
      identity of values: nothing else may be confused or told apart. */
  predicate ValuesEqual(a: Value, b: Value)
    ensures ValuesEqual(a, b) <==> a == b
  {
    match (a, b)
    case (Null, Null) => true
    case (Bool(x), Bool(y)) => x == y
    case (Num(x), Num(y)) => x == y
    case (Big(x), Big(y)) => x == y
    case (Str(x), Str(y)) => x == y
    case (Bytes(x), Bytes(y)) => x == y
    case (Ref(p, c), Ref(q, d)) => p == q && c == d
    case _ => false
  }

  // ---------------------------------------------------------------------
  // Guard comparisons
  // ---------------------------------------------------------------------

  datatype GuardOp = Eq | Neq | Lt | Gt | Lte | Gte

  /** -1, 0 or 1 as `a` is before, equal to or after `b`. */
  function CompareInts(a: int, b: int): int {
    if a < b then -1 else if a > b then 1 else 0
  }

  function CompareReals(a: real, b: real): int {
    if a < b then -1 else if a > b then 1 else 0
  }

  /** Lexicographic order: the first difference decides, then the shorter wins. */
  function CompareStrings(a: string, b: string): int {
    if a == [] || b == [] then CompareInts(|a|, |b|)
    else if a[0] != b[0] then (if a[0] < b[0] then -1 else 1)
    else CompareStrings(a[1..], b[1..])
  }

  function CompareBytes(a: seq<Byte>, b: seq<Byte>): int {
    if a == [] || b == [] then CompareInts(|a|, |b|)
    else if a[0] != b[0] then (if a[0] < b[0] then -1 else 1)
    else CompareBytes(a[1..], b[1..])
  }

  /** Where an infinity stands: -1, 1, or 0 for a finite number. */
  function InfinitySign(n: Number): int {
    if n == "Infinity" then 1 else if n == "-Infinity" then -1 else 0
  }

  /** `a` against `b` for two numbers that are not NaN, with -0 before +0. */
  function CompareNumbers(a: Number, b: Number): int {
    if a == "-0" && b == "0" then -1
    else if a == "0" && b == "-0" then 1
    else if InfinitySign(a) != 0 || InfinitySign(b) != 0 then
      CompareInts(InfinitySign(a), InfinitySign(b))
    else CompareReals(RealOf(a), RealOf(b))
  }

  /** The sign of the comparison of two values of one type; none for values of
      different types, for null, and for NaN. */
  function CompareSameType(a: Value, b: Value): Option<int> {
    match (a, b)
    case (Num(x), Num(y)) =>
      if x == "NaN" || y == "NaN" then None else Some(CompareNumbers(x, y))
    case (Big(x), Big(y)) => Some(CompareInts(x, y))
    case (Str(x), Str(y)) => Some(CompareStrings(x, y))
    case (Bool(x), Bool(y)) =>
      Some(CompareInts(if x then 1 else 0, if y then 1 else 0))
    case (Bytes(x), Bytes(y)) => Some(CompareBytes(x, y))
    case (Ref(p, c), Ref(q, d)) =>
      Some(if p != q then CompareStrings(p, q) else CompareInts(c, d))
    case _ => None
  }

  predicate EvaluateGuardOp(op: GuardOp, left: Value, right: Value) {
    var cmp := CompareSameType(left, right);
    match op
    case Eq => ValuesEqual(left, right)
    case Neq => !ValuesEqual(left, right)
    case Lt => cmp.Some? && cmp.value < 0
    case Gt => cmp.Some? && cmp.value > 0
    case Lte => cmp.Some? && cmp.value <= 0
    case Gte => cmp.Some? && cmp.value >= 0
  }
}
