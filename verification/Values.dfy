/** Run-time values and their arithmetic; numbers are exact reals with infinities and NaN. */
module Values {

  datatype Num = Fin(r: real) | PosInf | NegInf | NaN

  datatype Value = Nil | Bool(b: bool) | Number(n: Num)

  datatype RuntimeError = OperandsNotNumbers | OperandNotNumber | OperandsNotAddable

  datatype ValueOr = Val(v: Value) | Err(e: RuntimeError)

  predicate IsFalsey(v: Value) {
    v.Nil? || (v.Bool? && !v.b)
  }

  predicate NumLess(a: Num, b: Num) {
    match (a, b)
    case (NaN, _) => false
    case (_, NaN) => false
    case (Fin(x), Fin(y)) => x < y
    case (NegInf, _) => !b.NegInf?
    case (_, PosInf) => !a.PosInf?
    case (_, _) => false
  }

  predicate NumEqual(a: Num, b: Num) {
    !a.NaN? && a == b
  }

  predicate ValuesEqual(a: Value, b: Value) {
    if a.Number? && b.Number? then NumEqual(a.n, b.n) else a == b
  }

  function Sign(a: Num): int {
    match a
    case Fin(r) => if r > 0.0 then 1 else if r < 0.0 then -1 else 0
    case PosInf => 1
    case NegInf => -1
    case NaN => 0
  }

  function Infinity(sign: int): Num {
    if sign > 0 then PosInf else if sign < 0 then NegInf else NaN
  }

  function NumNegate(a: Num): Num {
    match a
    case Fin(r) => Fin(-r)
    case PosInf => NegInf
    case NegInf => PosInf
    case NaN => NaN
  }

  function NumAdd(a: Num, b: Num): Num {
    if a.NaN? || b.NaN? then NaN
    else if a.Fin? && b.Fin? then Fin(a.r + b.r)
    else if a.Fin? then b
    else if b.Fin? || a == b then a
    else NaN
  }

  function NumMultiply(a: Num, b: Num): Num {
    if a.Fin? && b.Fin? then Fin(a.r * b.r) else if a.NaN? || b.NaN? then NaN else Infinity(Sign(a) * Sign(b))
  }

  function NumDivide(a: Num, b: Num): Num {
    if a.NaN? || b.NaN? then NaN
    else if b.Fin? then
      if b.r == 0.0 then Infinity(Sign(a))
      else if a.Fin? then Fin(a.r / b.r) else Infinity(Sign(a) * Sign(b))
    else if a.Fin? then Fin(0.0) else NaN
  }

  function Truncate(r: real): int {
    if r >= 0.0 then r.Floor else -((-r).Floor)
  }

  /** Remainder with the sign of the dividend. */
  function NumModulo(a: Num, b: Num): Num {
    if !a.Fin? || b.NaN? || (b.Fin? && b.r == 0.0) then NaN
    else if !b.Fin? then a
    else Fin(a.r - b.r * (Truncate(a.r / b.r) as real))
  }

  datatype BinOp = Equal | NotEqual | Greater | GreaterEqual | Less | LessEqual | Add | Subtract | Multiply | Divide
    | Modulo

  function Numeric(op: BinOp, a: Num, b: Num): Value {
    match op
    case Greater => Bool(NumLess(b, a))
    case GreaterEqual => Bool(!NumLess(a, b))
    case Less => Bool(NumLess(a, b))
    case LessEqual => Bool(!NumLess(b, a))
    case Add => Number(NumAdd(a, b))
    case Subtract => Number(NumAdd(a, NumNegate(b)))
    case Multiply => Number(NumMultiply(a, b))
    case Divide => Number(NumDivide(a, b))
    case Modulo => Number(NumModulo(a, b))
    case Equal => Bool(NumEqual(a, b))
    case NotEqual => Bool(!NumEqual(a, b))
  }

  /** A binary operator applied to two values, left operand first. */
  function Apply(op: BinOp, a: Value, b: Value): ValueOr {
    if op == Equal then Val(Bool(ValuesEqual(a, b)))
    else if op == NotEqual then Val(Bool(!ValuesEqual(a, b)))
    else if a.Number? && b.Number? then Val(Numeric(op, a.n, b.n))
    else Err(if op == Add then OperandsNotAddable else OperandsNotNumbers)
  }

  /** `>=` and `<=` are compiled as negated strict comparisons: the ordering they mean
      is the usual one exactly when neither operand is NaN. */
  lemma NegatedComparisonIsOrderIff(a: Num, b: Num)
    ensures Numeric(GreaterEqual, a, b) == Bool(NumLess(b, a) || NumEqual(a, b)) <==> !a.NaN? && !b.NaN?
    ensures Numeric(LessEqual, a, b) == Bool(NumLess(a, b) || NumEqual(a, b)) <==> !a.NaN? && !b.NaN?
  {
  }
}
