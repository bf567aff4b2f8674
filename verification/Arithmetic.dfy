/** What the operators compute, in real arithmetic: the instructions of the machine, and expressions. */
module Arithmetic {
  import opened Options
  import opened Values
  import opened Bytecode
  import opened Machine
  import Syntax
  import Semantics

  function Finite(x: real): Value {
    Number(Fin(x))
  }

  function Inf(positive: bool): Num {
    if positive then PosInf else NegInf
  }

  /** The instruction at `ip` is the single byte `op`. */
  predicate At(chunk: Chunk, ip: nat, op: byte) {
    ip < |chunk.code| && chunk.code[ip] == op
  }

  /** The instruction takes `a` and `b` off the stack, `b` first, and pushes `v`. */
  predicate Gives(chunk: Chunk, ip: nat, below: seq<Value>, a: Value, b: Value, v: Value) {
    Step(chunk, ip, below + [a, b]) == Running(ip + 1, below + [v])
  }

  ghost predicate IsQuotient(x: real, y: real, q: real) {
    q * y == x
  }

  /** `r` has the sign of the dividend, is smaller than the divisor, and differs from the dividend by a multiple of
      it. */
  ghost predicate IsRemainder(x: real, y: real, r: real) {
    && (x >= 0.0 ==> 0.0 <= r) && (x <= 0.0 ==> r <= 0.0)
    && (-y < r < y || y < r < -y)
    && exists k: int :: Multiple(x, y, r, k)
  }

  ghost predicate Multiple(x: real, y: real, r: real, k: int) {
    x - r == k as real * y
  }

  lemma StepBinary(chunk: Chunk, ip: nat, below: seq<Value>, a: Value, b: Value, op: byte)
    requires At(chunk, ip, op) && (op == EQUAL || GREATER <= op <= MODULO)
    ensures
      var r := Apply(BinaryOpcode(op), a, b);
      Step(chunk, ip, below + [a, b]) == if r.Val? then Running(ip + 1, below + [r.v]) else Faulted(r.e)
  {
    hide Apply, BinaryOpcode;
    var stack := below + [a, b];
    assert PopN(stack, 2) == below && Top(stack, 1) == a && Top(stack, 0) == b;
  }

  // ----- finite numbers -----

  /** The arithmetic instructions on finite operands, left operand below the right one. */
  lemma FiniteArithmetic(chunk: Chunk, ip: nat, below: seq<Value>, x: real, y: real)
    ensures At(chunk, ip, ADD) ==> Gives(chunk, ip, below, Finite(x), Finite(y), Finite(x + y))
    ensures At(chunk, ip, SUBTRACT) ==> Gives(chunk, ip, below, Finite(x), Finite(y), Finite(x - y))
    ensures At(chunk, ip, MULTIPLY) ==> Gives(chunk, ip, below, Finite(x), Finite(y), Finite(x * y))
    ensures At(chunk, ip, DIVIDE) && y != 0.0 ==>
              exists q :: IsQuotient(x, y, q) && Gives(chunk, ip, below, Finite(x), Finite(y), Finite(q))
    ensures At(chunk, ip, MODULO) && y != 0.0 ==>
              exists r :: IsRemainder(x, y, r) && Gives(chunk, ip, below, Finite(x), Finite(y), Finite(r))
  {
    hide Step, IsRemainder, Gives;
    FiniteSums(chunk, ip, below, x, y);
    if At(chunk, ip, DIVIDE) && y != 0.0 {
      FiniteQuotient(chunk, ip, below, x, y);
    }
    if At(chunk, ip, MODULO) && y != 0.0 {
      FiniteRemainder(chunk, ip, below, x, y);
    }
  }

  lemma FiniteSums(chunk: Chunk, ip: nat, below: seq<Value>, x: real, y: real)
    ensures At(chunk, ip, ADD) ==> Gives(chunk, ip, below, Finite(x), Finite(y), Finite(x + y))
    ensures At(chunk, ip, SUBTRACT) ==> Gives(chunk, ip, below, Finite(x), Finite(y), Finite(x - y))
    ensures At(chunk, ip, MULTIPLY) ==> Gives(chunk, ip, below, Finite(x), Finite(y), Finite(x * y))
  {
    hide Step;
    FiniteProduct(x, y);
    if At(chunk, ip, ADD) || At(chunk, ip, SUBTRACT) || At(chunk, ip, MULTIPLY) {
      StepBinary(chunk, ip, below, Finite(x), Finite(y), chunk.code[ip]);
    }
  }

  lemma SameProduct(p: real, q: real, x: real, y: real)
    requires p == x && q == y
    ensures p * q == x * y
  {
  }

  lemma SameQuotient(p: real, q: real, x: real, y: real)
    requires p == x && q == y && y != 0.0
    ensures p / q == x / y
  {
  }

  lemma NumbersMultiply(m: Num, n: Num, x: real, y: real)
    requires m == Fin(x) && n == Fin(y)
    ensures NumMultiply(m, n) == Fin(x * y)
  {
    SameProduct(m.r, n.r, x, y);
    assert NumMultiply(m, n) == Fin(m.r * n.r);
  }

  lemma NumbersDivide(m: Num, n: Num, x: real, y: real)
    requires m == Fin(x) && n == Fin(y) && y != 0.0
    ensures NumDivide(m, n) == Fin(x / y)
  {
    SameQuotient(m.r, n.r, x, y);
    assert NumDivide(m, n) == Fin(m.r / n.r);
  }

  lemma NumbersModulo(m: Num, n: Num, x: real, y: real)
    requires m == Fin(x) && n == Fin(y) && y != 0.0
    ensures NumModulo(m, n) == Fin(x - y * (Truncate(x / y) as real))
  {
    hide Truncate;
    SameQuotient(m.r, n.r, x, y);
    SameProduct(n.r, Truncate(m.r / n.r) as real, y, Truncate(x / y) as real);
    assert NumModulo(m, n) == Fin(m.r - n.r * (Truncate(m.r / n.r) as real));
  }

  lemma FiniteProduct(x: real, y: real)
    ensures Apply(Multiply, Finite(x), Finite(y)) == Val(Finite(x * y))
  {
    hide NumMultiply;
    NumbersMultiply(Fin(x), Fin(y), x, y);
  }

  lemma FiniteRatio(x: real, y: real)
    requires y != 0.0
    ensures Apply(Divide, Finite(x), Finite(y)) == Val(Finite(x / y))
  {
    hide NumDivide;
    NumbersDivide(Fin(x), Fin(y), x, y);
  }

  lemma FiniteModulo(x: real, y: real)
    requires y != 0.0
    ensures Apply(Modulo, Finite(x), Finite(y)) == Val(Finite(x - y * (Truncate(x / y) as real)))
  {
    hide NumModulo, Truncate;
    NumbersModulo(Fin(x), Fin(y), x, y);
  }

  lemma FiniteQuotient(chunk: Chunk, ip: nat, below: seq<Value>, x: real, y: real)
    requires At(chunk, ip, DIVIDE) && y != 0.0
    ensures exists q :: IsQuotient(x, y, q) && Gives(chunk, ip, below, Finite(x), Finite(y), Finite(q))
  {
    hide Step, Apply;
    FiniteRatio(x, y);
    QuotientTimes(x, y);
    StepBinary(chunk, ip, below, Finite(x), Finite(y), DIVIDE);
    assert IsQuotient(x, y, x / y) && Gives(chunk, ip, below, Finite(x), Finite(y), Finite(x / y));
  }

  lemma FiniteRemainder(chunk: Chunk, ip: nat, below: seq<Value>, x: real, y: real)
    requires At(chunk, ip, MODULO) && y != 0.0
    ensures exists r :: IsRemainder(x, y, r) && Gives(chunk, ip, below, Finite(x), Finite(y), Finite(r))
  {
    hide Step, IsRemainder, Truncate, Apply;
    FiniteModulo(x, y);
    StepBinary(chunk, ip, below, Finite(x), Finite(y), MODULO);
    var r := x - y * (Truncate(x / y) as real);
    TruncationRemains(x, y);
    assert IsRemainder(x, y, r) && Gives(chunk, ip, below, Finite(x), Finite(y), Finite(r));
  }

  /** Truncating moves toward zero by less than one. */
  lemma TruncateMeans(q: real)
    ensures q >= 0.0 ==> Truncate(q) as real <= q < Truncate(q) as real + 1.0 && Truncate(q) >= 0
    ensures q <= 0.0 ==> Truncate(q) as real - 1.0 < q <= Truncate(q) as real && Truncate(q) <= 0
  {
  }

  lemma TruncationRemains(x: real, y: real)
    requires y != 0.0
    ensures IsRemainder(x, y, x - y * (Truncate(x / y) as real))
  {
    hide Truncate, IsRemainder;
    QuotientTimes(x, y);
    TruncateMeans(x / y);
    RemainderFrom(x, y, x / y, Truncate(x / y), x - y * (Truncate(x / y) as real));
  }

  lemma RemainderFrom(x: real, y: real, q: real, k: int, r: real)
    requires y != 0.0 && q * y == x && r == x - y * (k as real) && -1.0 < q - k as real < 1.0
    requires (q >= 0.0 ==> q - k as real >= 0.0) && (q <= 0.0 ==> q - k as real <= 0.0)
    ensures IsRemainder(x, y, r)
  {
    hide IsRemainder, SignRule;
    Commutes(q, y);
    Commutes(y, k as real);
    ProductSplits(y, q, k as real);
    assert Multiple(x, y, r, k);
    SignOfProduct(y, q, x);
    SignOfProduct(y, q - k as real, r);
    RemainderOf(x, y, q, q - k as real, r);
  }

  lemma QuotientTimes(x: real, y: real)
    requires y != 0.0
    ensures (x / y) * y == x
  {
  }

  lemma Commutes(a: real, b: real)
    ensures a * b == b * a
  {
  }

  lemma RemainderOf(x: real, y: real, q: real, d: real, r: real)
    requires y != 0.0 && SignRule(y, q, x) && SignRule(y, d, r) && -1.0 < d < 1.0
    requires (q >= 0.0 ==> d >= 0.0) && (q <= 0.0 ==> d <= 0.0)
    requires exists k: int :: Multiple(x, y, r, k)
    ensures IsRemainder(x, y, r)
  {
    hide Multiple;
  }

  lemma ProductSplits(y: real, q: real, k: real)
    ensures y * (q - k) == y * q - y * k
  {
  }

  /** What is known of the product `p` of `y` and `d` without multiplying. */
  predicate SignRule(y: real, d: real, p: real) {
    && (0.0 < d ==> (y > 0.0 ==> p > 0.0) && (y < 0.0 ==> p < 0.0))
    && (d < 0.0 ==> (y > 0.0 ==> p < 0.0) && (y < 0.0 ==> p > 0.0))
    && (d == 0.0 ==> p == 0.0)
    && (-1.0 < d < 1.0 ==> -y < p < y || y < p < -y)
  }

  lemma SignOfProduct(y: real, d: real, p: real)
    requires y != 0.0 && p == y * d
    ensures SignRule(y, d, p)
  {
    hide SignRule;
    if y > 0.0 {
      SignFromPositive(y, d, p);
    } else {
      NegatedLeft(y, d);
      SignFromPositive(-y, d, -p);
      SignFlips(y, d, p);
    }
  }

  lemma SignFromPositive(y: real, d: real, p: real)
    requires y > 0.0 && p == y * d
    ensures SignRule(y, d, p)
  {
    ByUnits(y);
    if d < 1.0 {
      Monotone(y, d, 1.0);
    }
    if -1.0 < d {
      Monotone(y, -1.0, d);
    }
    if 0.0 < d {
      Monotone(y, 0.0, d);
    } else if d < 0.0 {
      Monotone(y, d, 0.0);
    }
  }

  lemma SignFlips(y: real, d: real, p: real)
    requires y < 0.0 && SignRule(-y, d, -p)
    ensures SignRule(y, d, p)
  {
  }

  lemma Monotone(y: real, u: real, v: real)
    requires y > 0.0 && u < v
    ensures y * u < y * v
  {
    ProductSplits(y, v, u);
    Positive(y, v - u);
  }

  lemma ByUnits(y: real)
    ensures y * 1.0 == y && y * 0.0 == 0.0 && y * -1.0 == -y
  {
  }

  lemma Positive(a: real, b: real)
    requires a > 0.0 && b > 0.0
    ensures a * b > 0.0
  {
  }

  lemma NegatedLeft(a: real, b: real)
    ensures -a * b == -(a * b)
  {
  }

  /** There is only one remainder. */
  lemma RemainderIsUnique(x: real, y: real, r: real, s: real)
    requires y != 0.0 && IsRemainder(x, y, r) && IsRemainder(x, y, s)
    ensures r == s
  {
    var k: int :| Multiple(x, y, r, k);
    var l: int :| Multiple(x, y, s, l);
    MultiplesDiffer(x, y, r, s, k, l);
    var d := (k - l) as real;
    if k > l {
      Beyond(y, d, s - r);
    } else if k < l {
      Beyond(y, -d, r - s);
    }
  }

  lemma MultiplesDiffer(x: real, y: real, r: real, s: real, k: int, l: int)
    requires Multiple(x, y, r, k) && Multiple(x, y, s, l)
    ensures s - r == y * (k - l) as real && r - s == y * (l - k) as real
  {
  }

  /** A multiple by one or more is at least as large. */
  lemma Beyond(y: real, d: real, p: real)
    requires d >= 1.0 && p == y * d
    ensures (y >= 0.0 ==> p >= y) && (y <= 0.0 ==> p <= y)
  {
    assert y * (d - 1.0) == p - y;
  }

  /** The comparing instructions on finite operands. */
  lemma FiniteComparison(chunk: Chunk, ip: nat, below: seq<Value>, x: real, y: real)
    ensures At(chunk, ip, LESS) ==> Gives(chunk, ip, below, Finite(x), Finite(y), Bool(x < y))
    ensures At(chunk, ip, GREATER) ==> Gives(chunk, ip, below, Finite(x), Finite(y), Bool(x > y))
    ensures At(chunk, ip, EQUAL) ==> Gives(chunk, ip, below, Finite(x), Finite(y), Bool(x == y))
  {
    hide Step;
    if At(chunk, ip, LESS) || At(chunk, ip, GREATER) || At(chunk, ip, EQUAL) {
      StepBinary(chunk, ip, below, Finite(x), Finite(y), chunk.code[ip]);
    }
  }

  // ----- infinities and NaN -----

  /** NaN spoils every sum, difference, product, quotient and remainder, and compares with nothing, not even itself. */
  lemma NaNSpreads(chunk: Chunk, ip: nat, below: seq<Value>, a: Num, b: Num)
    requires a.NaN? || b.NaN?
    ensures ip < |chunk.code| && ADD <= chunk.code[ip] <= MODULO ==>
              Gives(chunk, ip, below, Number(a), Number(b), Number(NaN))
    ensures ip < |chunk.code| && (EQUAL <= chunk.code[ip] <= LESS) ==>
              Gives(chunk, ip, below, Number(a), Number(b), Bool(false))
  {
    hide Step;
    if ip < |chunk.code| && EQUAL <= chunk.code[ip] <= MODULO {
      StepBinary(chunk, ip, below, Number(a), Number(b), chunk.code[ip]);
    }
  }

  /** Sums and differences with an infinity. */
  lemma InfiniteSums(chunk: Chunk, ip: nat, below: seq<Value>, x: real, p: bool, q: bool)
    ensures At(chunk, ip, ADD) ==>
              && Gives(chunk, ip, below, Number(Inf(p)), Finite(x), Number(Inf(p)))
              && Gives(chunk, ip, below, Finite(x), Number(Inf(p)), Number(Inf(p)))
              && Gives(chunk, ip, below, Number(Inf(p)), Number(Inf(q)), Number(if p == q then Inf(p) else NaN))
    ensures At(chunk, ip, SUBTRACT) ==>
              && Gives(chunk, ip, below, Number(Inf(p)), Finite(x), Number(Inf(p)))
              && Gives(chunk, ip, below, Finite(x), Number(Inf(p)), Number(Inf(!p)))
              && Gives(chunk, ip, below, Number(Inf(p)), Number(Inf(q)), Number(if p == q then NaN else Inf(p)))
  {
    hide Step;
    if At(chunk, ip, ADD) || At(chunk, ip, SUBTRACT) {
      StepBinary(chunk, ip, below, Number(Inf(p)), Finite(x), chunk.code[ip]);
      StepBinary(chunk, ip, below, Finite(x), Number(Inf(p)), chunk.code[ip]);
      StepBinary(chunk, ip, below, Number(Inf(p)), Number(Inf(q)), chunk.code[ip]);
    }
  }

  /** Products with an infinity. */
  lemma InfiniteProducts(chunk: Chunk, ip: nat, below: seq<Value>, x: real, p: bool, q: bool)
    requires At(chunk, ip, MULTIPLY)
    ensures Gives(chunk, ip, below, Number(Inf(p)), Finite(x), Number(if x == 0.0 then NaN else Inf(p == (x > 0.0))))
    ensures Gives(chunk, ip, below, Finite(x), Number(Inf(p)), Number(if x == 0.0 then NaN else Inf(p == (x > 0.0))))
    ensures Gives(chunk, ip, below, Number(Inf(p)), Number(Inf(q)), Number(Inf(p == q)))
  {
    hide Step;
    StepBinary(chunk, ip, below, Number(Inf(p)), Finite(x), MULTIPLY);
    StepBinary(chunk, ip, below, Finite(x), Number(Inf(p)), MULTIPLY);
    StepBinary(chunk, ip, below, Number(Inf(p)), Number(Inf(q)), MULTIPLY);
  }

  /** Quotients with an infinity or by zero, which has no sign here. */
  lemma InfiniteQuotients(chunk: Chunk, ip: nat, below: seq<Value>, x: real, p: bool, q: bool)
    requires At(chunk, ip, DIVIDE)
    ensures Gives(chunk, ip, below, Number(Inf(p)), Finite(x), Number(Inf(p == (x >= 0.0))))
    ensures Gives(chunk, ip, below, Finite(x), Number(Inf(p)), Finite(0.0))
    ensures Gives(chunk, ip, below, Number(Inf(p)), Number(Inf(q)), Number(NaN))
    ensures Gives(chunk, ip, below, Finite(x), Finite(0.0), Number(if x == 0.0 then NaN else Inf(x > 0.0)))
  {
    hide Step;
    StepBinary(chunk, ip, below, Number(Inf(p)), Finite(x), DIVIDE);
    StepBinary(chunk, ip, below, Finite(x), Number(Inf(p)), DIVIDE);
    StepBinary(chunk, ip, below, Number(Inf(p)), Number(Inf(q)), DIVIDE);
    StepBinary(chunk, ip, below, Finite(x), Finite(0.0), DIVIDE);
  }

  /** Remainders of an infinity, by one, or by zero. */
  lemma InfiniteRemainders(chunk: Chunk, ip: nat, below: seq<Value>, a: Num, x: real, p: bool)
    requires At(chunk, ip, MODULO)
    ensures Gives(chunk, ip, below, Number(Inf(p)), Number(a), Number(NaN))
    ensures Gives(chunk, ip, below, Finite(x), Number(Inf(p)), Finite(x))
    ensures Gives(chunk, ip, below, Finite(x), Finite(0.0), Number(NaN))
  {
    hide Step;
    StepBinary(chunk, ip, below, Number(Inf(p)), Number(a), MODULO);
    StepBinary(chunk, ip, below, Finite(x), Number(Inf(p)), MODULO);
    StepBinary(chunk, ip, below, Finite(x), Finite(0.0), MODULO);
  }

  /** Negative infinity lies below every finite number, positive infinity above. */
  lemma InfiniteComparison(chunk: Chunk, ip: nat, below: seq<Value>, x: real, p: bool, q: bool)
    ensures At(chunk, ip, LESS) ==>
              && Gives(chunk, ip, below, Number(Inf(p)), Finite(x), Bool(!p))
              && Gives(chunk, ip, below, Finite(x), Number(Inf(p)), Bool(p))
              && Gives(chunk, ip, below, Number(Inf(p)), Number(Inf(q)), Bool(!p && q))
    ensures At(chunk, ip, GREATER) ==>
              && Gives(chunk, ip, below, Number(Inf(p)), Finite(x), Bool(p))
              && Gives(chunk, ip, below, Finite(x), Number(Inf(p)), Bool(!p))
              && Gives(chunk, ip, below, Number(Inf(p)), Number(Inf(q)), Bool(p && !q))
    ensures At(chunk, ip, EQUAL) ==>
              && Gives(chunk, ip, below, Number(Inf(p)), Finite(x), Bool(false))
              && Gives(chunk, ip, below, Finite(x), Number(Inf(p)), Bool(false))
              && Gives(chunk, ip, below, Number(Inf(p)), Number(Inf(q)), Bool(p == q))
  {
    hide Step;
    if At(chunk, ip, LESS) || At(chunk, ip, GREATER) || At(chunk, ip, EQUAL) {
      StepBinary(chunk, ip, below, Number(Inf(p)), Finite(x), chunk.code[ip]);
      StepBinary(chunk, ip, below, Finite(x), Number(Inf(p)), chunk.code[ip]);
      StepBinary(chunk, ip, below, Number(Inf(p)), Number(Inf(q)), chunk.code[ip]);
    }
  }

  // ----- other values -----

  /** Anything but two numbers is an error for arithmetic and order; equality of other values is identity. */
  lemma OtherValues(chunk: Chunk, ip: nat, below: seq<Value>, a: Value, b: Value)
    requires !a.Number? || !b.Number?
    ensures At(chunk, ip, ADD) ==> Step(chunk, ip, below + [a, b]) == Faulted(OperandsNotAddable)
    ensures ip < |chunk.code| && (GREATER <= chunk.code[ip] <= LESS || SUBTRACT <= chunk.code[ip] <= MODULO) ==>
              Step(chunk, ip, below + [a, b]) == Faulted(OperandsNotNumbers)
    ensures At(chunk, ip, EQUAL) ==> Gives(chunk, ip, below, a, b, Bool(a == b))
  {
    hide Step;
    if ip < |chunk.code| && EQUAL <= chunk.code[ip] <= MODULO {
      StepBinary(chunk, ip, below, a, b, chunk.code[ip]);
    }
  }

  /** Sign change, and `!`, of which only nil and false make true. */
  lemma UnaryInstructions(chunk: Chunk, ip: nat, below: seq<Value>, v: Value)
    ensures At(chunk, ip, NEGATE) ==>
              Step(chunk, ip, below + [v]) ==
                match v
                case Number(Fin(x)) => Running(ip + 1, below + [Finite(0.0 - x)])
                case Number(PosInf) => Running(ip + 1, below + [Number(NegInf)])
                case Number(NegInf) => Running(ip + 1, below + [Number(PosInf)])
                case Number(NaN) => Running(ip + 1, below + [Number(NaN)])
                case _ => Faulted(OperandNotNumber)
    ensures At(chunk, ip, NOT) ==>
              Step(chunk, ip, below + [v]) == Running(ip + 1, below + [Bool(v == Nil || v == Bool(false))])
  {
    assert PopN(below + [v], 1) == below;
  }

  /** Exactly nil and false take the jump, over `lo + 256 * hi` bytes, and the value stays. */
  lemma FalseJumps(chunk: Chunk, ip: nat, below: seq<Value>, v: Value)
    requires At(chunk, ip, JUMP_IF_FALSE) && ip + 3 <= |chunk.code|
    ensures
      var distance := chunk.code[ip + 1] as int + 256 * (chunk.code[ip + 2] as int);
      Step(chunk, ip, below + [v]) ==
        Running(if v == Nil || v == Bool(false) then ip + 3 + distance else ip + 3, below + [v])
  {
  }

  // ----- expressions -----

  /** The operators of the language on finite numbers. */
  function Computed(op: BinOp, x: real, y: real): Value
    requires op != Divide && op != Modulo
  {
    match op
    case Add => Finite(x + y)
    case Subtract => Finite(x - y)
    case Multiply => Finite(x * y)
    case Less => Bool(x < y)
    case LessEqual => Bool(x <= y)
    case Greater => Bool(x > y)
    case GreaterEqual => Bool(x >= y)
    case Equal => Bool(x == y)
    case _ => Bool(x != y)
  }

  ghost predicate Computes(op: BinOp, x: real, y: real, v: Value) {
    if op == Divide then y != 0.0 ==> v.Number? && v.n.Fin? && IsQuotient(x, y, v.n.r)
    else if op == Modulo then y != 0.0 ==> v.Number? && v.n.Fin? && IsRemainder(x, y, v.n.r)
    else v == Computed(op, x, y)
  }

  /** An expression computes with the values of its operands, the left one evaluated first. */
  lemma BinaryComputes(
    op: BinOp, l: Syntax.Expr, r: Syntax.Expr, env: Semantics.Env, x: real, env1: Semantics.Env, y: real,
    env2: Semantics.Env
  )
    requires Semantics.Evaluate(l, env) == Semantics.Value(Finite(x), env1)
    requires Semantics.Evaluate(r, env1) == Semantics.Value(Finite(y), env2)
    ensures
      var e := Semantics.Evaluate(Syntax.Binary(op, l, r), env);
      e.Value? && e.env == env2 && Computes(op, x, y, e.v)
  {
    AppliedComputes(op, x, y);
    EvaluatesBinary(op, l, r, env);
  }

  lemma EvaluatesBinary(op: BinOp, l: Syntax.Expr, r: Syntax.Expr, env: Semantics.Env)
    requires Semantics.Evaluate(l, env).Value?
    requires Semantics.Evaluate(r, Semantics.Evaluate(l, env).env).Value?
    ensures
      var a := Semantics.Evaluate(l, env);
      var b := Semantics.Evaluate(r, a.env);
      var v := Apply(op, a.v, b.v);
      Semantics.Evaluate(Syntax.Binary(op, l, r), env) ==
        if v.Val? then Semantics.Value(v.v, b.env) else Semantics.Raises(v.e)
  {
    hide Apply;
  }

  lemma AppliedComputes(op: BinOp, x: real, y: real)
    ensures Apply(op, Finite(x), Finite(y)).Val? && Computes(op, x, y, Apply(op, Finite(x), Finite(y)).v)
  {
    hide IsRemainder, Truncate, NumMultiply, NumDivide, NumModulo;
    FiniteProduct(x, y);
    if op == Divide && y != 0.0 {
      FiniteRatio(x, y);
      QuotientTimes(x, y);
    } else if op == Modulo && y != 0.0 {
      FiniteModulo(x, y);
      TruncationRemains(x, y);
    }
  }

  /** So does a compound assignment, with the value of the variable before its right-hand side. */
  lemma UpdateComputes(
    op: BinOp, name: Syntax.Name, e: Syntax.Expr, env: Semantics.Env, x: real, y: real, env1: Semantics.Env
  )
    requires Semantics.Find(env, name) >= 0 && env[Semantics.Find(env, name)].value == Finite(x)
    requires Semantics.Evaluate(e, env) == Semantics.Value(Finite(y), env1)
    ensures
      var i, r := Semantics.Find(env, name), Semantics.Evaluate(Syntax.Update(op, name, e), env);
      && r.Value? && i < |env1| && Computes(op, x, y, r.v)
      && r.env == env1[i := Semantics.Binding(env1[i].name, r.v)]
  {
    hide Computes, Apply;
    AppliedComputes(op, x, y);
  }
}
