/** Running the code of an expression does what evaluating the expression means. */
module ExprSimulation {
  import opened Values
  import opened Syntax
  import opened Bytecode
  import opened Codegen
  import opened Machine
  import opened Semantics

  // ----- bindings on the stack -----

  function Slots(env: Env): (s: seq<Values.Value>)
    ensures |s| == |env|
    ensures forall i :: 0 <= i < |env| ==> s[i] == env[i].value
  {
    seq(|env|, i requires 0 <= i < |env| => env[i].value)
  }

  /** The compile-time variables are the run-time bindings, plus possibly one being initialized. */
  ghost predicate Agree(env: Env, locals: Locals) {
    && |env| <= |locals| <= |env| + 1 && |env| <= MAX_LOCALS
    && (forall i :: 0 <= i < |env| ==> env[i].name == locals[i].name)
    && (|locals| == |env| + 1 ==> locals[|env|].depth == -1)
  }

  ghost predicate SameNames(a: Env, b: Env) {
    |a| == |b| && forall i :: 0 <= i < |a| ==> a[i].name == b[i].name
  }

  lemma {:induction false} FindInPrefix(env: Env, locals: Locals, x: Name)
    requires |env| == |locals| && forall i :: 0 <= i < |env| ==> env[i].name == locals[i].name
    ensures Find(env, x) == Resolve(locals, x)
  {
    if env != [] {
      FindInPrefix(env[..|env| - 1], locals[..|locals| - 1], x);
    }
  }

  /** Static resolution finds the slot of the innermost binding with that name. */
  lemma ResolvesToSlot(env: Env, locals: Locals, x: Name)
    requires Agree(env, locals) && Readable(locals, x)
    ensures Find(env, x) == Resolve(locals, x) == Slot(locals, x) as int
    ensures 0 <= Find(env, x) < |env|
  {
    ResolvesToBinding(env, locals, x);
    SmallByte(Resolve(locals, x));
  }

  lemma SmallByte(n: nat)
    requires n < 256
    ensures n % 256 == n
  {
  }

  lemma ResolvesToBinding(env: Env, locals: Locals, x: Name)
    requires Agree(env, locals) && Readable(locals, x)
    ensures 0 <= Find(env, x) == Resolve(locals, x) < |env|
  {
    FindInPrefix(env, locals[..|env|], x);
    ResolveSkipsUnready(locals, |env|, x);
  }

  /** A readable name is not the one still being initialized. */
  lemma ResolveSkipsUnready(locals: Locals, n: nat, x: Name)
    requires Readable(locals, x) && n <= |locals| <= n + 1
    requires |locals| == n + 1 ==> locals[n].depth == -1
    ensures Resolve(locals, x) == Resolve(locals[..n], x)
  {
    if |locals| == n {
      assert locals[..n] == locals;
    }
  }

  lemma {:induction false} FindDependsOnNames(a: Env, b: Env, x: Name)
    requires SameNames(a, b)
    ensures Find(a, x) == Find(b, x)
  {
    if a != [] {
      FindDependsOnNames(a[..|a| - 1], b[..|b| - 1], x);
    }
  }

  /** The constants of a construct sit in the pool from index `k` on. */
  ghost predicate Pooled(constants: seq<Num>, k: nat, part: seq<Num>) {
    k + |part| <= |constants| && constants[k..k + |part|] == part
  }

  lemma PooledSplit(constants: seq<Num>, k: nat, a: seq<Num>, b: seq<Num>)
    requires Pooled(constants, k, a + b)
    ensures Pooled(constants, k, a) && Pooled(constants, k + |a|, b)
  {
    assert constants[k..k + |a|] == (a + b)[..|a|];
    assert constants[k + |a|..k + |a| + |b|] == (a + b)[|a|..];
  }

  // ----- runs -----

  ghost predicate Goes(chunk: Chunk, s: State, n: nat, t: State) {
    Steps(chunk, s, n) == t
  }

  lemma Chain(chunk: Chunk, s: State, m: nat, t: State, n: nat, u: State)
    requires Goes(chunk, s, m, t) && Goes(chunk, t, n, u)
    ensures Goes(chunk, s, m + n, u)
  {
    StepsAdd(chunk, s, m, n);
  }

  lemma OneStep(chunk: Chunk, ip: nat, stack: seq<Values.Value>)
    ensures Goes(chunk, Running(ip, stack), 1, Step(chunk, ip, stack))
  {
    hide Step;
    assert Steps(chunk, Running(ip, stack), 1) == Steps(chunk, StepState(chunk, Running(ip, stack)), 0);
  }

  lemma ZeroSteps(chunk: Chunk, s: State)
    ensures Goes(chunk, s, 0, s)
  {
  }

  // ----- single instructions -----

  lemma ReadPlacedU16(code: Code, pc: nat, op: byte, n: nat)
    requires Placed(code, pc, JumpCode(op, n)) && n <= UINT16_MAX
    ensures pc + 3 <= |code| && code[pc] == op && ReadU16(code, pc + 1) == n
  {
    var part := JumpCode(op, n);
    PlacedAt(code, pc, part, 0);
    PlacedAt(code, pc, part, 1);
    PlacedAt(code, pc, part, 2);
    assert part[1] == U16(n)[0] && part[2] == U16(n)[1];
    U16RoundTrips(n);
  }

  lemma StepLiteral(chunk: Chunk, l: Literal, k: nat, pc: nat, stack: seq<Values.Value>)
    requires Placed(chunk.code, pc, LiteralCode(l, k))
    requires Pooled(chunk.constants, k, LiteralConstants(l)) && (LiteralConstants(l) == [] || k <= UINT16_MAX)
    ensures Goes(chunk, Running(pc, stack), 1, Running(pc + |LiteralCode(l, k)|, stack + [LiteralValue(l)]))
  {
    var part := LiteralCode(l, k);
    PlacedAt(chunk.code, pc, part, 0);
    OneStep(chunk, pc, stack);
    if l.LitNumber? {
      if IsInt32(l.r) {
        StepImmediate(chunk, l.r.Floor, pc, stack);
      } else {
        assert chunk.constants[k..k + 1][0] == Fin(l.r);
        PlacedAt(chunk.code, pc, part, 1);
        if k >= 256 {
          PlacedAt(chunk.code, pc, part, 2);
          assert part[1] == U16(k)[0] && part[2] == U16(k)[1];
          U16RoundTrips(k);
        }
      }
    }
  }

  lemma StepImmediate(chunk: Chunk, n: int, pc: nat, stack: seq<Values.Value>)
    requires -0x8000_0000 <= n < 0x8000_0000
    requires Placed(chunk.code, pc, [IMMI] + I32(n))
    ensures Step(chunk, pc, stack) == Running(pc + 5, stack + [Number(Fin(n as real))])
  {
    hide Apply, NumNegate;
    var part := [IMMI] + I32(n);
    PlacedAt(chunk.code, pc, part, 0);
    PlacedAt(chunk.code, pc, part, 1);
    PlacedAt(chunk.code, pc, part, 2);
    PlacedAt(chunk.code, pc, part, 3);
    PlacedAt(chunk.code, pc, part, 4);
    var c := I32(n);
    assert part[1] == c[0] && part[2] == c[1] && part[3] == c[2] && part[4] == c[3];
    SameI32(chunk.code, pc + 1, c);
    I32RoundTrips(n);
  }

  lemma SameI32(code: Code, at: nat, c: Code)
    requires |c| == 4 && at + 4 <= |code|
    requires code[at] == c[0] && code[at + 1] == c[1] && code[at + 2] == c[2] && code[at + 3] == c[3]
    ensures ReadI32(code, at) == ReadI32(c, 0)
  {
  }

  lemma StepLoad(chunk: Chunk, locals: Locals, x: Name, env: Env, temps: seq<Values.Value>, pc: nat)
    requires Placed(chunk.code, pc, LoadCode(locals, x))
    requires Agree(env, locals) && Readable(locals, x)
    ensures Find(env, x) >= 0
    ensures
      Goes(chunk, Running(pc, Slots(env) + temps), 1, Running(pc + 3, Slots(env) + temps + [env[Find(env, x)].value]))
  {
    hide Apply, NumNegate;
    ResolvesToSlot(env, locals, x);
    PlacedAt(chunk.code, pc, LoadCode(locals, x), 0);
    PlacedAt(chunk.code, pc, LoadCode(locals, x), 1);
    PlacedAt(chunk.code, pc, LoadCode(locals, x), 2);
    OneStep(chunk, pc, Slots(env) + temps);
  }

  lemma StepStore(chunk: Chunk, locals: Locals, x: Name, env: Env, temps: seq<Values.Value>, v: Values.Value, pc: nat)
    requires Placed(chunk.code, pc, StoreCode(locals, x))
    requires Agree(env, locals) && Readable(locals, x)
    ensures Find(env, x) >= 0
    ensures Goes(chunk, Running(pc, Slots(env) + temps + [v]), 1,
                 Running(pc + 3, Slots(Assigned(env, Find(env, x), v)) + temps + [v]))
  {
    hide Apply, NumNegate;
    ResolvesToSlot(env, locals, x);
    PlacedAt(chunk.code, pc, StoreCode(locals, x), 0);
    PlacedAt(chunk.code, pc, StoreCode(locals, x), 1);
    PlacedAt(chunk.code, pc, StoreCode(locals, x), 2);
    var stack := Slots(env) + temps + [v];
    OneStep(chunk, pc, stack);
    var i := Find(env, x);
    assert stack[i := v] == Slots(Assigned(env, i, v)) + temps + [v];
  }

  /** One opcode byte without operands. */
  lemma StepByte(chunk: Chunk, op: byte, pc: nat, stack: seq<Values.Value>)
    requires Placed(chunk.code, pc, [op]) && OperandSize(op) == 0
    ensures pc < |chunk.code| && chunk.code[pc] == op
    ensures Goes(chunk, Running(pc, stack), 1, Step(chunk, pc, stack))
  {
    hide Step;
    PlacedAt(chunk.code, pc, [op], 0);
    OneStep(chunk, pc, stack);
  }

  lemma StepPop(chunk: Chunk, pc: nat, stack: seq<Values.Value>, v: Values.Value)
    requires Placed(chunk.code, pc, [POP])
    ensures Goes(chunk, Running(pc, stack + [v]), 1, Running(pc + 1, stack))
  {
    hide Apply, NumNegate;
    StepByte(chunk, POP, pc, stack + [v]);
    assert PopN(stack + [v], 1) == stack;
  }

  lemma StepNegate(chunk: Chunk, pc: nat, stack: seq<Values.Value>, v: Values.Value)
    requires Placed(chunk.code, pc, [NEGATE])
    ensures Goes(chunk, Running(pc, stack + [v]), 1,
                 if v.Number? then Running(pc + 1, stack + [Number(NumNegate(v.n))]) else Faulted(OperandNotNumber))
  {
    hide Apply, NumNegate;
    StepByte(chunk, NEGATE, pc, stack + [v]);
    assert PopN(stack + [v], 1) == stack;
  }

  lemma StepNot(chunk: Chunk, pc: nat, stack: seq<Values.Value>, v: Values.Value)
    requires Placed(chunk.code, pc, [NOT])
    ensures Goes(chunk, Running(pc, stack + [v]), 1, Running(pc + 1, stack + [Bool(IsFalsey(v))]))
  {
    hide Apply, NumNegate;
    StepByte(chunk, NOT, pc, stack + [v]);
    assert PopN(stack + [v], 1) == stack;
  }

  /** The opcode that an operator's code starts with, and the operator that opcode performs by itself. */
  function PlainOperator(op: BinOp): BinOp {
    match op
    case NotEqual => Equal
    case GreaterEqual => Less
    case LessEqual => Greater
    case _ => op
  }

  predicate IsNegated(op: BinOp) {
    op == NotEqual || op == GreaterEqual || op == LessEqual
  }

  /** `!=`, `>=` and `<=` run as the opposite comparison followed by a negation. */
  lemma NegatedOperators(op: BinOp, a: Values.Value, b: Values.Value)
    ensures
      match Apply(PlainOperator(op), a, b)
      case Err(e) => Apply(op, a, b) == Err(e)
      case Val(v) => Apply(op, a, b) == Val(if IsNegated(op) then Bool(IsFalsey(v)) else v)
  {
  }

  lemma StepPlainOperator(chunk: Chunk, op: BinOp, pc: nat, stack: seq<Values.Value>, a: Values.Value, b: Values.Value)
    requires !IsNegated(op) && Placed(chunk.code, pc, OperatorCode(op))
    ensures |OperatorCode(op)| == 1
    ensures
      match Apply(op, a, b)
      case Err(e) => Goes(chunk, Running(pc, stack + [a] + [b]), 1, Faulted(e))
      case Val(v) => Goes(chunk, Running(pc, stack + [a] + [b]), 1, Running(pc + 1, stack + [v]))
  {
    hide Apply, NumNegate;
    var code := OperatorCode(op)[0];
    assert OperatorCode(op) == [code];
    var full := stack + [a] + [b];
    StepByte(chunk, code, pc, full);
    assert PopN(full, 2) == stack && Top(full, 1) == a && Top(full, 0) == b;
    assert BinaryOpcode(code) == op;
  }

  lemma RunOperator(
    chunk: Chunk, op: BinOp, pc: nat, stack: seq<Values.Value>, a: Values.Value, b: Values.Value
  ) returns (n: nat)
    requires Placed(chunk.code, pc, OperatorCode(op))
    ensures
      match Apply(op, a, b)
      case Err(e) => Goes(chunk, Running(pc, stack + [a] + [b]), n, Faulted(e))
      case Val(v) => Goes(chunk, Running(pc, stack + [a] + [b]), n, Running(pc + |OperatorCode(op)|, stack + [v]))
  {
    hide Apply, Goes, IsFalsey;
    var plain := PlainOperator(op);
    NegatedOperators(op, a, b);
    if IsNegated(op) {
      assert OperatorCode(op) == OperatorCode(plain) + [NOT];
      PlacedSplit(chunk.code, pc, OperatorCode(plain), [NOT]);
    }
    StepPlainOperator(chunk, plain, pc, stack, a, b);
    n := 1;
    if IsNegated(op) && Apply(plain, a, b).Val? {
      var v := Apply(plain, a, b).v;
      StepNot(chunk, pc + 1, stack, v);
      Chain(chunk, Running(pc, stack + [a] + [b]), 1, Running(pc + 1, stack + [v]), 1,
        Running(pc + 2, stack + [Bool(IsFalsey(v))]));
      n := 2;
    }
  }

  lemma StepJump(chunk: Chunk, pc: nat, stack: seq<Values.Value>, n: nat)
    requires Placed(chunk.code, pc, JumpCode(JUMP, n)) && Fits(n)
    ensures Goes(chunk, Running(pc, stack), 1, Running(pc + 3 + n, stack))
  {
    hide Apply, NumNegate;
    ReadPlacedU16(chunk.code, pc, JUMP, n);
    OneStep(chunk, pc, stack);
  }

  lemma StepLoop(chunk: Chunk, pc: nat, stack: seq<Values.Value>, n: nat)
    requires Placed(chunk.code, pc, JumpCode(LOOP, n)) && Fits(n) && n <= pc + 3
    ensures Goes(chunk, Running(pc, stack), 1, Running(pc + 3 - n, stack))
  {
    hide Apply, NumNegate;
    ReadPlacedU16(chunk.code, pc, LOOP, n);
    OneStep(chunk, pc, stack);
  }

  lemma StepJumpIfFalse(chunk: Chunk, pc: nat, stack: seq<Values.Value>, v: Values.Value, n: nat)
    requires Placed(chunk.code, pc, JumpCode(JUMP_IF_FALSE, n)) && Fits(n)
    ensures Goes(chunk, Running(pc, stack + [v]), 1, Running(if IsFalsey(v) then pc + 3 + n else pc + 3, stack + [v]))
  {
    hide Apply, NumNegate;
    ReadPlacedU16(chunk.code, pc, JUMP_IF_FALSE, n);
    OneStep(chunk, pc, stack + [v]);
  }

  // ----- whole expressions -----

  /** From `pc` with the bindings and `temps` on the stack, the code of `e` leaves the value of `e` on top. */
  ghost predicate ExprRuns(chunk: Chunk, e: Expr, env: Env, temps: seq<Values.Value>, pc: nat, size: nat, n: nat) {
    match Evaluate(e, env)
    case Value(v, env') =>
      && SameNames(env', env)
      && Goes(chunk, Running(pc, Slots(env) + temps), n, Running(pc + size, Slots(env') + temps + [v]))
    case Raises(err) => Goes(chunk, Running(pc, Slots(env) + temps), n, Faulted(err))
    case Unbound => false
  }

  ghost predicate ExprReady(chunk: Chunk, e: Expr, env: Env, locals: Locals, k: nat, pc: nat) {
    && Placed(chunk.code, pc, ExprCode(e, locals, k))
    && Pooled(chunk.constants, k, ExprConstants(e))
    && ExprOk(e, locals, k) && Agree(env, locals)
  }

  lemma SetParts(e: Expr, env: Env, locals: Locals, k: nat)
    requires e.Set? && ExprOk(e, locals, k)
    ensures ExprCode(e, locals, k) == ExprCode(e.value, locals, k) + StoreCode(locals, e.x)
    ensures ExprConstants(e) == ExprConstants(e.value)
    ensures Readable(locals, e.x) && ExprOk(e.value, locals, k)
    ensures
      var r := Evaluate(e.value, env);
      Find(env, e.x) >= 0 ==>
        Evaluate(e, env) == if r.Value? then Value(r.v, Assigned(r.env, Find(env, e.x), r.v)) else r
  {
  }

  lemma UpdateParts(e: Expr, env: Env, locals: Locals, k: nat)
    requires e.Update? && ExprOk(e, locals, k)
    ensures ExprCode(e, locals, k) ==
            LoadCode(locals, e.x) + (ExprCode(e.value, locals, k) + (OperatorCode(e.op) + StoreCode(locals, e.x)))
    ensures ExprConstants(e) == ExprConstants(e.value)
    ensures Readable(locals, e.x) && ExprOk(e.value, locals, k)
    ensures
      var r := Evaluate(e.value, env);
      if Find(env, e.x) < 0 then true
      else if !r.Value? then Evaluate(e, env) == r
      else match Apply(e.op, env[Find(env, e.x)].value, r.v)
        case Err(err) => Evaluate(e, env) == Raises(err)
        case Val(v) => Evaluate(e, env) == Value(v, Assigned(r.env, Find(env, e.x), v))
  {
    hide Apply;
  }

  lemma UnaryParts(e: Expr, x: Expr, op: byte, env: Env, locals: Locals, k: nat)
    requires (op == NEGATE && e == Negate(x)) || (op == NOT && e == Not(x))
    requires ExprOk(e, locals, k)
    ensures ExprCode(e, locals, k) == ExprCode(x, locals, k) + [op]
    ensures ExprConstants(e) == ExprConstants(x) && ExprOk(x, locals, k)
    ensures
      var r := Evaluate(x, env);
      Evaluate(e, env) ==
        if !r.Value? then r
        else if op == NOT then Value(Bool(IsFalsey(r.v)), r.env)
        else if r.v.Number? then Value(Number(NumNegate(r.v.n)), r.env) else Raises(OperandNotNumber)
  {
  }

  lemma BinaryParts(e: Expr, env: Env, locals: Locals, k: nat)
    requires e.Binary? && ExprOk(e, locals, k)
    ensures
      var k2 := k + |ExprConstants(e.left)|;
      && ExprCode(e, locals, k) == ExprCode(e.left, locals, k) + (ExprCode(e.right, locals, k2) + OperatorCode(e.op))
      && ExprOk(e.left, locals, k) && ExprOk(e.right, locals, k2)
    ensures ExprConstants(e) == ExprConstants(e.left) + ExprConstants(e.right)
    ensures
      var a := Evaluate(e.left, env);
      Evaluate(e, env) ==
        if !a.Value? then a
        else var b := Evaluate(e.right, a.env);
        if !b.Value? then b
        else match Apply(e.op, a.v, b.v) case Err(err) => Raises(err) case Val(v) => Value(v, b.env)
  {
    hide Apply;
  }

  lemma AndParts(l: Expr, r: Expr, locals: Locals, k: nat)
    requires ExprOk(And(l, r), locals, k)
    ensures
      var k2 := k + |ExprConstants(l)|;
      var rc := ExprCode(r, locals, k2);
      && ExprCode(And(l, r), locals, k) == ExprCode(l, locals, k) + (JumpCode(JUMP_IF_FALSE, |rc| + 1) + ([POP] + rc))
      && ExprOk(l, locals, k) && ExprOk(r, locals, k2) && Fits(|rc| + 1)
    ensures ExprConstants(And(l, r)) == ExprConstants(l) + ExprConstants(r)
  {
    hide JumpCode, Fits;
  }

  lemma AndMeans(e: Expr, env: Env)
    requires e.And?
    ensures
      var a := Evaluate(e.left, env);
      Evaluate(e, env) == if !a.Value? || IsFalsey(a.v) then a else Evaluate(e.right, a.env)
  {
  }

  lemma OrParts(l: Expr, r: Expr, locals: Locals, k: nat)
    requires ExprOk(Or(l, r), locals, k)
    ensures
      var k2 := k + |ExprConstants(l)|;
      var rc := ExprCode(r, locals, k2);
      && ExprCode(Or(l, r), locals, k) ==
         ExprCode(l, locals, k) + (JumpCode(JUMP_IF_FALSE, 3) + (JumpCode(JUMP, |rc| + 1) + ([POP] + rc)))
      && ExprOk(l, locals, k) && ExprOk(r, locals, k2) && Fits(|rc| + 1)
    ensures ExprConstants(Or(l, r)) == ExprConstants(l) + ExprConstants(r)
  {
    hide JumpCode, Fits;
  }

  lemma OrMeans(e: Expr, env: Env)
    requires e.Or?
    ensures
      var a := Evaluate(e.left, env);
      Evaluate(e, env) == if !a.Value? || !IsFalsey(a.v) then a else Evaluate(e.right, a.env)
  {
  }

  lemma AgreeKeeps(env: Env, env': Env, locals: Locals)
    requires Agree(env, locals) && SameNames(env', env)
    ensures Agree(env', locals)
  {
  }

  lemma {:induction false} ExprSimulates(
    chunk: Chunk, e: Expr, env: Env, locals: Locals, k: nat, pc: nat, temps: seq<Values.Value>
  )
    returns (n: nat)
    requires ExprReady(chunk, e, env, locals, k, pc)
    ensures ExprRuns(chunk, e, env, temps, pc, |ExprCode(e, locals, k)|, n)
    decreases e, 1
  {
    hide Goes, Placed, Pooled, LiteralCode, Slots;
    match e
    case Lit(l) =>
      StepLiteral(chunk, l, k, pc, Slots(env) + temps);
      n := 1;
    case Var(x) =>
      StepLoad(chunk, locals, x, env, temps, pc);
      n := 1;
    case Set(x, v) => n := SetSimulates(chunk, e, env, locals, k, pc, temps);
    case Update(op, x, v) => n := UpdateSimulates(chunk, e, env, locals, k, pc, temps);
    case Negate(x) => n := UnarySimulates(chunk, e, x, NEGATE, env, locals, k, pc, temps);
    case Not(x) => n := UnarySimulates(chunk, e, x, NOT, env, locals, k, pc, temps);
    case Binary(op, l, r) => n := BinarySimulates(chunk, e, env, locals, k, pc, temps);
    case And(l, r) => n := AndSimulates(chunk, e, env, locals, k, pc, temps);
    case Or(l, r) => n := OrSimulates(chunk, e, env, locals, k, pc, temps);
  }

  lemma {:induction false} SetSimulates(
    chunk: Chunk, e: Expr, env: Env, locals: Locals, k: nat, pc: nat, temps: seq<Values.Value>
  )
    returns (n: nat)
    requires e.Set? && ExprReady(chunk, e, env, locals, k, pc)
    ensures ExprRuns(chunk, e, env, temps, pc, |ExprCode(e, locals, k)|, n)
    decreases e, 0
  {
    hide Goes, Placed, Pooled, Slots, ExprCode, ExprOk, ExprConstants, Evaluate, Resolve, Find;
    SetParts(e, env, locals, k);
    var vc := ExprCode(e.value, locals, k);
    PlacedSplit(chunk.code, pc, vc, StoreCode(locals, e.x));
    n := ExprSimulates(chunk, e.value, env, locals, k, pc, temps);
    ResolvesToSlot(env, locals, e.x);
    var r := Evaluate(e.value, env);
    if r.Value? {
      AgreeKeeps(env, r.env, locals);
      FindDependsOnNames(r.env, env, e.x);
      StepStore(chunk, locals, e.x, r.env, temps, r.v, pc + |vc|);
      Chain(chunk, Running(pc, Slots(env) + temps), n, Running(pc + |vc|, Slots(r.env) + temps + [r.v]), 1,
            Running(pc + |vc| + 3, Slots(Assigned(r.env, Find(env, e.x), r.v)) + temps + [r.v]));
      n := n + 1;
    }
  }

  lemma {:induction false} UpdateSimulates(
    chunk: Chunk, e: Expr, env: Env, locals: Locals, k: nat, pc: nat, temps: seq<Values.Value>
  )
    returns (n: nat)
    requires e.Update? && ExprReady(chunk, e, env, locals, k, pc)
    ensures ExprRuns(chunk, e, env, temps, pc, |ExprCode(e, locals, k)|, n)
    decreases e, 0
  {
    hide Goes, Placed, Pooled, Slots, Apply, ExprCode, ExprOk, ExprConstants, Evaluate, Resolve, Find, OperatorCode;
    UpdateParts(e, env, locals, k);
    var lc, vc, oc, sc :=
      LoadCode(locals, e.x), ExprCode(e.value, locals, k), OperatorCode(e.op), StoreCode(locals, e.x);
    PlacedSplit(chunk.code, pc, lc, vc + (oc + sc));
    PlacedSplit(chunk.code, pc + 3, vc, oc + sc);
    PlacedSplit(chunk.code, pc + 3 + |vc|, oc, sc);
    ResolvesToSlot(env, locals, e.x);
    var was := env[Find(env, e.x)].value;
    var start := Running(pc, Slots(env) + temps);
    StepLoad(chunk, locals, e.x, env, temps, pc);
    var m := ExprSimulates(chunk, e.value, env, locals, k, pc + 3, temps + [was]);
    assert Slots(env) + temps + [was] == Slots(env) + (temps + [was]);
    var r := Evaluate(e.value, env);
    if !r.Value? {
      Chain(chunk, start, 1, Running(pc + 3, Slots(env) + temps + [was]), m, Faulted(r.error));
      n := 1 + m;
    } else {
      AgreeKeeps(env, r.env, locals);
      FindDependsOnNames(r.env, env, e.x);
      var base := Slots(r.env) + temps;
      assert Slots(r.env) + (temps + [was]) + [r.v] == base + [was] + [r.v];
      var at := pc + 3 + |vc|;
      Chain(chunk, start, 1, Running(pc + 3, Slots(env) + temps + [was]), m, Running(at, base + [was] + [r.v]));
      var o := RunOperator(chunk, e.op, at, base, was, r.v);
      n := 1 + m + o;
      match Apply(e.op, was, r.v) {
        case Err(err) => Chain(chunk, start, 1 + m, Running(at, base + [was] + [r.v]), o, Faulted(err));
        case Val(v) =>
          Chain(chunk, start, 1 + m, Running(at, base + [was] + [r.v]), o, Running(at + |oc|, base + [v]));
          StepStore(chunk, locals, e.x, r.env, temps, v, at + |oc|);
          Chain(chunk, start, n, Running(at + |oc|, base + [v]), 1,
                Running(at + |oc| + 3, Slots(Assigned(r.env, Find(env, e.x), v)) + temps + [v]));
          n := n + 1;
      }
    }
  }

  lemma {:induction false} UnarySimulates(
    chunk: Chunk, e: Expr, x: Expr, op: byte, env: Env, locals: Locals, k: nat, pc: nat, temps: seq<Values.Value>
  )
    returns (n: nat)
    requires (op == NEGATE && e == Negate(x)) || (op == NOT && e == Not(x))
    requires ExprReady(chunk, e, env, locals, k, pc)
    ensures ExprRuns(chunk, e, env, temps, pc, |ExprCode(e, locals, k)|, n)
    decreases e, 0
  {
    hide Goes, Placed, Pooled, Slots, IsFalsey, ExprCode, ExprOk, ExprConstants, Evaluate, NumNegate;
    UnaryParts(e, x, op, env, locals, k);
    var xc := ExprCode(x, locals, k);
    PlacedSplit(chunk.code, pc, xc, [op]);
    n := ExprSimulates(chunk, x, env, locals, k, pc, temps);
    var r := Evaluate(x, env);
    if r.Value? {
      var base := Slots(r.env) + temps;
      if op == NEGATE {
        StepNegate(chunk, pc + |xc|, base, r.v);
        Chain(chunk, Running(pc, Slots(env) + temps), n, Running(pc + |xc|, base + [r.v]), 1,
              if r.v.Number? then Running(pc + |xc| + 1, base + [Number(NumNegate(r.v.n))])
              else Faulted(OperandNotNumber));
      } else {
        StepNot(chunk, pc + |xc|, base, r.v);
        Chain(chunk, Running(pc, Slots(env) + temps), n, Running(pc + |xc|, base + [r.v]), 1,
              Running(pc + |xc| + 1, base + [Bool(IsFalsey(r.v))]));
      }
      n := n + 1;
    }
  }

  lemma {:induction false} BinarySimulates(
    chunk: Chunk, e: Expr, env: Env, locals: Locals, k: nat, pc: nat, temps: seq<Values.Value>
  )
    returns (n: nat)
    requires e.Binary? && ExprReady(chunk, e, env, locals, k, pc)
    ensures ExprRuns(chunk, e, env, temps, pc, |ExprCode(e, locals, k)|, n)
    decreases e, 0
  {
    hide Goes, Placed, Pooled, Slots, Apply, ExprCode, ExprOk, ExprConstants, Evaluate, OperatorCode;
    BinaryParts(e, env, locals, k);
    var k2 := k + |ExprConstants(e.left)|;
    var lc, rc, oc := ExprCode(e.left, locals, k), ExprCode(e.right, locals, k2), OperatorCode(e.op);
    PlacedSplit(chunk.code, pc, lc, rc + oc);
    PlacedSplit(chunk.code, pc + |lc|, rc, oc);
    PooledSplit(chunk.constants, k, ExprConstants(e.left), ExprConstants(e.right));
    var start := Running(pc, Slots(env) + temps);
    n := ExprSimulates(chunk, e.left, env, locals, k, pc, temps);
    var a := Evaluate(e.left, env);
    if a.Value? {
      AgreeKeeps(env, a.env, locals);
      var mid := Running(pc + |lc|, Slots(a.env) + temps + [a.v]);
      assert Slots(a.env) + temps + [a.v] == Slots(a.env) + (temps + [a.v]);
      var m := ExprSimulates(chunk, e.right, a.env, locals, k2, pc + |lc|, temps + [a.v]);
      var b := Evaluate(e.right, a.env);
      if !b.Value? {
        Chain(chunk, start, n, mid, m, Faulted(b.error));
        n := n + m;
      } else {
        var base, at := Slots(b.env) + temps, pc + |lc| + |rc|;
        assert Slots(b.env) + (temps + [a.v]) + [b.v] == base + [a.v] + [b.v];
        Chain(chunk, start, n, mid, m, Running(at, base + [a.v] + [b.v]));
        var o := RunOperator(chunk, e.op, at, base, a.v, b.v);
        match Apply(e.op, a.v, b.v) {
          case Err(err) => Chain(chunk, start, n + m, Running(at, base + [a.v] + [b.v]), o, Faulted(err));
          case Val(v) => Chain(chunk, start, n + m, Running(at, base + [a.v] + [b.v]), o,
            Running(at + |oc|, base + [v]));
        }
        n := n + m + o;
      }
    }
  }

  /** After the left operand of `and` or `or` has been discarded, the right one decides. */
  lemma {:induction false} RightOperandRuns(chunk: Chunk, e: Expr, env: Env, temps: seq<Values.Value>, v: Values.Value,
                                            locals: Locals, k: nat, pc: nat) returns (n: nat)
    requires Placed(chunk.code, pc, [POP]) && ExprReady(chunk, e, env, locals, k, pc + 1)
    ensures
      match Evaluate(e, env)
      case Value(w, env') =>
        && SameNames(env', env)
        && Goes(chunk, Running(pc, Slots(env) + temps + [v]), n,
                Running(pc + 1 + |ExprCode(e, locals, k)|, Slots(env') + temps + [w]))
      case Raises(err) => Goes(chunk, Running(pc, Slots(env) + temps + [v]), n, Faulted(err))
      case Unbound => false
    decreases e, 2
  {
    hide Goes, Placed, Pooled, Slots, Evaluate, ExprCode;
    StepPop(chunk, pc, Slots(env) + temps, v);
    var m := ExprSimulates(chunk, e, env, locals, k, pc + 1, temps);
    n := 1 + m;
    var start, mid := Running(pc, Slots(env) + temps + [v]), Running(pc + 1, Slots(env) + temps);
    match Evaluate(e, env) {
      case Value(w, env') => Chain(chunk, start, 1, mid, m,
        Running(pc + 1 + |ExprCode(e, locals, k)|, Slots(env') + temps + [w]));
      case Raises(err) => Chain(chunk, start, 1, mid, m, Faulted(err));
    }
  }

  lemma {:induction false} AndSimulates(
    chunk: Chunk, e: Expr, env: Env, locals: Locals, k: nat, pc: nat, temps: seq<Values.Value>
  )
    returns (n: nat)
    requires e.And? && ExprReady(chunk, e, env, locals, k, pc)
    ensures ExprRuns(chunk, e, env, temps, pc, |ExprCode(e, locals, k)|, n)
    decreases e, 0
  {
    hide Goes, Placed, Pooled, Slots, IsFalsey, ExprCode, ExprOk, ExprConstants, Evaluate, U16;
    AndParts(e.left, e.right, locals, k);
    AndMeans(e, env);
    var k2 := k + |ExprConstants(e.left)|;
    var lc, rc := ExprCode(e.left, locals, k), ExprCode(e.right, locals, k2);
    var jump := JumpCode(JUMP_IF_FALSE, |rc| + 1);
    PlacedSplit(chunk.code, pc, lc, jump + ([POP] + rc));
    PlacedSplit(chunk.code, pc + |lc|, jump, [POP] + rc);
    PlacedSplit(chunk.code, pc + |lc| + 3, [POP], rc);
    PooledSplit(chunk.constants, k, ExprConstants(e.left), ExprConstants(e.right));
    var start := Running(pc, Slots(env) + temps);
    n := ExprSimulates(chunk, e.left, env, locals, k, pc, temps);
    var a := Evaluate(e.left, env);
    if a.Value? {
      AgreeKeeps(env, a.env, locals);
      var at, stack := pc + |lc|, Slots(a.env) + temps;
      StepJumpIfFalse(chunk, at, stack, a.v, |rc| + 1);
      var next := if IsFalsey(a.v) then at + 3 + (|rc| + 1) else at + 3;
      Chain(chunk, start, n, Running(at, stack + [a.v]), 1, Running(next, stack + [a.v]));
      n := n + 1;
      if !IsFalsey(a.v) {
        var m := RightOperandRuns(chunk, e.right, a.env, temps, a.v, locals, k2, at + 3);
        n := ChainRight(chunk, e.right, a.env, temps, start, n, next, a.v, m, |rc|);
      }
    }
  }

  lemma ChainRight(
    chunk: Chunk, e: Expr, env: Env, temps: seq<Values.Value>, start: State, n: nat, at: nat, v: Values.Value, m: nat,
    size: nat
  )
    returns (total: nat)
    requires Goes(chunk, start, n, Running(at, Slots(env) + temps + [v]))
    requires
      match Evaluate(e, env)
      case Value(w, env') => Goes(chunk, Running(at, Slots(env) + temps + [v]), m,
        Running(at + 1 + size, Slots(env') + temps + [w]))
      case Raises(err) => Goes(chunk, Running(at, Slots(env) + temps + [v]), m, Faulted(err))
      case Unbound => false
    ensures
      match Evaluate(e, env)
      case Value(w, env') => Goes(chunk, start, total, Running(at + 1 + size, Slots(env') + temps + [w]))
      case Raises(err) => Goes(chunk, start, total, Faulted(err))
      case Unbound => false
  {
    hide Goes, Evaluate, Slots;
    total := n + m;
    match Evaluate(e, env) {
      case Value(w, env') =>
        Chain(chunk, start, n, Running(at, Slots(env) + temps + [v]), m,
          Running(at + 1 + size, Slots(env') + temps + [w]));
      case Raises(err) => Chain(chunk, start, n, Running(at, Slots(env) + temps + [v]), m, Faulted(err));
    }
  }

  lemma OrPlaces(code: Code, pc: nat, lc: Code, over: Code, jump: Code, rc: Code)
    requires Placed(code, pc, lc + (over + (jump + ([POP] + rc)))) && |over| == |jump| == 3
    ensures Placed(code, pc, lc) && Placed(code, pc + |lc|, over) && Placed(code, pc + |lc| + 3, jump)
    ensures Placed(code, pc + |lc| + 6, [POP]) && Placed(code, pc + |lc| + 7, rc)
  {
    hide Placed;
    PlacedSplit(code, pc, lc, over + (jump + ([POP] + rc)));
    PlacedSplit(code, pc + |lc|, over, jump + ([POP] + rc));
    PlacedSplit(code, pc + |lc| + 3, jump, [POP] + rc);
    PlacedSplit(code, pc + |lc| + 6, [POP], rc);
  }

  lemma {:induction false} OrSimulates(
    chunk: Chunk, e: Expr, env: Env, locals: Locals, k: nat, pc: nat, temps: seq<Values.Value>
  )
    returns (n: nat)
    requires e.Or? && ExprReady(chunk, e, env, locals, k, pc)
    ensures ExprRuns(chunk, e, env, temps, pc, |ExprCode(e, locals, k)|, n)
    decreases e, 0
  {
    hide Goes, Placed, Pooled, Slots, IsFalsey, ExprCode, ExprOk, ExprConstants, Evaluate, U16;
    OrParts(e.left, e.right, locals, k);
    OrMeans(e, env);
    var k2 := k + |ExprConstants(e.left)|;
    var lc, rc := ExprCode(e.left, locals, k), ExprCode(e.right, locals, k2);
    OrPlaces(chunk.code, pc, lc, JumpCode(JUMP_IF_FALSE, 3), JumpCode(JUMP, |rc| + 1), rc);
    PooledSplit(chunk.constants, k, ExprConstants(e.left), ExprConstants(e.right));
    n := ExprSimulates(chunk, e.left, env, locals, k, pc, temps);
    var a := Evaluate(e.left, env);
    if a.Value? {
      AgreeKeeps(env, a.env, locals);
      n := AfterOr(chunk, e.right, a.env, a.v, locals, k2, pc + |lc|, temps, Running(pc, Slots(env) + temps), n);
    }
  }

  /** From the test of an `or`: a truthy left value jumps to the end, a falsey one gives way to the right operand. */
  lemma {:induction false} AfterOr(chunk: Chunk, e: Expr, env: Env, v: Values.Value, locals: Locals, k: nat, at: nat,
    temps: seq<Values.Value>,
                                   start: State, m: nat) returns (n: nat)
    requires
      var rc := ExprCode(e, locals, k);
      && Placed(chunk.code, at, JumpCode(JUMP_IF_FALSE, 3)) && Placed(chunk.code, at + 3, JumpCode(JUMP, |rc| + 1))
      && Placed(chunk.code, at + 6, [POP]) && Fits(|rc| + 1)
    requires ExprReady(chunk, e, env, locals, k, at + 7)
    requires Goes(chunk, start, m, Running(at, Slots(env) + temps + [v]))
    ensures
      var end := at + 7 + |ExprCode(e, locals, k)|;
      match (if IsFalsey(v) then Evaluate(e, env) else Evaluated.Value(v, env))
      case Value(w, env') => SameNames(env', env) && Goes(chunk, start, n, Running(end, Slots(env') + temps + [w]))
      case Raises(err) => Goes(chunk, start, n, Faulted(err))
      case Unbound => false
    decreases e, 3
  {
    hide Goes, Placed, Pooled, Slots, IsFalsey, ExprCode, ExprOk, ExprConstants, Evaluate, U16;
    var size, stack := |ExprCode(e, locals, k)|, Slots(env) + temps;
    StepJumpIfFalse(chunk, at, stack, v, 3);
    var next := if IsFalsey(v) then at + 6 else at + 3;
    Chain(chunk, start, m, Running(at, stack + [v]), 1, Running(next, stack + [v]));
    if IsFalsey(v) {
      var i := RightOperandRuns(chunk, e, env, temps, v, locals, k, at + 6);
      n := ChainRight(chunk, e, env, temps, start, m + 1, next, v, i, size);
    } else {
      StepJump(chunk, at + 3, stack + [v], size + 1);
      Chain(chunk, start, m + 1, Running(next, stack + [v]), 1, Running(at + 7 + size, stack + [v]));
      n := m + 2;
    }
  }

  // ----- comparing what is not ordered -----

  /** `0 / 0 >= 1` */
  const UNORDERED: Expr :=
    Binary(GreaterEqual, Binary(Divide, Lit(LitNumber(0.0)), Lit(LitNumber(0.0))), Lit(LitNumber(1.0)))

  /** The code of `0 / 0 >= 1` leaves true on the stack, although the quotient is neither greater than 1 nor
      equal to it. */
  lemma UnorderedIsGreaterOrEqual(chunk: Chunk, env: Env, locals: Locals, k: nat, pc: nat) returns (n: nat)
    requires ExprReady(chunk, UNORDERED, env, locals, k, pc)
    ensures
      var quotient := NumDivide(Fin(0.0), Fin(0.0));
      !NumLess(Fin(1.0), quotient) && !NumEqual(quotient, Fin(1.0))
    ensures
      Goes(chunk, Running(pc, Slots(env)), n, Running(pc + |ExprCode(UNORDERED, locals, k)|, Slots(env) + [Bool(true)]))
  {
    hide Goes, Placed, Pooled, ExprCode, ExprOk, ExprConstants, Slots;
    n := ExprSimulates(chunk, UNORDERED, env, locals, k, pc, []);
    assert Evaluate(UNORDERED.left, env) == Value(Number(NaN), env);
    assert Evaluate(UNORDERED, env) == Value(Bool(true), env);
    assert Slots(env) + [] == Slots(env);
  }
}
