/** One-pass code generation: jumps are emitted with a hole and patched once their target is reached. */
module Emit {
  import opened Options
  import opened Values
  import opened Syntax
  import opened Bytecode
  import opened Codegen

  /** A `break` whose target is not known yet, tagged with the scope depth of its loop. */
  datatype BreakJump = BreakJump(depth: int, offset: nat)

  /** The compiler's state; pending breaks are listed newest first. */
  datatype Em = Em(code: Code, constants: seq<Num>, locals: Locals, depth: nat,
                   loopStart: int, loopDepth: int, breaks: seq<BreakJump>, err: bool)

  const FRESH: Em := Em([], [], [Local("this", 0)], 0, -1, 0, [], false)

  function EmitBytes(em: Em, bytes: Code): Em {
    em.(code := em.code + bytes)
  }

  function FailIf(em: Em, failed: bool): Em {
    em.(err := em.err || failed)
  }

  /** A jump with a hole; the hole starts two bytes before the end. */
  function EmitJump(em: Em, op: byte): Em {
    EmitBytes(em, [op, 0, 0])
  }

  /** `code` with a 16-bit operand written at `at`. */
  function Patched(code: Code, at: nat, n: int): (r: Code)
    ensures |r| == |code|
  {
    if at + 2 <= |code| then code[..at] + U16(n) + code[at + 2..] else code
  }

  /** Makes the jump whose hole is at `offset` lead to the end of the code. */
  function PatchJump(em: Em, offset: nat): Em {
    var jump := |em.code| - offset - 2;
    FailIf(em.(code := Patched(em.code, offset, jump)), !Fits(jump))
  }

  function EmitBack(em: Em, start: int): Em {
    var offset := |em.code| + 3 - start;
    FailIf(EmitBytes(em, JumpCode(LOOP, offset)), !Fits(offset))
  }

  function PatchBreaks(em: Em): Em
    decreases |em.breaks|
  {
    if em.breaks != [] && em.breaks[0].depth >= em.loopDepth then
      PatchBreaks(PatchJump(em, em.breaks[0].offset).(breaks := em.breaks[1..]))
    else em
  }

  // ----- expressions -----

  function EmitLiteral(l: Literal, em: Em): Em {
    var k := |em.constants|;
    var em1 := em.(constants := em.constants + LiteralConstants(l));
    FailIf(EmitBytes(em1, LiteralCode(l, k)), LiteralConstants(l) != [] && k > UINT16_MAX)
  }

  function EmitLoad(x: Name, em: Em): Em {
    FailIf(EmitBytes(em, LoadCode(em.locals, x)), !Readable(em.locals, x))
  }

  function EmitStore(x: Name, em: Em): Em {
    FailIf(EmitBytes(em, StoreCode(em.locals, x)), !Readable(em.locals, x))
  }

  function EmitExpr(e: Expr, em: Em): Em
    decreases e, 0
  {
    match e
    case Lit(l) => EmitLiteral(l, em)
    case Var(x) => EmitLoad(x, em)
    case Set(x, v) => EmitStore(x, EmitExpr(v, em))
    case Update(op, x, v) => EmitStore(x, EmitBytes(EmitExpr(v, EmitLoad(x, em)), OperatorCode(op)))
    case Negate(x) => EmitBytes(EmitExpr(x, em), [NEGATE])
    case Not(x) => EmitBytes(EmitExpr(x, em), [NOT])
    case Binary(op, l, r) => EmitBytes(EmitExpr(r, EmitExpr(l, em)), OperatorCode(op))
    case And(l, r) => EmitAnd(r, EmitExpr(l, em))
    case Or(l, r) => EmitOr(r, EmitExpr(l, em))
  }

  function EmitAnd(r: Expr, em: Em): Em
    decreases r, 1
  {
    var em1 := EmitBytes(EmitJump(em, JUMP_IF_FALSE), [POP]);
    PatchJump(EmitExpr(r, em1), |em.code| + 1)
  }

  function EmitOr(r: Expr, em: Em): Em
    decreases r, 1
  {
    var em1 := EmitJump(EmitJump(em, JUMP_IF_FALSE), JUMP);
    var em2 := EmitBytes(PatchJump(em1, |em.code| + 1), [POP]);
    PatchJump(EmitExpr(r, em2), |em.code| + 4)
  }

  // ----- statements -----

  /** Declares `x`; its initializer may not read it yet. */
  function EmitDeclare(x: Name, em: Em): Em {
    FailIf(em.(locals := em.locals + [Local(x, -1)]), Duplicate(em.locals, em.depth, x) || |em.locals| >= MAX_LOCALS)
  }

  function EmitInitial(v: Option<Expr>, em: Em): Em {
    if v.Some? then EmitExpr(v.value, em) else EmitBytes(em, [NIL])
  }

  /** Lets code from here on read the variable declared last. */
  function MarkInitialized(em: Em): Em {
    if em.locals == [] then em
    else
      var i := |em.locals| - 1;
      em.(locals := em.locals[i := em.locals[i].(depth := em.depth)])
  }

  function EmitVar(x: Name, v: Option<Expr>, em: Em): Em {
    MarkInitialized(EmitInitial(v, EmitDeclare(x, em)))
  }

  function BeginScope(em: Em): Em {
    em.(depth := em.depth + 1)
  }

  function EndScope(em: Em): Em {
    var d := if em.depth == 0 then 0 else em.depth - 1;
    var n := Deeper(em.locals, d);
    EmitBytes(em.(depth := d, locals := em.locals[..|em.locals| - n]), PopCode(n))
  }

  function EmitBreak(em: Em): Em {
    var em1 := EmitBytes(FailIf(em, em.loopStart == -1), PopCode(Deeper(em.locals, em.loopDepth)));
    EmitJump(em1, JUMP).(breaks := [BreakJump(em.loopDepth, |em1.code| + 1)] + em.breaks)
  }

  function EmitContinue(em: Em): Em {
    var em1 := EmitBytes(FailIf(em, em.loopStart == -1), PopCode(Deeper(em.locals, em.loopDepth)));
    EmitBack(em1, em.loopStart)
  }

  function EmitInit(i: ForInit, em: Em): Em {
    match i
    case NoInit => em
    case InitVar(x, v) => EmitVar(x, v, em)
    case InitExpr(e) => EmitBytes(EmitExpr(e, em), [POP])
  }

  function EmitStmt(s: Stmt, em: Em): Em
    decreases s, 0
  {
    match s
    case Eval(e) => EmitBytes(EmitExpr(e, em), [POP])
    case Block(ds) => EndScope(EmitDecls(ds, BeginScope(em)))
    case If(c, t, e) =>
      var em1 := EmitExpr(c, em);
      var em2 := EmitStmt(t, EmitBytes(EmitJump(em1, JUMP_IF_FALSE), [POP]));
      var em3 := EmitBytes(PatchJump(EmitJump(em2, JUMP), |em1.code| + 1), [POP]);
      PatchJump(if e.Some? then EmitStmt(e.value, em3) else em3, |em2.code| + 1)
    case While(c, b) => EmitLoop(Some(c), None, b, em)
    case For(init, test, inc, b) => EndScope(EmitLoop(test, inc, b, EmitInit(init, BeginScope(em))))
    case Break => EmitBreak(em)
    case Continue => EmitContinue(em)
  }

  function EnterLoop(em: Em): Em {
    em.(loopStart := |em.code|, loopDepth := em.depth)
  }

  function EmitTest(test: Option<Expr>, em: Em): Em {
    if test.Some? then EmitBytes(EmitJump(EmitExpr(test.value, em), JUMP_IF_FALSE), [POP]) else em
  }

  /** The increment clause comes before the body, so it is jumped over once; from then on it is where the loop goes
      back to. */
  function EmitIncrement(inc: Option<Expr>, em: Em): Em {
    if inc.None? then em
    else
      var em1 := EmitJump(em, JUMP);
      var em2 := EmitBack(EmitBytes(EmitExpr(inc.value, em1), [POP]), em.loopStart);
      PatchJump(em2.(loopStart := |em1.code|), |em.code| + 1)
  }

  /** Goes back to the start of the loop; `exit` is the end of the test's jump and pop. */
  function EmitLoopEnd(hasTest: bool, exit: nat, em: Em): Em {
    var em1 := EmitBack(em, em.loopStart);
    PatchBreaks(if hasTest && exit >= 3 then EmitBytes(PatchJump(em1, exit - 3), [POP]) else em1)
  }

  function EmitLoop(test: Option<Expr>, inc: Option<Expr>, b: Stmt, em: Em): Em
    decreases b, 1
  {
    var tested := EmitTest(test, EnterLoop(em));
    var body := EmitStmt(b, EmitIncrement(inc, tested));
    EmitLoopEnd(test.Some?, |tested.code|, body).(loopStart := em.loopStart, loopDepth := em.loopDepth)
  }

  function EmitDecl(d: Decl, em: Em): Em
    decreases d, 0
  {
    match d
    case Declare(x, v) => EmitVar(x, v, em)
    case Do(s) => EmitStmt(s, em)
  }

  function EmitDecls(ds: Decls, em: Em): Em
    decreases ds, 0
  {
    match ds
    case End => em
    case More(d, rest) => EmitDecls(rest, EmitDecl(d, em))
  }

  function EmitScript(ds: Decls): Em {
    EmitBytes(EmitDecls(ds, FRESH), [NIL, RETURN])
  }

  // ----- expressions are emitted as their code -----

  /** `em` followed by `code`. */
  function Append(em: Em, code: Code, constants: seq<Num>, failed: bool): Em {
    em.(code := em.code + code, constants := em.constants + constants, err := em.err || failed)
  }

  lemma AppendTwice(em: Em, c1: Code, k1: seq<Num>, f1: bool, c2: Code, k2: seq<Num>, f2: bool)
    ensures Append(Append(em, c1, k1, f1), c2, k2, f2) == Append(em, c1 + c2, k1 + k2, f1 || f2)
  {
    assert em.code + c1 + c2 == em.code + (c1 + c2);
    assert em.constants + k1 + k2 == em.constants + (k1 + k2);
  }

  lemma BytesAppend(em: Em, bytes: Code)
    ensures EmitBytes(em, bytes) == Append(em, bytes, [], false)
  {
    assert em.constants + [] == em.constants;
  }

  /** Patching the hole of a jump that is followed by `part`. */
  lemma PatchHole(a: Code, op: byte, part: Code, n: int)
    ensures Patched(a + [op, 0, 0] + part, |a| + 1, n) == a + JumpCode(op, n) + part
  {
    var c := a + [op, 0, 0] + part;
    assert c[..|a| + 1] == a + [op];
    assert c[|a| + 3..] == part;
  }

  /** The state after emitting all of `e`. */
  function ExprAppended(e: Expr, em: Em): Em {
    Append(em, ExprCode(e, em.locals, |em.constants|), ExprConstants(e), !ExprOk(e, em.locals, |em.constants|))
  }

  /** Whatever its shape, an expression is emitted as exactly its code, and fails exactly when the code would be
      wrong. */
  lemma {:induction false} ExprEmits(e: Expr, em: Em)
    ensures EmitExpr(e, em) == ExprAppended(e, em)
    decreases e, 0
  {
    hide Append, OperatorCode, LiteralCode, Readable, Slot, Patched;
    match e
    case Lit(l) => LiteralEmits(l, em);
    case Var(x) => LoadEmits(x, em);
    case Set(x, v) =>
      ExprEmits(v, em);
      SetEmits(x, v, em);
    case Update(op, x, v) =>
      ExprEmits(v, EmitLoad(x, em));
      UpdateEmits(op, x, v, em);
    case Negate(x) =>
      ExprEmits(x, em);
      UnaryEmits(e, x, NEGATE, em);
    case Not(x) =>
      ExprEmits(x, em);
      UnaryEmits(e, x, NOT, em);
    case Binary(op, l, r) =>
      ExprEmits(l, em);
      ExprEmits(r, ExprAppended(l, em));
      BinaryEmits(op, l, r, em);
    case And(l, r) =>
      ExprEmits(l, em);
      AndEmits(l, r, em);
    case Or(l, r) =>
      ExprEmits(l, em);
      OrEmits(l, r, em);
  }

  lemma LiteralEmits(l: Literal, em: Em)
    ensures EmitLiteral(l, em) == ExprAppended(Lit(l), em)
  {
    hide LiteralCode;
  }

  lemma LoadEmits(x: Name, em: Em)
    ensures EmitLoad(x, em) == ExprAppended(Var(x), em)
    ensures EmitLoad(x, em) == Append(em, LoadCode(em.locals, x), [], !Readable(em.locals, x))
  {
    hide LoadCode, Readable;
    assert em.constants + [] == em.constants;
  }

  lemma StoreEmits(x: Name, em: Em)
    ensures EmitStore(x, em) == Append(em, StoreCode(em.locals, x), [], !Readable(em.locals, x))
  {
    hide StoreCode, Readable;
    assert em.constants + [] == em.constants;
  }

  lemma SetEmits(x: Name, v: Expr, em: Em)
    ensures EmitStore(x, ExprAppended(v, em)) == ExprAppended(Set(x, v), em)
  {
    hide Append, Readable, StoreCode;
    var k := |em.constants|;
    var em1 := ExprAppended(v, em);
    assert em1.locals == em.locals by {
      AppendKeeps(em, ExprCode(v, em.locals, k), ExprConstants(v), !ExprOk(v, em.locals, k));
    }
    StoreEmits(x, em1);
    AppendTwice(em, ExprCode(v, em.locals, k), ExprConstants(v), !ExprOk(v, em.locals, k),
                StoreCode(em.locals, x), [], !Readable(em.locals, x));
    assert ExprConstants(v) + [] == ExprConstants(v);
  }

  lemma AppendKeeps(em: Em, code: Code, constants: seq<Num>, failed: bool)
    ensures
      var em1 := Append(em, code, constants, failed);
      em1.locals == em.locals && |em1.constants| == |em.constants| + |constants| && |em1.code| == |em.code| + |code|
  {
  }

  lemma UpdateEmits(op: BinOp, x: Name, v: Expr, em: Em)
    ensures
      EmitStore(x, EmitBytes(ExprAppended(v, EmitLoad(x, em)), OperatorCode(op))) == ExprAppended(Update(op, x, v), em)
  {
    hide Append, Readable, StoreCode, LoadCode, OperatorCode, EmitBytes, EmitLoad, EmitStore;
    var k := |em.constants|;
    var lc, vc, oc, sc := LoadCode(em.locals, x), ExprCode(v, em.locals, k), OperatorCode(op), StoreCode(em.locals, x);
    var bad, vbad, vk := !Readable(em.locals, x), !ExprOk(v, em.locals, k), ExprConstants(v);
    LoadEmits(x, em);
    AppendKeeps(em, lc, [], bad);
    var em1 := ExprAppended(v, EmitLoad(x, em));
    AppendTwice(em, lc, [], bad, vc, vk, vbad);
    BytesAppend(em1, oc);
    AppendTwice(em, lc + vc, [] + vk, bad || vbad, oc, [], false);
    var em2 := EmitBytes(em1, oc);
    AppendKeeps(em, lc + vc + oc, [] + vk + [], bad || vbad || false);
    StoreEmits(x, em2);
    AppendTwice(em, lc + vc + oc, [] + vk + [], bad || vbad || false, sc, [], bad);
    assert lc + vc + oc + sc == lc + (vc + (oc + sc));
    assert [] + vk + [] + [] == vk;
  }

  lemma UnaryEmits(e: Expr, x: Expr, op: byte, em: Em)
    requires (op == NEGATE && e == Negate(x)) || (op == NOT && e == Not(x))
    ensures EmitBytes(ExprAppended(x, em), [op]) == ExprAppended(e, em)
  {
    hide Append, EmitBytes;
    var k := |em.constants|;
    BytesAppend(ExprAppended(x, em), [op]);
    AppendTwice(em, ExprCode(x, em.locals, k), ExprConstants(x), !ExprOk(x, em.locals, k), [op], [], false);
    assert ExprConstants(x) + [] == ExprConstants(x);
  }

  /** Two operands, one after the other. */
  lemma TwoAppended(l: Expr, r: Expr, em: Em)
    ensures
      var k, k2 := |em.constants|, |em.constants| + |ExprConstants(l)|;
      ExprAppended(r, ExprAppended(l, em)) ==
        Append(em, ExprCode(l, em.locals, k) + ExprCode(r, em.locals, k2), ExprConstants(l) + ExprConstants(r),
               !ExprOk(l, em.locals, k) || !ExprOk(r, em.locals, k2))
  {
    hide Append, ExprCode, ExprOk, ExprConstants;
    var k, k2 := |em.constants|, |em.constants| + |ExprConstants(l)|;
    AppendKeeps(em, ExprCode(l, em.locals, k), ExprConstants(l), !ExprOk(l, em.locals, k));
    AppendTwice(em, ExprCode(l, em.locals, k), ExprConstants(l), !ExprOk(l, em.locals, k),
                ExprCode(r, em.locals, k2), ExprConstants(r), !ExprOk(r, em.locals, k2));
  }

  lemma BinaryEmits(op: BinOp, l: Expr, r: Expr, em: Em)
    ensures EmitBytes(ExprAppended(r, ExprAppended(l, em)), OperatorCode(op)) == ExprAppended(Binary(op, l, r), em)
  {
    hide Append, EmitBytes, OperatorCode, ExprAppended, ExprCode, ExprOk, ExprConstants;
    var k, k2 := |em.constants|, |em.constants| + |ExprConstants(l)|;
    var lc, rc, oc := ExprCode(l, em.locals, k), ExprCode(r, em.locals, k2), OperatorCode(op);
    var ks, bad := ExprConstants(l) + ExprConstants(r), !ExprOk(l, em.locals, k) || !ExprOk(r, em.locals, k2);
    TwoAppended(l, r, em);
    BytesAppend(ExprAppended(r, ExprAppended(l, em)), oc);
    AppendTwice(em, lc + rc, ks, bad, oc, [], false);
    assert lc + rc + oc == lc + (rc + oc);
    assert ks + [] == ks;
    assert ExprAppended(Binary(op, l, r), em) == Append(em, lc + (rc + oc), ks, bad || false) by {
      BinaryAppended(op, l, r, em);
    }
  }

  lemma BinaryUnfolds(op: BinOp, l: Expr, r: Expr, locals: Locals, k: nat)
    ensures
      var k2 := k + |ExprConstants(l)|;
      var rc := ExprCode(r, locals, k2);
      && ExprCode(Binary(op, l, r), locals, k) == ExprCode(l, locals, k) + (rc + OperatorCode(op))
      && (ExprOk(Binary(op, l, r), locals, k) <==> ExprOk(l, locals, k) && ExprOk(r, locals, k2))
    ensures ExprConstants(Binary(op, l, r)) == ExprConstants(l) + ExprConstants(r)
  {
    hide OperatorCode, JumpCode, Fits;
  }

  lemma BinaryAppended(op: BinOp, l: Expr, r: Expr, em: Em)
    ensures
      var k, k2 := |em.constants|, |em.constants| + |ExprConstants(l)|;
      ExprAppended(Binary(op, l, r), em) ==
        Append(em, ExprCode(l, em.locals, k) + (ExprCode(r, em.locals, k2) + OperatorCode(op)),
               ExprConstants(l) + ExprConstants(r), !ExprOk(l, em.locals, k) || !ExprOk(r, em.locals, k2))
  {
    hide Append, ExprCode, ExprOk, ExprConstants, OperatorCode, JumpCode, Fits;
    BinaryUnfolds(op, l, r, em.locals, |em.constants|);
  }

  /** A jump over a pop and `rc`. */
  lemma PatchOver(em: Em, pre: Code, op: byte, rc: Code, ks: seq<Num>, bad: bool)
    ensures
      var before := em.(code := pre + [op, 0, 0] + [POP]);
      PatchJump(Append(before, rc, ks, bad), |pre| + 1) ==
        Append(em.(code := pre), JumpCode(op, |rc| + 1) + ([POP] + rc), ks, bad || !Fits(|rc| + 1))
  {
    hide Patched, U16;
    PatchHole(pre, op, [POP] + rc, |rc| + 1);
    assert pre + [op, 0, 0] + [POP] + rc == pre + [op, 0, 0] + ([POP] + rc);
    assert pre + JumpCode(op, |rc| + 1) + ([POP] + rc) == pre + (JumpCode(op, |rc| + 1) + ([POP] + rc));
  }

  lemma {:induction false} AndEmits(l: Expr, r: Expr, em: Em)
    ensures EmitAnd(r, ExprAppended(l, em)) == ExprAppended(And(l, r), em)
    decreases r, 1
  {
    hide PatchJump, ExprCode, ExprOk, ExprConstants, JumpCode;
    var k, k2 := |em.constants|, |em.constants| + |ExprConstants(l)|;
    var lc, rc := ExprCode(l, em.locals, k), ExprCode(r, em.locals, k2);
    var lbad, rbad := !ExprOk(l, em.locals, k), !ExprOk(r, em.locals, k2);
    var a := ExprAppended(l, em);
    var before := a.(code := a.code + [JUMP_IF_FALSE, 0, 0] + [POP]);
    ExprEmits(r, before);
    PatchOver(a, a.code, JUMP_IF_FALSE, rc, ExprConstants(r), rbad);
    AppendTwice(em, lc, ExprConstants(l), lbad, JumpCode(JUMP_IF_FALSE, |rc| + 1) + ([POP] + rc), ExprConstants(r),
      rbad || !Fits(|rc| + 1));
    AndAppended(l, r, em);
  }

  lemma AndUnfolds(l: Expr, r: Expr, locals: Locals, k: nat)
    ensures
      var k2 := k + |ExprConstants(l)|;
      var rc := ExprCode(r, locals, k2);
      && ExprCode(And(l, r), locals, k) == ExprCode(l, locals, k) + (JumpCode(JUMP_IF_FALSE, |rc| + 1) + ([POP] + rc))
      && (ExprOk(And(l, r), locals, k) <==> ExprOk(l, locals, k) && ExprOk(r, locals, k2) && Fits(|rc| + 1))
    ensures ExprConstants(And(l, r)) == ExprConstants(l) + ExprConstants(r)
  {
    hide OperatorCode, JumpCode, Fits;
  }

  lemma AndAppended(l: Expr, r: Expr, em: Em)
    ensures
      var k, k2 := |em.constants|, |em.constants| + |ExprConstants(l)|;
      var rc := ExprCode(r, em.locals, k2);
      ExprAppended(And(l, r), em) ==
        Append(em, ExprCode(l, em.locals, k) + (JumpCode(JUMP_IF_FALSE, |rc| + 1) + ([POP] + rc)),
               ExprConstants(l) + ExprConstants(r),
               !(ExprOk(l, em.locals, k) && ExprOk(r, em.locals, k2) && Fits(|rc| + 1)))
  {
    hide Append, ExprCode, ExprOk, ExprConstants, OperatorCode, JumpCode, Fits;
    AndUnfolds(l, r, em.locals, |em.constants|);
  }

  lemma OrUnfolds(l: Expr, r: Expr, locals: Locals, k: nat)
    ensures
      var k2 := k + |ExprConstants(l)|;
      var rc := ExprCode(r, locals, k2);
      && ExprCode(Or(l, r), locals, k) ==
           ExprCode(l, locals, k) + (JumpCode(JUMP_IF_FALSE, 3) + (JumpCode(JUMP, |rc| + 1) + ([POP] + rc)))
      && (ExprOk(Or(l, r), locals, k) <==> ExprOk(l, locals, k) && ExprOk(r, locals, k2) && Fits(|rc| + 1))
    ensures ExprConstants(Or(l, r)) == ExprConstants(l) + ExprConstants(r)
  {
    hide OperatorCode, JumpCode, Fits;
  }

  lemma OrAppended(l: Expr, r: Expr, em: Em)
    ensures
      var k, k2 := |em.constants|, |em.constants| + |ExprConstants(l)|;
      var rc := ExprCode(r, em.locals, k2);
      ExprAppended(Or(l, r), em) ==
        Append(em, ExprCode(l, em.locals, k) + (JumpCode(JUMP_IF_FALSE, 3) + (JumpCode(JUMP, |rc| + 1) + ([POP] + rc))),
               ExprConstants(l) + ExprConstants(r),
               !(ExprOk(l, em.locals, k) && ExprOk(r, em.locals, k2) && Fits(|rc| + 1)))
  {
    hide Append, ExprCode, ExprOk, ExprConstants, OperatorCode, JumpCode, Fits;
    OrUnfolds(l, r, em.locals, |em.constants|);
  }

  /** The two jumps of an `or`: the first one's target is known at once. */
  lemma OrJumps(em: Em)
    ensures
      var em1 := EmitJump(EmitJump(em, JUMP_IF_FALSE), JUMP);
      EmitBytes(PatchJump(em1, |em.code| + 1), [POP]) ==
        em.(code := em.code + JumpCode(JUMP_IF_FALSE, 3) + [JUMP, 0, 0] + [POP])
  {
    hide Patched, U16;
    PatchHole(em.code, JUMP_IF_FALSE, [JUMP, 0, 0], 3);
  }

  lemma {:induction false} OrEmits(l: Expr, r: Expr, em: Em)
    ensures EmitOr(r, ExprAppended(l, em)) == ExprAppended(Or(l, r), em)
    decreases r, 1
  {
    hide PatchJump, ExprCode, ExprOk, ExprConstants, JumpCode;
    var k, k2 := |em.constants|, |em.constants| + |ExprConstants(l)|;
    var lc, rc := ExprCode(l, em.locals, k), ExprCode(r, em.locals, k2);
    var lbad, rbad := !ExprOk(l, em.locals, k), !ExprOk(r, em.locals, k2);
    var a := ExprAppended(l, em);
    var over, jump := JumpCode(JUMP_IF_FALSE, 3), JumpCode(JUMP, |rc| + 1);
    var before := a.(code := a.code + over + [JUMP, 0, 0] + [POP]);
    OrJumps(a);
    ExprEmits(r, before);
    assert |over| == 3 by { JumpSize(JUMP_IF_FALSE, 3); }
    PatchOver(a, a.code + over, JUMP, rc, ExprConstants(r), rbad);
    assert a.(code := a.code + over) == Append(a, over, [], false) by { assert a.constants + [] == a.constants; }
    AppendTwice(a, over, [], false, jump + ([POP] + rc), ExprConstants(r), rbad || !Fits(|rc| + 1));
    AppendTwice(em, lc, ExprConstants(l), lbad, over + (jump + ([POP] + rc)), [] + ExprConstants(r),
      false || rbad || !Fits(|rc| + 1));
    assert [] + ExprConstants(r) == ExprConstants(r);
    OrAppended(l, r, em);
  }

  lemma JumpSize(op: byte, n: int)
    ensures |JumpCode(op, n)| == 3
  {
  }
}
