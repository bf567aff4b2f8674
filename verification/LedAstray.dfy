/** A program that ends, but whose bytecode runs forever: the break of the outer loop is led to the end of the inner
    one. */
module LedAstray {
  import opened Options
  import opened Values
  import opened Syntax
  import opened Bytecode
  import opened Codegen
  import opened Emit
  import Patching
  import Semantics
  import opened ExprSimulation
  import opened Machine
  import Simulation

  const INNER: Stmt := While(Lit(LitFalse), Eval(Lit(LitNil)))
  const CHOICE: Stmt := If(Lit(LitTrue), Break, Some(INNER))

  /** `while (true) if (true) break; else while (false) nil;` */
  const PROGRAM: Decls := More(Do(While(Lit(LitTrue), CHOICE)), End)

  /** The bytes that come out: the jump at 10 should lead to 32, where the outer loop ends, and leads to 28. */
  const BYTES: Code := [
    TRUE, JUMP_IF_FALSE, 27, 0, POP,
    TRUE, JUMP_IF_FALSE, 7, 0, POP,
    JUMP, 15, 0,
    JUMP, 12, 0, POP,
    FALSE, JUMP_IF_FALSE, 6, 0, POP, NIL, POP, LOOP, 10, 0, POP,
    LOOP, 31, 0, POP,
    NIL, RETURN]

  /** A state at the top level of the script. */
  function At(code: Code, start: int, breaks: seq<BreakJump>): Em {
    Em(code, [], FRESH.locals, 0, start, 0, breaks, false)
  }

  function Tested(literal: byte): Code {
    [literal, JUMP_IF_FALSE, 0, 0, POP]
  }

  lemma TestOf(l: Literal, b: byte, code: Code, start: int, breaks: seq<BreakJump>)
    requires (l == LitTrue && b == TRUE) || (l == LitFalse && b == FALSE)
    ensures Patching.ThenStart(Lit(l), At(code, start, breaks)) == At(code + Tested(b), start, breaks)
    ensures EmitTest(Some(Lit(l)), At(code, start, breaks)) == At(code + Tested(b), start, breaks)
    ensures |EmitExpr(Lit(l), At(code, start, breaks)).code| == |code| + 1
  {
    var em := At(code, start, breaks);
    assert em.constants + [] == em.constants;
    assert EmitExpr(Lit(l), em) == At(code + [b], start, breaks);
    assert code + [b] + [JUMP_IF_FALSE, 0, 0] + [POP] == code + Tested(b);
  }

  lemma PatchedSmall(code: Code, at: nat, n: nat)
    requires at + 2 <= |code| && n < 256
    ensures Patched(code, at, n) == code[at := n][at + 1 := 0]
  {
  }

  lemma PatchAt(code: Code, start: int, breaks: seq<BreakJump>, at: nat, n: nat, patched: Code)
    requires at + 2 <= |code| && n == |code| - at - 2 && n < 256 && patched == code[at := n][at + 1 := 0]
    ensures PatchJump(At(code, start, breaks), at) == At(patched, start, breaks)
  {
    hide Patched;
    PatchedSmall(code, at, n);
  }

  lemma BackTo(code: Code, start: nat, breaks: seq<BreakJump>)
    requires start <= |code| && |code| + 3 - start < 256
    ensures EmitBack(At(code, start, breaks), start) == At(code + [LOOP, |code| + 3 - start, 0], start, breaks)
  {
  }

  const FIRST: Code := Tested(TRUE)
  const SECOND: Code := [TRUE, JUMP_IF_FALSE, 7, 0, POP]

  /** The code when the inner loop starts; the break's hole is at 11. */
  const BEFORE_INNER: Code := FIRST + SECOND + [JUMP, 0, 0, JUMP, 0, 0, POP]

  const PENDING: seq<BreakJump> := [BreakJump(0, 11)]

  lemma Branch()
    ensures
      var em := At(FIRST, 0, []);
      var em2 := EmitStmt(Break, Patching.ThenStart(Lit(LitTrue), em));
      |em2.code| == 13 && Patching.ElseStart(Lit(LitTrue), em, em2) == At(BEFORE_INNER, 0, PENDING)
  {
    var em := At(FIRST, 0, []);
    TestOf(LitTrue, TRUE, FIRST, 0, []);
    var em1 := At(FIRST + Tested(TRUE), 0, []);
    var em2 := EmitStmt(Break, em1);
    BreakAt(FIRST + Tested(TRUE));
    var jumped := FIRST + Tested(TRUE) + [JUMP, 0, 0] + [JUMP, 0, 0];
    PatchAt(jumped, 0, PENDING, 7, 7, FIRST + SECOND + [JUMP, 0, 0] + [JUMP, 0, 0]);
    assert FIRST + SECOND + [JUMP, 0, 0] + [JUMP, 0, 0] + [POP] == BEFORE_INNER;
  }

  lemma BreakAt(code: Code)
    requires |code| == 10
    ensures EmitStmt(Break, At(code, 0, [])) == At(code + [JUMP, 0, 0], 0, PENDING)
  {
    assert Deeper(FRESH.locals, 0) == 0;
    assert code + [] == code;
    var none: seq<BreakJump> := [];
    assert PENDING + none == PENDING;
  }

  const INNER_BYTES: Code := [FALSE, JUMP_IF_FALSE, 6, 0, POP, NIL, POP, LOOP, 10, 0, POP]

  /** The code after the inner loop, whose end the break now leads to. */
  const AFTER_INNER: Code := FIRST + SECOND + [JUMP, 15, 0, JUMP, 0, 0, POP] + INNER_BYTES

  lemma InnerBody(code: Code)
    requires |code| == 17
    ensures
      var em := At(code, 0, PENDING);
      EmitStmt(Eval(Lit(LitNil)), Patching.BodyStart(Some(Lit(LitFalse)), None, em)) ==
        At(code + Tested(FALSE) + [NIL, POP], 17, PENDING)
    ensures |EmitTest(Some(Lit(LitFalse)), EnterLoop(At(code, 0, PENDING))).code| == 22
  {
    TestOf(LitFalse, FALSE, code, 17, PENDING);
    var em := At(code + Tested(FALSE), 17, PENDING);
    assert em.constants + [] == em.constants;
    assert EmitExpr(Lit(LitNil), em) == At(code + Tested(FALSE) + [NIL], 17, PENDING);
    assert code + Tested(FALSE) + [NIL] + [POP] == code + Tested(FALSE) + [NIL, POP];
  }

  lemma InnerEnd(code: Code)
    requires |code| == 17
    ensures
      Patching.LoopEndOpen(Some(Lit(LitFalse)), 22, At(code + Tested(FALSE) + [NIL, POP], 17, PENDING)) ==
        At(code + INNER_BYTES, 17, PENDING)
  {
    hide EmitBack, PatchJump;
    var body := code + Tested(FALSE) + [NIL, POP];
    BackTo(body, 17, PENDING);
    var back := body + [LOOP, 10, 0];
    PatchAt(back, 17, PENDING, 19, 6, code + [FALSE, JUMP_IF_FALSE, 6, 0, POP, NIL, POP, LOOP, 10, 0]);
    assert code + [FALSE, JUMP_IF_FALSE, 6, 0, POP, NIL, POP, LOOP, 10, 0] + [POP] == code + INNER_BYTES;
  }

  /** The inner loop takes the outer loop's break with it. */
  lemma Inner()
    ensures EmitStmt(INNER, At(BEFORE_INNER, 0, PENDING)) == At(AFTER_INNER, 0, [])
  {
    hide EmitLoop, PatchJump;
    var em := At(BEFORE_INNER, 0, PENDING);
    InnerBody(BEFORE_INNER);
    InnerEnd(BEFORE_INNER);
    Patching.LoopIsEmitted(Some(Lit(LitFalse)), None, Eval(Lit(LitNil)), em);
    var open := At(BEFORE_INNER + INNER_BYTES, 17, PENDING);
    PatchAt(open.code, 17, PENDING, 11, 15, AFTER_INNER);
    assert PENDING[1..] == [];
    assert PatchBreaks(open) == PatchBreaks(At(AFTER_INNER, 17, []));
  }

  const AFTER_CHOICE: Code := FIRST + SECOND + [JUMP, 15, 0, JUMP, 12, 0, POP] + INNER_BYTES

  lemma Choice()
    ensures EmitStmt(CHOICE, At(FIRST, 0, [])) == At(AFTER_CHOICE, 0, [])
  {
    hide EmitStmt, PatchJump, Patching.ThenStart, Patching.ElseStart;
    Patching.IfIsEmitted(CHOICE, At(FIRST, 0, []));
    Branch();
    Inner();
    PatchAt(AFTER_INNER, 0, [], 14, 12, AFTER_CHOICE);
  }

  lemma OuterEnd()
    ensures Patching.LoopEndOpen(Some(Lit(LitTrue)), 5, At(AFTER_CHOICE, 0, [])) == At(BYTES[..32], 0, [])
  {
    hide EmitBack, PatchJump;
    BackTo(AFTER_CHOICE, 0, []);
    var back := AFTER_CHOICE + [LOOP, 31, 0];
    PatchAt(back, 0, [], 2, 27, BYTES[..31]);
    assert BYTES[..31] + [POP] == BYTES[..32];
  }

  lemma Outer()
    ensures EmitStmt(While(Lit(LitTrue), CHOICE), FRESH) == At(BYTES[..32], -1, [])
  {
    hide EmitLoop, Patching.LoopEndOpen;
    Patching.LoopIsEmitted(Some(Lit(LitTrue)), None, CHOICE, FRESH);
    TestOf(LitTrue, TRUE, [], 0, []);
    assert [] + Tested(TRUE) == FIRST;
    Choice();
    OuterEnd();
  }

  lemma Compiled()
    ensures EmitScript(PROGRAM) == At(BYTES, -1, [])
  {
    hide EmitStmt;
    Outer();
    assert BYTES[..32] + [NIL, RETURN] == BYTES;
  }

  /** A test that holds is passed in three steps. */
  lemma PassTest(chunk: Chunk, pc: nat, stack: seq<Values.Value>, n: nat)
    requires Placed(chunk.code, pc, LiteralCode(LitTrue, 0))
    requires Placed(chunk.code, pc + 1, JumpCode(JUMP_IF_FALSE, n)) && Fits(n)
    requires Placed(chunk.code, pc + 4, [POP])
    ensures Goes(chunk, Running(pc, stack), 3, Running(pc + 5, stack))
  {
    hide Goes, Step;
    var more := stack + [Values.Bool(true)];
    assert chunk.constants[0..0] == [];
    StepLiteral(chunk, LitTrue, 0, pc, stack);
    StepJumpIfFalse(chunk, pc + 1, stack, Values.Bool(true), n);
    Chain(chunk, Running(pc, stack), 1, Running(pc + 1, more), 1, Running(pc + 4, more));
    StepPop(chunk, pc + 4, stack, Values.Bool(true));
    Chain(chunk, Running(pc, stack), 2, Running(pc + 4, more), 1, Running(pc + 5, stack));
  }

  lemma FirstBytes()
    ensures Placed(BYTES, 0, LiteralCode(LitTrue, 0))
    ensures Placed(BYTES, 1, JumpCode(JUMP_IF_FALSE, 27)) && Placed(BYTES, 4, [POP])
    ensures Placed(BYTES, 5, LiteralCode(LitTrue, 0))
    ensures Placed(BYTES, 6, JumpCode(JUMP_IF_FALSE, 7)) && Placed(BYTES, 9, [POP])
  {
    hide Placed, LiteralCode, JumpCode;
    OuterTestBytes();
    InnerTestBytes();
  }

  lemma OuterTestBytes()
    ensures Placed(BYTES, 0, LiteralCode(LitTrue, 0))
    ensures Placed(BYTES, 1, JumpCode(JUMP_IF_FALSE, 27)) && Placed(BYTES, 4, [POP])
  {
    assert BYTES[0] == TRUE && BYTES[1] == JUMP_IF_FALSE && BYTES[2] == 27 && BYTES[3] == 0 && BYTES[4] == POP;
  }

  lemma InnerTestBytes()
    ensures Placed(BYTES, 5, LiteralCode(LitTrue, 0))
    ensures Placed(BYTES, 6, JumpCode(JUMP_IF_FALSE, 7)) && Placed(BYTES, 9, [POP])
  {
    assert BYTES[5] == TRUE && BYTES[6] == JUMP_IF_FALSE && BYTES[7] == 7 && BYTES[8] == 0 && BYTES[9] == POP;
  }

  lemma JumpBytes()
    ensures Placed(BYTES, 10, JumpCode(JUMP, 15)) && Placed(BYTES, 28, JumpCode(LOOP, 31))
  {
    assert BYTES[10] == JUMP && BYTES[11] == 15 && BYTES[12] == 0;
    assert BYTES[28] == LOOP && BYTES[29] == 31 && BYTES[30] == 0;
  }

  /** One turn of the outer loop brings the machine back to where it started. */
  lemma OneTurn(stack: seq<Values.Value>)
    ensures Goes(Chunk(BYTES, []), Running(0, stack), 8, Running(0, stack))
  {
    hide Goes, Placed, LiteralCode, JumpCode;
    var chunk, start := Chunk(BYTES, []), Running(0, stack);
    FirstBytes();
    JumpBytes();
    PassTest(chunk, 0, stack, 27);
    PassTest(chunk, 5, stack, 7);
    Chain(chunk, start, 3, Running(5, stack), 3, Running(10, stack));
    StepJump(chunk, 10, stack, 15);
    Chain(chunk, start, 6, Running(10, stack), 1, Running(28, stack));
    StepLoop(chunk, 28, stack, 31);
    Chain(chunk, start, 7, Running(28, stack), 1, start);
  }

  lemma {:induction false} NeverEnds(stack: seq<Values.Value>, n: nat)
    ensures Steps(Chunk(BYTES, []), Running(0, stack), n).Running?
    decreases n
  {
    hide Steps;
    OneTurn(stack);
    if n >= 8 {
      StepsAdd(Chunk(BYTES, []), Running(0, stack), 8, n - 8);
      NeverEnds(stack, n - 8);
    } else {
      StillRunning(Chunk(BYTES, []), Running(0, stack), 8, n);
    }
  }

  lemma ProgramEnds(env: Semantics.Env, fuel: nat)
    ensures Semantics.ExecuteAll(PROGRAM, env, fuel) == Semantics.Normal(env)
  {
    assert Semantics.Execute(CHOICE, env, fuel) == Semantics.Execute(Break, env, fuel) == Semantics.Broke(env);
    assert Semantics.ExecuteLoop(Some(Lit(LitTrue)), None, CHOICE, env, fuel) == Semantics.Normal(env);
    assert Semantics.ExecuteOne(PROGRAM.first, env, fuel) == Semantics.Normal(env);
  }

  lemma ProgramUnsafe()
    ensures !Patching.ScriptSafe(PROGRAM)
  {
    assert !Patching.BreakSafe(CHOICE, 0, 0, -1);
  }

  /** The program compiles without an error and ends at once when its statements are executed, but its code never
      ends. */
  lemma CompiledCodeRunsForever(receiver: Values.Value, fuel: nat, n: nat)
    ensures !EmitScript(PROGRAM).err && !Patching.ScriptSafe(PROGRAM)
    ensures Simulation.ExecuteScript(PROGRAM, receiver, fuel).Normal?
    ensures
      var em := EmitScript(PROGRAM);
      Steps(Chunk(em.code, em.constants), Simulation.Started(receiver), n).Running?
  {
    hide EmitScript, Steps, Patching.ScriptSafe, Semantics.ExecuteAll;
    ProgramUnsafe();
    ProgramEnds(Simulation.Initially(receiver), fuel);
    Compiled();
    NeverEnds([receiver], n);
  }
}
