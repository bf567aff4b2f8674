/** The one-pass compiler: reads tokens and emits code as it goes, without building a tree. */
module Compiler {
  import opened Options
  import opened Values
  import opened Syntax
  import opened Bytecode
  import opened Codegen
  import opened Grammar
  import Emit
  import opened Patching

  type Em = Emit.Em
  type BreakJump = Emit.BreakJump

  // ----- what compiling should come to -----

  datatype Compiled = Compiled(em: Em, rest: Tokens) | Rejected

  /** A compile that ends with an error comes to nothing. */
  function Accept(em: Em, rest: Tokens): Compiled {
    if em.err then Rejected else Compiled(em, rest)
  }

  function Emitting(p: Parse<Expr>, em: Em): Compiled {
    if p.Failed? then Rejected else Accept(Emit.EmitExpr(p.value, em), p.rest)
  }

  function CompileExpr(ts: Tokens, prec: nat, em: Em): Compiled {
    Emitting(ParseExpr(ts, prec), em)
  }

  function CompilePrefix(ts: Tokens, prec: nat, em: Em): Compiled {
    Emitting(ParsePrefix(ts, prec), em)
  }

  /** The rest of an expression whose left operand `left` has been emitted already. */
  function CompileInfix(left: Expr, ts: Tokens, prec: nat, em: Em): Compiled {
    Emitting(ParseInfix(left, ts, prec), em)
  }

  function CompileOperand(left: Expr, t: Token, ts: Tokens, em: Em): Compiled {
    Emitting(ParseOperand(left, t, ts), em)
  }

  // ----- how operators parse and emit -----

  lemma BinaryOperand(left: Expr, t: Token, ts: Tokens)
    requires IsBinaryToken(t)
    ensures
      var p := ParseExpr(ts, Precedence(t) + 1);
      ParseOperand(left, t, ts) == if p.Failed? then Failed else Parsed(Expr.Binary(BinaryOf(t), left, p.value), p.rest)
  {
    hide ParseExpr, Precedence, BinaryOf;
  }

  lemma AndOperand(left: Expr, ts: Tokens)
    ensures
      var p := ParseExpr(ts, PREC_AND);
      ParseOperand(left, AndWord, ts) == if p.Failed? then Failed else Parsed(Expr.And(left, p.value), p.rest)
  {
    hide ParseExpr;
  }

  lemma OrOperand(left: Expr, ts: Tokens)
    ensures
      var p := ParseExpr(ts, PREC_OR);
      ParseOperand(left, OrWord, ts) == if p.Failed? then Failed else Parsed(Expr.Or(left, p.value), p.rest)
  {
    hide ParseExpr;
  }

  lemma BinaryEmits(op: BinOp, l: Expr, r: Expr, em: Em)
    ensures Emit.EmitExpr(Expr.Binary(op, l, r), em) ==
      Emit.EmitBytes(Emit.EmitExpr(r, Emit.EmitExpr(l, em)), OperatorCode(op))
  {
    hide Emit.EmitBytes, OperatorCode;
  }

  /** The state when the right operand of an `and` starts. */
  function AndStart(a: Em): Em {
    Emit.EmitBytes(Emit.EmitJump(a, JUMP_IF_FALSE), [POP])
  }

  /** The state when the right operand of an `or` starts. */
  function OrStart(a: Em): Em {
    Emit.EmitBytes(Emit.PatchJump(Emit.EmitJump(Emit.EmitJump(a, JUMP_IF_FALSE), JUMP), |a.code| + 1), [POP])
  }

  lemma LogicalEmits(l: Expr, r: Expr, em: Em)
    ensures
      var a := Emit.EmitExpr(l, em);
      && Emit.EmitExpr(Expr.And(l, r), em) == Emit.PatchJump(Emit.EmitExpr(r, AndStart(a)), |a.code| + 1)
      && Emit.EmitExpr(Expr.Or(l, r), em) == Emit.PatchJump(Emit.EmitExpr(r, OrStart(a)), |a.code| + 4)
  {
    hide Emit.EmitBytes, Emit.PatchJump, Emit.EmitJump;
  }

  lemma StartsKeepErr(a: Em)
    ensures a.err ==> AndStart(a).err && OrStart(a).err
  {
    hide Emit.Patched;
  }

  lemma BytesKeepErr(em: Em, bytes: Code)
    ensures Emit.EmitBytes(em, bytes).err == em.err
  {
  }

  lemma OperandKeepsErr(left: Expr, t: Token, ts: Tokens, em: Em)
    requires Emit.EmitExpr(left, em).err && ParseOperand(left, t, ts).Parsed?
    ensures Emit.EmitExpr(ParseOperand(left, t, ts).value, em).err
  {
    hide ParseExpr, Emit.EmitExpr, Emit.EmitBytes, Emit.PatchJump, AndStart, OrStart, OperatorCode;
    var e, a := ParseOperand(left, t, ts).value, Emit.EmitExpr(left, em);
    StartsKeepErr(a);
    match e
    case Binary(op, l, r) =>
      BinaryEmits(op, l, r, em);
      ExprKeepsErr(r, a);
      BytesKeepErr(Emit.EmitExpr(r, a), OperatorCode(op));
    case And(l, r) =>
      LogicalEmits(l, r, em);
      ExprKeepsErr(r, AndStart(a));
      PatchKeepsErr(Emit.EmitExpr(r, AndStart(a)), |a.code| + 1);
    case Or(l, r) =>
      LogicalEmits(l, r, em);
      ExprKeepsErr(r, OrStart(a));
      PatchKeepsErr(Emit.EmitExpr(r, OrStart(a)), |a.code| + 4);
  }

  /** An error in the left operand is an error of the whole expression. */
  lemma {:induction false} InfixKeepsErr(left: Expr, ts: Tokens, prec: nat, em: Em)
    requires Emit.EmitExpr(left, em).err
    ensures CompileInfix(left, ts, prec, em) == Rejected
    decreases |ts|
  {
    hide Emit.EmitExpr, ParseOperand;
    if prec <= Precedence(Peek(ts)) && ts != [] {
      var p := ParseOperand(left, Peek(ts), Tail(ts));
      if p.Parsed? {
        OperandKeepsErr(left, Peek(ts), Tail(ts), em);
        InfixKeepsErr(p.value, p.rest, prec, em);
      }
    }
  }

  /** One more operator: the rest of the expression goes on from the combined operand. */
  lemma InfixStep(left: Expr, ts: Tokens, prec: nat, em: Em)
    requires prec <= Precedence(Peek(ts)) && ts != []
    ensures
      var p := ParseOperand(left, Peek(ts), Tail(ts));
      var c := CompileOperand(left, Peek(ts), Tail(ts), em);
      if c.Rejected? then CompileInfix(left, ts, prec, em) == Rejected
      else
        && p.Parsed? && c.rest == p.rest && c.em == Emit.EmitExpr(p.value, em)
        && CompileInfix(left, ts, prec, em) == CompileInfix(p.value, p.rest, prec, em)
  {
    hide Emit.EmitExpr, ParseOperand;
    var p := ParseOperand(left, Peek(ts), Tail(ts));
    if p.Parsed? && Emit.EmitExpr(p.value, em).err {
      InfixKeepsErr(p.value, p.rest, prec, em);
    }
  }

  /** An assignment sign after a complete expression is an error. */
  function Finished(c: Compiled, prec: nat): Compiled {
    if c.Compiled? && prec <= PREC_ASSIGNMENT && Peek(c.rest) == Assign then Rejected else c
  }

  lemma ExprUnfolds(ts: Tokens, prec: nat, em: Em)
    ensures
      var operand := ParsePrefix(ts, prec);
      var c := CompilePrefix(ts, prec, em);
      if c.Rejected? then CompileExpr(ts, prec, em) == Rejected
      else
        && operand.Parsed? && c == Compiled(Emit.EmitExpr(operand.value, em), operand.rest)
        && CompileExpr(ts, prec, em) == Finished(CompileInfix(operand.value, operand.rest, prec, em), prec)
    ensures !HasPrefixRule(Peek(ts)) || ts == [] ==> CompileExpr(ts, prec, em) == Rejected
  {
    hide Emit.EmitExpr, ParseInfix;
    var operand := ParsePrefix(ts, prec);
    if operand.Parsed? && Emit.EmitExpr(operand.value, em).err {
      InfixKeepsErr(operand.value, operand.rest, prec, em);
    }
  }

  lemma CompileKeepsErr(ts: Tokens, prec: nat, em: Em)
    requires em.err
    ensures CompileExpr(ts, prec, em) == Rejected
  {
    hide ParseExpr, Emit.EmitExpr;
    if ParseExpr(ts, prec).Parsed? {
      ExprKeepsErr(ParseExpr(ts, prec).value, em);
    }
  }

  lemma EofBindsNothing()
    ensures Precedence(Eof) == 0
  {
  }

  /** One turn of the loop over operators. */
  lemma InfixTurn(left: Expr, ts: Tokens, prec: nat, em: Em, whole: Compiled)
    requires prec <= Precedence(Peek(ts)) && ts != []
    requires whole == Finished(CompileInfix(left, ts, prec, em), prec)
    ensures
      var p := ParseOperand(left, Peek(ts), Tail(ts));
      var c := CompileOperand(left, Peek(ts), Tail(ts), em);
      if c.Rejected? then whole == Rejected
      else
        && p.Parsed? && c.em == Emit.EmitExpr(p.value, em)
        && whole == Finished(CompileInfix(p.value, c.rest, prec, em), prec)
  {
    hide Emit.EmitExpr, ParseOperand, CompileOperand, CompileInfix;
    InfixStep(left, ts, prec, em);
  }

  lemma CompileKeepsLocals(ts: Tokens, prec: nat, em: Em)
    ensures
      var c := CompileExpr(ts, prec, em);
      c.Compiled? ==> c.em.locals == em.locals
  {
    hide ParseExpr, Emit.EmitExpr;
    if ParseExpr(ts, prec).Parsed? {
      EmittedExpr(em, ParseExpr(ts, prec).value, 0);
    }
  }

  lemma InfixEnds(left: Expr, ts: Tokens, prec: nat, em: Em)
    requires prec > Precedence(Peek(ts)) && !Emit.EmitExpr(left, em).err
    ensures CompileInfix(left, ts, prec, em) == Compiled(Emit.EmitExpr(left, em), ts)
  {
    hide Emit.EmitExpr;
  }

  // ----- what each prefix and infix rule adds -----

  lemma GroupingUnfolds(ts: Tokens, prec: nat, em: Em)
    ensures
      var c := CompileExpr(ts, PREC_ASSIGNMENT, em);
      CompilePrefix([LeftParen] + ts, prec, em) ==
        if c.Compiled? && Peek(c.rest) == RightParen then Compiled(c.em, Tail(c.rest)) else Rejected
  {
    hide ParseExpr, Emit.EmitExpr;
    assert Tail([LeftParen] + ts) == ts;
  }

  lemma UnaryUnfolds(t: Token, ts: Tokens, prec: nat, em: Em)
    requires t == Minus || t == Bang
    ensures
      var c := CompileExpr(ts, PREC_UNARY, em);
      CompilePrefix([t] + ts, prec, em) ==
        if c.Rejected? then Rejected else Compiled(Emit.EmitBytes(c.em, [if t == Minus then NEGATE else NOT]), c.rest)
  {
    hide ParseExpr;
    assert Tail([t] + ts) == ts;
  }

  lemma LiteralUnfolds(t: Token, ts: Tokens, prec: nat, em: Em)
    requires IsLiteralToken(t)
    ensures CompilePrefix([t] + ts, prec, em) == Accept(Emit.EmitLiteral(LiteralOf(t), em), ts)
  {
    hide ParseExpr, Emit.EmitLiteral;
    assert Tail([t] + ts) == ts;
  }

  lemma StoreKeepsErr(x: Name, em: Em)
    ensures em.err ==> Emit.EmitStore(x, em).err
  {
  }

  lemma SetUnfolds(x: Name, ts: Tokens, prec: nat, em: Em)
    requires prec <= PREC_ASSIGNMENT && Peek(ts) == Assign
    ensures
      var c := CompileExpr(Tail(ts), PREC_ASSIGNMENT, em);
      CompilePrefix([Identifier(x)] + ts, prec, em) ==
        if c.Rejected? then Rejected else Accept(Emit.EmitStore(x, c.em), c.rest)
  {
    hide ParseExpr, Emit.EmitStore;
    assert Tail([Identifier(x)] + ts) == ts;
    var p := ParseExpr(Tail(ts), PREC_ASSIGNMENT);
    if p.Parsed? {
      StoreKeepsErr(x, Emit.EmitExpr(p.value, em));
    }
  }

  lemma UpdateUnfolds(x: Name, ts: Tokens, prec: nat, em: Em)
    requires prec <= PREC_ASSIGNMENT && IsUpdateToken(Peek(ts))
    ensures
      var c := CompileExpr(Tail(ts), PREC_ASSIGNMENT, Emit.EmitLoad(x, em));
      CompilePrefix([Identifier(x)] + ts, prec, em) ==
        if c.Rejected? then Rejected
        else Accept(Emit.EmitStore(x, Emit.EmitBytes(c.em, OperatorCode(UpdateOf(Peek(ts))))), c.rest)
  {
    hide ParseExpr, Emit.EmitStore, Emit.EmitLoad, OperatorCode;
    assert Tail([Identifier(x)] + ts) == ts;
    var p := ParseExpr(Tail(ts), PREC_ASSIGNMENT);
    if p.Parsed? {
      StoreKeepsErr(x, Emit.EmitBytes(Emit.EmitExpr(p.value, Emit.EmitLoad(x, em)), OperatorCode(UpdateOf(Peek(ts)))));
    }
  }

  lemma ReadUnfolds(x: Name, ts: Tokens, prec: nat, em: Em)
    requires prec <= PREC_ASSIGNMENT ==> Peek(ts) != Assign && !IsUpdateToken(Peek(ts))
    ensures CompilePrefix([Identifier(x)] + ts, prec, em) == Accept(Emit.EmitLoad(x, em), ts)
  {
    hide ParseExpr, Emit.EmitLoad;
    assert Tail([Identifier(x)] + ts) == ts;
  }

  lemma CallIsOutside(left: Expr, t: Token, ts: Tokens, em: Em)
    requires t != AndWord && t != OrWord && !IsBinaryToken(t)
    ensures CompileOperand(left, t, ts, em) == Rejected
  {
    hide ParseExpr;
  }

  lemma AndUnfolds(left: Expr, ts: Tokens, em: Em)
    ensures
      var a := Emit.EmitExpr(left, em);
      var c := CompileExpr(ts, PREC_AND, AndStart(a));
      CompileOperand(left, AndWord, ts, em) ==
        if c.Rejected? then Rejected else Accept(Emit.PatchJump(c.em, |a.code| + 1), c.rest)
  {
    hide ParseExpr, ParseOperand, Emit.PatchJump, Emit.EmitExpr, AndStart;
    AndOperand(left, ts);
    var a, p := Emit.EmitExpr(left, em), ParseExpr(ts, PREC_AND);
    if p.Parsed? {
      LogicalEmits(left, p.value, em);
      PatchKeepsErr(Emit.EmitExpr(p.value, AndStart(a)), |a.code| + 1);
    }
  }

  lemma OrUnfolds(left: Expr, ts: Tokens, em: Em)
    ensures
      var a := Emit.EmitExpr(left, em);
      var c := CompileExpr(ts, PREC_OR, OrStart(a));
      CompileOperand(left, OrWord, ts, em) ==
        if c.Rejected? then Rejected else Accept(Emit.PatchJump(c.em, |a.code| + 4), c.rest)
  {
    hide ParseExpr, ParseOperand, Emit.PatchJump, Emit.EmitExpr, OrStart;
    OrOperand(left, ts);
    var a, p := Emit.EmitExpr(left, em), ParseExpr(ts, PREC_OR);
    if p.Parsed? {
      LogicalEmits(left, p.value, em);
      PatchKeepsErr(Emit.EmitExpr(p.value, OrStart(a)), |a.code| + 4);
    }
  }

  lemma BinaryUnfolds(left: Expr, t: Token, ts: Tokens, em: Em)
    requires IsBinaryToken(t)
    ensures
      var c := CompileExpr(ts, Precedence(t) + 1, Emit.EmitExpr(left, em));
      CompileOperand(left, t, ts, em) ==
        if c.Rejected? then Rejected else Compiled(Emit.EmitBytes(c.em, OperatorCode(BinaryOf(t))), c.rest)
  {
    hide ParseExpr, OperatorCode, Emit.EmitExpr, Emit.EmitBytes, Precedence, BinaryOf, ParseOperand, IsBinaryToken;
    BinaryOperand(left, t, ts);
    var p := ParseExpr(ts, Precedence(t) + 1);
    if p.Parsed? {
      BinaryEmits(BinaryOf(t), left, p.value, em);
      BytesKeepErr(Emit.EmitExpr(p.value, Emit.EmitExpr(left, em)), OperatorCode(BinaryOf(t)));
    }
  }

  predicate HasPrefixRule(t: Token) {
    t == LeftParen || t == Minus || t == Bang || IsLiteralToken(t) || t.Identifier?
  }

  // ----- statements -----

  function CompileStmt(ts: Tokens, em: Em): Compiled {
    match ParseStmt(ts)
    case Failed => Rejected
    case Parsed(s, rest) => Accept(Emit.EmitStmt(s, em), rest)
  }

  function CompileCondition(ts: Tokens, em: Em): Compiled {
    Emitting(ParseCondition(ts), em)
  }

  lemma ConditionUnfolds(ts: Tokens, em: Em)
    ensures
      var c := CompileExpr(Tail(ts), PREC_ASSIGNMENT, em);
      CompileCondition(ts, em) ==
        if Peek(ts) == LeftParen && c.Compiled? && Peek(c.rest) == RightParen then Compiled(c.em, Tail(c.rest))
        else Rejected
  {
    hide ParseExpr, Emit.EmitExpr;
  }

  lemma StmtCompileKeepsErr(ts: Tokens, em: Em)
    requires em.err
    ensures CompileStmt(ts, em) == Rejected
  {
    hide ParseStmt, Emit.EmitStmt;
    if ParseStmt(ts).Parsed? {
      StmtKeepsErr(ParseStmt(ts).value, em);
    }
  }

  lemma EvalUnfolds(ts: Tokens, em: Em)
    requires Peek(ts) !in {BreakWord, ContinueWord, ForWord, IfWord, WhileWord, LeftBrace}
    ensures
      var c := CompileExpr(ts, PREC_ASSIGNMENT, em);
      CompileStmt(ts, em) ==
        if c.Compiled? && Peek(c.rest) == Semicolon then Compiled(Emit.EmitBytes(c.em, [POP]), Tail(c.rest))
        else Rejected
  {
    hide ParseExpr, Emit.EmitExpr;
  }

  lemma BreakUnfolds(ts: Tokens, em: Em)
    requires Peek(ts) == BreakWord
    ensures CompileStmt(ts, em) ==
      if Peek(Tail(ts)) == Semicolon then Accept(Emit.EmitBreak(em), Tail(Tail(ts))) else Rejected
  {
    hide Emit.EmitBreak;
  }

  lemma ContinueUnfolds(ts: Tokens, em: Em)
    requires Peek(ts) == ContinueWord
    ensures CompileStmt(ts, em) ==
      if Peek(Tail(ts)) == Semicolon then Accept(Emit.EmitContinue(em), Tail(Tail(ts))) else Rejected
  {
    hide Emit.EmitContinue;
  }

  /** The state once the variables of the innermost loop's body are discarded. */
  function LeftBody(em: Em): Em {
    Emit.EmitBytes(em, PopCode(Deeper(em.locals, em.loopDepth)))
  }

  lemma BreakIs(em: Em)
    ensures
      var em1 := LeftBody(em);
      && (Emit.EmitBreak(em).err <==> em.err || em.loopStart == -1)
      && (em.loopStart != -1 ==>
            && Emit.EmitBreak(em) ==
                 Emit.EmitJump(em1, JUMP).(
                   breaks := [Emit.BreakJump.BreakJump(em.loopDepth, |em1.code| + 1)] + em.breaks)
            && Emit.EmitContinue(em) == Emit.EmitBack(em1, em.loopStart))
      && (em.err || em.loopStart == -1 ==> Emit.EmitContinue(em).err)
      && em1.breaks == em.breaks && em1.loopDepth == em.loopDepth && em1.loopStart == em.loopStart
      && Emit.EmitJump(em1, JUMP).breaks == em.breaks
  {
    hide PopCode, Deeper;
  }

  // ----- if -----

  /** After the `then` branch: the jump over the `else` branch, and the test's jump patched. */
  function AfterThen(condSize: nat, em: Em): Em {
    Emit.EmitBytes(Emit.PatchJump(Emit.EmitJump(em, JUMP), condSize + 1), [POP])
  }

  function CompileElse(ts: Tokens, em: Em, hole: nat): Compiled {
    if Peek(ts) == ElseWord then
      var c := CompileStmt(Tail(ts), em);
      if c.Rejected? then Rejected else Accept(Emit.PatchJump(c.em, hole), c.rest)
    else Accept(Emit.PatchJump(em, hole), ts)
  }

  /** An `if` from its `then` branch on; `em` is the state after the condition. */
  function CompileThen(ts: Tokens, em: Em): Compiled {
    var c := CompileStmt(ts, AndStart(em));
    if c.Rejected? then Rejected else CompileElse(c.rest, AfterThen(|em.code|, c.em), |c.em.code| + 1)
  }

  /** An `if` with condition `c`, from its `then` branch on. */
  function ParseThen(c: Expr, ts: Tokens): Parse<Stmt> {
    match ParseStmt(ts)
    case Failed => Failed
    case Parsed(t, rest) =>
      if Peek(rest) != ElseWord then Parsed(If(c, t, None), rest)
      else
        match ParseStmt(Tail(rest))
        case Failed => Failed
        case Parsed(e, after) => Parsed(If(c, t, Some(e)), after)
  }

  lemma ThenCompiles(c: Expr, ts: Tokens, em: Em)
    ensures CompileThen(ts, Emit.EmitExpr(c, em)) == EmittingStmt(ParseThen(c, ts), em)
  {
    hide ParseStmt, Emit.EmitExpr, Emit.EmitStmt, Emit.PatchJump, AndStart, AfterThen;
    var em1 := Emit.EmitExpr(c, em);
    var q := ParseStmt(ts);
    if q.Parsed? {
      var em2 := Emit.EmitStmt(q.value, AndStart(em1));
      AfterThenKeepsErr(|em1.code|, em2);
      if Peek(q.rest) == ElseWord {
        var r := ParseStmt(Tail(q.rest));
        if r.Parsed? {
          ElseCompiles(c, q.value, r.value, em);
          ElsePartKeepsErr(r.value, AfterThen(|em1.code|, em2), |em2.code| + 1);
        }
      } else {
        NoElseCompiles(c, q.value, em);
        PatchKeepsErr(AfterThen(|em1.code|, em2), |em2.code| + 1);
      }
    }
  }

  lemma {:induction false} ThenKeepsErr(ts: Tokens, em: Em)
    requires em.err
    ensures CompileThen(ts, em) == Rejected
  {
    hide CompileStmt, AndStart, AfterThen;
    StartsKeepErr(em);
    StmtCompileKeepsErr(ts, AndStart(em));
  }

  lemma IfParses(ts: Tokens)
    requires Peek(ts) == IfWord
    ensures
      var p := ParseCondition(Tail(ts));
      ParseStmt(ts) == if p.Failed? then Failed else ParseThen(p.value, p.rest)
  {
    hide ParseCondition;
    assert ParseStmt(ts) == ParseIf(Tail(ts));
  }

  lemma IfCompiles(ts: Tokens, em: Em)
    requires Peek(ts) == IfWord
    ensures
      var c := CompileCondition(Tail(ts), em);
      CompileStmt(ts, em) == if c.Rejected? then Rejected else CompileThen(c.rest, c.em)
  {
    hide ParseCondition, ParseStmt, ParseThen, CompileThen, Emit.EmitExpr, Emit.EmitStmt;
    IfParses(ts);
    var p := ParseCondition(Tail(ts));
    if p.Parsed? {
      ThenCompiles(p.value, p.rest, em);
      if Emit.EmitExpr(p.value, em).err {
        ThenKeepsErr(p.rest, Emit.EmitExpr(p.value, em));
      }
    }
  }

  function EmittingStmt(p: Parse<Stmt>, em: Em): Compiled {
    if p.Failed? then Rejected else Accept(Emit.EmitStmt(p.value, em), p.rest)
  }

  lemma AfterThenKeepsErr(condSize: nat, em: Em)
    ensures em.err ==> AfterThen(condSize, em).err
  {
    hide Emit.Patched;
  }

  lemma ElsePartKeepsErr(s: Stmt, em: Em, hole: nat)
    ensures em.err || Emit.EmitStmt(s, em).err ==> Emit.PatchJump(Emit.EmitStmt(s, em), hole).err
  {
    hide Emit.EmitStmt, Emit.PatchJump;
    PatchKeepsErr(Emit.EmitStmt(s, em), hole);
    if em.err {
      StmtKeepsErr(s, em);
    }
  }

  lemma ElseCompiles(c: Expr, t: Stmt, e: Stmt, em: Em)
    ensures
      var em1 := Emit.EmitExpr(c, em);
      var em2 := Emit.EmitStmt(t, AndStart(em1));
      Emit.EmitStmt(If(c, t, Some(e)), em) ==
        Emit.PatchJump(Emit.EmitStmt(e, AfterThen(|em1.code|, em2)), |em2.code| + 1)
  {
    hide Emit.EmitExpr, Emit.PatchJump, Emit.EmitBytes, Emit.EmitJump;
  }

  lemma NoElseCompiles(c: Expr, t: Stmt, em: Em)
    ensures
      var em1 := Emit.EmitExpr(c, em);
      var em2 := Emit.EmitStmt(t, AndStart(em1));
      Emit.EmitStmt(If(c, t, None), em) == Emit.PatchJump(AfterThen(|em1.code|, em2), |em2.code| + 1)
  {
    hide Emit.EmitExpr, Emit.PatchJump, Emit.EmitBytes, Emit.EmitJump;
  }

  // ----- loops -----

  /** The end of a loop inside the loop that `outer` was in. */
  function LoopClosed(hasTest: bool, exit: nat, em: Em, outer: Em): Em {
    Emit.EmitLoopEnd(hasTest, exit, em).(loopStart := outer.loopStart, loopDepth := outer.loopDepth)
  }

  /** A loop from its body on; `exit` is where the code of the test ended. */
  function CompileBody(ts: Tokens, hasTest: bool, exit: nat, em: Em, outer: Em): Compiled {
    var c := CompileStmt(ts, em);
    if c.Rejected? then Rejected else Accept(LoopClosed(hasTest, exit, c.em, outer), c.rest)
  }

  lemma BodyKeepsErr(ts: Tokens, hasTest: bool, exit: nat, em: Em, outer: Em)
    ensures
      var p := ParseStmt(ts);
      CompileBody(ts, hasTest, exit, em, outer) ==
        if p.Failed? then Rejected else Accept(LoopClosed(hasTest, exit, Emit.EmitStmt(p.value, em), outer), p.rest)
  {
    hide ParseStmt, Emit.EmitStmt, Emit.EmitLoopEnd;
    var p := ParseStmt(ts);
    if p.Parsed? && Emit.EmitStmt(p.value, em).err {
      LoopEndKeepsErr(hasTest, exit, Emit.EmitStmt(p.value, em));
    }
  }

  /** The test of a `while` has been emitted in `em`. */
  function CompileWhileBody(ts: Tokens, em: Em, outer: Em): Compiled {
    CompileBody(ts, true, |AndStart(em).code|, AndStart(em), outer)
  }

  lemma WhileUnfolds(ts: Tokens, em: Em)
    requires Peek(ts) == WhileWord
    ensures
      var c := CompileCondition(Tail(ts), Emit.EnterLoop(em));
      CompileStmt(ts, em) == if c.Rejected? then Rejected else CompileWhileBody(c.rest, c.em, em)
  {
    hide ParseCondition, Emit.EmitExpr, Emit.EmitStmt, Emit.EmitLoopEnd, AndStart;
    assert CompileStmt(ts, em) == EmittingStmt(ParseWhile(Tail(ts)), em);
    var p := ParseCondition(Tail(ts));
    if p.Parsed? {
      var em1 := Emit.EmitExpr(p.value, Emit.EnterLoop(em));
      StartsKeepErr(em1);
      BodyKeepsErr(p.rest, true, |AndStart(em1).code|, AndStart(em1), em);
      var q := ParseStmt(p.rest);
      if q.Parsed? {
        WhileCompiles(p.value, q.value, em);
        if em1.err {
          StmtKeepsErr(q.value, AndStart(em1));
          LoopEndKeepsErr(true, |AndStart(em1).code|, Emit.EmitStmt(q.value, AndStart(em1)));
        }
      }
    }
  }

  lemma WhileCompiles(c: Expr, b: Stmt, em: Em)
    ensures
      var em1 := AndStart(Emit.EmitExpr(c, Emit.EnterLoop(em)));
      Emit.EmitStmt(While(c, b), em) == LoopClosed(true, |em1.code|, Emit.EmitStmt(b, em1), em)
  {
    hide Emit.EmitExpr, Emit.EmitLoopEnd;
    assert Emit.EmitStmt(While(c, b), em) == Emit.EmitLoop(Some(c), None, b, em);
  }

  // ----- for -----

  /** The initializer of a `for`, up to and including its semicolon. */
  function CompileForInit(ts: Tokens, em: Em): Compiled {
    match ParseForInit(ts)
    case Failed => Rejected
    case Parsed(i, rest) => Accept(Emit.EmitInit(i, em), rest)
  }

  /** The test of a `for`, up to and including its semicolon. */
  function CompileTest(ts: Tokens, em: Em): Compiled {
    match ParseOptional(ts, Semicolon)
    case Failed => Rejected
    case Parsed(t, rest) => Accept(Emit.EmitTest(t, em), rest)
  }

  /** The increment clause of a `for`, up to and including the closing parenthesis. */
  function CompileIncrement(ts: Tokens, em: Em): Compiled {
    match ParseOptional(ts, RightParen)
    case Failed => Rejected
    case Parsed(i, rest) => Accept(Emit.EmitIncrement(i, em), rest)
  }

  lemma OptionalUnfolds(ts: Tokens, t: Token)
    requires t != Eof
    ensures
      var p := ParseExpr(ts, PREC_ASSIGNMENT);
      ParseOptional(ts, t) ==
        if Peek(ts) == t then Parsed(None, Tail(ts))
        else if p.Failed? || Peek(p.rest) != t then Failed
        else Parsed(Some(p.value), Tail(p.rest))
  {
    hide ParseExpr;
  }

  lemma TestUnfolds(ts: Tokens, em: Em)
    requires Peek(ts) != Semicolon
    ensures
      var c := CompileExpr(ts, PREC_ASSIGNMENT, em);
      CompileTest(ts, em) ==
        if c.Compiled? && Peek(c.rest) == Semicolon then Compiled(AndStart(c.em), Tail(c.rest)) else Rejected
  {
    hide ParseExpr, Emit.EmitExpr, ParseOptional;
    OptionalUnfolds(ts, Semicolon);
  }

  /** The end of an increment clause whose jump has its hole at `hole`. */
  function IncrementClosed(em: Em, start: int, hole: nat): Em {
    Emit.PatchJump(Emit.EmitBack(em, start).(loopStart := hole + 2), hole)
  }

  /** An increment clause that started in `start` and whose expression has led to `em`. */
  function IncrementEnd(em: Em, start: Em): Em {
    IncrementClosed(Emit.EmitBytes(em, [POP]), start.loopStart, |start.code| + 1)
  }

  lemma NoIncrement(ts: Tokens, em: Em)
    requires Peek(ts) == RightParen
    ensures CompileIncrement(ts, em) == Accept(em, Tail(ts))
  {
    hide ParseExpr;
    OptionalUnfolds(ts, RightParen);
  }

  lemma IncrementUnfolds(ts: Tokens, em: Em)
    requires Peek(ts) != RightParen
    ensures
      var c := CompileExpr(ts, PREC_ASSIGNMENT, Emit.EmitJump(em, JUMP));
      CompileIncrement(ts, em) ==
        if c.Compiled? && Peek(c.rest) == RightParen then Accept(IncrementEnd(c.em, em), Tail(c.rest)) else Rejected
  {
    hide ParseExpr, Emit.EmitExpr, ParseOptional, Emit.Patched;
    OptionalUnfolds(ts, RightParen);
  }

  /** A `for` from its test on; `em` is the state after the initializer. */
  function CompileForRest(ts: Tokens, em: Em): Compiled {
    var c1 := CompileTest(ts, Emit.EnterLoop(em));
    if c1.Rejected? then Rejected else CompileForBody(c1.rest, Peek(ts) != Semicolon, c1.em, em)
  }

  function CompileForBody(ts: Tokens, hasTest: bool, em: Em, outer: Em): Compiled {
    var c2 := CompileIncrement(ts, em);
    if c2.Rejected? then Rejected
    else
      var c3 := CompileBody(c2.rest, hasTest, |em.code|, c2.em, outer);
      if c3.Rejected? then Rejected else Compiled(Emit.EndScope(c3.em), c3.rest)
  }

  function ParseForRest(init: ForInit, ts: Tokens): Parse<Stmt> {
    match ParseOptional(ts, Semicolon)
    case Failed => Failed
    case Parsed(test, afterTest) => ParseForBody(init, test, afterTest)
  }

  function ParseForBody(init: ForInit, test: Option<Expr>, ts: Tokens): Parse<Stmt> {
    match ParseOptional(ts, RightParen)
    case Failed => Failed
    case Parsed(inc, afterInc) =>
      match ParseStmt(afterInc)
      case Failed => Failed
      case Parsed(s, after) => Parsed(For(init, test, inc, s), after)
  }

  lemma ForParses(ts: Tokens)
    requires Peek(ts) == ForWord
    ensures
      var p := ParseForInit(Tail(Tail(ts)));
      ParseStmt(ts) == if Peek(Tail(ts)) != LeftParen || p.Failed? then Failed else ParseForRest(p.value, p.rest)
  {
    hide ParseForInit, ParseOptional;
    assert ParseStmt(ts) == ParseFor(Tail(ts));
  }

  /** What remains of a `for` once its test is in `em`. */
  function ForFrom(hasTest: bool, inc: Option<Expr>, b: Stmt, em: Em, outer: Em): Em {
    Emit.EndScope(LoopClosed(hasTest, |em.code|, Emit.EmitStmt(b, Emit.EmitIncrement(inc, em)), outer))
  }

  lemma ForEmitted(init: ForInit, test: Option<Expr>, inc: Option<Expr>, b: Stmt, em: Em)
    ensures
      var em0 := Emit.EmitInit(init, Emit.BeginScope(em));
      Emit.EmitStmt(For(init, test, inc, b), em) ==
        ForFrom(test.Some?, inc, b, Emit.EmitTest(test, Emit.EnterLoop(em0)), em0)
  {
    hide Emit.EmitInit, Emit.EmitTest, Emit.EmitIncrement, Emit.EmitLoopEnd, Emit.EndScope;
  }

  lemma ForFromKeepsErr(hasTest: bool, inc: Option<Expr>, b: Stmt, em: Em, outer: Em)
    ensures
      var em2 := Emit.EmitIncrement(inc, em);
      var em3 := LoopClosed(hasTest, |em.code|, Emit.EmitStmt(b, em2), outer);
      && (em.err ==> em2.err) && (em2.err ==> em3.err) && ForFrom(hasTest, inc, b, em, outer).err == em3.err
  {
    hide Emit.EmitIncrement, Emit.EmitStmt, Emit.EmitLoopEnd, Emit.EndScope;
    var em2 := Emit.EmitIncrement(inc, em);
    var em3 := Emit.EmitStmt(b, em2);
    EndScopeKeepsErr(LoopClosed(hasTest, |em.code|, em3, outer));
    if em.err {
      IncrementKeepsErr(inc, em);
    }
    if em2.err {
      StmtKeepsErr(b, em2);
      LoopEndKeepsErr(hasTest, |em.code|, em3);
    }
  }

  lemma ForBodyCompiles(init: ForInit, test: Option<Expr>, ts: Tokens, em: Em, outer: Em)
    ensures
      var p := ParseForBody(init, test, ts);
      CompileForBody(ts, test.Some?, em, outer) ==
        if p.Failed? then Rejected
        else Accept(ForFrom(test.Some?, p.value.increment, p.value.body_, em, outer), p.rest)
    ensures ParseForBody(init, test, ts).Parsed? ==>
      var s := ParseForBody(init, test, ts).value; s == For(init, test, s.increment, s.body_)
  {
    hide ParseOptional, ParseStmt, CompileBody, Emit.EmitIncrement, Emit.EmitStmt, LoopClosed, Emit.EndScope, ForFrom;
    var i := ParseOptional(ts, RightParen);
    if i.Parsed? {
      var em2 := Emit.EmitIncrement(i.value, em);
      var q := ParseStmt(i.rest);
      BodyKeepsErr(i.rest, test.Some?, |em.code|, em2, outer);
      if q.Parsed? {
        ForFromKeepsErr(test.Some?, i.value, q.value, em, outer);
        ForFromIs(test.Some?, i.value, q.value, em, outer);
      }
    }
  }

  lemma ForFromIs(hasTest: bool, inc: Option<Expr>, b: Stmt, em: Em, outer: Em)
    ensures
      ForFrom(hasTest, inc, b, em, outer) ==
        Emit.EndScope(LoopClosed(hasTest, |em.code|, Emit.EmitStmt(b, Emit.EmitIncrement(inc, em)), outer))
  {
  }

  lemma ForRestCompiles(init: ForInit, ts: Tokens, em: Em)
    ensures
      var p := ParseForRest(init, ts);
      CompileForRest(ts, Emit.EmitInit(init, Emit.BeginScope(em))) ==
        if p.Failed? then Rejected else Accept(Emit.EmitStmt(p.value, em), p.rest)
  {
    hide ParseOptional, ParseForBody, CompileForBody, Emit.EmitInit, Emit.EmitTest, Emit.EmitStmt, ForFrom;
    var em0 := Emit.EmitInit(init, Emit.BeginScope(em));
    OptionalPresent(ts);
    var t := ParseOptional(ts, Semicolon);
    if t.Parsed? {
      var em1 := Emit.EmitTest(t.value, Emit.EnterLoop(em0));
      ForBodyCompiles(init, t.value, t.rest, em1, em0);
      var p := ParseForBody(init, t.value, t.rest);
      if p.Parsed? {
        ForEmitted(init, t.value, p.value.increment, p.value.body_, em);
        ForFromKeepsErr(t.value.Some?, p.value.increment, p.value.body_, em1, em0);
      }
    }
  }

  lemma OptionalPresent(ts: Tokens)
    ensures
      var p := ParseOptional(ts, Semicolon);
      p.Parsed? ==> (p.value.Some? <==> Peek(ts) != Semicolon)
  {
    hide ParseExpr;
    OptionalUnfolds(ts, Semicolon);
  }

  lemma ForCompiles(ts: Tokens, em: Em)
    requires Peek(ts) == ForWord
    ensures
      var c := CompileForInit(Tail(Tail(ts)), Emit.BeginScope(em));
      CompileStmt(ts, em) ==
        if Peek(Tail(ts)) != LeftParen || c.Rejected? then Rejected else CompileForRest(c.rest, c.em)
  {
    hide ParseForInit, ParseStmt, ParseForRest, CompileForRest, Emit.EmitInit, Emit.EmitStmt, Emit.BeginScope;
    ForParses(ts);
    var p := ParseForInit(Tail(Tail(ts)));
    if p.Parsed? {
      ForRestCompiles(p.value, p.rest, em);
      if Emit.EmitInit(p.value, Emit.BeginScope(em)).err {
        ForRestKeepsErr(p.rest, Emit.EmitInit(p.value, Emit.BeginScope(em)));
      }
    }
  }

  lemma ForRestKeepsErr(ts: Tokens, em: Em)
    requires em.err
    ensures CompileForRest(ts, em) == Rejected
  {
    hide ParseOptional, CompileForBody, Emit.EmitTest;
    var t := ParseOptional(ts, Semicolon);
    if t.Parsed? {
      TestKeepsErr(t.value, Emit.EnterLoop(em));
    }
  }

  // ----- declarations -----

  function CompileVar(ts: Tokens, em: Em): Compiled {
    match ParseVar(ts)
    case Failed => Rejected
    case Parsed(d, rest) => Accept(Emit.EmitVar(d.0, d.1, em), rest)
  }

  lemma MarkKeepsErr(em: Em)
    ensures Emit.MarkInitialized(em).err == em.err
  {
  }

  lemma VarUnfolds(ts: Tokens, em: Em)
    ensures
      if !Peek(ts).Identifier? then CompileVar(ts, em) == Rejected
      else
        var em1 := Emit.EmitDeclare(ts[0].name, em);
        var c := CompileExpr(Tail(Tail(ts)), PREC_ASSIGNMENT, em1);
        CompileVar(ts, em) ==
          if Peek(Tail(ts)) == Assign then
            if c.Compiled? && Peek(c.rest) == Semicolon then Compiled(Emit.MarkInitialized(c.em), Tail(c.rest))
            else Rejected
          else if Peek(Tail(ts)) == Semicolon then
            Accept(Emit.MarkInitialized(Emit.EmitBytes(em1, [NIL])), Tail(Tail(ts)))
          else Rejected
  {
    hide ParseExpr, Emit.EmitExpr, Emit.EmitDeclare, Emit.MarkInitialized;
    if Peek(ts).Identifier? {
      var em1, p := Emit.EmitDeclare(ts[0].name, em), ParseExpr(Tail(Tail(ts)), PREC_ASSIGNMENT);
      if p.Parsed? {
        MarkKeepsErr(Emit.EmitExpr(p.value, em1));
      }
    }
  }

  lemma DeclaredKeepsErr(ts: Tokens, em: Em)
    requires Peek(ts).Identifier?
    ensures
      var em1 := Emit.EmitDeclare(ts[0].name, em);
      && Emit.MarkInitialized(Emit.EmitBytes(em1, [NIL])).err == em1.err
      && (em1.err ==> CompileExpr(Tail(Tail(ts)), PREC_ASSIGNMENT, em1) == Rejected)
  {
    hide CompileExpr, Emit.EmitDeclare;
    var em1 := Emit.EmitDeclare(ts[0].name, em);
    if em1.err {
      CompileKeepsErr(Tail(Tail(ts)), PREC_ASSIGNMENT, em1);
    }
  }

  lemma ForInitUnfolds(ts: Tokens, em: Em)
    ensures
      var c := CompileExpr(ts, PREC_ASSIGNMENT, em);
      CompileForInit(ts, em) ==
        if Peek(ts) == Semicolon then Accept(em, Tail(ts))
        else if Peek(ts) == LocalWord then CompileVar(Tail(ts), em)
        else if c.Compiled? && Peek(c.rest) == Semicolon then Compiled(Emit.EmitBytes(c.em, [POP]), Tail(c.rest))
        else Rejected
  {
    hide ParseExpr, ParseVar, Emit.EmitExpr, Emit.EmitVar;
  }

  function CompileDecl(ts: Tokens, em: Em): Compiled {
    match ParseDecl(ts)
    case Failed => Rejected
    case Parsed(d, rest) => Accept(Emit.EmitDecl(d, em), rest)
  }

  lemma DeclUnfolds(ts: Tokens, em: Em)
    ensures CompileDecl(ts, em) == if Peek(ts) == LocalWord then CompileVar(Tail(ts), em) else CompileStmt(ts, em)
  {
    hide ParseVar, ParseStmt, Emit.EmitVar, Emit.EmitStmt;
  }

  /** Declarations up to a closing brace or the end of the file. */
  function CompileDecls(ts: Tokens, em: Em): Compiled {
    match ParseDecls(ts)
    case Failed => Rejected
    case Parsed(ds, rest) => Accept(Emit.EmitDecls(ds, em), rest)
  }

  /** Declarations up to the end of the file. */
  function CompileProgram(ts: Tokens, em: Em): Compiled {
    match ParseProgram(ts)
    case Failed => Rejected
    case Parsed(ds, rest) => Accept(Emit.EmitDecls(ds, em), rest)
  }

  lemma DeclsUnfold(ts: Tokens, em: Em)
    ensures
      var c := CompileDecl(ts, em);
      CompileDecls(ts, em) ==
        if Peek(ts) == RightBrace || Peek(ts) == Eof then Accept(em, ts)
        else if c.Rejected? then Rejected else CompileDecls(c.rest, c.em)
  {
    hide ParseDecl, Emit.EmitDecl;
    var p := ParseDecl(ts);
    if p.Parsed? && Emit.EmitDecl(p.value, em).err && ParseDecls(p.rest).Parsed? {
      DeclsKeepErr(ParseDecls(p.rest).value, Emit.EmitDecl(p.value, em));
    }
  }

  lemma ProgramUnfolds(ts: Tokens, em: Em)
    ensures
      var c := CompileDecl(ts, em);
      CompileProgram(ts, em) ==
        if Peek(ts) == Eof then Accept(em, ts)
        else if c.Rejected? then Rejected else CompileProgram(c.rest, c.em)
  {
    hide ParseDecl, Emit.EmitDecl;
    var p := ParseDecl(ts);
    if p.Parsed? && Emit.EmitDecl(p.value, em).err && ParseProgram(p.rest).Parsed? {
      DeclsKeepErr(ParseProgram(p.rest).value, Emit.EmitDecl(p.value, em));
    }
  }

  lemma BlockUnfolds(ts: Tokens, em: Em)
    requires Peek(ts) == LeftBrace
    ensures
      var c := CompileDecls(Tail(ts), Emit.BeginScope(em));
      CompileStmt(ts, em) ==
        if c.Compiled? && Peek(c.rest) == RightBrace then Compiled(Emit.EndScope(c.em), Tail(c.rest)) else Rejected
  {
    hide ParseDecls, Emit.EmitDecls, Emit.EndScope;
    var p := ParseDecls(Tail(ts));
    if p.Parsed? {
      EndScopeKeepsErr(Emit.EmitDecls(p.value, Emit.BeginScope(em)));
    }
  }

  lemma DeclsCompileKeepErr(ts: Tokens, em: Em)
    requires em.err
    ensures CompileDecls(ts, em) == Rejected
  {
    hide ParseDecls, Emit.EmitDecls;
    if ParseDecls(ts).Parsed? {
      DeclsKeepErr(ParseDecls(ts).value, em);
    }
  }

  lemma NoNameNoVar(ts: Tokens, em: Em)
    requires !Peek(ts).Identifier?
    ensures CompileVar(ts, em) == Rejected
  {
  }

  lemma ScriptFromProgram(ts: Tokens)
    ensures
      var c := CompileProgram(ts, Emit.FRESH);
      CompileScript(ts) == if c.Rejected? then None else Some(Chunk(c.em.code + [NIL] + [RETURN], c.em.constants))
  {
    hide ParseProgram, Emit.EmitDecls;
    var p := ParseProgram(ts);
    if p.Parsed? {
      var em := Emit.EmitDecls(p.value, Emit.FRESH);
      assert em.code + [NIL, RETURN] == em.code + [NIL] + [RETURN];
    }
  }

  /** What a script compiles to, if it compiles. */
  function CompileScript(ts: Tokens): Option<Chunk> {
    match ParseProgram(ts)
    case Failed => None
    case Parsed(ds, _) =>
      var em := Emit.EmitScript(ds);
      if em.err then None else Some(Chunk(em.code, em.constants))
  }

  class Compiler {
    var code: Code
    var constants: seq<Num>
    const locals: array<Local>
    var localCount: nat
    var scopeDepth: nat
    var loopStart: int
    var loopDepth: nat
    var breakJumps: seq<BreakJump>
    var previous: Token
    var tokens: Tokens
    var hadError: bool
    var panicMode: bool

    ghost predicate Valid()
      reads this`code, this`localCount, this`loopStart, this`breakJumps, this`hadError, this`panicMode, locals
    {
      && locals.Length == MAX_LOCALS && 1 <= localCount <= MAX_LOCALS && locals[0].depth == 0
      && (panicMode ==> hadError) && loopStart >= -1 && loopStart <= |code|
      && forall i :: 0 <= i < |breakJumps| ==> breakJumps[i].offset + 2 <= |code|
    }

    /** The state as a value. */
    ghost function State(): Em
      reads this`code, this`constants, this`localCount, this`scopeDepth, this`loopStart, this`loopDepth, this`breakJumps
      reads this`hadError, locals
    {
      Emit.Em(code, constants, if localCount <= locals.Length then locals[..localCount]
                               else [], scopeDepth, loopStart, loopDepth, breakJumps, hadError)
    }

    /** The compiler has done what `c` says. */
    ghost predicate Became(c: Compiled)
      reads this, locals
    {
      if c.Rejected? then hadError else !hadError && State() == c.em && tokens == c.rest
    }

    constructor (source: Tokens)
      ensures Valid() && State() == Emit.FRESH && tokens == source && fresh(locals)
    {
      code, constants, localCount, scopeDepth := [], [], 1, 0;
      locals := new Local[MAX_LOCALS](_ => Local("this", 0));
      loopStart, loopDepth, breakJumps := -1, 0, [];
      previous, tokens, hadError, panicMode := Eof, source, false, false;
      new;
      assert locals[..1] == [Local("this", 0)];
    }

    // ----- tokens and errors -----

    method ErrorAt()
      requires Valid()
      modifies this`hadError, this`panicMode
      ensures Valid() && hadError && panicMode && State() == Emit.FailIf(old(State()), true)
    {
      if panicMode {
        return;
      }
      panicMode, hadError := true, true;
    }

    method Advance()
      modifies this`previous, this`tokens
      ensures previous == old(Peek(tokens)) && tokens == old(Tail(tokens))
    {
      previous := Peek(tokens);
      tokens := Tail(tokens);
    }

    method ConsumeIfMatch(t: Token) returns (matched: bool)
      modifies this`previous, this`tokens
      ensures matched <==> old(Peek(tokens)) == t
      ensures tokens == if matched then old(Tail(tokens)) else old(tokens)
    {
      matched := Peek(tokens) == t;
      if matched {
        Advance();
      }
    }

    method Consume(t: Token)
      requires Valid()
      modifies this`previous, this`tokens, this`hadError, this`panicMode
      ensures Valid() && hadError == (old(hadError) || old(Peek(tokens)) != t)
      ensures State() == Emit.FailIf(old(State()), old(Peek(tokens)) != t)
      ensures tokens == if old(Peek(tokens)) == t then old(Tail(tokens)) else old(tokens)
    {
      if Peek(tokens) == t {
        Advance();
      } else {
        ErrorAt();
      }
    }

    // ----- emitting -----

    method EmitByte(b: byte)
      requires Valid()
      modifies this`code
      ensures Valid() && code == old(code) + [b] && State() == Emit.EmitBytes(old(State()), [b])
    {
      code := code + [b];
    }

    method EmitUShort(n: int)
      requires Valid()
      modifies this`code
      ensures Valid() && code == old(code) + U16(n)
    {
      var c := U16(n);
      EmitByte(c[0]);
      EmitByte(c[1]);
    }

    method EmitInt(n: int)
      requires Valid()
      modifies this`code
      ensures Valid() && code == old(code) + I32(n)
    {
      var c := I32(n);
      EmitByte(c[0]);
      EmitByte(c[1]);
      EmitByte(c[2]);
      EmitByte(c[3]);
    }

    method EmitPop(n: nat)
      requires Valid() && n < 256
      modifies this`code
      ensures Valid() && code == old(code) + PopCode(n)
    {
      if n == 0 {
        return;
      }
      if n == 1 {
        EmitByte(POP);
      } else {
        EmitByte(POPN);
        EmitByte(n);
      }
    }

    method EmitJump(op: byte) returns (offset: nat)
      requires Valid()
      modifies this`code
      ensures Valid() && code == old(code) + [op, 0, 0] && offset == |old(code)| + 1
      ensures State() == Emit.EmitJump(old(State()), op)
    {
      EmitByte(op);
      EmitByte(0);
      EmitByte(0);
      return |code| - 2;
    }

    method PatchJump(offset: nat)
      requires Valid() && offset + 2 <= |code|
      modifies this`code, this`hadError, this`panicMode
      ensures Valid() && State() == Emit.PatchJump(old(State()), offset)
      ensures |code| == |old(code)| && (old(hadError) ==> hadError)
    {
      var jump := |code| - offset - 2;
      if jump > UINT16_MAX {
        ErrorAt();
      }
      code := code[..offset] + U16(jump) + code[offset + 2..];
    }

    method EmitLoop(start: int)
      requires Valid() && start <= |code|
      modifies this`code, this`hadError, this`panicMode
      ensures Valid() && State() == Emit.EmitBack(old(State()), start)
      ensures |code| == |old(code)| + 3 && (old(hadError) ==> hadError)
    {
      EmitByte(LOOP);
      var offset := |code| - start + 2;
      if offset > UINT16_MAX {
        ErrorAt();
      }
      EmitUShort(offset);
    }

    method MakeConstant(n: Num) returns (index: nat)
      requires Valid()
      modifies this`constants, this`hadError, this`panicMode
      ensures Valid() && constants == old(constants) + [n]
      ensures hadError == (old(hadError) || |old(constants)| > UINT16_MAX)
      ensures index == if |old(constants)| > UINT16_MAX then 0 else |old(constants)|
    {
      index := |constants|;
      constants := constants + [n];
      if index > UINT16_MAX {
        ErrorAt();
        index := 0;
      }
    }

    method EmitConstant(r: real)
      requires Valid()
      modifies this`code, this`constants, this`hadError, this`panicMode
      ensures Valid() && State() == Emit.EmitLiteral(LitNumber(r), old(State()))
      ensures |code| >= |old(code)| && (old(hadError) ==> hadError)
    {
      if IsInt32(r) {
        EmitByte(IMMI);
        EmitInt(r.Floor);
        return;
      }
      var index := MakeConstant(Fin(r));
      if index < 256 {
        EmitByte(CONST8);
        EmitByte(index);
      } else {
        EmitByte(CONST16);
        EmitUShort(index);
      }
    }

    method Literal(l: Syntax.Literal)
      requires Valid()
      modifies this`code, this`constants, this`hadError, this`panicMode
      ensures Valid() && State() == Emit.EmitLiteral(l, old(State()))
      ensures |code| >= |old(code)| && (old(hadError) ==> hadError)
    {
      match l
      case LitNil => EmitByte(NIL);
      case LitTrue => EmitByte(TRUE);
      case LitFalse => EmitByte(FALSE);
      case LitNumber(r) => EmitConstant(r);
    }

    // ----- expressions -----

    /** The slot of the innermost variable named `x`, or -1. */
    method ResolveLocal(x: Name) returns (i: int)
      requires Valid()
      modifies this`hadError, this`panicMode
      ensures Valid() && i == Resolve(locals[..localCount], x)
      ensures hadError == (old(hadError) || (i >= 0 && locals[i].depth == -1))
    {
      i := localCount - 1;
      while i >= 0
        invariant -1 <= i < localCount
        invariant Resolve(locals[..localCount], x) == Resolve(locals[..i + 1], x)
      {
        if locals[i].name == x {
          if locals[i].depth == -1 {
            ErrorAt();
          }
          return;
        }
        assert locals[..i + 1][..i] == locals[..i];
        i := i - 1;
      }
    }

    method EmitLoad(handle: int)
      requires Valid()
      modifies this`code
      ensures Valid() && code == old(code) + [GET_LOCAL, handle % 256, 0]
    {
      EmitByte(GET_LOCAL);
      EmitByte(handle % 256);
      EmitByte(0);
    }

    method EmitStore(handle: int)
      requires Valid()
      modifies this`code
      ensures Valid() && code == old(code) + [SET_LOCAL, handle % 256, 0]
    {
      EmitByte(SET_LOCAL);
      EmitByte(handle % 256);
      EmitByte(0);
    }

    /** The opcodes of a binary operator. */
    method EmitOperator(op: BinOp)
      requires Valid()
      modifies this`code
      ensures Valid() && code == old(code) + OperatorCode(op)
    {
      match op {
        case NotEqual =>
          EmitByte(EQUAL);
          EmitByte(NOT);
        case Equal => EmitByte(EQUAL);
        case Greater => EmitByte(GREATER);
        case GreaterEqual =>
          EmitByte(LESS);
          EmitByte(NOT);
        case Less => EmitByte(LESS);
        case LessEqual =>
          EmitByte(GREATER);
          EmitByte(NOT);
        case Add => EmitByte(ADD);
        case Subtract => EmitByte(SUBTRACT);
        case Multiply => EmitByte(MULTIPLY);
        case Divide => EmitByte(DIVIDE);
        case Modulo => EmitByte(MODULO);
      }
    }

    method Expression(prec: nat)
      requires Valid() && prec >= 1
      modifies this`code, this`constants, this`previous, this`tokens, this`hadError, this`panicMode
      ensures Valid() && |code| >= |old(code)| && |tokens| <= |old(tokens)|
      ensures (old(tokens) != [] ==> |tokens| < |old(tokens)|)
      ensures old(hadError) ==> hadError
      ensures Became(old(CompileExpr(tokens, prec, State())))
      decreases |tokens|, 3, 0
    {
      hide CompilePrefix, CompileInfix, ParsePrefix, Emit.EmitExpr, CompileExpr, Valid, State;
      ghost var ts, em := tokens, State();
      ghost var whole := CompileExpr(ts, prec, em);
      StateErr();
      if hadError {
        CompileKeepsErr(ts, prec, em);
      }
      ExprUnfolds(ts, prec, em);
      Advance();
      if !HasPrefixRule(previous) {
        ErrorAt();
        return;
      }
      assert ts == [previous] + tokens;
      Prefix(prec);
      Operators(prec, if hadError then Lit(LitNil) else ParsePrefix(ts, prec).value, em, whole);
      if prec <= PREC_ASSIGNMENT {
        var invalid := ConsumeIfMatch(Assign);
        if invalid {
          ErrorAt();
        }
      }
    }

    /** Every operator that binds at least as strongly as `prec`, each with its right operand. */
    method Operators(prec: nat, ghost first: Expr, ghost em: Em, ghost whole: Compiled)
      requires Valid() && prec >= 1
      requires hadError ==> whole == Rejected
      requires !hadError ==> State() == Emit.EmitExpr(first, em)
      requires !hadError ==> whole == Finished(CompileInfix(first, tokens, prec, em), prec)
      modifies this`code, this`constants, this`previous, this`tokens, this`hadError, this`panicMode
      ensures Valid() && |code| >= |old(code)| && |tokens| <= |old(tokens)|
      ensures old(hadError) ==> hadError
      ensures if hadError then whole == Rejected else whole == Finished(Compiled(State(), tokens), prec)
      decreases |tokens|, 6
    {
      hide CompileInfix, CompileOperand, ParseOperand, Emit.EmitExpr, Valid, State, Precedence, Finished;
      EofBindsNothing();
      ghost var left := first;
      while prec <= Precedence(Peek(tokens))
        invariant Valid() && |code| >= |old(code)| && |tokens| <= |old(tokens)|
        invariant old(hadError) ==> hadError
        invariant hadError ==> whole == Rejected
        invariant !hadError ==> State() == Emit.EmitExpr(left, em)
        invariant !hadError ==> whole == Finished(CompileInfix(left, tokens, prec, em), prec)
        decreases |tokens|
      {
        ghost var before, good := tokens, !hadError;
        if !hadError {
          InfixTurn(left, before, prec, em, whole);
        }
        Advance();
        Infix(left, em);
        if good && !hadError {
          left := ParseOperand(left, Peek(before), Tail(before)).value;
        }
      }
      StateErr();
      if !hadError {
        InfixEnds(left, tokens, prec, em);
      }
    }

    lemma StateErr()
      ensures State().err == hadError && State().code == code
    {
    }

    /** A literal, variable, assignment, parenthesis or prefix operator, whose first token has just been read. */
    method Prefix(prec: nat)
      requires Valid() && HasPrefixRule(previous)
      modifies this`code, this`constants, this`previous, this`tokens, this`hadError, this`panicMode
      ensures Valid() && |code| >= |old(code)| && |tokens| <= |old(tokens)|
      ensures old(hadError) ==> hadError
      ensures Became(old(CompilePrefix([previous] + tokens, prec, State())))
      decreases |tokens|, 5
    {
      hide ParseExpr, CompileExpr, Emit.EmitExpr, CompilePrefix, State, Valid, Emit.EmitLiteral, LiteralOf;
      var t := previous;
      if t == LeftParen {
        Grouping(prec);
      } else if t == Minus || t == Bang {
        Unary(prec);
      } else if IsLiteralToken(t) {
        LiteralUnfolds(t, tokens, prec, State());
        Literal(LiteralOf(t));
        StateErr();
      } else {
        Variable(prec);
      }
    }

    method Grouping(prec: nat)
      requires Valid() && previous == LeftParen
      modifies this`code, this`constants, this`previous, this`tokens, this`hadError, this`panicMode
      ensures Valid() && |code| >= |old(code)| && |tokens| <= |old(tokens)|
      ensures old(hadError) ==> hadError
      ensures Became(old(CompilePrefix([previous] + tokens, prec, State())))
      decreases |tokens|, 4
    {
      hide ParseExpr, CompileExpr, CompilePrefix, CompileOperand, Emit.EmitExpr;
      GroupingUnfolds(tokens, prec, State());
      Expression(PREC_ASSIGNMENT);
      Consume(RightParen);
    }

    method Unary(prec: nat)
      requires Valid() && (previous == Minus || previous == Bang)
      modifies this`code, this`constants, this`previous, this`tokens, this`hadError, this`panicMode
      ensures Valid() && |code| >= |old(code)| && |tokens| <= |old(tokens)|
      ensures old(hadError) ==> hadError
      ensures Became(old(CompilePrefix([previous] + tokens, prec, State())))
      decreases |tokens|, 4
    {
      hide ParseExpr, CompileExpr, CompilePrefix, CompileOperand, Emit.EmitExpr;
      var op := previous;
      UnaryUnfolds(op, tokens, prec, State());
      Expression(PREC_UNARY);
      EmitByte(if op == Minus then NEGATE else NOT);
    }

    /** A variable read, assignment or update; only local variables belong to this language. */
    method Variable(prec: nat)
      requires Valid() && previous.Identifier?
      modifies this`code, this`constants, this`previous, this`tokens, this`hadError, this`panicMode
      ensures Valid() && |code| >= |old(code)| && |tokens| <= |old(tokens)|
      ensures old(hadError) ==> hadError
      ensures Became(old(CompilePrefix([previous] + tokens, prec, State())))
      decreases |tokens|, 4
    {
      hide ParseExpr, CompileExpr, CompilePrefix, CompileOperand, Emit.EmitExpr, OperatorCode, UpdateOf, IsUpdateToken;
      hide Resolve;
      var x, canAssign := previous.name, prec <= PREC_ASSIGNMENT;
      ghost var em := State();
      var handle := ResolveLocal(x);
      if handle < 0 {
        ErrorAt();
      }
      if canAssign && Peek(tokens) == Assign {
        SetUnfolds(x, tokens, prec, em);
        Advance();
        EmitAssign(handle, x, em);
      } else if canAssign && IsUpdateToken(Peek(tokens)) {
        UpdateUnfolds(x, tokens, prec, em);
        var op := UpdateOf(Peek(tokens));
        Advance();
        EmitShorthandAssign(handle, op, x, em);
      } else {
        ReadUnfolds(x, tokens, prec, em);
        EmitLoad(handle);
      }
    }

    /** The state is `em`, except that reading `x` may have failed. */
    ghost predicate Resolved(x: Name, handle: int, em: Em)
      reads this, locals
    {
      State() == Emit.FailIf(em, !Readable(em.locals, x)) && handle == Resolve(em.locals, x)
    }

    method EmitAssign(handle: int, ghost x: Name, ghost em: Em)
      requires Valid() && Resolved(x, handle, em)
      modifies this`code, this`constants, this`previous, this`tokens, this`hadError, this`panicMode
      ensures Valid() && |code| >= |old(code)| && |tokens| <= |old(tokens)|
      ensures old(hadError) ==> hadError
      ensures
        var c := CompileExpr(old(tokens), PREC_ASSIGNMENT, em);
        Became(if c.Rejected? then Rejected else Accept(Emit.EmitStore(x, c.em), c.rest))
      decreases |tokens|, 3, 1
    {
      hide ParseExpr, CompileExpr, Emit.EmitExpr, Resolve;
      CompileKeepsLocals(tokens, PREC_ASSIGNMENT, em);
      Expression(PREC_ASSIGNMENT);
      EmitStore(handle);
    }

    method EmitShorthandAssign(handle: int, op: BinOp, ghost x: Name, ghost em: Em)
      requires Valid() && Resolved(x, handle, em)
      modifies this`code, this`constants, this`previous, this`tokens, this`hadError, this`panicMode
      ensures Valid() && |code| >= |old(code)| && |tokens| <= |old(tokens)|
      ensures old(hadError) ==> hadError
      ensures
        var c := CompileExpr(old(tokens), PREC_ASSIGNMENT, Emit.EmitLoad(x, em));
        Became(if c.Rejected? then Rejected
               else Accept(Emit.EmitStore(x, Emit.EmitBytes(c.em, OperatorCode(op))), c.rest))
      decreases |tokens|, 3, 1
    {
      hide ParseExpr, CompileExpr, Emit.EmitExpr, Resolve, OperatorCode;
      EmitLoad(handle);
      if Readable(em.locals, x) {
        assert State() == Emit.EmitLoad(x, em);
      } else {
        CompileKeepsErr(tokens, PREC_ASSIGNMENT, Emit.EmitLoad(x, em));
      }
      CompileKeepsLocals(tokens, PREC_ASSIGNMENT, Emit.EmitLoad(x, em));
      Expression(PREC_ASSIGNMENT);
      EmitOperator(op);
      EmitStore(handle);
    }

    /** The operator just read, applied to the operand emitted last. */
    method Infix(ghost left: Expr, ghost em: Em)
      requires Valid() && Precedence(previous) > 0
      requires !hadError ==> State() == Emit.EmitExpr(left, em)
      modifies this`code, this`constants, this`previous, this`tokens, this`hadError, this`panicMode
      ensures Valid() && |code| >= |old(code)| && |tokens| <= |old(tokens)|
      ensures old(hadError) ==> hadError
      ensures !old(hadError) ==> Became(old(CompileOperand(left, previous, tokens, em)))
      decreases |tokens|, 5
    {
      hide ParseExpr, Emit.EmitExpr, CompileOperand, ParseOperand;
      if previous == AndWord {
        And(left, em);
      } else if previous == OrWord {
        Or(left, em);
      } else if IsBinaryToken(previous) {
        Binary(left, em);
      } else {
        CallIsOutside(left, previous, tokens, em);
        ErrorAt();
      }
    }

    method And(ghost left: Expr, ghost em: Em)
      requires Valid() && previous == AndWord
      requires !hadError ==> State() == Emit.EmitExpr(left, em)
      modifies this`code, this`constants, this`previous, this`tokens, this`hadError, this`panicMode
      ensures Valid() && |code| >= |old(code)| && |tokens| <= |old(tokens)|
      ensures old(hadError) ==> hadError
      ensures !old(hadError) ==> Became(old(CompileOperand(left, previous, tokens, em)))
      decreases |tokens|, 4
    {
      hide ParseExpr, CompileExpr, CompilePrefix, CompileOperand, Emit.EmitExpr, Emit.PatchJump, Emit.EmitBytes;
      hide Emit.EmitJump, State, Valid;
      StateErr();
      AndUnfolds(left, tokens, em);
      var endJump := EmitJump(JUMP_IF_FALSE);
      EmitByte(POP);
      Expression(PREC_AND);
      PatchKeepsErr(State(), endJump);
      StateErr();
      PatchJump(endJump);
      StateErr();
    }

    method Or(ghost left: Expr, ghost em: Em)
      requires Valid() && previous == OrWord
      requires !hadError ==> State() == Emit.EmitExpr(left, em)
      modifies this`code, this`constants, this`previous, this`tokens, this`hadError, this`panicMode
      ensures Valid() && |code| >= |old(code)| && |tokens| <= |old(tokens)|
      ensures old(hadError) ==> hadError
      ensures !old(hadError) ==> Became(old(CompileOperand(left, previous, tokens, em)))
      decreases |tokens|, 4
    {
      hide ParseExpr, CompileExpr, CompilePrefix, CompileOperand, Emit.EmitExpr, Emit.PatchJump, Emit.EmitBytes;
      hide Emit.EmitJump, State, Valid;
      StateErr();
      OrUnfolds(left, tokens, em);
      ghost var start := |code|;
      var elseJump := EmitJump(JUMP_IF_FALSE);
      var endJump := EmitJump(JUMP);
      PatchKeepsErr(State(), elseJump);
      PatchJump(elseJump);
      EmitByte(POP);
      StateErr();
      Expression(PREC_OR);
      PatchKeepsErr(State(), endJump);
      StateErr();
      PatchJump(endJump);
      StateErr();
    }

    method Binary(ghost left: Expr, ghost em: Em)
      requires Valid() && IsBinaryToken(previous)
      requires !hadError ==> State() == Emit.EmitExpr(left, em)
      modifies this`code, this`constants, this`previous, this`tokens, this`hadError, this`panicMode
      ensures Valid() && |code| >= |old(code)| && |tokens| <= |old(tokens)|
      ensures old(hadError) ==> hadError
      ensures !old(hadError) ==> Became(old(CompileOperand(left, previous, tokens, em)))
      decreases |tokens|, 4
    {
      hide ParseExpr, CompileExpr, CompilePrefix, CompileOperand, Emit.EmitExpr, OperatorCode;
      var operator := previous;
      BinaryUnfolds(left, operator, tokens, em);
      Expression(Precedence(operator) + 1);
      EmitOperator(BinaryOf(operator));
    }

    // ----- scopes, variables and loops -----

    /** The state is `em`, unless that is an error. */
    ghost predicate Is(em: Em)
      reads this`code, this`constants, this`localCount, this`scopeDepth, this`loopStart, this`loopDepth, this`breakJumps
      reads this`hadError, locals
    {
      if em.err then hadError else State() == em
    }

    method BeginScope()
      requires Valid()
      modifies this`scopeDepth
      ensures Valid() && State() == Emit.BeginScope(old(State())) && scopeDepth == old(scopeDepth) + 1
    {
      scopeDepth := scopeDepth + 1;
    }

    method EndScope()
      requires Valid() && scopeDepth > 0
      modifies this`scopeDepth, this`localCount, this`code
      ensures Valid() && State() == Emit.EndScope(old(State()))
      ensures scopeDepth == old(scopeDepth) - 1 && |code| >= |old(code)|
    {
      hide PopCode, State, Emit.EndScope, Deeper;
      ghost var em := State();
      StateIs();
      scopeDepth := scopeDepth - 1;
      var numPendingPop: nat := 0;
      assert em.locals[..localCount] == em.locals;
      while localCount > 0 && locals[localCount - 1].depth > scopeDepth
        invariant Valid() && numPendingPop == |em.locals| - localCount && scopeDepth == em.depth - 1 && code == em.code
        invariant forall i :: 0 <= i < localCount ==> locals[i] == em.locals[i]
        invariant Deeper(em.locals, scopeDepth) == numPendingPop + Deeper(em.locals[..localCount], scopeDepth)
      {
        DeeperStep(em.locals, localCount, scopeDepth);
        numPendingPop := numPendingPop + 1;
        localCount := localCount - 1;
      }
      DeeperStep(em.locals, localCount, scopeDepth);
      EmitPop(numPendingPop);
      StateIs();
      EndScopeIs(em, numPendingPop);
    }

    lemma StateIs()
      requires Valid()
      ensures
        State() ==
          Emit.Em(code, constants, locals[..localCount], scopeDepth, loopStart, loopDepth, breakJumps, hadError)
    {
    }

    method AddLocal(x: Name)
      requires Valid()
      modifies this`localCount, this`hadError, this`panicMode, locals
      ensures Valid()
      ensures
        Is(Emit.FailIf(old(State()).(locals := old(State()).locals + [Local(x, -1)]), old(localCount) >= MAX_LOCALS))
      ensures localCount > 1 && (old(hadError) ==> hadError)
    {
      if localCount == MAX_LOCALS {
        ErrorAt();
        return;
      }
      locals[localCount] := Local(x, -1);
      localCount := localCount + 1;
      assert locals[..localCount] == old(locals[..localCount]) + [Local(x, -1)];
    }

    method DeclareVariable(x: Name)
      requires Valid()
      modifies this`localCount, this`hadError, this`panicMode, locals
      ensures Valid() && Is(Emit.EmitDeclare(x, old(State())))
      ensures (localCount > 1 || scopeDepth == 0) && (old(hadError) ==> hadError)
    {
      var i := localCount - 1;
      while i >= 0 && !(locals[i].depth != -1 && locals[i].depth < scopeDepth)
        invariant -1 <= i < localCount
        invariant Duplicate(locals[..localCount], scopeDepth, x) == Duplicate(locals[..i + 1], scopeDepth, x)
      {
        if locals[i].name == x {
          ErrorAt();
          return;
        }
        assert locals[..i + 1][..i] == locals[..i];
        i := i - 1;
      }
      assert !Duplicate(locals[..localCount], scopeDepth, x);
      AddLocal(x);
    }

    method MarkInitialized()
      requires Valid() && (localCount > 1 || scopeDepth == 0)
      modifies locals
      ensures Valid() && State() == Emit.MarkInitialized(old(State()))
    {
      ghost var i := localCount - 1;
      ghost var was := State().locals;
      locals[localCount - 1] := locals[localCount - 1].(depth := scopeDepth);
      assert locals[..localCount] == was[i := was[i].(depth := scopeDepth)];
    }

    method PatchBreakJumps()
      requires Valid()
      modifies this`code, this`breakJumps, this`hadError, this`panicMode
      ensures Valid() && State() == Emit.PatchBreaks(old(State()))
      ensures |code| == |old(code)| && (old(hadError) ==> hadError)
    {
      hide Emit.PatchJump;
      ghost var start := State();
      while breakJumps != [] && breakJumps[0].depth >= loopDepth
        invariant Valid() && |code| == |old(code)| && (old(hadError) ==> hadError)
        invariant Emit.PatchBreaks(start) == Emit.PatchBreaks(State())
        decreases |breakJumps|
      {
        var offset := breakJumps[0].offset;
        PatchJumpKeeps(State(), offset);
        PatchJump(offset);
        breakJumps := breakJumps[1..];
      }
    }

    /** How many variables live deeper than the innermost loop. */
    method DeeperThanLoop() returns (n: nat)
      requires Valid()
      ensures n == Deeper(locals[..localCount], loopDepth) && n < 256
    {
      n := 0;
      var i := localCount - 1;
      while i >= 0 && locals[i].depth > loopDepth
        invariant 0 <= i < localCount && n == localCount - 1 - i
        invariant Deeper(locals[..localCount], loopDepth) == n + Deeper(locals[..i + 1], loopDepth)
      {
        assert locals[..i + 1][..i] == locals[..i];
        n := n + 1;
        i := i - 1;
      }
    }

    // ----- statements -----

    /** `( expression )` */
    method Condition()
      requires Valid()
      modifies this`code, this`constants, this`previous, this`tokens, this`hadError, this`panicMode
      ensures Valid() && |code| >= |old(code)| && |tokens| <= |old(tokens)| && (old(hadError) ==> hadError)
      ensures Became(old(CompileCondition(tokens, State())))
    {
      hide CompileCondition, CompileExpr, State, Valid;
      ConditionUnfolds(tokens, State());
      StateErr();
      Consume(LeftParen);
      Expression(PREC_ASSIGNMENT);
      Consume(RightParen);
      StateErr();
    }

    method ExpressionStatement()
      requires Valid()
      modifies this`code, this`constants, this`previous, this`tokens, this`hadError, this`panicMode
      ensures Valid() && |code| >= |old(code)| && |tokens| <= |old(tokens)|
      ensures (old(tokens) != [] ==> |tokens| < |old(tokens)|)
      ensures old(hadError) ==> hadError
      ensures
        var c := CompileExpr(old(tokens), PREC_ASSIGNMENT, old(State()));
        Became(if c.Compiled? && Peek(c.rest) == Semicolon then Compiled(Emit.EmitBytes(c.em, [POP]), Tail(c.rest))
               else Rejected)
    {
      hide CompileExpr, State, Valid;
      Expression(PREC_ASSIGNMENT);
      Consume(Semicolon);
      EmitByte(POP);
      StateErr();
    }

    /** Discards the variables of the loop's body; jumping is an error outside every loop. */
    method LeaveBody()
      requires Valid()
      modifies this`code, this`previous, this`tokens, this`hadError, this`panicMode
      ensures Valid() && |code| >= |old(code)| && |tokens| <= |old(tokens)|
      ensures hadError == (old(hadError) || loopStart == -1 || Peek(old(tokens)) != Semicolon)
      ensures !hadError ==> tokens == Tail(old(tokens)) && State() == LeftBody(old(State()))
    {
      hide Deeper, PopCode;
      if loopStart == -1 {
        ErrorAt();
      }
      Consume(Semicolon);
      var n := DeeperThanLoop();
      EmitPop(n);
    }

    method AddBreak(offset: nat)
      requires Valid() && offset + 2 <= |code|
      modifies this`breakJumps
      ensures Valid()
      ensures State() == old(State()).(breaks := [Emit.BreakJump.BreakJump(loopDepth, offset)] + old(State()).breaks)
    {
      breakJumps := [Emit.BreakJump.BreakJump(loopDepth, offset)] + breakJumps;
    }

    method BreakStatement()
      requires Valid()
      modifies this`code, this`previous, this`tokens, this`hadError, this`panicMode, this`breakJumps
      ensures Valid() && |code| >= |old(code)| && |tokens| <= |old(tokens)| && (old(hadError) ==> hadError)
      ensures
        Became(if Peek(old(tokens)) == Semicolon then Accept(Emit.EmitBreak(old(State())), Tail(old(tokens)))
               else Rejected)
    {
      hide State, Valid, Emit.EmitBreak, Emit.EmitJump, LeftBody;
      ghost var em := State();
      StateLoop();
      StateErr();
      BreakIs(em);
      LeaveBody();
      StateErr();
      StateLoop();
      var offset := EmitJump(JUMP);
      AddBreak(offset);
      StateErr();
    }

    method ContinueStatement()
      requires Valid()
      modifies this`code, this`previous, this`tokens, this`hadError, this`panicMode
      ensures Valid() && |code| >= |old(code)| && |tokens| <= |old(tokens)| && (old(hadError) ==> hadError)
      ensures
        Became(if Peek(old(tokens)) == Semicolon then Accept(Emit.EmitContinue(old(State())), Tail(old(tokens)))
               else Rejected)
    {
      hide State, Valid, Emit.EmitContinue, Emit.EmitBack, LeftBody;
      ghost var em := State();
      StateLoop();
      StateErr();
      BreakIs(em);
      LeaveBody();
      StateLoop();
      EmitLoop(loopStart);
      StateErr();
    }

    /** Reads the name of a new variable and declares it. */
    method ParseVariable()
      requires Valid()
      modifies this`previous, this`tokens, this`hadError, this`panicMode, this`localCount, locals
      ensures Valid() && |tokens| <= |old(tokens)| && (old(hadError) ==> hadError)
      ensures (localCount > 1 || scopeDepth == 0)
      ensures
        if !Peek(old(tokens)).Identifier? then hadError
        else tokens == Tail(old(tokens)) && Is(Emit.EmitDeclare(old(tokens)[0].name, old(State())))
    {
      hide State, Valid, Emit.EmitDeclare;
      if Peek(tokens).Identifier? {
        Advance();
      } else {
        ErrorAt();
      }
      DeclareVariable(if previous.Identifier? then previous.name else "");
    }

    /** The initial value of a variable, or nil, and the semicolon after it. */
    method Initializer()
      requires Valid()
      modifies this`code, this`constants, this`previous, this`tokens, this`hadError, this`panicMode
      ensures Valid() && |code| >= |old(code)| && |tokens| <= |old(tokens)| && (old(hadError) ==> hadError)
      ensures
        var c := CompileExpr(Tail(old(tokens)), PREC_ASSIGNMENT, old(State()));
        Became(if Peek(old(tokens)) == Assign then
                 if c.Compiled? && Peek(c.rest) == Semicolon then Compiled(c.em, Tail(c.rest)) else Rejected
               else if Peek(old(tokens)) == Semicolon then
                 Accept(Emit.EmitBytes(old(State()), [NIL]), Tail(old(tokens)))
               else Rejected)
      decreases |tokens|, 8
    {
      hide CompileExpr, State, Valid;
      BytesKeepErr(State(), [NIL]);
      StateErr();
      var hasValue := ConsumeIfMatch(Assign);
      if hasValue {
        Expression(PREC_ASSIGNMENT);
      } else {
        EmitByte(NIL);
      }
      Consume(Semicolon);
      StateErr();
    }

    method VarDeclaration()
      requires Valid()
      modifies this`code, this`constants, this`previous, this`tokens, this`hadError, this`panicMode, this`localCount
      modifies locals
      ensures Valid() && |code| >= |old(code)| && |tokens| <= |old(tokens)| && (old(hadError) ==> hadError)
      ensures Became(old(CompileVar(tokens, State())))
      decreases |tokens|, 9
    {
      hide CompileVar, CompileExpr, State, Valid, Emit.EmitDeclare, Emit.MarkInitialized;
      ghost var em, ts := State(), tokens;
      VarUnfolds(ts, em);
      ParseVariable();
      StateErr();
      if Peek(ts).Identifier? {
        DeclaredKeepsErr(ts, em);
      }
      Initializer();
      StateErr();
      MarkKeepsErr(State());
      MarkInitialized();
      StateErr();
    }

    method IfStatement()
      requires Valid()
      modifies this, locals
      ensures Valid() && scopeDepth == old(scopeDepth) && |code| >= |old(code)|
      ensures |tokens| <= |old(tokens)| && (old(hadError) ==> hadError)
      ensures
        var c := CompileCondition(old(tokens), old(State()));
        Became(if c.Rejected? then Rejected else CompileThen(c.rest, c.em))
      decreases |tokens|, 13
    {
      hide CompileCondition, CompileStmt, CompileElse, AfterThen, State, Valid, Emit.EmitJump, Emit.EmitBytes;
      Condition();
      StateErr();
      var thenJump := EmitJump(JUMP_IF_FALSE);
      EmitByte(POP);
      Statement();
      StateErr();
      ElseBranch(thenJump);
    }

    method EndThen(thenJump: nat) returns (elseJump: nat)
      requires Valid() && 1 <= thenJump && thenJump + 2 <= |code|
      modifies this`code, this`hadError, this`panicMode
      ensures Valid() && State() == AfterThen(thenJump - 1, old(State())) && (old(hadError) ==> hadError)
      ensures elseJump == |old(code)| + 1 && elseJump + 2 <= |code|
    {
      hide State, Valid, Emit.PatchJump, Emit.EmitJump, Emit.EmitBytes;
      elseJump := EmitJump(JUMP);
      PatchJump(thenJump);
      EmitByte(POP);
    }

    /** The end of an `if`, whose test jumps from `thenJump`. */
    method ElseBranch(thenJump: nat)
      requires Valid() && 1 <= thenJump && thenJump + 2 <= |code|
      modifies this, locals
      ensures Valid() && scopeDepth == old(scopeDepth) && |code| >= |old(code)|
      ensures |tokens| <= |old(tokens)| && (old(hadError) ==> hadError)
      ensures !old(hadError) ==> Became(old(CompileElse(tokens, AfterThen(thenJump - 1, State()), |code| + 1)))
      decreases |tokens|, 12
    {
      hide CompileStmt, State, Valid, Emit.PatchJump, AfterThen;
      StateErr();
      var elseJump := EndThen(thenJump);
      StateErr();
      ghost var em3 := State();
      PatchKeepsErr(em3, elseJump);
      if hadError {
        StmtCompileKeepsErr(Tail(tokens), em3);
      }
      var hasElse := ConsumeIfMatch(ElseWord);
      if hasElse {
        Statement();
        StateErr();
        PatchKeepsErr(State(), elseJump);
      }
      PatchJump(elseJump);
      StateErr();
    }

    method EnterLoop()
      requires Valid()
      modifies this`loopStart, this`loopDepth
      ensures Valid() && State() == Emit.EnterLoop(old(State()))
    {
      loopStart, loopDepth := |code|, scopeDepth;
    }

    method LeaveLoop(start: int, depth: nat)
      requires Valid() && -1 <= start <= |code|
      modifies this`loopStart, this`loopDepth
      ensures Valid() && State() == old(State()).(loopStart := start, loopDepth := depth)
    {
      loopStart, loopDepth := start, depth;
    }

    /** The body of a loop and its end; `exitJump` is where the test jumps from, or -1. */
    method LoopBody(exitJump: int, outerStart: int, outerDepth: nat, ghost exit: nat, ghost outer: Em)
      requires Valid() && -1 <= outerStart <= |code| && outer.loopStart == outerStart && outer.loopDepth == outerDepth
      requires exitJump == -1 || (0 <= exitJump && exitJump + 2 <= |code| && exit == exitJump + 3)
      modifies this, locals
      ensures Valid() && scopeDepth == old(scopeDepth) && |code| >= |old(code)|
      ensures |tokens| <= |old(tokens)| && (old(hadError) ==> hadError)
      ensures !old(hadError) ==> Became(old(CompileBody(tokens, exitJump != -1, exit, State(), outer)))
      decreases |tokens|, 12
    {
      hide CompileStmt, State, Valid, Emit.PatchJump, Emit.EmitBack, Emit.EmitBytes, Emit.PatchBreaks;
      Statement();
      StateErr();
      ghost var em := State();
      if hadError {
        LoopEndKeepsErr(exitJump != -1, exit, em);
      }
      StateLoop();
      EmitLoop(loopStart);
      if exitJump != -1 {
        PatchJump(exitJump);
        EmitByte(POP);
      }
      PatchBreakJumps();
      LeaveLoop(outerStart, outerDepth);
      assert State() == LoopClosed(exitJump != -1, exit, em, outer);
      StateErr();
    }

    lemma StateLoop()
      requires Valid()
      ensures State().loopStart == loopStart && State().loopDepth == loopDepth && -1 <= loopStart <= |code|
    {
    }

    method WhileStatement()
      requires Valid()
      modifies this, locals
      ensures Valid() && scopeDepth == old(scopeDepth) && |code| >= |old(code)|
      ensures |tokens| <= |old(tokens)| && (old(hadError) ==> hadError)
      ensures
        var c := CompileCondition(old(tokens), Emit.EnterLoop(old(State())));
        Became(if c.Rejected? then Rejected else CompileWhileBody(c.rest, c.em, old(State())))
      decreases |tokens|, 13
    {
      hide CompileCondition, CompileBody, State, Valid, Emit.EmitJump, Emit.EmitBytes;
      ghost var outer := State();
      StateLoop();
      var outerStart, outerDepth := loopStart, loopDepth;
      EnterLoop();
      StateErr();
      Condition();
      StateErr();
      var exitJump := EmitJump(JUMP_IF_FALSE);
      EmitByte(POP);
      StateErr();
      LoopBody(exitJump, outerStart, outerDepth, exitJump + 3, outer);
    }
    /** The initializer of a `for`. */
    method ForInitializer()
      requires Valid()
      modifies this`code, this`constants, this`previous, this`tokens, this`hadError, this`panicMode, this`localCount
      modifies locals
      ensures Valid() && |code| >= |old(code)| && |tokens| <= |old(tokens)| && (old(hadError) ==> hadError)
      ensures Became(old(CompileForInit(tokens, State())))
      decreases |tokens|, 10
    {
      hide CompileForInit, CompileVar, CompileExpr, State, Valid;
      ForInitUnfolds(tokens, State());
      StateErr();
      if Peek(tokens) == Semicolon {
        Advance();
      } else if Peek(tokens) == LocalWord {
        Advance();
        VarDeclaration();
      } else {
        ExpressionStatement();
      }
    }

    /** The test of a `for`; where its jump is, or -1. */
    method ForTest() returns (exitJump: int)
      requires Valid()
      modifies this`code, this`constants, this`previous, this`tokens, this`hadError, this`panicMode
      ensures Valid() && |code| >= |old(code)| && |tokens| <= |old(tokens)| && (old(hadError) ==> hadError)
      ensures Became(old(CompileTest(tokens, State())))
      ensures exitJump == if Peek(old(tokens)) == Semicolon then -1 else |code| - 3
      ensures exitJump >= -1 && (exitJump == -1 <==> Peek(old(tokens)) == Semicolon)
    {
      hide CompileExpr, State, Valid, Emit.EmitJump, Emit.EmitBytes;
      StateErr();
      var noTest := ConsumeIfMatch(Semicolon);
      if noTest {
        return -1;
      }
      TestUnfolds(tokens, State());
      Expression(PREC_ASSIGNMENT);
      Consume(Semicolon);
      exitJump := EmitJump(JUMP_IF_FALSE);
      EmitByte(POP);
      StateErr();
    }

    /** The increment clause of a `for`: jumped over on the way in, and from then on where the loop goes back to. */
    method ForIncrement()
      requires Valid()
      modifies this`code, this`constants, this`previous, this`tokens, this`hadError, this`panicMode, this`loopStart
      ensures Valid() && |code| >= |old(code)| && |tokens| <= |old(tokens)| && (old(hadError) ==> hadError)
      ensures Became(old(CompileIncrement(tokens, State())))
    {
      hide CompileExpr, State, Valid, Emit.EmitJump, IncrementClosed, CompileIncrement;
      ghost var em, ts := State(), tokens;
      StateErr();
      StateLoop();
      var noIncrement := ConsumeIfMatch(RightParen);
      if noIncrement {
        NoIncrement(ts, em);
        return;
      }
      IncrementUnfolds(ts, em);
      var bodyJump := EmitJump(JUMP);
      Expression(PREC_ASSIGNMENT);
      EmitByte(POP);
      Consume(RightParen);
      CloseIncrement(bodyJump);
      StateErr();
    }

    /** Goes back to the test, and makes the clause that started behind `bodyJump` where the loop goes back to. */
    method CloseIncrement(bodyJump: nat)
      requires Valid() && bodyJump + 2 <= |code|
      modifies this`code, this`hadError, this`panicMode, this`loopStart
      ensures Valid() && |code| >= |old(code)| && (old(hadError) ==> hadError)
      ensures State() == IncrementClosed(old(State()), old(loopStart), bodyJump)
    {
      hide Emit.EmitBack, Emit.PatchJump;
      EmitLoop(loopStart);
      loopStart := bodyJump + 2;
      PatchJump(bodyJump);
    }

    method ForStatement()
      requires Valid()
      modifies this, locals
      ensures Valid() && scopeDepth == old(scopeDepth) && |code| >= |old(code)|
      ensures |tokens| <= |old(tokens)| && (old(hadError) ==> hadError)
      ensures
        var c := CompileForInit(Tail(old(tokens)), Emit.BeginScope(old(State())));
        Became(if Peek(old(tokens)) != LeftParen || c.Rejected? then Rejected else CompileForRest(c.rest, c.em))
      decreases |tokens|, 14
    {
      hide CompileForInit, CompileTest, CompileIncrement, CompileBody, State, Valid, Emit.BeginScope, Emit.EndScope;
      BeginScope();
      Consume(LeftParen);
      ForInitializer();
      StateErr();
      ForRest();
      StateErr();
    }

    /** A `for` from its test on, to the end of its scope. */
    method ForRest()
      requires Valid() && scopeDepth > 0
      modifies this, locals
      ensures Valid() && scopeDepth == old(scopeDepth) - 1 && |code| >= |old(code)|
      ensures |tokens| <= |old(tokens)| && (old(hadError) ==> hadError)
      ensures !old(hadError) ==> Became(old(CompileForRest(tokens, State())))
      decreases |tokens|, 13
    {
      hide CompileTest, CompileIncrement, CompileBody, State, Valid, Emit.EndScope;
      ghost var em, ts := State(), tokens;
      StateErr();
      StateLoop();
      var outerStart, outerDepth := loopStart, loopDepth;
      EnterLoop();
      StateErr();
      var exitJump := ForTest();
      StateErr();
      ghost var exit := |code|;
      ForIncrement();
      StateErr();
      LoopBody(exitJump, outerStart, outerDepth, exit, em);
      StateErr();
      EndScopeKeepsErr(State());
      EndScope();
      StateErr();
    }

    /** Declarations up to the closing brace. */
    method Block()
      requires Valid()
      modifies this, locals
      ensures Valid() && scopeDepth == old(scopeDepth) && |code| >= |old(code)|
      ensures |tokens| <= |old(tokens)| && (old(hadError) ==> hadError)
      ensures
        var c := CompileDecls(old(tokens), old(State()));
        Became(if c.Compiled? && Peek(c.rest) == RightBrace then Compiled(c.em, Tail(c.rest)) else Rejected)
      decreases |tokens|, 13
    {
      hide CompileDecls, CompileDecl, State, Valid;
      ghost var whole := CompileDecls(tokens, State());
      StateErr();
      if hadError {
        DeclsCompileKeepErr(tokens, State());
      }
      while Peek(tokens) != RightBrace && Peek(tokens) != Eof
        invariant Valid() && scopeDepth == old(scopeDepth) && |code| >= |old(code)|
        invariant |tokens| <= |old(tokens)| && (old(hadError) ==> hadError)
        invariant if hadError then whole == Rejected else whole == CompileDecls(tokens, State())
        decreases |tokens|
      {
        DeclsUnfold(tokens, State());
        Declaration();
        StateErr();
      }
      DeclsUnfold(tokens, State());
      StateErr();
      Consume(RightBrace);
    }

    /** A block and its scope. */
    method ScopedBlock()
      requires Valid()
      modifies this, locals
      ensures Valid() && scopeDepth == old(scopeDepth) && |code| >= |old(code)|
      ensures |tokens| <= |old(tokens)| && (old(hadError) ==> hadError)
      ensures
        var c := CompileDecls(old(tokens), Emit.BeginScope(old(State())));
        Became(if c.Compiled? && Peek(c.rest) == RightBrace then Compiled(Emit.EndScope(c.em), Tail(c.rest))
               else Rejected)
      decreases |tokens|, 14
    {
      hide CompileDecls, State, Valid, Emit.BeginScope, Emit.EndScope;
      BeginScope();
      Block();
      StateErr();
      EndScopeKeepsErr(State());
      EndScope();
      StateErr();
    }

    /** A statement that starts with a keyword. */
    method KeywordStatement()
      requires Valid() && Peek(tokens) in {BreakWord, ContinueWord, ForWord, IfWord, WhileWord}
      modifies this, locals
      ensures Valid() && scopeDepth == old(scopeDepth) && |code| >= |old(code)|
      ensures |tokens| <= |old(tokens)| && (old(hadError) ==> hadError)
      ensures |tokens| < |old(tokens)|
      ensures Became(old(CompileStmt(tokens, State())))
      decreases |tokens|, 10
    {
      hide CompileStmt, CompileExpr, CompileCondition, CompileThen, CompileWhileBody, CompileForInit, CompileForRest,
        CompileDecls, State, Valid,
        Emit.EmitBreak, Emit.EmitContinue, Emit.BeginScope, Emit.EndScope, Became, Accept;
      ghost var ts, em := tokens, State();
      Advance();
      if previous == BreakWord {
        BreakUnfolds(ts, em);
        BreakStatement();
      } else if previous == ContinueWord {
        ContinueUnfolds(ts, em);
        ContinueStatement();
      } else if previous == ForWord {
        ForCompiles(ts, em);
        ForStatement();
      } else if previous == IfWord {
        IfCompiles(ts, em);
        IfStatement();
      } else {
        WhileUnfolds(ts, em);
        WhileStatement();
      }
    }

    method Statement()
      requires Valid()
      modifies this, locals
      ensures Valid() && scopeDepth == old(scopeDepth) && |code| >= |old(code)|
      ensures |tokens| <= |old(tokens)| && (old(hadError) ==> hadError)
      ensures old(tokens) != [] ==> |tokens| < |old(tokens)|
      ensures Became(old(CompileStmt(tokens, State())))
      decreases |tokens|, 11
    {
      hide CompileStmt, CompileExpr, CompileDecls, State, Valid, Emit.BeginScope, Emit.EndScope, Became;
      if Peek(tokens) in {BreakWord, ContinueWord, ForWord, IfWord, WhileWord} {
        KeywordStatement();
      } else if Peek(tokens) == LeftBrace {
        BlockUnfolds(tokens, State());
        Advance();
        ScopedBlock();
      } else {
        EvalUnfolds(tokens, State());
        ExpressionStatement();
      }
    }

    /** After an error, skips to where the next statement seems to begin. */
    method Synchronize()
      requires Valid() && hadError
      modifies this`previous, this`tokens, this`panicMode
      ensures Valid() && |tokens| <= |old(tokens)|
    {
      panicMode := false;
      while Peek(tokens) != Eof
        invariant Valid() && |tokens| <= |old(tokens)|
        decreases |tokens|
      {
        if previous == Semicolon || Peek(tokens) in {BreakWord, ContinueWord, LocalWord, ForWord, IfWord, WhileWord} {
          return;
        }
        Advance();
      }
    }

    method Declaration()
      requires Valid()
      modifies this, locals
      ensures Valid() && scopeDepth == old(scopeDepth) && |code| >= |old(code)|
      ensures |tokens| <= |old(tokens)| && (old(hadError) ==> hadError)
      ensures old(tokens) != [] ==> |tokens| < |old(tokens)|
      ensures Became(old(CompileDecl(tokens, State())))
      decreases |tokens|, 12
    {
      hide CompileDecl, CompileStmt, CompileVar, State, Valid;
      DeclUnfolds(tokens, State());
      if Peek(tokens) == LocalWord {
        if Peek(Tail(tokens)) == LocalWord {
          NoNameNoVar(Tail(tokens), State());
        }
        Advance();
        while Peek(tokens) == LocalWord
          invariant Valid() && scopeDepth == old(scopeDepth) && |code| >= |old(code)| && (old(hadError) ==> hadError)
          invariant |tokens| < |old(tokens)|
          invariant
            || (tokens == Tail(old(tokens)) && State() == old(State()))
            || (hadError && Peek(Tail(old(tokens))) == LocalWord)
          decreases |tokens|
        {
          ErrorAt();
          Advance();
        }
        VarDeclaration();
      } else {
        Statement();
      }
      StateErr();
      if panicMode {
        PanicIsError();
        Synchronize();
      }
    }

    lemma PanicIsError()
      requires Valid() && panicMode
      ensures hadError
    {
    }

    /** Compiles a whole script, or nothing at all. */
    method Compile() returns (chunk: Option<Chunk>)
      requires Valid()
      requires State() == Emit.FRESH
      modifies this, locals
      ensures chunk == CompileScript(old(tokens))
    {
      hide CompileProgram, CompileDecl, State, Valid;
      ghost var whole := CompileProgram(tokens, State());
      StateErr();
      ScriptFromProgram(tokens);
      while Peek(tokens) != Eof
        invariant Valid()
        invariant if hadError then whole == Rejected else whole == CompileProgram(tokens, State())
        decreases |tokens|
      {
        ProgramUnfolds(tokens, State());
        Declaration();
        StateErr();
      }
      ProgramUnfolds(tokens, State());
      StateErr();
      EmitByte(NIL);
      EmitByte(RETURN);
      StateIs();
      return if hadError then None else Some(Chunk(code, constants));
    }
  }

  lemma DeeperStep(locals: Locals, n: nat, d: int)
    requires 0 < n <= |locals|
    ensures Deeper(locals[..n], d) == if locals[n - 1].depth > d then 1 + Deeper(locals[..n - 1], d) else 0
  {
    assert locals[..n][..n - 1] == locals[..n - 1];
  }

  lemma EndScopeIs(em: Em, n: nat)
    requires em.depth > 0 && n == Deeper(em.locals, em.depth - 1)
    ensures
      Emit.EndScope(em) ==
        em.(depth := em.depth - 1, locals := em.locals[..|em.locals| - n], code := em.code + PopCode(n))
  {
    hide PopCode, Deeper;
  }

  lemma PatchJumpKeeps(em: Em, offset: nat)
    ensures
      var r := Emit.PatchJump(em, offset);
      r.(code := em.code, err := em.err) == em
  {
    hide Emit.Patched;
  }
}
