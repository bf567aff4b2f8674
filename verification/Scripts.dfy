/** Printing scripts, and parsing them back. */
module Scripts {
  import opened Options
  import opened Values
  import opened Syntax
  import opened Grammar
  import opened Printing
  import Bytecode
  import Compiler
  import Emit

  predicate MaybePrintable(e: Option<Expr>) {
    e.Some? ==> Printable(e.value)
  }

  predicate InitPrintable(init: ForInit) {
    match init
    case NoInit => true
    case InitVar(_, value) => MaybePrintable(value)
    case InitExpr(e) => Printable(e)
  }

  /** An `else` behind it would be drawn into it. */
  predicate Open(s: Stmt) {
    match s
    case If(_, t, e) => e.None? || Open(e.value)
    case While(_, b) => Open(b)
    case For(_, _, _, b) => Open(b)
    case _ => false
  }

  /** A statement that braces need not be added to. */
  predicate StmtPrintable(s: Stmt) {
    match s
    case Eval(e) => Printable(e)
    case Block(ds) => DeclsPrintable(ds)
    case If(c, t, e) =>
      Printable(c) && StmtPrintable(t) && (e.Some? ==> !Open(t) && StmtPrintable(e.value))
    case While(c, b) => Printable(c) && StmtPrintable(b)
    case For(init, test, inc, b) =>
      InitPrintable(init) && MaybePrintable(test) && MaybePrintable(inc) && StmtPrintable(b)
    case Break => true
    case Continue => true
  }

  predicate DeclPrintable(d: Decl) {
    match d
    case Declare(_, value) => MaybePrintable(value)
    case Do(s) => StmtPrintable(s)
  }

  predicate DeclsPrintable(ds: Decls) {
    match ds
    case End => true
    case More(d, rest) => DeclPrintable(d) && DeclsPrintable(rest)
  }

  function PrintExpr(e: Expr): Tokens
    requires Printable(e)
  {
    Print(e, PREC_ASSIGNMENT)
  }

  function PrintMaybe(e: Option<Expr>): Tokens
    requires MaybePrintable(e)
  {
    if e.Some? then PrintExpr(e.value) else []
  }

  /** `x = e ;` or `x ;` */
  function PrintVar(x: Name, value: Option<Expr>): Tokens
    requires MaybePrintable(value)
  {
    if value.Some? then [Identifier(x), Token.Assign] + PrintExpr(value.value) + [Semicolon]
    else [Identifier(x), Semicolon]
  }

  function PrintInit(init: ForInit): Tokens
    requires InitPrintable(init)
  {
    match init
    case NoInit => [Semicolon]
    case InitVar(x, value) => [LocalWord] + PrintVar(x, value)
    case InitExpr(e) => PrintExpr(e) + [Semicolon]
  }

  function PrintStmt(s: Stmt): Tokens
    requires StmtPrintable(s)
  {
    match s
    case Eval(e) => PrintExpr(e) + [Semicolon]
    case Block(ds) => [LeftBrace] + (PrintDecls(ds) + [RightBrace])
    case If(c, t, e) =>
      [IfWord, LeftParen] + (PrintExpr(c) + ([RightParen] + (PrintStmt(t) + PrintElse(e))))
    case While(c, b) => [WhileWord, LeftParen] + (PrintExpr(c) + ([RightParen] + PrintStmt(b)))
    case For(init, test, inc, b) =>
      [ForWord, LeftParen]
      + (PrintInit(init) + (PrintMaybe(test) + ([Semicolon] + (PrintMaybe(inc) + ([RightParen] + PrintStmt(b))))))
    case Break => [BreakWord, Semicolon]
    case Continue => [ContinueWord, Semicolon]
  }

  function PrintElse(e: Option<Stmt>): Tokens
    requires e.Some? ==> StmtPrintable(e.value)
  {
    if e.Some? then [ElseWord] + PrintStmt(e.value) else []
  }

  function PrintDecl(d: Decl): Tokens
    requires DeclPrintable(d)
  {
    match d
    case Declare(x, value) => [LocalWord] + PrintVar(x, value)
    case Do(s) => PrintStmt(s)
  }

  function PrintDecls(ds: Decls): Tokens
    requires DeclsPrintable(ds)
  {
    match ds
    case End => []
    case More(d, rest) => PrintDecl(d) + PrintDecls(rest)
  }

  // ----- how printed things start -----

  /** Tokens that start statements of their own or none at all. */
  predicate IsKeyword(t: Token) {
    t.IfWord? || t.ElseWord? || t.WhileWord? || t.ForWord? || t.BreakWord? || t.ContinueWord? || t.LocalWord? || t.Eof?
    || t.LeftBrace? || t.RightBrace? || t.Semicolon? || t.RightParen?
  }

  lemma {:induction false} ExprStarts(e: Expr, prec: nat)
    requires Printable(e)
    ensures Print(e, prec) != [] && !IsKeyword(Print(e, prec)[0])
    decreases e, 1
  {
    hide PrintBare, IsKeyword;
    BareStarts(e);
    assert !IsKeyword(LeftParen) by { ParenIsNoKeyword(); }
  }

  lemma ParenIsNoKeyword()
    ensures !IsKeyword(LeftParen)
  {
  }

  lemma {:induction false} BareStarts(e: Expr)
    requires Printable(e)
    ensures PrintBare(e) != [] && !IsKeyword(PrintBare(e)[0])
    decreases e, 0
  {
    hide Print;
    match e
    case Lit(_) =>
    case Var(_) =>
    case Set(_, _) =>
    case Update(_, _, _) =>
    case Negate(_) =>
    case Not(_) =>
    case Binary(_, l, _) => ExprStarts(l, Level(e));
    case And(l, _) => ExprStarts(l, PREC_AND + 1);
    case Or(l, _) => ExprStarts(l, PREC_OR + 1);
  }

  lemma StmtStarts(s: Stmt)
    requires StmtPrintable(s)
    ensures PrintStmt(s) != []
    ensures
      var t := PrintStmt(s)[0];
      !t.ElseWord? && !t.RightBrace? && !t.Eof? && !t.LocalWord? && (s.Eval? ==> !IsKeyword(t))
  {
    if s.Eval? {
      ExprStarts(s.e, PREC_ASSIGNMENT);
    }
  }

  lemma DeclStarts(d: Decl)
    requires DeclPrintable(d)
    ensures PrintDecl(d) != []
    ensures
      var t := PrintDecl(d)[0];
      !t.ElseWord? && !t.RightBrace? && !t.Eof? && (t.LocalWord? <==> d.Declare?)
  {
    if d.Do? {
      StmtStarts(d.s);
    }
  }

  // ----- parsing them back -----

  lemma Drop1(t: Token, ts: Tokens)
    ensures Peek([t] + ts) == t && Tail([t] + ts) == ts
  {
  }

  lemma Drop2(t: Token, u: Token, ts: Tokens)
    ensures Peek([t, u] + ts) == t && Tail([t, u] + ts) == [u] + ts
    ensures Peek([u] + ts) == u && Tail([u] + ts) == ts
  {
  }

  /** An expression in front of `;` or `)`. */
  lemma ExprParses(e: Expr, t: Token, rest: Tokens)
    requires Printable(e) && (t == Semicolon || t == RightParen)
    ensures ParseExpr(PrintExpr(e) + ([t] + rest), PREC_ASSIGNMENT) == Parsed(e, [t] + rest)
    ensures Expect(ParseExpr(PrintExpr(e) + ([t] + rest), PREC_ASSIGNMENT), t) == Parsed(e, rest)
    ensures PrintExpr(e) != [] && Peek(PrintExpr(e) + ([t] + rest)) == PrintExpr(e)[0] && !IsKeyword(PrintExpr(e)[0])
  {
    hide ParseExpr, Print, IsKeyword;
    Drop1(t, rest);
    ParsePrinted(e, [t] + rest);
    ExprStarts(e, PREC_ASSIGNMENT);
  }

  lemma VarParses(x: Name, value: Option<Expr>, rest: Tokens)
    requires MaybePrintable(value)
    ensures ParseVar(PrintVar(x, value) + rest) == Parsed((x, value), rest)
  {
    hide ParseExpr, PrintExpr;
    if value.Some? {
      var body := PrintExpr(value.value) + ([Semicolon] + rest);
      ExprParses(value.value, Semicolon, rest);
      assert PrintVar(x, value) + rest == [Identifier(x), Token.Assign] + body;
      Drop2(Identifier(x), Token.Assign, body);
    } else {
      assert PrintVar(x, value) + rest == [Identifier(x), Semicolon] + rest;
      Drop2(Identifier(x), Semicolon, rest);
    }
  }

  lemma InitParses(init: ForInit, rest: Tokens)
    requires InitPrintable(init)
    ensures ParseForInit(PrintInit(init) + rest) == Parsed(init, rest)
  {
    hide ParseExpr, PrintExpr, ParseVar, PrintVar;
    match init
    case NoInit => Drop1(Semicolon, rest);
    case InitVar(x, value) =>
      VarParses(x, value, rest);
      assert PrintInit(init) + rest == [LocalWord] + (PrintVar(x, value) + rest);
      Drop1(LocalWord, PrintVar(x, value) + rest);
    case InitExpr(e) =>
      ExprParses(e, Semicolon, rest);
      assert PrintInit(init) + rest == PrintExpr(e) + ([Semicolon] + rest);
  }

  lemma OptionalParses(e: Option<Expr>, t: Token, rest: Tokens)
    requires MaybePrintable(e) && (t == Semicolon || t == RightParen)
    ensures ParseOptional(PrintMaybe(e) + ([t] + rest), t) == Parsed(e, rest)
  {
    hide ParseExpr, PrintExpr;
    Drop1(t, rest);
    if e.Some? {
      ExprParses(e.value, t, rest);
    } else {
      assert PrintMaybe(e) + ([t] + rest) == [t] + rest;
    }
  }

  lemma ConditionParses(c: Expr, rest: Tokens)
    requires Printable(c)
    ensures ParseCondition([LeftParen] + (PrintExpr(c) + ([RightParen] + rest))) == Parsed(c, rest)
  {
    hide ParseExpr, PrintExpr;
    ExprParses(c, RightParen, rest);
    Drop1(LeftParen, PrintExpr(c) + ([RightParen] + rest));
  }

  /** Parsing inverts printing, for every statement; `rest` must not start with an `else` that would be drawn in. */
  lemma {:induction false} StmtParses(s: Stmt, rest: Tokens)
    requires StmtPrintable(s) && (Open(s) ==> Peek(rest) != ElseWord)
    ensures ParseStmt(PrintStmt(s) + rest) == Parsed(s, rest)
    decreases s, 1
  {
    hide PrintStmt, ParseStmt, StmtPrintable, Open;
    match s
    case Eval(e) => EvalParses(e, rest);
    case Block(_) => BlockParses(s, rest);
    case If(_, _, _) => IfParses(s, rest);
    case While(_, _) => WhileParses(s, rest);
    case For(_, _, _, _) => ForParses(s, rest);
    case _ => JumpParses(s, rest);
  }

  lemma JumpParses(s: Stmt, rest: Tokens)
    requires s.Break? || s.Continue?
    ensures ParseStmt(PrintStmt(s) + rest) == Parsed(s, rest)
  {
    var t := if s.Break? then BreakWord else ContinueWord;
    assert PrintStmt(s) + rest == [t, Semicolon] + rest;
    Drop2(t, Semicolon, rest);
  }

  lemma {:induction false} BlockParses(s: Stmt, rest: Tokens)
    requires s.Block? && StmtPrintable(s)
    ensures ParseStmt(PrintStmt(s) + rest) == Parsed(s, rest)
    decreases s, 0
  {
    hide ParseStmt, ParseDecls, PrintDecls;
    var body := PrintDecls(s.body) + ([RightBrace] + rest);
    Drop1(RightBrace, rest);
    DeclsParse(s.body, [RightBrace] + rest);
    assert PrintStmt(s) + rest == [LeftBrace] + body;
    BlockFromDecls(s.body, body, rest);
  }

  lemma EvalParses(e: Expr, rest: Tokens)
    requires StmtPrintable(Eval(e))
    ensures ParseStmt(PrintStmt(Eval(e)) + rest) == Parsed(Eval(e), rest)
  {
    hide PrintExpr, ParseExpr;
    ExprParses(e, Semicolon, rest);
    assert PrintStmt(Eval(e)) + rest == PrintExpr(e) + ([Semicolon] + rest);
  }

  lemma BlockFromDecls(ds: Decls, body: Tokens, rest: Tokens)
    requires ParseDecls(body) == Parsed(ds, [RightBrace] + rest)
    ensures ParseStmt([LeftBrace] + body) == Parsed(Block(ds), rest)
  {
    hide ParseDecls;
    Drop1(LeftBrace, body);
    Drop1(RightBrace, rest);
  }

  lemma {:induction false} IfParses(s: Stmt, rest: Tokens)
    requires s.If? && StmtPrintable(s) && (Open(s) ==> Peek(rest) != ElseWord)
    ensures ParseStmt(PrintStmt(s) + rest) == Parsed(s, rest)
    decreases s, 0
  {
    hide PrintExpr, ParseCondition, ParseStmt, PrintStmt, Printable;
    IfPrints(s, rest);
    var after := PrintElse(s.elseBranch) + rest;
    var body := PrintStmt(s.thenBranch) + after;
    ConditionParses(s.cond, body);
    if s.elseBranch.Some? {
      var e := s.elseBranch.value;
      assert after == [ElseWord] + (PrintStmt(e) + rest);
      Drop1(ElseWord, PrintStmt(e) + rest);
      StmtParses(e, rest);
    } else {
      assert after == rest;
    }
    StmtParses(s.thenBranch, after);
    IfFromParts([LeftParen] + (PrintExpr(s.cond) + ([RightParen] + body)), s, body, after, rest);
  }

  lemma IfPrints(s: Stmt, rest: Tokens)
    requires s.If? && StmtPrintable(s)
    ensures
      PrintStmt(s) + rest ==
        [IfWord] + ([LeftParen] + (PrintExpr(s.cond)
          + ([RightParen] + (PrintStmt(s.thenBranch) + (PrintElse(s.elseBranch) + rest)))))
  {
    hide PrintExpr, PrintElse;
  }

  lemma IfFromParts(ts: Tokens, s: Stmt, body: Tokens, after: Tokens, rest: Tokens)
    requires s.If? && ParseCondition(ts) == Parsed(s.cond, body) && ParseStmt(body) == Parsed(s.thenBranch, after)
    requires s.elseBranch.None? ==> Peek(after) != ElseWord && after == rest
    requires s.elseBranch.Some? ==> Peek(after) == ElseWord
    requires s.elseBranch.Some? ==> ParseStmt(Tail(after)) == Parsed(s.elseBranch.value, rest)
    ensures ParseStmt([IfWord] + ts) == Parsed(s, rest)
  {
    hide ParseStmt, ParseCondition;
    assert ParseIf(ts) == Parsed(s, rest);
    IfIsStmt(ts, s, rest);
  }

  lemma IfIsStmt(ts: Tokens, s: Stmt, rest: Tokens)
    requires ParseIf(ts) == Parsed(s, rest)
    ensures ParseStmt([IfWord] + ts) == Parsed(s, rest)
  {
    hide ParseIf;
    Drop1(IfWord, ts);
  }

  lemma {:induction false} WhileParses(s: Stmt, rest: Tokens)
    requires s.While? && StmtPrintable(s) && (Open(s) ==> Peek(rest) != ElseWord)
    ensures ParseStmt(PrintStmt(s) + rest) == Parsed(s, rest)
    decreases s, 0
  {
    hide PrintExpr, ParseExpr, ParseCondition, ParseStmt;
    var body := PrintStmt(s.body_) + rest;
    var cond := [LeftParen] + (PrintExpr(s.cond) + ([RightParen] + body));
    ConditionParses(s.cond, body);
    StmtParses(s.body_, rest);
    assert ParseWhile(cond) == Parsed(s, rest);
    assert PrintStmt(s) + rest == [WhileWord] + cond;
    WhileFromParts(cond, s, rest);
  }

  lemma WhileFromParts(ts: Tokens, s: Stmt, rest: Tokens)
    requires ParseWhile(ts) == Parsed(s, rest)
    ensures ParseStmt([WhileWord] + ts) == Parsed(s, rest)
  {
    hide ParseWhile;
    Drop1(WhileWord, ts);
  }

  lemma {:induction false} ForParses(s: Stmt, rest: Tokens)
    requires s.For? && StmtPrintable(s) && (Open(s) ==> Peek(rest) != ElseWord)
    ensures ParseStmt(PrintStmt(s) + rest) == Parsed(s, rest)
    decreases s, 0
  {
    hide PrintInit, PrintMaybe, ParseForInit, ParseOptional, ParseStmt, PrintStmt, InitPrintable, MaybePrintable;
    ForPrints(s, rest);
    var body := PrintStmt(s.body_) + rest;
    var inc := PrintMaybe(s.increment) + ([RightParen] + body);
    var test := PrintMaybe(s.test) + ([Semicolon] + inc);
    InitParses(s.init, test);
    OptionalParses(s.test, Semicolon, inc);
    OptionalParses(s.increment, RightParen, body);
    StmtParses(s.body_, rest);
    ForFromParts(PrintInit(s.init) + test, s, test, inc, body, rest);
  }

  lemma ForPrints(s: Stmt, rest: Tokens)
    requires s.For? && StmtPrintable(s)
    ensures
      var body := PrintStmt(s.body_) + rest;
      PrintStmt(s) + rest ==
        [ForWord] + ([LeftParen] + (PrintInit(s.init) + (PrintMaybe(s.test)
          + ([Semicolon] + (PrintMaybe(s.increment) + ([RightParen] + body))))))
  {
    hide PrintInit, PrintMaybe;
    ForWords(PrintInit(s.init), PrintMaybe(s.test), PrintMaybe(s.increment), PrintStmt(s.body_), rest);
  }

  lemma ForWords(a: Tokens, b: Tokens, c: Tokens, d: Tokens, rest: Tokens)
    ensures
      [ForWord, LeftParen] + (a + (b + ([Semicolon] + (c + ([RightParen] + d))))) + rest ==
      [ForWord] + ([LeftParen] + (a + (b + ([Semicolon] + (c + ([RightParen] + (d + rest)))))))
  {
  }

  lemma ForFromParts(ts: Tokens, s: Stmt, afterInit: Tokens, afterTest: Tokens, afterInc: Tokens, rest: Tokens)
    requires s.For? && ParseForInit(ts) == Parsed(s.init, afterInit)
    requires ParseOptional(afterInit, Semicolon) == Parsed(s.test, afterTest)
    requires ParseOptional(afterTest, RightParen) == Parsed(s.increment, afterInc)
    requires ParseStmt(afterInc) == Parsed(s.body_, rest)
    ensures ParseStmt([ForWord] + ([LeftParen] + ts)) == Parsed(s, rest)
  {
    hide ParseStmt, ParseForInit, ParseOptional;
    Drop1(LeftParen, ts);
    assert ParseFor([LeftParen] + ts) == Parsed(s, rest);
    ForIsStmt([LeftParen] + ts, s, rest);
  }

  lemma ForIsStmt(ts: Tokens, s: Stmt, rest: Tokens)
    requires ParseFor(ts) == Parsed(s, rest)
    ensures ParseStmt([ForWord] + ts) == Parsed(s, rest)
  {
    hide ParseFor;
    Drop1(ForWord, ts);
  }

  lemma {:induction false} DeclParses(d: Decl, rest: Tokens)
    requires DeclPrintable(d) && Peek(rest) != ElseWord
    ensures ParseDecl(PrintDecl(d) + rest) == Parsed(d, rest)
    decreases d, 2
  {
    hide ParseVar, PrintVar, ParseStmt, PrintStmt;
    DeclStarts(d);
    assert Peek(PrintDecl(d) + rest) == PrintDecl(d)[0];
    match d
    case Declare(x, value) =>
      VarParses(x, value, rest);
      assert PrintDecl(d) + rest == [LocalWord] + (PrintVar(x, value) + rest);
      Drop1(LocalWord, PrintVar(x, value) + rest);
    case Do(s) => StmtParses(s, rest);
  }

  /** Nothing printed ends before its end, or goes on with an `else`. */
  lemma DeclsStart(ds: Decls, rest: Tokens)
    requires DeclsPrintable(ds)
    ensures ds.More? ==>
              var t := Peek(PrintDecls(ds) + rest);
              !t.ElseWord? && !t.RightBrace? && !t.Eof?
  {
    hide PrintDecl;
    if ds.More? {
      DeclStarts(ds.first);
    }
  }

  lemma {:induction false} DeclsParse(ds: Decls, rest: Tokens)
    requires DeclsPrintable(ds) && (Peek(rest) == RightBrace || Peek(rest) == Eof)
    ensures ParseDecls(PrintDecls(ds) + rest) == Parsed(ds, rest)
    decreases ds, 3
  {
    hide ParseDecl, PrintDecl;
    match ds
    case End => assert PrintDecls(ds) + rest == rest;
    case More(d, more) =>
      DeclsStart(ds, rest);
      DeclsStart(more, rest);
      DeclsParse(more, rest);
      assert more.End? ==> PrintDecls(more) + rest == rest;
      DeclParses(d, PrintDecls(more) + rest);
      assert PrintDecls(ds) + rest == PrintDecl(d) + (PrintDecls(more) + rest);
  }

  /** Every script parses back. */
  lemma {:induction false} ScriptParses(ds: Decls)
    requires DeclsPrintable(ds)
    ensures ParseProgram(PrintDecls(ds)) == Parsed(ds, [])
    decreases ds
  {
    hide ParseDecl, PrintDecl;
    if ds.More? {
      DeclsStart(ds, []);
      DeclsStart(ds.rest, []);
      assert PrintDecls(ds) + [] == PrintDecls(ds) && PrintDecls(ds.rest) + [] == PrintDecls(ds.rest);
      ScriptParses(ds.rest);
      DeclParses(ds.first, PrintDecls(ds.rest));
    }
  }

  /** Different scripts never print alike. */
  lemma ScriptsDiffer(a: Decls, b: Decls)
    requires DeclsPrintable(a) && DeclsPrintable(b) && PrintDecls(a) == PrintDecls(b)
    ensures a == b
  {
    ScriptParses(a);
    ScriptParses(b);
  }

  /** What a printed script compiles to is the code of its statements. */
  lemma ScriptCompiles(ds: Decls)
    requires DeclsPrintable(ds)
    ensures
      var em := Emit.EmitScript(ds);
      Compiler.CompileScript(PrintDecls(ds)) == if em.err then None else Some(Bytecode.Chunk(em.code, em.constants))
  {
    hide ParseProgram, Emit.EmitScript;
    ScriptParses(ds);
  }
}
