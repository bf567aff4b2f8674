/** The grammar as a precedence-climbing parser over the remaining tokens. */
module Grammar {
  import opened Options
  import opened Syntax

  type Tokens = seq<Token>

  datatype Parse<T> = Parsed(value: T, rest: Tokens) | Failed

  /** The next token; past the last one the scanner keeps reporting the end of the file. */
  function Peek(ts: Tokens): Token {
    if ts == [] then Eof else ts[0]
  }

  function Tail(ts: Tokens): Tokens {
    if ts == [] then [] else ts[1..]
  }

  /** Drops the expected token. */
  function Expect<T>(p: Parse<T>, t: Token): (r: Parse<T>)
    ensures r.Parsed? ==> p.Parsed? && |r.rest| <= |p.rest|
  {
    if p.Parsed? && Peek(p.rest) == t then Parsed(p.value, Tail(p.rest)) else Failed
  }

  // ----- expressions -----

  function ParseExpr(ts: Tokens, prec: nat): (r: Parse<Expr>)
    ensures r.Parsed? ==> |r.rest| < |ts|
    decreases |ts|, 1
  {
    var operand := ParsePrefix(ts, prec);
    if operand.Failed? then Failed
    else
      var whole := ParseInfix(operand.value, operand.rest, prec);
      if whole.Parsed? && prec <= PREC_ASSIGNMENT && Peek(whole.rest) == Assign then Failed else whole
  }

  /** A literal, variable, assignment, parenthesis or prefix operator. */
  function ParsePrefix(ts: Tokens, prec: nat): (r: Parse<Expr>)
    ensures r.Parsed? ==> |r.rest| < |ts|
    decreases |ts|, 0
  {
    var t := Peek(ts);
    var rest := Tail(ts);
    if ts == [] then Failed
    else if t == LeftParen then Expect(ParseExpr(rest, PREC_ASSIGNMENT), RightParen)
    else if t == Minus || t == Bang then
      match ParseExpr(rest, PREC_UNARY)
      case Failed => Failed
      case Parsed(e, after) => Parsed(if t == Minus then Negate(e) else Not(e), after)
    else if IsLiteralToken(t) then Parsed(Lit(LiteralOf(t)), rest)
    else if t.Identifier? then
      if prec <= PREC_ASSIGNMENT && Peek(rest) == Assign then
        match ParseExpr(Tail(rest), PREC_ASSIGNMENT)
        case Failed => Failed
        case Parsed(e, after) => Parsed(Set(t.name, e), after)
      else if prec <= PREC_ASSIGNMENT && IsUpdateToken(Peek(rest)) then
        match ParseExpr(Tail(rest), PREC_ASSIGNMENT)
        case Failed => Failed
        case Parsed(e, after) => Parsed(Update(UpdateOf(Peek(rest)), t.name, e), after)
      else Parsed(Var(t.name), rest)
    else Failed
  }

  /** Extends `left` with every operator that binds at least as strongly as `prec`. */
  function ParseInfix(left: Expr, ts: Tokens, prec: nat): (r: Parse<Expr>)
    ensures r.Parsed? ==> |r.rest| <= |ts|
    decreases |ts|, 2
  {
    var t := Peek(ts);
    if prec > Precedence(t) || ts == [] then Parsed(left, ts)
    else
      match ParseOperand(left, t, Tail(ts))
      case Failed => Failed
      case Parsed(e, after) => ParseInfix(e, after, prec)
  }

  /** The right operand of operator `t`, combined with `left`. Calls are outside this language. */
  function ParseOperand(left: Expr, t: Token, ts: Tokens): (r: Parse<Expr>)
    ensures r.Parsed? ==> |r.rest| < |ts|
    decreases |ts|, 2
  {
    if t == AndWord then
      match ParseExpr(ts, PREC_AND)
      case Failed => Failed
      case Parsed(e, after) => Parsed(And(left, e), after)
    else if t == OrWord then
      match ParseExpr(ts, PREC_OR)
      case Failed => Failed
      case Parsed(e, after) => Parsed(Or(left, e), after)
    else if IsBinaryToken(t) then
      match ParseExpr(ts, Precedence(t) + 1)
      case Failed => Failed
      case Parsed(e, after) => Parsed(Binary(BinaryOf(t), left, e), after)
    else Failed
  }

  // ----- statements -----

  function ParseStmt(ts: Tokens): (r: Parse<Stmt>)
    ensures r.Parsed? ==> |r.rest| < |ts|
    decreases |ts|, 2
  {
    var t := Peek(ts);
    var rest := Tail(ts);
    if t == BreakWord then Expect(Parsed(Break, rest), Semicolon)
    else if t == ContinueWord then Expect(Parsed(Continue, rest), Semicolon)
    else if t == ForWord then ParseFor(rest)
    else if t == IfWord then ParseIf(rest)
    else if t == WhileWord then ParseWhile(rest)
    else if t == LeftBrace then
      match Expect(ParseDecls(rest), RightBrace)
      case Failed => Failed
      case Parsed(ds, after) => Parsed(Block(ds), after)
    else
      match Expect(ParseExpr(ts, PREC_ASSIGNMENT), Semicolon)
      case Failed => Failed
      case Parsed(e, after) => Parsed(Eval(e), after)
  }

  /** `( e )` after a keyword. */
  function ParseCondition(ts: Tokens): (r: Parse<Expr>)
    ensures r.Parsed? ==> |r.rest| < |ts|
    decreases |ts|, 2
  {
    if Peek(ts) == LeftParen then Expect(ParseExpr(Tail(ts), PREC_ASSIGNMENT), RightParen) else Failed
  }

  function ParseIf(ts: Tokens): (r: Parse<Stmt>)
    ensures r.Parsed? ==> |r.rest| < |ts|
    decreases |ts|, 3
  {
    match ParseCondition(ts)
    case Failed => Failed
    case Parsed(c, afterCond) =>
      match ParseStmt(afterCond)
      case Failed => Failed
      case Parsed(s, afterThen) =>
        if Peek(afterThen) == ElseWord then
          match ParseStmt(Tail(afterThen))
          case Failed => Failed
          case Parsed(e, after) => Parsed(If(c, s, Some(e)), after)
        else Parsed(If(c, s, None), afterThen)
  }

  function ParseWhile(ts: Tokens): (r: Parse<Stmt>)
    ensures r.Parsed? ==> |r.rest| < |ts|
    decreases |ts|, 3
  {
    match ParseCondition(ts)
    case Failed => Failed
    case Parsed(c, afterCond) =>
      match ParseStmt(afterCond)
      case Failed => Failed
      case Parsed(s, after) => Parsed(While(c, s), after)
  }

  function ParseForInit(ts: Tokens): (r: Parse<ForInit>)
    ensures r.Parsed? ==> |r.rest| < |ts|
    decreases |ts|, 3
  {
    if Peek(ts) == Semicolon then Parsed(NoInit, Tail(ts))
    else if Peek(ts) == LocalWord then
      match ParseVar(Tail(ts))
      case Failed => Failed
      case Parsed(d, after) => Parsed(InitVar(d.0, d.1), after)
    else
      match Expect(ParseExpr(ts, PREC_ASSIGNMENT), Semicolon)
      case Failed => Failed
      case Parsed(e, after) => Parsed(InitExpr(e), after)
  }

  /** An optional expression closed by `t`. */
  function ParseOptional(ts: Tokens, t: Token): (r: Parse<Option<Expr>>)
    requires t != Eof
    ensures r.Parsed? ==> |r.rest| < |ts|
    decreases |ts|, 2
  {
    if Peek(ts) == t then Parsed(None, Tail(ts))
    else
      match Expect(ParseExpr(ts, PREC_ASSIGNMENT), t)
      case Failed => Failed
      case Parsed(e, after) => Parsed(Some(e), after)
  }

  function ParseFor(ts: Tokens): (r: Parse<Stmt>)
    ensures r.Parsed? ==> |r.rest| < |ts|
    decreases |ts|, 3
  {
    if Peek(ts) != LeftParen then Failed
    else
      match ParseForInit(Tail(ts))
      case Failed => Failed
      case Parsed(init, afterInit) =>
        match ParseOptional(afterInit, Semicolon)
        case Failed => Failed
        case Parsed(test, afterTest) =>
          match ParseOptional(afterTest, RightParen)
          case Failed => Failed
          case Parsed(inc, afterInc) =>
            match ParseStmt(afterInc)
            case Failed => Failed
            case Parsed(s, after) => Parsed(For(init, test, inc, s), after)
  }

  /** `x = e ;` or `x ;` after `local`. */
  function ParseVar(ts: Tokens): (r: Parse<(Name, Option<Expr>)>)
    ensures r.Parsed? ==> |r.rest| < |ts|
    decreases |ts|, 2
  {
    if !Peek(ts).Identifier? then Failed
    else if Peek(Tail(ts)) == Assign then
      match Expect(ParseExpr(Tail(Tail(ts)), PREC_ASSIGNMENT), Semicolon)
      case Failed => Failed
      case Parsed(e, after) => Parsed((ts[0].name, Some(e)), after)
    else Expect(Parsed((ts[0].name, None), Tail(ts)), Semicolon)
  }

  function ParseDecl(ts: Tokens): (r: Parse<Decl>)
    ensures r.Parsed? ==> |r.rest| < |ts|
    decreases |ts|, 3
  {
    if Peek(ts) == LocalWord then
      match ParseVar(Tail(ts))
      case Failed => Failed
      case Parsed(d, after) => Parsed(Declare(d.0, d.1), after)
    else
      match ParseStmt(ts)
      case Failed => Failed
      case Parsed(s, after) => Parsed(Do(s), after)
  }

  /** Declarations up to a closing brace or the end of the file. */
  function ParseDecls(ts: Tokens): (r: Parse<Decls>)
    ensures r.Parsed? ==> |r.rest| <= |ts|
    decreases |ts|, 4
  {
    if Peek(ts) == RightBrace || Peek(ts) == Eof then Parsed(End, ts)
    else
      match ParseDecl(ts)
      case Failed => Failed
      case Parsed(d, afterDecl) =>
        match ParseDecls(afterDecl)
        case Failed => Failed
        case Parsed(ds, after) => Parsed(More(d, ds), after)
  }

  /** A whole script: declarations up to the end of the file. */
  function ParseProgram(ts: Tokens): Parse<Decls>
    decreases |ts|, 4
  {
    if Peek(ts) == Eof then Parsed(End, ts)
    else
      match ParseDecl(ts)
      case Failed => Failed
      case Parsed(d, afterDecl) =>
        match ParseProgram(afterDecl)
        case Failed => Failed
        case Parsed(ds, after) => Parsed(More(d, ds), after)
  }
}
