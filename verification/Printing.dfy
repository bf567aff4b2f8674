/** Printing expressions with as few parentheses as the operator table allows, and parsing them back. */
module Printing {
  import opened Values
  import opened Syntax
  import opened Grammar

  /** How tightly the outermost construct of an expression holds together. */
  function Level(e: Expr): nat {
    match e
    case Lit(_) => PREC_CALL
    case Var(_) => PREC_CALL
    case Set(_, _) => PREC_ASSIGNMENT
    case Update(_, _, _) => PREC_ASSIGNMENT
    case Negate(_) => PREC_UNARY
    case Not(_) => PREC_UNARY
    case Binary(op, _, _) => Precedence(BinaryToken(op))
    case And(_, _) => PREC_AND
    case Or(_, _) => PREC_OR
  }

  function BinaryToken(op: BinOp): (t: Token)
    ensures IsBinaryToken(t) && BinaryOf(t) == op
    ensures PREC_EQUALITY <= Precedence(t) <= PREC_FACTOR
  {
    match op
    case Equal => EqualEqual
    case NotEqual => BangEqual
    case Greater => GreaterThan
    case GreaterEqual => GreaterOrEqual
    case Less => LessThan
    case LessEqual => LessOrEqual
    case Add => Plus
    case Subtract => Minus
    case Multiply => Star
    case Divide => Slash
    case Modulo => Percent
  }

  predicate HasUpdate(op: BinOp) {
    op in {Add, Subtract, Multiply, Divide, Modulo}
  }

  function UpdateToken(op: BinOp): (t: Token)
    requires HasUpdate(op)
    ensures IsUpdateToken(t) && UpdateOf(t) == op
  {
    match op
    case Add => PlusEqual
    case Subtract => MinusEqual
    case Multiply => StarEqual
    case Divide => SlashEqual
    case _ => PercentEqual
  }

  function LiteralToken(l: Literal): (t: Token)
    ensures IsLiteralToken(t) && LiteralOf(t) == l
  {
    match l
    case LitNil => NilWord
    case LitTrue => TrueWord
    case LitFalse => FalseWord
    case LitNumber(r) => NumberToken(r)
  }

  /** Only arithmetic operators have a compound assignment form. */
  predicate Printable(e: Expr) {
    match e
    case Lit(_) => true
    case Var(_) => true
    case Set(_, v) => Printable(v)
    case Update(op, _, v) => HasUpdate(op) && Printable(v)
    case Negate(x) => Printable(x)
    case Not(x) => Printable(x)
    case Binary(_, l, r) => Printable(l) && Printable(r)
    case And(l, r) => Printable(l) && Printable(r)
    case Or(l, r) => Printable(l) && Printable(r)
  }

  /** `e` where at least precedence `prec` is needed. */
  function Print(e: Expr, prec: nat): Tokens
    requires Printable(e)
    decreases e, 1
  {
    if Level(e) < prec then [LeftParen] + PrintBare(e) + [RightParen] else PrintBare(e)
  }

  /** Binary operators associate to the left, `and` and `or` to the right. */
  function PrintBare(e: Expr): Tokens
    requires Printable(e)
    decreases e, 0
  {
    match e
    case Lit(l) => [LiteralToken(l)]
    case Var(x) => [Identifier(x)]
    case Set(x, v) => [Identifier(x), Token.Assign] + Print(v, PREC_ASSIGNMENT)
    case Update(op, x, v) => [Identifier(x), UpdateToken(op)] + Print(v, PREC_ASSIGNMENT)
    case Negate(x) => [Minus] + Print(x, PREC_UNARY)
    case Not(x) => [Bang] + Print(x, PREC_UNARY)
    case Binary(op, l, r) => Print(l, Level(e)) + [BinaryToken(op)] + Print(r, Level(e) + 1)
    case And(l, r) => Print(l, PREC_AND + 1) + [AndWord] + Print(r, PREC_AND)
    case Or(l, r) => Print(l, PREC_OR + 1) + [OrWord] + Print(r, PREC_OR)
  }

  // ----- parsing what was printed -----

  /** Climbing from precedence `q`: an operand, then the operators after it. */
  function Climb(ts: Tokens, q: nat): Parse<Expr> {
    match ParsePrefix(ts, q)
    case Failed => Failed
    case Parsed(e, after) => ParseInfix(e, after, q)
  }

  /** What may come after an expression printed at `prec` without being drawn into it. */
  predicate MayFollow(rest: Tokens, prec: nat) {
    var t := Peek(rest);
    && t != Token.Assign && !IsUpdateToken(t)
    && (Precedence(t) < prec || (Precedence(t) == prec && prec != PREC_AND && prec != PREC_OR))
  }

  lemma PeekOfConcat(t: Token, a: Tokens, b: Tokens)
    ensures Peek([t] + a + b) == t && Tail([t] + a + b) == a + b
    ensures Peek([t] + b) == t && Tail([t] + b) == b
  {
    assert ([t] + a + b)[1..] == a + b;
    assert ([t] + b)[1..] == b;
  }

  /** Parsing an operand stops right after it when what follows binds more weakly. */
  lemma OperandStops(ts: Tokens, e: Expr, rest: Tokens, q: nat)
    requires ts != [] && q > 0
    requires Climb(ts, q) == ParseInfix(e, rest, q)
    requires Precedence(Peek(rest)) < q && Peek(rest) != Token.Assign
    ensures ParseExpr(ts, q) == Parsed(e, rest)
  {
  }

  /** Climbing over a printed expression arrives at its tree, with the rest still to come. */
  lemma {:induction false} ClimbPrinted(e: Expr, prec: nat, rest: Tokens, q: nat)
    requires Printable(e) && 1 <= q <= prec <= PREC_UNARY
    requires MayFollow(rest, prec)
    ensures Print(e, prec) != []
    ensures Climb(Print(e, prec) + rest, q) == ParseInfix(e, rest, q)
    decreases e, 2
  {
    hide ParseInfix, ParsePrefix, Climb, Precedence, PrintBare;
    if Level(e) < prec {
      var inner := PrintBare(e);
      LevelIsPositive(e);
      RightParenFollows(rest);
      ClimbBare(e, PREC_ASSIGNMENT, [RightParen] + rest, PREC_ASSIGNMENT);
      assert Print(e, prec) + rest == [LeftParen] + (inner + ([RightParen] + rest));
      OperandStops(inner + ([RightParen] + rest), e, [RightParen] + rest, PREC_ASSIGNMENT);
      ClimbParen(inner + ([RightParen] + rest), e, rest, q);
    } else {
      ClimbBare(e, prec, rest, q);
    }
  }

  lemma LevelIsPositive(e: Expr)
    ensures Level(e) >= PREC_ASSIGNMENT
  {
  }

  lemma RightParenFollows(rest: Tokens)
    ensures MayFollow([RightParen] + rest, PREC_ASSIGNMENT) && Peek([RightParen] + rest) == RightParen
    ensures Tail([RightParen] + rest) == rest
    ensures Precedence(RightParen) == 0
  {
  }

  lemma ClimbParen(ts: Tokens, e: Expr, rest: Tokens, q: nat)
    requires ParseExpr(ts, PREC_ASSIGNMENT) == Parsed(e, [RightParen] + rest)
    ensures Climb([LeftParen] + ts, q) == ParseInfix(e, rest, q)
  {
    assert ([LeftParen] + ts)[1..] == ts;
    assert ([RightParen] + rest)[1..] == rest;
  }

  lemma {:induction false} ClimbBare(e: Expr, prec: nat, rest: Tokens, q: nat)
    requires Printable(e) && 1 <= q <= prec <= PREC_UNARY && prec <= Level(e)
    requires MayFollow(rest, prec)
    ensures PrintBare(e) != []
    ensures Climb(PrintBare(e) + rest, q) == ParseInfix(e, rest, q)
    decreases e, 1
  {
    hide ParseInfix, Climb, Print;
    match e
    case Lit(l) => ClimbLeaf(e, LiteralToken(l), rest, q);
    case Var(x) => ClimbLeaf(e, Identifier(x), rest, q);
    case Set(x, v) => ClimbAssignment(e, Token.Assign, x, v, rest);
    case Update(op, x, v) => ClimbAssignment(e, UpdateToken(op), x, v, rest);
    case Negate(x) => ClimbUnary(e, Minus, x, rest, prec, q);
    case Not(x) => ClimbUnary(e, Bang, x, rest, prec, q);
    case Binary(op, l, r) => ClimbOperator(e, BinaryToken(op), l, r, Level(e), Level(e) + 1, rest, prec, q);
    case And(l, r) => ClimbOperator(e, AndWord, l, r, PREC_AND + 1, PREC_AND, rest, prec, q);
    case Or(l, r) => ClimbOperator(e, OrWord, l, r, PREC_OR + 1, PREC_OR, rest, prec, q);
  }

  lemma ClimbLeaf(e: Expr, t: Token, rest: Tokens, q: nat)
    requires (e.Lit? && Printable(e) && t == LiteralToken(e.literal)) || (e.Var? && t == Identifier(e.x))
    requires Peek(rest) != Token.Assign && !IsUpdateToken(Peek(rest))
    ensures Climb([t] + rest, q) == ParseInfix(e, rest, q)
  {
    hide ParseInfix;
    assert ([t] + rest)[1..] == rest;
  }

  lemma {:induction false} ClimbAssignment(e: Expr, t: Token, x: Name, v: Expr, rest: Tokens)
    requires Printable(e) && MayFollow(rest, PREC_ASSIGNMENT) && Printable(v) && v < e
    requires (t == Token.Assign && e == Set(x, v)) || (IsUpdateToken(t) && e == Update(UpdateOf(t), x, v))
    ensures Climb([Identifier(x), t] + Print(v, PREC_ASSIGNMENT) + rest, PREC_ASSIGNMENT) ==
      ParseInfix(e, rest, PREC_ASSIGNMENT)
    decreases e, 0
  {
    hide ParseInfix, ParsePrefix, Print, Printable;
    var body := Print(v, PREC_ASSIGNMENT) + rest;
    ClimbPrinted(v, PREC_ASSIGNMENT, rest, PREC_ASSIGNMENT);
    OperandStops(body, v, rest, PREC_ASSIGNMENT);
    assert [Identifier(x), t] + Print(v, PREC_ASSIGNMENT) + rest == [Identifier(x), t] + body;
    PrefixAssignment(e, t, x, v, body, rest);
  }

  lemma PrefixAssignment(e: Expr, t: Token, x: Name, v: Expr, body: Tokens, rest: Tokens)
    requires ParseExpr(body, PREC_ASSIGNMENT) == Parsed(v, rest)
    requires (t == Token.Assign && e == Set(x, v)) || (IsUpdateToken(t) && e == Update(UpdateOf(t), x, v))
    ensures ParsePrefix([Identifier(x), t] + body, PREC_ASSIGNMENT) == Parsed(e, rest)
  {
    hide ParseExpr;
    var ts := [Identifier(x), t] + body;
    assert Tail(ts) == [t] + body;
    assert Tail(Tail(ts)) == body;
  }

  lemma {:induction false} ClimbUnary(e: Expr, t: Token, x: Expr, rest: Tokens, prec: nat, q: nat)
    requires Printable(e) && Printable(x) && x < e
    requires (t == Minus && e == Negate(x)) || (t == Bang && e == Not(x))
    requires prec <= PREC_UNARY && MayFollow(rest, prec)
    ensures Climb([t] + Print(x, PREC_UNARY) + rest, q) == ParseInfix(e, rest, q)
    decreases e, 0
  {
    hide ParseInfix, Print, ParseExpr, Printable;
    var body := Print(x, PREC_UNARY) + rest;
    ClimbPrinted(x, PREC_UNARY, rest, PREC_UNARY);
    OperandStops(body, x, rest, PREC_UNARY);
    assert [t] + Print(x, PREC_UNARY) + rest == [t] + body;
    PeekOfConcat(t, [], body);
  }

  /** Left operand, operator, right operand: the operator is taken because it binds at least as strongly as `q`. */
  lemma {:induction false} ClimbOperator(
    e: Expr, t: Token, l: Expr, r: Expr, lp: nat, rp: nat, rest: Tokens, prec: nat, q: nat
  )
    requires Printable(l) && Printable(r) && l < e && r < e
    requires ParseOperandMakes(e, t, l, r, rp)
    requires IsBinaryToken(t) || t == AndWord || t == OrWord
    requires
      if t == AndWord || t == OrWord then rp == Precedence(t) && lp == rp + 1 else lp == Precedence(t) && rp == lp + 1
    requires 1 <= q <= prec <= Precedence(t) && MayFollow(rest, prec)
    ensures Print(l, lp) != []
    ensures Climb(Print(l, lp) + [t] + Print(r, rp) + rest, q) == ParseInfix(e, rest, q)
    decreases e, 0
  {
    hide ParseInfix, Print, PrintBare, ParseExpr, Climb, ParseOperandMakes;
    var tail := Print(r, rp) + rest;
    OperatorMayFollow(t, lp, tail);
    OperatorPrecedences(e, t, l, r, lp, rp, rest, prec);
    assert Print(l, lp) + [t] + Print(r, rp) + rest == Print(l, lp) + ([t] + tail);
    PeekOfConcat(t, [], tail);
    ClimbPrinted(l, lp, [t] + tail, q);
    ClimbPrinted(r, rp, rest, rp);
    OperandStops(tail, r, rest, rp);
    AbsorbOperator(e, t, l, r, rp, tail, rest, q);
  }

  lemma OperatorMayFollow(t: Token, lp: nat, tail: Tokens)
    requires IsBinaryToken(t) || t == AndWord || t == OrWord
    requires if t == AndWord || t == OrWord then lp == Precedence(t) + 1 else lp == Precedence(t)
    ensures MayFollow([t] + tail, lp)
    ensures PREC_OR <= Precedence(t) <= PREC_FACTOR
  {
  }

  lemma OperatorPrecedences(e: Expr, t: Token, l: Expr, r: Expr, lp: nat, rp: nat, rest: Tokens, prec: nat)
    requires ParseOperandMakes(e, t, l, r, rp)
    requires
      if t == AndWord || t == OrWord then rp == Precedence(t) && lp == rp + 1 else lp == Precedence(t) && rp == lp + 1
    requires prec <= Precedence(t) && MayFollow(rest, prec)
    ensures 1 <= lp <= PREC_UNARY && 1 <= rp <= PREC_UNARY
    ensures MayFollow(rest, rp) && Precedence(Peek(rest)) < rp && Peek(rest) != Token.Assign
  {
  }

  /** `t` is the operator of `e`, whose right operand is parsed at `rp`. */
  predicate ParseOperandMakes(e: Expr, t: Token, l: Expr, r: Expr, rp: nat) {
    || (t == AndWord && e == And(l, r) && rp == PREC_AND)
    || (t == OrWord && e == Or(l, r) && rp == PREC_OR)
    || (IsBinaryToken(t) && e == Binary(BinaryOf(t), l, r) && rp == Precedence(t) + 1)
  }

  lemma AbsorbOperator(e: Expr, t: Token, l: Expr, r: Expr, rp: nat, tail: Tokens, rest: Tokens, q: nat)
    requires ParseOperandMakes(e, t, l, r, rp) && q <= Precedence(t)
    requires ParseExpr(tail, rp) == Parsed(r, rest)
    ensures ParseInfix(l, [t] + tail, q) == ParseInfix(e, rest, q)
  {
    hide ParseExpr, ParseOperand, ParseOperandMakes;
    PeekOfConcat(t, [], tail);
    OperandMade(e, t, l, r, rp, tail, rest);
  }

  lemma OperandMade(e: Expr, t: Token, l: Expr, r: Expr, rp: nat, tail: Tokens, rest: Tokens)
    requires ParseOperandMakes(e, t, l, r, rp) && ParseExpr(tail, rp) == Parsed(r, rest)
    ensures ParseOperand(l, t, tail) == Parsed(e, rest)
  {
    hide ParseExpr;
  }

  /** Parsing inverts printing, for every expression tree the grammar can produce. */
  lemma ParsePrinted(e: Expr, rest: Tokens)
    requires Printable(e) && MayFollow(rest, PREC_ASSIGNMENT)
    ensures ParseExpr(Print(e, PREC_ASSIGNMENT) + rest, PREC_ASSIGNMENT) == Parsed(e, rest)
  {
    ClimbPrinted(e, PREC_ASSIGNMENT, rest, PREC_ASSIGNMENT);
    OperandStops(Print(e, PREC_ASSIGNMENT) + rest, e, rest, PREC_ASSIGNMENT);
  }

  /** Different trees never print alike. */
  lemma PrintingIsInjective(a: Expr, b: Expr)
    requires Printable(a) && Printable(b)
    requires Print(a, PREC_ASSIGNMENT) == Print(b, PREC_ASSIGNMENT)
    ensures a == b
  {
    ParsePrinted(a, [Semicolon]);
    ParsePrinted(b, [Semicolon]);
  }
}
