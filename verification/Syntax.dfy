/** Tokens and syntax trees of the statement language, and the operator table. */
module Syntax {
  import opened Options
  import opened Values

  type Name = string

  datatype Token =
    | LeftParen | RightParen | LeftBrace | RightBrace | Semicolon
    | Minus | Plus | Star | Slash | Percent
    | Bang | BangEqual | EqualEqual | Assign | GreaterThan | GreaterOrEqual | LessThan | LessOrEqual
    | PlusEqual | MinusEqual | StarEqual | SlashEqual | PercentEqual
    | AndWord | OrWord | TrueWord | FalseWord | NilWord
    | NumberToken(r: real) | Identifier(name: Name)
    | IfWord | ElseWord | WhileWord | ForWord | BreakWord | ContinueWord | LocalWord | Eof

  datatype Literal = LitNil | LitTrue | LitFalse | LitNumber(r: real)

  datatype Expr =
    | Lit(literal: Literal)
    | Var(x: Name)
    | Set(x: Name, value: Expr)
    | Update(op: BinOp, x: Name, value: Expr)
    | Negate(e: Expr)
    | Not(e: Expr)
    | Binary(op: BinOp, left: Expr, right: Expr)
    | And(left: Expr, right: Expr)
    | Or(left: Expr, right: Expr)


  datatype Stmt =
    | Eval(e: Expr)
    | Block(body: Decls)
    | If(cond: Expr, thenBranch: Stmt, elseBranch: Option<Stmt>)
    | While(cond: Expr, body_: Stmt)
    | For(init: ForInit, test: Option<Expr>, increment: Option<Expr>, body_: Stmt)
    | Break
    | Continue

  datatype ForInit = NoInit | InitVar(x: Name, value: Option<Expr>) | InitExpr(e: Expr)

  datatype Decl = Declare(x: Name, value: Option<Expr>) | Do(s: Stmt)

  datatype Decls = End | More(first: Decl, rest: Decls)

  // ----- precedences, weakest first -----

  const PREC_NONE: nat := 0
  const PREC_ASSIGNMENT: nat := 1
  const PREC_OR: nat := 2
  const PREC_AND: nat := 3
  const PREC_EQUALITY: nat := 4
  const PREC_COMPARISON: nat := 5
  const PREC_TERM: nat := 6
  const PREC_FACTOR: nat := 7
  const PREC_UNARY: nat := 8
  const PREC_CALL: nat := 9

  /** How strongly a token binds to the operand on its left. */
  function Precedence(t: Token): nat {
    match t
    case LeftParen => PREC_CALL
    case Minus => PREC_TERM
    case Plus => PREC_TERM
    case Star => PREC_FACTOR
    case Slash => PREC_FACTOR
    case Percent => PREC_FACTOR
    case BangEqual => PREC_EQUALITY
    case EqualEqual => PREC_EQUALITY
    case GreaterThan => PREC_COMPARISON
    case GreaterOrEqual => PREC_COMPARISON
    case LessThan => PREC_COMPARISON
    case LessOrEqual => PREC_COMPARISON
    case AndWord => PREC_AND
    case OrWord => PREC_OR
    case _ => PREC_NONE
  }

  predicate IsBinaryToken(t: Token) {
    t in {Minus, Plus, Star, Slash, Percent, BangEqual, EqualEqual, GreaterThan, GreaterOrEqual, LessThan, LessOrEqual}
  }

  function BinaryOf(t: Token): BinOp
    requires IsBinaryToken(t)
  {
    match t
    case Minus => Subtract
    case Plus => Add
    case Star => Multiply
    case Slash => Divide
    case Percent => Modulo
    case BangEqual => NotEqual
    case EqualEqual => Equal
    case GreaterThan => Greater
    case GreaterOrEqual => GreaterEqual
    case LessThan => Less
    case _ => LessEqual
  }

  predicate IsUpdateToken(t: Token) {
    t in {PlusEqual, MinusEqual, StarEqual, SlashEqual, PercentEqual}
  }

  function UpdateOf(t: Token): BinOp
    requires IsUpdateToken(t)
  {
    match t
    case PlusEqual => Add
    case MinusEqual => Subtract
    case StarEqual => Multiply
    case SlashEqual => Divide
    case _ => Modulo
  }

  predicate IsLiteralToken(t: Token) {
    t.NumberToken? || t in {TrueWord, FalseWord, NilWord}
  }

  function LiteralOf(t: Token): Literal
    requires IsLiteralToken(t)
  {
    match t
    case TrueWord => LitTrue
    case FalseWord => LitFalse
    case NumberToken(r) => LitNumber(r)
    case _ => LitNil
  }
}
