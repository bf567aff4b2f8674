/** How operators bind, tier by tier: the parse of a chain of operators, found by splitting it at the weakest one. */
module Operators {
  import opened Values
  import opened Syntax
  import opened Grammar
  import opened Printing
  import Compiler
  import Emit

  /** The tiers of binary operators; 6 binds most strongly. */
  function Tier(t: Token): nat {
    if t.Star? || t.Slash? || t.Percent? then 6
    else if t.Plus? || t.Minus? then 5
    else if t.LessThan? || t.LessOrEqual? || t.GreaterThan? || t.GreaterOrEqual? then 4
    else if t.EqualEqual? || t.BangEqual? then 3
    else if t.AndWord? then 2
    else if t.OrWord? then 1
    else 0
  }

  predicate IsOperator(t: Token) {
    Tier(t) > 0
  }

  predicate ToTheRight(t: Token) {
    t.AndWord? || t.OrWord?
  }

  /** What an operator makes of its operands. */
  function Combined(t: Token, l: Expr, r: Expr): Expr {
    match t
    case Star => Binary(Multiply, l, r)
    case Slash => Binary(Divide, l, r)
    case Percent => Binary(Modulo, l, r)
    case Plus => Binary(Add, l, r)
    case Minus => Binary(Subtract, l, r)
    case LessThan => Binary(Less, l, r)
    case LessOrEqual => Binary(LessEqual, l, r)
    case GreaterThan => Binary(Greater, l, r)
    case GreaterOrEqual => Binary(GreaterEqual, l, r)
    case EqualEqual => Binary(Equal, l, r)
    case BangEqual => Binary(NotEqual, l, r)
    case AndWord => And(l, r)
    case _ => Or(l, r)
  }

  predicate IsAtom(t: Token) {
    t.NumberToken? || t.Identifier? || t in {TrueWord, FalseWord, NilWord}
  }

  function AtomTree(t: Token): Expr {
    match t
    case NumberToken(r) => Lit(LitNumber(r))
    case Identifier(x) => Var(x)
    case TrueWord => Lit(LitTrue)
    case FalseWord => Lit(LitFalse)
    case _ => Lit(LitNil)
  }

  /** An atom behind any number of `-` and `!`. */
  datatype Operand = Operand(prefixes: seq<Token>, atom: Token)

  predicate OperandOk(o: Operand) {
    IsAtom(o.atom) && forall i :: 0 <= i < |o.prefixes| ==> o.prefixes[i] == Minus || o.prefixes[i] == Bang
  }

  function OperandTree(o: Operand): Expr
    decreases |o.prefixes|
  {
    if o.prefixes == [] then AtomTree(o.atom)
    else
      var e := OperandTree(Operand(o.prefixes[1..], o.atom));
      if o.prefixes[0] == Minus then Negate(e) else Not(e)
  }

  function OperandTokens(o: Operand): Tokens {
    o.prefixes + [o.atom]
  }

  datatype Link = Link(op: Token, operand: Operand)

  predicate LinksOk(links: seq<Link>) {
    forall i :: 0 <= i < |links| ==> IsOperator(links[i].op) && OperandOk(links[i].operand)
  }

  /** `a s b t c ...` */
  function Chain(first: Operand, links: seq<Link>): Tokens
    decreases |links|
  {
    if links == [] then OperandTokens(first)
    else OperandTokens(first) + [links[0].op] + Chain(links[0].operand, links[1..])
  }

  /** The operator applied last: of the weakest tier, the last one, but of `and`s or `or`s the first. */
  predicate IsRoot(links: seq<Link>, i: nat)
    requires i < |links|
  {
    forall j :: 0 <= j < |links| && j != i ==>
      || Tier(links[j].op) > Tier(links[i].op)
      || (Tier(links[j].op) == Tier(links[i].op) && (if ToTheRight(links[i].op) then j > i else j < i))
  }

  function Root(links: seq<Link>): (i: nat)
    requires links != []
    ensures i < |links| && IsRoot(links, i)
  {
    if |links| == 1 then 0
    else
      var n := |links| - 1;
      var i := Root(links[..n]);
      assert forall j :: 0 <= j < n ==> links[..n][j] == links[j];
      var s, t := links[i].op, links[n].op;
      if Tier(t) < Tier(s) || (Tier(t) == Tier(s) && !ToTheRight(s)) then n else i
  }

  function Tree(first: Operand, links: seq<Link>): Expr
    decreases |links|
  {
    if links == [] then OperandTree(first)
    else
      var i := Root(links);
      Combined(links[i].op, Tree(first, links[..i]), Tree(links[i].operand, links[i + 1..]))
  }

  /** What comes after the chain does not extend it. */
  predicate Ends(rest: Tokens) {
    var t := Peek(rest);
    !IsOperator(t) && t !in {LeftParen, Token.Assign, PlusEqual, MinusEqual, StarEqual, SlashEqual, PercentEqual}
  }

  lemma TierIsPrecedence(t: Token)
    ensures IsOperator(t) ==> Precedence(t) == Tier(t) + 1
    ensures !IsOperator(t) && t != LeftParen ==> Precedence(t) == 0
  {
  }

  lemma EndsMayFollow(rest: Tokens)
    requires Ends(rest)
    ensures MayFollow(rest, PREC_ASSIGNMENT)
  {
    TierIsPrecedence(Peek(rest));
  }

  lemma {:induction false} OperandPrints(o: Operand, prec: nat)
    requires OperandOk(o) && prec <= PREC_UNARY
    ensures Printable(OperandTree(o)) && Print(OperandTree(o), prec) == OperandTokens(o)
    decreases |o.prefixes|
  {
    if o.prefixes == [] {
      assert OperandTokens(o) == [o.atom];
      AtomPrints(o.atom, prec);
    } else {
      hide Print, PrintBare;
      var inner := Operand(o.prefixes[1..], o.atom);
      OperandPrints(inner, PREC_UNARY);
      assert OperandTokens(o) == [o.prefixes[0]] + OperandTokens(inner);
      PrefixPrints(o.prefixes[0], OperandTree(inner), prec);
    }
  }

  lemma AtomPrints(t: Token, prec: nat)
    requires IsAtom(t) && prec <= PREC_UNARY
    ensures Printable(AtomTree(t)) && Print(AtomTree(t), prec) == [t]
  {
  }

  lemma PrefixPrints(t: Token, e: Expr, prec: nat)
    requires (t == Minus || t == Bang) && Printable(e) && prec <= PREC_UNARY
    ensures
      var whole := if t == Minus then Negate(e) else Not(e);
      Printable(whole) && Print(whole, prec) == [t] + Print(e, PREC_UNARY)
  {
  }

  lemma {:induction false} ChainSplits(first: Operand, links: seq<Link>, i: nat)
    requires i < |links|
    ensures Chain(first, links) == Chain(first, links[..i]) + [links[i].op] + Chain(links[i].operand, links[i + 1..])
    decreases |links|
  {
    if i == 0 {
      assert links[..0] == [];
    } else {
      ChainSplits(links[0].operand, links[1..], i - 1);
      assert links[1..][..i - 1] == links[..i][1..] && links[1..][i..] == links[i + 1..];
      assert links[..i][0] == links[0];
    }
  }

  lemma CombinedPrints(t: Token, l: Expr, r: Expr, prec: nat)
    requires IsOperator(t) && Printable(l) && Printable(r) && prec <= Tier(t) + 1
    ensures
      var p := Tier(t) + 1;
      && Printable(Combined(t, l, r))
      && Print(Combined(t, l, r), prec) ==
           Print(l, if ToTheRight(t) then p + 1 else p) + [t] + Print(r, if ToTheRight(t) then p else p + 1)
  {
    hide Print, PrintBare, Level, Tier, Combined;
    CombinedIs(t, l, r);
    TierIsPrecedence(t);
    PrintsBare(Combined(t, l, r), prec);
    BarePrints(Combined(t, l, r), l, r);
  }

  lemma CombinedIs(t: Token, l: Expr, r: Expr)
    requires IsOperator(t)
    ensures
      var e := Combined(t, l, r);
      && Level(e) == Tier(t) + 1 && (e.Binary? || e.And? || e.Or?) && e.left == l && e.right == r
      && (e.Binary? ==> BinaryToken(e.op) == t && !ToTheRight(t))
      && (e.And? ==> t == AndWord) && (e.Or? ==> t == OrWord)
  {
    hide Precedence, IsBinaryToken, BinaryOf, Tier, IsOperator;
    TierIsPrecedence(t);
    OperatorIsKnown(t);
    TierIsPrecedence(AndWord);
    if t.AndWord? || t.OrWord? {
      assert Level(Combined(t, l, r)) == Precedence(t) by { WordLevels(l, r); }
    }
  }

  lemma WordLevels(l: Expr, r: Expr)
    ensures Level(And(l, r)) == Precedence(AndWord) && Level(Or(l, r)) == Precedence(OrWord)
  {
  }

  lemma OperatorIsKnown(t: Token)
    requires IsOperator(t)
    ensures
      || t.Star? || t.Slash? || t.Percent? || t.Plus? || t.Minus? || t.LessThan? || t.LessOrEqual? || t.GreaterThan?
      || t.GreaterOrEqual? || t.EqualEqual? || t.BangEqual? || t.AndWord? || t.OrWord?
  {
  }

  lemma BarePrints(e: Expr, l: Expr, r: Expr)
    requires Printable(e) && ((e.Binary? || e.And? || e.Or?) && e.left == l && e.right == r)
    ensures e.Binary? ==> PrintBare(e) == Print(l, Level(e)) + [BinaryToken(e.op)] + Print(r, Level(e) + 1)
    ensures e.And? ==> PrintBare(e) == Print(l, PREC_AND + 1) + [AndWord] + Print(r, PREC_AND)
    ensures e.Or? ==> PrintBare(e) == Print(l, PREC_OR + 1) + [OrWord] + Print(r, PREC_OR)
  {
  }

  lemma PrintsBare(e: Expr, prec: nat)
    requires Printable(e) && Level(e) >= prec
    ensures Print(e, prec) == PrintBare(e)
  {
  }

  lemma {:induction false} ChainPrints(first: Operand, links: seq<Link>, prec: nat)
    requires OperandOk(first) && LinksOk(links) && prec <= PREC_UNARY
    requires forall j :: 0 <= j < |links| ==> Tier(links[j].op) + 1 >= prec
    ensures Printable(Tree(first, links)) && Print(Tree(first, links), prec) == Chain(first, links)
    decreases |links|
  {
    hide Print, PrintBare, Tier, Combined, Chain, IsRoot, Printable, OperandOk, IsOperator;
    if links == [] {
      assert Chain(first, links) == OperandTokens(first) by { NoLinks(first); }
      OperandPrints(first, prec);
    } else {
      var i := Root(links);
      var t, left, right := links[i].op, links[..i], links[i + 1..];
      var p := Tier(t) + 1;
      TierBound(t);
      AroundRoot(links, i);
      ChainPrints(first, left, if ToTheRight(t) then p + 1 else p);
      ChainPrints(links[i].operand, right, if ToTheRight(t) then p else p + 1);
      CombinedPrints(t, Tree(first, left), Tree(links[i].operand, right), prec);
      ChainSplits(first, links, i);
    }
  }

  lemma NoLinks(first: Operand)
    ensures Chain(first, []) == OperandTokens(first)
  {
  }

  /** Around the root all operators are at least as strong, and stronger where it does not group. */
  lemma AroundRoot(links: seq<Link>, i: nat)
    requires LinksOk(links) && i < |links| && IsRoot(links, i)
    ensures
      var t, left, right := links[i].op, links[..i], links[i + 1..];
      && LinksOk(left) && LinksOk(right) && IsOperator(t) && OperandOk(links[i].operand)
      && (forall j :: 0 <= j < |left| ==> Tier(left[j].op) >= Tier(t) && (ToTheRight(t) ==> Tier(left[j].op) > Tier(t)))
      && (forall j :: 0 <= j < |right| ==>
            Tier(right[j].op) >= Tier(t) && (!ToTheRight(t) ==> Tier(right[j].op) > Tier(t)))
  {
    hide Tier;
    var left, right := links[..i], links[i + 1..];
    assert forall j :: 0 <= j < |left| ==> left[j] == links[j];
    assert forall j :: 0 <= j < |right| ==> right[j] == links[i + 1 + j];
  }

  lemma TierBound(t: Token)
    ensures Tier(t) + 2 <= PREC_UNARY
  {
  }

  /** A chain of operators parses to the tree that splits it at the weakest operator, again and again; `-` and `!` in
      front of an operand bind more strongly than any of them. */
  lemma ChainParses(first: Operand, links: seq<Link>, rest: Tokens)
    requires OperandOk(first) && LinksOk(links) && Ends(rest)
    ensures ParseExpr(Chain(first, links) + rest, PREC_ASSIGNMENT) == Parsed(Tree(first, links), rest)
  {
    hide ParseExpr, Print, Tree, Chain;
    EndsMayFollow(rest);
    ChainPrints(first, links, PREC_ASSIGNMENT);
    ParsePrinted(Tree(first, links), rest);
  }

  /** Three operands: the second operator is applied first if its tier is stronger, or if both are `and` or both
      `or`. */
  lemma ThreeOperands(a: Operand, s: Token, b: Operand, t: Token, c: Operand, rest: Tokens)
    requires OperandOk(a) && OperandOk(b) && OperandOk(c) && IsOperator(s) && IsOperator(t) && Ends(rest)
    ensures
      var x, y, z := OperandTree(a), OperandTree(b), OperandTree(c);
      ParseExpr(OperandTokens(a) + [s] + OperandTokens(b) + [t] + OperandTokens(c) + rest, PREC_ASSIGNMENT) ==
        Parsed(if Tier(t) > Tier(s) || (s == t && ToTheRight(s)) then Combined(s, x, Combined(t, y, z))
               else Combined(t, Combined(s, x, y), z), rest)
  {
    hide ParseExpr, OperandTokens, OperandTree, Combined, Chain, Tree, Tier, Ends, OperandOk;
    ChainParses(a, [Link(s, b), Link(t, c)], rest);
    TwoLinksChain(a, s, b, t, c);
    TwoLinksTree(a, s, b, t, c);
  }

  lemma TwoLinksChain(a: Operand, s: Token, b: Operand, t: Token, c: Operand)
    ensures Chain(a, [Link(s, b), Link(t, c)]) == OperandTokens(a) + [s] + OperandTokens(b) + [t] + OperandTokens(c)
  {
    hide OperandTokens;
    var links := [Link(s, b), Link(t, c)];
    OneLink(b, t, c);
    assert links[1..] == [Link(t, c)];
    assert Chain(a, links) == OperandTokens(a) + [s] + Chain(b, [Link(t, c)]);
  }

  lemma TwoLinksTree(a: Operand, s: Token, b: Operand, t: Token, c: Operand)
    ensures
      var x, y, z := OperandTree(a), OperandTree(b), OperandTree(c);
      Tree(a, [Link(s, b), Link(t, c)]) ==
        if Tier(t) > Tier(s) || (s == t && ToTheRight(s)) then Combined(s, x, Combined(t, y, z))
        else Combined(t, Combined(s, x, y), z)
  {
    hide OperandTree, Combined;
    var links := [Link(s, b), Link(t, c)];
    assert Root(links) == 0 || Root(links) == 1;
    assert links[1..] == [Link(t, c)] && links[..1] == [Link(s, b)] && links[..0] == [] && links[2..] == [];
    OneLink(a, s, b);
    OneLink(b, t, c);
    NoLinksTree(a);
    NoLinksTree(c);
    SameTier(s, t);
  }

  lemma NoLinksTree(a: Operand)
    ensures Tree(a, []) == OperandTree(a)
  {
  }

  lemma SameTier(s: Token, t: Token)
    ensures Tier(s) == Tier(t) && ToTheRight(s) ==> s == t
  {
  }

  lemma OneLink(a: Operand, t: Token, b: Operand)
    ensures Tree(a, [Link(t, b)]) == Combined(t, OperandTree(a), OperandTree(b))
    ensures Chain(a, [Link(t, b)]) == OperandTokens(a) + [t] + OperandTokens(b)
  {
    var links := [Link(t, b)];
    assert Root(links) == 0 && links[..0] == [] && links[1..] == [];
  }

  /** So the code of a chain is the code of that tree. */
  lemma ChainCompiles(first: Operand, links: seq<Link>, rest: Tokens, em: Emit.Em)
    requires OperandOk(first) && LinksOk(links) && Ends(rest)
    ensures Compiler.CompileExpr(Chain(first, links) + rest, PREC_ASSIGNMENT, em) ==
      Compiler.Accept(Emit.EmitExpr(Tree(first, links), em), rest)
  {
    hide ParseExpr, Tree, Chain, Emit.EmitExpr;
    ChainParses(first, links, rest);
  }

  /** Assignments take the whole chain. */
  lemma AssignmentTakesChain(x: Name, first: Operand, links: seq<Link>, rest: Tokens)
    requires OperandOk(first) && LinksOk(links) && Ends(rest)
    ensures
      var ts, v := Chain(first, links) + rest, Tree(first, links);
      && ParseExpr([Identifier(x), Token.Assign] + ts, PREC_ASSIGNMENT) == Parsed(Set(x, v), rest)
      && ParseExpr([Identifier(x), PlusEqual] + ts, PREC_ASSIGNMENT) == Parsed(Update(Add, x, v), rest)
      && ParseExpr([Identifier(x), MinusEqual] + ts, PREC_ASSIGNMENT) == Parsed(Update(Subtract, x, v), rest)
      && ParseExpr([Identifier(x), StarEqual] + ts, PREC_ASSIGNMENT) == Parsed(Update(Multiply, x, v), rest)
      && ParseExpr([Identifier(x), SlashEqual] + ts, PREC_ASSIGNMENT) == Parsed(Update(Divide, x, v), rest)
      && ParseExpr([Identifier(x), PercentEqual] + ts, PREC_ASSIGNMENT) == Parsed(Update(Modulo, x, v), rest)
  {
    hide ParseExpr, ParsePrefix, ParseInfix, Tree, Chain, Ends;
    var v := Tree(first, links);
    ChainParses(first, links, rest);
    WholeAssignment(Set(x, v), Token.Assign, x, v, Chain(first, links) + rest, rest);
    WholeAssignment(Update(Add, x, v), PlusEqual, x, v, Chain(first, links) + rest, rest);
    WholeAssignment(Update(Subtract, x, v), MinusEqual, x, v, Chain(first, links) + rest, rest);
    WholeAssignment(Update(Multiply, x, v), StarEqual, x, v, Chain(first, links) + rest, rest);
    WholeAssignment(Update(Divide, x, v), SlashEqual, x, v, Chain(first, links) + rest, rest);
    WholeAssignment(Update(Modulo, x, v), PercentEqual, x, v, Chain(first, links) + rest, rest);
  }

  lemma WholeAssignment(e: Expr, t: Token, x: Name, v: Expr, body: Tokens, rest: Tokens)
    requires ParseExpr(body, PREC_ASSIGNMENT) == Parsed(v, rest) && Ends(rest)
    requires (t == Token.Assign && e == Set(x, v)) || (IsUpdateToken(t) && e == Update(UpdateOf(t), x, v))
    ensures ParseExpr([Identifier(x), t] + body, PREC_ASSIGNMENT) == Parsed(e, rest)
  {
    PrefixAssignment(e, t, x, v, body, rest);
    EndsMayFollow(rest);
    StopsAt(e, rest);
    ExprFromPrefix([Identifier(x), t] + body, e, rest);
  }

  lemma StopsAt(e: Expr, rest: Tokens)
    requires Ends(rest)
    ensures ParseInfix(e, rest, PREC_ASSIGNMENT) == Parsed(e, rest)
  {
    TierIsPrecedence(Peek(rest));
  }

  lemma ExprFromPrefix(ts: Tokens, e: Expr, rest: Tokens)
    requires ParsePrefix(ts, PREC_ASSIGNMENT) == Parsed(e, rest)
    requires ParseInfix(e, rest, PREC_ASSIGNMENT) == Parsed(e, rest) && Peek(rest) != Token.Assign
    ensures ParseExpr(ts, PREC_ASSIGNMENT) == Parsed(e, rest)
  {
    hide ParsePrefix, ParseInfix;
  }
}
