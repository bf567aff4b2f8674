/** The code each construct stands for, as a function of its place: jumps go where the structure says. */
module Codegen {
  import opened Options
  import opened Values
  import opened Syntax
  import opened Bytecode

  /** A compile-time variable; depth -1 marks one whose initializer is still being compiled. */
  datatype Local = Local(name: Name, depth: int)

  type Locals = seq<Local>

  const MAX_LOCALS: nat := 256

  /** Slot of the innermost variable named `x`, or -1. */
  function Resolve(locals: Locals, x: Name): (i: int)
    ensures -1 <= i < |locals|
    ensures i >= 0 ==> locals[i].name == x
  {
    if locals == [] then -1
    else if locals[|locals| - 1].name == x then |locals| - 1
    else Resolve(locals[..|locals| - 1], x)
  }

  /** No later variable has that name. */
  lemma {:induction false} ResolveIsInnermost(locals: Locals, x: Name)
    ensures forall j :: Resolve(locals, x) < j < |locals| ==> locals[j].name != x
  {
    if locals != [] && locals[|locals| - 1].name != x {
      ResolveIsInnermost(locals[..|locals| - 1], x);
      assert forall j :: 0 <= j < |locals| - 1 ==> locals[..|locals| - 1][j] == locals[j];
    }
  }

  predicate Readable(locals: Locals, x: Name) {
    Resolve(locals, x) >= 0 && locals[Resolve(locals, x)].depth != -1
  }

  function Slot(locals: Locals, x: Name): byte {
    if Resolve(locals, x) < 0 then 0 else Resolve(locals, x) % 256
  }

  function LoadCode(locals: Locals, x: Name): Code {
    [GET_LOCAL, Slot(locals, x), 0]
  }

  function StoreCode(locals: Locals, x: Name): Code {
    [SET_LOCAL, Slot(locals, x), 0]
  }

  function OperatorCode(op: BinOp): Code {
    match op
    case Equal => [EQUAL]
    case NotEqual => [EQUAL, NOT]
    case Greater => [GREATER]
    case GreaterEqual => [LESS, NOT]
    case Less => [LESS]
    case LessEqual => [GREATER, NOT]
    case Add => [ADD]
    case Subtract => [SUBTRACT]
    case Multiply => [MULTIPLY]
    case Divide => [DIVIDE]
    case Modulo => [MODULO]
  }

  /** A literal when `k` constants are already in the pool. */
  function LiteralCode(l: Literal, k: nat): Code {
    match l
    case LitNil => [NIL]
    case LitTrue => [TRUE]
    case LitFalse => [FALSE]
    case LitNumber(r) =>
      if IsInt32(r) then [IMMI] + I32(r.Floor)
      else ConstantCode(if k > UINT16_MAX then 0 else k)
  }

  function ConstantCode(index: nat): Code {
    if index < 256 then [CONST8, index] else [CONST16] + U16(index)
  }

  function PopCode(n: nat): Code {
    if n == 0 then [] else if n == 1 then [POP] else [POPN, n % 256]
  }

  function JumpCode(op: byte, distance: int): Code {
    [op] + U16(distance)
  }

  predicate Fits(distance: int) {
    distance <= UINT16_MAX
  }

  // ----- constants a construct adds to the pool -----

  function LiteralConstants(l: Literal): seq<Num> {
    if l.LitNumber? && !IsInt32(l.r) then [Fin(l.r)] else []
  }

  function ExprConstants(e: Expr): seq<Num> {
    match e
    case Lit(l) => LiteralConstants(l)
    case Var(_) => []
    case Set(_, v) => ExprConstants(v)
    case Update(_, _, v) => ExprConstants(v)
    case Negate(x) => ExprConstants(x)
    case Not(x) => ExprConstants(x)
    case Binary(_, l, r) => ExprConstants(l) + ExprConstants(r)
    case And(l, r) => ExprConstants(l) + ExprConstants(r)
    case Or(l, r) => ExprConstants(l) + ExprConstants(r)
  }

  function MaybeConstants(e: Option<Expr>): seq<Num> {
    if e.Some? then ExprConstants(e.value) else []
  }

  function InitConstants(i: ForInit): seq<Num> {
    match i
    case NoInit => []
    case InitVar(_, v) => MaybeConstants(v)
    case InitExpr(e) => ExprConstants(e)
  }

  function StmtConstants(s: Stmt): seq<Num> {
    match s
    case Eval(e) => ExprConstants(e)
    case Block(ds) => DeclsConstants(ds)
    case If(c, t, e) => ExprConstants(c) + StmtConstants(t) + (if e.Some? then StmtConstants(e.value) else [])
    case While(c, b) => ExprConstants(c) + StmtConstants(b)
    case For(init, test, inc, b) =>
      InitConstants(init) + (MaybeConstants(test) + MaybeConstants(inc) + StmtConstants(b))
    case Break => []
    case Continue => []
  }

  function DeclConstants(d: Decl): seq<Num> {
    match d
    case Declare(_, v) => MaybeConstants(v)
    case Do(s) => StmtConstants(s)
  }

  function DeclsConstants(ds: Decls): seq<Num> {
    match ds
    case End => []
    case More(d, rest) => DeclConstants(d) + DeclsConstants(rest)
  }

  function LoopConstants(test: Option<Expr>, inc: Option<Expr>, b: Stmt): seq<Num> {
    MaybeConstants(test) + (MaybeConstants(inc) + StmtConstants(b))
  }

  // ----- expressions -----

  /** Code of `e`; it does not depend on where it is placed. */
  function ExprCode(e: Expr, locals: Locals, k: nat): Code {
    match e
    case Lit(l) => LiteralCode(l, k)
    case Var(x) => LoadCode(locals, x)
    case Set(x, v) => ExprCode(v, locals, k) + StoreCode(locals, x)
    case Update(op, x, v) => LoadCode(locals, x) + (ExprCode(v, locals, k) + (OperatorCode(op) + StoreCode(locals, x)))
    case Negate(x) => ExprCode(x, locals, k) + [NEGATE]
    case Not(x) => ExprCode(x, locals, k) + [NOT]
    case Binary(op, l, r) =>
      ExprCode(l, locals, k) + (ExprCode(r, locals, k + |ExprConstants(l)|) + OperatorCode(op))
    case And(l, r) =>
      var rc := ExprCode(r, locals, k + |ExprConstants(l)|);
      ExprCode(l, locals, k) + (JumpCode(JUMP_IF_FALSE, |rc| + 1) + ([POP] + rc))
    case Or(l, r) =>
      var rc := ExprCode(r, locals, k + |ExprConstants(l)|);
      ExprCode(l, locals, k) + (JumpCode(JUMP_IF_FALSE, 3) + (JumpCode(JUMP, |rc| + 1) + ([POP] + rc)))
  }

  /** Every variable is readable, every jump fits in 16 bits and the constant pool does not overflow. */
  predicate ExprOk(e: Expr, locals: Locals, k: nat) {
    match e
    case Lit(l) => LiteralConstants(l) == [] || k <= UINT16_MAX
    case Var(x) => Readable(locals, x)
    case Set(x, v) => Readable(locals, x) && ExprOk(v, locals, k)
    case Update(_, x, v) => Readable(locals, x) && ExprOk(v, locals, k)
    case Negate(x) => ExprOk(x, locals, k)
    case Not(x) => ExprOk(x, locals, k)
    case Binary(_, l, r) => ExprOk(l, locals, k) && ExprOk(r, locals, k + |ExprConstants(l)|)
    case And(l, r) =>
      && ExprOk(l, locals, k) && ExprOk(r, locals, k + |ExprConstants(l)|)
      && Fits(|ExprCode(r, locals, k + |ExprConstants(l)|)| + 1)
    case Or(l, r) =>
      && ExprOk(l, locals, k) && ExprOk(r, locals, k + |ExprConstants(l)|)
      && Fits(|ExprCode(r, locals, k + |ExprConstants(l)|)| + 1)
  }

  // ----- statements -----

  /** Compile-time surroundings of a statement; `loopDepth` is the scope depth of the innermost loop. */
  datatype Scope = Scope(locals: Locals, depth: nat, loopDepth: int)

  /** Places a jump out of a statement may go to; outside every loop `cont` is negative. */
  datatype Targets = Targets(brk: int, cont: int)

  const NOWHERE: Targets := Targets(0, -1)

  /** How many of the innermost variables live deeper than `d`. */
  function Deeper(locals: Locals, d: int): (n: nat)
    ensures n <= |locals|
  {
    if locals == [] || locals[|locals| - 1].depth <= d then 0 else 1 + Deeper(locals[..|locals| - 1], d)
  }

  function Starting(sc: Scope, x: Name): Locals {
    sc.locals + [Local(x, -1)]
  }

  function Declared(sc: Scope, x: Name): Scope {
    sc.(locals := sc.locals + [Local(x, sc.depth)])
  }

  function InitialCode(v: Option<Expr>, locals: Locals, k: nat): Code {
    if v.Some? then ExprCode(v.value, locals, k) else [NIL]
  }

  predicate InitialOk(v: Option<Expr>, locals: Locals, k: nat) {
    v.Some? ==> ExprOk(v.value, locals, k)
  }

  /** Is `x` already declared in the innermost scope? */
  predicate Duplicate(locals: Locals, depth: int, x: Name) {
    if locals == [] then false
    else
      var l := locals[|locals| - 1];
      if l.depth != -1 && l.depth < depth then false
      else l.name == x || Duplicate(locals[..|locals| - 1], depth, x)
  }

  predicate DeclareOk(x: Name, v: Option<Expr>, sc: Scope, k: nat) {
    !Duplicate(sc.locals, sc.depth, x) && |sc.locals| < MAX_LOCALS && InitialOk(v, Starting(sc, x), k)
  }

  function AfterDecl(d: Decl, sc: Scope): Scope {
    if d.Declare? then Declared(sc, d.x) else sc
  }

  function AfterDecls(ds: Decls, sc: Scope): Scope {
    match ds
    case End => sc
    case More(d, rest) => AfterDecls(rest, AfterDecl(d, sc))
  }

  function AfterInit(i: ForInit, sc: Scope): Scope {
    if i.InitVar? then Declared(sc, i.x) else sc
  }

  function InitCode(i: ForInit, sc: Scope, k: nat): Code {
    match i
    case NoInit => []
    case InitVar(x, v) => InitialCode(v, Starting(sc, x), k)
    case InitExpr(e) => ExprCode(e, sc.locals, k) + [POP]
  }

  predicate InitOk(i: ForInit, sc: Scope, k: nat) {
    match i
    case NoInit => true
    case InitVar(x, v) => DeclareOk(x, v, sc, k)
    case InitExpr(e) => ExprOk(e, sc.locals, k)
  }

  function Inner(sc: Scope): Scope {
    sc.(depth := sc.depth + 1)
  }

  function InLoop(sc: Scope): Scope {
    sc.(loopDepth := sc.depth)
  }

  /** Discards the variables of `after` that the surrounding scope does not have. */
  function LeaveCode(after: Scope, outer: Scope): Code {
    PopCode(Deeper(after.locals, outer.depth))
  }

  function BreakCode(sc: Scope, pc: nat, brk: int): Code {
    var pops := PopCode(Deeper(sc.locals, sc.loopDepth));
    pops + JumpCode(JUMP, brk - (pc + |pops| + 3))
  }

  function ContinueCode(sc: Scope, pc: nat, cont: int): Code {
    var pops := PopCode(Deeper(sc.locals, sc.loopDepth));
    pops + JumpCode(LOOP, pc + |pops| + 3 - cont)
  }

  /** Code of `s` placed at `pc`, with `k` constants in the pool, inside a loop with targets `to`. */
  function StmtCode(s: Stmt, sc: Scope, pc: nat, k: nat, to: Targets): Code
    decreases s, 1
  {
    match s
    case Eval(e) => ExprCode(e, sc.locals, k) + [POP]
    case Block(ds) => DeclsCode(ds, Inner(sc), pc, k, to) + LeaveCode(AfterDecls(ds, Inner(sc)), sc)
    case If(_, _, _) => IfCode(s, sc, pc, k, to)
    case While(c, b) => LoopCode(Some(c), None, b, sc, pc, k)
    case For(init, test, inc, b) =>
      var ic := InitCode(init, Inner(sc), k);
      var sc1 := AfterInit(init, Inner(sc));
      ic + (LoopCode(test, inc, b, sc1, pc + |ic|, k + |InitConstants(init)|) + LeaveCode(sc1, sc))
    case Break => BreakCode(sc, pc, to.brk)
    case Continue => ContinueCode(sc, pc, to.cont)
  }

  function ElseCode(e: Option<Stmt>, sc: Scope, pc: nat, k: nat, to: Targets): Code
    decreases e, 1
  {
    if e.Some? then StmtCode(e.value, sc, pc, k, to) else []
  }

  function IfCode(s: Stmt, sc: Scope, pc: nat, k: nat, to: Targets): Code
    requires s.If?
    decreases s, 0
  {
    var cc := ExprCode(s.cond, sc.locals, k);
    var kt := k + |ExprConstants(s.cond)|;
    var tc := StmtCode(s.thenBranch, sc, pc + |cc| + 4, kt, to);
    var ec := ElseCode(s.elseBranch, sc, pc + |cc| + |tc| + 8, kt + |StmtConstants(s.thenBranch)|, to);
    cc + (JumpCode(JUMP_IF_FALSE, |tc| + 4) + ([POP] + (tc + (JumpCode(JUMP, |ec| + 1) + ([POP] + ec)))))
  }

  /** The layout of a loop: test, increment clause, body, jump back, exit. */
  datatype Layout = Layout(testCode: Code, incCode: Code, testSize: nat, incSize: nat, bodySize: nat, kBody: nat)

  function LoopLayout(test: Option<Expr>, inc: Option<Expr>, b: Stmt, sc: Scope, k: nat): Layout
    decreases b, 2
  {
    var tc := if test.Some? then ExprCode(test.value, sc.locals, k) else [];
    var ki := k + |MaybeConstants(test)|;
    var ic := if inc.Some? then ExprCode(inc.value, sc.locals, ki) else [];
    var kb := ki + |MaybeConstants(inc)|;
    Layout(tc, ic, if test.Some? then |tc| + 4 else 0, if inc.Some? then |ic| + 7 else 0,
           |StmtCode(b, InLoop(sc), 0, kb, NOWHERE)|, kb)
  }

  function BodyPc(lay: Layout, pc: nat): nat {
    pc + lay.testSize + lay.incSize
  }

  /** Where `continue` goes: the increment clause if there is one, else the test. */
  function ContinuePc(lay: Layout, inc: Option<Expr>, pc: nat): nat {
    if inc.Some? then pc + lay.testSize + 3 else pc
  }

  /** Where the loop ends, and `break` goes. */
  function EndPc(lay: Layout, test: Option<Expr>, pc: nat): nat {
    BodyPc(lay, pc) + lay.bodySize + 3 + (if test.Some? then 1 else 0)
  }

  function LoopTargets(lay: Layout, test: Option<Expr>, inc: Option<Expr>, pc: nat): Targets {
    Targets(EndPc(lay, test, pc), ContinuePc(lay, inc, pc))
  }

  function TestPart(lay: Layout, test: Option<Expr>): Code {
    if test.None? then []
    else lay.testCode + (JumpCode(JUMP_IF_FALSE, 1 + lay.incSize + lay.bodySize + 3) + [POP])
  }

  function IncPart(lay: Layout, inc: Option<Expr>): Code {
    if inc.None? then []
    else JumpCode(JUMP, |lay.incCode| + 4) + (lay.incCode + ([POP] + JumpCode(LOOP, lay.testSize + lay.incSize)))
  }

  function BackPart(lay: Layout, test: Option<Expr>, inc: Option<Expr>, pc: nat): Code {
    JumpCode(LOOP, BodyPc(lay, pc) + lay.bodySize + 3 - ContinuePc(lay, inc, pc)) + (if test.Some? then [POP] else [])
  }

  function LoopCode(test: Option<Expr>, inc: Option<Expr>, b: Stmt, sc: Scope, pc: nat, k: nat): Code
    decreases b, 3
  {
    var lay := LoopLayout(test, inc, b, sc, k);
    TestPart(lay, test) + (IncPart(lay, inc) +
      (StmtCode(b, InLoop(sc), BodyPc(lay, pc), lay.kBody, LoopTargets(lay, test, inc, pc))
       + BackPart(lay, test, inc, pc)))
  }

  function DeclCode(d: Decl, sc: Scope, pc: nat, k: nat, to: Targets): Code
    decreases d, 0
  {
    match d
    case Declare(x, v) => InitialCode(v, Starting(sc, x), k)
    case Do(s) => StmtCode(s, sc, pc, k, to)
  }

  function DeclsCode(ds: Decls, sc: Scope, pc: nat, k: nat, to: Targets): Code
    decreases ds, 0
  {
    match ds
    case End => []
    case More(d, rest) =>
      var dc := DeclCode(d, sc, pc, k, to);
      dc + DeclsCode(rest, AfterDecl(d, sc), pc + |dc|, k + |DeclConstants(d)|, to)
  }

  // ----- when a statement compiles without error -----

  predicate StmtOk(s: Stmt, sc: Scope, pc: nat, k: nat, to: Targets)
    decreases s, 0
  {
    match s
    case Eval(e) => ExprOk(e, sc.locals, k)
    case Block(ds) => DeclsOk(ds, Inner(sc), pc, k, to)
    case If(c, t, e) =>
      var n := |ExprCode(c, sc.locals, k)|;
      var kt := k + |ExprConstants(c)|;
      var m := |StmtCode(t, sc, pc + n + 4, kt, to)|;
      var ke := kt + |StmtConstants(t)|;
      && ExprOk(c, sc.locals, k) && StmtOk(t, sc, pc + n + 4, kt, to)
      && (e.Some? ==> StmtOk(e.value, sc, pc + n + m + 8, ke, to))
      && Fits(m + 4) && Fits(|ElseCode(e, sc, pc + n + m + 8, ke, to)| + 1)
    case While(c, b) => LoopOk(Some(c), None, b, sc, pc, k)
    case For(init, test, inc, b) =>
      && InitOk(init, Inner(sc), k)
      && LoopOk(test, inc, b, AfterInit(init, Inner(sc)), pc + |InitCode(init, Inner(sc), k)|,
           k + |InitConstants(init)|)
    case Break => to.cont >= 0 && Fits(to.brk - (pc + |BreakCode(sc, pc, to.brk)|))
    case Continue => to.cont >= 0 && Fits(pc + |ContinueCode(sc, pc, to.cont)| - to.cont)
  }

  predicate LoopOk(test: Option<Expr>, inc: Option<Expr>, b: Stmt, sc: Scope, pc: nat, k: nat)
    decreases b, 1
  {
    var lay := LoopLayout(test, inc, b, sc, k);
    && InitialOk(test, sc.locals, k) && InitialOk(inc, sc.locals, k + |MaybeConstants(test)|)
    && StmtOk(b, InLoop(sc), BodyPc(lay, pc), lay.kBody, LoopTargets(lay, test, inc, pc))
    && (test.Some? ==> Fits(1 + lay.incSize + lay.bodySize + 3))
    && (inc.Some? ==> Fits(|lay.incCode| + 4) && Fits(lay.testSize + lay.incSize))
    && Fits(BodyPc(lay, pc) + lay.bodySize + 3 - ContinuePc(lay, inc, pc))
  }

  predicate DeclOk(d: Decl, sc: Scope, pc: nat, k: nat, to: Targets)
    decreases d, 0
  {
    match d
    case Declare(x, v) => DeclareOk(x, v, sc, k)
    case Do(s) => StmtOk(s, sc, pc, k, to)
  }

  predicate DeclsOk(ds: Decls, sc: Scope, pc: nat, k: nat, to: Targets)
    decreases ds, 0
  {
    match ds
    case End => true
    case More(d, rest) =>
      && DeclOk(d, sc, pc, k, to)
      && DeclsOk(rest, AfterDecl(d, sc), pc + |DeclCode(d, sc, pc, k, to)|, k + |DeclConstants(d)|, to)
  }

  // ----- whole scripts -----

  /** A script starts with one variable, the receiver, outside any loop. */
  const TOP: Scope := Scope([Local("this", 0)], 0, -1)

  function ScriptCode(ds: Decls): Chunk {
    Chunk(DeclsCode(ds, TOP, 0, 0, NOWHERE) + [NIL, RETURN], DeclsConstants(ds))
  }

  predicate ScriptOk(ds: Decls) {
    DeclsOk(ds, TOP, 0, 0, NOWHERE)
  }

  // ----- sizes do not depend on places or targets -----

  lemma {:induction false} StmtSize(s: Stmt, sc: Scope, pc: nat, pc': nat, k: nat, to: Targets, to': Targets)
    ensures |StmtCode(s, sc, pc, k, to)| == |StmtCode(s, sc, pc', k, to')|
    decreases s, 1
  {
    hide ExprCode, IfCode, LoopCode, DeclsCode, BreakCode, ContinueCode;
    match s
    case Block(ds) => DeclsSize(ds, Inner(sc), pc, pc', k, to, to');
    case If(_, _, _) => IfSize(s, sc, pc, pc', k, to, to');
    case While(c, b) => LoopSize(Some(c), None, b, sc, pc, pc', k);
    case For(init, test, inc, b) =>
      var n := |InitCode(init, Inner(sc), k)|;
      LoopSize(test, inc, b, AfterInit(init, Inner(sc)), pc + n, pc' + n, k + |InitConstants(init)|);
    case Break => BreakSize(sc, pc, pc', to.brk, to'.brk);
    case Continue => ContinueSize(sc, pc, pc', to.cont, to'.cont);
    case Eval(_) =>
  }

  lemma BreakSize(sc: Scope, pc: nat, pc': nat, brk: int, brk': int)
    ensures |BreakCode(sc, pc, brk)| == |BreakCode(sc, pc', brk')|
  {
  }

  lemma ContinueSize(sc: Scope, pc: nat, pc': nat, cont: int, cont': int)
    ensures |ContinueCode(sc, pc, cont)| == |ContinueCode(sc, pc', cont')|
  {
  }

  lemma {:induction false} IfSize(s: Stmt, sc: Scope, pc: nat, pc': nat, k: nat, to: Targets, to': Targets)
    requires s.If?
    ensures |IfCode(s, sc, pc, k, to)| == |IfCode(s, sc, pc', k, to')|
    decreases s, 0
  {
    hide ExprCode, StmtCode;
    var n := |ExprCode(s.cond, sc.locals, k)|;
    var kt := k + |ExprConstants(s.cond)|;
    StmtSize(s.thenBranch, sc, pc + n + 4, pc' + n + 4, kt, to, to');
    var m := |StmtCode(s.thenBranch, sc, pc + n + 4, kt, to)|;
    if s.elseBranch.Some? {
      StmtSize(s.elseBranch.value, sc, pc + n + m + 8, pc' + n + m + 8, kt + |StmtConstants(s.thenBranch)|, to, to');
    }
  }

  lemma {:induction false} LoopSize(
    test: Option<Expr>, inc: Option<Expr>, b: Stmt, sc: Scope, pc: nat, pc': nat, k: nat
  )
    ensures |LoopCode(test, inc, b, sc, pc, k)| == |LoopCode(test, inc, b, sc, pc', k)|
    decreases b, 2
  {
    hide ExprCode, StmtCode;
    var lay := LoopLayout(test, inc, b, sc, k);
    StmtSize(b, InLoop(sc), BodyPc(lay, pc), BodyPc(lay, pc'), lay.kBody,
             LoopTargets(lay, test, inc, pc), LoopTargets(lay, test, inc, pc'));
  }

  lemma {:induction false} DeclsSize(ds: Decls, sc: Scope, pc: nat, pc': nat, k: nat, to: Targets, to': Targets)
    ensures |DeclsCode(ds, sc, pc, k, to)| == |DeclsCode(ds, sc, pc', k, to')|
    decreases ds, 0
  {
    hide ExprCode, StmtCode;
    match ds
    case End =>
    case More(d, rest) =>
      if d.Do? {
        StmtSize(d.s, sc, pc, pc', k, to, to');
      }
      var n := |DeclCode(d, sc, pc, k, to)|;
      DeclsSize(rest, AfterDecl(d, sc), pc + n, pc' + n, k + |DeclConstants(d)|, to, to');
  }

  /** Where a loop really ends. */
  lemma LoopEndsAtEndPc(test: Option<Expr>, inc: Option<Expr>, b: Stmt, sc: Scope, pc: nat, k: nat)
    ensures pc + |LoopCode(test, inc, b, sc, pc, k)| == EndPc(LoopLayout(test, inc, b, sc, k), test, pc)
    ensures
      var lay := LoopLayout(test, inc, b, sc, k);
      |StmtCode(b, InLoop(sc), BodyPc(lay, pc), lay.kBody, LoopTargets(lay, test, inc, pc))| == lay.bodySize
  {
    hide ExprCode, StmtCode;
    var lay := LoopLayout(test, inc, b, sc, k);
    StmtSize(b, InLoop(sc), BodyPc(lay, pc), 0, lay.kBody, LoopTargets(lay, test, inc, pc), NOWHERE);
  }

  // ----- unfolding one construct -----

  /** The pieces of an `if`, with their places and sizes. */
  datatype IfLayout = IfLayout(condSize: nat, kThen: nat, thenSize: nat, kElse: nat, elseSize: nat)

  ghost function LayoutIf(s: Stmt, sc: Scope, pc: nat, k: nat, to: Targets): IfLayout
    requires s.If?
  {
    var n := |ExprCode(s.cond, sc.locals, k)|;
    var kt := k + |ExprConstants(s.cond)|;
    var m := |StmtCode(s.thenBranch, sc, pc + n + 4, kt, to)|;
    var ke := kt + |StmtConstants(s.thenBranch)|;
    IfLayout(n, kt, m, ke, |ElseCode(s.elseBranch, sc, pc + n + m + 8, ke, to)|)
  }

  function ElseConstants(e: Option<Stmt>): seq<Num> {
    if e.Some? then StmtConstants(e.value) else []
  }

  predicate ElseOk(e: Option<Stmt>, sc: Scope, pc: nat, k: nat, to: Targets) {
    e.Some? ==> StmtOk(e.value, sc, pc, k, to)
  }

  lemma IfUnfolds(s: Stmt, sc: Scope, pc: nat, k: nat, to: Targets)
    requires s.If?
    ensures
      var lay := LayoutIf(s, sc, pc, k, to);
      && StmtCode(s, sc, pc, k, to) ==
         ExprCode(s.cond, sc.locals, k) + (JumpCode(JUMP_IF_FALSE, lay.thenSize + 4) + ([POP] +
           (StmtCode(s.thenBranch, sc, pc + lay.condSize + 4, lay.kThen, to) +
           (JumpCode(JUMP, lay.elseSize + 1) + ([POP] +
             ElseCode(s.elseBranch, sc, pc + lay.condSize + lay.thenSize + 8, lay.kElse, to))))))
      && StmtConstants(s) == ExprConstants(s.cond) + (StmtConstants(s.thenBranch) + ElseConstants(s.elseBranch))
    ensures
      var lay := LayoutIf(s, sc, pc, k, to);
      StmtOk(s, sc, pc, k, to) <==>
        && ExprOk(s.cond, sc.locals, k) && StmtOk(s.thenBranch, sc, pc + lay.condSize + 4, lay.kThen, to)
        && ElseOk(s.elseBranch, sc, pc + lay.condSize + lay.thenSize + 8, lay.kElse, to)
        && Fits(lay.thenSize + 4) && Fits(lay.elseSize + 1)
  {
    hide ExprCode, ExprOk, ExprConstants, JumpCode, Fits, ElseCode;
  }

  /** Where the variables deeper than `d` begin. */
  lemma {:induction false} DeeperCounts(locals: Locals, d: int, n: nat)
    requires n <= |locals|
    requires forall i :: 0 <= i < n ==> locals[i].depth <= d
    requires forall i :: n <= i < |locals| ==> locals[i].depth > d
    ensures Deeper(locals, d) == |locals| - n
  {
    if |locals| > n {
      DeeperCounts(locals[..|locals| - 1], d, n);
    }
  }

  /** Declarations add variables of the current scope and nothing else. */
  lemma {:induction false} AfterDeclsShape(ds: Decls, sc: Scope)
    ensures
      var after := AfterDecls(ds, sc);
      && after.depth == sc.depth && after.loopDepth == sc.loopDepth
      && |sc.locals| <= |after.locals| && after.locals[..|sc.locals|] == sc.locals
      && forall i :: |sc.locals| <= i < |after.locals| ==> after.locals[i].depth == sc.depth
  {
    if ds.More? {
      AfterDeclsShape(ds.rest, AfterDecl(ds.first, sc));
      var after, mid := AfterDecls(ds, sc), AfterDecl(ds.first, sc);
      assert after.locals[..|sc.locals|] == after.locals[..|mid.locals|][..|sc.locals|];
      assert forall i :: 0 <= i < |mid.locals| ==> after.locals[i] == after.locals[..|mid.locals|][i];
    }
  }
}
