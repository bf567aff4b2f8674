/** Compiled statements do what structured execution means, and run forever exactly when it does. */
module Simulation {
  import opened Options
  import opened Values
  import opened Syntax
  import opened Bytecode
  import opened Codegen
  import opened Machine
  import opened Semantics
  import opened ExprSimulation

  // ----- execution keeps names -----

  /** `b` starts with the names of `a`. */
  ghost predicate Extends(a: Env, b: Env) {
    |a| <= |b| && forall i :: 0 <= i < |a| ==> a[i].name == b[i].name
  }

  ghost predicate EndsWithin(r: Ended, env: Env) {
    match r
    case Normal(e) => Extends(env, e)
    case Broke(e) => Extends(env, e)
    case Continued(e) => Extends(env, e)
    case _ => true
  }

  ghost predicate EndsWithSame(r: Ended, env: Env) {
    match r
    case Normal(e) => SameNames(e, env)
    case Broke(e) => SameNames(e, env)
    case Continued(e) => SameNames(e, env)
    case _ => true
  }

  lemma {:induction false} EvaluateKeepsNames(e: Expr, env: Env)
    ensures Evaluate(e, env).Value? ==> SameNames(Evaluate(e, env).env, env)
  {
    hide Apply, IsFalsey, NumNegate, Find;
    match e
    case Lit(_) =>
    case Var(_) =>
    case Set(_, v) => EvaluateKeepsNames(v, env);
    case Update(_, _, v) => EvaluateKeepsNames(v, env);
    case Negate(x) => EvaluateKeepsNames(x, env);
    case Not(x) => EvaluateKeepsNames(x, env);
    case Binary(_, l, r) =>
      EvaluateKeepsNames(l, env);
      if Evaluate(l, env).Value? { EvaluateKeepsNames(r, Evaluate(l, env).env); }
    case And(l, r) =>
      EvaluateKeepsNames(l, env);
      if Evaluate(l, env).Value? { EvaluateKeepsNames(r, Evaluate(l, env).env); }
    case Or(l, r) =>
      EvaluateKeepsNames(l, env);
      if Evaluate(l, env).Value? { EvaluateKeepsNames(r, Evaluate(l, env).env); }
  }

  lemma BindExtends(x: Name, value: Option<Expr>, env: Env)
    ensures EndsWithin(Bind(x, value, env), env)
    ensures
      var r := Bind(x, value, env);
      (r.Normal? || r.Raised? || r.Undefined?)
      && (r.Normal? ==> |r.env| == |env| + 1 && r.env[|env|].name == x && SameNames(r.env[..|env|], env))
  {
    if value.Some? {
      EvaluateKeepsNames(value.value, env);
    }
  }

  lemma InitializeExtends(init: ForInit, env: Env)
    ensures EndsWithin(Initialize(init, env), env)
    ensures Initialize(init, env).Normal? || Initialize(init, env).Raised? || Initialize(init, env).Undefined?
  {
    match init
    case NoInit =>
    case InitVar(x, v) => BindExtends(x, v, env);
    case InitExpr(e) => EvaluateKeepsNames(e, env);
  }

  /** A statement leaves as many bindings as it found, with the same names, however it ends. */
  lemma {:induction false} ExecuteKeepsNames(s: Stmt, env: Env, fuel: nat)
    ensures EndsWithSame(Execute(s, env, fuel), env)
    decreases fuel, s, 0
  {
    hide Evaluate, IsFalsey, ExecuteLoop, ExecuteAll, Initialize;
    match s
    case Eval(e) => EvaluateKeepsNames(e, env);
    case Block(ds) => ExecuteAllExtends(ds, env, fuel);
    case If(c, t, e) =>
      EvaluateKeepsNames(c, env);
      if Evaluate(c, env).Value? {
        ExecuteKeepsNames(t, Evaluate(c, env).env, fuel);
        if e.Some? {
          ExecuteKeepsNames(e.value, Evaluate(c, env).env, fuel);
        }
      }
    case While(c, b) => LoopKeepsNames(Some(c), None, b, env, fuel);
    case For(init, test, inc, b) =>
      InitializeExtends(init, env);
      if Initialize(init, env).Normal? {
        LoopKeepsNames(test, inc, b, Initialize(init, env).env, fuel);
      }
    case Break =>
    case Continue =>
  }

  lemma {:induction false} LoopKeepsNames(test: Option<Expr>, inc: Option<Expr>, b: Stmt, env: Env, fuel: nat)
    ensures EndsWithSame(ExecuteLoop(test, inc, b, env, fuel), env)
    decreases fuel, b, 2
  {
    hide Evaluate, IsFalsey, Execute, ExecuteNextTurn;
    if test.Some? {
      EvaluateKeepsNames(test.value, env);
    }
    if Test(test, env).Value? {
      var env1 := Test(test, env).env;
      ExecuteKeepsNames(b, env1, fuel);
      var r := Execute(b, env1, fuel);
      if r.Normal? || r.Continued? {
        NextTurnKeepsNames(test, inc, b, r.env, fuel);
      }
    }
  }

  lemma {:induction false} NextTurnKeepsNames(test: Option<Expr>, inc: Option<Expr>, b: Stmt, env: Env, fuel: nat)
    ensures EndsWithSame(ExecuteNextTurn(test, inc, b, env, fuel), env)
    decreases fuel, b, 1
  {
    hide Evaluate, ExecuteLoop;
    if fuel > 0 {
      if inc.Some? {
        EvaluateKeepsNames(inc.value, env);
        if Evaluate(inc.value, env).Value? {
          LoopKeepsNames(test, inc, b, Evaluate(inc.value, env).env, fuel - 1);
        }
      } else {
        LoopKeepsNames(test, inc, b, env, fuel - 1);
      }
    }
  }

  lemma {:induction false} ExecuteAllExtends(ds: Decls, env: Env, fuel: nat)
    ensures EndsWithin(ExecuteAll(ds, env, fuel), env)
    decreases fuel, ds, 0
  {
    hide Evaluate, Execute, Bind;
    match ds
    case End =>
    case More(d, rest) =>
      match d {
        case Declare(x, v) => BindExtends(x, v, env);
        case Do(s) => ExecuteKeepsNames(s, env, fuel);
      }
      if ExecuteOne(d, env, fuel).Normal? {
        ExecuteAllExtends(rest, ExecuteOne(d, env, fuel).env, fuel);
      }
  }

  // ----- scopes and slots -----

  /** Variables are listed outermost scope first, and none lives deeper than the current scope. */
  ghost predicate Layered(sc: Scope) {
    && 1 <= |sc.locals| <= MAX_LOCALS && sc.locals[0].depth == 0 && -1 <= sc.loopDepth <= sc.depth
    && (forall i :: 0 <= i < |sc.locals| ==> 0 <= sc.locals[i].depth <= sc.depth)
    && (forall i, j :: 0 <= i < j < |sc.locals| ==> sc.locals[i].depth <= sc.locals[j].depth)
  }

  /** The compile-time variables are exactly the run-time bindings. */
  ghost predicate SceneOk(env: Env, sc: Scope) {
    Layered(sc) && |env| == |sc.locals| && Agree(env, sc.locals)
  }

  /** How many variables survive a jump out of the innermost loop's body. */
  function LoopBase(sc: Scope): nat {
    |sc.locals| - Deeper(sc.locals, sc.loopDepth)
  }

  lemma AllShallow(sc: Scope)
    requires Layered(sc)
    ensures LoopBase(InLoop(sc)) == |sc.locals|
  {
    DeeperCounts(sc.locals, sc.depth, |sc.locals|);
  }

  lemma BaseAfterDecl(sc: Scope, x: Name)
    requires sc.loopDepth < sc.depth
    ensures LoopBase(Declared(sc, x)) == LoopBase(sc)
  {
    assert Declared(sc, x).locals[..|sc.locals|] == sc.locals;
  }

  /** The statement boundary invariant after a declaration. */
  lemma SceneAfterBind(env: Env, env': Env, sc: Scope, x: Name)
    requires SceneOk(env, sc) && |sc.locals| < MAX_LOCALS
    requires |env'| == |env| + 1 && env'[|env|].name == x && SameNames(env'[..|env|], env)
    ensures SceneOk(env', Declared(sc, x))
  {
    assert forall i :: 0 <= i < |env| ==> env'[i] == env'[..|env|][i];
  }

  lemma SceneKeeps(env: Env, env': Env, sc: Scope)
    requires SceneOk(env, sc) && SameNames(env', env)
    ensures SceneOk(env', sc)
  {
  }

  lemma SceneAgrees(env: Env, sc: Scope)
    requires SceneOk(env, sc)
    ensures Agree(env, sc.locals)
  {
  }

  // ----- how a statement's code ends -----

  /** `n` steps from `start`, the machine is where the outcome `r` says. */
  ghost predicate EndsAs(chunk: Chunk, start: State, n: nat, r: Ended, next: nat, base: nat, to: Targets, fuel: nat) {
    match r
    case Normal(env) => Goes(chunk, start, n, Running(next, Slots(env)))
    case Broke(env) =>
      && 0 <= to.cont && 0 <= to.brk && base <= |env|
      && Goes(chunk, start, n, Running(to.brk, Slots(env)[..base]))
    case Continued(env) =>
      to.cont >= 0 && base <= |env| && n >= 1 && Goes(chunk, start, n, Running(to.cont, Slots(env)[..base]))
    case Raised(e) => Goes(chunk, start, n, Faulted(e))
    case Undefined => false
    case Timeout => n >= fuel && Steps(chunk, start, n).Running?
  }

  lemma ChainEnds(
    chunk: Chunk, s: State, m: nat, t: State, n: nat, r: Ended, next: nat, base: nat, to: Targets, fuel: nat
  )
    requires Goes(chunk, s, m, t) && EndsAs(chunk, t, n, r, next, base, to, fuel)
    ensures EndsAs(chunk, s, m + n, r, next, base, to, fuel)
  {
    StepsAdd(chunk, s, m, n);
  }

  /** The code is in place and its surroundings are as they were at compile time. */
  ghost predicate StmtReady(chunk: Chunk, s: Stmt, env: Env, sc: Scope, pc: nat, k: nat, to: Targets) {
    && Placed(chunk.code, pc, StmtCode(s, sc, pc, k, to)) && Pooled(chunk.constants, k, StmtConstants(s))
    && StmtOk(s, sc, pc, k, to) && SceneOk(env, sc)
    && Within(to, sc, pc, |StmtCode(s, sc, pc, k, to)|)
  }

  /** Inside a loop, jumps out of it go back to `cont` or forward to `brk`. */
  ghost predicate Within(to: Targets, sc: Scope, pc: nat, size: nat) {
    to.cont >= 0 ==> to.cont <= pc && pc + size <= to.brk && sc.loopDepth >= 0
  }

  ghost predicate StmtRuns(
    chunk: Chunk, s: Stmt, env: Env, sc: Scope, pc: nat, k: nat, to: Targets, fuel: nat, n: nat
  ) {
    EndsAs(chunk, Running(pc, Slots(env)), n, Execute(s, env, fuel),
           pc + |StmtCode(s, sc, pc, k, to)|, LoopBase(sc), to, fuel)
  }

  // ----- expressions used by statements -----

  /** `n` steps from `start`, the expression has been evaluated to `r`, its value dropped, and the machine goes on at
      one of two places. */
  ghost predicate Decided(chunk: Chunk, r: Evaluated, env: Env, start: State, n: nat, ifTrue: nat, ifFalse: nat) {
    match r
    case Value(v, env') =>
      SameNames(env', env) && Goes(chunk, start, n, Running(if IsFalsey(v) then ifFalse else ifTrue, Slots(env')))
    case Raises(err) => Goes(chunk, start, n, Faulted(err))
    case Unbound => false
  }

  /** An expression whose value is dropped. */
  lemma RunAndDrop(chunk: Chunk, e: Expr, env: Env, locals: Locals, k: nat, pc: nat) returns (n: nat)
    requires ExprReady(chunk, e, env, locals, k, pc) && Placed(chunk.code, pc + |ExprCode(e, locals, k)|, [POP])
    ensures
      var next := pc + |ExprCode(e, locals, k)| + 1;
      Decided(chunk, Evaluate(e, env), env, Running(pc, Slots(env)), n, next, next)
  {
    hide Goes, Placed, Pooled, Slots, Evaluate, ExprCode, ExprOk, ExprConstants;
    n := ExprSimulates(chunk, e, env, locals, k, pc, []);
    assert Slots(env) + [] == Slots(env);
    match Evaluate(e, env) {
      case Value(v, env') =>
        assert Slots(env') + [] == Slots(env');
        var at := pc + |ExprCode(e, locals, k)|;
        StepPop(chunk, at, Slots(env'), v);
        Chain(chunk, Running(pc, Slots(env)), n, Running(at, Slots(env') + [v]), 1, Running(at + 1, Slots(env')));
        n := n + 1;
      case Raises(err) =>
    }
  }

  /** A condition, the jump over what it guards and the two pops of its value. */
  lemma RunTest(chunk: Chunk, e: Expr, env: Env, locals: Locals, k: nat, pc: nat, distance: nat) returns (n: nat)
    requires ExprReady(chunk, e, env, locals, k, pc) && Fits(distance)
    requires Placed(chunk.code, pc + |ExprCode(e, locals, k)|, JumpCode(JUMP_IF_FALSE, distance))
    requires Placed(chunk.code, pc + |ExprCode(e, locals, k)| + 3, [POP])
    requires Placed(chunk.code, pc + |ExprCode(e, locals, k)| + 3 + distance, [POP])
    ensures
      var at := pc + |ExprCode(e, locals, k)| + 4;
      Decided(chunk, Evaluate(e, env), env, Running(pc, Slots(env)), n, at, at + distance)
  {
    hide Goes, Placed, Pooled, Slots, Evaluate, ExprCode, ExprOk, ExprConstants, JumpCode, IsFalsey;
    n := ExprSimulates(chunk, e, env, locals, k, pc, []);
    assert Slots(env) + [] == Slots(env);
    match Evaluate(e, env) {
      case Value(v, env') =>
        assert Slots(env') + [] == Slots(env');
        var start, at := Running(pc, Slots(env)), pc + |ExprCode(e, locals, k)|;
        var pop := if IsFalsey(v) then at + 3 + distance else at + 3;
        StepJumpIfFalse(chunk, at, Slots(env'), v, distance);
        Chain(chunk, start, n, Running(at, Slots(env') + [v]), 1, Running(pop, Slots(env') + [v]));
        StepPop(chunk, pop, Slots(env'), v);
        Chain(chunk, start, n + 1, Running(pop, Slots(env') + [v]), 1, Running(pop + 1, Slots(env')));
        n := n + 2;
      case Raises(err) =>
    }
  }

  /** Discarding the `d` innermost slots. */
  lemma RunPops(chunk: Chunk, d: nat, pc: nat, stack: seq<Values.Value>) returns (n: nat)
    requires Placed(chunk.code, pc, PopCode(d)) && d <= |stack| && d < 256
    ensures Goes(chunk, Running(pc, stack), n, Running(pc + |PopCode(d)|, stack[..|stack| - d]))
  {
    hide Apply, NumNegate;
    n := if d == 0 then 0 else 1;
    if d == 0 {
      assert stack[..|stack|] == stack;
    } else {
      PlacedAt(chunk.code, pc, PopCode(d), 0);
      if d > 1 {
        PlacedAt(chunk.code, pc, PopCode(d), 1);
      }
      OneStep(chunk, pc, stack);
    }
  }

  // ----- statements -----

  lemma EvalSimulates(
    chunk: Chunk, e: Expr, env: Env, sc: Scope, pc: nat, k: nat, to: Targets, fuel: nat
  ) returns (n: nat)
    requires StmtReady(chunk, Eval(e), env, sc, pc, k, to)
    ensures StmtRuns(chunk, Eval(e), env, sc, pc, k, to, fuel, n)
  {
    hide Goes, Slots, Evaluate, ExprCode, ExprOk, ExprConstants, Pooled;
    PlacedSplit(chunk.code, pc, ExprCode(e, sc.locals, k), [POP]);
    n := RunAndDrop(chunk, e, env, sc.locals, k, pc);
  }

  /** Leaving the scope whose variables start at slot `kept`. */
  lemma RunLeave(chunk: Chunk, after: Scope, outer: Scope, env: Env, kept: nat, pc: nat) returns (n: nat)
    requires Placed(chunk.code, pc, LeaveCode(after, outer))
    requires SceneOk(env, after) && kept <= |env| && outer.depth >= 0
    requires forall i :: 0 <= i < kept ==> after.locals[i].depth <= outer.depth
    requires forall i :: kept <= i < |env| ==> after.locals[i].depth > outer.depth
    ensures Goes(chunk, Running(pc, Slots(env)), n, Running(pc + |LeaveCode(after, outer)|, Slots(env[..kept])))
  {
    hide Goes, Placed;
    DeeperCounts(after.locals, outer.depth, kept);
    n := RunPops(chunk, |env| - kept, pc, Slots(env));
    assert Slots(env)[..kept] == Slots(env[..kept]);
  }

  lemma BreakSimulates(chunk: Chunk, env: Env, sc: Scope, pc: nat, k: nat, to: Targets, fuel: nat) returns (n: nat)
    requires StmtReady(chunk, Break, env, sc, pc, k, to)
    ensures StmtRuns(chunk, Break, env, sc, pc, k, to, fuel, n)
  {
    hide Goes, Placed, PopCode, U16;
    var d := Deeper(sc.locals, sc.loopDepth);
    var pops := PopCode(d);
    var distance := to.brk - (pc + |pops| + 3);
    PlacedSplit(chunk.code, pc, pops, JumpCode(JUMP, distance));
    FirstIsShallow(sc);
    n := RunPops(chunk, d, pc, Slots(env));
    var rest := Slots(env)[..|env| - d];
    StepJump(chunk, pc + |pops|, rest, distance);
    Chain(chunk, Running(pc, Slots(env)), n, Running(pc + |pops|, rest), 1, Running(to.brk, rest));
    n := n + 1;
  }

  lemma ContinueSimulates(chunk: Chunk, env: Env, sc: Scope, pc: nat, k: nat, to: Targets, fuel: nat) returns (n: nat)
    requires StmtReady(chunk, Continue, env, sc, pc, k, to)
    ensures StmtRuns(chunk, Continue, env, sc, pc, k, to, fuel, n)
  {
    hide Goes, Placed, PopCode, U16;
    var d := Deeper(sc.locals, sc.loopDepth);
    var pops := PopCode(d);
    var distance := pc + |pops| + 3 - to.cont;
    PlacedSplit(chunk.code, pc, pops, JumpCode(LOOP, distance));
    FirstIsShallow(sc);
    n := RunPops(chunk, d, pc, Slots(env));
    var rest := Slots(env)[..|env| - d];
    StepLoop(chunk, pc + |pops|, rest, distance);
    Chain(chunk, Running(pc, Slots(env)), n, Running(pc + |pops|, rest), 1, Running(to.cont, rest));
    n := n + 1;
  }

  /** The slot of the script itself is never popped. */
  lemma FirstIsShallow(sc: Scope)
    requires Layered(sc) && sc.loopDepth >= 0
    ensures Deeper(sc.locals, sc.loopDepth) < 256
  {
    DeeperStops(sc.locals, sc.loopDepth);
  }

  lemma {:induction false} DeeperStops(locals: Locals, d: int)
    requires locals != [] && locals[0].depth <= d
    ensures Deeper(locals, d) < |locals|
  {
    if locals[|locals| - 1].depth > d {
      assert |locals| > 1;
      DeeperStops(locals[..|locals| - 1], d);
    }
  }

  // ----- declarations -----

  ghost predicate DeclReady(chunk: Chunk, d: Decl, env: Env, sc: Scope, pc: nat, k: nat, to: Targets) {
    && Placed(chunk.code, pc, DeclCode(d, sc, pc, k, to)) && Pooled(chunk.constants, k, DeclConstants(d))
    && DeclOk(d, sc, pc, k, to) && SceneOk(env, sc) && sc.loopDepth < sc.depth
    && Within(to, sc, pc, |DeclCode(d, sc, pc, k, to)|)
  }

  ghost predicate DeclRuns(
    chunk: Chunk, d: Decl, env: Env, sc: Scope, pc: nat, k: nat, to: Targets, fuel: nat, n: nat
  ) {
    var r := ExecuteOne(d, env, fuel);
    && EndsAs(chunk, Running(pc, Slots(env)), n, r, pc + |DeclCode(d, sc, pc, k, to)|, LoopBase(sc), to, fuel)
    && (r.Normal? ==> SceneOk(r.env, AfterDecl(d, sc)))
  }

  ghost predicate DeclsReady(chunk: Chunk, ds: Decls, env: Env, sc: Scope, pc: nat, k: nat, to: Targets) {
    && Placed(chunk.code, pc, DeclsCode(ds, sc, pc, k, to)) && Pooled(chunk.constants, k, DeclsConstants(ds))
    && DeclsOk(ds, sc, pc, k, to) && SceneOk(env, sc) && sc.loopDepth < sc.depth
    && Within(to, sc, pc, |DeclsCode(ds, sc, pc, k, to)|)
  }

  ghost predicate DeclsRuns(
    chunk: Chunk, ds: Decls, env: Env, sc: Scope, pc: nat, k: nat, to: Targets, fuel: nat, n: nat
  ) {
    var r := ExecuteAll(ds, env, fuel);
    && EndsAs(chunk, Running(pc, Slots(env)), n, r, pc + |DeclsCode(ds, sc, pc, k, to)|, LoopBase(sc), to, fuel)
    && (r.Normal? ==> SceneOk(r.env, AfterDecls(ds, sc)))
  }

  lemma DeclsUnfold(d: Decl, rest: Decls, sc: Scope, pc: nat, k: nat, to: Targets)
    requires DeclsOk(More(d, rest), sc, pc, k, to)
    ensures
      var at := pc + |DeclCode(d, sc, pc, k, to)|;
      var k2 := k + |DeclConstants(d)|;
      && DeclsCode(More(d, rest), sc, pc, k, to) ==
           DeclCode(d, sc, pc, k, to) + DeclsCode(rest, AfterDecl(d, sc), at, k2, to)
      && DeclsConstants(More(d, rest)) == DeclConstants(d) + DeclsConstants(rest)
      && DeclOk(d, sc, pc, k, to) && DeclsOk(rest, AfterDecl(d, sc), at, k2, to)
  {
    hide DeclCode, DeclConstants, DeclOk, AfterDecl;
  }

  lemma DeclsParts(chunk: Chunk, d: Decl, rest: Decls, env: Env, sc: Scope, pc: nat, k: nat, to: Targets)
    requires DeclsReady(chunk, More(d, rest), env, sc, pc, k, to)
    ensures DeclReady(chunk, d, env, sc, pc, k, to)
    ensures
      var at := pc + |DeclCode(d, sc, pc, k, to)|;
      var k2 := k + |DeclConstants(d)|;
      && Placed(chunk.code, at, DeclsCode(rest, AfterDecl(d, sc), at, k2, to))
      && Pooled(chunk.constants, k2, DeclsConstants(rest)) && DeclsOk(rest, AfterDecl(d, sc), at, k2, to)
      && |DeclsCode(More(d, rest), sc, pc, k, to)| ==
           |DeclCode(d, sc, pc, k, to)| + |DeclsCode(rest, AfterDecl(d, sc), at, k2, to)|
  {
    hide Placed, Pooled, DeclCode, DeclConstants, DeclOk, SceneOk, DeclsCode, DeclsOk, DeclsConstants, AfterDecl;
    DeclsUnfold(d, rest, sc, pc, k, to);
    var dc := DeclCode(d, sc, pc, k, to);
    PlacedSplit(chunk.code, pc, dc, DeclsCode(rest, AfterDecl(d, sc), pc + |dc|, k + |DeclConstants(d)|, to));
    PooledSplit(chunk.constants, k, DeclConstants(d), DeclsConstants(rest));
  }

  /** The initial value of a variable is computed right into its slot. */
  lemma RunInitial(chunk: Chunk, x: Name, v: Option<Expr>, env: Env, sc: Scope, pc: nat, k: nat) returns (n: nat)
    requires Placed(chunk.code, pc, InitialCode(v, Starting(sc, x), k)) && Pooled(chunk.constants, k, MaybeConstants(v))
    requires DeclareOk(x, v, sc, k) && SceneOk(env, sc)
    ensures
      var r := Bind(x, v, env);
      && EndsAs(chunk, Running(pc, Slots(env)), n, r, pc + |InitialCode(v, Starting(sc, x), k)|, 0, NOWHERE, 0)
      && (r.Normal? ==> SceneOk(r.env, Declared(sc, x)))
      && (r.Normal? || r.Raised?)
  {
    hide Goes, Placed, Pooled, Slots, Evaluate, ExprCode, ExprOk, ExprConstants;
    BindExtends(x, v, env);
    if v.None? {
      StepByteNil(chunk, pc, Slots(env));
      assert Slots(env + [Binding(x, Nil)]) == Slots(env) + [Nil] by { SlotsPush(env, Binding(x, Nil)); }
      n := 1;
    } else {
      n := ExprSimulates(chunk, v.value, env, Starting(sc, x), k, pc, []);
      assert Slots(env) + [] == Slots(env);
      match Evaluate(v.value, env) {
        case Value(w, env') =>
          assert Slots(env') + [] == Slots(env');
          SlotsPush(env', Binding(x, w));
        case Raises(_) =>
      }
    }
    if Bind(x, v, env).Normal? {
      SceneAfterBind(env, Bind(x, v, env).env, sc, x);
    }
  }

  lemma SlotsPush(env: Env, b: Binding)
    ensures Slots(env + [b]) == Slots(env) + [b.value]
  {
  }

  lemma StepByteNil(chunk: Chunk, pc: nat, stack: seq<Values.Value>)
    requires Placed(chunk.code, pc, [NIL])
    ensures Goes(chunk, Running(pc, stack), 1, Running(pc + 1, stack + [Nil]))
  {
    hide Apply, NumNegate;
    StepByte(chunk, NIL, pc, stack);
  }

  lemma {:induction false} DeclSimulates(
    chunk: Chunk, d: Decl, env: Env, sc: Scope, pc: nat, k: nat, to: Targets, fuel: nat
  )
    returns (n: nat)
    requires DeclReady(chunk, d, env, sc, pc, k, to)
    ensures DeclRuns(chunk, d, env, sc, pc, k, to, fuel, n)
    decreases fuel, d, 0
  {
    hide Goes, Placed, Pooled, Slots, Execute, StmtCode, StmtOk, StmtConstants, Bind, DeclareOk, InitialCode;
    hide MaybeConstants, SceneOk, LoopBase;
    match d
    case Declare(x, v) => n := RunInitial(chunk, x, v, env, sc, pc, k);
    case Do(s) =>
      n := StmtSimulates(chunk, s, env, sc, pc, k, to, fuel);
      ExecuteKeepsNames(s, env, fuel);
      if Execute(s, env, fuel).Normal? {
        SceneKeeps(env, Execute(s, env, fuel).env, sc);
      }
  }

  lemma {:induction false} DeclsSimulates(
    chunk: Chunk, ds: Decls, env: Env, sc: Scope, pc: nat, k: nat, to: Targets, fuel: nat
  )
    returns (n: nat)
    requires DeclsReady(chunk, ds, env, sc, pc, k, to)
    ensures DeclsRuns(chunk, ds, env, sc, pc, k, to, fuel, n)
    decreases fuel, ds, 0
  {
    hide Goes, Placed, Pooled, Slots, ExecuteOne, DeclCode, DeclOk, DeclConstants, SceneOk, LoopBase;
    match ds
    case End =>
      ZeroSteps(chunk, Running(pc, Slots(env)));
      n := 0;
    case More(d, rest) =>
      DeclsParts(chunk, d, rest, env, sc, pc, k, to);
      n := DeclSimulates(chunk, d, env, sc, pc, k, to, fuel);
      var r := ExecuteOne(d, env, fuel);
      if r.Normal? {
        var at, sc2 := pc + |DeclCode(d, sc, pc, k, to)|, AfterDecl(d, sc);
        if d.Declare? {
          BaseAfterDecl(sc, d.x);
        }
        var m := DeclsSimulates(chunk, rest, r.env, sc2, at, k + |DeclConstants(d)|, to, fuel);
        ChainEnds(chunk, Running(pc, Slots(env)), n, Running(at, Slots(r.env)), m, ExecuteAll(rest, r.env, fuel),
                  pc + |DeclsCode(ds, sc, pc, k, to)|, LoopBase(sc), to, fuel);
        n := n + m;
      }
  }

  // ----- blocks -----

  lemma ShallowPrefix(env: Env, sc: Scope, after: Scope)
    requires SceneOk(env, sc) && |sc.locals| <= |after.locals| && after.locals[..|sc.locals|] == sc.locals
    ensures forall i :: 0 <= i < |env| ==> after.locals[i].depth <= sc.depth
  {
    assert forall i :: 0 <= i < |env| ==> after.locals[i] == after.locals[..|sc.locals|][i];
  }

  /** Leaving a block changes nothing below the loop's own variables. */
  lemma LeaveKeepsEnds(
    chunk: Chunk, start: State, n: nat, r: Ended, next: nat, next': nat, base: nat, kept: nat, to: Targets, fuel: nat
  )
    requires EndsAs(chunk, start, n, r, next, base, to, fuel) && !r.Normal? && base <= kept
    ensures EndsAs(chunk, start, n, LeaveScope(r, kept), next', base, to, fuel)
  {
    hide Goes, Slots;
    match r
    case Broke(env) => if kept <= |env| { assert Slots(env)[..base] == Slots(env[..kept])[..base]; }
    case Continued(env) => if kept <= |env| { assert Slots(env)[..base] == Slots(env[..kept])[..base]; }
    case _ =>
  }

  lemma BlockParts(chunk: Chunk, ds: Decls, env: Env, sc: Scope, pc: nat, k: nat, to: Targets)
    requires StmtReady(chunk, Block(ds), env, sc, pc, k, to)
    ensures DeclsReady(chunk, ds, env, Inner(sc), pc, k, to)
    ensures
      var size := |DeclsCode(ds, Inner(sc), pc, k, to)|;
      var leave := LeaveCode(AfterDecls(ds, Inner(sc)), sc);
      && Placed(chunk.code, pc + size, leave)
      && |StmtCode(Block(ds), sc, pc, k, to)| == size + |leave|
  {
    hide Placed, Pooled, DeclsCode, DeclsOk, DeclsConstants, LeaveCode;
    PlacedSplit(chunk.code, pc, DeclsCode(ds, Inner(sc), pc, k, to), LeaveCode(AfterDecls(ds, Inner(sc)), sc));
  }

  lemma {:induction false} BlockSimulates(
    chunk: Chunk, ds: Decls, env: Env, sc: Scope, pc: nat, k: nat, to: Targets, fuel: nat
  )
    returns (n: nat)
    requires StmtReady(chunk, Block(ds), env, sc, pc, k, to)
    ensures StmtRuns(chunk, Block(ds), env, sc, pc, k, to, fuel, n)
    decreases fuel, ds, 1
  {
    hide Goes, Placed, Pooled, Slots, DeclsCode, DeclsOk, DeclsConstants, ExecuteAll, AfterDecls, LeaveCode, SceneOk;
    BlockParts(chunk, ds, env, sc, pc, k, to);
    n := DeclsSimulates(chunk, ds, env, Inner(sc), pc, k, to, fuel);
    var r, start := ExecuteAll(ds, env, fuel), Running(pc, Slots(env));
    var at, after := pc + |DeclsCode(ds, Inner(sc), pc, k, to)|, AfterDecls(ds, Inner(sc));
    ExecuteAllExtends(ds, env, fuel);
    SceneCounts(env, sc);
    if r.Normal? {
      AfterDeclsShape(ds, Inner(sc));
      ShallowPrefix(env, sc, after);
      SceneCounts(r.env, after);
      var m := RunLeave(chunk, after, sc, r.env, |env|, at);
      Chain(chunk, start, n, Running(at, Slots(r.env)), m, Running(at + |LeaveCode(after, sc)|, Slots(r.env[..|env|])));
      n := n + m;
    } else {
      LeaveKeepsEnds(chunk, start, n, r, at, pc + |StmtCode(Block(ds), sc, pc, k, to)|, LoopBase(sc), |env|, to, fuel);
    }
  }

  lemma SceneCounts(env: Env, sc: Scope)
    requires SceneOk(env, sc)
    ensures |env| == |sc.locals| && sc.depth >= 0
  {
  }

  // ----- if -----

  lemma IfParts(chunk: Chunk, s: Stmt, env: Env, env': Env, sc: Scope, pc: nat, k: nat, to: Targets)
    requires s.If? && StmtReady(chunk, s, env, sc, pc, k, to) && SameNames(env', env)
    ensures
      var lay := LayoutIf(s, sc, pc, k, to);
      var at := pc + lay.condSize;
      && ExprReady(chunk, s.cond, env, sc.locals, k, pc)
      && Fits(lay.thenSize + 4) && Fits(lay.elseSize + 1)
      && Placed(chunk.code, at, JumpCode(JUMP_IF_FALSE, lay.thenSize + 4)) && Placed(chunk.code, at + 3, [POP])
      && StmtReady(chunk, s.thenBranch, env', sc, at + 4, lay.kThen, to)
      && Placed(chunk.code, at + 4 + lay.thenSize, JumpCode(JUMP, lay.elseSize + 1))
      && Placed(chunk.code, at + lay.thenSize + 7, [POP])
      && (s.elseBranch.Some? ==> StmtReady(chunk, s.elseBranch.value, env', sc, at + lay.thenSize + 8, lay.kElse, to))
      && |StmtCode(s, sc, pc, k, to)| == lay.condSize + lay.thenSize + 8 + lay.elseSize
  {
    hide Placed, Pooled, ExprCode, StmtCode, ExprOk, StmtOk, ExprConstants, StmtConstants, U16, Layered, SameNames;
    IfUnfolds(s, sc, pc, k, to);
    SceneKeeps(env, env', sc);
    SceneAgrees(env, sc);
    hide SceneOk;
    var lay := LayoutIf(s, sc, pc, k, to);
    var cc := ExprCode(s.cond, sc.locals, k);
    var tc := StmtCode(s.thenBranch, sc, pc + lay.condSize + 4, lay.kThen, to);
    var ec := ElseCode(s.elseBranch, sc, pc + lay.condSize + lay.thenSize + 8, lay.kElse, to);
    IfPlaces(chunk.code, pc, cc, JumpCode(JUMP_IF_FALSE, |tc| + 4), tc, JumpCode(JUMP, |ec| + 1), ec);
    var es := ElseConstants(s.elseBranch);
    PooledSplit(chunk.constants, k, ExprConstants(s.cond), StmtConstants(s.thenBranch) + es);
    PooledSplit(chunk.constants, lay.kThen, StmtConstants(s.thenBranch), es);
  }

  lemma IfPlaces(code: Code, pc: nat, cc: Code, skip: Code, tc: Code, over: Code, ec: Code)
    requires Placed(code, pc, cc + (skip + ([POP] + (tc + (over + ([POP] + ec)))))) && |skip| == |over| == 3
    ensures Placed(code, pc, cc) && Placed(code, pc + |cc| + 4, tc) && Placed(code, pc + |cc| + |tc| + 8, ec)
    ensures Placed(code, pc + |cc|, skip) && Placed(code, pc + |cc| + 3, [POP])
    ensures Placed(code, pc + |cc| + 4 + |tc|, over) && Placed(code, pc + |cc| + |tc| + 7, [POP])
  {
    hide Placed;
    PlacedSplit(code, pc, cc, skip + ([POP] + (tc + (over + ([POP] + ec)))));
    PlacedSplit(code, pc + |cc|, skip, [POP] + (tc + (over + ([POP] + ec))));
    PlacedSplit(code, pc + |cc| + 3, [POP], tc + (over + ([POP] + ec)));
    PlacedSplit(code, pc + |cc| + 4, tc, over + ([POP] + ec));
    PlacedSplit(code, pc + |cc| + 4 + |tc|, over, [POP] + ec);
    PlacedSplit(code, pc + |cc| + 7 + |tc|, [POP], ec);
  }

  lemma {:induction false} IfSimulates(
    chunk: Chunk, s: Stmt, env: Env, sc: Scope, pc: nat, k: nat, to: Targets, fuel: nat
  )
    returns (n: nat)
    requires s.If? && StmtReady(chunk, s, env, sc, pc, k, to)
    ensures StmtRuns(chunk, s, env, sc, pc, k, to, fuel, n)
    decreases fuel, s, 0
  {
    hide Goes, Placed, Pooled, Slots, ExprReady, StmtReady, StmtCode, ExprCode, StmtConstants, ExprConstants, Evaluate;
    hide IsFalsey, JumpCode, LoopBase;
    IfParts(chunk, s, env, env, sc, pc, k, to);
    var lay := LayoutIf(s, sc, pc, k, to);
    var c, kt, m, ke, e := lay.condSize, lay.kThen, lay.thenSize, lay.kElse, lay.elseSize;
    var start, next := Running(pc, Slots(env)), pc + |StmtCode(s, sc, pc, k, to)|;
    n := RunTest(chunk, s.cond, env, sc.locals, k, pc, m + 4);
    if Evaluate(s.cond, env).Value? {
      var env1, v := Evaluate(s.cond, env).env, Evaluate(s.cond, env).v;
      IfParts(chunk, s, env, env1, sc, pc, k, to);
      if !IsFalsey(v) {
        var at := pc + c + 4;
        var i := StmtSimulates(chunk, s.thenBranch, env1, sc, at, kt, to, fuel);
        var r := Execute(s.thenBranch, env1, fuel);
        ChainEnds(chunk, start, n, Running(at, Slots(env1)), i, r, at + m, LoopBase(sc), to, fuel);
        n := n + i;
        if r.Normal? {
          StepJump(chunk, at + m, Slots(r.env), e + 1);
          Chain(chunk, start, n, Running(at + m, Slots(r.env)), 1, Running(next, Slots(r.env)));
          n := n + 1;
        }
      } else if s.elseBranch.Some? {
        var at := pc + c + m + 8;
        var i := StmtSimulates(chunk, s.elseBranch.value, env1, sc, at, ke, to, fuel);
        ChainEnds(chunk, start, n, Running(at, Slots(env1)), i, Execute(s.elseBranch.value, env1, fuel), next,
          LoopBase(sc), to, fuel);
        n := n + i;
      }
    }
  }

  // ----- loops -----

  ghost predicate LoopReady(
    chunk: Chunk, test: Option<Expr>, inc: Option<Expr>, b: Stmt, env: Env, sc: Scope, pc: nat, k: nat
  ) {
    && Placed(chunk.code, pc, LoopCode(test, inc, b, sc, pc, k))
    && Pooled(chunk.constants, k, LoopConstants(test, inc, b))
    && LoopOk(test, inc, b, sc, pc, k) && SceneOk(env, sc)
  }

  lemma LoopReadyKeeps(
    chunk: Chunk, test: Option<Expr>, inc: Option<Expr>, b: Stmt, env: Env, env': Env, sc: Scope, pc: nat, k: nat
  )
    requires LoopReady(chunk, test, inc, b, env, sc, pc, k) && SameNames(env', env)
    ensures LoopReady(chunk, test, inc, b, env', sc, pc, k)
  {
    hide Placed, Pooled, LoopCode, LoopOk, LoopConstants;
    SceneKeeps(env, env', sc);
  }

  lemma LoopUnfolds(test: Option<Expr>, inc: Option<Expr>, b: Stmt, sc: Scope, pc: nat, k: nat)
    requires LoopOk(test, inc, b, sc, pc, k)
    ensures
      var lay := LoopLayout(test, inc, b, sc, k);
      var to := LoopTargets(lay, test, inc, pc);
      var bc := StmtCode(b, InLoop(sc), BodyPc(lay, pc), lay.kBody, to);
      && LoopCode(test, inc, b, sc, pc, k) ==
           TestPart(lay, test) + (IncPart(lay, inc) + (bc + BackPart(lay, test, inc, pc)))
      && |bc| == lay.bodySize && |TestPart(lay, test)| == lay.testSize && |IncPart(lay, inc)| == lay.incSize
      && StmtOk(b, InLoop(sc), BodyPc(lay, pc), lay.kBody, to)
      && lay.kBody == k + |MaybeConstants(test)| + |MaybeConstants(inc)|
      && 0 <= to.cont <= BodyPc(lay, pc) && BodyPc(lay, pc) + lay.bodySize <= to.brk
  {
    hide ExprCode, StmtCode, ExprOk, StmtOk, MaybeConstants, U16;
    LoopEndsAtEndPc(test, inc, b, sc, pc, k);
  }

  lemma LoopParts(chunk: Chunk, test: Option<Expr>, inc: Option<Expr>, b: Stmt, env: Env, sc: Scope, pc: nat, k: nat)
    requires LoopReady(chunk, test, inc, b, env, sc, pc, k)
    ensures
      var lay := LoopLayout(test, inc, b, sc, k);
      var at := BodyPc(lay, pc);
      && Placed(chunk.code, pc, TestPart(lay, test)) && |TestPart(lay, test)| == lay.testSize
      && Placed(chunk.code, pc + lay.testSize, IncPart(lay, inc)) && |IncPart(lay, inc)| == lay.incSize
      && StmtReady(chunk, b, env, InLoop(sc), at, lay.kBody, LoopTargets(lay, test, inc, pc))
      && |StmtCode(b, InLoop(sc), at, lay.kBody, LoopTargets(lay, test, inc, pc))| == lay.bodySize
      && Placed(chunk.code, at + lay.bodySize, BackPart(lay, test, inc, pc))
      && Pooled(chunk.constants, k, MaybeConstants(test))
      && Pooled(chunk.constants, k + |MaybeConstants(test)|, MaybeConstants(inc))
  {
    hide Placed, Pooled, StmtCode, StmtOk, StmtConstants, LoopLayout, LoopCode, LoopOk, TestPart, IncPart, BackPart;
    hide LoopTargets, MaybeConstants;
    LoopUnfolds(test, inc, b, sc, pc, k);
    var lay := LoopLayout(test, inc, b, sc, k);
    var t, i, back := TestPart(lay, test), IncPart(lay, inc), BackPart(lay, test, inc, pc);
    var bc := StmtCode(b, InLoop(sc), BodyPc(lay, pc), lay.kBody, LoopTargets(lay, test, inc, pc));
    PlacedSplit(chunk.code, pc, t, i + (bc + back));
    PlacedSplit(chunk.code, pc + |t|, i, bc + back);
    PlacedSplit(chunk.code, pc + |t| + |i|, bc, back);
    PooledSplit(chunk.constants, k, MaybeConstants(test), MaybeConstants(inc) + StmtConstants(b));
    PooledSplit(chunk.constants, k + |MaybeConstants(test)|, MaybeConstants(inc), StmtConstants(b));
  }

  /** The test at the top of a loop: on to the increment clause, or out. */
  lemma RunLoopTest(
    chunk: Chunk, test: Option<Expr>, inc: Option<Expr>, b: Stmt, env: Env, sc: Scope, pc: nat, k: nat
  ) returns (n: nat)
    requires LoopReady(chunk, test, inc, b, env, sc, pc, k)
    ensures
      var lay := LoopLayout(test, inc, b, sc, k);
      Decided(chunk, Test(test, env), env, Running(pc, Slots(env)), n, pc + lay.testSize, EndPc(lay, test, pc))
  {
    hide Goes, Placed, Pooled, Slots, ExprCode, StmtCode, ExprOk, StmtOk, ExprConstants, StmtConstants, U16, StmtReady;
    hide Layered;
    var lay := LoopLayout(test, inc, b, sc, k);
    LoopParts(chunk, test, inc, b, env, sc, pc, k);
    if test.None? {
      ZeroSteps(chunk, Running(pc, Slots(env)));
      n := 0;
    } else {
      var distance := 1 + lay.incSize + lay.bodySize + 3;
      var jump := JumpCode(JUMP_IF_FALSE, distance);
      PlacedSplit(chunk.code, pc, lay.testCode, jump + [POP]);
      PlacedSplit(chunk.code, pc + |lay.testCode|, jump, [POP]);
      var back := BodyPc(lay, pc) + lay.bodySize;
      PlacedSplit(chunk.code, back, JumpCode(LOOP, back + 3 - ContinuePc(lay, inc, pc)), [POP]);
      n := RunTest(chunk, test.value, env, sc.locals, k, pc, distance);
    }
  }

  /** On the way in, the increment clause is jumped over. */
  lemma SkipIncrement(
    chunk: Chunk, test: Option<Expr>, inc: Option<Expr>, b: Stmt, env: Env, sc: Scope, pc: nat, k: nat
  ) returns (n: nat)
    requires LoopReady(chunk, test, inc, b, env, sc, pc, k)
    ensures
      var lay := LoopLayout(test, inc, b, sc, k);
      Goes(chunk, Running(pc + lay.testSize, Slots(env)), n, Running(BodyPc(lay, pc), Slots(env)))
  {
    hide Goes, Placed, Pooled, Slots, ExprCode, StmtCode, ExprOk, StmtOk, ExprConstants, StmtConstants, U16, StmtReady;
    hide Layered;
    var lay := LoopLayout(test, inc, b, sc, k);
    LoopParts(chunk, test, inc, b, env, sc, pc, k);
    if inc.None? {
      ZeroSteps(chunk, Running(pc + lay.testSize, Slots(env)));
      n := 0;
    } else {
      var jump := JumpCode(JUMP, |lay.incCode| + 4);
      PlacedSplit(chunk.code, pc + lay.testSize, jump,
        lay.incCode + ([POP] + JumpCode(LOOP, lay.testSize + lay.incSize)));
      StepJump(chunk, pc + lay.testSize, Slots(env), |lay.incCode| + 4);
      n := 1;
    }
  }

  function Increment(inc: Option<Expr>, env: Env): Evaluated {
    if inc.Some? then Evaluate(inc.value, env) else Value(Nil, env)
  }

  /** The increment clause, then back to the test. */
  lemma RunIncrement(
    chunk: Chunk, test: Option<Expr>, inc: Option<Expr>, b: Stmt, env: Env, sc: Scope, pc: nat, k: nat
  ) returns (n: nat)
    requires LoopReady(chunk, test, inc, b, env, sc, pc, k)
    ensures
      var start := Running(ContinuePc(LoopLayout(test, inc, b, sc, k), inc, pc), Slots(env));
      Decided(chunk, Increment(inc, env), env, start, n, pc, pc)
  {
    hide Goes, Placed, Pooled, Slots, ExprCode, StmtCode, ExprOk, StmtOk, ExprConstants, StmtConstants, U16, StmtReady;
    hide Layered;
    var lay := LoopLayout(test, inc, b, sc, k);
    LoopParts(chunk, test, inc, b, env, sc, pc, k);
    var at := ContinuePc(lay, inc, pc);
    if inc.None? {
      ZeroSteps(chunk, Running(at, Slots(env)));
      n := 0;
    } else {
      var jump, back := JumpCode(JUMP, |lay.incCode| + 4), JumpCode(LOOP, lay.testSize + lay.incSize);
      PlacedSplit(chunk.code, pc + lay.testSize, jump, lay.incCode + ([POP] + back));
      PlacedSplit(chunk.code, at, lay.incCode, [POP] + back);
      PlacedSplit(chunk.code, at + |lay.incCode|, [POP], back);
      n := RunAndDrop(chunk, inc.value, env, sc.locals, k + |MaybeConstants(test)|, at);
      if Evaluate(inc.value, env).Value? {
        var env' := Evaluate(inc.value, env).env;
        var loop := at + |lay.incCode| + 1;
        StepLoop(chunk, loop, Slots(env'), lay.testSize + lay.incSize);
        Chain(chunk, Running(at, Slots(env)), n, Running(loop, Slots(env')), 1, Running(pc, Slots(env')));
        n := n + 1;
      }
    }
  }

  /** From the end of the body back to where `continue` goes. */
  lemma RunBack(chunk: Chunk, test: Option<Expr>, inc: Option<Expr>, b: Stmt, env: Env, sc: Scope, pc: nat, k: nat)
    requires LoopReady(chunk, test, inc, b, env, sc, pc, k)
    ensures
      var lay := LoopLayout(test, inc, b, sc, k);
      Goes(chunk, Running(BodyPc(lay, pc) + lay.bodySize, Slots(env)), 1, Running(ContinuePc(lay, inc, pc), Slots(env)))
  {
    hide Goes, Placed, Pooled, Slots, ExprCode, StmtCode, ExprOk, StmtOk, ExprConstants, StmtConstants, U16, StmtReady;
    hide Layered;
    var lay := LoopLayout(test, inc, b, sc, k);
    LoopParts(chunk, test, inc, b, env, sc, pc, k);
    var at := BodyPc(lay, pc) + lay.bodySize;
    var distance := at + 3 - ContinuePc(lay, inc, pc);
    PlacedSplit(chunk.code, at, JumpCode(LOOP, distance), if test.Some? then [POP] else []);
    StepLoop(chunk, at, Slots(env), distance);
  }

  ghost predicate LoopRuns(chunk: Chunk, start: State, n: nat, r: Ended, test: Option<Expr>, inc: Option<Expr>, b: Stmt,
                           sc: Scope, pc: nat, k: nat, fuel: nat) {
    EndsAs(chunk, start, n, r, EndPc(LoopLayout(test, inc, b, sc, k), test, pc), 0, NOWHERE, fuel)
  }

  lemma {:induction false} LoopSimulates(
    chunk: Chunk, test: Option<Expr>, inc: Option<Expr>, b: Stmt, env: Env, sc: Scope, pc: nat, k: nat, fuel: nat
  )
    returns (n: nat)
    requires LoopReady(chunk, test, inc, b, env, sc, pc, k)
    ensures
      LoopRuns(chunk, Running(pc, Slots(env)), n, ExecuteLoop(test, inc, b, env, fuel), test, inc, b, sc, pc, k, fuel)
    decreases fuel, b, 12
  {
    hide Goes, Slots, Evaluate, IsFalsey, Execute, ExecuteNextTurn, LoopReady, LoopLayout, Test;
    var start := Running(pc, Slots(env));
    var lay := LoopLayout(test, inc, b, sc, k);
    n := RunLoopTest(chunk, test, inc, b, env, sc, pc, k);
    var t := Test(test, env);
    if t.Value? && !IsFalsey(t.v) {
      LoopReadyKeeps(chunk, test, inc, b, env, t.env, sc, pc, k);
      var i := SkipIncrement(chunk, test, inc, b, t.env, sc, pc, k);
      var at := BodyPc(lay, pc);
      Chain(chunk, start, n, Running(pc + lay.testSize, Slots(t.env)), i, Running(at, Slots(t.env)));
      n := BodySimulates(chunk, test, inc, b, t.env, sc, pc, k, fuel, start, n + i);
    }
  }

  /** What a loop goes on to do once its body has ended as `r`. */
  function TurnsAfter(r: Ended, test: Option<Expr>, inc: Option<Expr>, b: Stmt, fuel: nat): Ended {
    match r
    case Broke(env) => Normal(env)
    case Normal(env) => ExecuteNextTurn(test, inc, b, env, fuel)
    case Continued(env) => ExecuteNextTurn(test, inc, b, env, fuel)
    case other => other
  }

  /** One pass through the body and all turns after it. */
  lemma {:induction false} BodySimulates(chunk: Chunk, test: Option<Expr>, inc: Option<Expr>, b: Stmt, env: Env,
    sc: Scope, pc: nat, k: nat, fuel: nat,
                                         start: State, m: nat) returns (n: nat)
    requires LoopReady(chunk, test, inc, b, env, sc, pc, k)
    requires Goes(chunk, start, m, Running(BodyPc(LoopLayout(test, inc, b, sc, k), pc), Slots(env)))
    ensures
      LoopRuns(chunk, start, n, TurnsAfter(Execute(b, env, fuel), test, inc, b, fuel), test, inc, b, sc, pc, k, fuel)
    decreases fuel, b, 11
  {
    hide Goes, Slots, Execute, ExecuteNextTurn, LoopReady, LoopLayout, StmtReady, StmtCode, LoopBase, BodyPc;
    hide LoopTargets, EndsAs, LoopRuns;
    LoopParts(chunk, test, inc, b, env, sc, pc, k);
    WholeSceneSurvives(chunk, test, inc, b, env, sc, pc, k);
    var lay := LoopLayout(test, inc, b, sc, k);
    var at, to, r := BodyPc(lay, pc), LoopTargets(lay, test, inc, pc), Execute(b, env, fuel);
    var i := StmtSimulates(chunk, b, env, InLoop(sc), at, lay.kBody, to, fuel);
    ChainEnds(chunk, start, m, Running(at, Slots(env)), i, r, at + lay.bodySize, |env|, to, fuel);
    n := m + i;
    ExecuteKeepsNames(b, env, fuel);
    AfterBody(chunk, test, inc, b, env, sc, pc, k, fuel, start, n, r);
    if r.Normal? || r.Continued? {
      LoopReadyKeeps(chunk, test, inc, b, env, r.env, sc, pc, k);
      n := NextTurnSimulates(chunk, test, inc, b, r.env, sc, pc, k, fuel, start, if r.Normal? then n + 1 else n);
    }
  }

  /** However the body ends, the loop's own variables are all still there. */
  lemma AfterBody(chunk: Chunk, test: Option<Expr>, inc: Option<Expr>, b: Stmt, env: Env, sc: Scope, pc: nat, k: nat,
    fuel: nat,
                  start: State, n: nat, r: Ended)
    requires LoopReady(chunk, test, inc, b, env, sc, pc, k)
    requires
      var lay := LoopLayout(test, inc, b, sc, k);
      EndsAs(chunk, start, n, r, BodyPc(lay, pc) + lay.bodySize, |env|, LoopTargets(lay, test, inc, pc), fuel)
    requires EndsWithSame(r, env)
    ensures
      var next := ContinuePc(LoopLayout(test, inc, b, sc, k), inc, pc);
      match r
      case Normal(env2) => Goes(chunk, start, n + 1, Running(next, Slots(env2)))
      case Continued(env2) => n >= 1 && Goes(chunk, start, n, Running(next, Slots(env2)))
      case _ => LoopRuns(chunk, start, n, TurnsAfter(r, test, inc, b, fuel), test, inc, b, sc, pc, k, fuel)
  {
    hide Goes, Slots, LoopReady, LoopLayout, EndPc, ContinuePc, BodyPc, ExecuteNextTurn;
    var lay := LoopLayout(test, inc, b, sc, k);
    match r {
      case Broke(env2) => assert Slots(env2)[..|env|] == Slots(env2);
      case Continued(env2) => assert Slots(env2)[..|env|] == Slots(env2);
      case Normal(env2) =>
        LoopReadyKeeps(chunk, test, inc, b, env, env2, sc, pc, k);
        RunBack(chunk, test, inc, b, env2, sc, pc, k);
        Chain(chunk, start, n, Running(BodyPc(lay, pc) + lay.bodySize, Slots(env2)), 1,
          Running(ContinuePc(lay, inc, pc), Slots(env2)));
      case _ =>
    }
  }

  lemma WholeSceneSurvives(
    chunk: Chunk, test: Option<Expr>, inc: Option<Expr>, b: Stmt, env: Env, sc: Scope, pc: nat, k: nat
  )
    requires LoopReady(chunk, test, inc, b, env, sc, pc, k)
    ensures LoopBase(InLoop(sc)) == |env|
  {
    hide Placed, Pooled, LoopCode, LoopOk, LoopConstants, LoopBase;
    AllShallow(sc);
  }

  lemma {:induction false} NextTurnSimulates(chunk: Chunk, test: Option<Expr>, inc: Option<Expr>, b: Stmt, env: Env,
    sc: Scope, pc: nat, k: nat, fuel: nat,
                                             start: State, m: nat) returns (n: nat)
    requires LoopReady(chunk, test, inc, b, env, sc, pc, k)
    requires m >= 1 && Goes(chunk, start, m, Running(ContinuePc(LoopLayout(test, inc, b, sc, k), inc, pc), Slots(env)))
    ensures LoopRuns(chunk, start, n, ExecuteNextTurn(test, inc, b, env, fuel), test, inc, b, sc, pc, k, fuel)
    decreases fuel, b, 10
  {
    hide Slots, Evaluate, ExecuteLoop, LoopReady, LoopLayout, Steps;
    n := m;
    if fuel > 0 {
      var at := Running(ContinuePc(LoopLayout(test, inc, b, sc, k), inc, pc), Slots(env));
      var i := RunIncrement(chunk, test, inc, b, env, sc, pc, k);
      match Increment(inc, env) {
        case Raises(err) =>
          Chain(chunk, start, m, at, i, Faulted(err));
          n := m + i;
        case Value(_, env') =>
          Chain(chunk, start, m, at, i, Running(pc, Slots(env')));
          LoopReadyKeeps(chunk, test, inc, b, env, env', sc, pc, k);
          var j := LoopSimulates(chunk, test, inc, b, env', sc, pc, k, fuel - 1);
          ChainEnds(chunk, start, m + i, Running(pc, Slots(env')), j, ExecuteLoop(test, inc, b, env', fuel - 1),
                    EndPc(LoopLayout(test, inc, b, sc, k), test, pc), 0, NOWHERE, fuel - 1);
          n := m + i + j;
      }
    }
  }

  lemma WhileParts(chunk: Chunk, c: Expr, b: Stmt, env: Env, sc: Scope, pc: nat, k: nat, to: Targets)
    requires StmtReady(chunk, While(c, b), env, sc, pc, k, to)
    ensures LoopReady(chunk, Some(c), None, b, env, sc, pc, k)
    ensures pc + |StmtCode(While(c, b), sc, pc, k, to)| == EndPc(LoopLayout(Some(c), None, b, sc, k), Some(c), pc)
  {
    hide Placed, Pooled, LoopCode, LoopOk, SceneOk, ExprConstants, LoopLayout;
    LoopEndsAtEndPc(Some(c), None, b, sc, pc, k);
    assert StmtConstants(While(c, b)) == ExprConstants(c) + ([] + StmtConstants(b));
  }

  /** A loop never ends with a pending break or continue, so any targets will do. */
  lemma LoopEndsAnywhere(chunk: Chunk, start: State, n: nat, r: Ended, next: nat, base: nat, to: Targets, fuel: nat)
    requires EndsAs(chunk, start, n, r, next, 0, NOWHERE, fuel)
    ensures EndsAs(chunk, start, n, r, next, base, to, fuel) && !r.Broke? && !r.Continued?
  {
    hide Goes, Slots;
  }

  // ----- for -----

  lemma ForParts(chunk: Chunk, s: Stmt, env: Env, sc: Scope, pc: nat, k: nat, to: Targets)
    requires s.For? && StmtReady(chunk, s, env, sc, pc, k, to)
    ensures
      var ic := InitCode(s.init, Inner(sc), k);
      var sc1 := AfterInit(s.init, Inner(sc));
      var k1 := k + |InitConstants(s.init)|;
      var lc := LoopCode(s.test, s.increment, s.body_, sc1, pc + |ic|, k1);
      && Placed(chunk.code, pc, ic) && Pooled(chunk.constants, k, InitConstants(s.init)) && InitOk(s.init, Inner(sc), k)
      && Placed(chunk.code, pc + |ic|, lc) && Pooled(chunk.constants, k1, LoopConstants(s.test, s.increment, s.body_))
      && LoopOk(s.test, s.increment, s.body_, sc1, pc + |ic|, k1)
      && Placed(chunk.code, pc + |ic| + |lc|, LeaveCode(sc1, sc))
      && |StmtCode(s, sc, pc, k, to)| == |ic| + |lc| + |LeaveCode(sc1, sc)|
      && SceneOk(env, Inner(sc))
  {
    hide Placed, Pooled, LoopCode, LoopOk, InitCode, InitOk, LeaveCode, InitConstants;
    var ic := InitCode(s.init, Inner(sc), k);
    var sc1 := AfterInit(s.init, Inner(sc));
    var k1 := k + |InitConstants(s.init)|;
    var lc := LoopCode(s.test, s.increment, s.body_, sc1, pc + |ic|, k1);
    PlacedSplit(chunk.code, pc, ic, lc + LeaveCode(sc1, sc));
    PlacedSplit(chunk.code, pc + |ic|, lc, LeaveCode(sc1, sc));
    assert MaybeConstants(s.test) + MaybeConstants(s.increment) + StmtConstants(s.body_) ==
      LoopConstants(s.test, s.increment, s.body_);
    PooledSplit(chunk.constants, k, InitConstants(s.init), LoopConstants(s.test, s.increment, s.body_));
  }

  lemma RunInit(chunk: Chunk, i: ForInit, env: Env, sc: Scope, pc: nat, k: nat) returns (n: nat)
    requires Placed(chunk.code, pc, InitCode(i, sc, k)) && Pooled(chunk.constants, k, InitConstants(i))
    requires InitOk(i, sc, k) && SceneOk(env, sc)
    ensures
      var r := Initialize(i, env);
      && EndsAs(chunk, Running(pc, Slots(env)), n, r, pc + |InitCode(i, sc, k)|, 0, NOWHERE, 0)
      && (r.Normal? ==> SceneOk(r.env, AfterInit(i, sc)))
      && (r.Normal? || r.Raised?)
  {
    hide Goes, Placed, Pooled, Slots, Evaluate, ExprCode, ExprOk, ExprConstants, Bind, InitialCode, DeclareOk, Layered;
    match i
    case NoInit =>
      ZeroSteps(chunk, Running(pc, Slots(env)));
      n := 0;
    case InitVar(x, v) => n := RunInitial(chunk, x, v, env, sc, pc, k);
    case InitExpr(e) =>
      PlacedSplit(chunk.code, pc, ExprCode(e, sc.locals, k), [POP]);
      n := RunAndDrop(chunk, e, env, sc.locals, k, pc);
  }

  /** The loop variable is the only one the scope of a `for` adds. */
  lemma ForScope(env: Env, env': Env, sc: Scope, i: ForInit)
    requires SceneOk(env, sc) && SceneOk(env', AfterInit(i, Inner(sc)))
    ensures |env| <= |env'|
    ensures forall j :: 0 <= j < |env| ==> AfterInit(i, Inner(sc)).locals[j].depth <= sc.depth
    ensures forall j :: |env| <= j < |env'| ==> AfterInit(i, Inner(sc)).locals[j].depth > sc.depth
  {
  }

  lemma {:induction false} ForSimulates(
    chunk: Chunk, s: Stmt, env: Env, sc: Scope, pc: nat, k: nat, to: Targets, fuel: nat
  )
    returns (n: nat)
    requires s.For? && StmtReady(chunk, s, env, sc, pc, k, to)
    ensures StmtRuns(chunk, s, env, sc, pc, k, to, fuel, n)
    decreases fuel, s, 0
  {
    hide Goes, Placed, Pooled, Slots, StmtReady, StmtCode, LoopCode, LoopOk, LoopConstants, LoopLayout, InitCode,
      InitOk, InitConstants,
      LeaveCode, SceneOk, ExecuteLoop, Initialize, AfterInit, LoopBase;
    ForParts(chunk, s, env, sc, pc, k, to);
    ForReady(chunk, s, env, sc, pc, k, to);
    var ic := InitCode(s.init, Inner(sc), k);
    var sc1 := AfterInit(s.init, Inner(sc));
    var k1 := k + |InitConstants(s.init)|;
    var start := Running(pc, Slots(env));
    n := RunInit(chunk, s.init, env, Inner(sc), pc, k);
    var r := Initialize(s.init, env);
    if r.Normal? {
      var at := pc + |ic|;
      LoopEndsAtEndPc(s.test, s.increment, s.body_, sc1, at, k1);
      var m := LoopSimulates(chunk, s.test, s.increment, s.body_, r.env, sc1, at, k1, fuel);
      var out := ExecuteLoop(s.test, s.increment, s.body_, r.env, fuel);
      var end := at + |LoopCode(s.test, s.increment, s.body_, sc1, at, k1)|;
      ChainEnds(chunk, start, n, Running(at, Slots(r.env)), m, out, end, 0, NOWHERE, fuel);
      n := n + m;
      if out.Normal? {
        LoopKeepsNames(s.test, s.increment, s.body_, r.env, fuel);
        SceneKeeps(r.env, out.env, sc1);
        ForScope(env, out.env, sc, s.init);
        var j := RunLeave(chunk, sc1, sc, out.env, |env|, end);
        Chain(chunk, start, n, Running(end, Slots(out.env)), j,
          Running(end + |LeaveCode(sc1, sc)|, Slots(out.env[..|env|])));
        n := n + j;
      }
    }
  }

  lemma ForReady(chunk: Chunk, s: Stmt, env: Env, sc: Scope, pc: nat, k: nat, to: Targets)
    requires StmtReady(chunk, s, env, sc, pc, k, to)
    ensures SceneOk(env, sc) && sc.depth >= 0
  {
    hide Placed, Pooled, StmtCode, StmtOk;
  }

  // ----- every statement -----

  /** The code of a statement does what executing the statement means. */
  lemma {:induction false} StmtSimulates(
    chunk: Chunk, s: Stmt, env: Env, sc: Scope, pc: nat, k: nat, to: Targets, fuel: nat
  )
    returns (n: nat)
    requires StmtReady(chunk, s, env, sc, pc, k, to)
    ensures StmtRuns(chunk, s, env, sc, pc, k, to, fuel, n)
    decreases fuel, s, 9
  {
    hide Goes, Slots, StmtReady, StmtCode, LoopCode, LoopLayout, ExecuteLoop, ExecuteAll, LoopBase;
    match s
    case Eval(e) => n := EvalSimulates(chunk, e, env, sc, pc, k, to, fuel);
    case Block(ds) => n := BlockSimulates(chunk, ds, env, sc, pc, k, to, fuel);
    case If(_, _, _) => n := IfSimulates(chunk, s, env, sc, pc, k, to, fuel);
    case While(c, b) =>
      WhileParts(chunk, c, b, env, sc, pc, k, to);
      n := LoopSimulates(chunk, Some(c), None, b, env, sc, pc, k, fuel);
      LoopEndsAnywhere(chunk, Running(pc, Slots(env)), n, ExecuteLoop(Some(c), None, b, env, fuel),
                       pc + |StmtCode(s, sc, pc, k, to)|, LoopBase(sc), to, fuel);
    case For(_, _, _, _) => n := ForSimulates(chunk, s, env, sc, pc, k, to, fuel);
    case Break => n := BreakSimulates(chunk, env, sc, pc, k, to, fuel);
    case Continue => n := ContinueSimulates(chunk, env, sc, pc, k, to, fuel);
  }

  /** Where declarations end, the stack is as high as there are live locals: all of them at the end, and those declared
      outside the loop's body where a break or a continue arrives. */
  ghost predicate HeightMatches(s: State, r: Ended, ds: Decls, sc: Scope, next: nat, to: Targets) {
    && (r.Normal? ==> s.Running? && s.ip == next && |s.stack| == |AfterDecls(ds, sc).locals|)
    && (r.Broke? ==> s.Running? && s.ip == to.brk && |s.stack| == LoopBase(sc))
    && (r.Continued? ==> s.Running? && s.ip == to.cont && |s.stack| == LoopBase(sc))
  }

  /** The stack height is known at every statement boundary, also after break and continue. */
  lemma StackHeights(
    chunk: Chunk, ds: Decls, env: Env, sc: Scope, pc: nat, k: nat, to: Targets, fuel: nat
  ) returns (n: nat)
    requires DeclsReady(chunk, ds, env, sc, pc, k, to)
    ensures
      HeightMatches(Steps(chunk, Running(pc, Slots(env)), n), ExecuteAll(ds, env, fuel), ds, sc,
                    pc + |DeclsCode(ds, sc, pc, k, to)|, to)
  {
    hide DeclsReady, DeclsCode, ExecuteAll, Steps, LoopBase, AfterDecls, Agree;
    n := DeclsSimulates(chunk, ds, env, sc, pc, k, to, fuel);
  }

  // ----- whole scripts -----

  function Initially(receiver: Values.Value): Env {
    [Binding("this", receiver)]
  }

  function Started(receiver: Values.Value): State {
    Running(0, [receiver])
  }

  /** What a script means, given enough fuel. */
  function ExecuteScript(ds: Decls, receiver: Values.Value, fuel: nat): Ended {
    ExecuteAll(ds, Initially(receiver), fuel)
  }

  /** The final machine state that an outcome stands for. */
  ghost predicate Finishes(s: State, r: Ended) {
    match r
    case Normal(_) => s == Halted(Nil)
    case Raised(e) => s == Faulted(e)
    case _ => false
  }

  lemma ScriptReady(ds: Decls, receiver: Values.Value)
    requires ScriptOk(ds)
    ensures DeclsReady(ScriptCode(ds), ds, Initially(receiver), TOP, 0, 0, NOWHERE)
    ensures Placed(ScriptCode(ds).code, |DeclsCode(ds, TOP, 0, 0, NOWHERE)|, [NIL] + [RETURN])
    ensures Started(receiver) == Running(0, Slots(Initially(receiver)))
  {
    hide DeclsCode, DeclsOk, DeclsConstants;
    var code := DeclsCode(ds, TOP, 0, 0, NOWHERE);
    var all := ScriptCode(ds).code;
    assert all[0..|code|] == code;
    assert all[|code|..|code| + 2] == [NIL] + [RETURN];
    var cs := DeclsConstants(ds);
    assert cs[0..|cs|] == cs;
  }

  lemma RunReturn(chunk: Chunk, pc: nat, stack: seq<Values.Value>)
    requires Placed(chunk.code, pc, [NIL] + [RETURN])
    ensures Goes(chunk, Running(pc, stack), 2, Halted(Nil))
  {
    hide Goes, Placed, Apply, NumNegate;
    PlacedSplit(chunk.code, pc, [NIL], [RETURN]);
    StepByteNil(chunk, pc, stack);
    StepByte(chunk, RETURN, pc + 1, stack + [Nil]);
    Chain(chunk, Running(pc, stack), 1, Running(pc + 1, stack + [Nil]), 1, Halted(Nil));
  }

  /** `n` steps into a script the machine is where executing the script with this much fuel has come to. */
  ghost predicate ScriptRuns(ds: Decls, receiver: Values.Value, fuel: nat, n: nat) {
    var chunk := ScriptCode(ds);
    match ExecuteScript(ds, receiver, fuel)
    case Normal(env) => Goes(chunk, Started(receiver), n, Running(|chunk.code| - 2, Slots(env)))
    case Raised(e) => Goes(chunk, Started(receiver), n, Faulted(e))
    case Timeout => n >= fuel && Steps(chunk, Started(receiver), n).Running?
    case _ => false
  }

  /** At the end of the script the stack holds exactly its live variables, with the values execution gives them. */
  lemma ScriptSimulates(ds: Decls, receiver: Values.Value, fuel: nat) returns (n: nat)
    requires ScriptOk(ds)
    ensures ScriptRuns(ds, receiver, fuel, n)
  {
    hide Goes, Slots, DeclsReady, DeclsCode, ExecuteAll, LoopBase;
    ScriptReady(ds, receiver);
    n := DeclsSimulates(ScriptCode(ds), ds, Initially(receiver), TOP, 0, 0, NOWHERE, fuel);
  }

  /** A script that ends, ends the same way on the machine. */
  lemma ScriptEnds(ds: Decls, receiver: Values.Value, fuel: nat) returns (n: nat)
    requires ScriptOk(ds) && !ExecuteScript(ds, receiver, fuel).Timeout?
    ensures Finishes(Steps(ScriptCode(ds), Started(receiver), n), ExecuteScript(ds, receiver, fuel))
  {
    hide Slots, DeclsReady, DeclsCode, ExecuteScript, Steps;
    var chunk, start, r := ScriptCode(ds), Started(receiver), ExecuteScript(ds, receiver, fuel);
    n := ScriptSimulates(ds, receiver, fuel);
    if r.Normal? {
      ScriptReady(ds, receiver);
      RunReturn(chunk, |chunk.code| - 2, Slots(r.env));
      Chain(chunk, start, n, Running(|chunk.code| - 2, Slots(r.env)), 2, Halted(Nil));
      n := n + 2;
    }
  }

  /** A machine run that ends shows how the script ends. */
  lemma MachineDecides(ds: Decls, receiver: Values.Value, n: nat)
    requires ScriptOk(ds) && !Steps(ScriptCode(ds), Started(receiver), n).Running?
    ensures Finishes(Steps(ScriptCode(ds), Started(receiver), n), ExecuteScript(ds, receiver, n + 1))
  {
    hide ScriptCode, ExecuteScript, Steps;
    var chunk, start := ScriptCode(ds), Started(receiver);
    if ExecuteScript(ds, receiver, n + 1).Timeout? {
      var m := ScriptSimulates(ds, receiver, n + 1);
      StillRunning(chunk, start, m, n);
      assert false;
    }
    var m := ScriptEnds(ds, receiver, n + 1);
    RunsAgree(chunk, start, m, n);
  }

  ghost predicate MachineStops(ds: Decls, receiver: Values.Value) {
    exists n: nat :: !Steps(ScriptCode(ds), Started(receiver), n).Running?
  }

  ghost predicate ScriptStops(ds: Decls, receiver: Values.Value) {
    exists fuel: nat :: !ExecuteScript(ds, receiver, fuel).Timeout?
  }

  /** The machine runs forever exactly when execution does. */
  lemma StopsIff(ds: Decls, receiver: Values.Value)
    requires ScriptOk(ds)
    ensures MachineStops(ds, receiver) <==> ScriptStops(ds, receiver)
  {
    hide ScriptCode, ExecuteScript, Steps;
    if MachineStops(ds, receiver) {
      var n: nat :| !Steps(ScriptCode(ds), Started(receiver), n).Running?;
      MachineDecides(ds, receiver, n);
      assert !ExecuteScript(ds, receiver, n + 1).Timeout?;
    }
    if ScriptStops(ds, receiver) {
      var fuel: nat :| !ExecuteScript(ds, receiver, fuel).Timeout?;
      var n := ScriptEnds(ds, receiver, fuel);
      assert !Steps(ScriptCode(ds), Started(receiver), n).Running?;
    }
  }

  ghost predicate MachineEndsIn(ds: Decls, receiver: Values.Value, s: State) {
    exists n: nat :: Steps(ScriptCode(ds), Started(receiver), n) == s
  }

  ghost predicate ScriptEndsIn(ds: Decls, receiver: Values.Value, s: State) {
    exists fuel: nat :: Finishes(s, ExecuteScript(ds, receiver, fuel))
  }

  /** The machine halts, or faults with an error, exactly when executing the script ends normally, or with that
      error. */
  lemma EndsInIff(ds: Decls, receiver: Values.Value, s: State)
    requires ScriptOk(ds) && !s.Running?
    ensures MachineEndsIn(ds, receiver, s) <==> ScriptEndsIn(ds, receiver, s)
  {
    hide ScriptCode, ExecuteScript, Steps;
    if MachineEndsIn(ds, receiver, s) {
      var n: nat :| Steps(ScriptCode(ds), Started(receiver), n) == s;
      MachineDecides(ds, receiver, n);
    }
    if ScriptEndsIn(ds, receiver, s) {
      var fuel: nat :| Finishes(s, ExecuteScript(ds, receiver, fuel));
      var n := ScriptEnds(ds, receiver, fuel);
      assert Steps(ScriptCode(ds), Started(receiver), n) == s;
    }
  }
}
