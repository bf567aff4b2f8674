/** What programs mean: structured evaluation over a stack of named bindings. */
module Semantics {
  import opened Options
  import opened Values
  import opened Syntax

  datatype Binding = Binding(name: Name, value: Value)

  /** Innermost binding last. */
  type Env = seq<Binding>

  datatype Evaluated = Value(v: Value, env: Env) | Raises(error: RuntimeError) | Unbound

  /** How a statement ends: `Broke` and `Continued` travel to the nearest enclosing loop. */
  datatype Ended = Normal(env: Env) | Broke(env: Env) | Continued(env: Env) | Raised(error: RuntimeError) | Undefined
    | Timeout

  /** Index of the innermost binding of `x`, or -1. */
  function Find(env: Env, x: Name): (i: int)
    ensures -1 <= i < |env|
    ensures i >= 0 ==> env[i].name == x
  {
    if env == [] then -1
    else if env[|env| - 1].name == x then |env| - 1
    else Find(env[..|env| - 1], x)
  }

  /** No later binding has that name. */
  lemma {:induction false} FindIsInnermost(env: Env, x: Name)
    ensures forall j :: Find(env, x) < j < |env| ==> env[j].name != x
  {
    if env != [] && env[|env| - 1].name != x {
      FindIsInnermost(env[..|env| - 1], x);
      assert forall j :: 0 <= j < |env| - 1 ==> env[..|env| - 1][j] == env[j];
    }
  }

  function Assigned(env: Env, i: nat, v: Value): Env
    requires i < |env|
  {
    env[i := Binding(env[i].name, v)]
  }

  function LiteralValue(l: Literal): Value {
    match l
    case LitNil => Nil
    case LitTrue => Bool(true)
    case LitFalse => Bool(false)
    case LitNumber(r) => Number(Fin(r))
  }

  function Evaluate(e: Expr, env: Env): (r: Evaluated)
    ensures r.Value? ==> |r.env| == |env|
  {
    match e
    case Lit(l) => Value(LiteralValue(l), env)
    case Var(x) => if Find(env, x) < 0 then Unbound else Value(env[Find(env, x)].value, env)
    case Set(x, e1) =>
      if Find(env, x) < 0 then Unbound
      else
        var r := Evaluate(e1, env);
        if r.Value? then Value(r.v, Assigned(r.env, Find(env, x), r.v)) else r
    case Update(op, x, e1) =>
      if Find(env, x) < 0 then Unbound
      else
        var r := Evaluate(e1, env);
        if !r.Value? then r
        else
          (match Apply(op, env[Find(env, x)].value, r.v)
           case Err(err) => Raises(err)
           case Val(v) => Value(v, Assigned(r.env, Find(env, x), v)))
    case Negate(e1) =>
      var r := Evaluate(e1, env);
      if !r.Value? then r
      else if r.v.Number? then Value(Number(NumNegate(r.v.n)), r.env) else Raises(OperandNotNumber)
    case Not(e1) =>
      var r := Evaluate(e1, env);
      if r.Value? then Value(Bool(IsFalsey(r.v)), r.env) else r
    case Binary(op, e1, e2) =>
      var a := Evaluate(e1, env);
      if !a.Value? then a
      else
        var b := Evaluate(e2, a.env);
        if !b.Value? then b
        else
          (match Apply(op, a.v, b.v)
           case Err(err) => Raises(err)
           case Val(v) => Value(v, b.env))
    case And(e1, e2) =>
      var a := Evaluate(e1, env);
      if !a.Value? || IsFalsey(a.v) then a else Evaluate(e2, a.env)
    case Or(e1, e2) =>
      var a := Evaluate(e1, env);
      if !a.Value? || !IsFalsey(a.v) then a else Evaluate(e2, a.env)
  }

  /** Drops the bindings made since there were `n`. */
  function LeaveScope(r: Ended, n: nat): Ended {
    match r
    case Normal(env) => if n <= |env| then Normal(env[..n]) else r
    case Broke(env) => if n <= |env| then Broke(env[..n]) else r
    case Continued(env) => if n <= |env| then Continued(env[..n]) else r
    case _ => r
  }

  function AfterEval(r: Evaluated): Ended {
    match r
    case Value(_, env) => Normal(env)
    case Raises(e) => Raised(e)
    case Unbound => Undefined
  }

  /** Binds `x` to its initial value, or to nil. */
  function Bind(x: Name, value: Option<Expr>, env: Env): Ended {
    match value
    case None => Normal(env + [Binding(x, Nil)])
    case Some(e) =>
      match Evaluate(e, env)
      case Value(v, env') => Normal(env' + [Binding(x, v)])
      case Raises(err) => Raised(err)
      case Unbound => Undefined
  }

  function Initialize(init: ForInit, env: Env): Ended {
    match init
    case NoInit => Normal(env)
    case InitVar(x, value) => Bind(x, value, env)
    case InitExpr(e) => AfterEval(Evaluate(e, env))
  }

  /** Runs a statement; every return to the top of a loop uses up one unit of `fuel`. */
  function Execute(s: Stmt, env: Env, fuel: nat): Ended
    decreases fuel, s, 0
  {
    match s
    case Eval(e) => AfterEval(Evaluate(e, env))
    case Block(ds) => LeaveScope(ExecuteAll(ds, env, fuel), |env|)
    case If(c, t, e) =>
      (match Evaluate(c, env)
       case Raises(err) => Raised(err)
       case Unbound => Undefined
       case Value(v, env') =>
         if !IsFalsey(v) then Execute(t, env', fuel)
         else match e
           case None => Normal(env')
           case Some(s2) => Execute(s2, env', fuel))
    case While(c, b) => ExecuteLoop(Some(c), None, b, env, fuel)
    case For(init, test, inc, b) =>
      (match Initialize(init, env)
       case Normal(env') => LeaveScope(ExecuteLoop(test, inc, b, env', fuel), |env|)
       case other => other)
    case Break => Broke(env)
    case Continue => Continued(env)
  }

  function Test(test: Option<Expr>, env: Env): Evaluated {
    if test.Some? then Evaluate(test.value, env) else Value(Bool(true), env)
  }

  function ExecuteLoop(test: Option<Expr>, inc: Option<Expr>, b: Stmt, env: Env, fuel: nat): Ended
    decreases fuel, b, 2
  {
    match Test(test, env)
    case Raises(err) => Raised(err)
    case Unbound => Undefined
    case Value(v, env1) =>
      if IsFalsey(v) then Normal(env1)
      else
        match Execute(b, env1, fuel)
        case Broke(env2) => Normal(env2)
        case Normal(env2) => ExecuteNextTurn(test, inc, b, env2, fuel)
        case Continued(env2) => ExecuteNextTurn(test, inc, b, env2, fuel)
        case other => other
  }

  /** The increment clause, then the loop again. */
  function ExecuteNextTurn(test: Option<Expr>, inc: Option<Expr>, b: Stmt, env: Env, fuel: nat): Ended
    decreases fuel, b, 1
  {
    if fuel == 0 then Timeout
    else
      match inc
      case None => ExecuteLoop(test, inc, b, env, fuel - 1)
      case Some(e) =>
        match Evaluate(e, env)
        case Raises(err) => Raised(err)
        case Unbound => Undefined
        case Value(_, env') => ExecuteLoop(test, inc, b, env', fuel - 1)
  }

  function ExecuteOne(d: Decl, env: Env, fuel: nat): Ended
    decreases fuel, d, 0
  {
    match d
    case Declare(x, value) => Bind(x, value, env)
    case Do(s) => Execute(s, env, fuel)
  }

  function ExecuteAll(ds: Decls, env: Env, fuel: nat): Ended
    decreases fuel, ds, 0
  {
    match ds
    case End => Normal(env)
    case More(d, rest) =>
      match ExecuteOne(d, env, fuel)
      case Normal(env') => ExecuteAll(rest, env', fuel)
      case other => other
  }
}
