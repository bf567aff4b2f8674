/** The code of functions with nested functions: what the compiler promises about every instruction. */
module Functions {
  import opened Options
  import opened Upvalues
  import Syntax

  /** An instruction on variables. It also says which variable it was compiled for. */
  datatype Op =
    | Constant(n: int)
    | Declare(variable: Local)
    | GetLocal(slot: nat, x: Syntax.Name)
    | SetLocal(slot: nat, x: Syntax.Name)
    | GetUpvalue(i: nat, x: Syntax.Name)
    | SetUpvalue(i: nat, x: Syntax.Name)
    | MakeClosure(code: FunctionCode, own: Option<Local>)
    | Pop
    | LeaveScope(depth: int, ops: seq<ExitOp>)
    | Call(argCount: nat)
    | Return
    | Jump(target: nat)
    | JumpIfFalse(target: nat)

  /** An instruction, the variables in scope before it, and the number of intermediate values above them.
      The variables carry the marks they have when their scope ends. */
  datatype Point = Point(locals: seq<Local>, temporaries: nat, op: Op)

  /** `scope` holds the function itself and its parameters, and the upvalues its code came to need. */
  datatype FunctionCode = FunctionCode(scope: FunctionScope, body: seq<Point>)

  /** The variables in scope after `p`: a named local function can refer to itself. */
  function Declared(p: Point): (locals: seq<Local>)
    requires p.op.MakeClosure?
    ensures |p.locals| <= |locals| && locals[..|p.locals|] == p.locals
  {
    if p.op.own.Some? then p.locals + [p.op.own.value] else p.locals
  }

  /** The scopes around a point of `f`, where `locals` are in scope. */
  function Around(f: FunctionCode, locals: seq<Local>, outer: seq<FunctionScope>): (chain: seq<FunctionScope>)
    ensures chain != [] && chain[1..] == outer && chain[0].locals == locals && chain[0].upvalues == f.scope.upvalues
  {
    [FunctionScope(locals, f.scope.upvalues)] + outer
  }

  /** `pc` is a place in `f` with these variables and values on the stack. */
  predicate Reached(f: FunctionCode, pc: nat, locals: seq<Local>, temporaries: int) {
    pc < |f.body| && f.body[pc].locals == locals && f.body[pc].temporaries == temporaries
  }

  /** Control goes on at places that expect the stack as the instruction leaves it. */
  predicate Flows(f: FunctionCode, pc: nat)
    requires pc < |f.body|
  {
    var p := f.body[pc];
    match p.op
    case Constant(_) => Reached(f, pc + 1, p.locals, p.temporaries + 1)
    case Declare(variable) => p.temporaries > 0 && Reached(f, pc + 1, p.locals + [variable], p.temporaries - 1)
    case GetLocal(_, _) => Reached(f, pc + 1, p.locals, p.temporaries + 1)
    case SetLocal(_, _) => p.temporaries > 0 && Reached(f, pc + 1, p.locals, p.temporaries)
    case GetUpvalue(_, _) => Reached(f, pc + 1, p.locals, p.temporaries + 1)
    case SetUpvalue(_, _) => p.temporaries > 0 && Reached(f, pc + 1, p.locals, p.temporaries)
    case MakeClosure(_, own) =>
      (own.Some? ==> p.temporaries == 0)
      && Reached(f, pc + 1, Declared(p), if own.Some? then 0 else p.temporaries + 1)
    case Pop => p.temporaries > 0 && Reached(f, pc + 1, p.locals, p.temporaries - 1)
    case LeaveScope(depth, ops) =>
      && p.temporaries == 0 && ops == ScopeExit(CapturedIn(p.locals, Kept(p.locals, depth), |p.locals|), 0)
      && Reached(f, pc + 1, p.locals[..Kept(p.locals, depth)], 0)
    case Call(argCount) => p.temporaries > argCount && Reached(f, pc + 1, p.locals, p.temporaries - argCount)
    case Return => p.temporaries > 0
    case Jump(target) => Reached(f, target, p.locals, p.temporaries)
    case JumpIfFalse(target) =>
      p.temporaries > 0 && Reached(f, pc + 1, p.locals, p.temporaries) && Reached(f, target, p.locals, p.temporaries)
  }

  /** The slot of the running function that holds its nearest variable `x`. */
  predicate InSlot(chain: seq<FunctionScope>, slot: nat, x: Syntax.Name) {
    Lexical(chain, x) == Some(Place(0, slot))
  }

  /** Upvalue `i` of the running function stands for the nearest variable `x`, one of an enclosing function. */
  predicate Stands(chain: seq<FunctionScope>, i: nat, x: Syntax.Name) {
    chain != [] && WellFormed(chain) && i < |chain[0].upvalues| && Lexical(chain, x) == Some(Denotes(chain, i))
  }

  /** The operands name the variables that the names mean here. */
  predicate Resolves(f: FunctionCode, pc: nat, outer: seq<FunctionScope>)
    requires pc < |f.body|
  {
    var chain := Around(f, f.body[pc].locals, outer);
    match f.body[pc].op
    case GetLocal(slot, x) => InSlot(chain, slot, x)
    case SetLocal(slot, x) => InSlot(chain, slot, x)
    case GetUpvalue(i, x) => Stands(chain, i, x)
    case SetUpvalue(i, x) => Stands(chain, i, x)
    case _ => true
  }

  /** What the compiler promises of the code of `f` inside the scopes `outer`. */
  predicate Compiled(f: FunctionCode, outer: seq<FunctionScope>)
    decreases f
  {
    && WellFormed([f.scope] + outer) && WellMarked([f.scope] + outer)
    && Reached(f, 0, f.scope.locals, 0)
    && (forall pc :: 0 <= pc < |f.body| ==> f.body[pc].locals != [] && Flows(f, pc) && Resolves(f, pc, outer))
    && (forall pc :: 0 <= pc < |f.body| && f.body[pc].op.MakeClosure? ==>
          Compiled(f.body[pc].op.code, Around(f, Declared(f.body[pc]), outer)))
  }

  /** The variables of the innermost function play no part in what its upvalues stand for. */
  lemma LocalsComeAndGo(f: FunctionCode, locals: seq<Local>, outer: seq<FunctionScope>)
    requires WellFormed([f.scope] + outer) && WellMarked([f.scope] + outer)
    ensures WellFormed(Around(f, locals, outer)) && WellMarked(Around(f, locals, outer))
    ensures
      forall i :: 0 <= i < |f.scope.upvalues| ==> Denotes(Around(f, locals, outer), i) == Denotes([f.scope] + outer, i)
  {
    var a, b := [f.scope] + outer, Around(f, locals, outer);
    assert a[1..] == outer && b[1..] == outer;
    if outer != [] {
      assert a[1] == outer[0] && b[1] == outer[0];
    }
  }

  lemma LexicalSame(a: seq<FunctionScope>, b: seq<FunctionScope>, x: Syntax.Name)
    requires ChainExtends(a, b)
    ensures Lexical(a, x) == Lexical(b, x)
  {
    if a != [] {
      assert Extends(a[0], b[0]);
      FindSame(a[0].locals, b[0].locals, x);
      forall k | 0 <= k < |a[1..]| ensures Extends(a[1..][k], b[1..][k]) {
        assert Extends(a[k + 1], b[k + 1]);
      }
      LexicalSame(a[1..], b[1..], x);
    }
  }

  lemma FindSame(a: seq<Local>, b: seq<Local>, x: Syntax.Name)
    requires |a| == |b| && forall i :: 0 <= i < |a| ==> a[i].name == b[i].name
    ensures FindLocal(a, x) == FindLocal(b, x)
  {
  }

  /** What resolution returns goes on standing for the variable it found while the enclosing functions are compiled to
      their ends: the promise about operands is kept. */
  lemma ResolvedStands(
    before: seq<FunctionScope>, after: seq<FunctionScope>, end: seq<FunctionScope>, x: Syntax.Name, r: int
  )
    requires before != [] && after != [] && WellFormed(after)
    requires ChainExtends(before, after) && 0 <= r < |after[0].upvalues|
    requires Resolved(before, after, x, r) && FindLocal(before[0].locals, x) < 0
    requires WellFormed(end) && ChainExtends(after, end)
    ensures Stands(end, r, x)
  {
    hide WellFormed, MarksOnly;
    ChainExtendsTwice(before, after, end);
    LexicalSame(before, end, x);
    assert Extends(after[0], end[0]);
    DenotesSame(after, end, r);
    LexicalSteps(before, x);
  }

  /** A variable found among the function's own keeps its slot. */
  lemma FoundInSlot(chain: seq<FunctionScope>, end: seq<FunctionScope>, x: Syntax.Name)
    requires chain != [] && FindLocal(chain[0].locals, x) >= 0 && ChainExtends(chain, end)
    ensures InSlot(end, FindLocal(chain[0].locals, x), x)
  {
    LexicalSame(chain, end, x);
  }

  // ----- an example: a function that returns a closure over its variable -----

  const Self := Local("", 0, false)
  const N := Local("n", 1, true)
  const Get := Local("get", 1, false)

  /** Returns `n` of the function around it. */
  function GetterCode(): FunctionCode {
    FunctionCode(FunctionScope([Self], [Descriptor(true, 1)]),
      [Point([Self], 0, GetUpvalue(0, "n")), Point([Self], 1, Return)])
  }

  /** Declares `n` and returns the closure `get` over it. */
  function MakerCode(): FunctionCode {
    FunctionCode(
      FunctionScope([Self], []),
      [Point([Self], 0, Constant(7)), Point([Self], 1, Declare(N)),
        Point([Self, N], 0, MakeClosure(GetterCode(), Some(Get))),
       Point([Self, N, Get], 0, GetLocal(2, "get")), Point([Self, N, Get], 1, Return)])
  }

  /** Calls what the function returns. */
  function ScriptCode(): FunctionCode {
    FunctionCode(
      FunctionScope([Self], []),
      [Point([Self], 0, MakeClosure(MakerCode(), None)), Point([Self], 1, Call(0)), Point([Self], 1, Call(0)),
        Point([Self], 1, Return)])
  }

  /** The promise can be kept: a program whose closure outlives the call that declared its variable. */
  lemma EscapingClosureIsCompiled()
    ensures Compiled(ScriptCode(), [])
  {
    hide WellFormed, WellMarked, Flows, Resolves;
    var script := ScriptCode();
    ScopeAdded(script.scope, []);
    assert [script.scope] + [] == [script.scope];
    assert Declared(script.body[0]) == [Self];
    assert Around(script, [Self], []) == [FunctionScope([Self], [])];
    MakerIsCompiled();
    ScriptPoints();
  }

  lemma ScriptPoints()
    ensures forall pc :: 0 <= pc < 4 ==> Flows(ScriptCode(), pc) && Resolves(ScriptCode(), pc, [])
  {
    hide WellFormed, WellMarked, ScopeExit, Lexical, Stands, InSlot;
    var script := ScriptCode();
    assert Declared(script.body[0]) == [Self];
    assert Flows(script, 0) && Flows(script, 1) && Flows(script, 2) && Flows(script, 3);
    assert Resolves(script, 0, []) && Resolves(script, 1, []) && Resolves(script, 2, []) && Resolves(script, 3, []);
  }

  lemma ScopeAdded(f: FunctionScope, outer: seq<FunctionScope>)
    requires WellFormed(outer) && WellMarked(outer) && (f.upvalues == [] || (|f.upvalues| == 1 && outer != []))
    requires forall d :: d in f.upvalues ==> DescriptorOk(d, outer[0])
    requires outer != [] ==> Marks(f.upvalues, outer[0].locals)
    ensures WellFormed([f] + outer) && WellMarked([f] + outer)
  {
    var chain := [f] + outer;
    assert chain[1..] == outer && (outer != [] ==> chain[1] == outer[0]);
  }

  lemma MakerIsCompiled()
    ensures Compiled(MakerCode(), [FunctionScope([Self], [])])
  {
    hide WellFormed, WellMarked, Flows, Resolves;
    var maker, outer := MakerCode(), [FunctionScope([Self], [])];
    ScopeAdded(outer[0], []);
    assert [outer[0]] + [] == outer;
    ScopeAdded(maker.scope, outer);
    assert Declared(maker.body[2]) == [Self, N, Get];
    GetterIsCompiled();
    assert Around(maker, [Self, N, Get], outer) == [FunctionScope([Self, N, Get], []), outer[0]];
    MakerPoints();
  }

  lemma MakerPoints()
    ensures
      forall pc :: 0 <= pc < 5 ==> Flows(MakerCode(), pc) && Resolves(MakerCode(), pc, [FunctionScope([Self], [])])
  {
    hide Lexical, Stands, InSlot, FindLocal;
    assert Declared(MakerCode().body[2]) == [Self, N, Get];
    GetInSlot();
  }

  lemma GetInSlot()
    ensures InSlot(Around(MakerCode(), [Self, N, Get], [FunctionScope([Self], [])]), 2, "get")
  {
    NInMaker();
    LexicalSteps(Around(MakerCode(), [Self, N, Get], [FunctionScope([Self], [])]), "get");
  }

  lemma GetterIsCompiled()
    ensures Compiled(GetterCode(), [FunctionScope([Self, N, Get], []), FunctionScope([Self], [])])
  {
    hide WellFormed, WellMarked, ScopeExit, Lexical;
    var getter, maker, script := GetterCode(), FunctionScope([Self, N, Get], []), FunctionScope([Self], []);
    var outer := [maker, script];
    ScopeAdded(script, []);
    assert [script] + [] == [script];
    ScopeAdded(maker, [script]);
    assert [maker] + [script] == outer;
    ScopeAdded(getter.scope, outer);
    assert Flows(getter, 0) && Flows(getter, 1);
    NInMaker();
    NamesOuter(Around(getter, [Self], outer), "n", 1);
    assert Resolves(getter, 0, outer) && Resolves(getter, 1, outer);
  }

  /** A variable of the enclosing function is named by the upvalue that captures it. */
  lemma NamesOuter(chain: seq<FunctionScope>, x: Syntax.Name, slot: nat)
    requires |chain| > 1 && WellFormed(chain) && chain[0].upvalues == [Descriptor(true, slot)]
    requires FindLocal(chain[0].locals, x) == -1 && FindLocal(chain[1].locals, x) == slot
    ensures Stands(chain, 0, x)
  {
    LexicalSteps(chain, x);
    LexicalSteps(chain[1..], x);
  }

  lemma NInMaker()
    ensures FindLocal([Self], "n") == -1 && FindLocal([Self, N, Get], "n") == 1 && FindLocal([Self, N, Get], "get") == 2
  {
    assert [Self, N, Get][..2] == [Self, N] && FindLocal([Self, N], "n") == 1;
  }
}
