/** Whole runs of compiled functions: every closure sees the variables its text names. */
module ClosureRuns {
  import opened Options
  import opened Upvalues
  import opened Functions
  import opened Closures
  import opened History
  import Syntax

  /** Where a closure was made: the scopes around its text, their variables at that moment, and those it refers to. */
  datatype Made = Made(outer: seq<FunctionScope>, env: Environment, cells: seq<nat>)

  ghost predicate MadeOk(code: FunctionCode, m: Made) {
    && Compiled(code, m.outer) && |m.env| == |m.outer|
    && RefersTo([code.scope] + m.outer, [[]] + m.env, m.cells)
  }

  /** A running program, without the values on its stack. */
  datatype State = State(frames: seq<Frame>, memory: Memory, made: map<Closure, Made>, history: seq<Event>)

  predicate InCode(fr: Frame) {
    fr.ip < |fr.closure.code.body|
  }

  function PointOf(fr: Frame): Point
    requires InCode(fr)
  {
    fr.closure.code.body[fr.ip]
  }

  function Last(frames: seq<Frame>): Frame
    requires frames != []
  {
    frames[|frames| - 1]
  }

  function WithLast(frames: seq<Frame>, ip: nat): seq<Frame>
    requires frames != []
  {
    frames[|frames| - 1 := Last(frames).(ip := ip)]
  }

  /** The slots up to `end` are those the code of `fr` expects where it goes on, but for `pending` results;
      of them, only variables marked so are captured. */
  ghost predicate FrameOk(fr: Frame, end: nat, pending: nat, closures: set<Closure>, captured: set<int>) {
    && fr.closure in closures && InCode(fr)
    && var p := PointOf(fr);
    && pending <= p.temporaries && end + pending - fr.base == |p.locals| + p.temporaries
    && forall slot :: slot in captured && fr.base <= slot < end ==>
         slot - fr.base < |p.locals| && p.locals[slot - fr.base].isCaptured
  }

  /** Where the slots of call `i` end. */
  function End(frames: seq<Frame>, size: nat, i: nat): nat
    requires i < |frames|
  {
    if i + 1 == |frames| then size else frames[i + 1].base
  }

  ghost predicate FramesOk(frames: seq<Frame>, size: nat, closures: set<Closure>, captured: set<int>) {
    && (forall i :: 0 <= i < |frames| ==>
          FrameOk(frames[i], End(frames, size, i), if i + 1 == |frames| then 0 else 1, closures, captured))
    && (forall i, j :: 0 <= i < j < |frames| ==> frames[i].base < frames[j].base)
  }

  /** The innermost call goes on elsewhere. */
  lemma TopMoves(
    frames: seq<Frame>, ip: nat, size: nat, size': nat, closures: set<Closure>, closures': set<Closure>,
    captured: set<int>, captured': set<int>
  )
    requires frames != [] && FramesOk(frames, size, closures, captured) && closures <= closures'
    requires forall slot :: slot in captured' && slot < Last(frames).base ==> slot in captured
    requires FrameOk(Last(frames).(ip := ip), size', 0, closures', captured')
    ensures FramesOk(WithLast(frames, ip), size', closures', captured')
  {
    var moved := WithLast(frames, ip);
    forall i | 0 <= i < |frames|
      ensures FrameOk(moved[i], End(moved, size', i), if i + 1 == |frames| then 0 else 1, closures', captured')
    {
      assert FrameOk(frames[i], End(frames, size, i), if i + 1 == |frames| then 0 else 1, closures, captured);
    }
  }

  /** A call: the caller goes on behind it, and the new frame covers no captured slot. */
  lemma CallEnters(frames: seq<Frame>, callee: Frame, size: nat, closures: set<Closure>, captured: set<int>)
    requires frames != [] && FramesOk(frames, size, closures, captured) && Last(frames).base < callee.base < size
    requires FrameOk(Last(frames).(ip := Last(frames).ip + 1), callee.base, 1, closures, captured)
    requires FrameOk(callee, size, 0, closures, captured)
    ensures FramesOk(WithLast(frames, Last(frames).ip + 1) + [callee], size, closures, captured)
  {
    hide FrameOk;
    var now := WithLast(frames, Last(frames).ip + 1) + [callee];
    forall i | 0 <= i < |now|
      ensures FrameOk(now[i], End(now, size, i), if i + 1 == |now| then 0 else 1, closures, captured)
    {
      if i + 1 < |frames| {
        assert FrameOk(frames[i], End(frames, size, i), 1, closures, captured);
      }
    }
  }

  /** The frames of a call suit caller and callee. */
  lemma CallFits(fr: Frame, callee: Frame, argCount: nat, size: nat, closures: set<Closure>, captured: set<int>)
    requires FrameOk(fr, size, 0, closures, captured)
    requires PointOf(fr).op == Call(argCount) && Flows(fr.closure.code, fr.ip)
    requires forall slot :: slot in captured ==> slot < size
    requires callee.closure in closures && callee.ip == 0 && callee.base + argCount + 1 == size
    requires Reached(callee.closure.code, 0, callee.closure.code.scope.locals, 0)
    requires |callee.closure.code.scope.locals| == argCount + 1
    requires PointOf(fr).locals != []
    ensures FrameOk(fr.(ip := fr.ip + 1), callee.base, 1, closures, captured)
    ensures FrameOk(callee, size, 0, closures, captured)
    ensures fr.base < callee.base < size
  {
  }

  /** A return: the caller finds the result where the callee's slots began. */
  lemma CallLeaves(frames: seq<Frame>, size: nat, closures: set<Closure>, captured: set<int>, captured': set<int>)
    requires frames != [] && FramesOk(frames, size, closures, captured)
    requires forall slot :: slot in captured' ==> slot in captured && slot < Last(frames).base
    ensures FramesOk(frames[..|frames| - 1], Last(frames).base + 1, closures, captured')
  {
    var now := frames[..|frames| - 1];
    forall i | 0 <= i < |now|
      ensures FrameOk(now[i], End(now, Last(frames).base + 1, i), if i + 1 == |now| then 0 else 1, closures, captured')
    {
      assert FrameOk(frames[i], End(frames, size, i), 1, closures, captured);
    }
  }

  // ----- what instructions do, by the names of variables -----

  ghost predicate Ready(s: State) {
    && s.frames != [] && InCode(Last(s.frames)) && Last(s.frames).closure in s.made
    && Last(s.frames).base <= |s.memory.slots| && s.memory.slots != []
  }

  ghost function Here(s: State): Site
    requires Ready(s)
  {
    var fr := Last(s.frames);
    var m := s.made[fr.closure];
    Site(Around(fr.closure.code, PointOf(fr).locals, m.outer), [s.memory.slots[fr.base..]] + m.env)
  }

  /** The value on top of the stack. */
  ghost function Top(m: Memory): Value
    requires m.slots != []
  {
    var c := m.slots[|m.slots| - 1];
    if c in m.store then m.store[c] else Nil
  }

  /** The value below `argCount` arguments. */
  ghost function Callee(m: Memory, argCount: nat): Value {
    var i := |m.slots| - 1 - argCount;
    if i >= 0 && m.slots[i] in m.store then m.store[m.slots[i]] else Nil
  }

  /** A call succeeds on a function of as many parameters. */
  ghost predicate Callable(m: Memory, argCount: nat) {
    Callee(m, argCount).Function? && |Callee(m, argCount).closure.code.scope.locals| == argCount + 1
  }

  /** What the instruction does to variables: it reads and writes what the name of its variable means here. */
  ghost predicate Performed(s: State, es: seq<Event>)
    requires Ready(s)
  {
    var base, k := Last(s.frames).base, |s.history|;
    match PointOf(Last(s.frames)).op
    case Constant(n) => es == [New(k, Number(n))]
    case GetLocal(_, x) => Loaded(s, x, es)
    case GetUpvalue(_, x) => Loaded(s, x, es)
    case SetLocal(_, x) => Stored(s, x, es)
    case SetUpvalue(_, x) => Stored(s, x, es)
    case MakeClosure(_, _) => |es| == 1 && es[0].New? && es[0].c == k && es[0].v.Function?
    case Pop => es == [Drop(|s.memory.slots| - 1)]
    case LeaveScope(depth, _) => es == [Drop(base + Kept(PointOf(Last(s.frames)).locals, depth))]
    case Return => es == [Drop(base), New(k, Top(s.memory))]
    case _ => es == []
  }

  ghost predicate Loaded(s: State, x: Syntax.Name, es: seq<Event>)
    requires Ready(s)
  {
    exists c :: Names(Here(s), x, c) && c in s.memory.store &&
                es == [Read(Here(s), x, c, s.memory.store[c]), New(|s.history|, s.memory.store[c])]
  }

  ghost predicate Stored(s: State, x: Syntax.Name, es: seq<Event>)
    requires Ready(s)
  {
    exists c :: Names(Here(s), x, c) && c in s.memory.store && es == [Write(Here(s), x, c, Top(s.memory))]
  }

  /** The calls in progress afterwards. */
  ghost predicate Went(s: State, frames: seq<Frame>)
    requires Ready(s)
  {
    var fr := Last(s.frames);
    match PointOf(fr).op
    case Call(argCount) =>
      var base := |s.memory.slots| - 1 - argCount;
      && Callable(s.memory, argCount) && base >= 0
      && frames == WithLast(s.frames, fr.ip + 1) + [Frame(base, Callee(s.memory, argCount).closure, 0)]
    case Return => frames == s.frames[..|s.frames| - 1]
    case Jump(target) => frames == WithLast(s.frames, target)
    case JumpIfFalse(target) => frames == WithLast(s.frames, if Top(s.memory).Nil? then target else fr.ip + 1)
    case _ => frames == WithLast(s.frames, fr.ip + 1)
  }

  /** The descriptors of `code` select among the slots and upvalues of the function that makes a closure of it. */
  ghost predicate Selectable(code: FunctionCode, own: seq<nat>, cells: seq<nat>) {
    var ds := code.scope.upvalues;
    forall i :: 0 <= i < |ds| ==> ds[i].index < if ds[i].isLocal then |own| else |cells|
  }

  /** `chosen` are the variables a new closure of `code` refers to. */
  ghost predicate Selects(code: FunctionCode, own: seq<nat>, cells: seq<nat>, chosen: seq<nat>) {
    Selectable(code, own, cells) && chosen == Selected(code.scope.upvalues, own, cells)
  }

  /** A closure made at `p` by a closure that was made in `m`, with `own` the variables of the call. */
  ghost function MadeAt(code: FunctionCode, p: Point, m: Made, own: seq<nat>): Made
    requires p.op.MakeClosure? && Selectable(p.op.code, own, m.cells)
  {
    Made(Around(code, Declared(p), m.outer), [own] + m.env, Selected(p.op.code.scope.upvalues, own, m.cells))
  }

  /** Only a new closure is added; it was made here, and refers to variables of the scopes around it. */
  ghost predicate Makes(s: State, t: State)
    requires Ready(s)
  {
    var fr := Last(s.frames);
    var p, own := PointOf(fr), (s.memory.slots + [|s.history|])[fr.base..];
    if !p.op.MakeClosure? then t.made == s.made
    else
      t.history != [] && var e := t.history[|t.history| - 1];
      && e.New? && e.v.Function? && e.v.closure !in s.made && e.v.closure.code == p.op.code
      && Selectable(p.op.code, own, s.made[fr.closure].cells)
      && t.made == s.made[e.v.closure := MadeAt(fr.closure.code, p, s.made[fr.closure], own)]
  }

  /** One instruction. */
  ghost predicate Stepped(s: State, t: State)
    requires Ready(s)
  {
    && s.history <= t.history
    && Performed(s, t.history[|s.history|..])
    && t.memory == AfterAll(s.memory, t.history[|s.history|..])
    && Went(s, t.frames) && Makes(s, t)
  }

  /** The values on the stack, bottom first. */
  ghost function ValuesOf(m: Memory): (vs: seq<Value>)
    ensures |vs| == |m.slots|
  {
    seq(|m.slots|, i requires 0 <= i < |m.slots| => if m.slots[i] in m.store then m.store[m.slots[i]] else Nil)
  }

  /** Variables are numbered from the front, so the next one is new. */
  predicate Numbered(s: State) {
    forall i :: 0 <= i < |s.memory.slots| ==> s.memory.slots[i] < |s.history|
  }

  /** Instructions that name no variable, by the values on the stack: constants are pushed, pops take off, the end of a
      scope and a return take off what is theirs, and a return leaves what was on top. */
  lemma StackOfValues(s: State, t: State)
    requires Ready(s) && Stepped(s, t) && Numbered(s)
    ensures
      var vs, ws, fr := ValuesOf(s.memory), ValuesOf(t.memory), Last(s.frames);
      var p := PointOf(fr);
      && (p.op.Constant? ==> ws == vs + [Number(p.op.n)])
      && (p.op.Pop? ==> ws == vs[..|vs| - 1])
      && (p.op.Return? ==> ws == vs[..fr.base] + [vs[|vs| - 1]])
      && (p.op.LeaveScope? && fr.base + |p.locals| == |vs| ==>
            ws == vs[..|vs| - (|p.locals| - Kept(p.locals, p.op.depth))])
      && (p.op.Call? || p.op.Jump? || p.op.JumpIfFalse? || p.op.Declare? ==> ws == vs)
  {
    hide Went, Makes, Loaded, Stored, Kept;
    var es := t.history[|s.history|..];
    if |es| == 1 {
      AfterTwo(s.memory, es[0], es[0]);
      assert es == [es[0]];
    } else if |es| == 2 {
      AfterTwo(s.memory, es[0], es[1]);
      assert es == [es[0], es[1]];
    }
  }

  /** Where they go on: nil, the one false value here, takes the conditional jump; a call starts the function below its
      arguments, which must be as many as it takes. */
  lemma ControlByValues(s: State, t: State)
    requires Ready(s) && Stepped(s, t)
    ensures
      var vs, fr := ValuesOf(s.memory), Last(s.frames);
      var op := PointOf(fr).op;
      && (op.JumpIfFalse? && vs[|vs| - 1] == Nil ==> t.frames != [] && Last(t.frames).ip == op.target)
      && (op.JumpIfFalse? && vs[|vs| - 1] != Nil ==> t.frames != [] && Last(t.frames).ip == fr.ip + 1)
      && (op.Jump? ==> t.frames != [] && Last(t.frames).ip == op.target)
      && (op.Return? ==> |t.frames| == |s.frames| - 1)
      && (op.Call? ==>
            var i := |vs| - 1 - op.argCount;
            && i >= 0 && vs[i].Function? && |vs[i].closure.code.scope.locals| == op.argCount + 1
            && |t.frames| == |s.frames| + 1 && Last(t.frames) == Frame(i, vs[i].closure, 0)
            && t.frames[|s.frames| - 1] == fr.(ip := fr.ip + 1))
  {
    hide Performed, Makes;
  }

  /** The instruction is a call that cannot be made. */
  ghost predicate Fails(s: State)
    requires Ready(s)
  {
    var op := PointOf(Last(s.frames)).op;
    op.Call? && !Callable(s.memory, op.argCount)
  }

  /** State `i`, unless it is the last, is followed by what one instruction makes of it. */
  ghost predicate StepAt(states: seq<State>, i: nat)
    requires i < |states|
  {
    i + 1 < |states| ==> Ready(states[i]) && Stepped(states[i], states[i + 1])
  }

  ghost predicate IsRun(states: seq<State>) {
    forall i :: 0 <= i < |states| ==> StepAt(states, i)
  }

  lemma RunStarts(s: State)
    ensures IsRun([s])
  {
  }

  lemma RunGrows(states: seq<State>, t: State)
    requires states != [] && IsRun(states) && Ready(states[|states| - 1]) && Stepped(states[|states| - 1], t)
    ensures IsRun(states + [t])
  {
    hide Stepped, Ready;
    var longer := states + [t];
    forall i | 0 <= i < |longer| ensures StepAt(longer, i) {
      if i < |states| {
        assert StepAt(states, i) && longer[i] == states[i] && (i + 1 < |states| ==> longer[i + 1] == states[i + 1]);
      }
    }
  }

  /** An upvalue operand selects the variable that the name means. */
  lemma UpvalueIsNamed(code: FunctionCode, m: Made, locals: seq<Local>, own: seq<nat>, i: nat, x: Syntax.Name)
    requires MadeOk(code, m) && Stands(Around(code, locals, m.outer), i, x)
    ensures i < |m.cells| && Names(Site(Around(code, locals, m.outer), [own] + m.env), x, m.cells[i])
  {
    hide Compiled, Lexical;
    CompiledShape(code, m.outer);
    LocalsComeAndGo(code, locals, m.outer);
    var p := Denotes([code.scope] + m.outer, i);
    DenotesOuter([code.scope] + m.outer, i);
    assert ([own] + m.env)[p.level] == ([[]] + m.env)[p.level];
  }

  lemma DenotesOuter(chain: seq<FunctionScope>, i: nat)
    requires WellFormed(chain) && chain != [] && i < |chain[0].upvalues|
    ensures Denotes(chain, i).level > 0
  {
  }

  lemma CompiledShape(code: FunctionCode, outer: seq<FunctionScope>)
    requires Compiled(code, outer)
    ensures WellFormed([code.scope] + outer) && WellMarked([code.scope] + outer)
    ensures Reached(code, 0, code.scope.locals, 0)
  {
  }

  lemma CompiledAt(code: FunctionCode, outer: seq<FunctionScope>, pc: nat)
    requires Compiled(code, outer) && pc < |code.body|
    ensures code.body[pc].locals != [] && Flows(code, pc) && Resolves(code, pc, outer)
    ensures
      code.body[pc].op.MakeClosure? ==> Compiled(code.body[pc].op.code, Around(code, Declared(code.body[pc]), outer))
  {
  }

  lemma PointIsCompiled(code: FunctionCode, m: Made, pc: nat)
    requires MadeOk(code, m) && pc < |code.body|
    ensures code.body[pc].locals != []
    ensures
      code.body[pc].op.MakeClosure? ==> Compiled(code.body[pc].op.code, Around(code, Declared(code.body[pc]), m.outer))
  {
    hide RefersTo;
    CompiledAt(code, m.outer, pc);
  }

  lemma DeclaredFits(fr: Frame)
    requires InCode(fr) && PointOf(fr).op.MakeClosure? && Flows(fr.closure.code, fr.ip)
    ensures |Declared(PointOf(fr))| <= |PointOf(fr).locals| + PointOf(fr).temporaries + 1
  {
  }

  lemma StartIsCompiled(code: FunctionCode, m: Made)
    requires MadeOk(code, m)
    ensures Reached(code, 0, code.scope.locals, 0)
  {
    hide RefersTo;
    CompiledShape(code, m.outer);
  }

  lemma SamePrefix(a: seq<Local>, b: seq<Local>)
    requires |a| <= |b| && b[..|a|] == a
    ensures forall i :: 0 <= i < |a| ==> b[i] == a[i]
  {
    assert forall i :: 0 <= i < |a| ==> b[..|a|][i] == b[i];
  }

  lemma SelectableEach(code: FunctionCode, own: seq<nat>, cells: seq<nat>)
    requires Selectable(code, own, cells)
    ensures forall d :: d in code.scope.upvalues ==> d.index < if d.isLocal then |own| else |cells|
  {
  }

  lemma SlotIsNamed(site: Site, slot: nat, x: Syntax.Name)
    requires InSlot(site.scopes, slot, x) && site.env != [] && slot < |site.env[0]|
    ensures Names(site, x, site.env[0][slot])
  {
  }

  lemma NamedSlot(chain: seq<FunctionScope>, slot: nat, x: Syntax.Name)
    requires chain != [] && InSlot(chain, slot, x)
    ensures slot < |chain[0].locals|
  {
  }

  /** A new closure refers to what its text names, and the local variables it captures are marked. */
  lemma ClosureIsMade(code: FunctionCode, m: Made, p: Point, own: seq<nat>)
    requires MadeOk(code, m) && p.op.MakeClosure? && Compiled(p.op.code, Around(code, Declared(p), m.outer))
    requires |Declared(p)| <= |own|
    ensures Selectable(p.op.code, own, m.cells) && Marks(p.op.code.scope.upvalues, Declared(p))
    ensures MadeOk(p.op.code, MadeAt(code, p, m, own))
  {
    hide Compiled, WellFormed, WellMarked;
    var chain, env := Around(code, Declared(p), m.outer), [own] + m.env;
    CompiledShape(code, m.outer);
    CompiledShape(p.op.code, chain);
    LocalsComeAndGo(code, Declared(p), m.outer);
    assert RefersTo(chain, env, m.cells) by {
      forall i | 0 <= i < |m.cells|
        ensures Covers(env, Denotes(chain, i)) && m.cells[i] == env[Denotes(chain, i).level][Denotes(chain, i).slot]
      {
        DenotesOuter([code.scope] + m.outer, i);
      }
    }
    ClosureRefersToLexicalVariables(p.op.code.scope, chain, env, [], m.cells);
    MarkedHere(p.op.code.scope, chain);
    assert [[]] + env == [[]] + ([own] + m.env);
  }

  lemma MarkedHere(f: FunctionScope, chain: seq<FunctionScope>)
    requires chain != [] && WellMarked([f] + chain)
    ensures Marks(f.upvalues, chain[0].locals)
  {
    assert ([f] + chain)[1] == chain[0];
  }

  lemma MakesOne(s: State, t: State, closure: Closure, own: seq<nat>)
    requires Ready(s) && PointOf(Last(s.frames)).op.MakeClosure?
    requires own == (s.memory.slots + [|s.history|])[Last(s.frames).base..]
    requires Selectable(PointOf(Last(s.frames)).op.code, own, s.made[Last(s.frames).closure].cells)
    requires t.history == s.history + [New(|s.history|, Function(closure))] && closure !in s.made
    requires closure.code == PointOf(Last(s.frames)).op.code
    requires
      var fr := Last(s.frames);
      t.made == s.made[closure := MadeAt(fr.closure.code, PointOf(fr), s.made[fr.closure], own)]
    ensures Makes(s, t)
  {
  }

  lemma StepIs(s: State, t: State, es: seq<Event>)
    requires Ready(s) && t.history == s.history + es && Performed(s, es) && t.memory == AfterAll(s.memory, es)
    requires Went(s, t.frames) && Makes(s, t)
    ensures Stepped(s, t)
  {
    hide Performed, Went, Makes;
    assert t.history[|s.history|..] == es;
  }

  /** The frame is as the next instruction expects it, if the variables that remain are the same. */
  lemma Arrives(
    fr: Frame, ip: nat, size: nat, size': nat, closures: set<Closure>, closures': set<Closure>, captured: set<int>,
    captured': set<int>,
    locals: seq<Local>, temporaries: nat
  )
    requires FrameOk(fr, size, 0, closures, captured)
    requires Reached(fr.closure.code, ip, locals, temporaries) && closures <= closures'
    requires size' - fr.base == |locals| + temporaries
    requires |PointOf(fr).locals| <= |locals| || temporaries == 0
    requires forall i :: 0 <= i < |locals| && i < |PointOf(fr).locals| ==> locals[i] == PointOf(fr).locals[i]
    requires forall slot :: slot in captured' ==> slot in captured && slot < size && slot < size'
    ensures FrameOk(fr.(ip := ip), size', 0, closures', captured')
  {
  }

  /** Of the slots captured now, the new ones are those the descriptors capture. */
  ghost predicate CapturesMore(captured: set<int>, captured': set<int>, descriptors: seq<Descriptor>, fr: Frame) {
    forall slot :: slot in captured' ==> slot in captured || Captures(descriptors, fr, slot)
  }

  /** The frame after a new closure: what it captured in addition is marked. */
  lemma ArrivesWithClosure(
    fr: Frame, size: nat, closures: set<Closure>, closures': set<Closure>, captured: set<int>, captured': set<int>
  )
    requires FrameOk(fr, size, 0, closures, captured) && closures <= closures' && PointOf(fr).op.MakeClosure?
    requires Flows(fr.closure.code, fr.ip)
    requires forall slot :: slot in captured ==> slot < size
    requires CapturesMore(captured, captured', PointOf(fr).op.code.scope.upvalues, fr)
    requires Marks(PointOf(fr).op.code.scope.upvalues, Declared(PointOf(fr)))
    ensures FrameOk(fr.(ip := fr.ip + 1), size + 1, 0, closures', captured')
  {
    var p, locals := PointOf(fr), Declared(PointOf(fr));
    assert forall i :: 0 <= i < |p.locals| ==> locals[..|p.locals|][i] == locals[i];
  }

  class Interpreter {
    const fiber: Fiber
    ghost var made: map<Closure, Made>
    ghost var history: seq<Event>

    ghost function Current(): State
      reads this, fiber
    {
      State(fiber.frames, fiber.memory, made, history)
    }

    /** Every closure refers to the variables of the scopes it was made in. */
    ghost predicate ClosuresOk()
      reads this`made, fiber`closures, fiber.closures
    {
      && fiber.closures == made.Keys
      && forall c :: c in made ==> MadeOk(c.code, made[c]) && c.Cells() == made[c].cells
    }

    /** What every instruction keeps. */
    ghost predicate Sound()
      reads this, fiber, fiber.known, fiber.open, fiber.closures
    {
      && fiber.Valid() && fiber.CallsOk() && ClosuresOk()
      && FramesOk(fiber.frames, |fiber.stack|, fiber.closures, fiber.CapturedSlots())
      && Told(fiber.memory, fiber.closures, history)
    }

    /** A script about to run. */
    constructor (script: FunctionCode)
      requires Compiled(script, []) && |script.scope.locals| == 1
      ensures Sound() && fresh(fiber) && fresh(fiber.known)
      ensures fresh(fiber.open) && |fiber.frames| == 1 && |history| == 1
    {
      fiber := new Fiber();
      made, history := map[], [];
      new;
      Begin(script);
    }

    method Begin(script: FunctionCode)
      requires fiber.Valid() && fiber.memory == NOTHING && fiber.known == {} && fiber.open == []
      requires fiber.frames == [] && fiber.closures == {} && Compiled(script, []) && |script.scope.locals| == 1
      modifies this`made, this`history, fiber`stack, fiber`memory, fiber`frames, fiber`closures
      ensures Sound() && |fiber.frames| == 1 && |history| == 1
    {
      hide MadeOk, Told, FramesOk, SlotsAgree, Compiled, Fiber.Linked, Fiber.Sorted, Fiber.UpvaluesAgree, Listed;
      var closure := fiber.Start(script);
      ScriptIsSound(script, closure);
      AgreementCounts(fiber.stack, fiber.memory);
      made, history := map[closure := Made([], [], [])], [New(0, Function(closure))];
      assert fiber.CapturedSlots() == {} && fiber.closures == {closure} == made.Keys && closure.Cells() == [];
    }

    lemma ScriptIsSound(script: FunctionCode, closure: Closure)
      requires Compiled(script, []) && |script.scope.locals| == 1 && closure.code == script
      ensures MadeOk(script, Made([], [], []))
      ensures Told(Pushed(NOTHING, 0, Function(closure)), {closure}, [New(0, Function(closure))])
      ensures FramesOk([Frame(0, closure, 0)], 1, {closure}, {})
    {
      hide Compiled;
      CompiledShape(script, []);
      assert Faithful([]) && Told(NOTHING, {}, []);
      ToldOfMore(NOTHING, {}, {closure}, []);
      ToldNew(NOTHING, {closure}, [], 0, Function(closure));
      assert [] + [New(0, Function(closure))] == [New(0, Function(closure))];
    }

    lemma TopFacts()
      requires Sound() && fiber.frames != []
      ensures Ready(Current())
      ensures FrameOk(Last(fiber.frames), |fiber.stack|, 0, fiber.closures, fiber.CapturedSlots())
      ensures |fiber.stack| == |fiber.memory.slots| && Unused(fiber.memory, |history|) && fiber.closures == made.Keys
      ensures
        var fr := Last(fiber.frames);
        var m := made[fr.closure];
        && MadeOk(fr.closure.code, m) && fr.closure.Cells() == m.cells
        && PointOf(fr).locals != [] && Flows(fr.closure.code, fr.ip) && Resolves(fr.closure.code, fr.ip, m.outer)
        && fr.base + |PointOf(fr).locals| + PointOf(fr).temporaries == |fiber.stack|
      ensures forall slot :: slot in fiber.CapturedSlots() ==> slot < |fiber.stack|
    {
      hide SlotsAgree, Told, Compiled, RefersTo, Flows, Resolves, Fiber.Linked, Fiber.Sorted, Fiber.UpvaluesAgree;
      hide Listed;
      var fr := Last(fiber.frames);
      AgreementCounts(fiber.stack, fiber.memory);
      fiber.CapturedIsLive();
      NextIsUnused(fiber.stack, fiber.memory, fiber.closures, history);
      assert FrameOk(fiber.frames[|fiber.frames| - 1], End(fiber.frames, |fiber.stack|, |fiber.frames| - 1), 0,
        fiber.closures, fiber.CapturedSlots());
      CompiledAt(fr.closure.code, made[fr.closure].outer, fr.ip);
    }

    lemma SlotIsKnown(i: nat)
      requires Sound() && i < |fiber.stack|
      ensures i < |fiber.memory.slots| && fiber.memory.slots[i] in fiber.memory.store
      ensures fiber.memory.store[fiber.memory.slots[i]] == fiber.stack[i] && Known(fiber.stack[i], fiber.closures)
    {
      hide Told, SlotsAgree, FramesOk;
      TopIsKnown(fiber.stack, fiber.memory, fiber.closures, history, i);
    }

    /** The innermost call goes on at `ip`. */
    method Proceed(ip: nat, ghost was: State, ghost size: nat, ghost captured: set<int>)
      requires fiber.Valid() && fiber.CallsOk() && ClosuresOk() && Told(fiber.memory, fiber.closures, history)
      requires fiber.frames == was.frames && was.frames != [] && FramesOk(was.frames, size, was.made.Keys, captured)
      requires was.made.Keys <= fiber.closures
      requires forall slot :: slot in fiber.CapturedSlots() && slot < Last(was.frames).base ==> slot in captured
      requires FrameOk(Last(was.frames).(ip := ip), |fiber.stack|, 0, fiber.closures, fiber.CapturedSlots())
      modifies fiber`frames
      ensures Sound() && fiber.frames == WithLast(was.frames, ip)
    {
      hide Told, FrameOk, FramesOk, MadeOk, SlotsAgree, Fiber.Linked, Fiber.Sorted, Fiber.UpvaluesAgree, Listed;
      TopMoves(was.frames, ip, size, |fiber.stack|, was.made.Keys, fiber.closures, captured, fiber.CapturedSlots());
      fiber.frames := fiber.frames[|fiber.frames| - 1 := fiber.frames[|fiber.frames| - 1].(ip := ip)];
    }

    ghost predicate Running()
      reads this, fiber, fiber.known, fiber.open, fiber.closures
    {
      Sound() && fiber.frames != [] && InCode(Last(fiber.frames))
    }

    /** The instruction to be executed. */
    function Now(): Op
      requires fiber.frames != [] && InCode(Last(fiber.frames))
      reads fiber
    {
      PointOf(Last(fiber.frames)).op
    }

    method DoConstant(n: int)
      requires Running() && Now() == Constant(n) && Ready(Current())
      modifies this`history, fiber`stack, fiber`memory, fiber`frames
      ensures Sound() && Stepped(old(Current()), Current())
    {
      hide Told, FrameOk, FramesOk, MadeOk, SlotsAgree, Unused, Fiber.Valid, Fiber.CallsOk, Compiled, Resolves, Names;
      TopFacts();
      ghost var was, size, captured, k := Current(), |fiber.stack|, fiber.CapturedSlots(), |history|;
      var fr := Last(fiber.frames);
      ghost var p := PointOf(fr);
      fiber.Push(Number(n), k);
      history := history + [New(k, Number(n))];
      ToldNew(was.memory, fiber.closures, was.history, k, Number(n));
      Arrives(fr, fr.ip + 1, size, |fiber.stack|, fiber.closures, fiber.closures, captured, captured, p.locals,
        p.temporaries + 1);
      Proceed(fr.ip + 1, was, size, captured);
      AfterTwo(was.memory, New(k, Number(n)), New(k, Number(n)));
      StepIs(was, Current(), [New(k, Number(n))]);
    }

    /** A value of variable `c` has been pushed. */
    method FinishLoad(x: Syntax.Name, ghost was: State, ghost size: nat, ghost c: nat)
      requires fiber.Valid() && fiber.CallsOk() && ClosuresOk() && |fiber.stack| == size + 1
      requires Ready(was) && Current() == was.(memory := fiber.memory) && Told(was.memory, fiber.closures, history)
      requires FramesOk(was.frames, size, fiber.closures, fiber.CapturedSlots())
      requires FrameOk(Last(was.frames), size, 0, fiber.closures, fiber.CapturedSlots())
      requires forall slot :: slot in fiber.CapturedSlots() ==> slot < size
      requires
        var fr := Last(was.frames);
        var p := PointOf(fr);
        && fr.base + |p.locals| + p.temporaries == size && Flows(fr.closure.code, fr.ip)
        && exists i :: p.op == GetLocal(i, x) || p.op == GetUpvalue(i, x)
      requires Names(Here(was), x, c) && c in was.memory.store
      requires fiber.memory == Pushed(was.memory, |history|, was.memory.store[c])
      modifies this`history, fiber`frames
      ensures Sound() && Stepped(was, Current())
    {
      hide Told, FrameOk, FramesOk, MadeOk, SlotsAgree, Fiber.Valid, Fiber.CallsOk, Compiled, Names;
      ghost var k, v := |history|, was.memory.store[c];
      var fr := Last(fiber.frames);
      ghost var p := PointOf(fr);
      ghost var read, new_ := Read(Here(was), x, c, v), New(k, v);
      history := history + [read] + [new_];
      ToldRead(was.memory, fiber.closures, was.history, Here(was), x, c);
      ToldNew(was.memory, fiber.closures, was.history + [read], k, v);
      Arrives(fr, fr.ip + 1, size, |fiber.stack|, fiber.closures, fiber.closures, fiber.CapturedSlots(),
        fiber.CapturedSlots(), p.locals, p.temporaries + 1);
      Proceed(fr.ip + 1, was, size, fiber.CapturedSlots());
      AfterTwo(was.memory, read, new_);
      assert was.history + [read] + [new_] == was.history + [read, new_];
      StepIs(was, Current(), [read, new_]);
    }

    method DoGetLocal(slot: nat, x: Syntax.Name)
      requires Running() && Now() == GetLocal(slot, x) && Ready(Current())
      modifies this`history, fiber`stack, fiber`memory, fiber`frames
      ensures Sound() && Stepped(old(Current()), Current())
    {
      hide Told, FrameOk, FramesOk, MadeOk, SlotsAgree, Unused, Fiber.Valid, Fiber.CallsOk, Compiled, Flows, Names;
      hide Stepped, InSlot;
      TopFacts();
      ghost var was, size := Current(), |fiber.stack|;
      var fr := Last(fiber.frames);
      NamedSlot(Here(was).scopes, slot, x);
      SlotIsNamed(Here(was), slot, x);
      SlotIsKnown(fr.base + slot);
      fiber.Push(fiber.stack[fr.base + slot], |history|);
      FinishLoad(x, was, size, was.memory.slots[fr.base + slot]);
    }

    method DoGetUpvalue(i: nat, x: Syntax.Name)
      requires Running() && Now() == GetUpvalue(i, x) && Ready(Current())
      modifies this`history, fiber`stack, fiber`memory, fiber`frames
      ensures Sound() && Stepped(old(Current()), Current())
    {
      hide Told, FrameOk, FramesOk, MadeOk, SlotsAgree, Unused, Fiber.Valid, Fiber.CallsOk, Compiled, Flows, Names;
      hide Stepped, Stands;
      TopFacts();
      ghost var was, size := Current(), |fiber.stack|;
      var fr := Last(fiber.frames);
      ghost var m := made[fr.closure];
      UpvalueIsNamed(fr.closure.code, m, PointOf(fr).locals, was.memory.slots[fr.base..], i, x);
      fiber.ReadUpvalue(i, |history|);
      fiber.Counts();
      FinishLoad(x, was, size, m.cells[i]);
    }

    /** Variable `c` has been written. */
    method FinishStore(x: Syntax.Name, ghost was: State, ghost size: nat, ghost c: nat)
      requires fiber.Valid() && fiber.CallsOk() && ClosuresOk() && |fiber.stack| == size
      requires Ready(was) && Current() == was.(memory := fiber.memory) && Told(was.memory, fiber.closures, history)
      requires FramesOk(was.frames, size, fiber.closures, fiber.CapturedSlots())
      requires FrameOk(Last(was.frames), size, 0, fiber.closures, fiber.CapturedSlots())
      requires forall slot :: slot in fiber.CapturedSlots() ==> slot < size
      requires
        var fr := Last(was.frames);
        var p := PointOf(fr);
        && fr.base + |p.locals| + p.temporaries == size && Flows(fr.closure.code, fr.ip)
        && exists i :: p.op == SetLocal(i, x) || p.op == SetUpvalue(i, x)
      requires Names(Here(was), x, c) && c in was.memory.store && Known(Top(was.memory), fiber.closures)
      requires fiber.memory == Written(was.memory, c, Top(was.memory))
      modifies this`history, fiber`frames
      ensures Sound() && Stepped(was, Current())
    {
      hide Told, FrameOk, FramesOk, MadeOk, SlotsAgree, Fiber.Valid, Fiber.CallsOk, Compiled, Names;
      var fr := Last(fiber.frames);
      ghost var p := PointOf(fr);
      ghost var write := Write(Here(was), x, c, Top(was.memory));
      history := history + [write];
      ToldWrite(was.memory, fiber.closures, was.history, Here(was), x, c, Top(was.memory));
      Arrives(fr, fr.ip + 1, size, size, fiber.closures, fiber.closures, fiber.CapturedSlots(), fiber.CapturedSlots(),
        p.locals, p.temporaries);
      Proceed(fr.ip + 1, was, size, fiber.CapturedSlots());
      AfterTwo(was.memory, write, write);
      StepIs(was, Current(), [write]);
    }

    method DoSetLocal(slot: nat, x: Syntax.Name)
      requires Running() && Now() == SetLocal(slot, x) && Ready(Current())
      modifies this`history, fiber`stack, fiber`memory, fiber`frames
      ensures Sound() && Stepped(old(Current()), Current())
    {
      hide Told, FrameOk, FramesOk, MadeOk, SlotsAgree, Unused, Fiber.Valid, Fiber.CallsOk, Compiled, Flows, Names;
      hide Stepped, InSlot;
      TopFacts();
      ghost var was, size := Current(), |fiber.stack|;
      var fr := Last(fiber.frames);
      NamedSlot(Here(was).scopes, slot, x);
      SlotIsNamed(Here(was), slot, x);
      SlotIsKnown(fr.base + slot);
      SlotIsKnown(|fiber.stack| - 1);
      fiber.SetLocal(fr.base + slot, fiber.stack[|fiber.stack| - 1]);
      FinishStore(x, was, size, was.memory.slots[fr.base + slot]);
    }

    method DoSetUpvalue(i: nat, x: Syntax.Name)
      requires Running() && Now() == SetUpvalue(i, x) && Ready(Current())
      modifies this`history, fiber`stack, fiber`memory, fiber`frames, fiber.known`closed
      ensures Sound() && Stepped(old(Current()), Current())
    {
      hide Told, FrameOk, FramesOk, MadeOk, SlotsAgree, Unused, Fiber.Valid, Fiber.CallsOk, Compiled, Flows, Names;
      hide Stepped, Stands;
      TopFacts();
      ghost var was, size := Current(), |fiber.stack|;
      var fr := Last(fiber.frames);
      ghost var m := made[fr.closure];
      UpvalueIsNamed(fr.closure.code, m, PointOf(fr).locals, was.memory.slots[fr.base..], i, x);
      SlotIsKnown(|fiber.stack| - 1);
      fiber.UpvalueHasValue(i);
      fiber.WriteUpvalue(i);
      fiber.Counts();
      FinishStore(x, was, size, m.cells[i]);
    }

    /** Slots from `keep` up have been dropped, none of them captured any more. */
    method FinishDrop(
      ghost was: State, ghost size: nat, ghost captured: set<int>, ghost locals: seq<Local>, ghost temporaries: nat
    )
      requires fiber.Valid() && fiber.CallsOk() && ClosuresOk() && |fiber.stack| <= size
      requires Ready(was) && Current() == was.(memory := fiber.memory) && Told(was.memory, fiber.closures, history)
      requires FramesOk(was.frames, size, fiber.closures, captured)
      requires FrameOk(Last(was.frames), size, 0, fiber.closures, captured)
      requires forall slot :: slot in fiber.CapturedSlots() ==> slot in captured && slot < size
      requires
        var fr := Last(was.frames);
        var p := PointOf(fr);
        && Reached(fr.closure.code, fr.ip + 1, locals, temporaries) && fr.base + |locals| + temporaries == |fiber.stack|
        && (p.op.Pop? || p.op.LeaveScope?)
        && (if p.op.Pop? then locals == p.locals && |fiber.stack| == |was.memory.slots| - 1
            else locals == p.locals[..Kept(p.locals, p.op.depth)] && temporaries == 0)
      requires |fiber.stack| <= |was.memory.slots| && fiber.memory == Dropped(was.memory, |fiber.stack|)
      modifies this`history, fiber`frames
      ensures Sound() && Stepped(was, Current())
    {
      hide Told, FrameOk, FramesOk, MadeOk, SlotsAgree, Fiber.CallsOk, Compiled, Names, Flows;
      fiber.CapturedIsLive();
      var fr := Last(fiber.frames);
      ghost var drop := Drop(|fiber.stack|);
      history := history + [drop];
      ToldDrop(was.memory, fiber.closures, was.history, |fiber.stack|);
      Arrives(fr, fr.ip + 1, size, |fiber.stack|, fiber.closures, fiber.closures, captured, fiber.CapturedSlots(),
        locals, temporaries);
      Proceed(fr.ip + 1, was, size, captured);
      AfterTwo(was.memory, drop, drop);
      StepIs(was, Current(), [drop]);
    }

    method DoPop()
      requires Running() && Now() == Pop && Ready(Current())
      modifies this`history, fiber`stack, fiber`memory, fiber`frames
      ensures Sound() && Stepped(old(Current()), Current())
    {
      hide Told, FramesOk, MadeOk, SlotsAgree, Unused, Fiber.Valid, Fiber.CallsOk, Compiled, Resolves, Names, Stepped;
      TopFacts();
      ghost var was, size := Current(), |fiber.stack|;
      fiber.CapturedIsListed(|fiber.stack| - 1);
      fiber.Pop(1);
      FinishDrop(was, size, fiber.CapturedSlots(), PointOf(Last(fiber.frames)).locals,
        PointOf(Last(fiber.frames)).temporaries - 1);
    }

    /** The marks cover what is captured, so the end of a scope closes every captured variable. */
    lemma UnmarkedIsNotCaptured(fr: Frame, lo: nat, flags: seq<bool>)
      requires FrameOk(fr, |fiber.stack|, 0, fiber.closures, fiber.CapturedSlots())
      requires PointOf(fr).temporaries == 0 && lo <= |PointOf(fr).locals|
      requires flags == CapturedIn(PointOf(fr).locals, lo, |PointOf(fr).locals|)
      ensures
        |flags| <= |fiber.stack| && forall i :: 0 <= i < |flags| && !flags[i] ==> !fiber.Captured(|fiber.stack| - 1 - i)
    {
      hide CapturedIn;
      forall i | 0 <= i < |flags| && !flags[i] ensures !fiber.Captured(|fiber.stack| - 1 - i) {
        fiber.CapturedIsListed(|fiber.stack| - 1 - i);
      }
    }

    method DoLeaveScope(depth: int, ops: seq<ExitOp>)
      requires Running() && Now() == LeaveScope(depth, ops) && Ready(Current())
      modifies this`history, fiber`stack, fiber`memory, fiber`frames, fiber`openUpvalues, fiber`open
      modifies fiber.open`location, fiber.open`closed
      ensures Sound() && Stepped(old(Current()), Current())
    {
      hide Told, FrameOk, FramesOk, MadeOk, SlotsAgree, Unused, Fiber.Valid, Fiber.CallsOk, Resolves, Names, Stepped;
      hide ScopeExit, Kept;
      TopFacts();
      ghost var was, size, slots := Current(), |fiber.stack|, fiber.CapturedSlots();
      ghost var p, keep := PointOf(Last(fiber.frames)), Kept(PointOf(Last(fiber.frames)).locals, depth);
      PointIsCompiled(Last(fiber.frames).closure.code, made[Last(fiber.frames).closure], Last(fiber.frames).ip + 1);
      UnmarkedIsNotCaptured(Last(fiber.frames), keep, CapturedIn(p.locals, keep, |p.locals|));
      fiber.LeaveScope(ops, CapturedIn(p.locals, keep, |p.locals|));
      fiber.Counts();
      FinishDrop(was, size, slots, p.locals[..keep], 0);
    }

    /** A closure has been made and pushed. */
    method FinishClosure(closure: Closure, ghost was: State, ghost size: nat, ghost captured: set<int>)
      requires fiber.Valid() && fiber.CallsOk() && ClosuresOk() && |fiber.stack| == size + 1
      requires Ready(was) && fiber.frames == was.frames && PointOf(Last(was.frames)).op.MakeClosure?
      requires Told(was.memory, was.made.Keys, was.history)
      requires history == was.history + [New(|was.history|, Function(closure))]
      requires fiber.memory == Pushed(was.memory, |was.history|, Function(closure))
      requires fiber.closures == was.made.Keys + {closure}
      requires FramesOk(was.frames, size, was.made.Keys, captured)
      requires FrameOk(Last(was.frames), size, 0, was.made.Keys, captured)
      requires forall slot :: slot in captured ==> slot < size
      requires
        var fr := Last(was.frames);
        && Flows(fr.closure.code, fr.ip) && Marks(PointOf(fr).op.code.scope.upvalues, Declared(PointOf(fr)))
        && CapturesMore(captured, fiber.CapturedSlots(), PointOf(fr).op.code.scope.upvalues, fr)
      requires Makes(was, Current())
      modifies fiber`frames
      ensures Sound() && Stepped(was, Current())
    {
      hide Told, FrameOk, FramesOk, MadeOk, Fiber.Valid, Fiber.CallsOk, Names, Flows, Marks, Compiled;
      var fr := Last(fiber.frames);
      ghost var made_ := New(|was.history|, Function(closure));
      ToldOfMore(was.memory, was.made.Keys, fiber.closures, was.history);
      ToldNew(was.memory, fiber.closures, was.history, |was.history|, Function(closure));
      ArrivesWithClosure(fr, size, was.made.Keys, fiber.closures, captured, fiber.CapturedSlots());
      Proceed(fr.ip + 1, was, size, captured);
      AfterTwo(was.memory, made_, made_);
      StepIs(was, Current(), [made_]);
    }

    /** Makes the closure, and keeps in mind where. */
    method AddClosure(code: FunctionCode, ghost own: seq<nat>, ghost where: Made) returns (closure: Closure)
      requires fiber.Valid() && fiber.CallsOk() && ClosuresOk() && fiber.frames != [] && Unused(fiber.memory, |history|)
      requires Last(fiber.frames).base <= |fiber.memory.slots| == |fiber.stack|
      requires own == (fiber.memory.slots + [|history|])[Last(fiber.frames).base..]
      requires Selects(code, own, Last(fiber.frames).closure.Cells(), where.cells) && MadeOk(code, where)
      modifies this`made, this`history, fiber`stack, fiber`memory, fiber`openUpvalues, fiber`open, fiber`known
      modifies fiber`closures
      modifies fiber.open`next
      ensures fiber.Valid() && fiber.CallsOk() && ClosuresOk() && fresh(closure) && closure.code == code
      ensures made == old(made)[closure := where] && fiber.closures == old(fiber.closures) + {closure}
      ensures history == old(history) + [New(|old(history)|, Function(closure))]
      ensures |fiber.stack| == |old(fiber.stack)| + 1
      ensures fiber.memory == Pushed(old(fiber.memory), |old(history)|, Function(closure))
      ensures forall u :: u in fiber.known ==> u in old(fiber.known) || fresh(u)
      ensures
        CapturesMore(old(fiber.CapturedSlots()), fiber.CapturedSlots(), code.scope.upvalues, old(Last(fiber.frames)))
    {
      hide MadeOk, SlotsAgree, Unused, Fiber.Valid, Fiber.CallsOk, Selected, Captures, Compiled, Selectable;
      SelectableEach(code, own, Last(fiber.frames).closure.Cells());
      closure := fiber.MakeClosure(code, |history|);
      fiber.Counts();
      made, history := made[closure := where], history + [New(|history|, Function(closure))];
    }

    /** What is known of a closure about to be made. */
    lemma PlanClosure(fr: Frame, own: seq<nat>)
      requires Running() && Now().MakeClosure? && Ready(Current()) && fr == Last(fiber.frames)
      requires own == (fiber.memory.slots + [|history|])[fr.base..]
      ensures fr.closure in made && Selectable(Now().code, own, made[fr.closure].cells)
      ensures
        var where := MadeAt(fr.closure.code, PointOf(fr), made[fr.closure], own);
        Selects(Now().code, own, fr.closure.Cells(), where.cells) && MadeOk(Now().code, where)
      ensures Marks(Now().code.scope.upvalues, Declared(PointOf(fr)))
    {
      hide Told, FrameOk, FramesOk, MadeOk, Unused, Fiber.Valid, Fiber.CallsOk, Flows, Resolves, Marks, Compiled;
      hide Selectable;
      TopFacts();
      PointIsCompiled(fr.closure.code, made[fr.closure], fr.ip);
      DeclaredFits(fr);
      ClosureIsMade(fr.closure.code, made[fr.closure], PointOf(fr), own);
    }

    method DoMakeClosure(code: FunctionCode, own: Option<Local>)
      requires Running() && Now() == MakeClosure(code, own) && Ready(Current())
      modifies this`made, this`history, fiber`stack, fiber`memory, fiber`frames, fiber`openUpvalues, fiber`open
      modifies fiber`known, fiber`closures, fiber.open`next
      ensures Sound() && Stepped(old(Current()), Current())
      ensures forall u :: u in fiber.known ==> u in old(fiber.known) || fresh(u)
    {
      hide Told, FrameOk, FramesOk, MadeOk, SlotsAgree, Unused, Fiber.Valid, Fiber.CallsOk, Flows;
      hide Resolves, Names, Stepped, Selected, Selects, Captures, Marks, Compiled, Selectable, CapturesMore;
      hide Makes, MadeAt, Known, Around, Pushed, Fiber.CapturedSlots, Declared, Reached, Interpreter.ClosuresOk;
      TopFacts();
      ghost var was, size, slots := Current(), |fiber.stack|, fiber.CapturedSlots();
      var fr := Last(fiber.frames);
      ghost var new_ := (was.memory.slots + [|history|])[fr.base..];
      PlanClosure(fr, new_);
      var closure := AddClosure(code, new_, MadeAt(fr.closure.code, PointOf(fr), made[fr.closure], new_));
      MakesOne(was, Current(), closure, new_);
      FinishClosure(closure, was, size, slots);
    }

    /** A call of something else, or with another number of arguments, fails. */
    method DoCall(argCount: nat) returns (ok: bool)
      requires Running() && Now() == Call(argCount) && Ready(Current())
      modifies fiber`frames
      ensures Sound() && ok == old(Callable(fiber.memory, argCount))
      ensures if ok then Stepped(old(Current()), Current()) else Current() == old(Current())
    {
      hide Told, FrameOk, FramesOk, MadeOk, SlotsAgree, Unused, Compiled, Resolves, Names;
      hide Fiber.Linked, Fiber.Sorted, Fiber.UpvaluesAgree, Listed;
      TopFacts();
      EnoughArguments(Last(fiber.frames));
      ghost var was, size := Current(), |fiber.stack|;
      var callee := fiber.stack[|fiber.stack| - 1 - argCount];
      SlotIsKnown(|fiber.stack| - 1 - argCount);
      if !callee.Function? || |callee.closure.code.scope.locals| != argCount + 1 {
        return false;
      }
      Enter(argCount, callee.closure);
      StepIs(was, Current(), []);
      return true;
    }

    lemma EnoughArguments(fr: Frame)
      requires FrameOk(fr, |fiber.stack|, 0, fiber.closures, fiber.CapturedSlots()) && PointOf(fr).op.Call?
      requires Flows(fr.closure.code, fr.ip) && PointOf(fr).locals != []
      ensures fr.base < |fiber.stack| - 1 - PointOf(fr).op.argCount
    {
    }

    method Enter(argCount: nat, closure: Closure)
      requires Running() && Now() == Call(argCount) && argCount < |fiber.stack|
      requires fiber.stack[|fiber.stack| - 1 - argCount] == Function(closure)
      requires |closure.code.scope.locals| == argCount + 1
      modifies fiber`frames
      ensures Sound()
      ensures
        var was := old(fiber.frames);
        was != [] && fiber.frames == WithLast(was, Last(was).ip + 1) + [Frame(|fiber.stack| - 1 - argCount, closure, 0)]
    {
      hide Told, FrameOk, FramesOk, MadeOk, SlotsAgree, Unused, Compiled, Resolves, Names, Flows;
      hide Fiber.Linked, Fiber.Sorted, Fiber.UpvaluesAgree, Listed;
      TopFacts();
      var fr := Last(fiber.frames);
      ghost var callee := Frame(|fiber.stack| - 1 - argCount, closure, 0);
      SlotIsKnown(|fiber.stack| - 1 - argCount);
      EnoughArguments(fr);
      StartIsCompiled(closure.code, made[closure]);
      CallFits(fr, callee, argCount, |fiber.stack|, fiber.closures, fiber.CapturedSlots());
      CallEnters(fiber.frames, callee, |fiber.stack|, fiber.closures, fiber.CapturedSlots());
      fiber.frames := fiber.frames[|fiber.frames| - 1 := fr.(ip := fr.ip + 1)];
      fiber.Call(argCount);
    }

    method DoReturn()
      requires Running() && Now() == Return && Ready(Current())
      modifies this`history, fiber`stack, fiber`memory, fiber`frames, fiber`openUpvalues, fiber`open
      modifies fiber.open`location, fiber.open`closed
      ensures Sound() && Stepped(old(Current()), Current())
    {
      hide Told, FrameOk, FramesOk, MadeOk, SlotsAgree, Unused, Compiled, Resolves, Names, Fiber.Valid, Fiber.CallsOk;
      TopFacts();
      ghost var was, size, slots, k := Current(), |fiber.stack|, fiber.CapturedSlots(), |history|;
      ghost var result, base := Top(was.memory), Last(fiber.frames).base;
      SlotIsKnown(|fiber.stack| - 1);
      fiber.Return(k);
      fiber.Counts();
      history := history + [Drop(base)] + [New(k, result)];
      ToldDrop(was.memory, fiber.closures, was.history, base);
      ToldNew(Dropped(was.memory, base), fiber.closures, was.history + [Drop(base)], k, result);
      CallLeaves(was.frames, size, fiber.closures, slots, fiber.CapturedSlots());
      AfterTwo(was.memory, Drop(base), New(k, result));
      assert was.history + [Drop(base)] + [New(k, result)] == was.history + [Drop(base), New(k, result)];
      StepIs(was, Current(), [Drop(base), New(k, result)]);
    }

    /** Instructions that only go on, somewhere. */
    method GoOn(ip: nat, ghost locals: seq<Local>, ghost temporaries: nat)
      requires Running() && Ready(Current())
      requires
        var p := PointOf(Last(fiber.frames));
        && Reached(Last(fiber.frames).closure.code, ip, locals, temporaries)
        && |p.locals| <= |locals| && locals[..|p.locals|] == p.locals
        && |locals| + temporaries == |p.locals| + p.temporaries
        && Performed(Current(), []) && Went(Current(), WithLast(fiber.frames, ip)) && !p.op.MakeClosure?
      modifies fiber`frames
      ensures Sound() && Stepped(old(Current()), Current())
    {
      hide Told, FrameOk, FramesOk, MadeOk, SlotsAgree, Unused, Compiled, Resolves, Names, Flows, Performed, Went;
      hide Fiber.Linked, Fiber.Sorted, Fiber.UpvaluesAgree, Listed;
      TopFacts();
      ghost var was, size := Current(), |fiber.stack|;
      var fr := Last(fiber.frames);
      SamePrefix(PointOf(fr).locals, locals);
      Arrives(fr, ip, size, size, fiber.closures, fiber.closures, fiber.CapturedSlots(), fiber.CapturedSlots(), locals,
        temporaries);
      Proceed(ip, was, size, fiber.CapturedSlots());
      StepIs(was, Current(), []);
    }

    method DoDeclare(variable: Local)
      requires Running() && Now() == Declare(variable) && Ready(Current())
      modifies fiber`frames
      ensures Sound() && Stepped(old(Current()), Current())
    {
      hide Told, FrameOk, FramesOk, MadeOk, Resolves, Fiber.Valid, Fiber.CallsOk, Stepped;
      TopFacts();
      ghost var p := PointOf(Last(fiber.frames));
      GoOn(Last(fiber.frames).ip + 1, p.locals + [variable], p.temporaries - 1);
    }

    method DoJump(target: nat)
      requires Running() && Now() == Jump(target) && Ready(Current())
      modifies fiber`frames
      ensures Sound() && Stepped(old(Current()), Current())
    {
      hide Told, FrameOk, FramesOk, MadeOk, Resolves, Fiber.Valid, Fiber.CallsOk, Stepped;
      TopFacts();
      GoOn(target, PointOf(Last(fiber.frames)).locals, PointOf(Last(fiber.frames)).temporaries);
    }

    method DoJumpIfFalse(target: nat)
      requires Running() && Now() == JumpIfFalse(target) && Ready(Current())
      modifies fiber`frames
      ensures Sound() && Stepped(old(Current()), Current())
    {
      hide Told, FrameOk, FramesOk, MadeOk, Resolves, Fiber.Valid, Fiber.CallsOk, Stepped;
      TopFacts();
      SlotIsKnown(|fiber.stack| - 1);
      var fr := Last(fiber.frames);
      var ip := if fiber.stack[|fiber.stack| - 1].Nil? then target else fr.ip + 1;
      GoOn(ip, PointOf(fr).locals, PointOf(fr).temporaries);
    }

    lemma OpenIsKnown()
      requires fiber.Valid()
      ensures forall u :: u in fiber.open ==> u in fiber.known
    {
      hide SlotsAgree, Fiber.Linked, Fiber.Sorted, Fiber.UpvaluesAgree;
    }

    /** Executes an instruction, unless it is a call that fails. */
    method Step() returns (ok: bool)
      requires Running() && Ready(Current())
      modifies this`made, this`history, fiber, fiber.known
      ensures Sound() && forall u :: u in fiber.known ==> u in old(fiber.known) || fresh(u)
      ensures if ok then Stepped(old(Current()), Current()) else Current() == old(Current()) && Fails(Current())
    {
      hide Told, FrameOk, FramesOk, MadeOk, Fiber.Valid, Fiber.CallsOk, Stepped, Performed, ClosuresOk;
      OpenIsKnown();
      ok := true;
      match fiber.frames[|fiber.frames| - 1].closure.code.body[fiber.frames[|fiber.frames| - 1].ip].op {
        case Constant(n) => DoConstant(n);
        case Declare(variable) => DoDeclare(variable);
        case GetLocal(slot, x) => DoGetLocal(slot, x);
        case SetLocal(slot, x) => DoSetLocal(slot, x);
        case GetUpvalue(i, x) => DoGetUpvalue(i, x);
        case SetUpvalue(i, x) => DoSetUpvalue(i, x);
        case MakeClosure(code, own) => DoMakeClosure(code, own);
        case Pop => DoPop();
        case LeaveScope(depth, ops) => DoLeaveScope(depth, ops);
        case Call(argCount) => ok := DoCall(argCount);
        case Return => DoReturn();
        case Jump(target) => DoJump(target);
        case JumpIfFalse(target) => DoJumpIfFalse(target);
      }
    }

    /** Runs for at most `n` instructions. Nothing but a call can fail, and every read and write is that of the
        lexically nearest variable of its name, with the value last written to it. */
    method Run(n: nat) returns (steps: nat, ghost states: seq<State>)
      requires Sound()
      modifies this`made, this`history, fiber, fiber.known
      ensures Sound() && Faithful(history)
      ensures steps <= n && |states| == steps + 1 && states[0] == old(Current())
      ensures states[steps] == Current() && IsRun(states)
      ensures steps < n ==> fiber.frames == [] || (Ready(Current()) && Fails(Current()))
    {
      hide Told, FrameOk, FramesOk, MadeOk, Fiber.Valid, Fiber.CallsOk, Stepped, ClosuresOk, IsRun;
      RunStarts(Current());
      steps, states := 0, [Current()];
      var ok := true;
      while steps < n && fiber.frames != [] && ok
        invariant Sound() && forall u :: u in fiber.known ==> u in old(fiber.known) || fresh(u)
        invariant steps <= n && |states| == steps + 1 && states[0] == old(Current())
        invariant states[steps] == Current() && IsRun(states)
        invariant !ok ==> fiber.frames != [] && Ready(Current()) && Fails(Current())
        decreases n - steps, ok
      {
        TopFacts();
        ghost var was := Current();
        ok := Step();
        if ok {
          RunGrows(states, Current());
          steps, states := steps + 1, states + [Current()];
        }
      }
      IsFaithful();
    }

    lemma IsFaithful()
      requires Sound()
      ensures Faithful(history)
    {
      hide Faithful, FramesOk, Fiber.Valid, Fiber.CallsOk;
    }
  }
}
