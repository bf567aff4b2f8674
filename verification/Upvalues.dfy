/** Static resolution of captured variables through the chain of functions being compiled. */
module Upvalues {
  import opened Options
  import opened Syntax

  const MAX_UPVALUES: nat := 256

  /** Which variable a closure captures: a local of the enclosing function, or one of that function's own upvalues. */
  datatype Descriptor = Descriptor(isLocal: bool, index: nat)

  /** Depth -1 marks a variable whose initializer is still being compiled. */
  datatype Local = Local(name: Name, depth: int, isCaptured: bool)

  /** A function being compiled. */
  datatype FunctionScope = FunctionScope(locals: seq<Local>, upvalues: seq<Descriptor>)

  /** A variable: how many functions out, and in which slot there. */
  datatype Place = Place(level: nat, slot: nat)

  /** Slot of the innermost variable named `x`, or -1. */
  function FindLocal(locals: seq<Local>, x: Name): (i: int)
    ensures -1 <= i < |locals|
    ensures i >= 0 ==> locals[i].name == x && forall j :: i < j < |locals| ==> locals[j].name != x
    ensures i == -1 ==> forall j :: 0 <= j < |locals| ==> locals[j].name != x
  {
    if locals == [] then -1
    else if locals[|locals| - 1].name == x then |locals| - 1
    else FindLocal(locals[..|locals| - 1], x)
  }

  function Outward(p: Option<Place>): Option<Place> {
    if p.Some? then Some(Place(p.value.level + 1, p.value.slot)) else None
  }

  /** The lexically nearest variable named `x`, from the innermost function outwards. */
  function Lexical(chain: seq<FunctionScope>, x: Name): Option<Place> {
    if chain == [] then None
    else if FindLocal(chain[0].locals, x) >= 0 then Some(Place(0, FindLocal(chain[0].locals, x)))
    else Outward(Lexical(chain[1..], x))
  }

  /** It is the last one of that name in the nearest function that has any. */
  lemma {:induction false} LexicalIsNearest(chain: seq<FunctionScope>, x: Name)
    ensures
      match Lexical(chain, x)
      case None => forall k, i :: 0 <= k < |chain| && 0 <= i < |chain[k].locals| ==> chain[k].locals[i].name != x
      case Some(p) =>
        && p.level < |chain| && p.slot < |chain[p.level].locals| && chain[p.level].locals[p.slot].name == x
        && (forall i :: p.slot < i < |chain[p.level].locals| ==> chain[p.level].locals[i].name != x)
        && (forall k, i :: 0 <= k < p.level && 0 <= i < |chain[k].locals| ==> chain[k].locals[i].name != x)
  {
    if chain != [] {
      LexicalIsNearest(chain[1..], x);
      assert forall k :: 0 < k < |chain| ==> chain[1..][k - 1] == chain[k];
    }
  }

  predicate DescriptorOk(d: Descriptor, outer: FunctionScope) {
    d.index < if d.isLocal then |outer.locals| else |outer.upvalues|
  }

  /** Every descriptor refers to something in the enclosing function, and none is listed twice. */
  predicate WellFormed(chain: seq<FunctionScope>) {
    if chain == [] then true
    else
      && (chain[0].upvalues != [] ==> |chain| > 1)
      && (forall i :: 0 <= i < |chain[0].upvalues| ==> DescriptorOk(chain[0].upvalues[i], chain[1]))
      && (forall i, j :: 0 <= i < j < |chain[0].upvalues| ==> chain[0].upvalues[i] != chain[0].upvalues[j])
      && |chain[0].upvalues| <= MAX_UPVALUES
      && WellFormed(chain[1..])
  }

  /** Locals captured by an inner function are marked as captured. */
  predicate Marks(descriptors: seq<Descriptor>, locals: seq<Local>) {
    forall d :: d in descriptors && d.isLocal ==> d.index < |locals| && locals[d.index].isCaptured
  }

  predicate WellMarked(chain: seq<FunctionScope>) {
    |chain| > 1 ==> Marks(chain[0].upvalues, chain[1].locals) && WellMarked(chain[1..])
  }

  /** The variable that upvalue `i` of the innermost function stands for. */
  function Denotes(chain: seq<FunctionScope>, i: nat): Place
    requires WellFormed(chain) && chain != [] && i < |chain[0].upvalues|
    decreases |chain|
  {
    var d := chain[0].upvalues[i];
    if d.isLocal then Place(1, d.index)
    else
      var p := Denotes(chain[1..], d.index);
      Place(p.level + 1, p.slot)
  }

  /** None but captured marks and further upvalues has been added. */
  predicate Extends(a: FunctionScope, b: FunctionScope) {
    && |a.locals| == |b.locals|
    && (forall i :: 0 <= i < |a.locals| ==>
          && a.locals[i].name == b.locals[i].name && a.locals[i].depth == b.locals[i].depth
          && (a.locals[i].isCaptured ==> b.locals[i].isCaptured))
    && |a.upvalues| <= |b.upvalues| && b.upvalues[..|a.upvalues|] == a.upvalues
  }

  predicate ChainExtends(a: seq<FunctionScope>, b: seq<FunctionScope>) {
    |a| == |b| && forall k :: 0 <= k < |a| ==> Extends(a[k], b[k])
  }

  /** Upvalues that exist already go on standing for the same variables. */
  lemma {:induction false} DenotesSame(a: seq<FunctionScope>, b: seq<FunctionScope>, i: nat)
    requires WellFormed(a) && WellFormed(b) && ChainExtends(a, b) && a != [] && i < |a[0].upvalues|
    ensures Denotes(b, i) == Denotes(a, i)
    decreases |a|
  {
    assert a[0].upvalues[i] == b[0].upvalues[..|a[0].upvalues|][i];
    if !a[0].upvalues[i].isLocal {
      DenotesSame(a[1..], b[1..], a[0].upvalues[i].index);
    }
  }

  /** The functions around an inner one may grow while it is being compiled. */
  lemma OuterMayGrow(f: FunctionScope, outer: seq<FunctionScope>, outer': seq<FunctionScope>)
    requires WellFormed([f] + outer) && WellFormed(outer') && ChainExtends(outer, outer')
    ensures WellFormed([f] + outer') && ChainExtends([f] + outer, [f] + outer')
  {
    var a, b := [f] + outer, [f] + outer';
    assert a[1..] == outer && b[1..] == outer';
    if outer != [] {
      assert Extends(outer[0], outer'[0]);
    }
  }

  /** Marks are never taken back, so those that sufficed go on doing so. */
  lemma OuterMayMark(f: FunctionScope, outer: seq<FunctionScope>, outer': seq<FunctionScope>)
    requires WellMarked([f] + outer) && WellMarked(outer') && ChainExtends(outer, outer')
    ensures WellMarked([f] + outer')
  {
    var a, b := [f] + outer, [f] + outer';
    assert a[1..] == outer && b[1..] == outer';
    if outer != [] {
      assert Extends(outer[0], outer'[0]);
      assert a[1] == outer[0] && b[1] == outer'[0];
    }
  }

  lemma AddKeepsMarked(f: FunctionScope, outer: seq<FunctionScope>, d: Descriptor)
    requires WellMarked([f] + outer) && outer != []
    requires d.isLocal ==> d.index < |outer[0].locals| && outer[0].locals[d.index].isCaptured
    ensures WellMarked([FunctionScope(f.locals, f.upvalues + [d])] + outer)
  {
    var a, b := [f] + outer, [FunctionScope(f.locals, f.upvalues + [d])] + outer;
    assert a[1..] == outer && b[1..] == outer;
    assert a[1] == outer[0] && b[1] == outer[0];
  }

  lemma MarkKeepsMarked(chain: seq<FunctionScope>, slot: nat)
    requires WellMarked(chain) && chain != [] && slot < |chain[0].locals|
    ensures WellMarked([Marked(chain[0], slot)] + chain[1..])
  {
    assert ([Marked(chain[0], slot)] + chain[1..])[1..] == chain[1..];
  }

  lemma AddKeepsWellFormed(f: FunctionScope, outer: seq<FunctionScope>, d: Descriptor)
    requires WellFormed([f] + outer) && outer != [] && DescriptorOk(d, outer[0])
    requires d !in f.upvalues && |f.upvalues| < MAX_UPVALUES
    ensures WellFormed([FunctionScope(f.locals, f.upvalues + [d])] + outer)
  {
    hide DescriptorOk;
    var a, b := [f] + outer, [FunctionScope(f.locals, f.upvalues + [d])] + outer;
    assert a[1..] == outer && b[1..] == outer;
    assert a[1] == outer[0] && b[1] == outer[0];
  }

  lemma AddExtends(f: FunctionScope, outer: seq<FunctionScope>, d: Descriptor)
    ensures ChainExtends([f] + outer, [FunctionScope(f.locals, f.upvalues + [d])] + outer)
  {
    assert (f.upvalues + [d])[..|f.upvalues|] == f.upvalues;
  }

  lemma ChainExtendsTwice(a: seq<FunctionScope>, b: seq<FunctionScope>, c: seq<FunctionScope>)
    requires ChainExtends(a, b) && ChainExtends(b, c)
    ensures ChainExtends(a, c)
  {
    forall k | 0 <= k < |a| ensures Extends(a[k], c[k]) {
      assert Extends(a[k], b[k]) && Extends(b[k], c[k]);
      assert c[k].upvalues[..|a[k].upvalues|] == c[k].upvalues[..|b[k].upvalues|][..|a[k].upvalues|];
    }
  }

  /** Marks the variable `slot` of the outermost-but-one function as captured. */
  function Marked(f: FunctionScope, slot: nat): FunctionScope
    requires slot < |f.locals|
  {
    f.(locals := f.locals[slot := f.locals[slot].(isCaptured := true)])
  }

  lemma MarkKeepsWellFormed(chain: seq<FunctionScope>, slot: nat)
    requires WellFormed(chain) && chain != [] && slot < |chain[0].locals|
    ensures
      var marked := [Marked(chain[0], slot)] + chain[1..];
      WellFormed(marked) && ChainExtends(chain, marked)
  {
    var marked := [Marked(chain[0], slot)] + chain[1..];
    assert marked[1..] == chain[1..];
    forall k | 0 <= k < |chain| ensures Extends(chain[k], marked[k]) {
      if k > 0 {
        assert marked[k] == chain[1..][k - 1];
      }
    }
  }

  /** No variable but the one at `p` has become captured. */
  predicate MarksOnly(a: seq<FunctionScope>, b: seq<FunctionScope>, p: Place)
    requires ChainExtends(a, b)
  {
    forall k, i :: 0 <= k < |a| && 0 <= i < |a[k].locals| && b[k].locals[i].isCaptured && !a[k].locals[i].isCaptured ==>
      Place(k, i) == p
  }

  lemma SameChain(chain: seq<FunctionScope>)
    ensures ChainExtends(chain, chain)
  {
  }

  lemma TailWellFormed(f: FunctionScope, outer: seq<FunctionScope>)
    requires WellFormed([f] + outer)
    ensures WellFormed(outer)
  {
    assert ([f] + outer)[1..] == outer;
  }

  lemma TailMarked(f: FunctionScope, outer: seq<FunctionScope>)
    requires WellMarked([f] + outer)
    ensures WellMarked(outer)
  {
    assert ([f] + outer)[1..] == outer;
  }

  lemma LexicalSteps(chain: seq<FunctionScope>, x: Name)
    requires chain != []
    ensures
      Lexical(chain, x) ==
        if FindLocal(chain[0].locals, x) >= 0 then Some(Place(0, FindLocal(chain[0].locals, x)))
        else Outward(Lexical(chain[1..], x))
  {
  }

  lemma MarkMarksOnly(f: FunctionScope, g: FunctionScope, outer: seq<FunctionScope>, slot: nat)
    requires outer != [] && slot < |outer[0].locals| && f.locals == g.locals
    requires ChainExtends([f] + outer, [g] + ([Marked(outer[0], slot)] + outer[1..]))
    ensures MarksOnly([f] + outer, [g] + ([Marked(outer[0], slot)] + outer[1..]), Place(1, slot))
  {
  }

  /** Resolving `x` took the chain from `a` to `b` and came to upvalue `r`: the lexically nearest variable, now
      captured, or none. */
  ghost predicate Resolved(a: seq<FunctionScope>, b: seq<FunctionScope>, x: Name, r: int)
    requires a != [] && b != [] && WellFormed(b) && ChainExtends(a, b) && r < |b[0].upvalues|
  {
    match Lexical(a[1..], x)
    case None => r == -1 && b == a
    case Some(p) =>
      && r >= 0 && Denotes(b, r) == Place(p.level + 1, p.slot)
      && p.level + 1 < |b| && p.slot < |b[p.level + 1].locals| && b[p.level + 1].locals[p.slot].isCaptured
      && MarksOnly(a, b, Place(p.level + 1, p.slot))
  }

  lemma ResolvedLocally(a: seq<FunctionScope>, b: seq<FunctionScope>, x: Name, local: nat, r: nat)
    requires |a| > 1 && |b| > 1 && WellFormed(b) && ChainExtends(a, b) && r < |b[0].upvalues|
    requires FindLocal(a[1].locals, x) == local && Denotes(b, r) == Place(1, local)
    requires local < |b[1].locals| && b[1].locals[local].isCaptured && MarksOnly(a, b, Place(1, local))
    ensures Resolved(a, b, x, r)
  {
    hide WellFormed, ChainExtends, Denotes, MarksOnly;
    assert a[1..][0] == a[1];
  }

  lemma NotResolvedOutside(f: FunctionScope, outer: seq<FunctionScope>, outer': seq<FunctionScope>, x: Name)
    requires outer != [] && outer' != [] && WellFormed(outer')
    requires ChainExtends(outer, outer') && Resolved(outer, outer', x, -1)
    requires FindLocal(outer[0].locals, x) < 0 && WellFormed([f] + outer') && ChainExtends([f] + outer, [f] + outer')
    ensures Resolved([f] + outer, [f] + outer', x, -1)
  {
    hide WellFormed, ChainExtends, MarksOnly;
    assert ([f] + outer)[1..] == outer;
    LexicalSteps(outer, x);
  }

  lemma MarksOutward(
    f: FunctionScope, g: FunctionScope, outer: seq<FunctionScope>, outer': seq<FunctionScope>, p: Place
  )
    requires ChainExtends(outer, outer') && ChainExtends([f] + outer, [g] + outer')
    requires f.locals == g.locals && MarksOnly(outer, outer', p)
    ensures MarksOnly([f] + outer, [g] + outer', Place(p.level + 1, p.slot))
  {
    var a, b := [f] + outer, [g] + outer';
    forall k, i | 0 <= k < |a| && 0 <= i < |a[k].locals| ensures
      b[k].locals[i].isCaptured && !a[k].locals[i].isCaptured ==> Place(k, i) == Place(p.level + 1, p.slot)
    {
      if k > 0 && b[k].locals[i].isCaptured && !a[k].locals[i].isCaptured {
        assert a[k] == outer[k - 1] && b[k] == outer'[k - 1];
        assert Place(k - 1, i) == p;
      }
    }
  }

  lemma ResolvedOutside(
    f: FunctionScope, g: FunctionScope, outer: seq<FunctionScope>, outer': seq<FunctionScope>, x: Name, upvalue: nat,
    r: nat
  )
    requires outer != [] && outer' != [] && WellFormed(outer')
    requires ChainExtends(outer, outer') && upvalue < |outer'[0].upvalues|
    requires Resolved(outer, outer', x, upvalue) && FindLocal(outer[0].locals, x) < 0 && f.locals == g.locals
    requires WellFormed([g] + outer') && ChainExtends([f] + outer, [g] + outer') && r < |g.upvalues|
    requires g.upvalues[r] == Descriptor(false, upvalue)
    ensures Resolved([f] + outer, [g] + outer', x, r)
  {
    hide WellFormed, ChainExtends, MarksOnly;
    var a, b := [f] + outer, [g] + outer';
    assert a[1..] == outer && b[1..] == outer';
    LexicalSteps(outer, x);
    var p := Lexical(outer, x).value;
    var q := Lexical(outer[1..], x).value;
    assert Denotes(b, r) == Place(p.level + 1, p.slot);
    MarksOutward(f, g, outer, outer', Place(q.level + 1, q.slot));
  }

  // ----- leaving a scope -----

  /** What the end of a scope emits: plain pops, and closing pops for captured variables. */
  datatype ExitOp = PopSlots(n: nat) | CloseSlot

  function Flush(pending: nat): seq<ExitOp> {
    if pending > 0 then [PopSlots(pending)] else []
  }

  /** The operations that drop variables, innermost first, given which of them are captured and how many pops are
      pending. */
  function ScopeExit(captured: seq<bool>, pending: nat): seq<ExitOp> {
    if captured == [] then Flush(pending)
    else if captured[0] then Flush(pending) + [CloseSlot] + ScopeExit(captured[1..], 0)
    else ScopeExit(captured[1..], pending + 1)
  }

  /** Which of the variables in slots `lo` to `hi` are captured, innermost first. */
  function CapturedIn(locals: seq<Local>, lo: nat, hi: nat): (flags: seq<bool>)
    requires lo <= hi <= |locals|
    ensures |flags| == hi - lo
    ensures forall i :: 0 <= i < |flags| ==> flags[i] == locals[hi - 1 - i].isCaptured
  {
    seq(hi - lo, i requires 0 <= i < hi - lo => locals[hi - 1 - i].isCaptured)
  }

  lemma ExitStep(locals: seq<Local>, lo: nat, hi: nat, pending: nat)
    requires lo < hi <= |locals|
    ensures
      ScopeExit(CapturedIn(locals, lo, hi), pending) ==
        if locals[hi - 1].isCaptured then Flush(pending) + [CloseSlot] + ScopeExit(CapturedIn(locals, lo, hi - 1), 0)
        else ScopeExit(CapturedIn(locals, lo, hi - 1), pending + 1)
  {
    assert CapturedIn(locals, lo, hi)[1..] == CapturedIn(locals, lo, hi - 1);
  }

  /** The operations so far and those to come, before and after one variable. */
  lemma ExitGoesOn(ops: seq<ExitOp>, locals: seq<Local>, lo: nat, hi: nat, pending: nat)
    requires lo < hi <= |locals|
    ensures
      ops + ScopeExit(CapturedIn(locals, lo, hi), pending) ==
        if locals[hi - 1].isCaptured then
          ops + Flush(pending) + [CloseSlot] + ScopeExit(CapturedIn(locals, lo, hi - 1), 0)
        else ops + ScopeExit(CapturedIn(locals, lo, hi - 1), pending + 1)
  {
    hide ScopeExit, CapturedIn, Flush;
    ExitStep(locals, lo, hi, pending);
    var later := ScopeExit(CapturedIn(locals, lo, hi - 1), 0);
    assert ops + (Flush(pending) + [CloseSlot] + later) == ops + Flush(pending) + [CloseSlot] + later;
  }

  lemma NothingLeft(pending: nat)
    ensures ScopeExit([], pending) == Flush(pending)
  {
  }

  /** The first operation drops as many variables as it says, and none of them is captured unless it closes. */
  lemma {:induction false} ExitShape(captured: seq<bool>, pending: nat)
    requires ScopeExit(captured, pending) != []
    ensures
      var ops := ScopeExit(captured, pending);
      match ops[0]
      case PopSlots(n) =>
        && pending <= n <= pending + |captured| && (forall k :: 0 <= k < n - pending ==> !captured[k])
        && ops[1..] == ScopeExit(captured[n - pending..], 0)
      case CloseSlot => pending == 0 && captured != [] && captured[0] && ops[1..] == ScopeExit(captured[1..], 0)
  {
    if captured != [] {
      if captured[0] {
        if pending > 0 {
          assert ScopeExit(captured, 0) == [CloseSlot] + ScopeExit(captured[1..], 0);
        }
      } else {
        ExitShape(captured[1..], pending + 1);
        var n := match ScopeExit(captured, pending)[0] case PopSlots(n) => n case CloseSlot => 0;
        if n > pending {
          assert captured[1..][n - (pending + 1)..] == captured[n - pending..];
          assert forall k :: 0 < k < n - pending ==> captured[k] == captured[1..][k - 1];
        }
      }
    }
  }

  lemma {:induction false} ExitDone(captured: seq<bool>)
    requires ScopeExit(captured, 0) == []
    ensures captured == []
  {
    if captured != [] && !captured[0] {
      ExitPending(captured[1..], 1);
    }
  }

  lemma {:induction false} ExitPending(captured: seq<bool>, pending: nat)
    requires pending > 0
    ensures ScopeExit(captured, pending) != []
  {
    if captured != [] && !captured[0] {
      ExitPending(captured[1..], pending + 1);
    }
  }

  /** How many variables remain when those deeper than `depth` are gone. */
  function Kept(locals: seq<Local>, depth: int): (n: nat)
    ensures n <= |locals| && (n > 0 ==> locals[n - 1].depth <= depth)
    ensures forall i :: n <= i < |locals| ==> locals[i].depth > depth
  {
    if locals == [] || locals[|locals| - 1].depth <= depth then |locals| else Kept(locals[..|locals| - 1], depth)
  }

  class Parser {
    var hadError: bool
  }

  class FunctionCompiler {
    const parser: Parser
    const enclosing: FunctionCompiler?
    ghost const height: nat
    /** This function's compiler and all those around it. */
    ghost const repr: set<FunctionCompiler>
    var locals: seq<Local>
    var upvalues: seq<Descriptor>

    /** Slot 0 holds the function itself, or the receiver. */
    constructor (parser: Parser, enclosing: FunctionCompiler?, self: Name)
      requires enclosing != null ==> enclosing.parser == parser && enclosing.Nested()
      ensures this.parser == parser && this.enclosing == enclosing && Nested()
      ensures locals == [Local(self, 0, false)] && upvalues == []
    {
      this.parser, this.enclosing := parser, enclosing;
      height := if enclosing == null then 0 else enclosing.height + 1;
      repr := {this} + if enclosing == null then {} else enclosing.repr;
      locals, upvalues := [Local(self, 0, false)], [];
    }

    /** Enclosing functions come to an end. */
    ghost predicate Nested()
      decreases height
    {
      if enclosing == null then repr == {this}
      else
        && enclosing.height < height && enclosing.parser == parser && enclosing.Nested()
        && this !in enclosing.repr && repr == {this} + enclosing.repr
    }

    ghost function Chain(): (chain: seq<FunctionScope>)
      requires Nested()
      reads repr`locals, repr`upvalues
      ensures chain != [] && chain[0] == FunctionScope(locals, upvalues)
      decreases height
    {
      [FunctionScope(locals, upvalues)] + if enclosing == null then [] else enclosing.Chain()
    }

    /** Upvalue of `index`, added unless it is there already. */
    method AddUpvalue(index: nat, isLocal: bool) returns (i: nat)
      modifies this`upvalues, parser`hadError
      ensures old(parser.hadError) ==> parser.hadError
      ensures i < |upvalues|
      ensures
        if Descriptor(isLocal, index) in old(upvalues) then parser.hadError == old(parser.hadError) && upvalues ==
          old(upvalues)
        else if |old(upvalues)| == MAX_UPVALUES then parser.hadError && upvalues == old(upvalues)
        else parser.hadError == old(parser.hadError) && upvalues == old(upvalues) + [Descriptor(isLocal, index)]
      ensures
        && parser.hadError == old(parser.hadError)
        && (Descriptor(isLocal, index) in old(upvalues) || |old(upvalues)| != MAX_UPVALUES) ==>
          upvalues[i] == Descriptor(isLocal, index)
    {
      i := 0;
      while i < |upvalues|
        invariant i <= |upvalues| && forall j :: 0 <= j < i ==> upvalues[j] != Descriptor(isLocal, index)
      {
        if upvalues[i].index == index && upvalues[i].isLocal == isLocal {
          return;
        }
        i := i + 1;
      }
      if |upvalues| == MAX_UPVALUES {
        parser.hadError := true;
        return 0;
      }
      upvalues := upvalues + [Descriptor(isLocal, index)];
    }

    /** Drops the variables deeper than `depth`. */
    method EndScope(depth: int) returns (ops: seq<ExitOp>)
      modifies this`locals
      ensures locals == old(locals)[..Kept(old(locals), depth)]
      ensures ops == ScopeExit(CapturedIn(old(locals), |locals|, |old(locals)|), 0)
    {
      hide ScopeExit, Kept, CapturedIn;
      ghost var all, keep := locals, Kept(locals, depth);
      var numPendingPop: nat := 0;
      ops := [];
      while locals != [] && locals[|locals| - 1].depth > depth
        invariant keep <= |locals| <= |all| && locals == all[..|locals|]
        invariant
          ops + ScopeExit(CapturedIn(all, keep, |locals|), numPendingPop) == ScopeExit(CapturedIn(all, keep, |all|), 0)
        decreases |locals|
      {
        ExitGoesOn(ops, all, keep, |locals|, numPendingPop);
        assert locals[|locals| - 1] == all[|locals| - 1];
        if locals[|locals| - 1].isCaptured {
          if numPendingPop > 0 {
            ops := ops + [PopSlots(numPendingPop)];
            numPendingPop := 0;
          }
          ops := ops + [CloseSlot];
        } else {
          numPendingPop := numPendingPop + 1;
        }
        locals := locals[..|locals| - 1];
      }
      NothingLeft(numPendingPop);
      assert CapturedIn(all, keep, |locals|) == [];
      if numPendingPop > 0 {
        ops := ops + [PopSlots(numPendingPop)];
      }
    }

    method ResolveLocal(x: Name) returns (i: int)
      modifies parser`hadError
      ensures i == FindLocal(locals, x)
      ensures parser.hadError == (old(parser.hadError) || (i >= 0 && locals[i].depth == -1))
    {
      i := |locals| - 1;
      while i >= 0
        invariant -1 <= i < |locals| && parser.hadError == old(parser.hadError)
        invariant FindLocal(locals, x) == FindLocal(locals[..i + 1], x)
      {
        if locals[i].name == x {
          if locals[i].depth == -1 {
            parser.hadError := true;
          }
          return;
        }
        assert locals[..i + 1][..i] == locals[..i];
        i := i - 1;
      }
    }

    /** The upvalue that stands for the lexically nearest variable `x` of an enclosing function, or -1. */
    method ResolveUpvalue(x: Name) returns (r: int)
      requires Nested() && WellFormed(Chain()) && WellMarked(Chain())
      modifies parser`hadError, repr`locals, repr`upvalues
      ensures WellFormed(Chain()) && WellMarked(Chain()) && ChainExtends(old(Chain()), Chain())
      ensures -1 <= r < |upvalues| && locals == old(locals)
      ensures old(parser.hadError) ==> parser.hadError
      ensures !parser.hadError ==> Resolved(old(Chain()), Chain(), x, r)
      decreases height
    {
      hide WellFormed, WellMarked, Lexical, Denotes, ChainExtends, MarksOnly, Resolved;
      if enclosing == null {
        SameChain(Chain());
        NoneOutside(x);
        return -1;
      }
      ghost var f, outer := FunctionScope(locals, upvalues), enclosing.Chain();
      assert Chain() == [f] + outer && Chain()[1..] == outer;
      TailWellFormed(f, outer);
      TailMarked(f, outer);
      var local := enclosing.ResolveLocal(x);
      if local != -1 {
        r := CaptureLocal(local);
        if !parser.hadError {
          ResolvedLocally([f] + outer, Chain(), x, local, r);
        }
        return;
      }
      var upvalue := enclosing.ResolveUpvalue(x);
      ghost var grown := enclosing.Chain();
      OuterMayGrow(f, outer, grown);
      OuterMayMark(f, outer, grown);
      assert Chain() == [f] + grown;
      if upvalue == -1 {
        if !parser.hadError {
          NotResolvedOutside(f, outer, grown, x);
        }
        return -1;
      }
      ghost var good := !parser.hadError;
      r := CaptureOuter(upvalue, outer);
      if !parser.hadError {
        assert Chain() == [FunctionScope(locals, upvalues)] + grown;
        ResolvedOutside(f, FunctionScope(locals, upvalues), outer, grown, x, upvalue, r);
      }
    }

    lemma NoneOutside(x: Name)
      requires Nested() && enclosing == null && WellFormed(Chain()) && ChainExtends(Chain(), Chain())
      ensures Resolved(Chain(), Chain(), x, -1)
    {
    }

    /** Captures local variable `local` of the enclosing function. */
    method CaptureLocal(local: nat) returns (r: int)
      requires Nested() && WellFormed(Chain()) && WellMarked(Chain()) && enclosing != null && local < |enclosing.locals|
      modifies parser`hadError, repr`locals, repr`upvalues
      ensures WellFormed(Chain()) && WellMarked(Chain()) && ChainExtends(old(Chain()), Chain())
      ensures 0 <= r < |upvalues| && locals == old(locals)
      ensures old(parser.hadError) ==> parser.hadError
      ensures !parser.hadError ==>
              && Denotes(Chain(), r) == Place(1, local)
              && 1 < |Chain()| && local < |Chain()[1].locals| && Chain()[1].locals[local].isCaptured
              && MarksOnly(old(Chain()), Chain(), Place(1, local))
    {
      hide WellFormed, WellMarked, ChainExtends, MarksOnly;
      ghost var f, outer := FunctionScope(locals, upvalues), enclosing.Chain();
      assert Chain() == [f] + outer;
      TailWellFormed(f, outer);
      TailMarked(f, outer);
      enclosing.locals := enclosing.locals[local := enclosing.locals[local].(isCaptured := true)];
      ghost var marked := [Marked(outer[0], local)] + outer[1..];
      assert enclosing.Chain() == marked;
      MarkKeepsWellFormed(outer, local);
      MarkKeepsMarked(outer, local);
      r := AddCaptured(Descriptor(true, local), outer);
      assert Chain() == [FunctionScope(locals, upvalues)] + marked;
      MarkMarksOnly(f, FunctionScope(locals, upvalues), outer, local);
    }

    /** Captures upvalue `upvalue` of the enclosing function, which has grown from `outer`. */
    method CaptureOuter(upvalue: nat, ghost outer: seq<FunctionScope>) returns (r: int)
      requires Nested() && enclosing != null && WellFormed(enclosing.Chain()) && ChainExtends(outer, enclosing.Chain())
      requires WellMarked(enclosing.Chain()) && WellMarked([FunctionScope(locals, upvalues)] + outer)
      requires WellFormed([FunctionScope(locals, upvalues)] + outer) && upvalue < |enclosing.upvalues|
      modifies this`upvalues, parser`hadError
      ensures WellFormed(Chain()) && WellMarked(Chain())
      ensures ChainExtends([FunctionScope(locals, old(upvalues))] + outer, Chain())
      ensures Chain()[1..] == old(enclosing.Chain())
      ensures enclosing.Chain() == old(enclosing.Chain()) && 0 <= r < |upvalues|
      ensures old(parser.hadError) ==> parser.hadError
      ensures !parser.hadError ==> upvalues[r] == Descriptor(false, upvalue)
    {
      hide WellFormed, WellMarked, ChainExtends;
      r := AddCaptured(Descriptor(false, upvalue), outer);
    }

    /** Adds the upvalue `d`, once the enclosing functions have grown from `outer`. */
    method AddCaptured(d: Descriptor, ghost outer: seq<FunctionScope>) returns (r: int)
      requires Nested() && enclosing != null && WellFormed(enclosing.Chain()) && ChainExtends(outer, enclosing.Chain())
      requires WellMarked(enclosing.Chain()) && WellMarked([FunctionScope(locals, upvalues)] + outer)
      requires WellFormed([FunctionScope(locals, upvalues)] + outer) && DescriptorOk(d, enclosing.Chain()[0])
      requires d.isLocal ==> enclosing.locals[d.index].isCaptured
      modifies this`upvalues, parser`hadError
      ensures WellFormed(Chain()) && WellMarked(Chain())
      ensures ChainExtends([FunctionScope(locals, old(upvalues))] + outer, Chain())
      ensures Chain()[1..] == old(enclosing.Chain())
      ensures 0 <= r < |upvalues| && (old(parser.hadError) ==> parser.hadError)
      ensures (!parser.hadError ==> upvalues[r] == d)
    {
      hide WellFormed, WellMarked, ChainExtends;
      ghost var f, grown := FunctionScope(locals, upvalues), enclosing.Chain();
      assert this !in enclosing.repr;
      OuterMayGrow(f, outer, grown);
      OuterMayMark(f, outer, grown);
      r := AddUpvalue(d.index, d.isLocal);
      assert enclosing.Chain() == grown;
      assert Chain() == [FunctionScope(locals, upvalues)] + grown && Chain()[1..] == grown;
      if upvalues != f.upvalues {
        AddKeepsWellFormed(f, grown, d);
        AddExtends(f, grown, d);
        AddKeepsMarked(f, grown, d);
        ChainExtendsTwice([f] + outer, [f] + grown, Chain());
      }
    }
  }

  // ----- what closures refer to -----

  /** The cell of every variable of every enclosing function, by level; level 0 is the innermost. */
  type Environment = seq<seq<nat>>

  ghost predicate Covers(env: Environment, p: Place) {
    p.level < |env| && p.slot < |env[p.level]|
  }

  /** The upvalues of a closure over the innermost function of `chain` refer to the variables the descriptors stand
      for. */
  ghost predicate RefersTo(chain: seq<FunctionScope>, env: Environment, upvalues: seq<nat>)
    requires WellFormed(chain) && chain != []
  {
    && |upvalues| == |chain[0].upvalues|
    && forall i :: 0 <= i < |upvalues| ==>
         Covers(env, Denotes(chain, i)) && upvalues[i] == env[Denotes(chain, i).level][Denotes(chain, i).slot]
  }

  /** The cells a new closure gets: from the running function's slots, or from its own closure. */
  function Selected(descriptors: seq<Descriptor>, slots: seq<nat>, upvalues: seq<nat>): (cells: seq<nat>)
    requires forall i :: 0 <= i < |descriptors| ==>
      descriptors[i].index < if descriptors[i].isLocal then |slots| else |upvalues|
    ensures |cells| == |descriptors|
  {
    seq(|descriptors|, i requires 0 <= i < |descriptors| =>
      if descriptors[i].isLocal then slots[descriptors[i].index] else upvalues[descriptors[i].index])
  }

  /** A closure made while its enclosing function runs refers to exactly the variables resolution found:
      if the running closure does, so does the new one. */
  lemma ClosureRefersToLexicalVariables(
    f: FunctionScope, chain: seq<FunctionScope>, env: Environment, own: seq<nat>, upvalues: seq<nat>
  )
    requires chain != [] && WellFormed([f] + chain) && WellFormed(chain)
    requires |env| == |chain| && |env[0]| >= |chain[0].locals| && RefersTo(chain, env, upvalues)
    ensures
      forall i :: 0 <= i < |f.upvalues| ==> f.upvalues[i].index < if f.upvalues[i].isLocal then |env[0]| else |upvalues|
    ensures RefersTo([f] + chain, [own] + env, Selected(f.upvalues, env[0], upvalues))
  {
    var all := [f] + chain;
    assert all[1..] == chain;
    forall i | 0 <= i < |f.upvalues| ensures f.upvalues[i].index < if f.upvalues[i].isLocal then |env[0]|
                                                                   else |upvalues| {
      assert DescriptorOk(f.upvalues[i], all[1]);
    }
    forall i | 0 <= i < |f.upvalues|
      ensures
        var p := Denotes(all, i);
        Covers([own] + env, p) && Selected(f.upvalues, env[0], upvalues)[i] == ([own] + env)[p.level][p.slot]
    {
      var d := f.upvalues[i];
      if d.isLocal {
        assert DescriptorOk(d, all[1]);
        assert Denotes(all, i) == Place(1, d.index);
      } else {
        var q := Denotes(chain, d.index);
        assert Denotes(all, i) == Place(q.level + 1, q.slot);
        assert ([own] + env)[q.level + 1] == env[q.level];
      }
    }
  }
}
