/** One-pass emission with patching produces the structured code, as long as breaks are told apart by scope depth. */
module Patching {
  import opened Options
  import opened Values
  import opened Syntax
  import opened Bytecode
  import opened Codegen
  import opened Emit

  // ----- patching many holes -----

  /** Makes every listed break lead to `target`. */
  function PatchAll(code: Code, sites: seq<BreakJump>, target: int): (r: Code)
    ensures |r| == |code|
    decreases |sites|
  {
    if sites == [] then code
    else PatchAll(Patched(code, sites[0].offset, target - sites[0].offset - 2), sites[1..], target)
  }

  predicate AllFit(sites: seq<BreakJump>, target: int) {
    forall i :: 0 <= i < |sites| ==> Fits(target - sites[i].offset - 2)
  }

  /** The holes of a loop at depth `d` lie between `lo` and `hi`. */
  ghost predicate Sites(sites: seq<BreakJump>, d: int, lo: nat, hi: nat) {
    forall i :: 0 <= i < |sites| ==> sites[i].depth == d && lo <= sites[i].offset && sites[i].offset + 2 <= hi
  }

  lemma PatchedIn(a: Code, b: Code, at: nat, n: int)
    requires at + 2 <= |a|
    ensures Patched(a + b, at, n) == Patched(a, at, n) + b
  {
    assert (a + b)[..at] == a[..at];
    assert (a + b)[at + 2..] == a[at + 2..] + b;
    assert a[..at] + U16(n) + (a[at + 2..] + b) == a[..at] + U16(n) + a[at + 2..] + b;
  }

  lemma PatchedCommutes(code: Code, i: nat, m: int, j: nat, n: int)
    requires i + 2 <= j || j + 2 <= i
    ensures Patched(Patched(code, i, m), j, n) == Patched(Patched(code, j, n), i, m)
  {
    if i + 2 <= |code| && j + 2 <= |code| {
      var a, b := Patched(Patched(code, i, m), j, n), Patched(Patched(code, j, n), i, m);
      forall k | 0 <= k < |code| ensures a[k] == b[k] {
        PatchedAt(code, i, m, k);
        PatchedAt(Patched(code, i, m), j, n, k);
        PatchedAt(code, j, n, k);
        PatchedAt(Patched(code, j, n), i, m, k);
      }
    }
  }

  lemma PatchedAt(code: Code, at: nat, n: int, k: nat)
    requires at + 2 <= |code| && k < |code|
    ensures Patched(code, at, n)[k] == if k == at then U16(n)[0] else if k == at + 1 then U16(n)[1] else code[k]
  {
  }

  lemma {:induction false} PatchAllIn(a: Code, b: Code, sites: seq<BreakJump>, target: int)
    requires forall i :: 0 <= i < |sites| ==> sites[i].offset + 2 <= |a|
    ensures PatchAll(a + b, sites, target) == PatchAll(a, sites, target) + b
    decreases |sites|
  {
    hide Patched;
    if sites != [] {
      PatchedIn(a, b, sites[0].offset, target - sites[0].offset - 2);
      PatchAllIn(Patched(a, sites[0].offset, target - sites[0].offset - 2), b, sites[1..], target);
    }
  }

  lemma {:induction false} PatchAllTwice(code: Code, s1: seq<BreakJump>, s2: seq<BreakJump>, target: int)
    ensures PatchAll(code, s1 + s2, target) == PatchAll(PatchAll(code, s1, target), s2, target)
    decreases |s1|
  {
    hide Patched;
    if s1 == [] {
      assert s1 + s2 == s2;
    } else {
      assert (s1 + s2)[1..] == s1[1..] + s2;
      PatchAllTwice(Patched(code, s1[0].offset, target - s1[0].offset - 2), s1[1..], s2, target);
    }
  }

  lemma {:induction false} PatchAllCommutes(code: Code, sites: seq<BreakJump>, target: int, at: nat, n: int)
    requires forall i :: 0 <= i < |sites| ==> sites[i].offset + 2 <= at || at + 2 <= sites[i].offset
    ensures PatchAll(Patched(code, at, n), sites, target) == Patched(PatchAll(code, sites, target), at, n)
    decreases |sites|
  {
    hide Patched;
    if sites != [] {
      var m := target - sites[0].offset - 2;
      PatchedCommutes(code, at, n, sites[0].offset, m);
      PatchAllCommutes(Patched(code, sites[0].offset, m), sites[1..], target, at, n);
    }
  }

  /** Patching at the end of a loop stops at the breaks of the loops around it. */
  lemma {:induction false} PatchBreaksPatchesOwn(em: Em, own: seq<BreakJump>, outer: seq<BreakJump>)
    requires em.breaks == own + outer
    requires forall i :: 0 <= i < |own| ==> own[i].depth >= em.loopDepth
    requires outer == [] || outer[0].depth < em.loopDepth
    ensures
      PatchBreaks(em) ==
        FailIf(em.(code := PatchAll(em.code, own, |em.code|), breaks := outer), !AllFit(own, |em.code|))
    decreases |own|
  {
    hide Patched;
    if own != [] {
      var next := PatchJump(em, own[0].offset).(breaks := em.breaks[1..]);
      assert em.breaks[1..] == own[1..] + outer;
      PatchBreaksPatchesOwn(next, own[1..], outer);
      AllFitSplits(own, |em.code|);
    } else {
      assert em.breaks == outer;
    }
  }

  lemma AllFitSplits(sites: seq<BreakJump>, target: int)
    requires sites != []
    ensures AllFit(sites, target) <==> Fits(target - sites[0].offset - 2) && AllFit(sites[1..], target)
  {
    if AllFit(sites[1..], target) && Fits(target - sites[0].offset - 2) {
      forall i | 0 <= i < |sites| ensures Fits(target - sites[i].offset - 2) {
        if i > 0 {
          assert sites[i] == sites[1..][i - 1];
        }
      }
    }
  }

  lemma AllFitConcat(s1: seq<BreakJump>, s2: seq<BreakJump>, target: int)
    ensures AllFit(s1 + s2, target) <==> AllFit(s1, target) && AllFit(s2, target)
  {
    if AllFit(s1 + s2, target) {
      assert forall i :: 0 <= i < |s1| ==> s1[i] == (s1 + s2)[i];
      assert forall i :: 0 <= i < |s2| ==> s2[i] == (s1 + s2)[|s1| + i];
    }
  }

  // ----- which programs keep their breaks apart -----

  /** Does a `break` of the loop around `s` occur in `s`? */
  predicate HasBreak(s: Stmt) {
    match s
    case Block(ds) => HasBreaks(ds)
    case If(_, t, e) => HasBreak(t) || (e.Some? && HasBreak(e.value))
    case Break => true
    case _ => false
  }

  predicate HasBreaks(ds: Decls) {
    match ds
    case End => false
    case More(d, rest) => (d.Do? && HasBreak(d.s)) || HasBreaks(rest)
  }

  /** No `while` is met while a break of a loop at its own depth is pending; `pending` is the depth of the newest
      pending break, or -1. */
  predicate BreakSafe(s: Stmt, depth: nat, loopDepth: int, pending: int) {
    match s
    case Block(ds) => AllBreakSafe(ds, depth + 1, loopDepth, pending)
    case If(_, t, e) =>
      && BreakSafe(t, depth, loopDepth, pending)
      && (e.Some? ==> BreakSafe(e.value, depth, loopDepth, if HasBreak(t) then loopDepth else pending))
    case While(_, b) => pending < depth && BreakSafe(b, depth, depth, pending)
    case For(_, _, _, b) => BreakSafe(b, depth + 1, depth + 1, pending)
    case _ => true
  }

  predicate AllBreakSafe(ds: Decls, depth: nat, loopDepth: int, pending: int) {
    match ds
    case End => true
    case More(d, rest) =>
      && (d.Do? ==> BreakSafe(d.s, depth, loopDepth, pending))
      && AllBreakSafe(rest, depth, loopDepth, if d.Do? && HasBreak(d.s) then loopDepth else pending)
  }

  /** Every loop body is a block. */
  predicate BlockBodies(s: Stmt) {
    match s
    case Block(ds) => AllBlockBodies(ds)
    case If(_, t, e) => BlockBodies(t) && (e.Some? ==> BlockBodies(e.value))
    case While(_, b) => b.Block? && BlockBodies(b)
    case For(_, _, _, b) => b.Block? && BlockBodies(b)
    case _ => true
  }

  predicate AllBlockBodies(ds: Decls) {
    match ds
    case End => true
    case More(d, rest) => (d.Do? ==> BlockBodies(d.s)) && AllBlockBodies(rest)
  }

  /** Programs whose loop bodies are blocks keep their breaks apart. */
  lemma {:induction false} BlockBodiesAreSafe(s: Stmt, depth: nat, loopDepth: int, pending: int)
    requires BlockBodies(s) && pending < depth && loopDepth < depth
    ensures BreakSafe(s, depth, loopDepth, pending)
  {
    match s
    case Block(ds) => AllBlockBodiesAreSafe(ds, depth + 1, loopDepth, pending);
    case If(_, t, e) =>
      BlockBodiesAreSafe(t, depth, loopDepth, pending);
      if e.Some? {
        BlockBodiesAreSafe(e.value, depth, loopDepth, if HasBreak(t) then loopDepth else pending);
      }
    case While(_, b) => AllBlockBodiesAreSafe(b.body, depth + 1, depth, pending);
    case For(_, _, _, b) => AllBlockBodiesAreSafe(b.body, depth + 2, depth + 1, pending);
    case _ =>
  }

  lemma {:induction false} AllBlockBodiesAreSafe(ds: Decls, depth: nat, loopDepth: int, pending: int)
    requires AllBlockBodies(ds) && pending < depth && loopDepth < depth
    ensures AllBreakSafe(ds, depth, loopDepth, pending)
  {
    match ds
    case End =>
    case More(d, rest) =>
      if d.Do? {
        BlockBodiesAreSafe(d.s, depth, loopDepth, pending);
      }
      AllBlockBodiesAreSafe(rest, depth, loopDepth, if d.Do? && HasBreak(d.s) then loopDepth else pending);
  }

  // ----- what a construct has emitted -----

  /** The scene the compiler's state describes. */
  function SceneOf(em: Em): Scope {
    Scope(em.locals, em.depth, if em.loopStart < 0 then -1 else em.loopDepth)
  }

  function Newest(em: Em): int {
    if em.breaks == [] then -1 else em.breaks[0].depth
  }

  ghost predicate WellPlaced(em: Em) {
    && (em.loopStart >= 0 ==> 0 <= em.loopDepth <= em.depth) && em.loopStart >= -1 && Newest(em) <= em.depth
    && forall i :: 0 <= i < |em.locals| ==> em.locals[i].depth <= em.depth
  }

  /** From `em` to `em2` the code grew by `code`, once the breaks in `own` lead to `brk`. */
  ghost predicate Emitted(em: Em, em2: Em, own: seq<BreakJump>, brk: int, code: Code, constants: seq<Num>) {
    && PatchAll(em2.code, own, brk) == em.code + code
    && em2.constants == em.constants + constants
    && em2.breaks == own + em.breaks
    && Sites(own, em.loopDepth, |em.code|, |em2.code|)
    && em2.loopDepth == em.loopDepth
  }

  lemma EmittedSize(em: Em, em2: Em, own: seq<BreakJump>, brk: int, code: Code, constants: seq<Num>)
    requires Emitted(em, em2, own, brk, code, constants)
    ensures |em2.code| == |em.code| + |code| && |em2.constants| == |em.constants| + |constants|
  {
  }

  lemma EmittedTwice(em: Em, em1: Em, em2: Em, own1: seq<BreakJump>, own2: seq<BreakJump>, brk: int,
                     c1: Code, c2: Code, k1: seq<Num>, k2: seq<Num>)
    requires Emitted(em, em1, own1, brk, c1, k1) && Emitted(em1, em2, own2, brk, c2, k2)
    ensures Emitted(em, em2, own2 + own1, brk, c1 + c2, k1 + k2)
  {
    hide PatchAll;
    PatchAllTwice(em2.code, own2, own1, brk);
    PatchAllIn(em1.code, c2, own1, brk);
    assert em.code + c1 + c2 == em.code + (c1 + c2);
    assert em.constants + k1 + k2 == em.constants + (k1 + k2);
    assert own2 + (own1 + em.breaks) == own2 + own1 + em.breaks;
    EmittedSize(em1, em2, own2, brk, c2, k2);
  }

  /** Code without breaks. */
  lemma EmittedBytes(
    em: Em, em1: Em, em2: Em, own: seq<BreakJump>, brk: int, code: Code, constants: seq<Num>, bytes: Code
  )
    requires Emitted(em, em1, own, brk, code, constants)
    requires
      em2 == em1.(code := em1.code + bytes, err := em2.err, loopStart := em2.loopStart,
                  locals := em2.locals, depth := em2.depth)
    ensures Emitted(em, em2, own, brk, code + bytes, constants)
  {
    hide PatchAll;
    PatchAllIn(em1.code, bytes, own, brk);
    assert em.code + code + bytes == em.code + (code + bytes);
  }

  lemma EmittedNothing(em: Em, brk: int)
    ensures Emitted(em, em, [], brk, [], [])
  {
    assert em.code + [] == em.code && em.constants + [] == em.constants && [] + em.breaks == em.breaks;
  }

  /** A whole expression. */
  lemma EmittedExpr(em: Em, e: Expr, brk: int)
    ensures
      var em2 := EmitExpr(e, em);
      && Emitted(em, em2, [], brk, ExprCode(e, em.locals, |em.constants|), ExprConstants(e))
      && (em2.err <==> em.err || !ExprOk(e, em.locals, |em.constants|))
      && em2.locals == em.locals && em2.depth == em.depth && em2.loopStart == em.loopStart
  {
    hide ExprCode, ExprOk, ExprConstants, EmitExpr;
    ExprEmits(e, em);
  }

  /** Patching a hole of this construct's own jump: the code reads as if the jump had been right from the start. */
  lemma EmittedPatch(
    em: Em, em2: Em, own: seq<BreakJump>, brk: int, pre: Code, op: byte, post: Code, constants: seq<Num>, n: int
  )
    requires Emitted(em, em2, own, brk, pre + [op, 0, 0] + post, constants)
    requires
      forall i :: 0 <= i < |own| ==>
        own[i].offset + 2 <= |em.code| + |pre| + 1 || |em.code| + |pre| + 3 <= own[i].offset
    ensures
      var em3 := em2.(code := Patched(em2.code, |em.code| + |pre| + 1, n));
      Emitted(em, em3, own, brk, pre + JumpCode(op, n) + post, constants)
  {
    hide PatchAll, Patched, U16;
    PatchAllCommutes(em2.code, own, brk, |em.code| + |pre| + 1, n);
    var a := em.code + pre;
    assert em.code + (pre + [op, 0, 0] + post) == a + [op, 0, 0] + post;
    PatchHole(a, op, post, n);
    assert a + JumpCode(op, n) + post == em.code + (pre + JumpCode(op, n) + post);
  }

  // ----- errors are never forgotten -----

  lemma {:induction false} ExprKeepsErr(e: Expr, em: Em)
    requires em.err
    ensures EmitExpr(e, em).err
  {
    hide ExprCode, ExprOk, ExprConstants, EmitExpr;
    ExprEmits(e, em);
  }

  lemma InitialKeepsErr(v: Option<Expr>, em: Em)
    requires em.err
    ensures EmitInitial(v, em).err
  {
    hide EmitExpr;
    if v.Some? {
      ExprKeepsErr(v.value, em);
    }
  }

  lemma VarKeepsErr(x: Name, v: Option<Expr>, em: Em)
    requires em.err || EmitDeclare(x, em).err
    ensures EmitVar(x, v, em).err
  {
    hide EmitInitial;
    InitialKeepsErr(v, EmitDeclare(x, em));
  }

  lemma {:induction false} PatchBreaksKeepsErr(em: Em)
    requires em.err
    ensures PatchBreaks(em).err
    decreases |em.breaks|
  {
    hide Patched;
    if em.breaks != [] && em.breaks[0].depth >= em.loopDepth {
      PatchBreaksKeepsErr(PatchJump(em, em.breaks[0].offset).(breaks := em.breaks[1..]));
    }
  }

  lemma {:induction false} StmtKeepsErr(s: Stmt, em: Em)
    requires em.err
    ensures EmitStmt(s, em).err
    decreases s, 0
  {
    hide EmitExpr, EmitLoop, EmitInit, Patched;
    match s
    case Eval(e) => ExprKeepsErr(e, em);
    case Block(ds) => DeclsKeepErr(ds, BeginScope(em));
    case If(c, t, e) =>
      ExprKeepsErr(c, em);
      StmtKeepsErr(t, EmitBytes(EmitJump(EmitExpr(c, em), JUMP_IF_FALSE), [POP]));
      if e.Some? {
        var em1 := EmitExpr(c, em);
        var em2 := EmitStmt(t, EmitBytes(EmitJump(em1, JUMP_IF_FALSE), [POP]));
        StmtKeepsErr(e.value, EmitBytes(PatchJump(EmitJump(em2, JUMP), |em1.code| + 1), [POP]));
      }
    case While(c, b) => LoopKeepsErr(Some(c), None, b, em);
    case For(init, test, inc, b) =>
      InitKeepsErr(init, BeginScope(em));
      LoopKeepsErr(test, inc, b, EmitInit(init, BeginScope(em)));
    case Break =>
    case Continue =>
  }

  lemma InitKeepsErr(i: ForInit, em: Em)
    requires em.err
    ensures EmitInit(i, em).err
  {
    hide EmitExpr, EmitVar;
    match i
    case NoInit =>
    case InitVar(x, v) => VarKeepsErr(x, v, em);
    case InitExpr(e) => ExprKeepsErr(e, em);
  }

  lemma TestKeepsErr(test: Option<Expr>, em: Em)
    requires em.err
    ensures EmitTest(test, em).err
  {
    hide EmitExpr;
    if test.Some? {
      ExprKeepsErr(test.value, em);
    }
  }

  lemma IncrementKeepsErr(inc: Option<Expr>, em: Em)
    requires em.err
    ensures EmitIncrement(inc, em).err
  {
    hide EmitExpr, Patched;
    if inc.Some? {
      ExprKeepsErr(inc.value, EmitJump(em, JUMP));
    }
  }

  lemma LoopEndKeepsErr(hasTest: bool, exit: nat, em: Em)
    requires em.err
    ensures EmitLoopEnd(hasTest, exit, em).err
  {
    hide PatchBreaks, Patched;
    var em1 := EmitBack(em, em.loopStart);
    PatchBreaksKeepsErr(if hasTest && exit >= 3 then EmitBytes(PatchJump(em1, exit - 3), [POP]) else em1);
  }

  lemma {:induction false} LoopKeepsErr(test: Option<Expr>, inc: Option<Expr>, b: Stmt, em: Em)
    requires em.err
    ensures EmitLoop(test, inc, b, em).err
    decreases b, 1
  {
    hide EmitTest, EmitIncrement, EmitStmt, EmitLoopEnd;
    TestKeepsErr(test, EnterLoop(em));
    var tested := EmitTest(test, EnterLoop(em));
    IncrementKeepsErr(inc, tested);
    StmtKeepsErr(b, EmitIncrement(inc, tested));
    LoopEndKeepsErr(test.Some?, |tested.code|, EmitStmt(b, EmitIncrement(inc, tested)));
  }

  lemma {:induction false} DeclsKeepErr(ds: Decls, em: Em)
    requires em.err
    ensures EmitDecls(ds, em).err
    decreases ds, 0
  {
    hide EmitStmt, EmitVar;
    match ds
    case End =>
    case More(d, rest) =>
      match d {
        case Declare(x, v) => VarKeepsErr(x, v, em);
        case Do(s) => StmtKeepsErr(s, em);
      }
      DeclsKeepErr(rest, EmitDecl(d, em));
  }

  // ----- statements -----

  /** What emitting a construct comes to: it fails exactly when the structured code would not fit, and otherwise it
      adds that code. */
  ghost predicate Outcome(em: Em, em2: Em, own: seq<BreakJump>, brk: int, code: Code, constants: seq<Num>,
                          ok: bool, okAtBrk: bool, breaks: bool) {
    && (em2.err <==> em.err || !ok)
    && (!em2.err ==> OutcomeOk(em, em2, own, brk, code, constants, okAtBrk, breaks))
  }

  ghost predicate OutcomeOk(
    em: Em, em2: Em, own: seq<BreakJump>, brk: int, code: Code, constants: seq<Num>, okAtBrk: bool, breaks: bool
  ) {
    && Emitted(em, em2, own, brk, code, constants) && em2.loopStart == em.loopStart
    && (okAtBrk <==> AllFit(own, brk)) && (breaks <==> own != []) && (breaks ==> em.loopStart >= 0)
  }

  ghost predicate StmtDone(s: Stmt, em: Em, em2: Em, own: seq<BreakJump>, brk: int) {
    var sc, pc, k := SceneOf(em), |em.code|, |em.constants|;
    && Outcome(em, em2, own, brk, StmtCode(s, sc, pc, k, Targets(brk, em.loopStart)), StmtConstants(s),
               StmtOk(s, sc, pc, k, Targets(0, em.loopStart)), StmtOk(s, sc, pc, k, Targets(brk, em.loopStart)),
               HasBreak(s))
    && (!em2.err ==> em2.locals == em.locals && em2.depth == em.depth)
  }

  lemma EvalEmits(e: Expr, em: Em, brk: nat)
    ensures StmtDone(Eval(e), em, EmitStmt(Eval(e), em), [], brk)
  {
    hide EmitExpr, ExprCode, ExprOk, ExprConstants;
    EmittedExpr(em, e, brk);
    var em1 := EmitExpr(e, em);
    EmittedBytes(em, em1, EmitBytes(em1, [POP]), [], brk, ExprCode(e, em.locals, |em.constants|), ExprConstants(e),
      [POP]);
  }

  lemma BreakEmits(em: Em, brk: nat) returns (own: seq<BreakJump>)
    requires WellPlaced(em)
    ensures StmtDone(Break, em, EmitStmt(Break, em), own, brk)
  {
    hide PopCode, U16, PatchAll, Patched, Deeper;
    var pops := PopCode(Deeper(em.locals, em.loopDepth));
    var at := |em.code| + |pops| + 1;
    own := [BreakJump(em.loopDepth, at)];
    if em.loopStart >= 0 {
      var pre := em.code + pops;
      PatchHole(pre, JUMP, [], brk - at - 2);
      assert pre + [JUMP, 0, 0] + [] == pre + [JUMP, 0, 0];
      PatchOne(pre + [JUMP, 0, 0], own[0], brk);
      assert pre + JumpCode(JUMP, brk - at - 2) + [] == em.code + (pops + JumpCode(JUMP, brk - at - 2));
      assert em.constants + [] == em.constants;
    }
  }

  lemma PatchOne(code: Code, site: BreakJump, target: int)
    ensures PatchAll(code, [site], target) == Patched(code, site.offset, target - site.offset - 2)
  {
    var patched := Patched(code, site.offset, target - site.offset - 2);
    assert [site][1..] == [];
    assert PatchAll(patched, [], target) == patched;
  }

  lemma ContinueEmits(em: Em, brk: nat)
    requires WellPlaced(em)
    ensures StmtDone(Continue, em, EmitStmt(Continue, em), [], brk)
  {
    hide PopCode, U16, PatchAll, Deeper, AllFit;
    NothingToFit(brk);
    if em.loopStart >= 0 {
      PatchNone(EmitContinue(em).code, brk);
      var pops := PopCode(Deeper(em.locals, em.loopDepth));
      var jump := JumpCode(LOOP, |em.code| + |pops| + 3 - em.loopStart);
      assert em.code + pops + jump == em.code + (pops + jump);
      assert em.constants + [] == em.constants && [] + em.breaks == em.breaks;
    }
  }

  lemma PatchNone(code: Code, target: int)
    ensures PatchAll(code, [], target) == code
  {
  }

  // ----- if -----

  /** The state when the `then` branch starts. */
  function ThenStart(c: Expr, em: Em): Em {
    EmitBytes(EmitJump(EmitExpr(c, em), JUMP_IF_FALSE), [POP])
  }

  /** The state when the `else` branch starts, after the `then` branch has led to `em2`. */
  function ElseStart(c: Expr, em: Em, em2: Em): Em {
    EmitBytes(PatchJump(EmitJump(em2, JUMP), |EmitExpr(c, em).code| + 1), [POP])
  }

  lemma ThenStarts(s: Stmt, em: Em, brk: nat)
    requires s.If? && WellPlaced(em)
    ensures
      var em1 := ThenStart(s.cond, em);
      var cc := ExprCode(s.cond, em.locals, |em.constants|);
      && Emitted(em, em1, [], brk, cc + [JUMP_IF_FALSE, 0, 0] + [POP], ExprConstants(s.cond))
      && (em1.err <==> em.err || !ExprOk(s.cond, em.locals, |em.constants|))
      && em1.locals == em.locals && em1.depth == em.depth && em1.loopStart == em.loopStart && em1.breaks == em.breaks
      && em1.loopDepth == em.loopDepth
      && |em1.code| == |em.code| + |cc| + 4 && |em1.constants| == |em.constants| + |ExprConstants(s.cond)|
      && WellPlaced(em1) && SceneOf(em1) == SceneOf(em) && Newest(em1) == Newest(em)
  {
    hide EmitExpr, ExprCode, ExprOk, ExprConstants;
    EmittedExpr(em, s.cond, brk);
    var cc, ks := ExprCode(s.cond, em.locals, |em.constants|), ExprConstants(s.cond);
    var e := EmitExpr(s.cond, em);
    EmittedBytes(em, e, EmitJump(e, JUMP_IF_FALSE), [], brk, cc, ks, [JUMP_IF_FALSE, 0, 0]);
    EmittedBytes(em, EmitJump(e, JUMP_IF_FALSE), ThenStart(s.cond, em), [], brk, cc + [JUMP_IF_FALSE, 0, 0], ks, [POP]);
    EmittedSize(em, ThenStart(s.cond, em), [], brk, cc + [JUMP_IF_FALSE, 0, 0] + [POP], ks);
  }

  /** After the `then` branch, the jump over it is patched. */
  lemma ElseStarts(s: Stmt, em: Em, em2: Em, own: seq<BreakJump>, brk: nat, tc: Code, ks: seq<Num>)
    requires s.If? && WellPlaced(em)
    requires Emitted(ThenStart(s.cond, em), em2, own, brk, tc, ks)
    ensures
      var em3 := ElseStart(s.cond, em, em2);
      var cc := ExprCode(s.cond, em.locals, |em.constants|);
      && Emitted(em, em3, own, brk, cc + JumpCode(JUMP_IF_FALSE, |tc| + 4) + ([POP] + tc + [JUMP, 0, 0]) + [POP],
           ExprConstants(s.cond) + ks)
      && (em3.err <==> em2.err || !Fits(|tc| + 4))
      && em3.(code := em2.code, err := em2.err) == em2
      && |em3.code| == |em.code| + |cc| + |tc| + 8
  {
    hide EmitExpr, ExprCode, ExprOk, ExprConstants, Patched, PatchAll, JumpCode;
    ThenStarts(s, em, brk);
    EmittedExpr(em, s.cond, brk);
    var em1, cc := ThenStart(s.cond, em), ExprCode(s.cond, em.locals, |em.constants|);
    EmittedSize(em, EmitExpr(s.cond, em), [], brk, cc, ExprConstants(s.cond));
    EmittedSize(em1, em2, own, brk, tc, ks);
    EmittedTwice(em, em1, em2, [], own, brk, cc + [JUMP_IF_FALSE, 0, 0] + [POP], tc, ExprConstants(s.cond), ks);
    assert own + [] == own;
    var whole := cc + [JUMP_IF_FALSE, 0, 0] + [POP] + tc;
    var kk := ExprConstants(s.cond) + ks;
    EmittedBytes(em, em2, EmitJump(em2, JUMP), own, brk, whole, kk, [JUMP, 0, 0]);
    var post := [POP] + tc + [JUMP, 0, 0];
    assert whole + [JUMP, 0, 0] == cc + [JUMP_IF_FALSE, 0, 0] + post;
    EmittedPatch(em, EmitJump(em2, JUMP), own, brk, cc, JUMP_IF_FALSE, post, kk, |tc| + 4);
    var em2p := PatchJump(EmitJump(em2, JUMP), |em.code| + |cc| + 1);
    EmittedKeeps(em, EmitJump(em2, JUMP).(code := em2p.code), em2p, own, brk,
      cc + JumpCode(JUMP_IF_FALSE, |tc| + 4) + post, kk);
    EmittedBytes(em, em2p, EmitBytes(em2p, [POP]), own, brk, cc + JumpCode(JUMP_IF_FALSE, |tc| + 4) + post, kk, [POP]);
  }

  lemma EmittedKeeps(em: Em, em2: Em, em3: Em, own: seq<BreakJump>, brk: int, code: Code, constants: seq<Num>)
    requires Emitted(em, em2, own, brk, code, constants) && em3.(err := em2.err) == em2
    ensures Emitted(em, em3, own, brk, code, constants)
  {
  }

  /** At the end of an `if`, the jump over the `else` branch is patched. */
  lemma IfEnds(s: Stmt, em: Em, em2: Em, own1: seq<BreakJump>, em4: Em, own2: seq<BreakJump>, brk: nat,
               tc: Code, kt: seq<Num>, ec: Code, ke: seq<Num>)
    requires s.If? && WellPlaced(em)
    requires Emitted(ThenStart(s.cond, em), em2, own1, brk, tc, kt)
    requires Emitted(ElseStart(s.cond, em, em2), em4, own2, brk, ec, ke)
    ensures
      var em5 := PatchJump(em4, |em2.code| + 1);
      var cc := ExprCode(s.cond, em.locals, |em.constants|);
      && Emitted(em, em5, own2 + own1, brk,
                 cc + (JumpCode(JUMP_IF_FALSE, |tc| + 4) + ([POP] + (tc + (JumpCode(JUMP, |ec| + 1) + ([POP] + ec))))),
                 ExprConstants(s.cond) + (kt + ke))
      && (em5.err <==> em4.err || !Fits(|ec| + 1))
  {
    hide EmitExpr, ExprCode, ExprOk, ExprConstants, Patched, PatchAll, U16, ThenStart, ElseStart;
    var em1, em3, cc := ThenStart(s.cond, em), ElseStart(s.cond, em, em2), ExprCode(s.cond, em.locals, |em.constants|);
    ThenStarts(s, em, brk);
    ElseStarts(s, em, em2, own1, brk, tc, kt);
    var skip := JumpCode(JUMP_IF_FALSE, |tc| + 4);
    var before := cc + skip + ([POP] + tc + [JUMP, 0, 0]) + [POP];
    EmittedSize(em1, em2, own1, brk, tc, kt);
    EmittedSize(em3, em4, own2, brk, ec, ke);
    EmittedTwice(em, em3, em4, own1, own2, brk, before, ec, ExprConstants(s.cond) + kt, ke);
    var pre, post := cc + skip + ([POP] + tc), [POP] + ec;
    assert before + ec == pre + [JUMP, 0, 0] + post;
    var ks := ExprConstants(s.cond) + kt + ke;
    EmittedPatch(em, em4, own2 + own1, brk, pre, JUMP, post, ks, |ec| + 1);
    assert pre + JumpCode(JUMP, |ec| + 1) + post ==
      cc + (skip + ([POP] + (tc + (JumpCode(JUMP, |ec| + 1) + ([POP] + ec)))));
    assert ks == ExprConstants(s.cond) + (kt + ke);
  }

  lemma LayoutSame(s: Stmt, sc: Scope, pc: nat, k: nat, to: Targets, to': Targets)
    requires s.If?
    ensures LayoutIf(s, sc, pc, k, to) == LayoutIf(s, sc, pc, k, to')
  {
    hide ExprCode, ExprConstants, StmtCode, StmtConstants;
    var n, kt := |ExprCode(s.cond, sc.locals, k)|, k + |ExprConstants(s.cond)|;
    StmtSize(s.thenBranch, sc, pc + n + 4, pc + n + 4, kt, to, to');
    if s.elseBranch.Some? {
      var at := pc + n + |StmtCode(s.thenBranch, sc, pc + n + 4, kt, to)| + 8;
      StmtSize(s.elseBranch.value, sc, at, at, kt + |StmtConstants(s.thenBranch)|, to, to');
    }
  }

  ghost predicate ElseDone(e: Option<Stmt>, em: Em, em2: Em, own: seq<BreakJump>, brk: int) {
    var sc, pc, k := SceneOf(em), |em.code|, |em.constants|;
    && Outcome(em, em2, own, brk, ElseCode(e, sc, pc, k, Targets(brk, em.loopStart)), ElseConstants(e),
               ElseOk(e, sc, pc, k, Targets(0, em.loopStart)), ElseOk(e, sc, pc, k, Targets(brk, em.loopStart)),
               e.Some? && HasBreak(e.value))
    && (!em2.err ==> em2.locals == em.locals && em2.depth == em.depth)
  }

  function EmitElse(e: Option<Stmt>, em: Em): Em {
    if e.Some? then EmitStmt(e.value, em) else em
  }

  lemma {:induction false} ElseEmits(e: Option<Stmt>, em: Em, brk: nat) returns (own: seq<BreakJump>)
    requires WellPlaced(em) && (e.Some? ==> BreakSafe(e.value, em.depth, SceneOf(em).loopDepth, Newest(em)))
    ensures ElseDone(e, em, EmitElse(e, em), own, brk)
    decreases e, 9
  {
    hide EmitStmt, StmtCode, StmtOk, StmtConstants, HasBreak, PatchAll;
    if e.Some? {
      own := StmtEmits(e.value, em, brk);
    } else {
      own := [];
      EmittedNothing(em, brk);
    }
  }

  /** The state between the branches is as good as the one before the statement. */
  lemma BetweenBranches(
    em: Em, em1: Em, em2: Em, em3: Em, own: seq<BreakJump>, brk: int, tc: Code, kt: seq<Num>, ok: bool, breaks: bool
  )
    requires WellPlaced(em1) && SceneOf(em1) == SceneOf(em) && Newest(em1) == Newest(em)
    requires em1.loopDepth == em.loopDepth && em1.loopStart == em.loopStart
    requires OutcomeOk(em1, em2, own, brk, tc, kt, ok, breaks) && em2.locals == em1.locals && em2.depth == em1.depth
    requires em3.(code := em2.code, err := em2.err) == em2
    ensures WellPlaced(em3) && SceneOf(em3) == SceneOf(em)
    ensures em3.loopDepth == em.loopDepth && em3.loopStart == em.loopStart
    ensures Newest(em3) == if breaks then SceneOf(em).loopDepth else Newest(em)
  {
    hide PatchAll;
    if breaks {
      assert em2.breaks[0] == own[0];
    } else {
      assert em2.breaks == em1.breaks;
    }
  }

  /** The code of the two branches of an `if`, and whether they compile, when breaks lead to `brk`. */
  datatype Branches = Branches(cc: Code, tc: Code, kt: seq<Num>, ec: Code, ke: seq<Num>, condOk: bool, thenOk: bool,
    elseOk: bool)

  ghost function BranchesOf(s: Stmt, em: Em, brk: int): Branches
    requires s.If?
  {
    var sc, pc, k := SceneOf(em), |em.code|, |em.constants|;
    var to := Targets(brk, em.loopStart);
    var lay := LayoutIf(s, sc, pc, k, to);
    Branches(ExprCode(s.cond, em.locals, k),
             StmtCode(s.thenBranch, sc, pc + lay.condSize + 4, lay.kThen, to), StmtConstants(s.thenBranch),
             ElseCode(s.elseBranch, sc, pc + lay.condSize + lay.thenSize + 8, lay.kElse, to),
             ElseConstants(s.elseBranch),
             ExprOk(s.cond, em.locals, k),
             StmtOk(s.thenBranch, sc, pc + lay.condSize + 4, lay.kThen, to),
             ElseOk(s.elseBranch, sc, pc + lay.condSize + lay.thenSize + 8, lay.kElse, to))
  }

  /** A whole `if` in terms of its branches. */
  lemma IfFromBranches(s: Stmt, em: Em, brk: int)
    requires s.If?
    ensures
      var sc, pc, k, to := SceneOf(em), |em.code|, |em.constants|, Targets(brk, em.loopStart);
      var b := BranchesOf(s, em, brk);
      && b.cc == ExprCode(s.cond, em.locals, k)
      && StmtCode(s, sc, pc, k, to) ==
         b.cc + (JumpCode(JUMP_IF_FALSE, |b.tc| + 4) + ([POP] + (b.tc + (JumpCode(JUMP, |b.ec| + 1) + ([POP] + b.ec)))))
      && StmtConstants(s) == ExprConstants(s.cond) + (b.kt + b.ke)
      && (StmtOk(s, sc, pc, k, to) <==> b.condOk && b.thenOk && b.elseOk && Fits(|b.tc| + 4) && Fits(|b.ec| + 1))
  {
    hide StmtCode, StmtOk, StmtConstants, ExprCode, ExprOk, ExprConstants, ElseCode, ElseOk, ElseConstants, JumpCode;
    hide Fits;
    IfUnfolds(s, SceneOf(em), |em.code|, |em.constants|, Targets(brk, em.loopStart));
  }

  /** The branches' sizes do not depend on where breaks lead. */
  lemma BranchSizes(s: Stmt, em: Em, brk: int)
    requires s.If?
    ensures
      var a, b := BranchesOf(s, em, 0), BranchesOf(s, em, brk);
      |a.tc| == |b.tc| && |a.ec| == |b.ec| && a.condOk == b.condOk
  {
    hide StmtCode, StmtOk, StmtConstants, ExprCode, ExprOk, ExprConstants, ElseOk, ElseConstants;
    var sc, pc, k := SceneOf(em), |em.code|, |em.constants|;
    var to0, to1 := Targets(0, em.loopStart), Targets(brk, em.loopStart);
    LayoutSame(s, sc, pc, k, to0, to1);
    var lay := LayoutIf(s, sc, pc, k, to0);
    StmtSize(s.thenBranch, sc, pc + lay.condSize + 4, pc + lay.condSize + 4, lay.kThen, to0, to1);
    if s.elseBranch.Some? {
      var at := pc + lay.condSize + lay.thenSize + 8;
      StmtSize(s.elseBranch.value, sc, at, at, lay.kElse, to0, to1);
    }
  }

  /** The first branch, in terms of `Branches`. */
  lemma {:induction false} ThenEmits(s: Stmt, em: Em, brk: nat) returns (own: seq<BreakJump>)
    requires s.If? && WellPlaced(em) && BreakSafe(s, em.depth, SceneOf(em).loopDepth, Newest(em))
    ensures
      var em1 := ThenStart(s.cond, em);
      var em2 := EmitStmt(s.thenBranch, em1);
      var a, b := BranchesOf(s, em, 0), BranchesOf(s, em, brk);
      && Outcome(em1, em2, own, brk, b.tc, b.kt, a.thenOk, b.thenOk, HasBreak(s.thenBranch))
      && (!em2.err ==> em2.locals == em.locals && em2.depth == em.depth)
      && (em1.err <==> em.err || !b.condOk)
    decreases s, 0
  {
    hide ThenStart, StmtCode, StmtOk, StmtConstants, ExprCode, ExprOk, ExprConstants, ElseCode, ElseOk, ElseConstants,
      WellPlaced, SceneOf, Newest, Outcome, EmitStmt, HasBreak;
    ThenStarts(s, em, brk);
    LayoutSame(s, SceneOf(em), |em.code|, |em.constants|, Targets(0, em.loopStart), Targets(brk, em.loopStart));
    SceneLocals(em);
    own := StmtEmits(s.thenBranch, ThenStart(s.cond, em), brk);
  }

  lemma {:induction false} SecondEmits(s: Stmt, em: Em, own1: seq<BreakJump>, brk: nat) returns (own: seq<BreakJump>)
    requires s.If? && WellPlaced(em) && BreakSafe(s, em.depth, SceneOf(em).loopDepth, Newest(em))
    requires
      var em2 := EmitStmt(s.thenBranch, ThenStart(s.cond, em));
      var b := BranchesOf(s, em, brk);
      && !em2.err && em2.locals == em.locals && em2.depth == em.depth
      && OutcomeOk(ThenStart(s.cond, em), em2, own1, brk, b.tc, b.kt, b.thenOk, HasBreak(s.thenBranch))
    ensures
      var em2 := EmitStmt(s.thenBranch, ThenStart(s.cond, em));
      var em3 := ElseStart(s.cond, em, em2);
      var em4 := EmitElse(s.elseBranch, em3);
      var a, b := BranchesOf(s, em, 0), BranchesOf(s, em, brk);
      && Outcome(em3, em4, own, brk, b.ec, b.ke, a.elseOk, b.elseOk, s.elseBranch.Some? && HasBreak(s.elseBranch.value))
      && (!em4.err ==> em4.locals == em.locals && em4.depth == em.depth && em3.loopStart == em.loopStart)
      && (em3.err <==> em2.err || !Fits(|b.tc| + 4))
    decreases s, 0
  {
    hide ThenStart, ElseStart, StmtCode, StmtOk, StmtConstants, ExprCode, ExprOk, ExprConstants, ElseCode, ElseOk,
      ElseConstants,
      WellPlaced, SceneOf, Newest, Outcome, EmitStmt, EmitElse, Emitted, Fits;
    var b := BranchesOf(s, em, brk);
    var em1 := ThenStart(s.cond, em);
    var em2 := EmitStmt(s.thenBranch, em1);
    var em3 := ElseStart(s.cond, em, em2);
    ThenStarts(s, em, brk);
    ElseStarts(s, em, em2, own1, brk, b.tc, b.kt);
    BetweenBranches(em, em1, em2, em3, own1, brk, b.tc, b.kt, b.thenOk, HasBreak(s.thenBranch));
    EmittedSize(em1, em2, own1, brk, b.tc, b.kt);
    LayoutSame(s, SceneOf(em), |em.code|, |em.constants|, Targets(0, em.loopStart), Targets(brk, em.loopStart));
    SceneLocals(em);
    own := ElseEmits(s.elseBranch, em3, brk);
  }

  lemma {:induction false} IfEmits(s: Stmt, em: Em, brk: nat) returns (own: seq<BreakJump>)
    requires s.If? && WellPlaced(em) && BreakSafe(s, em.depth, SceneOf(em).loopDepth, Newest(em))
    ensures StmtDone(s, em, EmitStmt(s, em), own, brk)
    decreases s, 1
  {
    hide ThenStart, ElseStart, StmtCode, StmtOk, StmtConstants, WellPlaced, SceneOf, Newest, EmitElse, EmitStmt,
      Emitted, AllFit, BranchesOf,
      PatchJump, JumpCode, Fits;
    var em1 := ThenStart(s.cond, em);
    var em2 := EmitStmt(s.thenBranch, em1);
    var em3 := ElseStart(s.cond, em, em2);
    var em4 := EmitElse(s.elseBranch, em3);
    var a, b := BranchesOf(s, em, 0), BranchesOf(s, em, brk);
    IfIsEmitted(s, em);
    IfFromBranches(s, em, 0);
    IfFromBranches(s, em, brk);
    BranchSizes(s, em, brk);
    ThenStarts(s, em, brk);
    PatchKeepsErr(em4, |em2.code| + 1);
    var own1 := ThenEmits(s, em, brk);
    own := [];
    if em2.err {
      ElseKeepsErr(s, em, em2);
    } else {
      var own2 := SecondEmits(s, em, own1, brk);
      if !em4.err {
        IfEnds(s, em, em2, own1, em4, own2, brk, b.tc, b.kt, b.ec, b.ke);
        own := own2 + own1;
        AllFitConcat(own2, own1, brk);
      }
    }
  }

  lemma PatchKeepsErr(em: Em, offset: nat)
    ensures em.err ==> PatchJump(em, offset).err
    ensures PatchJump(em, offset).(code := em.code, err := em.err) == em
  {
    hide Patched;
  }

  lemma SceneLocals(em: Em)
    ensures SceneOf(em).locals == em.locals && SceneOf(em).depth == em.depth
  {
  }

  lemma IfIsEmitted(s: Stmt, em: Em)
    requires s.If?
    ensures
      var em2 := EmitStmt(s.thenBranch, ThenStart(s.cond, em));
      EmitStmt(s, em) == PatchJump(EmitElse(s.elseBranch, ElseStart(s.cond, em, em2)), |em2.code| + 1)
  {
    hide Patched;
  }

  lemma ElseKeepsErr(s: Stmt, em: Em, em2: Em)
    requires s.If? && (em2.err || ElseStart(s.cond, em, em2).err)
    ensures EmitElse(s.elseBranch, ElseStart(s.cond, em, em2)).err
  {
    hide EmitStmt, Patched;
    if s.elseBranch.Some? {
      StmtKeepsErr(s.elseBranch.value, ElseStart(s.cond, em, em2));
    }
  }

  // ----- loops -----

  /** A statement that compiles with breaks leading to `brk` compiles with them pending. */
  lemma {:induction false} OkWhilePending(s: Stmt, sc: Scope, pc: nat, k: nat, brk: nat, cont: int)
    requires StmtOk(s, sc, pc, k, Targets(brk, cont))
    ensures StmtOk(s, sc, pc, k, Targets(0, cont))
    decreases s, 0
  {
    hide StmtCode, StmtConstants, ExprCode, ExprOk, ExprConstants, ElseCode, LoopOk, DeclsOk, InitOk;
    var to0, to1 := Targets(0, cont), Targets(brk, cont);
    match s
    case Block(ds) => AllOkWhilePending(ds, Inner(sc), pc, k, brk, cont);
    case If(_, t, e) =>
      IfUnfolds(s, sc, pc, k, to0);
      IfUnfolds(s, sc, pc, k, to1);
      LayoutSame(s, sc, pc, k, to0, to1);
      var lay := LayoutIf(s, sc, pc, k, to1);
      OkWhilePending(t, sc, pc + lay.condSize + 4, lay.kThen, brk, cont);
      if e.Some? {
        OkWhilePending(e.value, sc, pc + lay.condSize + lay.thenSize + 8, lay.kElse, brk, cont);
      }
    case _ =>
  }

  lemma {:induction false} AllOkWhilePending(ds: Decls, sc: Scope, pc: nat, k: nat, brk: nat, cont: int)
    requires DeclsOk(ds, sc, pc, k, Targets(brk, cont))
    ensures DeclsOk(ds, sc, pc, k, Targets(0, cont))
    decreases ds, 0
  {
    hide StmtCode, StmtOk, StmtConstants, DeclareOk, InitialCode, AfterDecl;
    match ds
    case End =>
    case More(d, rest) =>
      if d.Do? {
        OkWhilePending(d.s, sc, pc, k, brk, cont);
        StmtSize(d.s, sc, pc, pc, k, Targets(0, cont), Targets(brk, cont));
      }
      AllOkWhilePending(rest, AfterDecl(d, sc), pc + |DeclCode(d, sc, pc, k, Targets(0, cont))|, k + |DeclConstants(d)|,
        brk, cont);
  }

  /** The test with the hole of its jump. */
  function TestHole(tc: Code, test: Option<Expr>): Code {
    if test.Some? then tc + [JUMP_IF_FALSE, 0, 0] + [POP] else []
  }

  lemma TestEmits(test: Option<Expr>, inc: Option<Expr>, b: Stmt, em: Em, brk: int)
    ensures
      var em1 := EmitTest(test, em);
      var lay := LoopLayout(test, inc, b, SceneOf(em), |em.constants|);
      && Emitted(em, em1, [], brk, TestHole(lay.testCode, test), MaybeConstants(test))
      && (em1.err <==> em.err || !InitialOk(test, em.locals, |em.constants|))
      && em1.(code := em.code, constants := em.constants, err := em.err) == em
      && |em1.code| == |em.code| + lay.testSize && |em1.constants| == |em.constants| + |MaybeConstants(test)|
  {
    hide EmitExpr, ExprCode, ExprOk, ExprConstants, StmtCode;
    if test.Some? {
      EmittedExpr(em, test.value, brk);
      var e, tc := EmitExpr(test.value, em), ExprCode(test.value, em.locals, |em.constants|);
      var ks := ExprConstants(test.value);
      EmittedBytes(em, e, EmitJump(e, JUMP_IF_FALSE), [], brk, tc, ks, [JUMP_IF_FALSE, 0, 0]);
      EmittedBytes(em, EmitJump(e, JUMP_IF_FALSE), EmitTest(test, em), [], brk, tc + [JUMP_IF_FALSE, 0, 0], ks, [POP]);
      ExprEmits(test.value, em);
      EmittedSize(em, EmitTest(test, em), [], brk, TestHole(tc, test), ks);
    } else {
      EmittedNothing(em, brk);
    }
  }

  predicate IncrementOk(lay: Layout, inc: Option<Expr>, locals: Locals, k: nat) {
    InitialOk(inc, locals, k) && (inc.Some? ==> Fits(|lay.incCode| + 4) && Fits(lay.testSize + lay.incSize))
  }

  /** The increment clause before its jump is patched. */
  function IncrementOpen(e: Expr, em: Em): Em {
    EmitBack(EmitBytes(EmitExpr(e, EmitJump(em, JUMP)), [POP]), em.loopStart).(loopStart := |em.code| + 3)
  }

  lemma OpenIncrementEmits(e: Expr, em: Em, brk: int)
    ensures
      var em1 := IncrementOpen(e, em);
      var ic := ExprCode(e, em.locals, |em.constants|);
      var n := |em.code| + |ic| + 7 - em.loopStart;
      && Emitted(em, em1, [], brk, [JUMP, 0, 0] + (ic + ([POP] + JumpCode(LOOP, n))), ExprConstants(e))
      && (em1.err <==> em.err || !ExprOk(e, em.locals, |em.constants|) || !Fits(n))
      && em1.(code := em.code, constants := em.constants, err := em.err, loopStart := em.loopStart) == em
  {
    hide EmitExpr, ExprCode, ExprOk, ExprConstants, PatchAll, U16;
    var ic, ks := ExprCode(e, em.locals, |em.constants|), ExprConstants(e);
    ExprEmits(e, EmitJump(em, JUMP));
    var em1 := IncrementOpen(e, em);
    var back := JumpCode(LOOP, |em.code| + |ic| + 7 - em.loopStart);
    assert em1.code == em.code + [JUMP, 0, 0] + ic + [POP] + back;
    assert em1.code == em.code + ([JUMP, 0, 0] + (ic + ([POP] + back)));
    PatchNone(em1.code, brk);
    assert [] + em.breaks == em.breaks;
  }

  /** The increment clause comes out complete: its own jump is patched before the body starts. */
  lemma IncrementEmits(test: Option<Expr>, inc: Option<Expr>, b: Stmt, em: Em, k: nat, brk: int)
    requires
      var lay := LoopLayout(test, inc, b, SceneOf(em), k);
      |em.constants| == k + |MaybeConstants(test)| && em.loopStart >= 0 && |em.code| == em.loopStart + lay.testSize
    ensures
      var em1 := EmitIncrement(inc, em);
      var lay := LoopLayout(test, inc, b, SceneOf(em), k);
      && Emitted(em, em1, [], brk, IncPart(lay, inc), MaybeConstants(inc))
      && (em1.err <==> em.err || !IncrementOk(lay, inc, em.locals, |em.constants|))
      && em1.(code := em.code, constants := em.constants, err := em.err, loopStart := em.loopStart) == em
      && em1.loopStart == ContinuePc(lay, inc, em.loopStart)
      && |em1.code| == |em.code| + lay.incSize && |em1.constants| == |em.constants| + |MaybeConstants(inc)|
  {
    hide EmitExpr, ExprCode, ExprOk, ExprConstants, StmtCode, StmtConstants, Patched, PatchAll, U16;
    var lay := LoopLayout(test, inc, b, SceneOf(em), k);
    if inc.None? {
      EmittedNothing(em, brk);
    } else {
      IncrementCloses(inc.value, em, brk);
      EmittedSize(em, EmitIncrement(inc, em), [], brk, IncPart(lay, inc), ExprConstants(inc.value));
    }
  }

  lemma IncrementCloses(e: Expr, em: Em, brk: int)
    ensures
      var em2 := EmitIncrement(Some(e), em);
      var ic := ExprCode(e, em.locals, |em.constants|);
      var n := |em.code| + |ic| + 7 - em.loopStart;
      && Emitted(em, em2, [], brk, JumpCode(JUMP, |ic| + 4) + (ic + ([POP] + JumpCode(LOOP, n))), ExprConstants(e))
      && (em2.err <==> em.err || !ExprOk(e, em.locals, |em.constants|) || !Fits(n) || !Fits(|ic| + 4))
      && em2.loopStart == |em.code| + 3
      && em2.(code := em.code, constants := em.constants, err := em.err, loopStart := em.loopStart) == em
  {
    hide EmitExpr, ExprCode, ExprOk, ExprConstants, Patched, PatchAll, U16;
    var ic := ExprCode(e, em.locals, |em.constants|);
    OpenIncrementEmits(e, em, brk);
    var post := ic + ([POP] + JumpCode(LOOP, |em.code| + |ic| + 7 - em.loopStart));
    assert [JUMP, 0, 0] + post == [] + [JUMP, 0, 0] + post;
    EmittedSize(em, IncrementOpen(e, em), [], brk, [JUMP, 0, 0] + post, ExprConstants(e));
    EmittedPatch(em, IncrementOpen(e, em), [], brk, [], JUMP, post, ExprConstants(e), |ic| + 4);
    assert [] + JumpCode(JUMP, |ic| + 4) + post == JumpCode(JUMP, |ic| + 4) + post;
  }

  /** Once a loop's own breaks are patched, none is pending. */
  lemma PatchBreaksEmits(em: Em, em2: Em, own: seq<BreakJump>, brk: int, code: Code, constants: seq<Num>)
    requires Emitted(em, em2, own, |em2.code|, code, constants) && Newest(em) < em.loopDepth && em.loopDepth >= 0
    ensures
      var r := PatchBreaks(em2);
      && Emitted(em, r, [], brk, code, constants)
      && (r.err <==> em2.err || !AllFit(own, |em2.code|))
      && r.(code := em2.code, breaks := em2.breaks, err := em2.err) == em2
  {
    hide PatchAll, AllFit;
    PatchBreaksPatchesOwn(em2, own, em.breaks);
    PatchNone(PatchBreaks(em2).code, brk);
    assert [] + em.breaks == em.breaks;
  }

  /** The end of a loop before its breaks are patched. */
  function LoopEndOpen(test: Option<Expr>, exit: nat, em: Em): Em {
    var em1 := EmitBack(em, em.loopStart);
    if test.Some? && exit >= 3 then EmitBytes(PatchJump(em1, exit - 3), [POP]) else em1
  }

  lemma LoopEndEmits(
    test: Option<Expr>, lay: Layout, em: Em, em3: Em, own: seq<BreakJump>, end: int, rest: Code, constants: seq<Num>
  )
    requires Emitted(em, em3, own, end, TestHole(lay.testCode, test) + rest, constants)
    requires test.Some? ==> lay.testSize == |lay.testCode| + 4
    requires test.None? ==> lay.testSize == 0
    requires |rest| == lay.incSize + lay.bodySize
    requires forall i :: 0 <= i < |own| ==> own[i].offset >= |em.code| + lay.testSize
    ensures
      var r := LoopEndOpen(test, |em.code| + lay.testSize, em3);
      var n := |em.code| + lay.testSize + |rest| + 3 - em3.loopStart;
      && Emitted(em, r, own, end, TestPart(lay, test) + (rest + (JumpCode(LOOP, n) + (if test.Some? then [POP]
                                                                                      else []))), constants)
      && (r.err <==> em3.err || !Fits(n) || (test.Some? && !Fits(1 + lay.incSize + lay.bodySize + 3)))
      && |r.code| == |em.code| + lay.testSize + |rest| + 3 + (if test.Some? then 1 else 0)
      && r.(code := em3.code, err := em3.err) == em3
  {
    hide PatchAll, Patched, U16, AllFit;
    var hole := TestHole(lay.testCode, test);
    EmittedSize(em, em3, own, end, hole + rest, constants);
    var n := |em.code| + lay.testSize + |rest| + 3 - em3.loopStart;
    var back, em4 := JumpCode(LOOP, n), EmitBack(em3, em3.loopStart);
    EmittedBytes(em, em3, em4, own, end, hole + rest, constants, back);
    if test.None? {
      assert hole + rest + back == [] + (rest + (back + []));
    } else {
      var tc, post := lay.testCode, [POP] + (rest + back);
      assert hole + rest + back == tc + [JUMP_IF_FALSE, 0, 0] + post;
      EmittedPatch(em, em4, own, end, tc, JUMP_IF_FALSE, post, constants, 1 + lay.incSize + lay.bodySize + 3);
      var jump := JumpCode(JUMP_IF_FALSE, 1 + lay.incSize + lay.bodySize + 3);
      var em5 := PatchJump(em4, |em.code| + |tc| + 1);
      EmittedKeeps(em, em4.(code := em5.code), em5, own, end, tc + jump + post, constants);
      EmittedBytes(em, em5, EmitBytes(em5, [POP]), own, end, tc + jump + post, constants, [POP]);
      assert tc + jump + post + [POP] == tc + (jump + [POP]) + (rest + (back + [POP]));
    }
  }

  ghost predicate LoopDone(test: Option<Expr>, inc: Option<Expr>, b: Stmt, em: Em, em2: Em, brk: int) {
    var sc, pc, k := SceneOf(em), |em.code|, |em.constants|;
    && Outcome(em, em2, [], brk, LoopCode(test, inc, b, sc, pc, k), LoopConstants(test, inc, b),
               LoopOk(test, inc, b, sc, pc, k), true, false)
    && (!em2.err ==> em2.locals == em.locals && em2.depth == em.depth)
  }

  /** The state when a loop's body starts. */
  function BodyStart(test: Option<Expr>, inc: Option<Expr>, em: Em): Em {
    EmitIncrement(inc, EmitTest(test, EnterLoop(em)))
  }

  lemma BodyStarts(test: Option<Expr>, inc: Option<Expr>, b: Stmt, em: Em, brk: int)
    requires WellPlaced(em)
    ensures
      var lay := LoopLayout(test, inc, b, SceneOf(em), |em.constants|);
      var em2 := BodyStart(test, inc, em);
      && Emitted(EnterLoop(em), em2, [], brk, TestHole(lay.testCode, test) + IncPart(lay, inc),
           MaybeConstants(test) + MaybeConstants(inc))
      && (em2.err <==> em.err || !InitialOk(test, em.locals, |em.constants|)
                       || !IncrementOk(lay, inc, em.locals, |em.constants| + |MaybeConstants(test)|))
      && |EmitTest(test, EnterLoop(em)).code| == |em.code| + lay.testSize
      && |em2.code| == BodyPc(lay, |em.code|) && |em2.constants| == lay.kBody
      && em2.loopStart == ContinuePc(lay, inc, |em.code|)
      && em2.locals == em.locals && em2.depth == em.depth && em2.loopDepth == em.depth && em2.breaks == em.breaks
      && WellPlaced(em2) && SceneOf(em2) == InLoop(SceneOf(em)) && Newest(em2) == Newest(em)
      && |IncPart(lay, inc)| == lay.incSize
  {
    hide EmitTest, EmitIncrement, ExprCode, ExprOk, ExprConstants, StmtCode, PatchAll, U16, IncrementOk, InitialOk;
    hide MaybeConstants;
    var em0 := EnterLoop(em);
    var k := |em.constants|;
    var lay := LoopLayout(test, inc, b, SceneOf(em), k);
    assert lay == LoopLayout(test, inc, b, SceneOf(em0), k) by {
      SameLayout(test, inc, b, SceneOf(em), SceneOf(em0), k);
    }
    TestEmits(test, inc, b, em0, brk);
    var em1 := EmitTest(test, em0);
    assert SceneOf(em1) == SceneOf(em0);
    IncrementEmits(test, inc, b, em1, k, brk);
    var none: seq<BreakJump> := [];
    EmittedTwice(em0, em1, BodyStart(test, inc, em), [], [], brk, TestHole(lay.testCode, test), IncPart(lay, inc),
      MaybeConstants(test), MaybeConstants(inc));
    assert none + none == none;
  }

  /** The layout of a loop does not depend on the loops around it. */
  lemma SameLayout(test: Option<Expr>, inc: Option<Expr>, b: Stmt, sc: Scope, sc': Scope, k: nat)
    requires sc.locals == sc'.locals && sc.depth == sc'.depth
    ensures LoopLayout(test, inc, b, sc, k) == LoopLayout(test, inc, b, sc', k)
  {
    hide ExprCode, StmtCode, MaybeConstants;
    assert InLoop(sc) == InLoop(sc');
  }

  /** A whole loop in terms of its parts. */
  lemma LoopFromParts(test: Option<Expr>, inc: Option<Expr>, b: Stmt, sc: Scope, pc: nat, k: nat)
    ensures
      var lay := LoopLayout(test, inc, b, sc, k);
      var to := LoopTargets(lay, test, inc, pc);
      var bc := StmtCode(b, InLoop(sc), BodyPc(lay, pc), lay.kBody, to);
      && LoopCode(test, inc, b, sc, pc, k) ==
           TestPart(lay, test) + (IncPart(lay, inc) + (bc + BackPart(lay, test, inc, pc)))
      && |bc| == lay.bodySize && (test.Some? ==> lay.testSize == |lay.testCode| + 4)
      && (test.None? ==> lay.testSize == 0)
      && to.brk == EndPc(lay, test, pc) && to.cont == ContinuePc(lay, inc, pc)
    ensures LoopOk(test, inc, b, sc, pc, k) <==> LoopFits(test, inc, b, sc, pc, k)
  {
    hide ExprCode, StmtCode, ExprOk, StmtOk, MaybeConstants, U16;
    LoopEndsAtEndPc(test, inc, b, sc, pc, k);
  }

  predicate LoopFits(test: Option<Expr>, inc: Option<Expr>, b: Stmt, sc: Scope, pc: nat, k: nat) {
    var lay := LoopLayout(test, inc, b, sc, k);
    && InitialOk(test, sc.locals, k) && IncrementOk(lay, inc, sc.locals, k + |MaybeConstants(test)|)
    && StmtOk(b, InLoop(sc), BodyPc(lay, pc), lay.kBody, LoopTargets(lay, test, inc, pc))
    && (test.Some? ==> Fits(1 + lay.incSize + lay.bodySize + 3))
    && Fits(BodyPc(lay, pc) + lay.bodySize + 3 - ContinuePc(lay, inc, pc))
  }

  /** A loop up to the end of its body. */
  lemma LoopUpToBody(
    test: Option<Expr>, inc: Option<Expr>, b: Stmt, em: Em, em3: Em, own: seq<BreakJump>, end: int, bc: Code
  )
    requires WellPlaced(em) && Emitted(BodyStart(test, inc, em), em3, own, end, bc, StmtConstants(b))
    ensures
      var lay := LoopLayout(test, inc, b, SceneOf(em), |em.constants|);
      && Emitted(EnterLoop(em), em3, own, end, TestHole(lay.testCode, test) + (IncPart(lay, inc) + bc),
           LoopConstants(test, inc, b))
      && forall i :: 0 <= i < |own| ==> own[i].offset >= |em.code| + lay.testSize
  {
    hide BodyStart, StmtConstants, LoopLayout, IncPart, PatchAll, TestHole, MaybeConstants, WellPlaced, SceneOf, Newest;
    var lay := LoopLayout(test, inc, b, SceneOf(em), |em.constants|);
    BodyStarts(test, inc, b, em, end);
    var hole, ic := TestHole(lay.testCode, test), IncPart(lay, inc);
    EmittedTwice(EnterLoop(em), BodyStart(test, inc, em), em3, [], own, end, hole + ic, bc,
                 MaybeConstants(test) + MaybeConstants(inc), StmtConstants(b));
    assert own + [] == own;
    assert hole + ic + bc == hole + (ic + bc);
    assert MaybeConstants(test) + MaybeConstants(inc) + StmtConstants(b) == LoopConstants(test, inc, b);
  }

  /** Everything a loop emits, once its body is there. */
  lemma LoopCloses(
    test: Option<Expr>, inc: Option<Expr>, b: Stmt, em: Em, em3: Em, own: seq<BreakJump>, bc: Code, brk: int
  )
    requires WellPlaced(em) && Newest(em) < em.depth
    requires
      var lay := LoopLayout(test, inc, b, SceneOf(em), |em.constants|);
      && Emitted(BodyStart(test, inc, em), em3, own, EndPc(lay, test, |em.code|), bc, StmtConstants(b))
      && |bc| == lay.bodySize && em3.loopStart == ContinuePc(lay, inc, |em.code|)
      && (test.Some? ==> lay.testSize == |lay.testCode| + 4) && (test.None? ==> lay.testSize == 0)
    ensures
      var pc := |em.code|;
      var lay := LoopLayout(test, inc, b, SceneOf(em), |em.constants|);
      var r := PatchBreaks(LoopEndOpen(test, pc + lay.testSize, em3));
      && Emitted(EnterLoop(em), r, [], brk,
                 TestPart(lay, test) + (IncPart(lay, inc) + (bc + BackPart(lay, test, inc, pc))),
                 LoopConstants(test, inc, b))
      && (r.err <==> em3.err || !AllFit(own, EndPc(lay, test, pc))
                     || !Fits(BodyPc(lay, pc) + lay.bodySize + 3 - ContinuePc(lay, inc, pc))
                     || (test.Some? && !Fits(1 + lay.incSize + lay.bodySize + 3)))
      && r.locals == em3.locals && r.depth == em3.depth
  {
    hide BodyStart, StmtConstants, LoopLayout, TestPart, IncPart, TestHole, PatchAll, Emitted, AllFit, JumpCode, Fits,
      LoopEndOpen, PatchBreaks,
      LoopConstants, WellPlaced;
    var pc := |em.code|;
    var lay := LoopLayout(test, inc, b, SceneOf(em), |em.constants|);
    var end := EndPc(lay, test, pc);
    BodyStarts(test, inc, b, em, end);
    LoopUpToBody(test, inc, b, em, em3, own, end, bc);
    var ic, ks := IncPart(lay, inc), LoopConstants(test, inc, b);
    LoopEndEmits(test, lay, EnterLoop(em), em3, own, end, ic + bc, ks);
    assert ic + bc + BackPart(lay, test, inc, pc) == ic + (bc + BackPart(lay, test, inc, pc));
    PatchBreaksEmits(EnterLoop(em), LoopEndOpen(test, pc + lay.testSize, em3), own, brk,
                     TestPart(lay, test) + (ic + (bc + BackPart(lay, test, inc, pc))), ks);
  }

  lemma EmittedFromEntry(em: Em, em2: Em, brk: int, code: Code, constants: seq<Num>)
    requires Emitted(EnterLoop(em), em2, [], brk, code, constants)
    ensures Emitted(em, em2.(loopStart := em.loopStart, loopDepth := em.loopDepth), [], brk, code, constants)
  {
  }

  lemma {:induction false} LoopEmits(test: Option<Expr>, inc: Option<Expr>, b: Stmt, em: Em, brk: nat)
    requires WellPlaced(em) && Newest(em) < em.depth && BreakSafe(b, em.depth, em.depth, Newest(em))
    ensures LoopDone(test, inc, b, em, EmitLoop(test, inc, b, em), brk)
    decreases b, 10
  {
    hide BodyStart, EmitStmt, StmtCode, StmtOk, StmtConstants, WellPlaced, SceneOf, Newest, Emitted, AllFit, LoopLayout,
      Fits, EmitTest, EmitIncrement, MaybeConstants, LoopCode, LoopOk, HasBreak, BreakSafe, IncrementOk, InitialOk,
      EmitLoopEnd, EmitLoop, TestPart, IncPart, BackPart, LoopConstants, LoopEndOpen, PatchBreaks;
    var sc, pc, k := SceneOf(em), |em.code|, |em.constants|;
    var lay := LoopLayout(test, inc, b, sc, k);
    var end := EndPc(lay, test, pc);
    BodyStarts(test, inc, b, em, end);
    LoopFromParts(test, inc, b, sc, pc, k);
    SceneLocals(em);
    var em2 := BodyStart(test, inc, em);
    var own := StmtEmits(b, em2, end);
    var em3 := EmitStmt(b, em2);
    if em3.err {
      LoopFails(test, inc, b, em);
      if StmtOk(b, InLoop(sc), BodyPc(lay, pc), lay.kBody, LoopTargets(lay, test, inc, pc)) {
        OkWhilePending(b, InLoop(sc), BodyPc(lay, pc), lay.kBody, end, ContinuePc(lay, inc, pc));
      }
    } else {
      var bc := StmtCode(b, InLoop(sc), BodyPc(lay, pc), lay.kBody, LoopTargets(lay, test, inc, pc));
      LoopCloses(test, inc, b, em, em3, own, bc, brk);
      LoopIsEmitted(test, inc, b, em);
      EmittedFromEntry(em, PatchBreaks(LoopEndOpen(test, pc + lay.testSize, em3)), brk,
        LoopCode(test, inc, b, sc, pc, k), LoopConstants(test, inc, b));
      NothingToFit(brk);
    }
  }

  lemma LoopFails(test: Option<Expr>, inc: Option<Expr>, b: Stmt, em: Em)
    requires EmitStmt(b, BodyStart(test, inc, em)).err
    ensures EmitLoop(test, inc, b, em).err
  {
    hide EmitStmt, EmitTest, EmitIncrement, EmitLoopEnd;
    LoopEndKeepsErr(test.Some?, |EmitTest(test, EnterLoop(em)).code|, EmitStmt(b, BodyStart(test, inc, em)));
  }

  lemma NothingToFit(target: int)
    ensures AllFit([], target)
  {
  }

  lemma LoopIsEmitted(test: Option<Expr>, inc: Option<Expr>, b: Stmt, em: Em)
    ensures
      var em3 := EmitStmt(b, BodyStart(test, inc, em));
      EmitLoop(test, inc, b, em) ==
        PatchBreaks(LoopEndOpen(test, |EmitTest(test, EnterLoop(em)).code|, em3)).(loopStart := em.loopStart,
          loopDepth := em.loopDepth)
  {
    hide EmitStmt, EmitTest, EmitIncrement, PatchJump, PatchBreaks;
  }

  // ----- declarations -----

  lemma VarEmits(x: Name, v: Option<Expr>, em: Em, brk: int)
    requires WellPlaced(em)
    ensures
      var em2 := EmitVar(x, v, em);
      var sc, k := SceneOf(em), |em.constants|;
      && (em2.err <==> em.err || !DeclareOk(x, v, sc, k))
      && Emitted(em, em2, [], brk, InitialCode(v, Starting(sc, x), k), MaybeConstants(v))
      && em2.locals == Declared(sc, x).locals && em2.depth == em.depth && em2.loopStart == em.loopStart
      && em2.breaks == em.breaks && WellPlaced(em2)
  {
    hide EmitExpr, ExprCode, ExprOk, ExprConstants, PatchAll, Duplicate;
    var em1 := EmitDeclare(x, em);
    if v.Some? {
      EmittedExpr(em1, v.value, brk);
      ExprEmits(v.value, em1);
    } else {
      EmittedNothing(em1, brk);
      EmittedBytes(em1, em1, EmitInitial(v, em1), [], brk, [], [], [NIL]);
      assert [] + [NIL] == [NIL];
    }
    var em2, i := EmitInitial(v, em1), |em.locals|;
    assert em2.locals[i := em2.locals[i].(depth := em.depth)] == em.locals + [Local(x, em.depth)];
    assert [] + em.breaks == em.breaks;
  }

  ghost predicate DeclsDone(ds: Decls, em: Em, em2: Em, own: seq<BreakJump>, brk: int) {
    var sc, pc, k := SceneOf(em), |em.code|, |em.constants|;
    && Outcome(em, em2, own, brk, DeclsCode(ds, sc, pc, k, Targets(brk, em.loopStart)), DeclsConstants(ds),
               DeclsOk(ds, sc, pc, k, Targets(0, em.loopStart)), DeclsOk(ds, sc, pc, k, Targets(brk, em.loopStart)),
               HasBreaks(ds))
    && (!em2.err ==> em2.locals == AfterDecls(ds, sc).locals && em2.depth == em.depth)
  }

  ghost predicate DeclDone(d: Decl, em: Em, em2: Em, own: seq<BreakJump>, brk: int) {
    var sc, pc, k := SceneOf(em), |em.code|, |em.constants|;
    && Outcome(em, em2, own, brk, DeclCode(d, sc, pc, k, Targets(brk, em.loopStart)), DeclConstants(d),
               DeclOk(d, sc, pc, k, Targets(0, em.loopStart)), DeclOk(d, sc, pc, k, Targets(brk, em.loopStart)),
               d.Do? && HasBreak(d.s))
    && (!em2.err ==> em2.locals == AfterDecl(d, sc).locals && em2.depth == em.depth)
  }

  lemma {:induction false} DeclEmits(d: Decl, em: Em, brk: nat) returns (own: seq<BreakJump>)
    requires WellPlaced(em) && (d.Do? ==> BreakSafe(d.s, em.depth, SceneOf(em).loopDepth, Newest(em)))
    ensures DeclDone(d, em, EmitDecl(d, em), own, brk)
    decreases d, 10
  {
    hide EmitStmt, StmtCode, StmtOk, StmtConstants, PatchAll, EmitVar, DeclareOk, InitialCode, MaybeConstants;
    match d
    case Declare(x, v) =>
      VarEmits(x, v, em, brk);
      own := [];
    case Do(s) => own := StmtEmits(s, em, brk);
  }

  /** After a declaration the state is as good as before it, in the scene the structure says. */
  lemma AfterDeclWellPlaced(d: Decl, em: Em, em2: Em, own: seq<BreakJump>, brk: int)
    requires WellPlaced(em) && DeclDone(d, em, em2, own, brk) && !em2.err
    ensures WellPlaced(em2) && SceneOf(em2) == AfterDecl(d, SceneOf(em))
    ensures em2.loopDepth == em.loopDepth && em2.loopStart == em.loopStart
    ensures Newest(em2) == if d.Do? && HasBreak(d.s) then SceneOf(em).loopDepth else Newest(em)
    ensures em2.depth == em.depth && SceneOf(em2).loopDepth == SceneOf(em).loopDepth
  {
    hide DeclCode, DeclOk, DeclConstants, PatchAll, HasBreak;
    if own != [] {
      assert em2.breaks[0] == own[0];
    } else {
      assert em2.breaks == em.breaks;
    }
  }

  lemma DeclsFromParts(d: Decl, rest: Decls, sc: Scope, pc: nat, k: nat, to: Targets)
    ensures
      var at := pc + |DeclCode(d, sc, pc, k, to)|;
      var k2 := k + |DeclConstants(d)|;
      && DeclsCode(More(d, rest), sc, pc, k, to) ==
           DeclCode(d, sc, pc, k, to) + DeclsCode(rest, AfterDecl(d, sc), at, k2, to)
      && DeclsConstants(More(d, rest)) == DeclConstants(d) + DeclsConstants(rest)
      && (DeclsOk(More(d, rest), sc, pc, k, to)
          <==> DeclOk(d, sc, pc, k, to) && DeclsOk(rest, AfterDecl(d, sc), at, k2, to))
  {
    hide DeclCode, DeclConstants, DeclOk, AfterDecl;
  }

  lemma DeclSize(d: Decl, sc: Scope, pc: nat, k: nat, to: Targets, to': Targets)
    ensures |DeclCode(d, sc, pc, k, to)| == |DeclCode(d, sc, pc, k, to')|
  {
    hide StmtCode, InitialCode;
    if d.Do? {
      StmtSize(d.s, sc, pc, pc, k, to, to');
    }
  }

  lemma {:induction false} DeclsEmit(ds: Decls, em: Em, brk: nat) returns (own: seq<BreakJump>)
    requires WellPlaced(em) && AllBreakSafe(ds, em.depth, SceneOf(em).loopDepth, Newest(em))
    ensures DeclsDone(ds, em, EmitDecls(ds, em), own, brk)
    decreases ds, 10
  {
    hide EmitDecl, DeclCode, DeclOk, DeclConstants, WellPlaced, SceneOf, Newest, PatchAll, Emitted, AllFit, BreakSafe,
      HasBreak, AfterDecl,
      DeclsCode, DeclsOk, DeclsConstants;
    match ds
    case End =>
      own := [];
      NoDecls(em, brk);
    case More(d, rest) =>
      var sc, pc, k := SceneOf(em), |em.code|, |em.constants|;
      var to0, to1 := Targets(0, em.loopStart), Targets(brk, em.loopStart);
      DeclsFromParts(d, rest, sc, pc, k, to0);
      DeclsFromParts(d, rest, sc, pc, k, to1);
      DeclSize(d, sc, pc, k, to0, to1);
      var own1 := DeclEmits(d, em, brk);
      var em1 := EmitDecl(d, em);
      if em1.err {
        own := [];
        DeclsKeepErr(rest, em1);
      } else {
        AfterDeclWellPlaced(d, em, em1, own1, brk);
        var dc := DeclCode(d, sc, pc, k, to1);
        EmittedSize(em, em1, own1, brk, dc, DeclConstants(d));
        var own2 := DeclsEmit(rest, em1, brk);
        own := own2 + own1;
        if !EmitDecls(rest, em1).err {
          EmittedTwice(em, em1, EmitDecls(rest, em1), own1, own2, brk, dc,
            DeclsCode(rest, AfterDecl(d, sc), |em1.code|, |em1.constants|, to1),
                       DeclConstants(d), DeclsConstants(rest));
          AllFitConcat(own2, own1, brk);
        }
      }
  }

  lemma NoDecls(em: Em, brk: int)
    ensures DeclsDone(End, em, em, [], brk)
  {
    hide PatchAll;
    EmittedNothing(em, brk);
  }

  // ----- scopes -----

  /** Leaving a scope drops exactly the variables it declared. */
  lemma EndScopeEmits(em: Em, em2: Em, own: seq<BreakJump>, brk: int, code: Code, constants: seq<Num>)
    requires WellPlaced(em) && Emitted(BeginScope(em), em2, own, brk, code, constants) && em2.depth == em.depth + 1
    requires |em.locals| <= |em2.locals| && em2.locals[..|em.locals|] == em.locals
    requires forall i :: |em.locals| <= i < |em2.locals| ==> em2.locals[i].depth == em.depth + 1
    ensures
      var r := EndScope(em2);
      && Emitted(em, r, own, brk, code + PopCode(Deeper(em2.locals, em.depth)), constants)
      && r.(code := em2.code, depth := em2.depth, locals := em2.locals) == em2
      && r.depth == em.depth && r.locals == em.locals
  {
    hide PatchAll, PopCode, Deeper;
    assert forall i :: 0 <= i < |em.locals| ==> em2.locals[i] == em2.locals[..|em.locals|][i];
    DeeperCounts(em2.locals, em.depth, |em.locals|);
    EmittedBytes(BeginScope(em), em2, EndScope(em2), own, brk, code, constants, PopCode(Deeper(em2.locals, em.depth)));
  }

  lemma {:induction false} BlockEmits(ds: Decls, em: Em, brk: nat) returns (own: seq<BreakJump>)
    requires WellPlaced(em) && AllBreakSafe(ds, em.depth + 1, SceneOf(em).loopDepth, Newest(em))
    ensures StmtDone(Block(ds), em, EmitStmt(Block(ds), em), own, brk)
    decreases ds, 11
  {
    hide EmitDecls, DeclsCode, DeclsOk, DeclsConstants, PatchAll, Emitted, AllFit, HasBreaks, AllBreakSafe, EndScope;
    hide AfterDecls, PopCode;
    var inside := BeginScope(em);
    assert WellPlaced(inside) && SceneOf(inside) == Inner(SceneOf(em)) && Newest(inside) == Newest(em);
    own := DeclsEmit(ds, inside, brk);
    var em2 := EmitDecls(ds, inside);
    EndScopeKeepsErr(em2);
    if !em2.err {
      AfterDeclsShape(ds, Inner(SceneOf(em)));
      EndScopeEmits(em, em2, own, brk,
                    DeclsCode(ds, Inner(SceneOf(em)), |em.code|, |em.constants|,
                      Targets(brk, em.loopStart)), DeclsConstants(ds));
    }
  }

  lemma EndScopeKeepsErr(em: Em)
    ensures EndScope(em).err == em.err
  {
  }

  lemma InitEmits(i: ForInit, em: Em, brk: int)
    requires WellPlaced(em)
    ensures
      var em2 := EmitInit(i, em);
      var sc, k := SceneOf(em), |em.constants|;
      && (em2.err <==> em.err || !InitOk(i, sc, k))
      && Emitted(em, em2, [], brk, InitCode(i, sc, k), InitConstants(i))
      && em2.locals == AfterInit(i, sc).locals && em2.depth == em.depth && em2.loopStart == em.loopStart
      && em2.breaks == em.breaks && WellPlaced(em2) && SceneOf(em2) == AfterInit(i, sc)
  {
    hide EmitExpr, ExprCode, ExprOk, ExprConstants, PatchAll, EmitVar, DeclareOk, InitialCode, MaybeConstants;
    match i
    case NoInit => EmittedNothing(em, brk);
    case InitVar(x, v) => VarEmits(x, v, em, brk);
    case InitExpr(e) =>
      EmittedExpr(em, e, brk);
      ExprEmits(e, em);
      EmittedBytes(em, EmitExpr(e, em), EmitInit(i, em), [], brk, ExprCode(e, em.locals, |em.constants|),
        ExprConstants(e), [POP]);
  }

  lemma ForFromParts(s: Stmt, sc: Scope, pc: nat, k: nat, to: Targets)
    requires s.For?
    ensures
      var ic := InitCode(s.init, Inner(sc), k);
      var sc1 := AfterInit(s.init, Inner(sc));
      var k1 := k + |InitConstants(s.init)|;
      && StmtCode(s, sc, pc, k, to) ==
           ic + (LoopCode(s.test, s.increment, s.body_, sc1, pc + |ic|, k1) + LeaveCode(sc1, sc))
      && (StmtOk(s, sc, pc, k, to)
          <==> InitOk(s.init, Inner(sc), k) && LoopOk(s.test, s.increment, s.body_, sc1, pc + |ic|, k1))
      && StmtConstants(s) == InitConstants(s.init) + LoopConstants(s.test, s.increment, s.body_)
  {
    hide InitCode, InitOk, InitConstants, LoopCode, LoopOk, LeaveCode, AfterInit, MaybeConstants;
    assert MaybeConstants(s.test) + MaybeConstants(s.increment) + StmtConstants(s.body_) ==
      LoopConstants(s.test, s.increment, s.body_);
  }

  lemma {:induction false} ForEmits(s: Stmt, em: Em, brk: nat)
    requires s.For? && WellPlaced(em) && BreakSafe(s, em.depth, SceneOf(em).loopDepth, Newest(em))
    ensures StmtDone(s, em, EmitStmt(s, em), [], brk)
    decreases s, 0
  {
    hide EmitLoop, EmitInit, InitCode, InitOk, InitConstants, LoopCode, LoopOk, LoopConstants, StmtCode, StmtOk,
      StmtConstants, PatchAll, Emitted,
      AllFit, EndScope, PopCode, LoopEndOpen, PatchBreaks, JumpCode;
    var inside, sc := BeginScope(em), SceneOf(em);
    assert WellPlaced(inside) && SceneOf(inside) == Inner(sc) && Newest(inside) == Newest(em);
    ForFromParts(s, sc, |em.code|, |em.constants|, Targets(0, em.loopStart));
    ForFromParts(s, sc, |em.code|, |em.constants|, Targets(brk, em.loopStart));
    InitEmits(s.init, inside, brk);
    var em1 := EmitInit(s.init, inside);
    var ic := InitCode(s.init, Inner(sc), |em.constants|);
    EmittedSize(inside, em1, [], brk, ic, InitConstants(s.init));
    assert BreakSafe(s.body_, em1.depth, em1.depth, Newest(em1)) && Newest(em1) < em1.depth;
    LoopEmits(s.test, s.increment, s.body_, em1, brk);
    var em2 := EmitLoop(s.test, s.increment, s.body_, em1);
    EndScopeKeepsErr(em2);
    NothingToFit(brk);
    if !em2.err {
      var lc := LoopCode(s.test, s.increment, s.body_, AfterInit(s.init, Inner(sc)), |em1.code|, |em1.constants|);
      var lk := LoopConstants(s.test, s.increment, s.body_);
      EmittedTwice(inside, em1, em2, [], [], brk, ic, lc, InitConstants(s.init), lk);
      var none: seq<BreakJump> := [];
      assert none + none == none;
      EndScopeEmits(em, em2, [], brk, ic + lc, InitConstants(s.init) + lk);
      var leave := LeaveCode(AfterInit(s.init, Inner(sc)), sc);
      assert ic + lc + leave == ic + (lc + leave);
    }
  }

  lemma WhileFromLoop(c: Expr, b: Stmt, em: Em, brk: int)
    requires LoopDone(Some(c), None, b, em, EmitLoop(Some(c), None, b, em), brk)
    ensures StmtDone(While(c, b), em, EmitStmt(While(c, b), em), [], brk)
  {
    hide EmitLoop, LoopCode, LoopOk, PatchAll, Emitted, ExprConstants;
    NothingToFit(brk);
    assert StmtConstants(While(c, b)) == LoopConstants(Some(c), None, b);
  }

  // ----- every statement -----

  /** One-pass emission adds the structured code of a statement, up to the breaks still pending. */
  lemma {:induction false} StmtEmits(s: Stmt, em: Em, brk: nat) returns (own: seq<BreakJump>)
    requires WellPlaced(em) && BreakSafe(s, em.depth, SceneOf(em).loopDepth, Newest(em))
    ensures StmtDone(s, em, EmitStmt(s, em), own, brk)
    decreases s, 9
  {
    hide EmitStmt, StmtDone, WellPlaced, Newest;
    own := [];
    match s
    case Eval(e) => EvalEmits(e, em, brk);
    case Block(ds) => own := BlockEmits(ds, em, brk);
    case If(_, _, _) => own := IfEmits(s, em, brk);
    case While(c, b) =>
      LoopEmits(Some(c), None, b, em, brk);
      WhileFromLoop(c, b, em, brk);
    case For(_, _, _, _) => ForEmits(s, em, brk);
    case Break => own := BreakEmits(em, brk);
    case Continue => ContinueEmits(em, brk);
  }

  // ----- whole scripts -----

  /** No `while` of the script is met while a break of a loop at its own depth is pending. */
  predicate ScriptSafe(ds: Decls) {
    AllBreakSafe(ds, 0, -1, -1)
  }

  /** A script is emitted as exactly its structured code, and fails to compile exactly when that code would not fit. */
  lemma ScriptEmits(ds: Decls)
    requires ScriptSafe(ds)
    ensures EmitScript(ds).err <==> !ScriptOk(ds)
    ensures !EmitScript(ds).err ==> Chunk(EmitScript(ds).code, EmitScript(ds).constants) == ScriptCode(ds)
  {
    hide EmitDecls, DeclsCode, DeclsOk, DeclsConstants, AllBreakSafe, HasBreaks;
    var own := DeclsEmit(ds, FRESH, 0);
    var em := EmitDecls(ds, FRESH);
    if !em.err {
      PatchNone(em.code, 0);
    }
  }

  /** Scripts whose loop bodies are blocks are emitted right. */
  lemma BlockBodiedScriptEmits(ds: Decls)
    requires AllBlockBodies(ds)
    ensures EmitScript(ds).err <==> !ScriptOk(ds)
    ensures !EmitScript(ds).err ==> Chunk(EmitScript(ds).code, EmitScript(ds).constants) == ScriptCode(ds)
  {
    hide EmitScript, ScriptCode, ScriptOk, AllBreakSafe;
    AllBlockBodiesAreSafe(ds, 0, -1, -1);
    ScriptEmits(ds);
  }
}
