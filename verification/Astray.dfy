/** Which programs the one-pass compiler gets right: breaks are told apart only by scope depth, so a `while` at the
    depth of a pending break of an enclosing loop takes that break with it. */
module Astray {
  import opened Options
  import opened Values
  import opened Syntax
  import opened Bytecode
  import opened Codegen
  import opened Emit
  import opened Patching

  // ----- what emission leaves alone -----

  predicate InHole(q: nat, b: BreakJump) {
    b.offset <= q < b.offset + 2
  }

  /** Position `q` has been emitted and is not in the hole of a pending break: nothing will change it. */
  ghost predicate Settled(q: nat, em: Em) {
    q < |em.code| && forall i :: 0 <= i < |em.breaks| ==> !InHole(q, em.breaks[i])
  }

  ghost predicate Kept(em: Em, em2: Em) {
    |em.code| <= |em2.code| && forall q: nat :: Settled(q, em) ==> Settled(q, em2) && em2.code[q] == em.code[q]
  }

  /** The holes of the pending breaks do not overlap; the newest is the last. */
  ghost predicate Apart(em: Em) {
    && (forall i :: 0 <= i < |em.breaks| ==> em.breaks[i].offset + 2 <= |em.code|)
    && (forall i, j :: 0 <= i < j < |em.breaks| ==> em.breaks[j].offset + 2 <= em.breaks[i].offset)
  }

  predicate LeadsTo(code: Code, offset: nat, target: int) {
    && offset + 2 <= |code| && Fits(target - offset - 2) && 0 <= target - offset - 2
    && code[offset] == U16(target - offset - 2)[0] && code[offset + 1] == U16(target - offset - 2)[1]
  }

  /** The break has been patched for good, and leads to a place already emitted. */
  ghost predicate Landed(b: BreakJump, em: Em) {
    && Settled(b.offset, em) && Settled(b.offset + 1, em)
    && exists target: int :: target <= |em.code| && LeadsTo(em.code, b.offset, target)
  }

  /** Of the breaks pending in `em`, the first `m` have landed and the others are still pending, behind `own`. */
  ghost predicate Fate(em: Em, em2: Em, own: seq<BreakJump>, m: nat) {
    && m <= |em.breaks| && em2.breaks == own + em.breaks[m..]
    && (forall i :: 0 <= i < |own| ==> own[i].depth == em.loopDepth)
    && (forall i :: 0 <= i < m ==> Landed(em.breaks[i], em2))
  }

  ghost predicate Carried(em: Em, em2: Em) {
    && Kept(em, em2) && Apart(em2) && em2.loopDepth == em.loopDepth
    && exists own, m :: Fate(em, em2, own, m)
  }

  lemma LandedStays(b: BreakJump, em: Em, em2: Em)
    requires Landed(b, em) && Kept(em, em2)
    ensures Landed(b, em2)
  {
    hide Settled, U16;
    var target: int :| target <= |em.code| && LeadsTo(em.code, b.offset, target);
    assert LeadsTo(em2.code, b.offset, target);
  }

  lemma CarriedTwice(em: Em, em1: Em, em2: Em)
    requires Carried(em, em1) && Carried(em1, em2)
    ensures Carried(em, em2)
  {
    hide Settled, Landed;
    var own1, m1: nat :| Fate(em, em1, own1, m1);
    var own2, m2: nat :| Fate(em1, em2, own2, m2);
    forall i | 0 <= i < m1 ensures Landed(em.breaks[i], em2) {
      LandedStays(em.breaks[i], em1, em2);
    }
    if m2 <= |own1| {
      assert em1.breaks[m2..] == own1[m2..] + em.breaks[m1..];
      assert em2.breaks == (own2 + own1[m2..]) + em.breaks[m1..];
      assert Fate(em, em2, own2 + own1[m2..], m1);
    } else {
      var m := m1 + (m2 - |own1|);
      assert em1.breaks[m2..] == em.breaks[m..];
      forall i | m1 <= i < m ensures Landed(em.breaks[i], em2) {
        assert em.breaks[i] == em1.breaks[i - m1 + |own1|];
      }
      assert Fate(em, em2, own2, m);
    }
  }

  /** Code is added and nothing else happens to what was there. */
  ghost predicate Grown(em: Em, em2: Em) {
    && em2.breaks == em.breaks && em2.loopDepth == em.loopDepth
    && |em.code| <= |em2.code| && em2.code[..|em.code|] == em.code
  }

  lemma GrownIsCarried(em: Em, em2: Em)
    requires Grown(em, em2) && Apart(em)
    ensures Carried(em, em2)
  {
    assert em2.breaks == [] + em.breaks[0..];
    assert Fate(em, em2, [], 0);
    forall q: nat | Settled(q, em) ensures Settled(q, em2) && em2.code[q] == em.code[q] {
      assert em2.code[q] == em2.code[..|em.code|][q];
    }
  }

  /** A jump of the construct's own is patched. */
  lemma CarriedPatch(em: Em, em2: Em, at: nat)
    requires Carried(em, em2) && Apart(em) && |em.code| <= at
    ensures Carried(em, PatchJump(em2, at))
  {
    var em3 := PatchJump(em2, at);
    var own, m: nat :| Fate(em, em2, own, m);
    assert forall q: nat :: q < |em.code| ==> em3.code[q] == em2.code[q];
    forall i | 0 <= i < m ensures Landed(em.breaks[i], em3) {
      var b := em.breaks[i];
      var target: int :| target <= |em2.code| && LeadsTo(em2.code, b.offset, target);
      assert Settled(b.offset, em2) && Settled(b.offset + 1, em2);
      assert LeadsTo(em3.code, b.offset, target);
    }
    assert Fate(em, em3, own, m);
    forall q: nat | Settled(q, em) ensures Settled(q, em3) && em3.code[q] == em.code[q] {
      assert Settled(q, em2);
    }
  }

  lemma CarriedBytes(em: Em, em2: Em, em3: Em, bytes: Code)
    requires Carried(em, em2) && em3.code == em2.code + bytes
    requires em3.breaks == em2.breaks && em3.loopDepth == em2.loopDepth
    ensures Carried(em, em3)
  {
    hide Settled, Landed, Apart;
    assert Grown(em2, em3);
    GrownIsCarried(em2, em3);
    CarriedTwice(em, em2, em3);
  }

  lemma ExprGrows(e: Expr, em: Em)
    ensures Grown(em, EmitExpr(e, em))
  {
    hide EmitExpr, ExprCode, ExprConstants, ExprOk;
    ExprEmits(e, em);
  }

  lemma VarGrows(x: Name, v: Option<Expr>, em: Em)
    ensures Grown(em, EmitVar(x, v, em))
  {
    hide EmitExpr;
    if v.Some? {
      ExprGrows(v.value, EmitDeclare(x, em));
    }
  }

  lemma InitGrows(i: ForInit, em: Em)
    ensures Grown(em, EmitInit(i, em))
  {
    hide EmitExpr, EmitVar;
    match i
    case NoInit =>
    case InitVar(x, v) => VarGrows(x, v, em);
    case InitExpr(e) => ExprGrows(e, em);
  }

  lemma TestGrows(test: Option<Expr>, em: Em)
    ensures Grown(em, EmitTest(test, em))
  {
    hide EmitExpr;
    if test.Some? {
      ExprGrows(test.value, em);
    }
  }

  lemma IncrementGrows(inc: Option<Expr>, em: Em)
    ensures Grown(em, EmitIncrement(inc, em))
  {
    hide EmitExpr, ExprCode, ExprOk, ExprConstants, PatchAll, U16, Patched;
    if inc.Some? {
      IncrementCloses(inc.value, em, 0);
      PatchNone(EmitIncrement(inc, em).code, 0);
    }
  }

  lemma GrownTwice(em: Em, em1: Em, em2: Em)
    requires Grown(em, em1) && Grown(em1, em2)
    ensures Grown(em, em2)
  {
    assert em2.code[..|em.code|] == em2.code[..|em1.code|][..|em.code|];
  }

  lemma BodyStartGrows(test: Option<Expr>, inc: Option<Expr>, em: Em)
    ensures Grown(EnterLoop(em), BodyStart(test, inc, em))
  {
    hide EmitTest, EmitIncrement;
    TestGrows(test, EnterLoop(em));
    IncrementGrows(inc, EmitTest(test, EnterLoop(em)));
    GrownTwice(EnterLoop(em), EmitTest(test, EnterLoop(em)), BodyStart(test, inc, em));
  }

  /** A pending break is patched. */
  lemma NewestLands(em: Em)
    requires Apart(em) && em.breaks != [] && !PatchJump(em, em.breaks[0].offset).err
    ensures
      var next := PatchJump(em, em.breaks[0].offset).(breaks := em.breaks[1..]);
      Kept(em, next) && Apart(next) && Landed(em.breaks[0], next)
  {
    var next := PatchJump(em, em.breaks[0].offset).(breaks := em.breaks[1..]);
    var b := em.breaks[0];
    forall q: nat | Settled(q, em) ensures Settled(q, next) && next.code[q] == em.code[q] {
      assert !InHole(q, b);
      assert forall i :: 0 <= i < |next.breaks| ==> next.breaks[i] == em.breaks[i + 1];
    }
    assert LeadsTo(next.code, b.offset, |em.code|);
  }

  /** At the end of a loop breaks land until one of a loop around it is met. */
  lemma {:induction false} PatchBreaksLands(em: Em) returns (m: nat)
    requires Apart(em) && !PatchBreaks(em).err
    ensures
      var r := PatchBreaks(em);
      && Kept(em, r) && Apart(r) && m <= |em.breaks| && r.breaks == em.breaks[m..] && |r.code| == |em.code|
      && (r.breaks != [] ==> r.breaks[0].depth < em.loopDepth)
      && r.(code := em.code, breaks := em.breaks, err := em.err) == em
      && forall i :: 0 <= i < m ==> Landed(em.breaks[i], r)
    decreases |em.breaks|
  {
    hide Settled, Landed, Apart, Patched, U16;
    if em.breaks != [] && em.breaks[0].depth >= em.loopDepth {
      var next := PatchJump(em, em.breaks[0].offset).(breaks := em.breaks[1..]);
      if next.err {
        PatchBreaksKeepsErr(next);
      }
      NewestLands(em);
      var n := PatchBreaksLands(next);
      m := n + 1;
      var r := PatchBreaks(next);
      LandedStays(em.breaks[0], next, r);
      assert em.breaks[1..][n..] == em.breaks[m..];
      forall i | 0 <= i < m ensures Landed(em.breaks[i], r) {
        if i > 0 {
          assert em.breaks[i] == next.breaks[i - 1];
        }
      }
    } else {
      m := 0;
    }
  }

  lemma LoopEndCarries(em: Em, em3: Em, test: Option<Expr>, exit: nat)
    requires Carried(em, em3) && Apart(em) && (test.Some? ==> exit >= |em.code| + 3)
    ensures Carried(em, LoopEndOpen(test, exit, em3))
  {
    hide Carried, Apart, Patched, U16;
    var em4 := EmitBack(em3, em3.loopStart);
    CarriedBytes(em, em3, em4, JumpCode(LOOP, |em3.code| + 3 - em3.loopStart));
    if test.Some? {
      CarriedPatch(em, em4, exit - 3);
      var em5 := PatchJump(em4, exit - 3);
      CarriedBytes(em, em5, EmitBytes(em5, [POP]), [POP]);
    }
  }

  lemma BreakCarries(em: Em)
    requires Apart(em)
    ensures Carried(em, EmitBreak(em))
  {
    hide PopCode, Deeper;
    var em2 := EmitBreak(em);
    var own := [em2.breaks[0]];
    assert em2.breaks == own + em.breaks[0..];
    assert Fate(em, em2, own, 0);
  }

  lemma SameCarries(em: Em, em': Em, em2: Em)
    requires Carried(em', em2) && em'.code == em.code && em'.breaks == em.breaks && em'.loopDepth == em.loopDepth
    ensures Carried(em, em2)
  {
    hide Landed;
    var own, m: nat :| Fate(em', em2, own, m);
    assert Fate(em, em2, own, m);
    forall q: nat | Settled(q, em) ensures Settled(q, em2) && em2.code[q] == em.code[q] {
      assert Settled(q, em');
    }
  }

  /** However a statement comes out, what was settled stays, and the breaks that were pending land or stay pending. */
  lemma {:induction false} StmtCarries(s: Stmt, em: Em)
    requires Apart(em) && !EmitStmt(s, em).err
    ensures Carried(em, EmitStmt(s, em))
    decreases s, 1
  {
    hide EmitExpr, EmitDecls, EmitLoop, EmitInit, Carried, Apart, PopCode, Deeper, U16, Patched, Grown;
    match s
    case Eval(e) =>
      ExprGrows(e, em);
      GrownIsCarried(em, EmitExpr(e, em));
      CarriedBytes(em, EmitExpr(e, em), EmitStmt(s, em), [POP]);
    case Block(ds) =>
      SameApart(em, BeginScope(em));
      EndScopeKeepsErr(EmitDecls(ds, BeginScope(em)));
      DeclsCarry(ds, BeginScope(em));
      ScopeCarries(em, EmitDecls(ds, BeginScope(em)));
    case If(_, _, _) => IfCarries(s, em);
    case While(c, b) => LoopCarries(Some(c), None, b, em);
    case For(init, test, inc, b) =>
      var em1 := EmitInit(init, BeginScope(em));
      InitGrows(init, BeginScope(em));
      SameApart(em, BeginScope(em));
      GrownIsCarried(BeginScope(em), em1);
      EndScopeKeepsErr(EmitLoop(test, inc, b, em1));
      assert Apart(em1) by { CarriedApart(BeginScope(em), em1); }
      LoopCarries(test, inc, b, em1);
      CarriedTwice(BeginScope(em), em1, EmitLoop(test, inc, b, em1));
      ScopeCarries(em, EmitLoop(test, inc, b, em1));
    case Break => BreakCarries(em);
    case Continue =>
      GrownIsCarried(em, em) by { GrownSelf(em); }
      var pops := PopCode(Deeper(em.locals, em.loopDepth));
      CarriedBytes(em, em, EmitBytes(em, pops), pops);
      var em1 := EmitBytes(FailIf(em, em.loopStart == -1), pops);
      CarriedBytes(em, EmitBytes(em, pops), EmitContinue(em), JumpCode(LOOP, |em1.code| + 3 - em.loopStart));
  }

  lemma SameApart(em: Em, em': Em)
    requires Apart(em) && em'.code == em.code && em'.breaks == em.breaks
    ensures Apart(em')
  {
  }

  lemma CarriedApart(em: Em, em2: Em)
    requires Carried(em, em2)
    ensures Apart(em2) && |em.code| <= |em2.code| && em2.loopDepth == em.loopDepth
  {
  }

  lemma ScopeCarries(em: Em, em2: Em)
    requires Carried(BeginScope(em), em2)
    ensures Carried(em, EndScope(em2))
  {
    hide Carried, PopCode, Deeper;
    SameCarries(em, BeginScope(em), em2);
    var d := if em2.depth == 0 then 0 else em2.depth - 1;
    CarriedBytes(em, em2, EndScope(em2), PopCode(Deeper(em2.locals, d)));
  }

  lemma {:induction false} IfCarries(s: Stmt, em: Em)
    requires s.If? && Apart(em) && !EmitStmt(s, em).err
    ensures Carried(em, EmitStmt(s, em))
    decreases s, 0
  {
    hide EmitStmt, EmitElse, ThenStart, ElseStart, Carried, Apart, PatchJump, EmitExpr, Grown;
    var em1 := ThenStart(s.cond, em);
    var em2 := EmitStmt(s.thenBranch, em1);
    var em3 := ElseStart(s.cond, em, em2);
    var em4 := EmitElse(s.elseBranch, em3);
    IfIsEmitted(s, em);
    PatchKeepsErr(em4, |em2.code| + 1);
    if em2.err {
      ElseKeepsErr(s, em, em2);
    }
    ThenStartGrows(s.cond, em);
    GrownIsCarried(em, em1);
    CarriedApart(em, em1);
    StmtCarries(s.thenBranch, em1);
    CarriedTwice(em, em1, em2);
    ElseStartCarries(s.cond, em, em2);
    CarriedApart(em, em3);
    CarriedApart(em, em2);
    ElseCarries(s.elseBranch, em3);
    CarriedTwice(em, em3, em4);
    CarriedPatch(em, em4, |em2.code| + 1);
  }

  lemma ThenStartGrows(c: Expr, em: Em)
    ensures Grown(em, ThenStart(c, em)) && |ThenStart(c, em).code| == |EmitExpr(c, em).code| + 4
  {
    hide EmitExpr;
    ExprGrows(c, em);
  }

  lemma ElseStartCarries(c: Expr, em: Em, em2: Em)
    requires Carried(em, em2) && Apart(em)
    ensures Carried(em, ElseStart(c, em, em2))
  {
    hide EmitExpr, Carried, Apart, Patched, U16;
    ExprGrows(c, em);
    CarriedBytes(em, em2, EmitJump(em2, JUMP), [JUMP, 0, 0]);
    var at := |EmitExpr(c, em).code| + 1;
    CarriedPatch(em, EmitJump(em2, JUMP), at);
    CarriedBytes(em, PatchJump(EmitJump(em2, JUMP), at), ElseStart(c, em, em2), [POP]);
  }

  lemma {:induction false} ElseCarries(e: Option<Stmt>, em: Em)
    requires Apart(em) && !EmitElse(e, em).err
    ensures Carried(em, EmitElse(e, em))
    decreases e, 1
  {
    hide EmitStmt, Carried, Apart;
    if e.Some? {
      StmtCarries(e.value, em);
    } else {
      GrownIsCarried(em, em);
    }
  }

  /** At the end of a loop the breaks at its depth have landed, whichever loop they belong to. */
  lemma {:induction false} LoopCarries(test: Option<Expr>, inc: Option<Expr>, b: Stmt, em: Em)
    requires Apart(em) && !EmitLoop(test, inc, b, em).err
    ensures Carried(em, EmitLoop(test, inc, b, em))
    ensures Newest(em) >= em.depth ==> em.breaks != [] && Landed(em.breaks[0], EmitLoop(test, inc, b, em))
    decreases b, 2
  {
    hide EmitStmt, EmitLoop, Carried, Apart, Grown, BodyStart, PatchBreaks, LoopEndOpen, EmitTest;
    var em0 := EnterLoop(em);
    var em2 := BodyStart(test, inc, em);
    var em3 := EmitStmt(b, em2);
    var exit := |EmitTest(test, em0).code|;
    var open := LoopEndOpen(test, exit, em3);
    LoopIsEmitted(test, inc, b, em);
    if em3.err {
      LoopFails(test, inc, b, em);
    }
    BodyStartGrows(test, inc, em);
    SameApart(em, em0);
    GrownIsCarried(em0, em2);
    CarriedApart(em0, em2);
    StmtCarries(b, em2);
    CarriedTwice(em0, em2, em3);
    TestSize(test, em0);
    LoopEndCarries(em0, em3, test, exit);
    LoopLands(em, open);
  }

  lemma TestSize(test: Option<Expr>, em: Em)
    ensures test.Some? ==> |EmitTest(test, em).code| >= |em.code| + 4
  {
    hide EmitExpr;
    if test.Some? {
      ExprGrows(test.value, em);
    }
  }

  lemma OwnLand(own: seq<BreakJump>, outer: seq<BreakJump>, d: int, n: nat)
    requires n <= |own + outer| && forall i :: 0 <= i < |own| ==> own[i].depth == d
    requires n < |own + outer| ==> (own + outer)[n..][0].depth < d
    ensures n >= |own| && (own + outer)[n..] == outer[n - |own|..]
  {
  }

  lemma LoopLands(em: Em, open: Em)
    requires Carried(EnterLoop(em), open) && Apart(em) && !PatchBreaks(open).err
    ensures
      var r := PatchBreaks(open).(loopStart := em.loopStart, loopDepth := em.loopDepth);
      Carried(em, r) && (Newest(em) >= em.depth ==> em.breaks != [] && Landed(em.breaks[0], r))
  {
    hide PatchBreaks, Landed, Settled, Kept, Apart;
    SameApart(em, EnterLoop(em));
    var em0 := EnterLoop(em);
    var own, m: nat :| Fate(em0, open, own, m);
    var n := PatchBreaksLands(open);
    var p, r := PatchBreaks(open), PatchBreaks(open).(loopStart := em.loopStart, loopDepth := em.loopDepth);
    OwnLand(own, em.breaks[m..], em.depth, n);
    var k := m + (n - |own|);
    assert em.breaks[m..][n - |own|..] == em.breaks[k..];
    OuterLand(em.breaks, own, m, n, open, p, r);
    assert r.breaks == [] + em.breaks[k..];
    assert Fate(em, r, [], k);
    KeptSame(em, em0, open, p, r);
  }

  /** The breaks of `outer` that had landed before the loop's end, and those it patches besides its `own`. */
  lemma OuterLand(outer: seq<BreakJump>, own: seq<BreakJump>, m: nat, n: nat, open: Em, p: Em, r: Em)
    requires m <= |outer| && open.breaks == own + outer[m..] && |own| <= n <= |open.breaks|
    requires Kept(open, p) && r.code == p.code && r.breaks == p.breaks
    requires forall i :: 0 <= i < m ==> Landed(outer[i], open)
    requires forall i :: 0 <= i < n ==> Landed(open.breaks[i], p)
    ensures forall i :: 0 <= i < m + (n - |own|) ==> Landed(outer[i], r)
  {
    hide Landed, Kept;
    forall i | 0 <= i < m + (n - |own|) ensures Landed(outer[i], r) {
      if i < m {
        LandedStays(outer[i], open, p);
      } else {
        assert outer[i] == open.breaks[i - m + |own|];
      }
      LandedSame(outer[i], p, r);
    }
  }

  lemma LandedSame(b: BreakJump, em: Em, em': Em)
    requires Landed(b, em) && em'.code == em.code && em'.breaks == em.breaks
    ensures Landed(b, em')
  {
  }

  lemma KeptSame(em: Em, em0: Em, open: Em, p: Em, r: Em)
    requires em0.code == em.code && em0.breaks == em.breaks && r.code == p.code && r.breaks == p.breaks
    requires Kept(em0, open) && Kept(open, p) && Apart(p)
    ensures Kept(em, r) && Apart(r)
  {
    forall q: nat | Settled(q, em) ensures Settled(q, r) && r.code[q] == em.code[q] {
      assert Settled(q, em0);
      assert Settled(q, open);
      assert Settled(q, p);
    }
  }

  lemma {:induction false} DeclsCarry(ds: Decls, em: Em)
    requires Apart(em) && !EmitDecls(ds, em).err
    ensures Carried(em, EmitDecls(ds, em))
    decreases ds, 0
  {
    hide EmitStmt, EmitVar, Carried, Apart, Grown;
    match ds
    case End => GrownIsCarried(em, em) by { GrownSelf(em); }
    case More(d, rest) =>
      var em1 := EmitDecl(d, em);
      if em1.err {
        DeclsKeepErr(rest, em1);
      }
      DeclCarries(d, em);
      CarriedApart(em, em1);
      DeclsCarry(rest, em1);
      CarriedTwice(em, em1, EmitDecls(rest, em1));
  }

  lemma GrownSelf(em: Em)
    ensures Grown(em, em)
  {
  }

  lemma {:induction false} DeclCarries(d: Decl, em: Em)
    requires Apart(em) && !EmitDecl(d, em).err
    ensures Carried(em, EmitDecl(d, em))
    decreases d, 1
  {
    hide EmitStmt, EmitVar, Carried, Apart, Grown;
    match d
    case Declare(x, v) =>
      VarGrows(x, v, em);
      GrownIsCarried(em, EmitVar(x, v, em));
    case Do(s) => StmtCarries(s, em);
  }

  // ----- every construct is as long as its structured code -----

  ghost predicate Bounded(em: Em) {
    && WellPlaced(em) && Apart(em) && 0 <= em.loopDepth <= em.depth
    && forall i :: 0 <= i < |em.breaks| ==> em.breaks[i].depth <= em.depth
  }

  /** From `em` to `em2` the code and the pool grew by so much, and the surroundings are the same. */
  ghost predicate Sized(em: Em, em2: Em, code: nat, constants: nat) {
    && |em2.code| == |em.code| + code && |em2.constants| == |em.constants| + constants
    && em2.depth == em.depth && em2.loopStart == em.loopStart && em2.loopDepth == em.loopDepth
    && Bounded(em2)
  }

  lemma StaysBounded(em: Em, em2: Em)
    requires Bounded(em) && Carried(em, em2) && em2.depth == em.depth && em2.loopStart == em.loopStart
    requires forall i :: 0 <= i < |em2.locals| ==> em2.locals[i].depth <= em2.depth
    ensures Bounded(em2)
  {
    hide Landed, Settled, Kept;
    var own, m: nat :| Fate(em, em2, own, m);
    forall i | 0 <= i < |em2.breaks| ensures em2.breaks[i].depth <= em.depth {
      if i >= |own| {
        assert em2.breaks[i] == em.breaks[m + (i - |own|)];
      }
    }
  }

  lemma ScopeBounded(em: Em)
    requires Bounded(em)
    ensures Bounded(BeginScope(em)) && SceneOf(BeginScope(em)) == Inner(SceneOf(em))
  {
    SameApart(em, BeginScope(em));
  }

  /** Leaving a scope. */
  lemma ScopeSized(em: Em, em2: Em)
    requires Bounded(em) && em2.depth == em.depth + 1 && |em.locals| <= |em2.locals|
    requires em2.locals[..|em.locals|] == em.locals
    requires forall i :: |em.locals| <= i < |em2.locals| ==> em2.locals[i].depth == em.depth + 1
    ensures
      var r := EndScope(em2);
      && r.locals == em.locals && r.depth == em.depth
      && |r.code| == |em2.code| + |PopCode(Deeper(em2.locals, em.depth))|
      && r.(code := em2.code, depth := em2.depth, locals := em2.locals) == em2
  {
    hide PopCode, Deeper, Apart;
    assert forall i :: 0 <= i < |em.locals| ==> em2.locals[i] == em2.locals[..|em.locals|][i];
    DeeperCounts(em2.locals, em.depth, |em.locals|);
  }

  ghost predicate StmtSized(s: Stmt, em: Em) {
    var em2 := EmitStmt(s, em);
    && Sized(em, em2, |StmtCode(s, SceneOf(em), |em.code|, |em.constants|, Targets(0, em.loopStart))|,
         |StmtConstants(s)|)
    && em2.locals == em.locals
  }

  /** However breaks come out, a statement is as long as its structured code. */
  lemma {:induction false} StmtIsSized(s: Stmt, em: Em)
    requires Bounded(em) && !EmitStmt(s, em).err
    ensures StmtSized(s, em)
    decreases s, 1
  {
    hide EmitExpr, ExprCode, ExprConstants, ExprOk, EmitLoop, EmitDecls, EmitInit, Bounded, Carried, PopCode, Deeper,
      U16, Patched,
      IfCode, LoopCode, DeclsCode, InitCode;
    BoundedApart(em);
    StmtCarries(s, em);
    match s
    case Eval(e) =>
      ExprEmits(e, em);
      KeepsBounded(em, EmitStmt(s, em));
    case Block(ds) => BlockIsSized(ds, em);
    case If(_, _, _) => IfIsSized(s, em);
    case While(c, b) => WhileIsSized(c, b, em);
    case For(_, _, _, _) => ForIsSized(s, em);
    case Break => KeepsBounded(em, EmitStmt(s, em));
    case Continue => KeepsBounded(em, EmitStmt(s, em));
  }

  lemma BoundedApart(em: Em)
    requires Bounded(em)
    ensures Apart(em) && WellPlaced(em)
  {
  }

  lemma KeepsBounded(em: Em, em2: Em)
    requires Bounded(em) && Carried(em, em2) && em2.depth == em.depth
    requires em2.loopStart == em.loopStart && em2.locals == em.locals
    ensures Bounded(em2)
  {
    hide Carried;
    StaysBounded(em, em2);
  }

  lemma {:induction false} BlockIsSized(ds: Decls, em: Em)
    requires Bounded(em) && !EmitStmt(Block(ds), em).err
    ensures StmtSized(Block(ds), em)
    decreases ds, 2
  {
    hide EmitDecls, DeclsCode, Bounded, Carried, PopCode, Deeper, EndScope, AfterDecls, DeclsConstants;
    var inside := BeginScope(em);
    var em2 := EmitDecls(ds, inside);
    BoundedApart(em);
    ScopeBounded(em);
    EndScopeKeepsErr(em2);
    DeclsAreSized(ds, inside);
    AfterDeclsShape(ds, Inner(SceneOf(em)));
    ScopeSized(em, em2);
    StmtCarries(Block(ds), em);
    KeepsBounded(em, EndScope(em2));
  }

  lemma {:induction false} IfIsSized(s: Stmt, em: Em)
    requires s.If? && Bounded(em) && !EmitStmt(s, em).err
    ensures StmtSized(s, em)
    decreases s, 0
  {
    hide EmitStmt, EmitElse, ThenStart, ElseStart, Carried, PatchJump, EmitExpr, Grown, Bounded, StmtCode,
      StmtConstants, ExprCode, ExprConstants,
      ExprOk, StmtOk, JumpCode, ElseCode, ElseConstants, Emitted;
    var sc, pc, k, to := SceneOf(em), |em.code|, |em.constants|, Targets(0, em.loopStart);
    var em1 := ThenStart(s.cond, em);
    var em2 := EmitStmt(s.thenBranch, em1);
    var em3 := ElseStart(s.cond, em, em2);
    var em4 := EmitElse(s.elseBranch, em3);
    BoundedApart(em);
    StmtCarries(s, em);
    IfIsEmitted(s, em);
    PatchKeepsErr(em4, |em2.code| + 1);
    if em2.err {
      ElseKeepsErr(s, em, em2);
    }
    ThenStarts(s, em, 0);
    ThenStartBounded(s.cond, em);
    StmtIsSized(s.thenBranch, em1);
    ElseStartShape(s.cond, em, em2);
    ElseIsSized(s.elseBranch, em3);
    PatchShape(em4, |em2.code| + 1);
    IfUnfolds(s, sc, pc, k, to);
    JumpSize(JUMP_IF_FALSE, LayoutIf(s, sc, pc, k, to).thenSize + 4);
    JumpSize(JUMP, LayoutIf(s, sc, pc, k, to).elseSize + 1);
    KeepsBounded(em, EmitStmt(s, em));
  }

  lemma PatchShape(em: Em, at: nat)
    ensures var r := PatchJump(em, at); |r.code| == |em.code| && r.(code := em.code, err := em.err) == em
  {
    hide Patched;
  }

  lemma ThenStartBounded(c: Expr, em: Em)
    requires Bounded(em)
    ensures Bounded(ThenStart(c, em))
  {
    hide Carried, ExprCode, ExprOk, ExprConstants, EmitExpr;
    ExprEmits(c, em);
    ThenStartGrows(c, em);
    GrownIsCarried(em, ThenStart(c, em));
    StaysBounded(em, ThenStart(c, em));
  }

  lemma ElseStartShape(c: Expr, em: Em, em2: Em)
    ensures
      var r := ElseStart(c, em, em2);
      |r.code| == |em2.code| + 4 && r.(code := em2.code, err := em2.err) == em2
    ensures Bounded(em2) ==> Bounded(ElseStart(c, em, em2))
  {
    hide Patched, EmitExpr;
  }

  lemma {:induction false} ElseIsSized(e: Option<Stmt>, em: Em)
    requires Bounded(em) && !EmitElse(e, em).err
    ensures
      var em2 := EmitElse(e, em);
      && Sized(em, em2, |ElseCode(e, SceneOf(em), |em.code|, |em.constants|, Targets(0, em.loopStart))|,
           |ElseConstants(e)|)
      && em2.locals == em.locals
    decreases e, 1
  {
    hide EmitStmt, StmtCode, StmtConstants, Bounded;
    if e.Some? {
      StmtIsSized(e.value, em);
    }
  }

  lemma {:induction false} LoopIsSized(test: Option<Expr>, inc: Option<Expr>, b: Stmt, em: Em)
    requires Bounded(em) && !EmitLoop(test, inc, b, em).err
    ensures
      var em2 := EmitLoop(test, inc, b, em);
      && Sized(em, em2, |LoopCode(test, inc, b, SceneOf(em), |em.code|, |em.constants|)|, |LoopConstants(test, inc, b)|)
      && em2.locals == em.locals
    decreases b, 3
  {
    hide EmitStmt, EmitLoop, Carried, Grown, BodyStart, PatchBreaks, LoopEndOpen, EmitTest, StmtCode, StmtConstants,
      LoopCode, Bounded,
      MaybeConstants, Emitted, IncPart, LoopLayout;
    var sc, pc, k := SceneOf(em), |em.code|, |em.constants|;
    var lay := LoopLayout(test, inc, b, sc, k);
    var em2 := BodyStart(test, inc, em);
    var em3 := EmitStmt(b, em2);
    var exit := |EmitTest(test, EnterLoop(em)).code|;
    LoopIsEmitted(test, inc, b, em);
    if em3.err {
      LoopFails(test, inc, b, em);
    }
    BoundedApart(em);
    BodyStarts(test, inc, b, em, 0);
    BodyStartBounded(test, inc, em);
    StmtIsSized(b, em2);
    LoopFromParts(test, inc, b, sc, pc, k);
    LoopEndsAtEndPc(test, inc, b, sc, pc, k);
    StmtSize(b, InLoop(sc), BodyPc(lay, pc), BodyPc(lay, pc), lay.kBody, Targets(0, em2.loopStart),
      LoopTargets(lay, test, inc, pc));
    LayoutConstants(test, inc, b, sc, k);
    LoopEndShape(test, exit, em3);
    PatchBreaksShape(LoopEndOpen(test, exit, em3));
    LoopCarries(test, inc, b, em);
    KeepsBounded(em, EmitLoop(test, inc, b, em));
  }

  lemma LayoutConstants(test: Option<Expr>, inc: Option<Expr>, b: Stmt, sc: Scope, k: nat)
    ensures LoopLayout(test, inc, b, sc, k).kBody == k + |MaybeConstants(test)| + |MaybeConstants(inc)|
  {
    hide StmtCode, ExprCode, MaybeConstants;
  }

  lemma BodyStartBounded(test: Option<Expr>, inc: Option<Expr>, em: Em)
    requires Bounded(em)
    ensures Bounded(BodyStart(test, inc, em))
  {
    hide Carried, BodyStart, Emitted, IncPart, TestHole, LoopLayout, MaybeConstants, Grown;
    BodyStarts(test, inc, Break, em, 0);
    BodyStartGrows(test, inc, em);
    GrownIsCarried(EnterLoop(em), BodyStart(test, inc, em));
    CarriedApart(EnterLoop(em), BodyStart(test, inc, em));
  }

  lemma LoopEndShape(test: Option<Expr>, exit: nat, em: Em)
    requires test.Some? ==> exit >= 3
    ensures
      var r := LoopEndOpen(test, exit, em);
      |r.code| == |em.code| + 3 + (if test.Some? then 1 else 0) && r.(code := em.code, err := em.err) == em
  {
    hide Patched;
  }

  lemma {:induction false} PatchBreaksShape(em: Em)
    ensures
      var r := PatchBreaks(em);
      |r.code| == |em.code| && r.(code := em.code, err := em.err, breaks := em.breaks) == em
    decreases |em.breaks|
  {
    hide Patched;
    if em.breaks != [] && em.breaks[0].depth >= em.loopDepth {
      PatchBreaksShape(PatchJump(em, em.breaks[0].offset).(breaks := em.breaks[1..]));
    }
  }

  lemma {:induction false} WhileIsSized(c: Expr, b: Stmt, em: Em)
    requires Bounded(em) && !EmitStmt(While(c, b), em).err
    ensures StmtSized(While(c, b), em)
    decreases b, 4
  {
    hide EmitLoop, LoopCode, ExprConstants, Bounded;
    LoopIsSized(Some(c), None, b, em);
  }

  lemma {:induction false} ForIsSized(s: Stmt, em: Em)
    requires s.For? && Bounded(em) && !EmitStmt(s, em).err
    ensures StmtSized(s, em)
    decreases s, 0
  {
    hide EmitLoop, EmitInit, InitCode, InitConstants, LoopCode, LoopConstants, StmtCode, StmtConstants, Emitted,
      EndScope, PopCode, Deeper, Carried,
      Bounded, Grown, InitOk;
    var inside, sc := BeginScope(em), SceneOf(em);
    var em1 := EmitInit(s.init, inside);
    var em2 := EmitLoop(s.test, s.increment, s.body_, em1);
    BoundedApart(em);
    ScopeBounded(em);
    BoundedApart(inside);
    EndScopeKeepsErr(em2);
    InitEmits(s.init, inside, 0);
    EmittedSize(inside, em1, [], 0, InitCode(s.init, Inner(sc), |em.constants|), InitConstants(s.init));
    InitBounded(s.init, inside);
    LoopIsSized(s.test, s.increment, s.body_, em1);
    ForFromParts(s, sc, |em.code|, |em.constants|, Targets(0, em.loopStart));
    InitShape(s.init, sc);
    ScopeSized(em, em2);
    StmtCarries(s, em);
    KeepsBounded(em, EndScope(em2));
  }

  lemma InitBounded(i: ForInit, em: Em)
    requires Bounded(em)
    ensures Bounded(EmitInit(i, em)) && EmitInit(i, em).loopDepth == em.loopDepth
  {
    hide Carried, Emitted, EmitInit, InitOk, InitCode, Grown, InitConstants;
    InitEmits(i, em, 0);
    InitGrows(i, em);
    GrownIsCarried(em, EmitInit(i, em));
    StaysBounded(em, EmitInit(i, em));
  }

  lemma InitShape(i: ForInit, sc: Scope)
    ensures
      var after := AfterInit(i, Inner(sc));
      && |sc.locals| <= |after.locals| && after.locals[..|sc.locals|] == sc.locals
      && forall j :: |sc.locals| <= j < |after.locals| ==> after.locals[j].depth == sc.depth + 1
  {
  }

  lemma {:induction false} DeclsAreSized(ds: Decls, em: Em)
    requires Bounded(em) && !EmitDecls(ds, em).err
    ensures
      var em2 := EmitDecls(ds, em);
      && Sized(em, em2, |DeclsCode(ds, SceneOf(em), |em.code|, |em.constants|, Targets(0, em.loopStart))|,
           |DeclsConstants(ds)|)
      && em2.locals == AfterDecls(ds, SceneOf(em)).locals
    decreases ds, 1
  {
    hide EmitDecl, Bounded, DeclCode, DeclConstants, DeclOk, AfterDecl;
    match ds
    case End =>
    case More(d, rest) =>
      var sc, pc, k, to := SceneOf(em), |em.code|, |em.constants|, Targets(0, em.loopStart);
      var em1 := EmitDecl(d, em);
      if em1.err {
        DeclsKeepErr(rest, em1);
      }
      DeclIsSized(d, em);
      DeclsFromParts(d, rest, sc, pc, k, to);
      DeclsAreSized(rest, em1);
  }

  lemma {:induction false} DeclIsSized(d: Decl, em: Em)
    requires Bounded(em) && !EmitDecl(d, em).err
    ensures
      var em2 := EmitDecl(d, em);
      && Sized(em, em2, |DeclCode(d, SceneOf(em), |em.code|, |em.constants|, Targets(0, em.loopStart))|,
           |DeclConstants(d)|)
      && em2.locals == AfterDecl(d, SceneOf(em)).locals && SceneOf(em2) == AfterDecl(d, SceneOf(em))
    decreases d, 1
  {
    hide EmitStmt, EmitVar, Bounded, StmtCode, StmtConstants, Emitted, InitialCode, MaybeConstants, DeclareOk, Carried;
    hide Grown;
    match d
    case Declare(x, v) =>
      BoundedApart(em);
      VarEmits(x, v, em, 0);
      EmittedSize(em, EmitVar(x, v, em), [], 0, InitialCode(v, Starting(SceneOf(em), x), |em.constants|),
        MaybeConstants(v));
      DeclCarries(d, em);
      VarBounded(x, v, em);
    case Do(s) => StmtIsSized(s, em);
  }

  lemma VarBounded(x: Name, v: Option<Expr>, em: Em)
    requires Bounded(em)
    ensures Bounded(EmitVar(x, v, em)) && EmitVar(x, v, em).loopDepth == em.loopDepth
  {
    hide Carried, Emitted, EmitVar, DeclareOk, InitialCode, MaybeConstants;
    VarEmits(x, v, em, 0);
    VarGrows(x, v, em);
    GrownIsCarried(em, EmitVar(x, v, em));
    StaysBounded(em, EmitVar(x, v, em));
  }

  // ----- a break that lands too early -----

  ghost predicate NewestLanded(em: Em, em2: Em) {
    em.breaks != [] && Landed(em.breaks[0], em2)
  }

  /** The code emitted from `em` on is not `code`, and will not be. */
  ghost predicate Strays(em: Em, em2: Em, code: Code) {
    exists i: nat :: i < |code| && StraysAt(em, em2, code, i)
  }

  ghost predicate StraysAt(em: Em, em2: Em, code: Code, i: nat)
    requires i < |code|
  {
    Settled(|em.code| + i, em2) && em2.code[|em.code| + i] != code[i]
  }

  ghost predicate Spared(q: nat, em: Em, em2: Em) {
    Settled(q, em) ==> Settled(q, em2) && em2.code[q] == em.code[q]
  }

  /** Nothing settled below `a` or from `lo` to `hi` is touched. */
  ghost predicate SparedIn(em: Em, em2: Em, a: nat, lo: nat, hi: nat) {
    |em.code| <= |em2.code| && forall q: nat :: q < a || lo <= q < hi ==> Spared(q, em, em2)
  }

  lemma KeptSpares(em: Em, em2: Em, a: nat, lo: nat, hi: nat)
    requires Kept(em, em2)
    ensures SparedIn(em, em2, a, lo, hi)
  {
    hide Settled;
  }

  lemma CarriedSpares(em: Em, em2: Em, a: nat, lo: nat, hi: nat)
    requires Carried(em, em2)
    ensures SparedIn(em, em2, a, lo, hi)
  {
    hide Settled, Fate, Apart, Kept;
    KeptSpares(em, em2, a, lo, hi);
  }

  lemma SparedTwice(em: Em, em1: Em, em2: Em, a: nat, lo: nat, hi: nat)
    requires SparedIn(em, em1, a, lo, hi) && SparedIn(em1, em2, a, lo, hi)
    ensures SparedIn(em, em2, a, lo, hi)
  {
    hide Settled;
    forall q: nat | q < a || lo <= q < hi ensures Spared(q, em, em2) {
      assert Spared(q, em, em1) && Spared(q, em1, em2);
    }
  }

  lemma PatchSpares(em: Em, at: nat, a: nat, lo: nat, hi: nat)
    requires a <= at && (at + 2 <= lo || hi <= at)
    ensures SparedIn(em, PatchJump(em, at), a, lo, hi)
  {
    var em2 := PatchJump(em, at);
    forall q: nat | q < a || lo <= q < hi ensures Spared(q, em, em2) {
    }
  }

  /** What a part has done wrong stays wrong in the whole. */
  lemma WrongForGood(em: Em, em1: Em, em2: Em, em3: Em, pre: Code, part: Code, post: Code, hi: nat)
    requires NewestLanded(em, em2) || Strays(em1, em2, part)
    requires Apart(em) && |em1.code| == |em.code| + |pre| && SparedIn(em2, em3, |em.code|, |em1.code|, hi)
    requires |em2.code| <= hi || |em1.code| + |part| <= hi
    ensures NewestLanded(em, em3) || Strays(em, em3, pre + part + post)
  {
    if NewestLanded(em, em2) {
      LandedSpared(em.breaks[0], em2, em3, |em.code|, |em1.code|, hi);
    } else {
      var i: nat :| i < |part| && StraysAt(em1, em2, part, i);
      var code := pre + part + post;
      assert Spared(|em1.code| + i, em2, em3);
      assert code[|pre| + i] == part[i];
      assert StraysAt(em, em3, code, |pre| + i);
    }
  }

  lemma LandedSpared(b: BreakJump, em: Em, em2: Em, a: nat, lo: nat, hi: nat)
    requires Landed(b, em) && SparedIn(em, em2, a, lo, hi) && b.offset + 2 <= a
    ensures Landed(b, em2)
  {
    hide Settled, U16;
    assert Spared(b.offset, em, em2) && Spared(b.offset + 1, em, em2);
    var target: int :| target <= |em.code| && LeadsTo(em.code, b.offset, target);
    assert LeadsTo(em2.code, b.offset, target);
  }

  lemma {:induction false} PatchAllMisses(code: Code, sites: seq<BreakJump>, target: int, q: nat)
    requires q < |code| && forall i :: 0 <= i < |sites| ==> !InHole(q, sites[i])
    ensures PatchAll(code, sites, target)[q] == code[q]
    decreases |sites|
  {
    if sites != [] {
      assert !InHole(q, sites[0]);
      assert forall i :: 0 <= i < |sites[1..]| ==> sites[1..][i] == sites[i + 1];
      PatchAllMisses(Patched(code, sites[0].offset, target - sites[0].offset - 2), sites[1..], target, q);
    }
  }

  /** Patching all the breaks of a loop leaves what the newest one holds. */
  lemma PatchAllNewest(em: Em, own: seq<BreakJump>, brk: int, q: nat)
    requires own != [] && own <= em.breaks && Apart(em) && InHole(q, own[0])
    ensures PatchAll(em.code, own, brk)[q] == U16(brk - own[0].offset - 2)[q - own[0].offset]
  {
    hide U16, Patched;
    var off := own[0].offset;
    var once := Patched(em.code, off, brk - off - 2);
    forall i | 0 <= i < |own[1..]| ensures !InHole(q, own[1..][i]) {
      assert own[1..][i] == em.breaks[i + 1] && own[0] == em.breaks[0];
    }
    PatchedAt(em.code, off, brk - off - 2, q);
    PatchAllMisses(once, own[1..], brk, q);
  }

  /** In the structured code the newest break leads to `brk`. */
  lemma SiteLeads(em: Em, em1: Em, own: seq<BreakJump>, brk: int, code: Code, constants: seq<Num>)
    requires Emitted(em, em1, own, brk, code, constants) && own != [] && Apart(em1)
    ensures
      var i := own[0].offset - |em.code|;
      && 0 <= i && i + 2 <= |code|
      && code[i] == U16(brk - own[0].offset - 2)[0] && code[i + 1] == U16(brk - own[0].offset - 2)[1]
  {
    hide U16, PatchAll, Apart;
    var off := own[0].offset;
    EmittedSize(em, em1, own, brk, code, constants);
    PatchAllNewest(em1, own, brk, off);
    PatchAllNewest(em1, own, brk, off + 1);
    assert (em.code + code)[off] == code[off - |em.code|] && (em.code + code)[off + 1] == code[off + 1 - |em.code|];
  }

  lemma DistinctTargets(m: nat, n: nat)
    requires m <= UINT16_MAX && n <= UINT16_MAX && m != n
    ensures U16(m)[0] != U16(n)[0] || U16(m)[1] != U16(n)[1]
  {
    U16RoundTrips(m);
    U16RoundTrips(n);
  }

  /** A break that should have led to `brk` has landed before it. */
  lemma LandsTooEarly(em: Em, em1: Em, em2: Em, own: seq<BreakJump>, brk: int, code: Code, constants: seq<Num>)
    requires Emitted(em, em1, own, brk, code, constants) && own != [] && Apart(em1) && AllFit(own, brk)
    requires Landed(own[0], em2) && |em2.code| < brk
    ensures Strays(em, em2, code)
  {
    hide U16, PatchAll, Settled;
    var off := own[0].offset;
    SiteLeads(em, em1, own, brk, code, constants);
    var target: int :| target <= |em2.code| && LeadsTo(em2.code, off, target);
    assert Fits(brk - off - 2);
    DistinctTargets(target - off - 2, brk - off - 2);
    var i: nat := off - |em.code|;
    assert StraysAt(em, em2, code, i) || StraysAt(em, em2, code, i + 1);
  }

  /** What becomes of a statement that takes a break of another loop with it. */
  ghost predicate StmtWrong(s: Stmt, em: Em, brk: int) {
    var em2 := EmitStmt(s, em);
    || NewestLanded(em, em2)
    || Strays(em, em2, StmtCode(s, SceneOf(em), |em.code|, |em.constants|, Targets(brk, em.loopStart)))
  }

  ghost predicate StmtUnsafe(s: Stmt, em: Em, brk: int) {
    && Bounded(em) && !EmitStmt(s, em).err && !BreakSafe(s, em.depth, SceneOf(em).loopDepth, Newest(em))
    && StmtOk(s, SceneOf(em), |em.code|, |em.constants|, Targets(brk, em.loopStart))
    && (em.loopStart >= 0 ==> |EmitStmt(s, em).code| < brk)
  }

  lemma {:induction false} StmtGoesWrong(s: Stmt, em: Em, brk: nat)
    requires StmtUnsafe(s, em, brk)
    ensures StmtWrong(s, em, brk)
    decreases s, 2
  {
    hide EmitStmt, StmtCode, StmtOk, Bounded, WellPlaced, Landed, Strays;
    match s
    case Block(ds) => BlockGoesWrong(ds, em, brk);
    case If(_, _, _) => IfGoesWrong(s, em, brk);
    case While(c, b) => WhileGoesWrong(c, b, em, brk);
    case For(_, _, _, _) => ForGoesWrong(s, em, brk);
    case _ =>
  }

  ghost predicate DeclsUnsafe(ds: Decls, em: Em, brk: int) {
    && Bounded(em) && !EmitDecls(ds, em).err && !AllBreakSafe(ds, em.depth, SceneOf(em).loopDepth, Newest(em))
    && DeclsOk(ds, SceneOf(em), |em.code|, |em.constants|, Targets(brk, em.loopStart))
    && (em.loopStart >= 0 ==> |EmitDecls(ds, em).code| < brk)
  }

  ghost predicate DeclsWrong(ds: Decls, em: Em, brk: int) {
    var em2 := EmitDecls(ds, em);
    || NewestLanded(em, em2)
    || Strays(em, em2, DeclsCode(ds, SceneOf(em), |em.code|, |em.constants|, Targets(brk, em.loopStart)))
  }

  lemma {:induction false} BlockGoesWrong(ds: Decls, em: Em, brk: nat)
    requires StmtUnsafe(Block(ds), em, brk)
    ensures StmtWrong(Block(ds), em, brk)
    decreases ds, 3
  {
    hide EmitDecls, DeclsCode, DeclsOk, Bounded, Carried, PopCode, Deeper, EndScope, AfterDecls, Landed, Strays;
    hide AllBreakSafe, SparedIn;
    var inside := BeginScope(em);
    var em2 := EmitDecls(ds, inside);
    BoundedApart(em);
    ScopeBounded(em);
    EndScopeKeepsErr(em2);
    DeclsAreSized(ds, inside);
    AfterDeclsShape(ds, Inner(SceneOf(em)));
    ScopeSized(em, em2);
    DeclsGoWrong(ds, inside, brk);
    EndScopeSpares(em2, |em.code|, |em.code|);
    var code := DeclsCode(ds, Inner(SceneOf(em)), |em.code|, |em.constants|, Targets(brk, em.loopStart));
    var leave := LeaveCode(AfterDecls(ds, Inner(SceneOf(em))), SceneOf(em));
    WrongForGood(em, inside, em2, EndScope(em2), [], code, leave, |em2.code|);
    assert [] + code + leave == code + leave;
  }

  lemma EndScopeSpares(em: Em, a: nat, lo: nat)
    requires Bounded(em)
    ensures SparedIn(em, EndScope(em), a, lo, |em.code|)
  {
    hide PopCode, Deeper, Carried, Bounded;
    BoundedApart(em);
    GrownIsCarried(em, EndScope(em));
    CarriedSpares(em, EndScope(em), a, lo, |em.code|);
  }

  lemma {:induction false} DeclsGoWrong(ds: Decls, em: Em, brk: nat)
    requires DeclsUnsafe(ds, em, brk)
    ensures DeclsWrong(ds, em, brk)
    decreases ds, 2
  {
    hide EmitDecl, DeclCode, DeclOk, DeclConstants, AfterDecl, Bounded, Carried, Landed, Strays, BreakSafe, HasBreak;
    match ds
    case End =>
    case More(d, rest) =>
      var em1 := EmitDecl(d, em);
      if em1.err {
        DeclsKeepErr(rest, em1);
      }
      DeclIsSized(d, em);
      BoundedApart(em1);
      DeclsCarry(rest, em1);
      CarriedApart(em1, EmitDecls(rest, em1));
      var to := Targets(brk, em.loopStart);
      DeclsFromParts(d, rest, SceneOf(em), |em.code|, |em.constants|, to);
      DeclSize(d, SceneOf(em), |em.code|, |em.constants|, Targets(0, em.loopStart), to);
      if d.Do? && !BreakSafe(d.s, em.depth, SceneOf(em).loopDepth, Newest(em)) {
        FirstGoesWrong(d, rest, em, brk);
      } else {
        OthersGoWrong(d, rest, em, brk);
      }
  }

  lemma {:induction false} FirstGoesWrong(d: Decl, rest: Decls, em: Em, brk: nat)
    requires DeclsUnsafe(More(d, rest), em, brk) && d.Do?
    requires !BreakSafe(d.s, em.depth, SceneOf(em).loopDepth, Newest(em))
    ensures DeclsWrong(More(d, rest), em, brk)
    decreases d, 2
  {
    hide EmitStmt, DeclConstants, AfterDecl, Bounded, Carried, Landed, Strays, BreakSafe, HasBreak, StmtCode, StmtOk,
      SparedIn, AllBreakSafe,
      SceneOf, Newest, Apart, EmitVar, InitialCode, DeclareOk;
    var em1 := EmitDecl(d, em);
    var em2 := EmitDecls(rest, em1);
    if em1.err {
      DeclsKeepErr(rest, em1);
    }
    BoundedApart(em);
    DeclCarries(d, em);
    CarriedApart(em, em1);
    DeclsCarry(rest, em1);
    CarriedApart(em1, em2);
    var sc, pc, k, to := SceneOf(em), |em.code|, |em.constants|, Targets(brk, em.loopStart);
    DeclsFromParts(d, rest, sc, pc, k, to);
    StmtGoesWrong(d.s, em, brk);
    CarriedSpares(em1, em2, |em.code|, |em.code|, |em1.code|);
    var dc := DeclCode(d, sc, pc, k, to);
    var rc := DeclsCode(rest, AfterDecl(d, sc), pc + |dc|, k + |DeclConstants(d)|, to);
    WrongForGood(em, em, em1, em2, [], dc, rc, |em1.code|);
    assert [] + dc + rc == dc + rc;
  }

  lemma {:induction false} OthersGoWrong(d: Decl, rest: Decls, em: Em, brk: nat)
    requires DeclsUnsafe(More(d, rest), em, brk)
    requires (d.Do? ==> BreakSafe(d.s, em.depth, SceneOf(em).loopDepth, Newest(em)))
    ensures DeclsWrong(More(d, rest), em, brk)
    decreases rest, 4
  {
    hide EmitDecl, DeclCode, DeclOk, DeclConstants, AfterDecl, Bounded, Carried, Landed, Strays, BreakSafe, HasBreak,
      SparedIn, Emitted, AllFit,
      SceneOf, Newest, Apart, WellPlaced;
    var em1 := EmitDecl(d, em);
    var em2 := EmitDecls(rest, em1);
    if em1.err {
      DeclsKeepErr(rest, em1);
    }
    BoundedApart(em);
    DeclIsSized(d, em);
    BoundedApart(em1);
    var sc, pc, k, to := SceneOf(em), |em.code|, |em.constants|, Targets(brk, em.loopStart);
    DeclsFromParts(d, rest, sc, pc, k, to);
    DeclSize(d, sc, pc, k, Targets(0, em.loopStart), to);
    var own := DeclEmits(d, em, brk);
    AfterDeclWellPlaced(d, em, em1, own, brk);
    DeclsGoWrong(rest, em1, brk);
    var dc := DeclCode(d, sc, pc, k, to);
    var rc := DeclsCode(rest, AfterDecl(d, sc), pc + |dc|, k + |DeclConstants(d)|, to);
    NothingSpared(em2, |em.code|, |em1.code|, |em2.code|);
    NothingSpared(em2, |em.code|, |em.code|, |em2.code|);
    OwnOrOuter(em, em1, em2, own, brk, dc, DeclConstants(d));
    if Strays(em, em2, dc) {
      WrongForGood(em, em, em2, em2, [], dc, rc, |em2.code|);
      assert [] + dc + rc == dc + rc;
    } else {
      WrongForGood(em, em1, em2, em2, dc, rc, [], |em2.code|);
      assert dc + rc + [] == dc + rc;
    }
  }

  lemma NothingSpared(em: Em, a: nat, lo: nat, hi: nat)
    ensures SparedIn(em, em, a, lo, hi)
  {
    hide Settled;
  }

  /** When the newest break lands, it is one of the part's own, which lands too early, or one that was pending
      before. */
  lemma OwnOrOuter(em: Em, em1: Em, em2: Em, own: seq<BreakJump>, brk: nat, code: Code, constants: seq<Num>)
    requires Emitted(em, em1, own, brk, code, constants) && Apart(em1)
    requires AllFit(own, brk) && (own != [] ==> |em2.code| < brk)
    ensures NewestLanded(em1, em2) ==> NewestLanded(em, em2) || Strays(em, em2, code)
  {
    hide PatchAll, Landed, Apart, AllFit, Strays;
    if NewestLanded(em1, em2) {
      if own != [] {
        assert em1.breaks[0] == own[0];
        LandsTooEarly(em, em1, em2, own, brk, code, constants);
      } else {
        assert em1.breaks == em.breaks;
      }
    }
  }

  // ----- if -----

  /** The states an `if` goes through. */
  ghost predicate IfStates(s: Stmt, em: Em, em1: Em, em2: Em, em3: Em, em4: Em)
    requires s.If?
  {
    && em1 == ThenStart(s.cond, em) && em2 == EmitStmt(s.thenBranch, em1)
    && em3 == ElseStart(s.cond, em, em2) && em4 == EmitElse(s.elseBranch, em3)
    && EmitStmt(s, em) == PatchJump(em4, |em2.code| + 1)
    && !em2.err && !em4.err && Bounded(em1) && Bounded(em2) && Bounded(em3) && Apart(em)
    && Carried(em3, em4)
    && SceneOf(em1) == SceneOf(em) && em1.breaks == em.breaks
    && em1.loopStart == em.loopStart && em1.loopDepth == em.loopDepth
    && em3.(code := em2.code, err := em2.err) == em2 && |em3.code| == |em2.code| + 4
    && em2.locals == em.locals && em2.depth == em.depth
    && em2.loopStart == em.loopStart && em2.loopDepth == em.loopDepth
  }

  ghost predicate IfSizes(s: Stmt, em: Em, em1: Em, em2: Em, em3: Em, brk: int)
    requires s.If?
  {
    var b := BranchesOf(s, em, brk);
    var sc, to := SceneOf(em), Targets(brk, em.loopStart);
    && |em1.code| == |em.code| + |b.cc| + 4 && |em2.code| == |em1.code| + |b.tc|
    && b.tc == StmtCode(s.thenBranch, sc, |em1.code|, |em1.constants|, to)
    && (b.thenOk <==> StmtOk(s.thenBranch, sc, |em1.code|, |em1.constants|, to))
    && b.ec == ElseCode(s.elseBranch, sc, |em3.code|, |em3.constants|, to)
    && (b.elseOk <==> ElseOk(s.elseBranch, sc, |em3.code|, |em3.constants|, to))
  }

  lemma {:induction false} IfGoes(s: Stmt, em: Em, brk: int) returns (em1: Em, em2: Em, em3: Em, em4: Em)
    requires s.If? && Bounded(em) && !EmitStmt(s, em).err
    ensures IfStates(s, em, em1, em2, em3, em4) && IfSizes(s, em, em1, em2, em3, brk)
  {
    hide EmitStmt, EmitElse, ThenStart, ElseStart, Carried, PatchJump, EmitExpr, Grown, Bounded, StmtCode,
      StmtConstants, ExprCode, ExprConstants,
      ExprOk, StmtOk, JumpCode, ElseCode, ElseOk, ElseConstants, Emitted, SceneOf, Newest, WellPlaced, Apart;
    em1 := ThenStart(s.cond, em);
    em2 := EmitStmt(s.thenBranch, em1);
    em3 := ElseStart(s.cond, em, em2);
    em4 := EmitElse(s.elseBranch, em3);
    BoundedApart(em);
    IfIsEmitted(s, em);
    PatchKeepsErr(em4, |em2.code| + 1);
    if em2.err {
      ElseKeepsErr(s, em, em2);
    }
    ThenStarts(s, em, 0);
    SceneLocals(em);
    SceneLocals(em1);
    ThenStartBounded(s.cond, em);
    StmtIsSized(s.thenBranch, em1);
    ElseStartShape(s.cond, em, em2);
    BoundedApart(em3);
    ElseCarries(s.elseBranch, em3);
    var sc, to := SceneOf(em), Targets(brk, em.loopStart);
    StmtSize(s.thenBranch, sc, |em1.code|, |em1.code|, |em1.constants|, Targets(0, em.loopStart), to);
  }

  /** After the `then` branch, an `if` touches only its own jumps. */
  lemma IfTailSpares(s: Stmt, em: Em, em1: Em, em2: Em, em3: Em, em4: Em, hi: nat)
    requires s.If? && IfStates(s, em, em1, em2, em3, em4) && |em.code| + 4 <= |em1.code| <= |em2.code|
    ensures SparedIn(em2, EmitStmt(s, em), |em.code|, |em1.code|, |em2.code|)
    ensures SparedIn(em4, EmitStmt(s, em), |em.code|, |em1.code|, |em2.code|)
    ensures SparedIn(em4, EmitStmt(s, em), |em.code|, |em3.code|, hi)
  {
    hide EmitStmt, EmitElse, EmitExpr, SparedIn, Carried, SceneOf, Patched, U16;
    var a, lo, h := |em.code|, |em1.code|, |em2.code|;
    var at := |EmitExpr(s.cond, em).code| + 1;
    ThenStartGrows(s.cond, em);
    var jumped := EmitJump(em2, JUMP);
    GrownIsCarried(em2, jumped);
    CarriedSpares(em2, jumped, a, lo, h);
    CarriedApart(em2, jumped);
    PatchSpares(jumped, at, a, lo, h);
    var patched := PatchJump(jumped, at);
    SameSizeApart(jumped, patched);
    GrownIsCarried(patched, em3);
    CarriedSpares(patched, em3, a, lo, h);
    CarriedSpares(em3, em4, a, lo, h);
    PatchSpares(em4, h + 1, a, lo, h);
    PatchSpares(em4, h + 1, a, |em3.code|, hi);
    SparedTwice(em2, jumped, patched, a, lo, h);
    SparedTwice(em2, patched, em3, a, lo, h);
    SparedTwice(em2, em3, em4, a, lo, h);
    SparedTwice(em2, em4, EmitStmt(s, em), a, lo, h);
  }

  lemma SameSizeApart(em: Em, em': Em)
    requires Apart(em) && |em'.code| == |em.code| && em'.breaks == em.breaks
    ensures Apart(em')
  {
  }

  /** The code of an `if` around its `then` branch and around its `else` branch. */
  lemma IfAround(cc: Code, skip: Code, tc: Code, jump: Code, ec: Code)
    ensures
      var whole := cc + (skip + ([POP] + (tc + (jump + ([POP] + ec)))));
      && whole == (cc + skip + [POP]) + tc + (jump + ([POP] + ec))
      && whole == (cc + skip + [POP] + tc + jump + [POP]) + ec + []
  {
  }

  lemma {:induction false} IfGoesWrong(s: Stmt, em: Em, brk: nat)
    requires s.If? && StmtUnsafe(s, em, brk)
    ensures StmtWrong(s, em, brk)
    decreases s, 1
  {
    hide EmitStmt, EmitElse, Bounded, StmtCode, StmtOk, BreakSafe, HasBreak, Carried, Landed, Strays, SparedIn, SceneOf,
      Newest, BranchesOf,
      JumpCode, ThenStart, ElseStart, PatchJump, Apart, ExprCode, ExprConstants, StmtConstants, LayoutIf;
    var em1, em2, em3, em4 := IfGoes(s, em, brk);
    var em5 := EmitStmt(s, em);
    var b := BranchesOf(s, em, brk);
    IfFromBranches(s, em, brk);
    var skip, jump := JumpCode(JUMP_IF_FALSE, |b.tc| + 4), JumpCode(JUMP, |b.ec| + 1);
    JumpSize(JUMP_IF_FALSE, |b.tc| + 4);
    JumpSize(JUMP, |b.ec| + 1);
    IfAround(b.cc, skip, b.tc, jump, b.ec);
    IfTailSpares(s, em, em1, em2, em3, em4, |em4.code|);
    PatchShape(em4, |em2.code| + 1);
    CarriedApart(em3, em4);
    SameScene(em, em1);
    IfSafety(s, em);
    if !BreakSafe(s.thenBranch, em.depth, SceneOf(em).loopDepth, Newest(em)) {
      StmtGoesWrong(s.thenBranch, em1, brk);
      WrongForGood(em, em1, em2, em5, b.cc + skip + [POP], b.tc, jump + ([POP] + b.ec), |em2.code|);
    } else {
      ElseGoesWrong(s, em, em1, em2, em3, em4, brk);
      if Strays(em1, em4, b.tc) {
        WrongForGood(em, em1, em4, em5, b.cc + skip + [POP], b.tc, jump + ([POP] + b.ec), |em2.code|);
      } else {
        WrongForGood(em, em3, em4, em5, b.cc + skip + [POP] + b.tc + jump + [POP], b.ec, [], |em4.code|);
      }
    }
  }

  lemma SameScene(em: Em, em': Em)
    requires SceneOf(em) == SceneOf(em') && em.breaks == em'.breaks
    ensures em.depth == em'.depth && em.locals == em'.locals && Newest(em) == Newest(em')
  {
  }

  lemma IfSafety(s: Stmt, em: Em)
    requires s.If?
    ensures
      var d, p := SceneOf(em).loopDepth, Newest(em);
      BreakSafe(s, em.depth, d, p) <==>
        BreakSafe(s.thenBranch, em.depth, d, p)
        && (s.elseBranch.Some? ==> BreakSafe(s.elseBranch.value, em.depth, d, if HasBreak(s.thenBranch) then d else p))
  {
    hide HasBreak, SceneOf, Newest;
  }

  /** The `else` branch takes a break with it: one of the `then` branch, or one that was pending before. */
  lemma {:induction false} ElseGoesWrong(s: Stmt, em: Em, em1: Em, em2: Em, em3: Em, em4: Em, brk: nat)
    requires s.If? && StmtUnsafe(s, em, brk) && IfStates(s, em, em1, em2, em3, em4)
    requires IfSizes(s, em, em1, em2, em3, brk)
    requires BreakSafe(s.thenBranch, em.depth, SceneOf(em).loopDepth, Newest(em))
    requires |em4.code| == |EmitStmt(s, em).code|
    ensures
      var b := BranchesOf(s, em, brk);
      NewestLanded(em, em4) || Strays(em1, em4, b.tc) || Strays(em3, em4, b.ec)
    decreases s, 0
  {
    hide EmitStmt, Bounded, StmtCode, StmtOk, BreakSafe, HasBreak, Carried, Landed, Strays, SceneOf, Newest, BranchesOf,
      ThenStart, ElseStart, PatchJump, Apart, WellPlaced, Emitted, AllFit, StmtConstants;
    var b := BranchesOf(s, em, brk);
    IfFromBranches(s, em, brk);
    IfSafety(s, em);
    SameScene(em, em1);
    BoundedApart(em1);
    BoundedApart(em2);
    BoundedApart(em3);
    var own := StmtEmits(s.thenBranch, em1, brk);
    BetweenBranches(em, em1, em2, em3, own, brk, b.tc, StmtConstants(s.thenBranch), b.thenOk, HasBreak(s.thenBranch));
    SceneLocals(em3);
    StmtGoesWrong(s.elseBranch.value, em3, brk);
    OwnOrOuter(em1, em2, em4, own, brk, b.tc, StmtConstants(s.thenBranch));
  }

  // ----- loops -----

  /** After its body, a loop touches only its own jumps and the breaks. */
  lemma LoopTailSpares(test: Option<Expr>, inc: Option<Expr>, b: Stmt, em: Em, exit: nat, lo: nat)
    requires
      var em3 := EmitStmt(b, BodyStart(test, inc, em));
      && !EmitLoop(test, inc, b, em).err && Apart(em3) && exit == |EmitTest(test, EnterLoop(em)).code|
      && exit <= lo && (test.Some? ==> |em.code| + 4 <= exit)
    ensures SparedIn(EmitStmt(b, BodyStart(test, inc, em)), EmitLoop(test, inc, b, em), |em.code|, lo,
      |EmitStmt(b, BodyStart(test, inc, em)).code|)
  {
    hide EmitStmt, EmitLoop, BodyStart, PatchBreaks, EmitTest, SparedIn, Carried, Apart, Patched, U16, Kept, Landed;
    var em3 := EmitStmt(b, BodyStart(test, inc, em));
    var a, hi := |em.code|, |em3.code|;
    var back := EmitBack(em3, em3.loopStart);
    LoopIsEmitted(test, inc, b, em);
    GrownIsCarried(em3, back);
    CarriedSpares(em3, back, a, lo, hi);
    CarriedApart(em3, back);
    var open := LoopEndOpen(test, exit, em3);
    if test.Some? {
      var patched := PatchJump(back, exit - 3);
      PatchSpares(back, exit - 3, a, lo, hi);
      SameSizeApart(back, patched);
      GrownIsCarried(patched, open);
      CarriedSpares(patched, open, a, lo, hi);
      CarriedApart(patched, open);
      SparedTwice(em3, back, patched, a, lo, hi);
      SparedTwice(em3, patched, open, a, lo, hi);
    }
    var m := PatchBreaksLands(open);
    KeptSpares(open, PatchBreaks(open), a, lo, hi);
    SparedTwice(em3, open, PatchBreaks(open), a, lo, hi);
    SameSpares(em3, PatchBreaks(open), EmitLoop(test, inc, b, em), a, lo, hi);
  }

  lemma SameSpares(em: Em, em2: Em, em2': Em, a: nat, lo: nat, hi: nat)
    requires SparedIn(em, em2, a, lo, hi) && em2'.code == em2.code && em2'.breaks == em2.breaks
    ensures SparedIn(em, em2', a, lo, hi)
  {
    forall q: nat | q < a || lo <= q < hi ensures Spared(q, em, em2') {
      assert Spared(q, em, em2);
    }
  }

  /** A loop takes a break with it when one is pending at its depth, or when its body goes wrong. */
  lemma {:induction false} LoopGoesWrong(test: Option<Expr>, inc: Option<Expr>, b: Stmt, em: Em)
    requires Bounded(em) && !EmitLoop(test, inc, b, em).err
    requires LoopOk(test, inc, b, SceneOf(em), |em.code|, |em.constants|)
    requires Newest(em) >= em.depth || !BreakSafe(b, em.depth, em.depth, Newest(em))
    ensures
      var em2 := EmitLoop(test, inc, b, em);
      NewestLanded(em, em2) || Strays(em, em2, LoopCode(test, inc, b, SceneOf(em), |em.code|, |em.constants|))
    decreases b, 5
  {
    hide EmitStmt, EmitLoop, EmitTest, StmtCode, StmtOk, StmtConstants, LoopCode, LoopOk, Bounded, MaybeConstants,
      Emitted, LoopLayout, Landed,
      Strays, SparedIn, BreakSafe, BodyStart, TestPart, IncPart, BackPart, Carried, Apart, SceneOf, WellPlaced;
    BoundedApart(em);
    LoopCarries(test, inc, b, em);
    if Newest(em) < em.depth {
      var sc, pc, k := SceneOf(em), |em.code|, |em.constants|;
      var lay := LoopLayout(test, inc, b, sc, k);
      var em2 := BodyStart(test, inc, em);
      var em3 := EmitStmt(b, em2);
      if em3.err {
        LoopFails(test, inc, b, em);
      }
      BodyStarts(test, inc, b, em, 0);
      BodyStartBounded(test, inc, em);
      LoopFromParts(test, inc, b, sc, pc, k);
      StmtIsSized(b, em2);
      BoundedApart(em3);
      var to := LoopTargets(lay, test, inc, pc);
      StmtSize(b, InLoop(sc), BodyPc(lay, pc), BodyPc(lay, pc), lay.kBody, Targets(0, em2.loopStart), to);
      SceneLocals(em);
      StmtGoesWrong(b, em2, EndPc(lay, test, pc));
      var bc := StmtCode(b, InLoop(sc), BodyPc(lay, pc), lay.kBody, to);
      LoopTailSpares(test, inc, b, em, |EmitTest(test, EnterLoop(em)).code|, |em2.code|);
      TestPartSize(lay, test);
      var pre := TestPart(lay, test) + IncPart(lay, inc);
      WrongForGood(em, em2, em3, EmitLoop(test, inc, b, em), pre, bc, BackPart(lay, test, inc, pc), |em3.code|);
      assert pre + bc + BackPart(lay, test, inc, pc)
          == TestPart(lay, test) + (IncPart(lay, inc) + (bc + BackPart(lay, test, inc, pc)));
    }
  }

  lemma TestPartSize(lay: Layout, test: Option<Expr>)
    requires test.Some? ==> lay.testSize == |lay.testCode| + 4
    requires test.None? ==> lay.testSize == 0
    ensures |TestPart(lay, test)| == lay.testSize
  {
  }

  lemma {:induction false} WhileGoesWrong(c: Expr, b: Stmt, em: Em, brk: nat)
    requires StmtUnsafe(While(c, b), em, brk)
    ensures StmtWrong(While(c, b), em, brk)
    decreases b, 6
  {
    hide EmitLoop, LoopCode, LoopOk, Bounded, Landed, Strays, Newest;
    LoopGoesWrong(Some(c), None, b, em);
  }

  lemma {:induction false} ForGoesWrong(s: Stmt, em: Em, brk: nat)
    requires s.For? && StmtUnsafe(s, em, brk)
    ensures StmtWrong(s, em, brk)
    decreases s, 0
  {
    hide EmitLoop, EmitInit, InitCode, InitConstants, LoopCode, LoopOk, LoopConstants, StmtCode, StmtOk, StmtConstants,
      Emitted, EndScope, PopCode,
      Deeper, Carried, Bounded, Grown, InitOk, Landed, Strays, SparedIn, Apart;
    var inside, sc := BeginScope(em), SceneOf(em);
    var em1 := EmitInit(s.init, inside);
    var em2 := EmitLoop(s.test, s.increment, s.body_, em1);
    BoundedApart(em);
    ScopeBounded(em);
    BoundedApart(inside);
    EndScopeKeepsErr(em2);
    InitEmits(s.init, inside, 0);
    var ic := InitCode(s.init, Inner(sc), |em.constants|);
    EmittedSize(inside, em1, [], 0, ic, InitConstants(s.init));
    InitBounded(s.init, inside);
    BoundedApart(em1);
    LoopIsSized(s.test, s.increment, s.body_, em1);
    ForFromParts(s, sc, |em.code|, |em.constants|, Targets(brk, em.loopStart));
    InitShape(s.init, sc);
    ScopeSized(em, em2);
    LoopGoesWrong(s.test, s.increment, s.body_, em1);
    EndScopeSpares(em2, |em.code|, |em1.code|);
    var lc := LoopCode(s.test, s.increment, s.body_, AfterInit(s.init, Inner(sc)), |em1.code|, |em1.constants|);
    var leave := LeaveCode(AfterInit(s.init, Inner(sc)), sc);
    WrongForGood(em, em1, em2, EndScope(em2), ic, lc, leave, |em2.code|);
    assert ic + lc + leave == ic + (lc + leave);
  }

  // ----- whole scripts -----

  /** A script that compiles is emitted as its structured code exactly when no `while` is met while a break of an
      enclosing loop at its depth is pending. */
  lemma ScriptEmitsIff(ds: Decls)
    requires !EmitScript(ds).err
    ensures ScriptSafe(ds) <==> ScriptOk(ds) && Chunk(EmitScript(ds).code, EmitScript(ds).constants) == ScriptCode(ds)
  {
    hide EmitDecls, DeclsCode, DeclsOk, DeclsConstants, AllBreakSafe, Landed, Settled;
    if ScriptSafe(ds) {
      ScriptEmits(ds);
    } else if ScriptOk(ds) {
      var em2 := EmitDecls(ds, FRESH);
      DeclsGoWrong(ds, FRESH, 0);
      var code := DeclsCode(ds, TOP, 0, 0, NOWHERE);
      var i: nat :| i < |code| && StraysAt(FRESH, em2, code, i);
      DeclsAreSized(ds, FRESH);
      assert (em2.code + [NIL, RETURN])[i] == em2.code[i] && (code + [NIL, RETURN])[i] == code[i];
    }
  }
}
