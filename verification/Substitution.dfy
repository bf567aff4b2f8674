/** Global substitution: a plan of matched and copied pieces of the subject, then their rendering. */
module Substitution {
  import opened Options
  import opened PatternSpec
  import opened PatternMatcher
  import opened PatternUse

  datatype SubstError = PatternError(error: Error) | InvalidUse | InvalidCapture | UnfinishedCapture

  datatype TextResult = Ok(text: Text) | Err(error: SubstError)

  function Join(a: TextResult, b: TextResult): TextResult {
    if a.Err? then a else if b.Err? then b else Ok(a.text + b.text)
  }

  // ----- the replacement template -----

  function Decimal(n: nat): Text {
    if n < 10 then [Ch('0') + n] else Decimal(n / 10) + [Ch('0') + n % 10]
  }

  /** Capture `i` of the match `src[from..to]`; without captures, capture 0 is the whole match. */
  function CaptureText(src: Text, from: nat, to: nat, caps: seq<Capture>, i: nat): TextResult {
    if i >= |caps| then
      if i == 0 && from <= to <= |src| then Ok(src[from..to]) else Err(InvalidCapture)
    else if caps[i].len == CAP_UNFINISHED then Err(UnfinishedCapture)
    else if caps[i].len == CAP_POSITION then Ok(Decimal(caps[i].init))
    else if 0 <= caps[i].len && caps[i].init + caps[i].len <= |src| then
      Ok(src[caps[i].init..caps[i].init + caps[i].len])
    else Ok([])
  }

  /** The text that the template `repl[i..]` stands for. */
  function Expand(src: Text, repl: Text, i: nat, from: nat, to: nat, caps: seq<Capture>): TextResult
    requires from <= to <= |src|
    decreases |repl| - i
  {
    if i >= |repl| then Ok([])
    else if repl[i] != Ch('%') then Join(Ok([repl[i]]), Expand(src, repl, i + 1, from, to, caps))
    else
      var c := At(repl, i + 1);
      if !IsDigit(c) then
        if c == Ch('%') then Join(Ok([c]), Expand(src, repl, i + 2, from, to, caps)) else Err(InvalidUse)
      else if c == Ch('0') then Join(Ok(src[from..to]), Expand(src, repl, i + 2, from, to, caps))
      else Join(CaptureText(src, from, to, caps, c - Ch('1')), Expand(src, repl, i + 2, from, to, caps))
  }

  lemma JoinAssociative(a: TextResult, b: TextResult, c: TextResult)
    ensures Join(Join(a, b), c) == Join(a, Join(b, c))
  {
    if a.Ok? && b.Ok? && c.Ok? {
      assert a.text + b.text + c.text == a.text + (b.text + c.text);
    }
  }

  lemma JoinEmpty(a: TextResult)
    ensures Join(a, Ok([])) == a && Join(Ok([]), a) == a
  {
    if a.Ok? {
      assert a.text + [] == a.text;
    }
  }

  method AddExpansion(
    src: Text, repl: Text, from: nat, to: nat, caps: seq<Capture>, output: Text
  ) returns (r: TextResult)
    requires from <= to <= |src| && CapturesOk(caps, to)
    ensures r == Join(Ok(output), Expand(src, repl, 0, from, to, caps))
  {
    hide Join, CaptureText;
    var b: Text := output;
    var i: nat := 0;
    ghost var goal := Join(Ok(output), Expand(src, repl, 0, from, to, caps));
    while i < |repl|
      invariant Join(Ok(b), Expand(src, repl, i, from, to, caps)) == goal
      decreases |repl| - i
    {
      ghost var rest1, rest2 := Expand(src, repl, i + 1, from, to, caps), Expand(src, repl, i + 2, from, to, caps);
      if repl[i] != Ch('%') {
        Appends(b, [repl[i]], rest1);
        b := b + [repl[i]];
      } else {
        i := i + 1;
        var c := CharAt(repl, i);
        if !IsDigit(c) {
          if c != Ch('%') {
            JoinErr(b, InvalidUse);
            return Err(InvalidUse);
          }
          Appends(b, [c], rest2);
          b := b + [c];
        } else if c == Ch('0') {
          Appends(b, src[from..to], rest2);
          b := b + src[from..to];
        } else {
          var cap := GetCapture(src, from, to, caps, c - Ch('1'));
          if cap.Err? {
            JoinErr2(b, cap.error, rest2);
            return cap;
          }
          Appends(b, cap.text, rest2);
          b := b + cap.text;
        }
      }
      i := i + 1;
    }
    JoinEmpty(Ok(b));
    return Ok(b);
  }

  method GetCapture(src: Text, from: nat, to: nat, caps: seq<Capture>, i: nat) returns (r: TextResult)
    requires from <= to <= |src| && CapturesOk(caps, to)
    ensures r == CaptureText(src, from, to, caps, i)
  {
    if i >= |caps| {
      return if i == 0 then Ok(src[from..to]) else Err(InvalidCapture);
    }
    var l := caps[i].len;
    if l == CAP_UNFINISHED {
      return Err(UnfinishedCapture);
    }
    if l == CAP_POSITION {
      return Ok(Decimal(caps[i].init));
    }
    return Ok(src[caps[i].init..caps[i].init + l]);
  }

  /** The text from `a` to `b` of the subject, neither of them beyond `to`. */
  predicate IsPart(text: Text, src: Text, a: nat, b: nat, to: nat) {
    a <= b <= to <= |src| && text == src[a..b]
  }

  /** A closed capture's text is what it spans of the subject, up to the end of the match; capture 0 of a pattern
      without captures is the whole match; a position capture is a number; it fails exactly when there is no such
      capture or it is still open. */
  lemma CaptureTextMeans(src: Text, from: nat, to: nat, caps: seq<Capture>, i: nat)
    requires from <= to <= |src| && CapturesOk(caps, to)
    ensures var r := CaptureText(src, from, to, caps, i);
            r.Err? <==> (i > 0 && i >= |caps|) || (i < |caps| && caps[i].len == CAP_UNFINISHED)
    ensures caps == [] ==> CaptureText(src, from, to, caps, 0) == Ok(src[from..to])
    ensures i < |caps| && caps[i].len >= 0 ==>
              && caps[i].init + caps[i].len <= to
              && CaptureText(src, from, to, caps, i) == Ok(src[caps[i].init..caps[i].init + caps[i].len])
    ensures
      i < |caps| && caps[i].len == CAP_POSITION ==> CaptureText(src, from, to, caps, i) == Ok(Decimal(caps[i].init))
    ensures var r := CaptureText(src, from, to, caps, i);
            r.Ok? && (i < |caps| ==> caps[i].len != CAP_POSITION) ==> exists a, b :: IsPart(r.text, src, a, b, to)
  {
    var r := CaptureText(src, from, to, caps, i);
    if r.Ok? {
      if i >= |caps| {
        assert IsPart(r.text, src, from, to, to);
      } else if caps[i].len != CAP_POSITION {
        assert IsPart(r.text, src, caps[i].init, caps[i].init + caps[i].len, to);
      }
    }
  }

  lemma Appends(b: Text, piece: Text, rest: TextResult)
    ensures Join(Ok(b), Join(Ok(piece), rest)) == Join(Ok(b + piece), rest)
  {
    JoinAssociative(Ok(b), Ok(piece), rest);
  }

  lemma JoinErr(b: Text, e: SubstError)
    ensures Join(Ok(b), Err(e)) == Err(e)
  {
  }

  lemma JoinErr2(b: Text, e: SubstError, rest: TextResult)
    ensures Join(Ok(b), Join(Err(e), rest)) == Err(e)
  {
  }

  // ----- the plan -----

  /** A piece of the subject: a match to be replaced, a character copied, or the untouched remainder. */
  datatype Piece = Matched(from: nat, to: nat, captures: seq<Capture>) | Copied(at: nat) | Rest(at: nat)

  datatype Plan = Plan(pieces: seq<Piece>, failure: Option<Error>)

  function Then(first: seq<Piece>, rest: Plan): Plan {
    Plan(first + rest.pieces, rest.failure)
  }

  /** How the loop walks the subject from `pos` on, after `n` matches, up to `max` of them. */
  function PlanFrom(src: Text, pat: Text, anchor: bool, pos: nat, n: nat, max: nat): Plan
    requires pos <= |src|
    decreases |src| - pos
  {
    if n >= max then Plan([Rest(pos)], None)
    else
      match FirstAt(src, pat, pos)
      case Fails(e) => Plan([], Some(e))
      case Nothing =>
        if pos == |src| then Plan([Rest(pos)], None)
        else if anchor then Plan([Copied(pos), Rest(pos + 1)], None)
        else Then([Copied(pos)], PlanFrom(src, pat, anchor, pos + 1, n, max))
      case Found(e, caps) =>
        if pos < e <= |src| then
          if anchor then Plan([Matched(pos, e, caps), Rest(e)], None)
          else Then([Matched(pos, e, caps)], PlanFrom(src, pat, anchor, e, n + 1, max))
        else if pos == |src| then Plan([Matched(pos, pos, caps), Rest(pos)], None)
        else if anchor then Plan([Matched(pos, pos, caps), Copied(pos), Rest(pos + 1)], None)
        else Then([Matched(pos, pos, caps), Copied(pos)], PlanFrom(src, pat, anchor, pos + 1, n + 1, max))
  }

  function RenderPiece(src: Text, repl: Text, piece: Piece): TextResult {
    match piece
    case Matched(from, to, caps) => if from <= to <= |src| then Expand(src, repl, 0, from, to, caps) else Ok([])
    case Copied(at) => if at < |src| then Ok([src[at]]) else Ok([])
    case Rest(at) => if at <= |src| then Ok(src[at..]) else Ok([])
  }

  function Render(src: Text, repl: Text, pieces: seq<Piece>): TextResult {
    if pieces == [] then Ok([]) else Join(RenderPiece(src, repl, pieces[0]), Render(src, repl, pieces[1..]))
  }

  lemma {:induction false} RenderConcat(src: Text, repl: Text, a: seq<Piece>, b: seq<Piece>)
    ensures Render(src, repl, a + b) == Join(Render(src, repl, a), Render(src, repl, b))
  {
    hide RenderPiece, Join;
    if a == [] {
      assert a + b == b;
      JoinEmpty(Render(src, repl, b));
    } else {
      RenderConcat(src, repl, a[1..], b);
      assert (a + b)[1..] == a[1..] + b;
      JoinAssociative(RenderPiece(src, repl, a[0]), Render(src, repl, a[1..]), Render(src, repl, b));
    }
  }

  lemma RenderOne(src: Text, repl: Text, piece: Piece)
    ensures Render(src, repl, [piece]) == RenderPiece(src, repl, piece)
  {
    JoinEmpty(RenderPiece(src, repl, piece));
  }

  /** Where a piece ends when it starts at `pos`, if it does start there. */
  predicate Follows(src: Text, piece: Piece, pos: nat, next: nat) {
    match piece
    case Matched(from, to, _) => from == pos && to == next && from <= to
    case Copied(at) => at == pos && next == pos + 1
    case Rest(at) => at == pos && next == |src|
  }

  /** The pieces lie end to end from `pos` to the end of the subject. */
  ghost predicate Tiles(src: Text, pieces: seq<Piece>, pos: nat) {
    if pieces == [] then pos == |src|
    else exists next: nat :: next <= |src| && Follows(src, pieces[0], pos, next) && Tiles(src, pieces[1..], next)
  }

  lemma TilesMore(src: Text, piece: Piece, rest: seq<Piece>, pos: nat, next: nat)
    requires next <= |src| && Follows(src, piece, pos, next) && Tiles(src, rest, next)
    ensures Tiles(src, [piece] + rest, pos)
  {
    assert ([piece] + rest)[1..] == rest;
  }

  lemma RestTiles(src: Text, pos: nat)
    requires pos <= |src|
    ensures Tiles(src, [Rest(pos)], pos)
  {
    TilesMore(src, Rest(pos), [], pos, |src|);
    assert [Rest(pos)] + [] == [Rest(pos)];
  }

  /** The pieces one turn of the loop produces. */
  function TurnPieces(src: Text, pos: nat, first: First): seq<Piece> {
    (if first.Found? then [Matched(pos, first.end, first.captures)] else [])
    + (if (first.Found? && first.end > pos) || pos >= |src| then [] else [Copied(pos)])
  }

  function TurnNext(src: Text, pos: nat, first: First): nat {
    if first.Found? && first.end > pos then first.end else if pos < |src| then pos + 1 else pos
  }

  /** One turn of the loop is one unfolding of the plan. */
  lemma PlanTurn(src: Text, pat: Text, anchor: bool, pos: nat, n: nat, max: nat, first: First)
    requires pos <= |src| && n < max && first == FirstAt(src, pat, pos)
    requires first.Found? ==> pos <= first.end <= |src|
    ensures
      var plan, next := PlanFrom(src, pat, anchor, pos, n, max), TurnNext(src, pos, first);
      if first.Fails? then plan == Plan([], Some(first.error))
      else if next == pos || anchor then plan == Plan(TurnPieces(src, pos, first) + [Rest(next)], None)
      else plan == Then(TurnPieces(src, pos, first), PlanFrom(src, pat, anchor, next, if first.Found? then n + 1
                                                                                      else n, max))
  {
    hide FirstAt;
  }

  lemma FirstInside(src: Text, pat: Text, pos: nat)
    requires pos <= |src|
    ensures FirstAt(src, pat, pos).Found? ==> pos <= FirstAt(src, pat, pos).end <= |src|
  {
    hide Successes;
    SuccessesInside(src, pat, pos, 0, []);
    var list := Successes(src, pat, pos, 0, []);
    assert list != [] ==> list[0] in list;
  }

  /** The pieces of one turn cover the subject from `pos` to where the loop goes on. */
  lemma TurnTiles(src: Text, pos: nat, first: First, rest: seq<Piece>)
    requires pos <= |src| && (first.Found? ==> pos <= first.end <= |src|)
    requires Tiles(src, rest, TurnNext(src, pos, first))
    ensures Tiles(src, TurnPieces(src, pos, first) + rest, pos)
  {
    hide Tiles;
    var next := TurnNext(src, pos, first);
    if first.Found? {
      var piece := Matched(pos, first.end, first.captures);
      if first.end > pos || pos >= |src| {
        TilesMore(src, piece, rest, pos, next);
        assert [piece] + [] + rest == [piece] + rest;
      } else {
        TilesMore(src, Copied(pos), rest, pos, next);
        TilesMore(src, piece, [Copied(pos)] + rest, pos, pos);
        assert [piece] + ([Copied(pos)] + rest) == [piece] + [Copied(pos)] + rest;
      }
    } else if pos < |src| {
      TilesMore(src, Copied(pos), rest, pos, next);
      assert [] + [Copied(pos)] + rest == [Copied(pos)] + rest;
    } else {
      var none: seq<Piece> := [];
      assert none + none + rest == rest;
    }
  }

  /** On every run without a pattern error, matched and copied pieces partition the subject in order. */
  lemma {:induction false} PlanTilesSubject(src: Text, pat: Text, anchor: bool, pos: nat, n: nat, max: nat)
    requires pos <= |src|
    requires PlanFrom(src, pat, anchor, pos, n, max).failure == None
    ensures Tiles(src, PlanFrom(src, pat, anchor, pos, n, max).pieces, pos)
    decreases |src| - pos
  {
    hide FirstAt, Tiles, TurnPieces;
    if n >= max {
      RestTiles(src, pos);
    } else {
      var first := FirstAt(src, pat, pos);
      var next := TurnNext(src, pos, first);
      FirstInside(src, pat, pos);
      PlanTurn(src, pat, anchor, pos, n, max, first);
      if next == pos || anchor {
        RestTiles(src, next);
        TurnTiles(src, pos, first, [Rest(next)]);
      } else {
        var n' := if first.Found? then n + 1 else n;
        PlanTilesSubject(src, pat, anchor, next, n', max);
        TurnTiles(src, pos, first, PlanFrom(src, pat, anchor, next, n', max).pieces);
      }
    }
  }

  const WHOLE_MATCH: Text := [Ch('%'), Ch('0')]

  lemma ExpandWholeMatch(src: Text, from: nat, to: nat, caps: seq<Capture>)
    requires from <= to <= |src|
    ensures Expand(src, WHOLE_MATCH, 0, from, to, caps) == Ok(src[from..to])
  {
    JoinEmpty(Ok(src[from..to]));
  }

  lemma FollowsForward(src: Text, piece: Piece, pos: nat, next: nat)
    requires pos <= |src| && Follows(src, piece, pos, next)
    ensures pos <= next
  {
  }

  lemma PieceRendersItself(src: Text, piece: Piece, pos: nat, next: nat)
    requires pos <= next <= |src| && Follows(src, piece, pos, next)
    ensures RenderPiece(src, WHOLE_MATCH, piece) == Ok(src[pos..next])
  {
    if piece.Matched? {
      ExpandWholeMatch(src, pos, next, piece.captures);
    }
  }

  /** Pieces that tile the subject render to it when every match is replaced by itself. */
  lemma {:induction false} TilesRenderIdentity(src: Text, pieces: seq<Piece>, pos: nat)
    requires pos <= |src| && Tiles(src, pieces, pos)
    ensures Render(src, WHOLE_MATCH, pieces) == Ok(src[pos..])
    decreases |pieces|
  {
    hide Follows, RenderPiece, FirstAt, Expand;
    if pieces != [] {
      var next: nat :| next <= |src| && Follows(src, pieces[0], pos, next) && Tiles(src, pieces[1..], next);
      FollowsForward(src, pieces[0], pos, next);
      TilesRenderIdentity(src, pieces[1..], next);
      PieceRendersItself(src, pieces[0], pos, next);
      assert src[pos..next] + src[next..] == src[pos..];
    }
  }

  /** Replacing every match by `%0` is the identity, however many matches are allowed. */
  lemma SubstitutionConserves(src: Text, pat: Text, anchor: bool, max: nat)
    requires PlanFrom(src, pat, anchor, 0, 0, max).failure == None
    ensures Render(src, WHOLE_MATCH, PlanFrom(src, pat, anchor, 0, 0, max).pieces) == Ok(src)
  {
    PlanTilesSubject(src, pat, anchor, 0, 0, max);
    TilesRenderIdentity(src, PlanFrom(src, pat, anchor, 0, 0, max).pieces, 0);
  }

  // ----- the loop -----

  lemma ThenAssociative(done: seq<Piece>, pieces: seq<Piece>, rest: Plan)
    ensures Then(done, Then(pieces, rest)) == Then(done + pieces, rest)
  {
    assert done + (pieces + rest.pieces) == done + pieces + rest.pieces;
  }

  /** One turn: tries `src`, appends what it yields to `output`, and reports where to go on. */
  method Turn(
    ms: MatchState, repl: Text, src: nat, output: Text, ghost done: seq<Piece>
  ) returns (r: TextResult, next: nat, matched: bool)
    requires ms.Valid() && ms.matchdepth == MAXDEPTH && src <= |ms.src|
    requires Render(ms.src, repl, done) == Ok(output)
    modifies ms, ms.capture
    ensures r.Ok? ==> ms.Valid() && ms.matchdepth == MAXDEPTH
    ensures
      var first := FirstAt(ms.src, ms.pat, src);
      || (r == Err(PatternError(TooComplex)) && |ms.pat| >= MAXDEPTH)
      || (first.Fails? && r == Err(PatternError(first.error)))
      || (r.Err? && !first.Fails? && exists k :: 0 <= k <= |TurnPieces(ms.src, src, first)| &&
                                       r == Render(ms.src, repl, done + TurnPieces(ms.src, src, first)[..k]))
      || (r.Ok? && !first.Fails? && r == Render(ms.src, repl, done + TurnPieces(ms.src, src, first)))
    ensures
      var first := FirstAt(ms.src, ms.pat, src);
      r.Ok? ==> next == TurnNext(ms.src, src, first) <= |ms.src| && (matched <==> first.Found?)
    ensures FirstAt(ms.src, ms.pat, src).Found? && r.Ok? ==> src <= FirstAt(ms.src, ms.pat, src).end <= |ms.src|
  {
    hide FirstAt, Render, Expand;
    next, matched := src, false;
    var e := TryAt(ms, src);
    if e.Raised? {
      return Err(PatternError(e.error)), next, matched;
    }
    ghost var first := FirstAt(ms.src, ms.pat, src);
    r := Ok(output);
    assert done + [] == done;
    if e.End? {
      matched := true;
      ghost var piece := Matched(src, e.pos, ms.Caps());
      ExtendRender(ms.src, repl, done, piece);
      r := AddExpansion(ms.src, repl, src, e.pos, ms.capture[..ms.level], output);
      if r.Err? {
        assert TurnPieces(ms.src, src, first)[..1] == [piece];
        return;
      }
      ExtendRender(ms.src, repl, done + [piece], Copied(src));
      assert done + [piece] + [Copied(src)] == done + ([piece] + [Copied(src)]);
      assert [piece] + [] == [piece];
    }
    assert [] + [Copied(src)] == [Copied(src)];
    ExtendRender(ms.src, repl, done, Copied(src));
    if e.End? && e.pos > src {
      next := e.pos;
    } else if src < |ms.src| {
      r := Ok(r.text + [ms.src[src]]);
      next := src + 1;
    }
  }

  /** Replaces up to `maxS` matches of `pattern` in `inst`. */
  method Gsub(inst: Text, pattern: Text, repl: Text, maxS: Option<nat>) returns (r: TextResult)
    ensures
      var max := if maxS.None? then |inst| + 1 else maxS.value;
      var plan := PlanFrom(inst, Body(pattern), Anchored(pattern), 0, 0, max);
      if r.Ok? then plan.failure == None && r == Render(inst, repl, plan.pieces)
      else
        || (r.error == PatternError(TooComplex) && |Body(pattern)| >= MAXDEPTH)
        || (plan.failure.Some? && r.error == PatternError(plan.failure.value))
        || r == Render(inst, repl, plan.pieces)
  {
    hide FirstAt, Render, Expand, PlanFrom, TurnPieces, TurnNext;
    var max := if maxS.None? then |inst| + 1 else maxS.value;
    var anchor := Anchored(pattern);
    var pat := Body(pattern);
    var ms := new MatchState(inst, pat, MAXDEPTH);
    ghost var plan := PlanFrom(inst, pat, anchor, 0, 0, max);
    ghost var done: seq<Piece> := [];
    var output: Text := [];
    var src: nat, n: nat := 0, 0;
    RenderNone(inst, repl);
    while n < max
      invariant ms.Valid() && ms.matchdepth == MAXDEPTH && ms.src == inst && ms.pat == pat
      invariant fresh(ms) && fresh(ms.capture)
      invariant src <= |inst|
      invariant plan == Then(done, PlanFrom(inst, pat, anchor, src, n, max))
      invariant Render(inst, repl, done) == Ok(output)
      decreases |inst| - src
    {
      ghost var first := FirstAt(inst, pat, src);
      ghost var pieces := TurnPieces(inst, src, first);
      var value, next, matched := Turn(ms, repl, src, output, done);
      if value.Err? {
        if !first.Fails? && exists k :: 0 <= k <= |pieces| && value == Render(inst, repl, done + pieces[..k]) {
          TurnFailureShows(inst, pat, repl, anchor, src, n, max, done, plan, value);
        } else if first.Fails? {
          PlanTurn(inst, pat, anchor, src, n, max, first);
        }
        return value;
      }
      PlanTurn(inst, pat, anchor, src, n, max, first);
      output := value.text;
      ghost var rest := PlanFrom(inst, pat, anchor, next, if matched then n + 1 else n, max);
      ThenAssociative(done, pieces, rest);
      ThenAssociative(done, pieces, Plan([Rest(next)], None));
      done := done + pieces;
      if matched {
        n := n + 1;
      }
      if next == src || anchor {
        ExtendRender(inst, repl, done, Rest(next));
        return Ok(output + inst[next..]);
      }
      NextIsLater(inst, src, first);
      src := next;
    }
    ExtendRender(inst, repl, done, Rest(src));
    PlanEnds(inst, pat, anchor, src, n, max);
    return Ok(output + inst[src..]);
  }

  lemma NextIsLater(src: Text, pos: nat, first: First)
    ensures TurnNext(src, pos, first) >= pos
  {
  }

  lemma PlanEnds(src: Text, pat: Text, anchor: bool, pos: nat, n: nat, max: nat)
    requires pos <= |src| && n >= max
    ensures PlanFrom(src, pat, anchor, pos, n, max) == Plan([Rest(pos)], None)
  {
  }

  lemma TurnFailureShows(src: Text, pat: Text, repl: Text, anchor: bool, pos: nat, n: nat, max: nat,
                         done: seq<Piece>, plan: Plan, value: TextResult)
    requires pos <= |src| && n < max
    requires plan == Then(done, PlanFrom(src, pat, anchor, pos, n, max))
    requires !FirstAt(src, pat, pos).Fails?
    requires value.Err?
    requires
      var pieces := TurnPieces(src, pos, FirstAt(src, pat, pos));
      exists k :: 0 <= k <= |pieces| && value == Render(src, repl, done + pieces[..k])
    ensures value == Render(src, repl, plan.pieces)
  {
    hide FirstAt, Render, PlanFrom, TurnPieces, TurnNext;
    var first := FirstAt(src, pat, pos);
    var pieces := TurnPieces(src, pos, first);
    SuccessesInside(src, pat, pos, 0, []);
    FirstInside(src, pat, pos);
    PlanTurn(src, pat, anchor, pos, n, max, first);
    var k :| 0 <= k <= |pieces| && value == Render(src, repl, done + pieces[..k]);
    assert plan.pieces[..|done| + k] == done + pieces[..k];
    FailureShows(src, repl, done + pieces[..k], plan.pieces);
  }

  lemma RenderNone(src: Text, repl: Text)
    ensures Render(src, repl, []) == Ok([])
  {
  }

  lemma ExtendRender(src: Text, repl: Text, done: seq<Piece>, piece: Piece)
    ensures Render(src, repl, done + [piece]) == Join(Render(src, repl, done), RenderPiece(src, repl, piece))
  {
    RenderConcat(src, repl, done, [piece]);
    RenderOne(src, repl, piece);
  }

  /** A piece that cannot be rendered makes the whole plan fail with its error. */
  lemma FailureShows(src: Text, repl: Text, done: seq<Piece>, pieces: seq<Piece>)
    requires done <= pieces && Render(src, repl, done).Err?
    ensures Render(src, repl, pieces) == Render(src, repl, done)
  {
    assert pieces == done + pieces[|done|..];
    RenderConcat(src, repl, done, pieces[|done|..]);
  }
}
