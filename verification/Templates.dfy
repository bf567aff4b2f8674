/** What replacement templates and plans come to, by the parts they are written from. */
module Templates {
  import opened Options
  import opened PatternSpec
  import opened PatternMatcher
  import opened PatternUse
  import opened Substitution

  // ----- decimal numbers -----

  /** The number that decimal digits spell, or -1. */
  function NumberOf(digits: Text): int {
    if digits == [] then 0
    else
      var n, d := NumberOf(digits[..|digits| - 1]), digits[|digits| - 1];
      if n < 0 || d < 48 || d > 57 then -1 else 10 * n + (d - 48)
  }

  /** A position is written in decimal digits, without leading zeros. */
  lemma {:induction false} DecimalSpells(n: nat)
    ensures NumberOf(Decimal(n)) == n && Decimal(n) != [] && (n > 0 ==> Decimal(n)[0] != 48)
  {
    if n >= 10 {
      DecimalSpells(n / 10);
      assert Decimal(n)[..|Decimal(n)| - 1] == Decimal(n / 10);
    } else {
      assert Decimal(n)[..0] == [];
    }
  }

  // ----- templates -----

  /** A character, `%%`, `%0`, or `%1` to `%9`. */
  datatype Part = Char(c: byte) | Percent | Whole | Capt(k: nat)

  predicate PartOk(part: Part) {
    match part
    case Char(c) => c != 37
    case Capt(k) => 1 <= k <= 9
    case _ => true
  }

  function PartText(part: Part): (w: Text)
    ensures w != []
  {
    match part
    case Char(c) => [c]
    case Percent => [37, 37]
    case Whole => [37, 48]
    case Capt(k) => [37, 48 + k % 10]
  }

  function TemplateText(parts: seq<Part>): Text {
    if parts == [] then [] else PartText(parts[0]) + TemplateText(parts[1..])
  }

  predicate TemplateOk(parts: seq<Part>) {
    forall i :: 0 <= i < |parts| ==> PartOk(parts[i])
  }

  /** What capture `k`, counted from 1, inserts: the text it spans, or its position. */
  function Inserted(src: Text, from: nat, to: nat, caps: seq<Capture>, k: nat): TextResult
    requires from <= to <= |src| && CapturesOk(caps, to) && k >= 1
  {
    if k <= |caps| then
      if caps[k - 1].len == -1 then Err(UnfinishedCapture)
      else if caps[k - 1].len == -2 then Ok(Decimal(caps[k - 1].init))
      else Ok(src[caps[k - 1].init..caps[k - 1].init + caps[k - 1].len])
    else if k == 1 then Ok(src[from..to])
    else Err(InvalidCapture)
  }

  function PartMeans(src: Text, from: nat, to: nat, caps: seq<Capture>, part: Part): TextResult
    requires from <= to <= |src| && CapturesOk(caps, to) && PartOk(part)
  {
    match part
    case Char(c) => Ok([c])
    case Percent => Ok([37])
    case Whole => Ok(src[from..to])
    case Capt(k) => Inserted(src, from, to, caps, k)
  }

  /** The parts' texts in order, or the error of the first part that has one. */
  function TemplateMeans(src: Text, from: nat, to: nat, caps: seq<Capture>, parts: seq<Part>): TextResult
    requires from <= to <= |src| && CapturesOk(caps, to) && TemplateOk(parts)
  {
    if parts == [] then Ok([])
    else
      var first, rest := PartMeans(src, from, to, caps, parts[0]), TemplateMeans(src, from, to, caps, parts[1..]);
      if first.Err? then first else if rest.Err? then rest else Ok(first.text + rest.text)
  }

  lemma InsertedIs(src: Text, from: nat, to: nat, caps: seq<Capture>, k: nat)
    requires from <= to <= |src| && CapturesOk(caps, to) && k >= 1
    ensures CaptureText(src, from, to, caps, k - 1) == Inserted(src, from, to, caps, k)
  {
    CaptureTextMeans(src, from, to, caps, k - 1);
  }

  /** A part that stands at `i`. */
  lemma PartExpands(src: Text, repl: Text, i: nat, from: nat, to: nat, caps: seq<Capture>, part: Part)
    requires from <= to <= |src| && CapturesOk(caps, to) && PartOk(part)
    requires i + |PartText(part)| <= |repl| && repl[i..i + |PartText(part)|] == PartText(part)
    ensures Expand(src, repl, i, from, to, caps) ==
      Join(PartMeans(src, from, to, caps, part), Expand(src, repl, i + |PartText(part)|, from, to, caps))
  {
    hide Inserted, CaptureText, Join;
    var w := PartText(part);
    assert repl[i..i + |w|][0] == w[0] && (|w| > 1 ==> repl[i..i + |w|][1] == w[1]);
    if part.Capt? {
      InsertedIs(src, from, to, caps, part.k);
    }
  }

  lemma StandsFirst(repl: Text, i: nat, j: nat, w: Text, rest: Text)
    requires i <= j <= |repl| && repl[i..j] == w + rest
    ensures i + |w| <= j && repl[i..i + |w|] == w && repl[i + |w|..j] == rest
  {
    assert repl[i..j][..|w|] == w && repl[i..j][|w|..] == rest;
    assert repl[i..i + |w|] == repl[i..j][..|w|] && repl[i + |w|..j] == repl[i..j][|w|..];
  }

  /** Every template expands to what its parts mean, up to a place `j` where it goes on otherwise. */
  lemma {:induction false} TemplateExpands(
    src: Text, repl: Text, i: nat, j: nat, from: nat, to: nat, caps: seq<Capture>, parts: seq<Part>
  )
    requires from <= to <= |src| && CapturesOk(caps, to) && TemplateOk(parts)
    requires i <= j <= |repl| && repl[i..j] == TemplateText(parts)
    ensures Expand(src, repl, i, from, to, caps) ==
      Join(TemplateMeans(src, from, to, caps, parts), Expand(src, repl, j, from, to, caps))
    decreases |parts|
  {
    hide Expand, PartText, PartOk, PartMeans, Join;
    if parts == [] {
      JoinEmpty(Expand(src, repl, j, from, to, caps));
    } else {
      var w := PartText(parts[0]);
      StandsFirst(repl, i, j, w, TemplateText(parts[1..]));
      PartExpands(src, repl, i, from, to, caps, parts[0]);
      TemplateExpands(src, repl, i + |w|, j, from, to, caps, parts[1..]);
      JoinAssociative(PartMeans(src, from, to, caps, parts[0]), TemplateMeans(src, from, to, caps, parts[1..]),
        Expand(src, repl, j, from, to, caps));
      TemplateJoins(src, from, to, caps, parts);
    }
  }

  lemma TemplateJoins(src: Text, from: nat, to: nat, caps: seq<Capture>, parts: seq<Part>)
    requires from <= to <= |src| && CapturesOk(caps, to) && TemplateOk(parts) && parts != []
    ensures TemplateMeans(src, from, to, caps, parts) ==
      Join(PartMeans(src, from, to, caps, parts[0]), TemplateMeans(src, from, to, caps, parts[1..]))
  {
  }

  /** A whole template; and one with a `%` before something that has no meaning behind it. */
  lemma TemplateIs(src: Text, repl: Text, from: nat, to: nat, caps: seq<Capture>, parts: seq<Part>, bad: Text)
    requires from <= to <= |src| && CapturesOk(caps, to) && TemplateOk(parts)
    requires bad == [] || (bad[0] == 37 && (|bad| > 1 ==> bad[1] != 37 && !(48 <= bad[1] <= 57)))
    requires repl == TemplateText(parts) + bad
    ensures
      var whole := TemplateMeans(src, from, to, caps, parts);
      Expand(src, repl, 0, from, to, caps) == if whole.Err? || bad == [] then whole else Err(InvalidUse)
  {
    var j := |TemplateText(parts)|;
    assert repl[0..j] == TemplateText(parts);
    TemplateExpands(src, repl, 0, j, from, to, caps, parts);
    JoinEmpty(TemplateMeans(src, from, to, caps, parts));
  }

  // ----- plans -----

  function Matches(pieces: seq<Piece>): (n: nat) {
    if pieces == [] then 0 else (if pieces[0].Matched? then 1 else 0) + Matches(pieces[1..])
  }

  lemma {:induction false} MatchesAdd(a: seq<Piece>, b: seq<Piece>)
    ensures Matches(a + b) == Matches(a) + Matches(b)
  {
    if a == [] {
      assert a + b == b;
    } else {
      MatchesAdd(a[1..], b);
      assert (a + b)[1..] == a[1..] + b;
    }
  }

  /** Piece `i`, with `n` matches before the first: if it is a match it is the first success at its place, and not one
      too many. A character is copied where nothing matches, or behind an empty match there. The rest is the last piece:
      nothing is left, there have been enough matches, or an anchored search has looked once. */
  ghost predicate Faithful(src: Text, pat: Text, anchor: bool, pieces: seq<Piece>, n: nat, max: nat, i: nat)
    requires i < |pieces|
  {
    match pieces[i]
    case Matched(from, to, caps) => n + Matches(pieces[..i]) < max && FirstAt(src, pat, from) == Found(to, caps)
    case Copied(at) =>
      || FirstAt(src, pat, at) == Nothing
      || (i > 0 && pieces[i - 1].Matched? && pieces[i - 1].from == at && pieces[i - 1].to == at)
    case Rest(at) => i == |pieces| - 1 && (at >= |src| || n + Matches(pieces) >= max || (anchor && i > 0))
  }

  ghost predicate AllFaithful(src: Text, pat: Text, anchor: bool, pieces: seq<Piece>, n: nat, max: nat) {
    forall i :: 0 <= i < |pieces| ==> Faithful(src, pat, anchor, pieces, n, max, i)
  }

  lemma FaithfulBehind(
    src: Text, pat: Text, anchor: bool, head: seq<Piece>, tail: seq<Piece>, n: nat, max: nat, i: nat
  )
    requires i < |tail| && Faithful(src, pat, anchor, tail, n + Matches(head), max, i)
    ensures Faithful(src, pat, anchor, head + tail, n, max, |head| + i)
  {
    hide FirstAt, Matches;
    var all := head + tail;
    assert all[..|head| + i] == head + tail[..i] && all[|head| + i] == tail[i];
    assert i > 0 ==> all[|head| + i - 1] == tail[i - 1];
    MatchesAdd(head, tail[..i]);
    MatchesAdd(head, tail);
  }

  lemma TurnMatches(src: Text, pos: nat, first: First)
    ensures Matches(TurnPieces(src, pos, first)) == if first.Found? then 1 else 0
  {
    var a: seq<Piece> := if first.Found? then [Matched(pos, first.end, first.captures)] else [];
    var b: seq<Piece> := if (first.Found? && first.end > pos) || pos >= |src| then [] else [Copied(pos)];
    MatchesAdd(a, b);
    assert a != [] ==> a[1..] == [];
    assert b != [] ==> b[1..] == [];
  }

  /** One turn in front of a faithful plan. */
  lemma TurnFaithful(
    src: Text, pat: Text, anchor: bool, pos: nat, tail: seq<Piece>, n: nat, max: nat, first: First
  )
    requires n < max && first == FirstAt(src, pat, pos) && !first.Fails? && pos <= |src|
    requires first.Found? && first.end <= pos ==> first.end == pos
    requires
      AllFaithful(src, pat, anchor, tail, n + (if first.Found? then 1 else 0), max)
      || (tail == [Rest(TurnNext(src, pos, first))] && (anchor || pos == |src|))
    ensures AllFaithful(src, pat, anchor, TurnPieces(src, pos, first) + tail, n, max)
  {
    hide FirstAt;
    var head := TurnPieces(src, pos, first);
    var all := head + tail;
    TurnMatches(src, pos, first);
    forall i | 0 <= i < |all| ensures Faithful(src, pat, anchor, all, n, max, i) {
      if i < |head| {
        assert all[i] == head[i] && all[..i] == head[..i] && (i > 0 ==> all[i - 1] == head[i - 1]);
      } else if AllFaithful(src, pat, anchor, tail, n + (if first.Found? then 1 else 0), max) {
        FaithfulBehind(src, pat, anchor, head, tail, n, max, i - |head|);
      }
    }
  }

  /** The plan is faithful, and if it fails, the pattern is malformed where it stops. */
  lemma {:induction false} PlanIsFaithful(src: Text, pat: Text, anchor: bool, pos: nat, n: nat, max: nat)
    requires pos <= |src|
    ensures
      var plan := PlanFrom(src, pat, anchor, pos, n, max);
      && AllFaithful(src, pat, anchor, plan.pieces, n, max)
      && (plan.failure.Some? ==> exists s :: pos <= s <= |src| && FirstAt(src, pat, s) == Fails(plan.failure.value))
      && (plan.failure.None? ==> plan.pieces != [] && plan.pieces[|plan.pieces| - 1].Rest?)
    decreases |src| - pos
  {
    hide FirstAt, TurnPieces, TurnNext, AllFaithful;
    if n >= max {
      RestIsFaithful(src, pat, anchor, pos, n, max);
      return;
    }
    var first := FirstAt(src, pat, pos);
    FirstInside(src, pat, pos);
    PlanTurn(src, pat, anchor, pos, n, max, first);
    if first.Fails? {
      NothingFaithful(src, pat, anchor, n, max);
      return;
    }
    var next := TurnNext(src, pos, first);
    NextIsLater(src, pos, first);
    if next == pos || anchor {
      TurnFaithful(src, pat, anchor, pos, [Rest(next)], n, max, first);
    } else {
      var m := if first.Found? then n + 1 else n;
      PlanIsFaithful(src, pat, anchor, next, m, max);
      TurnFaithful(src, pat, anchor, pos, PlanFrom(src, pat, anchor, next, m, max).pieces, n, max, first);
    }
  }

  lemma NextIsLater(src: Text, pos: nat, first: First)
    requires pos <= |src| && (first.Found? ==> pos <= first.end <= |src|)
    ensures pos <= TurnNext(src, pos, first) <= |src| && (TurnNext(src, pos, first) == pos ==> pos == |src|)
  {
  }

  lemma RestIsFaithful(src: Text, pat: Text, anchor: bool, pos: nat, n: nat, max: nat)
    requires n >= max
    ensures AllFaithful(src, pat, anchor, [Rest(pos)], n, max)
  {
  }

  lemma NothingFaithful(src: Text, pat: Text, anchor: bool, n: nat, max: nat)
    ensures AllFaithful(src, pat, anchor, [], n, max)
  {
  }
}
