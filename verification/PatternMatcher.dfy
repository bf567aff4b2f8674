/** The backtracking matcher over a mutable capture array, proved to return the first success. */
module PatternMatcher {
  import opened Options
  import opened PatternSpec

  datatype Result = NoMatch | End(pos: nat) | Raised(error: Error)

  /** What one switch case of the matcher decides: an answer, or to go on at another place. */
  datatype Step = Return(result: Result) | Goto(s: nat, p: nat)

  /** `r`, with captures going from `before` to `after`, is what the first of `list` says. */
  ghost predicate Answers(list: seq<Outcome>, r: Result, before: seq<Capture>, after: seq<Capture>) {
    match r
    case NoMatch => list == [] && after == before
    case End(e) => list != [] && list[0] == Match(e, after)
    case Raised(err) => err == TooComplex || (list != [] && list[0] == Malformed(err))
  }

  /** Captures opened so far lie within the subject, before the current position. */
  ghost predicate CapturesOk(caps: seq<Capture>, s: nat) {
    forall i :: 0 <= i < |caps| ==>
      caps[i].init <= s && caps[i].len >= -2 && caps[i].init + caps[i].len <= s
  }

  lemma LastUnfinishedIsLast(caps: seq<Capture>, l: nat)
    requires l < |caps| && caps[l].len == CAP_UNFINISHED
    requires forall i :: l < i < |caps| ==> caps[i].len != CAP_UNFINISHED
    ensures LastUnfinished(caps) == l
  {
    if l < |caps| - 1 {
      var init := caps[..|caps| - 1];
      assert forall i :: l < i < |init| ==> init[i] == caps[i];
      LastUnfinishedIsLast(init, l);
    }
  }

  lemma NoneUnfinished(caps: seq<Capture>)
    requires forall i :: 0 <= i < |caps| ==> caps[i].len != CAP_UNFINISHED
    ensures LastUnfinished(caps) == -1
  {
    if caps != [] {
      NoneUnfinished(caps[..|caps| - 1]);
    }
  }

  // ----- reading the pattern -----

  /** Reading a NUL-terminated string: the terminator itself may be read, nothing past it. */
  function CharAt(t: Text, i: nat): (c: byte)
    requires i <= |t|
    ensures c == At(t, i)
  {
    if i == |t| then 0 else t[i]
  }

  method FindClassEnd(pat: Text, start: nat) returns (r: ClassEnd)
    requires start < |pat|
    ensures r == ItemEnd(pat, start)
  {
    var p := start + 1;
    if CharAt(pat, start) == Ch('%') {
      if p == |pat| {
        return Bad(EndsWithPercent);
      }
      return EndsAt(p + 1);
    } else if CharAt(pat, start) == Ch('[') {
      if CharAt(pat, p) == Ch('^') {
        p := p + 1;
      }
      while true
        invariant p <= |pat|
        invariant ItemEnd(pat, start) == BracketEnd(pat, p)
        decreases |pat| - p
      {
        if p == |pat| {
          return Bad(MissingBracket);
        }
        p := p + 1;
        if CharAt(pat, p - 1) == Ch('%') && p < |pat| {
          p := p + 1;
        }
        if CharAt(pat, p) == Ch(']') {
          return EndsAt(p + 1);
        }
      }
    } else {
      return EndsAt(p);
    }
  }

  lemma FirstMember(m: Member, ms: seq<Member>, c: byte)
    ensures SomeContains([m] + ms, c) <==> Contains(m, c) || SomeContains(ms, c)
  {
    assert forall x :: x in [m] + ms <==> x == m || x in ms;
  }

  method MatchBracketClass(pat: Text, c: byte, start: nat, ec: nat) returns (res: bool)
    requires start < ec < |pat|
    ensures res <==> InBracket(pat, c, start, ec)
  {
    hide Contains, MatchClass, Members, SomeContains, CharAt;
    CharAtIsAt(pat, start + 1);
    var sig := true;
    var p := start;
    if CharAt(pat, p + 1) == Ch('^') {
      sig := false;
      p := p + 1;
    }
    p := p + 1;
    while p < ec
      invariant start < p
      invariant InBracket(pat, c, start, ec) <==> (SomeContains(Members(pat, p, ec), c) <==> sig)
      decreases ec - p
    {
      NextMember(pat, p, ec, c);
      CharAtIsAt(pat, p);
      CharAtIsAt(pat, p + 1);
      if CharAt(pat, p) == Ch('%') {
        if MatchClass(c, CharAt(pat, p + 1)) {
          return sig;
        }
        p := p + 2;
      } else if CharAt(pat, p + 1) == Ch('-') && p + 2 < ec {
        CharAtIsAt(pat, p + 2);
        if CharAt(pat, p) <= c <= CharAt(pat, p + 2) {
          return sig;
        }
        p := p + 3;
      } else {
        if CharAt(pat, p) == c {
          return sig;
        }
        p := p + 1;
      }
    }
    NoMembers(pat, p, ec, c);
    res := !sig;
  }

  /** Whether a set contains `c`, by its first member. */
  lemma NextMember(pat: Text, p: nat, ec: nat, c: byte)
    requires p < ec
    ensures SomeContains(Members(pat, p, ec), c) <==>
            if At(pat, p) == Ch('%') then MatchClass(c, At(pat, p + 1)) || SomeContains(Members(pat, p + 2, ec), c)
            else if At(pat, p + 1) == Ch('-') && p + 2 < ec then
              At(pat, p) <= c <= At(pat, p + 2) || SomeContains(Members(pat, p + 3, ec), c)
            else At(pat, p) == c || SomeContains(Members(pat, p + 1, ec), c)
  {
    hide Contains, MatchClass;
    FirstMember(Class(At(pat, p + 1)), Members(pat, p + 2, ec), c);
    ClassContains(At(pat, p + 1), c);
    FirstMember(Range(At(pat, p), At(pat, p + 2)), Members(pat, p + 3, ec), c);
    RangeContains(At(pat, p), At(pat, p + 2), c);
    FirstMember(Range(At(pat, p), At(pat, p)), Members(pat, p + 1, ec), c);
    RangeContains(At(pat, p), At(pat, p), c);
  }

  lemma NoMembers(pat: Text, p: nat, ec: nat, c: byte)
    requires p >= ec
    ensures !SomeContains(Members(pat, p, ec), c)
  {
  }

  lemma ClassContains(cl: byte, c: byte)
    ensures Contains(Class(cl), c) <==> MatchClass(c, cl)
  {
  }

  lemma RangeContains(lo: byte, hi: byte, c: byte)
    ensures Contains(Range(lo, hi), c) <==> lo <= c <= hi
  {
  }

  // ----- lists of successes and repetition -----

  lemma {:induction false} DownByOne(src: Text, pat: Text, s: nat, hi: nat, lo: nat, p: nat, caps: seq<Capture>)
    requires lo <= hi
    ensures EachCount(src, pat, s, Down(hi, lo), p, caps) ==
            Successes(src, pat, s + hi, p, caps) + EachCount(src, pat, s, Down(hi - 1, lo), p, caps)
  {
    hide Successes;
    assert Down(hi, lo)[1..] == Down(hi - 1, lo);
  }

  lemma {:induction false} UpByOne(src: Text, pat: Text, s: nat, lo: nat, hi: nat, p: nat, caps: seq<Capture>)
    requires lo <= hi
    ensures EachCount(src, pat, s, Up(lo, hi), p, caps) ==
            Successes(src, pat, s + lo, p, caps) +
            (if lo == hi then [] else EachCount(src, pat, s, Up(lo + 1, hi), p, caps))
  {
    hide Successes;
    assert Up(lo, hi)[1..] == if lo == hi then [] else Up(lo + 1, hi);
  }

  /** One forced repetition first: counting down to 1 from `s` is counting down to 0 from `s + 1`. */
  lemma {:induction false} CountFromNext(src: Text, pat: Text, s: nat, n: nat, p: nat, caps: seq<Capture>)
    ensures EachCount(src, pat, s + 1, Down(n, 0), p, caps) == EachCount(src, pat, s, Down(n + 1, 1), p, caps)
    decreases n
  {
    hide Successes;
    DownByOne(src, pat, s + 1, n, 0, p, caps);
    DownByOne(src, pat, s, n + 1, 1, p, caps);
    if n > 0 {
      CountFromNext(src, pat, s, n - 1, p, caps);
    }
  }

  lemma {:induction false} OneOrTwoCounts(src: Text, pat: Text, s: nat, p: nat, caps: seq<Capture>)
    ensures EachCount(src, pat, s, [1], p, caps) == Successes(src, pat, s + 1, p, caps)
    ensures EachCount(src, pat, s, [0], p, caps) == Successes(src, pat, s, p, caps)
    ensures EachCount(src, pat, s, [1, 0], p, caps) ==
            Successes(src, pat, s + 1, p, caps) + Successes(src, pat, s, p, caps)
  {
    hide Successes;
    assert [1, 0][1..] == [0];
    assert EachCount(src, pat, s, [0], p, caps) ==
      Successes(src, pat, s, p, caps) + EachCount(src, pat, s, [0][1..], p, caps);
    assert EachCount(src, pat, s, [1], p, caps) ==
      Successes(src, pat, s + 1, p, caps) + EachCount(src, pat, s, [1][1..], p, caps);
  }

  /** An answer for the first part of a list answers the whole list, unless there is none. */
  lemma AnswersPrefix(first: seq<Outcome>, rest: seq<Outcome>, r: Result, before: seq<Capture>, after: seq<Capture>)
    requires Answers(first, r, before, after)
    ensures !r.NoMatch? ==> Answers(first + rest, r, before, after)
    ensures r.NoMatch? ==> first + rest == rest
  {
  }

  // ----- the matcher -----

  class MatchState {
    const src: Text
    const pat: Text
    const capture: array<Capture>
    var matchdepth: int
    var level: nat

    ghost predicate Valid()
      reads this, capture
    {
      capture.Length == MAX_CAPTURES && level <= MAX_CAPTURES && matchdepth >= 0
    }

    /** The captures opened so far, outermost first. */
    ghost function Caps(): seq<Capture>
      reads this, capture
      requires level <= capture.Length
    {
      capture[..level]
    }

    ghost predicate Ready(s: nat, p: nat)
      reads this, capture
    {
      Valid() && s <= |src| && p <= |pat| && CapturesOk(Caps(), s)
    }

    constructor (src: Text, pat: Text, depth: nat)
      ensures Valid() && this.src == src && this.pat == pat && matchdepth == depth && level == 0 && fresh(capture)
    {
      this.src, this.pat := src, pat;
      capture := new Capture[MAX_CAPTURES];
      matchdepth, level := depth, 0;
    }

    method SingleMatch(s: nat, p: nat, ep: nat) returns (res: bool)
      requires p < |pat| && ItemEnd(pat, p) == EndsAt(ep)
      ensures res <==> Single(src, pat, s, p, ep)
    {
      hide MatchClass, InBracket;
      if s >= |src| {
        return false;
      }
      var c := src[s];
      if CharAt(pat, p) == Ch('.') {
        return true;
      } else if CharAt(pat, p) == Ch('%') {
        return MatchClass(c, CharAt(pat, p + 1));
      } else if CharAt(pat, p) == Ch('[') {
        BracketHasRoom(pat, p, ep);
        res := MatchBracketClass(pat, c, p, ep - 1);
      } else {
        return CharAt(pat, p) == c;
      }
    }

    method MatchBalance(start: nat, p: nat) returns (r: Result)
      requires start <= |src| && p <= |pat|
      ensures p + 1 >= |pat| ==> r == Raised(MissingArgumentsToB)
      ensures p + 1 < |pat| ==>
                r == if At(src, start) != At(pat, p) then NoMatch
                     else match Balance(src, start + 1, 1, At(pat, p),
                       At(pat, p + 1)) case None => NoMatch case Some(e) => End(e)
    {
      if p + 1 >= |pat| {
        return Raised(MissingArgumentsToB);
      }
      if CharAt(src, start) != CharAt(pat, p) {
        return NoMatch;
      }
      var b, e := CharAt(pat, p), CharAt(pat, p + 1);
      var cont := 1;
      var s := start + 1;
      while s < |src|
        invariant s > start && cont >= 1
        invariant Balance(src, start + 1, 1, b, e) == Balance(src, s, cont, b, e)
        decreases |src| - s
      {
        if src[s] == e {
          cont := cont - 1;
          if cont == 0 {
            return End(s + 1);
          }
        } else if src[s] == b {
          cont := cont + 1;
        }
        s := s + 1;
      }
      return NoMatch;
    }

    /** Index of the capture that `)` closes, or an error when none is open. */
    method CaptureToClose() returns (l: int)
      requires Valid()
      ensures l == LastUnfinished(Caps())
    {
      ghost var caps := Caps();
      l := level;
      l := l - 1;
      while l >= 0
        invariant -1 <= l < level
        invariant forall i :: l < i < level ==> capture[i].len != CAP_UNFINISHED
      {
        if capture[l].len == CAP_UNFINISHED {
          LastUnfinishedIsLast(caps, l);
          return;
        }
        l := l - 1;
      }
      NoneUnfinished(caps);
    }

    /** Does the text of capture `digit - '1'` recur at `s`? */
    method MatchCapture(s: nat, digit: byte) returns (r: Result)
      requires Valid() && s <= |src| && CapturesOk(Caps(), s)
      ensures
        var l := digit - Ch('1');
        r == if !ValidIndex(Caps(), l) then Raised(InvalidCaptureIndex(l + 1))
             else if Recurs(src, s, Caps()[l]) then End(s + Caps()[l].len)
             else NoMatch
    {
      var l := digit - Ch('1');
      if !(l >= 0 && l < level && capture[l].len != CAP_UNFINISHED) {
        return Raised(InvalidCaptureIndex(l + 1));
      }
      assert Caps()[l] == capture[l];
      var len := capture[l].len;
      var init := capture[l].init;
      // as an unsigned length, the marker of a position capture exceeds any subject
      if len >= 0 && |src| - s >= len && src[init..init + len] == src[s..s + len] {
        return End(s + len);
      }
      return NoMatch;
    }

    /** Opens a capture of kind `what` at `s`, and takes it back when the rest does not match. */
    method StartCapture(s: nat, p: nat, what: int) returns (r: Result)
      requires Ready(s, p) && what in {CAP_POSITION, CAP_UNFINISHED}
      modifies this, capture
      ensures level <= capture.Length == MAX_CAPTURES
      ensures Answers(AfterOpen(src, pat, s, p, old(Caps()), what), r, old(Caps()), Caps())
      ensures !r.Raised? ==> matchdepth == old(matchdepth)
      ensures r == Raised(TooComplex) ==> old(matchdepth) <= |pat| - p
      decreases |pat| - p, 4
    {
      hide Successes;
      if level >= MAX_CAPTURES {
        return Raised(TooManyCaptures);
      }
      ghost var before := Caps();
      capture[level] := Capture(s, what);
      level := level + 1;
      assert Caps() == before + [Capture(s, what)];
      r := Match(s, p);
      if r == NoMatch {
        level := level - 1;
        assert Caps() == (before + [Capture(s, what)])[..level];
      }
    }

    /** Closes the innermost open capture at `s`, and reopens it when the rest does not match. */
    method EndCapture(s: nat, p: nat) returns (r: Result)
      requires Ready(s, p)
      modifies this, capture
      ensures level <= capture.Length == MAX_CAPTURES
      ensures
        var before := old(Caps());
        var l := LastUnfinished(before);
        if l < 0 then r == Raised(InvalidPatternCapture)
        else Answers(Successes(src, pat, s, p, before[l := Capture(before[l].init, s - before[l].init)]), r, before,
          Caps())
      ensures !r.Raised? ==> matchdepth == old(matchdepth)
      ensures r == Raised(TooComplex) ==> old(matchdepth) <= |pat| - p
      decreases |pat| - p, 4
    {
      hide Successes;
      ghost var before := Caps();
      var l := CaptureToClose();
      if l < 0 {
        return Raised(InvalidPatternCapture);
      }
      var init := capture[l].init;
      ghost var closed := before[l := Capture(init, s - init)];
      capture[l] := Capture(init, s - init);
      assert Caps() == closed;
      r := Match(s, p);
      if r == NoMatch {
        assert Caps() == closed;
        capture[l] := Capture(capture[l].init, CAP_UNFINISHED);
        assert Caps() == before;
      }
    }

    /** Takes the longest run of the item at `p` first and gives characters back one by one. */
    method MaxExpand(s: nat, p: nat, ep: nat) returns (r: Result)
      requires p < |pat| && ItemEnd(pat, p) == EndsAt(ep) && ep < |pat|
      requires Ready(s, ep + 1)
      modifies this, capture
      ensures level <= capture.Length == MAX_CAPTURES
      ensures
        Answers(EachCount(src, pat, s, Down(Run(src, pat, s, p, ep), 0), ep + 1, old(Caps())), r, old(Caps()), Caps())
      ensures !r.Raised? ==> matchdepth == old(matchdepth)
      ensures r == Raised(TooComplex) ==> old(matchdepth) <= |pat| - (ep + 1)
      decreases |pat| - (ep + 1), 4
    {
      hide Successes, Single, ItemEnd;
      ghost var n, before := Run(src, pat, s, p, ep), Caps();
      var i: int := 0;
      var more := SingleMatch(s, p, ep);
      while more
        invariant 0 <= i && s + i <= |src|
        invariant level <= capture.Length == MAX_CAPTURES && Caps() == before && matchdepth == old(matchdepth)
        invariant i + Run(src, pat, s + i, p, ep) == n
        invariant more <==> Single(src, pat, s + i, p, ep)
        decreases |src| - (s + i)
      {
        i := i + 1;
        more := SingleMatch(s + i, p, ep);
      }
      ghost var list := EachCount(src, pat, s, Down(n, 0), ep + 1, before);
      while i >= 0
        invariant -1 <= i && s + i <= |src|
        invariant level <= capture.Length == MAX_CAPTURES && Caps() == before
        invariant matchdepth == old(matchdepth)
        invariant list == EachCount(src, pat, s, Down(i, 0), ep + 1, before)
        decreases i
      {
        DownByOne(src, pat, s, i, 0, ep + 1, before);
        r := Match(s + i, ep + 1);
        AnswersPrefix(Successes(src, pat, s + i, ep + 1, before),
                      EachCount(src, pat, s, Down(i - 1, 0), ep + 1, before), r, before, Caps());
        if !r.NoMatch? {
          return;
        }
        i := i - 1;
      }
      return NoMatch;
    }

    /** Tries the rest first and takes one more repetition of the item only when it fails. */
    method MinExpand(start: nat, p: nat, ep: nat) returns (r: Result)
      requires p < |pat| && ItemEnd(pat, p) == EndsAt(ep) && ep < |pat|
      requires Ready(start, ep + 1)
      modifies this, capture
      ensures level <= capture.Length == MAX_CAPTURES
      ensures Answers(EachCount(src, pat, start, Up(0, Run(src, pat, start, p, ep)), ep + 1, old(Caps())), r,
        old(Caps()), Caps())
      ensures !r.Raised? ==> matchdepth == old(matchdepth)
      ensures r == Raised(TooComplex) ==> old(matchdepth) <= |pat| - (ep + 1)
      decreases |pat| - (ep + 1), 4
    {
      hide Successes, Single, ItemEnd, EachCount, Up;
      ghost var n, before := Run(src, pat, start, p, ep), Caps();
      ghost var list := EachCount(src, pat, start, Up(0, n), ep + 1, before);
      var s := start;
      while true
        invariant start <= s <= |src|
        invariant s - start + Run(src, pat, s, p, ep) == n
        invariant level <= capture.Length == MAX_CAPTURES && Caps() == before
        invariant matchdepth == old(matchdepth)
        invariant list == EachCount(src, pat, start, Up(s - start, n), ep + 1, before)
        decreases |src| - s
      {
        UpByOne(src, pat, start, s - start, n, ep + 1, before);
        r := Match(s, ep + 1);
        AnswersPrefix(Successes(src, pat, s, ep + 1, before),
                      if s - start == n then [] else EachCount(src, pat, start, Up(s - start + 1, n), ep + 1, before),
                      r, before, Caps());
        if !r.NoMatch? {
          return;
        }
        var more := SingleMatch(s, p, ep);
        if more {
          s := s + 1;
        } else {
          return NoMatch;
        }
      }
    }

    /** What a step may claim about matching at `s`, `p` under captures `before`. */
    ghost predicate Decides(step: Step, s: nat, p: nat, before: seq<Capture>)
      reads this, capture
    {
      && level <= capture.Length == MAX_CAPTURES
      && match step
         case Return(r) => Answers(Successes(src, pat, s, p, before), r, before, Caps())
         case Goto(s', p') =>
           && s <= s' <= |src| && p < p' <= |pat|
           && Caps() == before
           && Successes(src, pat, s, p, before) == Successes(src, pat, s', p', before)
    }

    ghost predicate Keeps(step: Step, p: nat, depth: int)
      reads this
    {
      match step
      case Goto(_, _) => matchdepth == depth
      case Return(r) => if r.Raised? then r == Raised(TooComplex) ==> depth < |pat| - p else matchdepth == depth
    }

    method OpenCase(s: nat, p: nat) returns (step: Step)
      requires Ready(s, p) && p < |pat| && pat[p] == Ch('(')
      modifies this, capture
      ensures Decides(step, s, p, old(Caps())) && Keeps(step, p, old(matchdepth))
      decreases |pat| - p, 2
    {
      var r;
      if CharAt(pat, p + 1) == Ch(')') {
        r := StartCapture(s, p + 2, CAP_POSITION);
      } else {
        r := StartCapture(s, p + 1, CAP_UNFINISHED);
      }
      return Return(r);
    }

    method CloseCase(s: nat, p: nat) returns (step: Step)
      requires Ready(s, p) && p < |pat| && pat[p] == Ch(')')
      modifies this, capture
      ensures Decides(step, s, p, old(Caps())) && Keeps(step, p, old(matchdepth))
      decreases |pat| - p, 2
    {
      var r := EndCapture(s, p + 1);
      return Return(r);
    }

    method BalanceCase(s: nat, p: nat) returns (step: Step)
      requires Ready(s, p) && p + 1 < |pat| && pat[p] == Ch('%') && pat[p + 1] == Ch('b')
      ensures Decides(step, s, p, Caps()) && Keeps(step, p, matchdepth)
    {
      var r := MatchBalance(s, p + 2);
      if r.End? {
        BalanceInRange(src, s + 1, 1, At(pat, p + 2), At(pat, p + 3));
        return Goto(r.pos, p + 4);
      }
      return Return(r);
    }

    method FrontierCase(s: nat, p: nat) returns (step: Step)
      requires Ready(s, p) && p + 1 < |pat| && pat[p] == Ch('%') && pat[p + 1] == Ch('f')
      ensures Decides(step, s, p, Caps()) && Keeps(step, p, matchdepth)
    {
      hide InBracket;
      if CharAt(pat, p + 2) != Ch('[') {
        return Return(Raised(MissingBracketAfterF));
      }
      var ce := FindClassEnd(pat, p + 2);
      if ce.Bad? {
        return Return(Raised(ce.error));
      }
      var ep := ce.pos;
      BracketHasRoom(pat, p + 2, ep);
      var previous := if s == 0 then 0 else CharAt(src, s - 1);
      var was := MatchBracketClass(pat, previous, p + 2, ep - 1);
      var now := MatchBracketClass(pat, CharAt(src, s), p + 2, ep - 1);
      if !was && now {
        return Goto(s, ep);
      }
      return Return(NoMatch);
    }

    method CaptureCase(s: nat, p: nat) returns (step: Step)
      requires Ready(s, p) && p + 1 < |pat| && pat[p] == Ch('%') && IsDigit(pat[p + 1])
      ensures Decides(step, s, p, Caps()) && Keeps(step, p, matchdepth)
    {
      var r := MatchCapture(s, pat[p + 1]);
      if r.End? {
        return Goto(r.pos, p + 2);
      }
      return Return(r);
    }

    /** An item marked `?` that matches: with it if possible, else without it. */
    method Optional(s: nat, p: nat, ep: nat) returns (step: Step)
      requires Ready(s, p) && s < |src| && p < ep < |pat|
      requires Successes(src, pat, s, p, Caps()) ==
               Successes(src, pat, s + 1, ep + 1, Caps()) + Successes(src, pat, s, ep + 1, Caps())
      modifies this, capture
      ensures Decides(step, s, p, old(Caps())) && Keeps(step, p, old(matchdepth))
      decreases |pat| - p, 1
    {
      hide Successes;
      ghost var before := Caps();
      var r := Match(s + 1, ep + 1);
      AnswersPrefix(Successes(src, pat, s + 1, ep + 1, before), Successes(src, pat, s, ep + 1, before), r, before,
        Caps());
      if r.NoMatch? {
        return Goto(s, ep + 1);
      }
      return Return(r);
    }

    /** A single-character item with its optional repetition suffix. */
    method DefaultCase(s: nat, p: nat) returns (step: Step)
      requires Ready(s, p) && p < |pat| && IsPlainItem(pat, p)
      modifies this, capture
      ensures Decides(step, s, p, old(Caps())) && Keeps(step, p, old(matchdepth))
      decreases |pat| - p, 2
    {
      hide Successes, Single, ItemEnd, EachCount, Run, Down, Up, IsPlainItem;
      ghost var before := Caps();
      PlainItem(src, pat, s, p, before);
      ItemEndInRange(pat, p);
      var ce := FindClassEnd(pat, p);
      if ce.Bad? {
        return Return(Raised(ce.error));
      }
      var ep := ce.pos;
      RepetitionCases(src, pat, s, p, ep, before);
      CharAtIsAt(pat, ep);
      var once := SingleMatch(s, p, ep);
      if !once {
        if CharAt(pat, ep) == Ch('*') || CharAt(pat, ep) == Ch('?') || CharAt(pat, ep) == Ch('-') {
          return Goto(s, ep + 1);
        }
        return Return(NoMatch);
      }
      if CharAt(pat, ep) == Ch('?') {
        step := Optional(s, p, ep);
      } else if CharAt(pat, ep) == Ch('+') {
        var r := MaxExpand(s + 1, p, ep);
        return Return(r);
      } else if CharAt(pat, ep) == Ch('*') {
        var r := MaxExpand(s, p, ep);
        return Return(r);
      } else if CharAt(pat, ep) == Ch('-') {
        var r := MinExpand(s, p, ep);
        return Return(r);
      } else {
        return Goto(s + 1, ep);
      }
    }

    method OneCase(s: nat, p: nat) returns (step: Step)
      requires Ready(s, p) && p < |pat|
      modifies this, capture
      ensures Decides(step, s, p, old(Caps())) && Keeps(step, p, old(matchdepth))
      decreases |pat| - p, 3, 0
    {
      hide Successes, Ready, Decides, Keeps, CharAt;
      var c := pat[p];
      var next := CharAt(pat, p + 1);
      CharAtIsAt(pat, p + 1);
      if c == Ch('(') {
        step := OpenCase(s, p);
      } else if c == Ch(')') {
        step := CloseCase(s, p);
      } else if c == Ch('$') && p + 1 == |pat| {
        step := EndCase(s, p);
      } else if c == Ch('%') && next == Ch('b') {
        step := BalanceCase(s, p);
      } else if c == Ch('%') && next == Ch('f') {
        step := FrontierCase(s, p);
      } else if c == Ch('%') && IsDigit(next) {
        step := CaptureCase(s, p);
      } else {
        step := DefaultCase(s, p);
      }
    }

    method EndCase(s: nat, p: nat) returns (step: Step)
      requires Ready(s, p) && p + 1 == |pat| && pat[p] == Ch('$')
      ensures Decides(step, s, p, Caps()) && Keeps(step, p, matchdepth)
    {
      return Return(if s == |src| then End(s) else NoMatch);
    }

    /** Matches `pat[start..]` at `src[from..]`: the first success, or the error met on the way to it. */
    method Match(from: nat, start: nat) returns (r: Result)
      requires Ready(from, start)
      modifies this, capture
      ensures level <= capture.Length == MAX_CAPTURES
      ensures Answers(Successes(src, pat, from, start, old(Caps())), r, old(Caps()), Caps())
      ensures !r.Raised? ==> matchdepth == old(matchdepth)
      ensures r == Raised(TooComplex) ==> old(matchdepth) <= |pat| - start
      decreases |pat| - start, 3, 1
    {
      if matchdepth == 0 {
        matchdepth := -1;
        return Raised(TooComplex);
      }
      matchdepth := matchdepth - 1;
      var s, p := from, start;
      ghost var before, depth := Caps(), matchdepth;
      while p != |pat|
        invariant start <= p <= |pat| && from <= s <= |src|
        invariant Ready(s, p) && Caps() == before && matchdepth == depth
        invariant Successes(src, pat, from, start, before) == Successes(src, pat, s, p, before)
        decreases |pat| - p
      {
        hide Successes;
        var step := OneCase(s, p);
        match step {
          case Return(res) =>
            if !res.Raised? {
              matchdepth := matchdepth + 1;
            }
            return res;
          case Goto(s', p') =>
            s, p := s', p';
        }
      }
      matchdepth := matchdepth + 1;
      return End(s);
    }
  }

  lemma CharAtIsAt(t: Text, i: nat)
    requires i <= |t|
    ensures CharAt(t, i) == At(t, i)
    ensures CharAt(t, i) != 0 ==> i < |t|
  {
  }

  lemma ItemEndInRange(pat: Text, p: nat)
    requires p < |pat|
    ensures var r := ItemEnd(pat, p); if r.EndsAt? then p < r.pos <= |pat| else r.error != TooComplex
  {
  }

  lemma BalanceInRange(src: Text, i: nat, depth: nat, open: byte, close: byte)
    ensures Balance(src, i, depth, open, close).Some? ==> i < Balance(src, i, depth, open, close).value <= |src|
    decreases |src| - i
  {
  }

  /** Neither a capture, nor a final `$`, nor one of the escapes with a meaning of their own. */
  predicate IsPlainItem(pat: Text, p: nat)
    requires p < |pat|
  {
    && pat[p] != Ch('(') && pat[p] != Ch(')')
    && !(pat[p] == Ch('$') && p + 1 == |pat|)
    && !(pat[p] == Ch('%') && (At(pat, p + 1) == Ch('b') || At(pat, p + 1) == Ch('f') || IsDigit(At(pat, p + 1))))
  }

  lemma PlainItem(src: Text, pat: Text, s: nat, p: nat, caps: seq<Capture>)
    requires p < |pat| && IsPlainItem(pat, p)
    ensures Successes(src, pat, s, p, caps) ==
      match ItemEnd(pat, p)
      case Bad(e) => [Malformed(e)]
      case EndsAt(ep) =>
        EachCount(src, pat, s, Counts(At(pat, ep), Run(src, pat, s, p, ep)),
                  if IsSuffix(At(pat, ep)) then ep + 1 else ep, caps)
  {
  }

  /** The successes of a repeated item by its suffix and by whether it matches at all. */
  lemma RepetitionCases(src: Text, pat: Text, s: nat, p: nat, ep: nat, caps: seq<Capture>)
    requires p < ep <= |pat| && IsPlainItem(pat, p) && ItemEnd(pat, p) == EndsAt(ep)
    ensures
      var list, c, n := Successes(src, pat, s, p, caps), At(pat, ep), Run(src, pat, s, p, ep);
      && (ep == |pat| ==> !IsSuffix(c)) && (Single(src, pat, s, p, ep) ==> s < |src|)
      && if !Single(src, pat, s, p, ep) then
           list == if c == Ch('*') || c == Ch('?') || c == Ch('-') then Successes(src, pat, s, ep + 1, caps) else []
         else if c == Ch('?') then
           list == Successes(src, pat, s + 1, ep + 1, caps) + Successes(src, pat, s, ep + 1, caps)
         else if c == Ch('+') then
           list == EachCount(src, pat, s + 1, Down(Run(src, pat, s + 1, p, ep), 0), ep + 1, caps)
         else if c == Ch('*') then list == EachCount(src, pat, s, Down(n, 0), ep + 1, caps)
         else if c == Ch('-') then list == EachCount(src, pat, s, Up(0, n), ep + 1, caps)
         else list == Successes(src, pat, s + 1, ep, caps)
  {
    hide Successes, ItemEnd, IsPlainItem, EachCount, InBracket, MatchClass;
    PlainItem(src, pat, s, p, caps);
    OneOrTwoCounts(src, pat, s, if IsSuffix(At(pat, ep)) then ep + 1 else ep, caps);
    if Single(src, pat, s, p, ep) {
      CountFromNext(src, pat, s, Run(src, pat, s + 1, p, ep), ep + 1, caps);
    } else {
      assert Down(0, 0) == [0] && Up(0, 0) == [0] && Down(0, 1) == [];
      NoCounts(src, pat, s, if IsSuffix(At(pat, ep)) then ep + 1 else ep, caps);
    }
  }

  lemma NoCounts(src: Text, pat: Text, s: nat, p: nat, caps: seq<Capture>)
    ensures EachCount(src, pat, s, [], p, caps) == []
  {
  }

  lemma BracketHasRoom(pat: Text, p: nat, ep: nat)
    requires p < |pat| && pat[p] == Ch('[') && ItemEnd(pat, p) == EndsAt(ep)
    ensures p < ep - 1 < |pat|
  {
  }
}
