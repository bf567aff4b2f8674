/** The string operations built on the matcher: leftmost search, iteration and substitution. */
module PatternUse {
  import opened Options
  import opened PatternSpec
  import opened PatternMatcher

  const MAXDEPTH: nat := 200

  /** The head of a list of successes. */
  datatype First = Nothing | Found(end: nat, captures: seq<Capture>) | Fails(error: Error)

  function FirstOf(list: seq<Outcome>): First {
    if list == [] then Nothing
    else match list[0]
      case Match(e, caps) => Found(e, caps)
      case Malformed(err) => Fails(err)
  }

  function FirstAt(src: Text, pat: Text, s: nat): First {
    FirstOf(Successes(src, pat, s, 0, []))
  }

  // ----- general laws of the list of successes -----

  ghost predicate Inside(list: seq<Outcome>, s: nat, limit: nat) {
    forall o :: o in list && o.Match? ==> s <= o.end <= limit && CapturesOk(o.captures, o.end)
  }

  lemma InsideWeakens(list: seq<Outcome>, s: nat, s': nat, limit: nat)
    requires s <= s' && Inside(list, s', limit)
    ensures Inside(list, s, limit)
  {
  }

  lemma CapturesStayOk(caps: seq<Capture>, s: nat, s': nat)
    requires s <= s' && CapturesOk(caps, s)
    ensures CapturesOk(caps, s')
  {
  }

  lemma CloseStaysOk(caps: seq<Capture>, l: nat, s: nat)
    requires CapturesOk(caps, s) && l < |caps|
    ensures CapturesOk(caps[l := Capture(caps[l].init, s - caps[l].init)], s)
  {
  }

  /** Every match ends between where it starts and the end of the subject, with captures inside it. */
  lemma {:induction false} SuccessesInside(src: Text, pat: Text, s: nat, p: nat, caps: seq<Capture>)
    requires s <= |src| && CapturesOk(caps, s)
    ensures Inside(Successes(src, pat, s, p, caps), s, |src|)
    decreases |pat| - p, 1, 0
  {
    hide Inside, InBracket, Members, ItemEnd, Frontier, MatchClass;
    if p >= |pat| {
      SingleInside(s, caps, |src|);
    } else if pat[p] == Ch('(') {
      var open := if At(pat, p + 1) == Ch(')') then Capture(s, CAP_POSITION) else Capture(s, CAP_UNFINISHED);
      SuccessesInside(src, pat, s, if At(pat, p + 1) == Ch(')') then p + 2 else p + 1, caps + [open]);
      NoneInside(s, |src|, TooManyCaptures);
    } else if pat[p] == Ch(')') {
      var l := LastUnfinished(caps);
      NoneInside(s, |src|, InvalidPatternCapture);
      if l >= 0 {
        CloseStaysOk(caps, l, s);
        SuccessesInside(src, pat, s, p + 1, caps[l := Capture(caps[l].init, s - caps[l].init)]);
      }
    } else if pat[p] == Ch('$') && p + 1 == |pat| {
      SingleInside(s, caps, |src|);
      NoneInside(s, |src|, TooComplex);
    } else if IsPlainItem(pat, p) {
      PlainItem(src, pat, s, p, caps);
      ItemEndInRange(pat, p);
      match ItemEnd(pat, p) {
        case Bad(e) => NoneInside(s, |src|, e);
        case EndsAt(ep) =>
          CountsWithin(At(pat, ep), Run(src, pat, s, p, ep));
          EachCountInside(src, pat, s, Counts(At(pat, ep), Run(src, pat, s, p, ep)),
                          if IsSuffix(At(pat, ep)) then ep + 1 else ep, caps, Run(src, pat, s, p, ep));
      }
    } else {
      EscapesInside(src, pat, s, p, caps);
    }
  }

  lemma {:induction false} EscapesInside(src: Text, pat: Text, s: nat, p: nat, caps: seq<Capture>)
    requires s <= |src| && CapturesOk(caps, s)
    requires p < |pat| && pat[p] == Ch('%') && !IsPlainItem(pat, p)
    ensures Inside(Successes(src, pat, s, p, caps), s, |src|)
    decreases |pat| - p, 0
  {
    hide Inside, InBracket, Members, Frontier, MatchClass;
    NoneInside(s, |src|, MissingArgumentsToB);
    NoneInside(s, |src|, MissingBracketAfterF);
    if At(pat, p + 1) == Ch('b') {
      if p + 3 < |pat| {
        var b := Balance(src, s + 1, 1, At(pat, p + 2), At(pat, p + 3));
        BalanceInRange(src, s + 1, 1, At(pat, p + 2), At(pat, p + 3));
        if b.Some? {
          CapturesStayOk(caps, s, b.value);
          SuccessesInside(src, pat, b.value, p + 4, caps);
          InsideWeakens(Successes(src, pat, b.value, p + 4, caps), s, b.value, |src|);
        }
      }
    } else if At(pat, p + 1) == Ch('f') {
      if p + 2 < |pat| {
        match ItemEnd(pat, p + 2) {
          case Bad(e) => NoneInside(s, |src|, e);
          case EndsAt(ep) => SuccessesInside(src, pat, s, ep, caps);
        }
      }
    } else {
      var l := At(pat, p + 1) - Ch('1');
      NoneInside(s, |src|, InvalidCaptureIndex(l + 1));
      if ValidIndex(caps, l) && Recurs(src, s, caps[l]) {
        CapturesStayOk(caps, s, s + caps[l].len);
        SuccessesInside(src, pat, s + caps[l].len, p + 2, caps);
        InsideWeakens(Successes(src, pat, s + caps[l].len, p + 2, caps), s, s + caps[l].len, |src|);
      }
    }
  }

  lemma SingleInside(s: nat, caps: seq<Capture>, limit: nat)
    requires s <= limit && CapturesOk(caps, s)
    ensures Inside([Match(s, caps)], s, limit)
  {
  }

  lemma NoneInside(s: nat, limit: nat, e: Error)
    ensures Inside([], s, limit) && Inside([Malformed(e)], s, limit)
  {
  }

  lemma ConcatInside(a: seq<Outcome>, b: seq<Outcome>, s: nat, limit: nat)
    requires Inside(a, s, limit) && Inside(b, s, limit)
    ensures Inside(a + b, s, limit)
  {
  }

  lemma {:induction false} EachCountInside(
    src: Text, pat: Text, s: nat, counts: seq<nat>, p: nat, caps: seq<Capture>, n: nat
  )
    requires s + n <= |src| && CapturesOk(caps, s)
    requires forall c :: c in counts ==> c <= n
    ensures Inside(EachCount(src, pat, s, counts, p, caps), s, |src|)
    decreases |pat| - p, 2, |counts|
  {
    hide Inside, Successes;
    if counts == [] {
      NoneInside(s, |src|, TooComplex);
    } else {
      assert counts[0] in counts && forall c :: c in counts[1..] ==> c in counts;
      CapturesStayOk(caps, s, s + counts[0]);
      SuccessesInside(src, pat, s + counts[0], p, caps);
      InsideWeakens(Successes(src, pat, s + counts[0], p, caps), s, s + counts[0], |src|);
      EachCountInside(src, pat, s, counts[1..], p, caps, n);
      ConcatInside(Successes(src, pat, s + counts[0], p, caps), EachCount(src, pat, s, counts[1..], p, caps), s, |src|);
    }
  }

  lemma {:induction false} DownContents(hi: int, lo: nat)
    ensures |Down(hi, lo)| == if hi < lo then 0 else hi - lo + 1
    ensures forall i :: 0 <= i < |Down(hi, lo)| ==> Down(hi, lo)[i] == hi - i
    decreases hi - lo + 1
  {
    if hi >= lo {
      DownContents(hi - 1, lo);
      assert Down(hi, lo) == [hi] + Down(hi - 1, lo);
    }
  }

  lemma {:induction false} UpContents(lo: nat, hi: nat)
    requires lo <= hi
    ensures |Up(lo, hi)| == hi - lo + 1
    ensures forall i :: 0 <= i < |Up(lo, hi)| ==> Up(lo, hi)[i] == lo + i
    decreases hi - lo
  {
    if lo < hi {
      UpContents(lo + 1, hi);
      assert Up(lo, hi) == [lo] + Up(lo + 1, hi);
    }
  }

  /** A suffix never asks for more repetitions than the subject offers. */
  lemma CountsWithin(suffix: byte, n: nat)
    ensures forall c :: c in Counts(suffix, n) ==> c <= n
  {
    DownContents(n, 0);
    DownContents(n, 1);
    UpContents(0, n);
  }

  /** Whatever follows, the first success uses the first admissible count that leads to one:
      with `Down` the longest repetition, with `Up` the shortest. */
  lemma {:induction false} FirstCountWins(
    src: Text, pat: Text, s: nat, counts: seq<nat>, p: nat, caps: seq<Capture>
  ) returns (i: nat)
    requires EachCount(src, pat, s, counts, p, caps) != []
    ensures i < |counts|
    ensures Successes(src, pat, s + counts[i], p, caps) != []
    ensures EachCount(src, pat, s, counts, p, caps)[0] == Successes(src, pat, s + counts[i], p, caps)[0]
    ensures forall j :: 0 <= j < i ==> Successes(src, pat, s + counts[j], p, caps) == []
    decreases |counts|
  {
    hide Successes;
    if Successes(src, pat, s + counts[0], p, caps) != [] {
      i := 0;
    } else {
      i := FirstCountWins(src, pat, s, counts[1..], p, caps);
      i := i + 1;
    }
  }

  /** `x*` and `x+` take the largest repetition count under which the rest can match at all. */
  lemma GreedyIsLongest(src: Text, pat: Text, s: nat, n: nat, lo: nat, p: nat, caps: seq<Capture>) returns (k: nat)
    requires EachCount(src, pat, s, Down(n, lo), p, caps) != []
    ensures lo <= k <= n && Successes(src, pat, s + k, p, caps) != []
    ensures EachCount(src, pat, s, Down(n, lo), p, caps)[0] == Successes(src, pat, s + k, p, caps)[0]
    ensures forall t: nat :: s + k < t <= s + n ==> Successes(src, pat, t, p, caps) == []
  {
    hide Successes;
    var i := FirstCountWins(src, pat, s, Down(n, lo), p, caps);
    DownContents(n, lo);
    k := Down(n, lo)[i];
    forall t: nat | s + k < t <= s + n ensures Successes(src, pat, t, p, caps) == [] {
      assert Down(n, lo)[n - (t - s)] == t - s;
    }
  }

  /** `x-` takes the smallest repetition count under which the rest can match at all. */
  lemma LazyIsShortest(src: Text, pat: Text, s: nat, n: nat, p: nat, caps: seq<Capture>) returns (k: nat)
    requires EachCount(src, pat, s, Up(0, n), p, caps) != []
    ensures k <= n && Successes(src, pat, s + k, p, caps) != []
    ensures EachCount(src, pat, s, Up(0, n), p, caps)[0] == Successes(src, pat, s + k, p, caps)[0]
    ensures forall t: nat :: s <= t < s + k ==> Successes(src, pat, t, p, caps) == []
  {
    hide Successes;
    var i := FirstCountWins(src, pat, s, Up(0, n), p, caps);
    UpContents(0, n);
    k := Up(0, n)[i];
    forall t: nat | s <= t < s + k ensures Successes(src, pat, t, p, caps) == [] {
      assert Up(0, n)[t - s] == t - s;
    }
  }

  // ----- trying one position -----

  /** The matcher's answer at `s` is the head of the list of successes; only very long patterns are too complex. */
  ghost predicate Says(r: Result, first: First, captures: seq<Capture>, pat: Text) {
    match r
    case NoMatch => first == Nothing
    case End(e) => first == Found(e, captures)
    case Raised(err) => first == Fails(err) || (err == TooComplex && |pat| >= MAXDEPTH)
  }

  method TryAt(ms: MatchState, s: nat) returns (r: Result)
    requires ms.Valid() && ms.matchdepth == MAXDEPTH && s <= |ms.src|
    modifies ms, ms.capture
    ensures ms.level <= ms.capture.Length
    ensures Says(r, FirstAt(ms.src, ms.pat, s), ms.Caps(), ms.pat)
    ensures !r.Raised? ==> ms.Valid() && ms.matchdepth == MAXDEPTH
    ensures r.End? ==> s <= r.pos <= |ms.src| && CapturesOk(ms.Caps(), r.pos)
  {
    hide Successes;
    ms.level := 0;
    assert ms.Caps() == [];
    SuccessesInside(ms.src, ms.pat, s, 0, []);
    r := ms.Match(s, 0);
    if r.End? {
      assert Successes(ms.src, ms.pat, s, 0, [])[0] in Successes(ms.src, ms.pat, s, 0, []);
    }
  }

  // ----- searching -----

  datatype FindResult = NotFound | FoundAt(start: nat, end: nat, captures: seq<Capture>) | FindError(error: Error)

  predicate Anchored(pattern: Text) {
    pattern != [] && pattern[0] == Ch('^')
  }

  function Body(pattern: Text): Text {
    if Anchored(pattern) then pattern[1..] else pattern
  }

  /** A start position given by the user: negative counts back from the end, out of range at the front means 0. */
  function StartPosition(pos: int, len: nat): nat {
    if pos >= 0 then pos else if -pos > len then 0 else len + pos
  }

  /** It counts from the front, or for a negative number from the end, but not beyond the front. */
  lemma StartPositionMeans(k: nat, len: nat)
    ensures StartPosition(k, len) == k
    ensures 0 < k <= len ==> StartPosition(0 - k, len) + k == len
    ensures k > len ==> StartPosition(0 - k, len) == 0
  {
  }

  /** Reports the leftmost position with a match, and the first success there. */
  method FindMatch(src: Text, pattern: Text, pos: int) returns (r: FindResult)
    ensures
      var pat, init := Body(pattern), StartPosition(pos, |src|);
      match r
      case FoundAt(start, end, captures) =>
        && init <= start <= end <= |src| && (Anchored(pattern) ==> start == init)
        && FirstAt(src, pat, start) == Found(end, captures)
        && forall t: nat :: init <= t < start ==> FirstAt(src, pat, t) == Nothing
      case NotFound =>
        forall t: nat :: init <= t <= |src| && (Anchored(pattern) ==> t == init) ==> FirstAt(src, pat, t) == Nothing
      case FindError(e) =>
        || (e == TooComplex && |pat| >= MAXDEPTH)
        || exists t: nat :: init <= t <= |src| && FirstAt(src, pat, t) == Fails(e)
  {
    hide FirstAt;
    var s1 := StartPosition(pos, |src|);
    ghost var init := s1;
    if s1 > |src| {
      return NotFound;
    }
    var ms := new MatchState(src, Body(pattern), MAXDEPTH);
    while true
      invariant init <= s1 <= |src| && (Anchored(pattern) ==> s1 == init)
      invariant ms.Valid() && ms.matchdepth == MAXDEPTH && ms.src == src && ms.pat == Body(pattern)
      invariant fresh(ms) && fresh(ms.capture)
      invariant forall t: nat :: init <= t < s1 ==> FirstAt(src, Body(pattern), t) == Nothing
      decreases |src| - s1
    {
      var m := TryAt(ms, s1);
      match m {
        case Raised(e) => return FindError(e);
        case End(e) => return FoundAt(s1, e, ms.capture[..ms.level]);
        case NoMatch =>
      }
      if s1 == |src| || Anchored(pattern) {
        return NotFound;
      }
      s1 := s1 + 1;
    }
  }

  // ----- iterating over all matches -----

  datatype Hit = Hit(start: nat, end: nat, captures: seq<Capture>) | Broken(error: Error)

  /** The matches an iteration from `from` on yields: leftmost first, never overlapping. */
  function Upcoming(src: Text, pat: Text, from: nat): seq<Hit>
    decreases |src| + 1 - from
  {
    if from > |src| then []
    else
      match FirstAt(src, pat, from)
      case Nothing => Upcoming(src, pat, from + 1)
      case Fails(e) => [Broken(e)]
      case Found(e, caps) => [Hit(from, e, caps)] + Upcoming(src, pat, if e > from then e else from + 1)
  }

  /** `s` is the first place from `from` on where the pattern does not fail to match. */
  ghost predicate Leftmost(src: Text, pat: Text, from: nat, s: nat) {
    from <= s && forall t: nat :: from <= t < s ==> FirstAt(src, pat, t) == Nothing
  }

  /** Each hit is the first success at the leftmost place, and the next one is looked for behind it, a character further
      on if it is empty; nothing is left out. */
  lemma {:induction false} UpcomingMeans(src: Text, pat: Text, from: nat)
    ensures
      var hits := Upcoming(src, pat, from);
      if hits == [] then forall t: nat :: from <= t <= |src| ==> FirstAt(src, pat, t) == Nothing
      else if hits[0].Hit? then
        var s, e := hits[0].start, hits[0].end;
        && Leftmost(src, pat, from, s) && s <= |src| && FirstAt(src, pat, s) == Found(e, hits[0].captures)
        && hits[1..] == Upcoming(src, pat, if e > s then e else s + 1)
      else |hits| == 1 && exists s :: Leftmost(src, pat, from, s) && FirstAt(src, pat, s) == Fails(hits[0].error)
    decreases |src| + 1 - from
  {
    hide FirstAt;
    if from <= |src| {
      var first := FirstAt(src, pat, from);
      if first.Nothing? {
        UpcomingMeans(src, pat, from + 1);
        var hits := Upcoming(src, pat, from + 1);
        if hits != [] && !hits[0].Hit? {
          var s :| Leftmost(src, pat, from + 1, s) && FirstAt(src, pat, s) == Fails(hits[0].error);
          assert Leftmost(src, pat, from, s);
        }
      } else {
        assert Leftmost(src, pat, from, from);
        if first.Found? {
          var next := if first.end > from then first.end else from + 1;
          assert Upcoming(src, pat, from) == [Hit(from, first.end, first.captures)] + Upcoming(src, pat, next);
        }
      }
    }
  }

  datatype NextHit = Yield(hit: Hit) | Completed | IterError(error: Error)

  class GmatchIterator {
    const src: Text
    const pat: Text
    var offset: int  // -1 when done, -2 after an error
    var cachedNext: Option<Hit>

    ghost predicate Valid()
      reads this
    {
      -2 <= offset && (offset < 0 ==> cachedNext == None)
    }

    /** The hits still to be handed out. */
    ghost function Remaining(): seq<Hit>
      reads this
      requires Valid()
    {
      (if cachedNext.Some? then [cachedNext.value] else []) + (if offset >= 0 then Upcoming(src, pat, offset) else [])
    }

    constructor (src: Text, pat: Text)
      ensures Valid() && this.src == src && this.pat == pat && Remaining() == Upcoming(src, pat, 0)
    {
      this.src, this.pat := src, pat;
      offset, cachedNext := 0, None;
    }

    /** Finds the next hit from `offset` and moves past it; an empty one advances by one character. */
    method GetNext() returns (r: NextHit)
      requires Valid() && offset >= 0 && cachedNext == None
      modifies this
      ensures Valid() && cachedNext == None
      ensures
        var all := old(Upcoming(src, pat, offset));
        match r
        case Yield(hit) => hit.Hit? && offset >= 0 && all == [hit] + Upcoming(src, pat, offset)
        case Completed => all == [] && offset == -1
        case IterError(e) =>
          offset == -2 && ((all != [] && all[0] == Broken(e)) || (e == TooComplex && |pat| >= MAXDEPTH))
    {
      hide FirstAt;
      var ms := new MatchState(src, pat, MAXDEPTH);
      ghost var all := Upcoming(src, pat, offset);
      var s: nat := offset;
      while s <= |src|
        invariant ms.Valid() && ms.matchdepth == MAXDEPTH && ms.src == src && ms.pat == pat
        invariant fresh(ms) && fresh(ms.capture)
        invariant cachedNext == None && all == Upcoming(src, pat, s)
        decreases |src| + 1 - s
      {
        var m := TryAt(ms, s);
        match m {
          case Raised(e) =>
            offset := -2;
            return IterError(e);
          case End(e) =>
            offset := if e == s then e + 1 else e;
            return Yield(Hit(s, e, ms.capture[..ms.level]));
          case NoMatch =>
        }
        s := s + 1;
      }
      offset := -1;
      return Completed;
    }

    /** Says whether a hit remains, without consuming it. */
    method HasNext() returns (more: bool, error: Option<Error>)
      requires Valid()
      modifies this
      ensures Valid()
      ensures error == None ==> Remaining() == old(Remaining()) && (more <==> Remaining() != [])
      ensures error.Some? ==> !more && Remaining() == []
      ensures error.Some? ==>
                || (error.value == TooComplex && |pat| >= MAXDEPTH)
                || (old(Remaining()) != [] && old(Remaining())[0] == Broken(error.value))
    {
      if offset < 0 {
        return false, None;
      }
      if cachedNext.Some? {
        return true, None;
      }
      var r := GetNext();
      match r {
        case Yield(hit) =>
          cachedNext := Some(hit);
          return true, None;
        case Completed =>
          return false, None;
        case IterError(e) =>
          return false, Some(e);
      }
    }

    /** Hands out the next hit; asking again after the last one, or after an error, is itself an error. */
    method Next() returns (r: NextHit)
      requires Valid()
      modifies this
      ensures Valid()
      ensures
        match r
        case Yield(hit) => old(Remaining()) == [hit] + Remaining()
        case Completed => old(Remaining()) == [] == Remaining()
        case IterError(e) =>
          && Remaining() == []
          && ((e == TooComplex && |pat| >= MAXDEPTH) || (old(Remaining()) != [] && old(Remaining())[0] == Broken(e)))
    {
      if offset < 0 {
        return Completed;
      }
      if cachedNext.Some? {
        r := Yield(cachedNext.value);
        cachedNext := None;
        return;
      }
      r := GetNext();
    }
  }
}
