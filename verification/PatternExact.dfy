/** The list of successes holds exactly the matches that the parts of a pattern describe. */
module PatternExact {
  import opened Options
  import opened PatternSpec
  import opened PatternMatcher
  import opened PatternUse
  import opened PatternMeaning

  // ----- one element, if the rest is exact -----

  lemma NothingLeft(src: Text, pat: Text, s: nat, p: nat, atEnd: bool, caps: seq<Capture>)
    requires Reads(pat, p, [], atEnd)
    ensures Exact(Successes(src, pat, s, p, caps), src, s, [], atEnd, caps)
  {
    assert pat[p..] == if atEnd then [36] else [];
    assert atEnd ==> pat[p..][0] == pat[p];
  }

  lemma OpenExact(src: Text, pat: Text, s: nat, p: nat, es: seq<Element>, atEnd: bool, caps: seq<Capture>)
    requires es != [] && (es[0].Open? || es[0].Here?) && Reads(pat, p, es, atEnd)
    requires
      var wider := caps + [Capture(s, if es[0].Open? then CAP_UNFINISHED else CAP_POSITION)];
      Exact(Successes(src, pat, s, p + |ElementText(es[0])|, wider), src, s, es[1..], atEnd, wider)
    ensures Exact(Successes(src, pat, s, p, caps), src, s, es, atEnd, caps)
  {
    hide PatternText;
    var w := ElementText(es[0]);
    ReadsFirst(pat, p, es, atEnd);
    CharWritten(pat, p, w, 0);
    if es[0].Here? {
      CharWritten(pat, p, w, 1);
    } else {
      NextStarts(pat, p + 1, es[1..], atEnd);
      assert |es| > 1 ==> es[1..][0] == es[1];
    }
    assert Successes(src, pat, s, p, caps) ==
      AfterOpen(src, pat, s, p + |w|, caps, if es[0].Open? then CAP_UNFINISHED else CAP_POSITION);
  }

  lemma InnermostIs(caps: seq<Capture>, l: nat)
    ensures Innermost(caps, l) <==> LastUnfinished(caps) == l
  {
    NoneLaterIsOpen(caps);
  }

  lemma {:induction false} NoneLaterIsOpen(caps: seq<Capture>)
    ensures forall j :: LastUnfinished(caps) < j < |caps| ==> caps[j].len != CAP_UNFINISHED
  {
    if caps != [] && caps[|caps| - 1].len != CAP_UNFINISHED {
      NoneLaterIsOpen(caps[..|caps| - 1]);
      assert forall j :: 0 <= j < |caps| - 1 ==> caps[..|caps| - 1][j] == caps[j];
    }
  }

  lemma CloseExact(src: Text, pat: Text, s: nat, p: nat, es: seq<Element>, atEnd: bool, caps: seq<Capture>)
    requires es != [] && es[0].Close? && Reads(pat, p, es, atEnd) && CapturesOk(caps, s)
    requires
      var l := LastUnfinished(caps);
      l >= 0 && caps[l].init <= s ==>
        var closed := caps[l := Capture(caps[l].init, s - caps[l].init)];
        Exact(Successes(src, pat, s, p + 1, closed), src, s, es[1..], atEnd, closed)
    ensures Exact(Successes(src, pat, s, p, caps), src, s, es, atEnd, caps)
  {
    hide PatternText, Successes, Matches, LastUnfinished;
    ReadsFirst(pat, p, es, atEnd);
    CharWritten(pat, p, ElementText(es[0]), 0);
    CloseStep(src, pat, s, p, caps);
    forall e: nat, out
      ensures Match(e, out) in Successes(src, pat, s, p, caps) <==> Matches(src, s, es, atEnd, caps, e, out)
    {
      CloseMatches(src, s, es, atEnd, caps, e, out);
    }
  }

  lemma CloseMatches(
    src: Text, s: nat, es: seq<Element>, atEnd: bool, caps: seq<Capture>, e: nat, out: seq<Capture>
  )
    requires es != [] && es[0].Close? && CapturesOk(caps, s)
    ensures
      var l := LastUnfinished(caps);
      Matches(src, s, es, atEnd, caps, e, out) <==>
        l >= 0 && Matches(src, s, es[1..], atEnd, caps[l := Capture(caps[l].init, s - caps[l].init)], e, out)
  {
    hide Innermost, LastUnfinished;
    var last := LastUnfinished(caps);
    forall l: nat ensures Innermost(caps, l) <==> last == l {
      InnermostIs(caps, l);
    }
  }

  lemma CloseStep(src: Text, pat: Text, s: nat, p: nat, caps: seq<Capture>)
    requires p < |pat| && pat[p] == 41
    ensures
      var l := LastUnfinished(caps);
      Successes(src, pat, s, p, caps) ==
        if l < 0 then [Malformed(InvalidPatternCapture)]
        else Successes(src, pat, s, p + 1, caps[l := Capture(caps[l].init, s - caps[l].init)])
  {
  }

  lemma BalancedIs(src: Text, s: nat, x: byte, y: byte, t: nat)
    ensures BalancedTo(src, s, x, y, t) <==> s < |src| && src[s] == x && Balance(src, s + 1, 1, x, y) == Some(t)
  {
    hide ClosedAt, PastFirst, Balance;
    if x == y {
      BalanceOfOne(src, s + 1, x);
    } else if s < |src| {
      BalanceIff(src, s + 1, 1, x, y);
    }
  }

  lemma BalancedExact(src: Text, pat: Text, s: nat, p: nat, es: seq<Element>, atEnd: bool, caps: seq<Capture>)
    requires es != [] && es[0].Balanced? && Reads(pat, p, es, atEnd) && s <= |src|
    requires ExactAfter(src, pat, s, p + 4, es[1..], atEnd, caps)
    ensures Exact(Successes(src, pat, s, p, caps), src, s, es, atEnd, caps)
  {
    hide PatternText, BalancedTo, Balance;
    var x, y, w := es[0].x, es[0].y, ElementText(es[0]);
    ReadsFirst(pat, p, es, atEnd);
    CharWritten(pat, p, w, 0);
    CharWritten(pat, p, w, 1);
    CharWritten(pat, p, w, 2);
    CharWritten(pat, p, w, 3);
    BalanceStep(src, pat, s, p, caps);
    BalanceInRange(src, s + 1, 1, x, y);
    forall t: nat
      ensures BalancedTo(src, s, x, y, t) <==> s < |src| && src[s] == x && Balance(src, s + 1, 1, x, y) == Some(t)
    {
      BalancedIs(src, s, x, y, t);
    }
    NoBalanceAtEnd(src, s, x, y);
    hide Successes;
  }

  lemma NoBalanceAtEnd(src: Text, s: nat, x: byte, y: byte)
    ensures s >= |src| ==> Balance(src, s + 1, 1, x, y) == None
  {
  }

  lemma BalanceStep(src: Text, pat: Text, s: nat, p: nat, caps: seq<Capture>)
    requires p + 3 < |pat| && pat[p] == 37 && pat[p + 1] == 98
    ensures
      var b := Balance(src, s + 1, 1, pat[p + 2], pat[p + 3]);
      Successes(src, pat, s, p, caps) ==
        if At(src, s) != pat[p + 2] || b.None? then [] else Successes(src, pat, b.value, p + 4, caps)
  {
    hide Balance;
  }

  lemma BorderExact(src: Text, pat: Text, s: nat, p: nat, es: seq<Element>, atEnd: bool, caps: seq<Capture>)
    requires es != [] && es[0].Border? && Reads(pat, p, es, atEnd)
    requires Exact(Successes(src, pat, s, p + |ElementText(es[0])|, caps), src, s, es[1..], atEnd, caps)
    ensures Exact(Successes(src, pat, s, p, caps), src, s, es, atEnd, caps)
  {
    hide PatternText, SetText, SetHas, InBracket, SetOk, Written, BracketEnd, Exact, Successes, Frontier;
    var parts, complement := es[0].parts, es[0].complement;
    var w := SetText(parts, complement);
    ReadsFirst(pat, p, es, atEnd);
    CharWritten(pat, p, ElementText(es[0]), 0);
    CharWritten(pat, p, ElementText(es[0]), 1);
    WrittenAt(pat, p, [37, 102], w);
    SetStarts(parts, complement);
    CharWritten(pat, p + 2, w, 0);
    SetMeans(pat, p + 2, parts, complement);
    BorderStep(src, pat, s, p, caps);
    BorderFromParts(src, pat, s, p, es, atEnd, caps);
  }

  lemma BorderFromParts(src: Text, pat: Text, s: nat, p: nat, es: seq<Element>, atEnd: bool, caps: seq<Capture>)
    requires es != [] && es[0].Border?
    requires
      var ep := p + |ElementText(es[0])|;
      && Exact(Successes(src, pat, s, ep, caps), src, s, es[1..], atEnd, caps)
      && Successes(src, pat, s, p, caps) ==
           (if Frontier(src, pat, s, p + 2, ep) then Successes(src, pat, s, ep, caps) else [])
      && ep > 0
      && forall c: byte :: InBracket(pat, c, p + 2, ep - 1) <==> SetHas(es[0].parts, es[0].complement, c)
    ensures Exact(Successes(src, pat, s, p, caps), src, s, es, atEnd, caps)
  {
    hide Successes, ElementText, SetHas, InBracket;
  }

  lemma BorderStep(src: Text, pat: Text, s: nat, p: nat, caps: seq<Capture>)
    requires p + 2 < |pat| && pat[p] == 37 && pat[p + 1] == 102 && pat[p + 2] == 91 && ItemEnd(pat, p + 2).EndsAt?
    ensures
      var ep := ItemEnd(pat, p + 2).pos;
      Successes(src, pat, s, p, caps) ==
        if Frontier(src, pat, s, p + 2, ep) then Successes(src, pat, s, ep, caps) else []
  {
    hide Frontier, ItemEnd;
  }

  lemma RecursIs(src: Text, s: nat, c: Capture)
    ensures Recurs(src, s, c) <==> Repeated(src, s, c)
  {
    if c.len >= 0 && c.init + c.len <= |src| && s + c.len <= |src| {
      var a, b := src[s..s + c.len], src[c.init..c.init + c.len];
      if Repeated(src, s, c) {
        forall i | 0 <= i < c.len ensures a[i] == b[i] {
          assert src[c.init + i] == b[i];
        }
      }
      if Recurs(src, s, c) {
        forall i | c.init <= i < c.init + c.len ensures src[i] == src[s + i - c.init] {
          assert a[i - c.init] == b[i - c.init];
        }
      }
    }
  }

  lemma AgainExact(src: Text, pat: Text, s: nat, p: nat, es: seq<Element>, atEnd: bool, caps: seq<Capture>)
    requires es != [] && es[0].Again? && Reads(pat, p, es, atEnd)
    requires
      var k := es[0].k;
      1 <= k <= |caps| && Repeated(src, s, caps[k - 1]) ==>
        Exact(Successes(src, pat, s + caps[k - 1].len, p + 2, caps), src, s + caps[k - 1].len, es[1..], atEnd, caps)
    ensures Exact(Successes(src, pat, s, p, caps), src, s, es, atEnd, caps)
  {
    hide PatternText, Repeated, Recurs;
    var k := es[0].k;
    ReadsFirst(pat, p, es, atEnd);
    CharWritten(pat, p, ElementText(es[0]), 0);
    CharWritten(pat, p, ElementText(es[0]), 1);
    if 1 <= k <= |caps| {
      RecursIs(src, s, caps[k - 1]);
      RepeatedIsClosed(src, s, caps[k - 1]);
    }
    AgainStep(src, pat, s, p, caps, k);
    hide Successes;
  }

  lemma RepeatedIsClosed(src: Text, s: nat, c: Capture)
    ensures Repeated(src, s, c) ==> c.len >= 0
  {
  }

  lemma AgainStep(src: Text, pat: Text, s: nat, p: nat, caps: seq<Capture>, k: nat)
    requires p + 1 < |pat| && pat[p] == 37 && pat[p + 1] == 48 + k && 1 <= k <= 9
    ensures
      Successes(src, pat, s, p, caps) ==
        if k > |caps| || caps[k - 1].len == CAP_UNFINISHED then [Malformed(InvalidCaptureIndex(k))]
        else if Recurs(src, s, caps[k - 1]) then Successes(src, pat, s + caps[k - 1].len, p + 2, caps)
        else []
  {
    hide Recurs;
  }

  // ----- all elements -----

  predicate IsRepetition(e: Element) {
    e.Just? || e.Star? || e.Plus? || e.Minus? || e.Maybe?
  }

  /** The suffix an element is written with, or 0. */
  function SuffixOf(e: Element): byte {
    match e
    case Star(_) => 42
    case Plus(_) => 43
    case Minus(_) => 45
    case Maybe(_) => 63
    case _ => 0
  }

  lemma RepetitionMatches(
    src: Text, s: nat, es: seq<Element>, atEnd: bool, caps: seq<Capture>, e: nat, out: seq<Capture>
  )
    requires es != [] && IsRepetition(es[0])
    ensures
      var lo, hi := Least(SuffixOf(es[0])), Most(SuffixOf(es[0]), |src|);
      Matches(src, s, es, atEnd, caps, e, out) <==> Repeats(src, s, es[0].item, lo, hi, es[1..], atEnd, caps, e, out)
  {
    hide Repeats;
  }

  /** Behind the item stands its suffix, or something that is none. */
  lemma SuffixStands(pat: Text, p: nat, es: seq<Element>, atEnd: bool)
    requires es != [] && IsRepetition(es[0]) && Reads(pat, p, es, atEnd)
    ensures
      var e := es[0];
      var ep := p + |ItemText(e.item)|;
      && ItemOk(e.item) && Written(pat, p, ItemText(e.item))
      && |ElementText(e)| == |ItemText(e.item)| + (if e.Just? then 0 else 1)
      && (if e.Just? then !IsSuffix(At(pat, ep)) else At(pat, ep) == SuffixOf(e))
  {
    hide PatternText, ItemText, Written, ItemOk;
    ReadsFirst(pat, p, es, atEnd);
    var w := ItemText(es[0].item);
    if es[0].Just? {
      NextStarts(pat, p + |w|, es[1..], atEnd);
    } else {
      assert ElementText(es[0]) == w + [SuffixOf(es[0])];
      WrittenAt(pat, p, w, [SuffixOf(es[0])]);
      CharWritten(pat, p + |w|, [SuffixOf(es[0])], 0);
    }
  }

  lemma SameCounts(suffix: byte, limit: nat)
    ensures !IsSuffix(suffix) ==> Least(suffix) == Least(0) && Most(suffix, limit) == Most(0, limit)
  {
  }

  lemma ItemExact(src: Text, pat: Text, s: nat, p: nat, es: seq<Element>, atEnd: bool, caps: seq<Capture>)
    requires es != [] && IsRepetition(es[0]) && Reads(pat, p, es, atEnd) && s <= |src|
    requires ExactAfter(src, pat, s, p + |ElementText(es[0])|, es[1..], atEnd, caps)
    ensures Exact(Successes(src, pat, s, p, caps), src, s, es, atEnd, caps)
  {
    hide Reads, ItemText, ElementText, Written, Successes, Repeats, ItemOk, Matches, ExactAfter, Least, Most;
    SuffixStands(pat, p, es, atEnd);
    var suffix := At(pat, p + |ItemText(es[0].item)|);
    SameCounts(suffix, |src|);
    SuffixIsOne(es[0]);
    RepetitionExact(src, pat, s, p, es[0].item, p + |ElementText(es[0])|, es[1..], atEnd, caps);
    forall e: nat, out
      ensures Match(e, out) in Successes(src, pat, s, p, caps) <==> Matches(src, s, es, atEnd, caps, e, out)
    {
      RepetitionMatches(src, s, es, atEnd, caps, e, out);
    }
  }

  lemma SuffixIsOne(e: Element)
    requires IsRepetition(e)
    ensures if e.Just? then SuffixOf(e) == 0 else IsSuffix(SuffixOf(e))
  {
  }

  /** Matching finds exactly the matches: whatever the order in which they are tried, no other way to match is listed,
      and none is missing. */
  lemma {:induction false} SuccessesAreMatches(
    src: Text, pat: Text, s: nat, p: nat, es: seq<Element>, atEnd: bool, caps: seq<Capture>
  )
    requires s <= |src| && CapturesOk(caps, s) && Reads(pat, p, es, atEnd)
    ensures Exact(Successes(src, pat, s, p, caps), src, s, es, atEnd, caps)
    decreases |es|
  {
    hide Exact, Successes, PatternText, ElementOk, ElementText, Repeated, LastUnfinished;
    if es == [] {
      NothingLeft(src, pat, s, p, atEnd, caps);
      return;
    }
    ReadsFirst(pat, p, es, atEnd);
    var q, rest := p + |ElementText(es[0])|, es[1..];
    ElementSizes(es[0]);
    match es[0]
    case Open =>
      SuccessesAreMatches(src, pat, s, q, rest, atEnd, caps + [Capture(s, CAP_UNFINISHED)]);
      OpenExact(src, pat, s, p, es, atEnd, caps);
    case Here =>
      SuccessesAreMatches(src, pat, s, q, rest, atEnd, caps + [Capture(s, CAP_POSITION)]);
      OpenExact(src, pat, s, p, es, atEnd, caps);
    case Close =>
      var l := LastUnfinished(caps);
      if l >= 0 {
        CloseStaysOk(caps, l, s);
        SuccessesAreMatches(src, pat, s, q, rest, atEnd, caps[l := Capture(caps[l].init, s - caps[l].init)]);
      }
      CloseExact(src, pat, s, p, es, atEnd, caps);
    case Balanced(_, _) =>
      forall t: nat | s <= t <= |src| ensures Exact(Successes(src, pat, t, q, caps), src, t, rest, atEnd, caps) {
        CapturesStayOk(caps, s, t);
        SuccessesAreMatches(src, pat, t, q, rest, atEnd, caps);
      }
      BalancedExact(src, pat, s, p, es, atEnd, caps);
    case Border(_, _) =>
      SuccessesAreMatches(src, pat, s, q, rest, atEnd, caps);
      BorderExact(src, pat, s, p, es, atEnd, caps);
    case Again(k) =>
      if 1 <= k <= |caps| && Repeated(src, s, caps[k - 1]) {
        RepeatedInside(src, s, caps[k - 1]);
        CapturesStayOk(caps, s, s + caps[k - 1].len);
        SuccessesAreMatches(src, pat, s + caps[k - 1].len, q, rest, atEnd, caps);
      }
      AgainExact(src, pat, s, p, es, atEnd, caps);
    case _ =>
      forall t: nat | s <= t <= |src| ensures Exact(Successes(src, pat, t, q, caps), src, t, rest, atEnd, caps) {
        CapturesStayOk(caps, s, t);
        SuccessesAreMatches(src, pat, t, q, rest, atEnd, caps);
      }
      ItemExact(src, pat, s, p, es, atEnd, caps);
  }

  lemma ElementSizes(e: Element)
    ensures e.Close? ==> |ElementText(e)| == 1
    ensures e.Balanced? ==> |ElementText(e)| == 4
    ensures e.Again? ==> |ElementText(e)| == 2
  {
  }

  lemma RepeatedInside(src: Text, s: nat, c: Capture)
    requires Repeated(src, s, c)
    ensures c.len >= 0 && s + c.len <= |src|
  {
  }

  /** So a search finds something exactly where something matches. */
  lemma FirstIsAMatch(src: Text, s: nat, es: seq<Element>, atEnd: bool)
    requires s <= |src| && PatternOk(es)
    ensures
      var first := FirstAt(src, PatternText(es, atEnd), s);
      && (first.Found? ==> Matches(src, s, es, atEnd, [], first.end, first.captures))
      && (first.Nothing? ==> forall e: nat, out :: !Matches(src, s, es, atEnd, [], e, out))
  {
    hide Successes, Matches, PatternText;
    var pat := PatternText(es, atEnd);
    assert pat[0..] == pat;
    SuccessesAreMatches(src, pat, s, 0, es, atEnd, []);
    var list := Successes(src, pat, s, 0, []);
    if list != [] {
      assert list[0] in list;
    } else {
      forall e: nat, out ensures !Matches(src, s, es, atEnd, [], e, out) {
        assert Match(e, out) !in list;
      }
    }
  }
}
