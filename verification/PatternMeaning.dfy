/** What a pattern matches, said without a matcher: a relation over the parts a pattern is written from. */
module PatternMeaning {
  import opened Options
  import opened PatternSpec
  import opened PatternMatcher
  import opened PatternUse

  // ----- characters, by octets -----

  predicate IsClassLetter(l: byte) {
    l in {97, 99, 100, 103, 108, 112, 115, 117, 119, 120, 122}
  }

  /** Letters, control, digits, graphic, lower case, punctuation, space, upper case, letters and digits, hexadecimal,
      NUL. */
  predicate InClass(l: byte, c: byte) {
    if l == 97 then 65 <= c <= 90 || 97 <= c <= 122
    else if l == 99 then c <= 31 || c == 127
    else if l == 100 then 48 <= c <= 57
    else if l == 103 then 33 <= c <= 126
    else if l == 108 then 97 <= c <= 122
    else if l == 112 then 33 <= c <= 47 || 58 <= c <= 64 || 91 <= c <= 96 || 123 <= c <= 126
    else if l == 115 then 9 <= c <= 13 || c == 32
    else if l == 117 then 65 <= c <= 90
    else if l == 119 then 48 <= c <= 57 || 65 <= c <= 90 || 97 <= c <= 122
    else if l == 120 then 48 <= c <= 57 || 65 <= c <= 70 || 97 <= c <= 102
    else l == 122 && c == 0
  }

  /** `%x`: a class, the complement of a class for a capital, or `x` itself. */
  predicate EscapeMatches(x: byte, c: byte) {
    if IsClassLetter(x) then InClass(x, c)
    else if 65 <= x <= 90 && IsClassLetter(x + 32) then !InClass(x + 32, c)
    else c == x
  }

  lemma ClassesByOctet(c: byte, x: byte)
    ensures MatchClass(c, x) <==> EscapeMatches(x, c)
  {
  }

  // ----- sets -----

  datatype SetPart = One(c: byte) | Span(lo: byte, hi: byte) | Escape(x: byte)

  predicate PartHas(part: SetPart, c: byte) {
    match part
    case One(x) => c == x
    case Span(lo, hi) => lo <= c <= hi
    case Escape(x) => EscapeMatches(x, c)
  }

  predicate SomePartHas(parts: seq<SetPart>, c: byte) {
    exists i :: 0 <= i < |parts| && PartHas(parts[i], c)
  }

  predicate SetHas(parts: seq<SetPart>, complement: bool, c: byte) {
    SomePartHas(parts, c) != complement
  }

  function PartText(part: SetPart): (w: Text)
    ensures w != []
  {
    match part
    case One(c) => [c]
    case Span(lo, hi) => [lo, 45, hi]
    case Escape(x) => [37, x]
  }

  function PartsText(parts: seq<SetPart>): Text {
    if parts == [] then [] else PartText(parts[0]) + PartsText(parts[1..])
  }

  /** `%` must be escaped, and `-` written so that it cannot be taken for a span. */
  predicate PartOk(part: SetPart) {
    match part
    case One(c) => c != 37 && c != 45
    case Span(lo, hi) => lo != 37 && lo != 45 && hi != 37 && hi != 93
    case Escape(_) => true
  }

  /** `]` is itself at the front of a set and nowhere else, `^` anywhere but there. */
  predicate SetOk(parts: seq<SetPart>, complement: bool) {
    && parts != [] && PartsOk(parts) && (!complement ==> PartText(parts[0])[0] != 94)
    && NoCloser(parts[1..])
  }

  predicate PartsOk(parts: seq<SetPart>) {
    forall i :: 0 <= i < |parts| ==> PartOk(parts[i])
  }

  predicate NoCloser(parts: seq<SetPart>) {
    forall i :: 0 <= i < |parts| ==> PartText(parts[i])[0] != 93
  }

  /** `w` is what the pattern has at `p`. */
  predicate Written(pat: Text, p: nat, w: Text) {
    p + |w| <= |pat| && pat[p..p + |w|] == w
  }

  lemma WrittenAt(pat: Text, p: nat, a: Text, b: Text)
    requires Written(pat, p, a + b)
    ensures Written(pat, p, a) && Written(pat, p + |a|, b)
  {
    var w := pat[p..p + |a + b|];
    assert w[..|a|] == a && w[|a|..] == b;
    assert pat[p..p + |a|] == w[..|a|] && pat[p + |a|..p + |a| + |b|] == w[|a|..];
  }

  lemma CharWritten(pat: Text, p: nat, w: Text, i: nat)
    requires Written(pat, p, w) && i < |w|
    ensures p + i < |pat| && pat[p + i] == w[i]
  {
    assert pat[p..p + |w|][i] == w[i];
  }

  /** The closing bracket is found behind the parts. */
  lemma {:induction false} BracketEndsBehind(pat: Text, q: nat, parts: seq<SetPart>)
    requires parts != [] && PartsOk(parts) && NoCloser(parts[1..]) && Written(pat, q, PartsText(parts) + [93])
    ensures BracketEnd(pat, q) == EndsAt(q + |PartsText(parts)| + 1)
    decreases |parts|
  {
    hide BracketEnd, PartText, PartOk, Written;
    var w, more := PartText(parts[0]), PartsText(parts[1..]) + [93];
    FirstPartIsWritten(pat, q, parts);
    if |parts| > 1 {
      assert parts[1..][0] == parts[1] && NoCloser(parts[1..][1..]);
      BracketEndsBehind(pat, q + |w|, parts[1..]);
    }
    PartIsSkipped(pat, q, parts[0]);
  }

  lemma FirstPartIsWritten(pat: Text, q: nat, parts: seq<SetPart>)
    requires parts != [] && Written(pat, q, PartsText(parts) + [93])
    ensures
      var w := PartText(parts[0]);
      && PartsText(parts) == w + PartsText(parts[1..]) && q + |PartsText(parts)| < |pat|
      && Written(pat, q, w) && Written(pat, q + |w|, PartsText(parts[1..]) + [93]) && q + |w| < |pat|
      && pat[q + |w|] == if |parts| > 1 then PartText(parts[1])[0] else 93
  {
    hide Written, PartText, PartsText;
    var w, more := PartText(parts[0]), PartsText(parts[1..]) + [93];
    PartsUnfold(parts);
    assert PartsText(parts) + [93] == w + more;
    WrittenAt(pat, q, w, more);
    CharWritten(pat, q, PartsText(parts) + [93], |PartsText(parts)|);
    CharWritten(pat, q + |w|, more, 0);
    FirstOfParts(parts[1..]);
  }

  lemma PartsUnfold(parts: seq<SetPart>)
    requires parts != []
    ensures PartsText(parts) == PartText(parts[0]) + PartsText(parts[1..])
  {
  }

  lemma FirstOfParts(parts: seq<SetPart>)
    ensures (PartsText(parts) + [93])[0] == if parts == [] then 93 else PartText(parts[0])[0]
  {
  }

  lemma PartIsSkipped(pat: Text, q: nat, part: SetPart)
    requires PartOk(part) && Written(pat, q, PartText(part)) && q + |PartText(part)| < |pat|
    ensures BracketEnd(pat, q) ==
      if At(pat, q + |PartText(part)|) == 93 then EndsAt(q + |PartText(part)| + 1)
      else BracketEnd(pat, q + |PartText(part)|)
  {
    hide Written;
    CharWritten(pat, q, PartText(part), 0);
    if part.Span? {
      CharWritten(pat, q, PartText(part), 1);
      CharWritten(pat, q, PartText(part), 2);
      assert BracketEnd(pat, q) == BracketEnd(pat, q + 1);
      assert BracketEnd(pat, q + 1) == BracketEnd(pat, q + 2);
    }
  }

  function MemberOf(part: SetPart): Member {
    match part
    case One(c) => Range(c, c)
    case Span(lo, hi) => Range(lo, hi)
    case Escape(x) => Class(x)
  }

  /** The parts are read back one by one. */
  lemma {:induction false} MembersAreParts(pat: Text, q: nat, parts: seq<SetPart>)
    requires PartsOk(parts) && Written(pat, q, PartsText(parts) + [93])
    ensures |Members(pat, q, q + |PartsText(parts)|)| == |parts|
    ensures forall i :: 0 <= i < |parts| ==> Members(pat, q, q + |PartsText(parts)|)[i] == MemberOf(parts[i])
    decreases |parts|
  {
    hide Members, PartText, Written, MemberOf;
    if parts == [] {
      NoMembers(pat, q);
    } else {
      FirstPartIsWritten(pat, q, parts);
      MembersAreParts(pat, q + |PartText(parts[0])|, parts[1..]);
      if |parts| > 1 {
        NotADash(parts[1]);
      }
      FirstMember(pat, q, parts[0], q + |PartsText(parts)|);
    }
  }

  lemma NoMembers(pat: Text, q: nat)
    ensures Members(pat, q, q) == []
  {
  }

  lemma NotADash(part: SetPart)
    requires PartOk(part)
    ensures PartText(part)[0] != 45
  {
  }

  lemma FirstMember(pat: Text, q: nat, part: SetPart, ec: nat)
    requires PartOk(part) && Written(pat, q, PartText(part)) && q + |PartText(part)| <= ec < |pat|
    requires pat[q + |PartText(part)|] != 45
    ensures Members(pat, q, ec) == [MemberOf(part)] + Members(pat, q + |PartText(part)|, ec)
  {
    hide Written;
    CharWritten(pat, q, PartText(part), 0);
    if |PartText(part)| > 1 {
      CharWritten(pat, q, PartText(part), 1);
    }
    if part.Span? {
      CharWritten(pat, q, PartText(part), 2);
    }
  }

  function SetText(parts: seq<SetPart>, complement: bool): (w: Text)
    ensures w != []
  {
    (if complement then [91, 94] else [91]) + PartsText(parts) + [93]
  }

  /** A set matches exactly the characters its parts say. */
  lemma SetMeans(pat: Text, p: nat, parts: seq<SetPart>, complement: bool)
    requires SetOk(parts, complement) && Written(pat, p, SetText(parts, complement))
    ensures ItemEnd(pat, p) == EndsAt(p + |SetText(parts, complement)|) && p < |pat|
    ensures
      forall c: byte :: InBracket(pat, c, p, p + |SetText(parts, complement)| - 1) <==> SetHas(parts, complement, c)
  {
    hide BracketEnd, Members, PartText, Contains;
    var head := if complement then [91, 94] else [91];
    var q := p + |head|;
    assert SetText(parts, complement) == head + (PartsText(parts) + [93]);
    WrittenAt(pat, p, head, PartsText(parts) + [93]);
    CharWritten(pat, p, head, 0);
    if complement {
      CharWritten(pat, p, head, 1);
    }
    BracketEndsBehind(pat, q, parts);
    MembersAreParts(pat, q, parts);
    AfterOpening(pat, p, q, parts, complement);
    var ms := Members(pat, q, q + |PartsText(parts)|);
    forall c: byte ensures SomeContains(ms, c) <==> SomePartHas(parts, c) {
      MembersContain(ms, parts, c);
    }
  }

  lemma AfterOpening(pat: Text, p: nat, q: nat, parts: seq<SetPart>, complement: bool)
    requires SetOk(parts, complement) && Written(pat, q, PartsText(parts) + [93])
    requires q == (if complement then p + 2 else p + 1) && (complement ==> pat[p + 1] == 94)
    ensures (At(pat, p + 1) == 94) <==> complement
  {
    var more := PartsText(parts[1..]) + [93];
    assert PartsText(parts) + [93] == PartText(parts[0]) + more;
    WrittenAt(pat, q, PartText(parts[0]), more);
    CharWritten(pat, q, PartText(parts[0]), 0);
  }

  lemma MembersContain(ms: seq<Member>, parts: seq<SetPart>, c: byte)
    requires |ms| == |parts| && forall i :: 0 <= i < |parts| ==> ms[i] == MemberOf(parts[i])
    ensures SomeContains(ms, c) <==> SomePartHas(parts, c)
  {
    hide MatchClass, EscapeMatches;
    forall i | 0 <= i < |parts| ensures Contains(ms[i], c) <==> PartHas(parts[i], c) {
      if parts[i].Escape? {
        ClassesByOctet(c, parts[i].x);
      }
    }
    if SomeContains(ms, c) {
      var m :| m in ms && Contains(m, c);
      var i :| 0 <= i < |ms| && ms[i] == m;
      assert PartHas(parts[i], c);
    }
    if SomePartHas(parts, c) {
      var i :| 0 <= i < |parts| && PartHas(parts[i], c);
      assert Contains(ms[i], c);
    }
  }

  // ----- single-character items -----

  datatype Item = Any | Plain(c: byte) | Escaped(x: byte) | Set(parts: seq<SetPart>, complement: bool)

  predicate ItemHas(item: Item, c: byte) {
    match item
    case Any => true
    case Plain(x) => c == x
    case Escaped(x) => EscapeMatches(x, c)
    case Set(parts, complement) => SetHas(parts, complement, c)
  }

  function ItemText(item: Item): (w: Text)
    ensures w != []
  {
    match item
    case Any => [46]
    case Plain(c) => [c]
    case Escaped(x) => [37, x]
    case Set(parts, complement) => SetText(parts, complement)
  }

  /** The characters with a meaning of their own: `$ % ( ) * + - . ? [`. */
  predicate IsMagic(c: byte) {
    c in {36, 37, 40, 41, 42, 43, 45, 46, 63, 91}
  }

  /** `%b`, `%f` and `%` with a digit are no single characters. */
  predicate ItemOk(item: Item) {
    match item
    case Any => true
    case Plain(c) => !IsMagic(c)
    case Escaped(x) => x != 98 && x != 102 && !(48 <= x <= 57)
    case Set(parts, complement) => SetOk(parts, complement)
  }

  /** An item is found where it is written, and matches what it says. */
  lemma ItemMeans(src: Text, pat: Text, p: nat, item: Item)
    requires ItemOk(item) && Written(pat, p, ItemText(item))
    ensures p < |pat| && IsPlainItem(pat, p) && ItemEnd(pat, p) == EndsAt(p + |ItemText(item)|)
    ensures forall s: nat :: Single(src, pat, s, p, p + |ItemText(item)|) <==> s < |src| && ItemHas(item, src[s])
  {
    hide InBracket, SetHas, SetOk, SetText, MatchClass, EscapeMatches, BracketEnd, Written;
    CharWritten(pat, p, ItemText(item), 0);
    if item.Escaped? {
      CharWritten(pat, p, ItemText(item), 1);
    } else if item.Set? {
      SetStarts(item.parts, item.complement);
      SetMeans(pat, p, item.parts, item.complement);
    }
    forall s: nat ensures Single(src, pat, s, p, p + |ItemText(item)|) <==> s < |src| && ItemHas(item, src[s]) {
      if s < |src| {
        CharMatches(src, pat, s, p, item);
      }
    }
  }

  lemma CharMatches(src: Text, pat: Text, s: nat, p: nat, item: Item)
    requires s < |src| && p < |pat| && pat[p] == ItemText(item)[0] && ItemOk(item)
    requires item.Escaped? ==> At(pat, p + 1) == item.x
    requires item.Set? ==> forall c: byte ::
               InBracket(pat, c, p, p + |ItemText(item)| - 1) <==> SetHas(item.parts, item.complement, c)
    ensures Single(src, pat, s, p, p + |ItemText(item)|) <==> ItemHas(item, src[s])
  {
    hide InBracket, SetHas, SetOk, SetText, MatchClass, EscapeMatches;
    match item
    case Any =>
    case Plain(_) =>
    case Escaped(x) => ClassesByOctet(src[s], x);
    case Set(parts, complement) => SetStarts(parts, complement);
  }

  lemma SetStarts(parts: seq<SetPart>, complement: bool)
    ensures SetText(parts, complement)[0] == 91
  {
  }

  // ----- patterns -----

  datatype Element =
    | Just(item: Item) | Star(item: Item) | Plus(item: Item) | Minus(item: Item) | Maybe(item: Item)
    | Open | Here | Close | Balanced(x: byte, y: byte) | Border(parts: seq<SetPart>, complement: bool) | Again(k: nat)

  function ElementText(e: Element): (w: Text)
    ensures w != []
  {
    match e
    case Just(item) => ItemText(item)
    case Star(item) => ItemText(item) + [42]
    case Plus(item) => ItemText(item) + [43]
    case Minus(item) => ItemText(item) + [45]
    case Maybe(item) => ItemText(item) + [63]
    case Open => [40]
    case Here => [40, 41]
    case Close => [41]
    case Balanced(x, y) => [37, 98, x, y]
    case Border(parts, complement) => [37, 102] + SetText(parts, complement)
    case Again(k) => [37, 48 + k % 10]
  }

  predicate ElementOk(e: Element) {
    match e
    case Just(item) => ItemOk(item)
    case Star(item) => ItemOk(item)
    case Plus(item) => ItemOk(item)
    case Minus(item) => ItemOk(item)
    case Maybe(item) => ItemOk(item)
    case Border(parts, complement) => SetOk(parts, complement)
    case Again(k) => 1 <= k <= 9
    case _ => true
  }

  /** A pattern ends where its last element ends, or with `$` at the end of the subject only. */
  function PatternText(es: seq<Element>, atEnd: bool): Text {
    if es == [] then (if atEnd then [36] else []) else ElementText(es[0]) + PatternText(es[1..], atEnd)
  }

  /** `()` is a position capture and not an empty one. */
  ghost predicate PatternOk(es: seq<Element>) {
    && (forall i :: 0 <= i < |es| ==> ElementOk(es[i]))
    && (forall i, j :: 0 <= i && j == i + 1 && j < |es| ==> !(es[i].Open? && es[j].Close?))
  }

  /** `n` characters from `s` on are matched by the item. */
  predicate Fits(src: Text, s: nat, item: Item, n: nat) {
    s + n <= |src| && forall i :: s <= i < s + n ==> ItemHas(item, src[i])
  }

  /** How often `c` occurs. */
  function Occurrences(t: Text, c: byte): nat {
    if t == [] then 0 else Occurrences(t[..|t| - 1], c) + if t[|t| - 1] == c then 1 else 0
  }

  /** More closers than openers from `i` up to `e`. */
  function Surplus(src: Text, i: nat, e: nat, open: byte, close: byte): int
    requires i <= e <= |src|
  {
    Occurrences(src[i..e], close) - Occurrences(src[i..e], open)
  }

  /** `e` is the first place from `i` on with `depth` more closers than openers. */
  predicate ClosedAt(src: Text, i: nat, depth: nat, open: byte, close: byte, e: nat) {
    && i <= e <= |src| && Surplus(src, i, e, open, close) == depth
    && forall t :: i <= t < e ==> Surplus(src, i, t, open, close) != depth
  }

  /** With one character for both it is behind the first of them. */
  predicate PastFirst(src: Text, i: nat, c: byte, e: nat) {
    i < e <= |src| && src[e - 1] == c && forall t :: i <= t < e - 1 ==> src[t] != c
  }

  predicate BalancedTo(src: Text, s: nat, x: byte, y: byte, e: nat) {
    && s < |src| && src[s] == x
    && (if x == y then PastFirst(src, s + 1, x, e) else ClosedAt(src, s + 1, 1, x, y, e))
  }

  predicate Innermost(caps: seq<Capture>, l: nat) {
    && l < |caps| && caps[l].len == CAP_UNFINISHED
    && forall j :: l < j < |caps| ==> caps[j].len != CAP_UNFINISHED
  }

  /** The text of a closed capture stands at `s` again. */
  predicate Repeated(src: Text, s: nat, c: Capture) {
    && c.len >= 0 && c.init + c.len <= |src| && s + c.len <= |src|
    && forall i :: c.init <= i < c.init + c.len ==> src[i] == src[s + i - c.init]
  }

  /** The elements match from `s` up to `e` and leave the captures `out`. */
  ghost predicate Matches(
    src: Text, s: nat, es: seq<Element>, atEnd: bool, caps: seq<Capture>, e: nat, out: seq<Capture>
  )
    decreases |es|, 0
  {
    if es == [] then (atEnd ==> s == |src|) && e == s && out == caps
    else
      var rest := es[1..];
      match es[0]
      case Just(item) => Repeats(src, s, item, 1, 1, rest, atEnd, caps, e, out)
      case Star(item) => Repeats(src, s, item, 0, |src|, rest, atEnd, caps, e, out)
      case Plus(item) => Repeats(src, s, item, 1, |src|, rest, atEnd, caps, e, out)
      case Minus(item) => Repeats(src, s, item, 0, |src|, rest, atEnd, caps, e, out)
      case Maybe(item) => Repeats(src, s, item, 0, 1, rest, atEnd, caps, e, out)
      case Open => |caps| < 32 && Matches(src, s, rest, atEnd, caps + [Capture(s, CAP_UNFINISHED)], e, out)
      case Here => |caps| < 32 && Matches(src, s, rest, atEnd, caps + [Capture(s, CAP_POSITION)], e, out)
      case Close =>
        exists l: nat :: Innermost(caps, l) && caps[l].init <= s
                    && Matches(src, s, rest, atEnd, caps[l := Capture(caps[l].init, s - caps[l].init)], e, out)
      case Balanced(x, y) => exists t: nat :: BalancedTo(src, s, x, y, t) && Matches(src, t, rest, atEnd, caps, e, out)
      case Border(parts, complement) =>
        && !SetHas(parts, complement, if s == 0 then 0 else At(src, s - 1)) && SetHas(parts, complement, At(src, s))
        && Matches(src, s, rest, atEnd, caps, e, out)
      case Again(k) =>
        && 1 <= k <= |caps| && Repeated(src, s, caps[k - 1])
        && Matches(src, s + caps[k - 1].len, rest, atEnd, caps, e, out)
  }

  /** Between `lo` and `hi` characters of an item, then the rest. */
  ghost predicate Repeats(
    src: Text, s: nat, item: Item, lo: nat, hi: nat, rest: seq<Element>, atEnd: bool, caps: seq<Capture>, e: nat,
    out: seq<Capture>
  )
    decreases |rest|, 1
  {
    exists n: nat :: lo <= n <= hi && Fits(src, s, item, n) && Matches(src, s + n, rest, atEnd, caps, e, out)
  }

  // ----- balance -----

  lemma {:induction false} OccurrencesFront(t: Text, c: byte)
    requires t != []
    ensures Occurrences(t, c) == (if t[0] == c then 1 else 0) + Occurrences(t[1..], c)
  {
    if |t| > 1 {
      OccurrencesFront(t[..|t| - 1], c);
      assert t[..|t| - 1][1..] == t[1..][..|t| - 2];
    }
  }

  lemma SurplusStep(src: Text, i: nat, e: nat, open: byte, close: byte)
    requires i < e <= |src| && open != close
    ensures Surplus(src, i, e, open, close) ==
      Surplus(src, i + 1, e, open, close) + (if src[i] == close then 1 else if src[i] == open then -1 else 0)
  {
    var t := src[i..e];
    OccurrencesFront(t, open);
    OccurrencesFront(t, close);
    assert t[1..] == src[i + 1..e];
  }

  lemma SurplusOfNone(src: Text, i: nat, open: byte, close: byte)
    requires i <= |src|
    ensures Surplus(src, i, i, open, close) == 0
  {
    assert src[i..i] == [];
  }

  /** The depth after one character. */
  function Deepened(depth: nat, c: byte, open: byte, close: byte): int {
    if c == close then depth - 1 else if c == open then depth + 1 else depth
  }

  lemma ClosedStep(src: Text, i: nat, depth: nat, open: byte, close: byte, e: nat)
    requires open != close && depth > 0 && i < |src| && Deepened(depth, src[i], open, close) >= 0
    ensures ClosedAt(src, i, depth, open, close, e) <==>
            ClosedAt(src, i + 1, Deepened(depth, src[i], open, close), open, close, e)
  {
    hide Surplus;
    var left := Deepened(depth, src[i], open, close);
    SurplusOfNone(src, i, open, close);
    forall t | i < t <= |src|
      ensures Surplus(src, i, t, open, close) == Surplus(src, i + 1, t, open, close) + depth - left
    {
      SurplusStep(src, i, t, open, close);
    }
    if ClosedAt(src, i + 1, left, open, close, e) {
      forall t | i <= t < e ensures Surplus(src, i, t, open, close) != depth {
        if t > i {
          assert Surplus(src, i + 1, t, open, close) != left;
        }
      }
    }
    if ClosedAt(src, i, depth, open, close, e) {
      var j := i + 1;
      forall t | j <= t < e ensures Surplus(src, j, t, open, close) != left {
        assert Surplus(src, i, t, open, close) != depth;
      }
    }
  }

  /** The counter scan stops at the first balanced place, and nowhere if there is none. */
  lemma {:induction false} BalanceIff(src: Text, i: nat, depth: nat, open: byte, close: byte)
    requires open != close && depth > 0 && i <= |src|
    ensures forall e: nat :: Balance(src, i, depth, open, close) == Some(e) <==> ClosedAt(src, i, depth, open, close, e)
    decreases |src| - i
  {
    hide ClosedAt;
    if i == |src| {
      forall e: nat ensures !ClosedAt(src, i, depth, open, close, e) {
        NothingCloses(src, depth, open, close, e);
      }
    } else {
      var left := Deepened(depth, src[i], open, close);
      if left > 0 {
        BalanceIff(src, i + 1, left, open, close);
      }
      forall e: nat
        ensures Balance(src, i, depth, open, close) == Some(e) <==> ClosedAt(src, i, depth, open, close, e)
      {
        ClosedStep(src, i, depth, open, close, e);
        ClosedAtOnce(src, i + 1, open, close, e);
      }
    }
  }

  lemma NothingCloses(src: Text, depth: nat, open: byte, close: byte, e: nat)
    requires depth > 0
    ensures !ClosedAt(src, |src|, depth, open, close, e)
  {
    SurplusOfNone(src, |src|, open, close);
  }

  lemma ClosedAtOnce(src: Text, i: nat, open: byte, close: byte, e: nat)
    requires i <= |src|
    ensures ClosedAt(src, i, 0, open, close, e) <==> e == i
  {
    SurplusOfNone(src, i, open, close);
  }

  lemma {:induction false} BalanceOfOne(src: Text, i: nat, c: byte)
    ensures forall e: nat :: Balance(src, i, 1, c, c) == Some(e) <==> PastFirst(src, i, c, e)
    decreases |src| - i
  {
    if i < |src| && src[i] != c {
      BalanceOfOne(src, i + 1, c);
    }
  }

  // ----- the list of successes holds exactly the matches -----

  ghost predicate Exact(list: seq<Outcome>, src: Text, s: nat, es: seq<Element>, atEnd: bool, caps: seq<Capture>) {
    forall e: nat, out :: Match(e, out) in list <==> Matches(src, s, es, atEnd, caps, e, out)
  }

  /** The elements are written from `p` on, up to the end of the pattern. */
  ghost predicate Reads(pat: Text, p: nat, es: seq<Element>, atEnd: bool) {
    p <= |pat| && pat[p..] == PatternText(es, atEnd) && PatternOk(es)
  }

  lemma ReadsFirst(pat: Text, p: nat, es: seq<Element>, atEnd: bool)
    requires es != [] && Reads(pat, p, es, atEnd)
    ensures Written(pat, p, ElementText(es[0])) && ElementOk(es[0]) && p < |pat|
    ensures Reads(pat, p + |ElementText(es[0])|, es[1..], atEnd)
  {
    hide ElementText, ElementOk;
    var w := ElementText(es[0]);
    assert pat[p..p + |w|] == pat[p..][..|w|] && pat[p + |w|..] == pat[p..][|w|..];
  }

  lemma ElementStarts(e: Element)
    requires ElementOk(e)
    ensures ElementText(e)[0] !in {42, 43, 45, 63} && (ElementText(e)[0] == 41 <==> e.Close?)
  {
    hide SetText;
    if e.Just? || e.Star? || e.Plus? || e.Minus? || e.Maybe? {
      ItemStarts(e.item);
    }
  }

  lemma ItemStarts(item: Item)
    requires ItemOk(item)
    ensures ItemText(item)[0] !in {41, 42, 43, 45, 63}
  {
    if item.Set? {
      SetStarts(item.parts, item.complement);
    }
  }

  /** What stands behind an element is no suffix, and a closing parenthesis only for `Close`. */
  lemma NextStarts(pat: Text, p: nat, es: seq<Element>, atEnd: bool)
    requires Reads(pat, p, es, atEnd)
    ensures !IsSuffix(At(pat, p)) && (At(pat, p) == 41 <==> es != [] && es[0].Close?)
  {
    hide ElementText;
    if es != [] {
      ReadsFirst(pat, p, es, atEnd);
      CharWritten(pat, p, ElementText(es[0]), 0);
      ElementStarts(es[0]);
    } else if atEnd {
      assert pat[p..][0] == 36;
    }
  }

  lemma EachCountStep(src: Text, pat: Text, s: nat, counts: seq<nat>, p: nat, caps: seq<Capture>)
    requires counts != []
    ensures EachCount(src, pat, s, counts, p, caps) ==
      Successes(src, pat, s + counts[0], p, caps) + EachCount(src, pat, s, counts[1..], p, caps)
  {
    hide Successes;
  }

  /** `o` is a success after `c` characters. */
  ghost predicate ComesAfter(src: Text, pat: Text, s: nat, c: nat, p: nat, caps: seq<Capture>, o: Outcome) {
    o in Successes(src, pat, s + c, p, caps)
  }

  lemma {:induction false} EachCountHas(
    src: Text, pat: Text, s: nat, counts: seq<nat>, p: nat, caps: seq<Capture>, o: Outcome
  )
    ensures o in EachCount(src, pat, s, counts, p, caps) <==>
            exists c :: c in counts && ComesAfter(src, pat, s, c, p, caps, o)
    decreases |counts|
  {
    hide EachCount, Successes, ComesAfter;
    if counts == [] {
      NoCounts(src, pat, s, p, caps);
    } else {
      EachCountStep(src, pat, s, counts, p, caps);
      EachCountHas(src, pat, s, counts[1..], p, caps, o);
      ComesAfterIs(src, pat, s, counts[0], p, caps, o);
      assert forall c :: c in counts <==> c == counts[0] || c in counts[1..];
    }
  }

  lemma ComesAfterIs(src: Text, pat: Text, s: nat, c: nat, p: nat, caps: seq<Capture>, o: Outcome)
    ensures ComesAfter(src, pat, s, c, p, caps, o) <==> o in Successes(src, pat, s + c, p, caps)
  {
    hide Successes;
  }

  /** How many repetitions a suffix asks for, at least and at most. */
  function Least(suffix: byte): nat {
    if suffix == 42 || suffix == 45 || suffix == 63 then 0 else 1
  }

  function Most(suffix: byte, limit: nat): nat {
    if suffix == 42 || suffix == 43 || suffix == 45 then limit else 1
  }

  lemma CountsMean(suffix: byte, n: nat, limit: nat, c: nat)
    requires n <= limit
    ensures c in Counts(suffix, n) <==> Least(suffix) <= c <= n && c <= Most(suffix, limit)
  {
    DownContents(n, 0);
    DownContents(n, 1);
    UpContents(0, n);
    if c <= n {
      assert Down(n, 0)[n - c] == c && Up(0, n)[c] == c;
      assert c >= 1 ==> Down(n, 1)[n - c] == c;
    }
  }

  /** The longest run is the largest number of characters that fit. */
  lemma {:induction false} RunFits(src: Text, pat: Text, s: nat, p: nat, ep: nat, item: Item, n: nat)
    requires s <= |src|
    requires forall t: nat :: Single(src, pat, t, p, ep) <==> t < |src| && ItemHas(item, src[t])
    ensures Fits(src, s, item, n) <==> n <= Run(src, pat, s, p, ep)
    decreases |src| - s
  {
    hide Single, ItemHas;
    assert Single(src, pat, s, p, ep) <==> s < |src| && ItemHas(item, src[s]);
    if n > 0 && s < |src| && ItemHas(item, src[s]) {
      RunFits(src, pat, s + 1, p, ep, item, n - 1);
    }
  }

  /** What follows an item is exact from wherever it may start. */
  ghost predicate ExactAfter(
    src: Text, pat: Text, s: nat, after: nat, rest: seq<Element>, atEnd: bool, caps: seq<Capture>
  ) {
    forall t: nat :: s <= t <= |src| ==> Exact(Successes(src, pat, t, after, caps), src, t, rest, atEnd, caps)
  }

  /** Then so is the item with its suffix. */
  lemma RepetitionExact(
    src: Text, pat: Text, s: nat, p: nat, item: Item, after: nat, rest: seq<Element>, atEnd: bool, caps: seq<Capture>
  )
    requires s <= |src| && ItemOk(item) && Written(pat, p, ItemText(item))
    requires
      var ep := p + |ItemText(item)|;
      after == if IsSuffix(At(pat, ep)) then ep + 1 else ep
    requires ExactAfter(src, pat, s, after, rest, atEnd, caps)
    ensures
      var suffix := At(pat, p + |ItemText(item)|);
      forall e: nat, out ::
        Match(e, out) in Successes(src, pat, s, p, caps) <==>
        Repeats(src, s, item, Least(suffix), Most(suffix, |src|), rest, atEnd, caps, e, out)
  {
    hide Successes, Counts, Matches, Run, ItemText, ItemOk, Written, Fits, EachCount, Repeats, ExactAfter, Single;
    hide IsPlainItem, ItemEnd, ItemHas;
    var ep := p + |ItemText(item)|;
    var suffix := At(pat, ep);
    ItemMeans(src, pat, p, item);
    PlainItem(src, pat, s, p, caps);
    var n := Run(src, pat, s, p, ep);
    forall c: nat ensures Fits(src, s, item, c) <==> c <= n {
      RunFits(src, pat, s, p, ep, item, c);
    }
    forall e: nat, out
      ensures Match(e, out) in EachCount(src, pat, s, Counts(suffix, n), after, caps) <==>
              Repeats(src, s, item, Least(suffix), Most(suffix, |src|), rest, atEnd, caps, e, out)
    {
      CountsRepeat(src, pat, s, suffix, n, item, after, rest, atEnd, caps, e, out);
    }
  }

  lemma CountsRepeat(
    src: Text, pat: Text, s: nat, suffix: byte, n: nat, item: Item, after: nat, rest: seq<Element>, atEnd: bool,
    caps: seq<Capture>, e: nat, out: seq<Capture>
  )
    requires ExactAfter(src, pat, s, after, rest, atEnd, caps)
    requires forall c: nat :: Fits(src, s, item, c) <==> c <= n
    ensures Match(e, out) in EachCount(src, pat, s, Counts(suffix, n), after, caps) <==>
            Repeats(src, s, item, Least(suffix), Most(suffix, |src|), rest, atEnd, caps, e, out)
  {
    hide Successes, Counts, Matches, EachCount, Fits, ComesAfter;
    assert Fits(src, s, item, n);
    FitsInside(src, s, item, n);
    EachCountHas(src, pat, s, Counts(suffix, n), after, caps, Match(e, out));
    forall c: nat | c <= n
      ensures ComesAfter(src, pat, s, c, after, caps, Match(e, out)) <==> Matches(src, s + c, rest, atEnd, caps, e, out)
    {
      ComesAfterIs(src, pat, s, c, after, caps, Match(e, out));
      assert Exact(Successes(src, pat, s + c, after, caps), src, s + c, rest, atEnd, caps);
    }
    if c: nat :| c in Counts(suffix, n) && ComesAfter(src, pat, s, c, after, caps, Match(e, out)) {
      CountsMean(suffix, n, |src|, c);
      assert Fits(src, s, item, c) && Matches(src, s + c, rest, atEnd, caps, e, out);
    }
    if c: nat :| Least(suffix) <= c <= Most(suffix, |src|) && Fits(src, s, item, c)
                 && Matches(src, s + c, rest, atEnd, caps, e, out)
    {
      CountsMean(suffix, n, |src|, c);
      assert c in Counts(suffix, n) && ComesAfter(src, pat, s, c, after, caps, Match(e, out));
    }
  }

  lemma FitsInside(src: Text, s: nat, item: Item, n: nat)
    requires Fits(src, s, item, n)
    ensures s + n <= |src|
  {
  }
}
