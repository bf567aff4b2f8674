/** What a Lua-style pattern means: a list of all the ways to match, best first. */
module PatternSpec {
  import opened Options

  type byte = x: int | 0 <= x < 256
  type Text = seq<byte>

  const MAX_CAPTURES: nat := 32
  const CAP_UNFINISHED: int := -1
  const CAP_POSITION: int := -2

  datatype Error =
    | TooComplex
    | EndsWithPercent
    | MissingBracket
    | MissingBracketAfterF
    | MissingArgumentsToB
    | InvalidCaptureIndex(index: int)
    | InvalidPatternCapture
    | TooManyCaptures

  datatype Capture = Capture(init: nat, len: int)

  /** One way for a pattern to end: a match up to `end` with its captures, or a malformed pattern. */
  datatype Outcome = Match(end: nat, captures: seq<Capture>) | Malformed(error: Error)

  datatype ClassEnd = EndsAt(pos: nat) | Bad(error: Error)

  /** Strings end in NUL: reading at (or past) the end yields 0. */
  function At(t: Text, i: nat): byte {
    if i < |t| then t[i] else 0
  }

  function Ch(c: char): byte {
    if c as int < 256 then c as int else 0
  }

  // ----- character classes -----

  predicate IsUpper(c: byte) { Ch('A') <= c <= Ch('Z') }
  predicate IsLower(c: byte) { Ch('a') <= c <= Ch('z') }
  predicate IsDigit(c: byte) { Ch('0') <= c <= Ch('9') }
  predicate IsAlpha(c: byte) { IsUpper(c) || IsLower(c) }
  predicate IsAlnum(c: byte) { IsAlpha(c) || IsDigit(c) }
  predicate IsControl(c: byte) { c < 32 || c == 127 }
  predicate IsGraph(c: byte) { 33 <= c <= 126 }
  predicate IsPunct(c: byte) { IsGraph(c) && !IsAlnum(c) }
  predicate IsSpace(c: byte) { c == 32 || 9 <= c <= 13 }
  predicate IsHex(c: byte) { IsDigit(c) || Ch('a') <= c <= Ch('f') || Ch('A') <= c <= Ch('F') }

  function ToLower(c: byte): byte {
    if IsUpper(c) then c + 32 else c
  }

  /** `%cl` against `c`: a letter names a class, its upper case the complement, anything else itself. */
  predicate MatchClass(c: byte, cl: byte) {
    var l := ToLower(cl);
    if l == Ch('a') then IsAlpha(c) == IsLower(cl)
    else if l == Ch('c') then IsControl(c) == IsLower(cl)
    else if l == Ch('d') then IsDigit(c) == IsLower(cl)
    else if l == Ch('g') then IsGraph(c) == IsLower(cl)
    else if l == Ch('l') then IsLower(c) == IsLower(cl)
    else if l == Ch('p') then IsPunct(c) == IsLower(cl)
    else if l == Ch('s') then IsSpace(c) == IsLower(cl)
    else if l == Ch('u') then IsUpper(c) == IsLower(cl)
    else if l == Ch('w') then IsAlnum(c) == IsLower(cl)
    else if l == Ch('x') then IsHex(c) == IsLower(cl)
    else if l == Ch('z') then (c == 0) == IsLower(cl)
    else cl == c
  }

  // ----- bracket classes -----

  /** First unescaped `]` at or after `q`, where the character at `q` itself is always a member. */
  function BracketEnd(pat: Text, q: nat): (r: ClassEnd)
    ensures if r.EndsAt? then q < r.pos <= |pat| else r.error == MissingBracket
    decreases |pat| - q
  {
    if q >= |pat| then Bad(MissingBracket)
    else
      var next := if pat[q] == Ch('%') && q + 1 < |pat| then q + 2 else q + 1;
      if At(pat, next) == Ch(']') then EndsAt(next + 1) else BracketEnd(pat, next)
  }

  /** Where the single-character item at `p` ends. */
  function ItemEnd(pat: Text, p: nat): (r: ClassEnd)
    requires p < |pat|
    ensures if r.EndsAt? then p < r.pos <= |pat| else r.error != TooComplex
  {
    if At(pat, p) == Ch('%') then
      if p + 1 == |pat| then Bad(EndsWithPercent) else EndsAt(p + 2)
    else if At(pat, p) == Ch('[') then
      BracketEnd(pat, if At(pat, p + 1) == Ch('^') then p + 2 else p + 1)
    else EndsAt(p + 1)
  }

  datatype Member = Class(cl: byte) | Range(lo: byte, hi: byte)

  /** The members written between `q` and the closing bracket at `ec`. */
  function Members(pat: Text, q: nat, ec: nat): seq<Member>
    decreases ec - q
  {
    if q >= ec then []
    else if At(pat, q) == Ch('%') then [Class(At(pat, q + 1))] + Members(pat, q + 2, ec)
    else if At(pat, q + 1) == Ch('-') && q + 2 < ec then [Range(At(pat, q), At(pat, q + 2))] + Members(pat, q + 3, ec)
    else [Range(At(pat, q), At(pat, q))] + Members(pat, q + 1, ec)
  }

  predicate Contains(m: Member, c: byte) {
    match m
    case Class(cl) => MatchClass(c, cl)
    case Range(lo, hi) => lo <= c <= hi
  }

  predicate SomeContains(ms: seq<Member>, c: byte) {
    exists m :: m in ms && Contains(m, c)
  }

  /** Membership of `c` in the class opened at `p` and closed at `ec`. */
  predicate InBracket(pat: Text, c: byte, p: nat, ec: nat) {
    if At(pat, p + 1) == Ch('^') then !SomeContains(Members(pat, p + 2, ec), c)
    else SomeContains(Members(pat, p + 1, ec), c)
  }

  /** Does the item at `p`, ending at `ep`, match the subject character at `s`? */
  predicate Single(src: Text, pat: Text, s: nat, p: nat, ep: nat) {
    s < |src| &&
    if At(pat, p) == Ch('.') then true
    else if At(pat, p) == Ch('%') then MatchClass(src[s], At(pat, p + 1))
    else if At(pat, p) == Ch('[') then ep > 0 && InBracket(pat, src[s], p, ep - 1)
    else At(pat, p) == src[s]
  }

  /** How many times in a row the item matches from `s` on. */
  function Run(src: Text, pat: Text, s: nat, p: nat, ep: nat): (n: nat)
    ensures s <= |src| ==> s + n <= |src|
    decreases |src| - s
  {
    if Single(src, pat, s, p, ep) then 1 + Run(src, pat, s + 1, p, ep) else 0
  }

  // ----- repetition -----

  function Down(hi: int, lo: nat): seq<nat>
    decreases hi - lo + 1
  {
    if hi < lo then [] else [hi] + Down(hi - 1, lo)
  }

  function Up(lo: nat, hi: nat): seq<nat>
    decreases hi - lo
  {
    if lo > hi then [] else [lo] + if lo == hi then [] else Up(lo + 1, hi)
  }

  predicate IsSuffix(c: byte) {
    c == Ch('*') || c == Ch('+') || c == Ch('-') || c == Ch('?')
  }

  /** The repetition counts a suffix allows when at most `n` are possible, in order of preference. */
  function Counts(suffix: byte, n: nat): seq<nat> {
    if suffix == Ch('*') then Down(n, 0)
    else if suffix == Ch('+') then Down(n, 1)
    else if suffix == Ch('-') then Up(0, n)
    else if suffix == Ch('?') then (if n > 0 then [1, 0] else [0])
    else if n > 0 then [1] else []
  }

  // ----- balances, frontiers, captures -----

  /** Scans from `i` at nesting `depth`; the position after the closer that brings it to 0. */
  function Balance(src: Text, i: nat, depth: nat, open: byte, close: byte): Option<nat>
    decreases |src| - i
  {
    if i >= |src| then None
    else if src[i] == close then
      if depth <= 1 then Some(i + 1) else Balance(src, i + 1, depth - 1, open, close)
    else Balance(src, i + 1, if src[i] == open then depth + 1 else depth, open, close)
  }

  /** `%f[set]` holds where a character outside the set is followed by one inside it. */
  predicate Frontier(src: Text, pat: Text, s: nat, p: nat, ep: nat) {
    var previous := if s == 0 then 0 else At(src, s - 1);
    ep > 0 && !InBracket(pat, previous, p, ep - 1) && InBracket(pat, At(src, s), p, ep - 1)
  }

  /** Index of the innermost capture still open. */
  function LastUnfinished(caps: seq<Capture>): (l: int)
    ensures -1 <= l < |caps|
    ensures l >= 0 ==> caps[l].len == CAP_UNFINISHED
  {
    if caps == [] then -1
    else if caps[|caps| - 1].len == CAP_UNFINISHED then |caps| - 1
    else LastUnfinished(caps[..|caps| - 1])
  }

  predicate ValidIndex(caps: seq<Capture>, l: int) {
    0 <= l < |caps| && caps[l].len != CAP_UNFINISHED
  }

  /** Does the text of a closed capture recur at `s`? A position capture never does. */
  predicate Recurs(src: Text, s: nat, c: Capture) {
    && c.len >= 0 && c.init + c.len <= |src| && s + c.len <= |src|
    && src[s..s + c.len] == src[c.init..c.init + c.len]
  }

  // ----- the list of successes -----

  /** All outcomes of matching `pat[p..]` at `src[s..]` under captures `caps`, best first. */
  function Successes(src: Text, pat: Text, s: nat, p: nat, caps: seq<Capture>): seq<Outcome>
    decreases |pat| - p, 0, 0
  {
    if p >= |pat| then [Match(s, caps)]
    else if pat[p] == Ch('(') then
      if At(pat, p + 1) == Ch(')') then AfterOpen(src, pat, s, p + 2, caps, CAP_POSITION)
      else AfterOpen(src, pat, s, p + 1, caps, CAP_UNFINISHED)
    else if pat[p] == Ch(')') then
      var l := LastUnfinished(caps);
      if l < 0 then [Malformed(InvalidPatternCapture)]
      else Successes(src, pat, s, p + 1, caps[l := Capture(caps[l].init, s - caps[l].init)])
    else if pat[p] == Ch('$') && p + 1 == |pat| then
      if s == |src| then [Match(s, caps)] else []
    else if pat[p] == Ch('%') && At(pat, p + 1) == Ch('b') then
      if p + 3 >= |pat| then [Malformed(MissingArgumentsToB)]
      else if At(src, s) != At(pat, p + 2) then []
      else
        match Balance(src, s + 1, 1, At(pat, p + 2), At(pat, p + 3))
        case None => []
        case Some(e) => Successes(src, pat, e, p + 4, caps)
    else if pat[p] == Ch('%') && At(pat, p + 1) == Ch('f') then
      if p + 2 >= |pat| || pat[p + 2] != Ch('[') then [Malformed(MissingBracketAfterF)]
      else
        match ItemEnd(pat, p + 2)
        case Bad(e) => [Malformed(e)]
        case EndsAt(ep) =>
          if Frontier(src, pat, s, p + 2, ep) then Successes(src, pat, s, ep, caps) else []
    else if pat[p] == Ch('%') && IsDigit(At(pat, p + 1)) then
      var l := At(pat, p + 1) - Ch('1');
      if !ValidIndex(caps, l) then [Malformed(InvalidCaptureIndex(l + 1))]
      else if Recurs(src, s, caps[l]) then Successes(src, pat, s + caps[l].len, p + 2, caps)
      else []
    else
      match ItemEnd(pat, p)
      case Bad(e) => [Malformed(e)]
      case EndsAt(ep) =>
        var suffix := At(pat, ep);
        var after := if IsSuffix(suffix) then ep + 1 else ep;
        EachCount(src, pat, s, Counts(suffix, Run(src, pat, s, p, ep)), after, caps)
  }

  function AfterOpen(src: Text, pat: Text, s: nat, p: nat, caps: seq<Capture>, what: int): seq<Outcome>
    decreases |pat| - p, 1, 0
  {
    if |caps| >= MAX_CAPTURES then [Malformed(TooManyCaptures)]
    else Successes(src, pat, s, p, caps + [Capture(s, what)])
  }

  /** The successes after each admissible number of repetitions, in the order given. */
  function EachCount(src: Text, pat: Text, s: nat, counts: seq<nat>, p: nat, caps: seq<Capture>): seq<Outcome>
    decreases |pat| - p, 1, |counts|
  {
    if counts == [] then []
    else Successes(src, pat, s + counts[0], p, caps) + EachCount(src, pat, s, counts[1..], p, caps)
  }
}
