/** String literals: unescaping in place, against the spellings of a text. */
module Scanner {
  import opened Options
  import opened Utf8

  const INVALID_UTF8: nat := 0xFFFF_FFFF
  const BACKSLASH: byte := 0x5C
  const LETTER_U: byte := 0x75

  datatype Mode = Scanning | Escaping | Unicode(count: nat, value: nat)

  /** What one character does: it ends the literal, stands for a code point, changes the mode or is an error. */
  datatype Step = Close | Emit(codepoint: nat) | Enter(mode: Mode) | Raise(message: string)

  function EscapeOf(c: nat): (code: Option<nat>) {
    if c == 0x27 || c == 0x22 || c == BACKSLASH then Some(c)
    else if c == 0x6E then Some(0x0A)
    else if c == 0x72 then Some(0x0D)
    else if c == 0x74 then Some(0x09)
    else None
  }

  function HexDigit(c: nat): (value: Option<nat>)
    ensures value.Some? ==> value.value < 16
  {
    if 0x30 <= c <= 0x39 then Some(c - 0x30)
    else if 0x61 <= c <= 0x66 then Some(c - 0x61 + 10)
    else if 0x41 <= c <= 0x46 then Some(c - 0x41 + 10)
    else None
  }

  function StepOf(c: nat, delimiter: byte, mode: Mode): (step: Step)
    ensures c == INVALID_UTF8 ==> step.Raise?
  {
    match mode
    case Scanning =>
      if c == delimiter then Close
      else if c == BACKSLASH then Enter(Escaping)
      else if c == 0 then Raise("Unterminated string")
      else if c == INVALID_UTF8 then Raise("Invalid UTF-8 character")
      else Emit(c)
    case Escaping =>
      if EscapeOf(c).Some? then Emit(EscapeOf(c).value)
      else if c == LETTER_U then Enter(Unicode(0, 0))
      else if c == 0 then Raise("Unterminated string")
      else if c == INVALID_UTF8 then Raise("Invalid UTF-8 character")
      else Raise("Invalid escape sequence")
    case Unicode(count, value) =>
      if HexDigit(c).None? then Raise("Invalid character in Unicode escape")
      else
        var next := value * 16 + HexDigit(c).value;
        if count + 1 == 4 then Emit(next) else Enter(Unicode(count + 1, next))
  }

  /** The bytes a literal stands for and the number of bytes it takes in the source, or an error. */
  datatype Scanned = Text(text: seq<byte>, used: nat) | Failed(message: string)

  function After(text: seq<byte>, used: nat, rest: Scanned): Scanned {
    match rest
    case Text(more, n) => Text(text + more, used + n)
    case Failed(message) => Failed(message)
  }

  /** What the decoder makes of the first character. */
  function FirstChar(s: seq<byte>): (c: nat)
    ensures CharLength(s) == 0 ==> c == INVALID_UTF8
  {
    if CharLength(s) == 0 then INVALID_UTF8
    else
      DecodedEncodes(s);
      CharValue(s)
  }

  /** What the rest of a literal stands for, without the final delimiter; `s` ends before the terminating NUL. */
  function Scan(s: seq<byte>, delimiter: byte, mode: Mode): Scanned
    decreases |s|
  {
    if s == [] then Failed("Unterminated string")
    else
      var n := CharLength(s);
      match StepOf(FirstChar(s), delimiter, mode)
      case Close => Text([], n)
      case Raise(message) => Failed(message)
      case Enter(next) => After([], n, Scan(s[n..], delimiter, next))
      case Emit(c) =>
        if c > 0x10FFFF then Failed("Invalid UTF-8 unicode escape")
        else After(Encode(c), n, Scan(s[n..], delimiter, Scanning))
  }

  /** A way to write one code point: as itself, as a backslash and a letter, or as four hexadecimal digits. */
  datatype Piece = Raw(c: nat) | Escaped(letter: byte) | Coded(digits: seq<byte>)

  predicate AllHex(digits: seq<byte>) {
    forall i :: 0 <= i < |digits| ==> HexDigit(digits[i]).Some?
  }

  function HexValue(value: nat, digits: seq<byte>): nat
    requires AllHex(digits)
    decreases |digits|
  {
    if digits == [] then value
    else
      assert AllHex(digits[1..]);
      HexValue(value * 16 + HexDigit(digits[0]).value, digits[1..])
  }

  /** The least number that needs more than `count` hexadecimal digits. */
  function Limit(count: nat): (limit: nat)
    requires count <= 4
  {
    match count case 0 => 1 case 1 => 0x10 case 2 => 0x100 case 3 => 0x1000 case _ => 0x10000
  }

  lemma {:induction false} HexValueBound(count: nat, value: nat, digits: seq<byte>)
    requires count + |digits| <= 4 && AllHex(digits) && value < Limit(count)
    ensures HexValue(value, digits) < Limit(count + |digits|)
    decreases |digits|
  {
    if digits != [] {
      assert AllHex(digits[1..]);
      HexValueBound(count + 1, value * 16 + HexDigit(digits[0]).value, digits[1..]);
    }
  }

  /** The pieces that a literal with this delimiter may hold. */
  predicate Legal(p: Piece, delimiter: byte) {
    match p
    case Raw(c) => Scalar(c) && c != 0 && c != delimiter && c != BACKSLASH
    case Escaped(letter) => EscapeOf(letter).Some?
    case Coded(digits) => |digits| == 4 && AllHex(digits)
  }

  function CodeOf(p: Piece, delimiter: byte): (c: nat)
    requires Legal(p, delimiter)
    ensures c <= 0x10FFFF
  {
    match p
    case Raw(c) => c
    case Escaped(letter) => EscapeOf(letter).value
    case Coded(digits) =>
      HexValueBound(0, 0, digits);
      HexValue(0, digits)
  }

  function Spelling(p: Piece, delimiter: byte): seq<byte>
    requires Legal(p, delimiter)
  {
    match p
    case Raw(c) => Encode(c)
    case Escaped(letter) => [BACKSLASH, letter]
    case Coded(digits) => [BACKSLASH, LETTER_U] + digits
  }

  predicate AllLegal(ps: seq<Piece>, delimiter: byte) {
    forall i :: 0 <= i < |ps| ==> Legal(ps[i], delimiter)
  }

  function Spellings(ps: seq<Piece>, delimiter: byte): seq<byte>
    requires AllLegal(ps, delimiter)
  {
    if ps == [] then [] else Spelling(ps[0], delimiter) + Spellings(ps[1..], delimiter)
  }

  /** The text that pieces stand for, in UTF-8. */
  function Meaning(ps: seq<Piece>, delimiter: byte): seq<byte>
    requires AllLegal(ps, delimiter)
  {
    if ps == [] then [] else Encode(CodeOf(ps[0], delimiter)) + Meaning(ps[1..], delimiter)
  }

  /** `s` starts with a literal body that is made of legal pieces and stands for `text`. */
  ghost predicate Spells(ps: seq<Piece>, delimiter: byte, s: seq<byte>, text: seq<byte>, used: nat) {
    && AllLegal(ps, delimiter) && used <= |s|
    && s[..used] == Spellings(ps, delimiter) + [delimiter]
    && text == Meaning(ps, delimiter)
  }

  predicate Delimiter(b: byte) {
    b == 0x22 || b == 0x27
  }

  /** Below 0x80 a character is its byte, and from there on it is neither a delimiter nor part of an escape. */
  lemma FirstByte(s: seq<byte>)
    requires s != []
    ensures s[0] <= 0x7F ==> CharLength(s) == 1 && FirstChar(s) == s[0]
    ensures s[0] > 0x7F ==> FirstChar(s) > 0x7F
  {
    if CharLength(s) > 0 {
      DecodedEncodes(s);
    }
  }

  /** The result of reading a code point that takes `n` bytes. */
  function Emitted(c: nat, n: nat, s: seq<byte>, delimiter: byte): Scanned
    requires c <= 0x10FFFF && n <= |s|
  {
    After(Encode(c), n, Scan(s[n..], delimiter, Scanning))
  }

  lemma AfterAfter(text: seq<byte>, m: nat, n: nat, rest: Scanned)
    ensures After([], m, After(text, n, rest)) == After(text, m + n, rest)
  {
    if rest.Text? {
      assert [] + (text + rest.text) == text + rest.text;
    }
  }

  lemma HexSplit(s: seq<byte>, n: nat, value: nat)
    requires 1 <= n <= |s|
    ensures AllHex(s[..n]) <==> HexDigit(s[0]).Some? && AllHex(s[1..][..n - 1])
    ensures AllHex(s[1..][..0])
    ensures AllHex(s[..n]) ==> HexValue(value, s[..n]) == HexValue(value * 16 + HexDigit(s[0]).value, s[1..][..n - 1])
  {
    assert s[..n] == [s[0]] + s[1..][..n - 1];
    assert s[..n][1..] == s[1..][..n - 1];
    if HexDigit(s[0]).Some? && AllHex(s[1..][..n - 1]) {
      forall i | 0 <= i < n ensures HexDigit(s[..n][i]).Some? {
        assert i > 0 ==> s[..n][i] == s[1..][..n - 1][i - 1];
      }
    }
  }

  /** One digit of an escape. */
  lemma HexDigitScan(s: seq<byte>, delimiter: byte, count: nat, value: nat)
    requires s != [] && count < 4 && value < Limit(count)
    ensures match HexDigit(s[0])
            case None => Scan(s, delimiter, Unicode(count, value)).Failed?
            case Some(d) =>
              && value * 16 + d < Limit(count + 1)
              && Scan(s, delimiter, Unicode(count, value)) ==
                 if count == 3 then Emitted(value * 16 + d, 1, s, delimiter)
                 else After([], 1, Scan(s[1..], delimiter, Unicode(count + 1, value * 16 + d)))
  {
    hide CharLength, Encode, After;
    FirstByte(s);
  }

  /** The digits of an escape. */
  lemma {:induction false} HexDigitsScan(s: seq<byte>, delimiter: byte, count: nat, value: nat)
    requires count < 4 && value < Limit(count)
    ensures if |s| >= 4 - count && AllHex(s[..4 - count])
            then HexValue(value, s[..4 - count]) <= 0xFFFF
                 && Scan(s, delimiter, Unicode(count, value)) ==
                      Emitted(HexValue(value, s[..4 - count]), 4 - count, s, delimiter)
            else Scan(s, delimiter, Unicode(count, value)).Failed?
    decreases 4 - count
  {
    hide Encode, CharLength, AllHex, StepOf, HexDigit;
    if s != [] {
      HexDigitScan(s, delimiter, count, value);
      if |s| >= 4 - count {
        HexSplit(s, 4 - count, value);
      }
      if HexDigit(s[0]).Some? {
        var next := value * 16 + HexDigit(s[0]).value;
        if count < 3 {
          HexDigitsScan(s[1..], delimiter, count + 1, next);
          if |s| >= 4 - count && AllHex(s[..4 - count]) {
            assert s[1..][3 - count..] == s[4 - count..];
            AfterAfter(Encode(HexValue(value, s[..4 - count])), 1, 3 - count,
              Scan(s[4 - count..], delimiter, Scanning));
          }
        } else {
          assert HexValue(next, s[1..][..0]) == next;
        }
      }
    }
  }

  lemma ScanUnfolds(s: seq<byte>, delimiter: byte, mode: Mode)
    requires s != []
    ensures match StepOf(FirstChar(s), delimiter, mode)
            case Close => Scan(s, delimiter, mode) == Text([], CharLength(s))
            case Raise(message) => Scan(s, delimiter, mode) == Failed(message)
            case Enter(next) =>
              Scan(s, delimiter, mode) == After([], CharLength(s), Scan(s[CharLength(s)..], delimiter, next))
            case Emit(c) => c <= 0x10FFFF ==> Scan(s, delimiter, mode) == Emitted(c, CharLength(s), s, delimiter)
  {
    hide StepOf, CharLength, Encode, After;
  }

  /** A backslash and what follows it. */
  lemma EscapeScan(s: seq<byte>, delimiter: byte)
    requires Delimiter(delimiter) && s != [] && s[0] == BACKSLASH
    ensures |s| >= 2 && EscapeOf(s[1]).Some? ==>
              Scan(s, delimiter, Scanning) == Emitted(EscapeOf(s[1]).value, 2, s, delimiter)
    ensures |s| >= 6 && s[1] == LETTER_U && AllHex(s[2..6]) ==>
              HexValue(0, s[2..6]) <= 0xFFFF
              && Scan(s, delimiter, Scanning) == Emitted(HexValue(0, s[2..6]), 6, s, delimiter)
    ensures |s| < 2 || (EscapeOf(s[1]).None? && !(|s| >= 6 && s[1] == LETTER_U && AllHex(s[2..6]))) ==>
              Scan(s, delimiter, Scanning).Failed?
  {
    hide Scan, CharLength, Encode, AllHex, HexValue;
    FirstByte(s);
    ScanUnfolds(s, delimiter, Scanning);
    var t := s[1..];
    if t != [] {
      FirstByte(t);
      ScanUnfolds(t, delimiter, Escaping);
      var u := t[1..];
      assert u == s[2..];
      if EscapeOf(t[0]).Some? {
        AfterAfter(Encode(EscapeOf(t[0]).value), 1, 1, Scan(u, delimiter, Scanning));
      } else if t[0] == LETTER_U {
        HexDigitsScan(u, delimiter, 0, 0);
        if |u| >= 4 && AllHex(u[..4]) {
          assert u[..4] == s[2..6] && u[4..] == s[6..];
          var text := Encode(HexValue(0, u[..4]));
          AfterAfter(text, 1, 4, Scan(s[6..], delimiter, Scanning));
          AfterAfter(text, 1, 5, Scan(s[6..], delimiter, Scanning));
        } else if |u| >= 4 {
          assert u[..4] == s[2..6];
        }
      }
    } else {
      assert Scan(t, delimiter, Escaping).Failed? by { EmptyScan(delimiter, Escaping); }
    }
  }

  lemma EmptyScan(delimiter: byte, mode: Mode)
    ensures Scan([], delimiter, mode).Failed?
  {
  }

  /** A character that stands for itself. */
  lemma RawScan(s: seq<byte>, delimiter: byte)
    requires Delimiter(delimiter) && s != [] && s[0] != BACKSLASH && s[0] != delimiter
    ensures if CharLength(s) > 0 && s[0] != 0
            then Legal(Raw(FirstChar(s)), delimiter) && Encode(FirstChar(s)) == s[..CharLength(s)]
                 && Scan(s, delimiter, Scanning) == Emitted(FirstChar(s), CharLength(s), s, delimiter)
            else Scan(s, delimiter, Scanning).Failed?
  {
    hide Scan, CharLength, Encode, After;
    FirstByte(s);
    ScanUnfolds(s, delimiter, Scanning);
    if CharLength(s) > 0 {
      DecodedEncodes(s);
    }
  }

  lemma PieceScan(p: Piece, delimiter: byte, rest: seq<byte>)
    requires Delimiter(delimiter) && Legal(p, delimiter)
    ensures Scan(Spelling(p, delimiter) + rest, delimiter, Scanning)
            == After(Encode(CodeOf(p, delimiter)), |Spelling(p, delimiter)|, Scan(rest, delimiter, Scanning))
  {
    hide Scan, After, HexValue, CharLength, EscapeOf, HexDigit;
    var n := |Spelling(p, delimiter)|;
    var s := Spelling(p, delimiter) + rest;
    assert s[n..] == rest;
    match p
    case Raw(c) =>
      EncodedDecodes(c, rest);
      FirstByte(s);
      assert s[0] == Encode(c)[0];
      RawScan(s, delimiter);
    case Escaped(letter) =>
      assert s[0] == BACKSLASH && s[1] == letter;
      EscapeScan(s, delimiter);
    case Coded(digits) =>
      assert s[0] == BACKSLASH && s[1] == LETTER_U && s[2..6] == digits;
      EscapeScan(s, delimiter);
  }

  /** Every spelling of a text scans to its UTF-8 bytes, whatever follows the literal. */
  lemma {:induction false} SpellingsScan(ps: seq<Piece>, delimiter: byte, rest: seq<byte>)
    requires Delimiter(delimiter) && AllLegal(ps, delimiter)
    ensures Scan(Spellings(ps, delimiter) + [delimiter] + rest, delimiter, Scanning)
            == Text(Meaning(ps, delimiter), |Spellings(ps, delimiter)| + 1)
  {
    hide CharLength, Encode, StepOf, Spelling, CodeOf, Legal;
    if ps == [] {
      var s := [delimiter] + rest;
      assert Spellings(ps, delimiter) + [delimiter] + rest == s;
      FirstByte(s);
      ClosingScan(s, delimiter);
    } else {
      SpellingsScan(ps[1..], delimiter, rest);
      PieceScan(ps[0], delimiter, Spellings(ps[1..], delimiter) + [delimiter] + rest);
      assert Spellings(ps, delimiter) + [delimiter] + rest
          == Spelling(ps[0], delimiter) + (Spellings(ps[1..], delimiter) + [delimiter] + rest);
    }
  }

  lemma ClosingScan(s: seq<byte>, delimiter: byte)
    requires Delimiter(delimiter) && s != [] && s[0] == delimiter
    ensures Scan(s, delimiter, Scanning) == Text([], 1)
  {
    FirstByte(s);
  }

  /** Only spellings scan. */
  lemma {:induction false} ScannedIsSpelled(s: seq<byte>, delimiter: byte) returns (ps: seq<Piece>)
    requires Delimiter(delimiter) && Scan(s, delimiter, Scanning).Text?
    ensures var r := Scan(s, delimiter, Scanning); Spells(ps, delimiter, s, r.text, r.used)
    decreases |s|
  {
    hide Scan, CharLength, Encode, Spelling, CodeOf, HexValue, AllHex, EscapeOf, Legal;
    EmptyScan(delimiter, Scanning);
    if s[0] == delimiter {
      ClosingScan(s, delimiter);
      ps := [];
      assert s[..1] == [delimiter];
    } else {
      var p := FirstPiece(s, delimiter);
      var n := |Spelling(p, delimiter)|;
      var more := ScannedIsSpelled(s[n..], delimiter);
      ps := [p] + more;
      SpellsMore(p, more, delimiter, s);
    }
  }

  /** The first piece of a literal that scans. */
  lemma FirstPiece(s: seq<byte>, delimiter: byte) returns (p: Piece)
    requires Delimiter(delimiter) && s != [] && s[0] != delimiter && Scan(s, delimiter, Scanning).Text?
    ensures Legal(p, delimiter) && 0 < |Spelling(p, delimiter)| <= |s|
    ensures s[..|Spelling(p, delimiter)|] == Spelling(p, delimiter)
    ensures Scan(s, delimiter, Scanning) == Emitted(CodeOf(p, delimiter), |Spelling(p, delimiter)|, s, delimiter)
  {
    hide Scan, CharLength, Encode, After, HexDigit, HexValue;
    if s[0] != BACKSLASH {
      RawScan(s, delimiter);
      p := Raw(FirstChar(s));
    } else {
      EscapeScan(s, delimiter);
      if EscapeOf(s[1]).Some? {
        p := Escaped(s[1]);
        assert s[..2] == [s[0], s[1]];
      } else {
        p := Coded(s[2..6]);
        assert s[..6] == [s[0], s[1]] + s[2..6];
      }
    }
  }

  lemma SpellsMore(p: Piece, more: seq<Piece>, delimiter: byte, s: seq<byte>)
    requires Legal(p, delimiter) && |Spelling(p, delimiter)| <= |s|
    requires s[..|Spelling(p, delimiter)|] == Spelling(p, delimiter)
    requires Scan(s, delimiter, Scanning) == Emitted(CodeOf(p, delimiter), |Spelling(p, delimiter)|, s, delimiter)
    requires Scan(s, delimiter, Scanning).Text?
    requires var t := s[|Spelling(p, delimiter)|..]; var r := Scan(t, delimiter, Scanning);
             r.Text? && Spells(more, delimiter, t, r.text, r.used)
    ensures var r := Scan(s, delimiter, Scanning); Spells([p] + more, delimiter, s, r.text, r.used)
  {
    hide Scan, CharLength, Encode, Spelling, CodeOf, HexValue, AllHex, EscapeOf, Legal;
    var n := |Spelling(p, delimiter)|;
    var used := Scan(s[n..], delimiter, Scanning).used;
    var ps := [p] + more;
    assert ps[0] == p && ps[1..] == more;
    assert AllLegal(ps, delimiter) by {
      forall i | 0 <= i < |ps| ensures Legal(ps[i], delimiter) {
        assert i > 0 ==> ps[i] == more[i - 1];
      }
    }
    assert s[..n + used] == s[..n] + s[n..][..used];
    assert Spellings(ps, delimiter) == Spelling(p, delimiter) + Spellings(more, delimiter);
    assert Spelling(p, delimiter) + (Spellings(more, delimiter) + [delimiter])
        == Spellings(ps, delimiter) + [delimiter];
  }

  /** A literal scans just when it is spelled from legal pieces, and then to what they mean. */
  lemma ScansIffSpelled(s: seq<byte>, delimiter: byte, text: seq<byte>, used: nat)
    requires Delimiter(delimiter)
    ensures Scan(s, delimiter, Scanning) == Text(text, used) <==> exists ps :: Spells(ps, delimiter, s, text, used)
  {
    hide Scan, CharLength, Spellings, Meaning;
    if Scan(s, delimiter, Scanning) == Text(text, used) {
      var ps := ScannedIsSpelled(s, delimiter);
    }
    forall ps | Spells(ps, delimiter, s, text, used) ensures Scan(s, delimiter, Scanning) == Text(text, used) {
      SpellingsScan(ps, delimiter, s[used..]);
      assert s == s[..used] + s[used..];
      assert |s[..used]| == |Spellings(ps, delimiter)| + 1;
    }
  }

  type scalar = c: int | Scalar(c)

  function EncodeAll(text: seq<scalar>): seq<byte> {
    if text == [] then [] else Encode(text[0]) + EncodeAll(text[1..])
  }

  /** Pieces that write a text, one for each of its code points. */
  ghost predicate Writes(ps: seq<Piece>, delimiter: byte, text: seq<scalar>) {
    AllLegal(ps, delimiter) && |ps| == |text| && forall i :: 0 <= i < |ps| ==> CodeOf(ps[i], delimiter) == text[i]
  }

  /** Each code point escaped only where it must be. */
  function Escape(text: seq<scalar>, delimiter: byte): seq<Piece> {
    if text == [] then []
    else
      [if text[0] == delimiter then Escaped(delimiter) else if text[0] == BACKSLASH then Escaped(BACKSLASH)
                                                            else Raw(text[0])]
      + Escape(text[1..], delimiter)
  }

  /** Every text without a NUL can be written. */
  lemma {:induction false} EscapeWrites(text: seq<scalar>, delimiter: byte)
    requires Delimiter(delimiter) && 0 !in text
    ensures Writes(Escape(text, delimiter), delimiter, text)
  {
    if text != [] {
      EscapeWrites(text[1..], delimiter);
    }
  }

  lemma {:induction false} WrittenMeaning(ps: seq<Piece>, delimiter: byte, text: seq<scalar>)
    requires Writes(ps, delimiter, text)
    ensures Meaning(ps, delimiter) == EncodeAll(text)
  {
    hide CodeOf, Legal, Encode;
    if ps != [] {
      WrittenMeaning(ps[1..], delimiter, text[1..]);
    }
  }

  /** Scanning inverts writing: however a text is written, the literal holds exactly its UTF-8 bytes. */
  lemma LiteralsRoundTrip(text: seq<scalar>, ps: seq<Piece>, delimiter: byte, rest: seq<byte>)
    requires Delimiter(delimiter) && Writes(ps, delimiter, text)
    ensures Scan(Spellings(ps, delimiter) + [delimiter] + rest, delimiter, Scanning)
            == Text(EncodeAll(text), |Spellings(ps, delimiter)| + 1)
  {
    SpellingsScan(ps, delimiter, rest);
    WrittenMeaning(ps, delimiter, text);
  }

  /** Octets that are UTF-8 characters one after the other. */
  predicate ValidUtf8(s: seq<byte>)
    decreases |s|
  {
    s == [] || (CharLength(s) > 0 && ValidUtf8(s[CharLength(s)..]))
  }

  /** The text of a literal is valid UTF-8 exactly when no surrogate is escaped. */
  lemma {:induction false} MeaningIsUtf8Iff(ps: seq<Piece>, delimiter: byte)
    requires AllLegal(ps, delimiter)
    ensures ValidUtf8(Meaning(ps, delimiter)) <==> forall p :: p in ps ==> Scalar(CodeOf(p, delimiter))
    decreases |ps|
  {
    hide CharLength, Encode, CodeOf, Legal;
    if ps != [] {
      var c, rest := CodeOf(ps[0], delimiter), Meaning(ps[1..], delimiter);
      MeaningIsUtf8Iff(ps[1..], delimiter);
      assert forall p :: p in ps <==> p == ps[0] || p in ps[1..];
      if Scalar(c) {
        EncodedDecodes(c, rest);
        assert (Encode(c) + rest)[|Encode(c)|..] == rest;
      } else {
        SurrogatesAreNotUtf8(c, rest);
      }
    }
  }

  /** `\uD800` is a legal escape, and the text it stands for is not UTF-8. */
  lemma EscapedSurrogate(delimiter: byte)
    ensures
      var ps := [Coded([0x44, 0x38, 0x30, 0x30])];
      AllLegal(ps, delimiter) && CodeOf(ps[0], delimiter) == 0xD800 && !ValidUtf8(Meaning(ps, delimiter))
  {
    var digits := [0x44, 0x38, 0x30, 0x30];
    var p := Coded(digits);
    assert HexDigit(0x44) == Some(13) && HexDigit(0x38) == Some(8) && HexDigit(0x30) == Some(0);
    assert digits[1..] == [0x38, 0x30, 0x30] && digits[1..][1..] == [0x30, 0x30] && digits[1..][1..][1..] == [0x30];
    assert Legal(p, delimiter);
    assert HexValue(0, digits) == HexValue(13, digits[1..]) == HexValue(13 * 16 + 8, digits[1..][1..])
        == HexValue((13 * 16 + 8) * 16, digits[1..][1..][1..]) == 0xD800;
    assert CodeOf(p, delimiter) == 0xD800;
    assert p in [p];
    MeaningIsUtf8Iff([p], delimiter);
  }

  /** A token, as a stretch of the source buffer, or a lexical error. */
  datatype Token = Lexeme(start: nat, length: nat) | ErrorToken(message: string)

  lemma OneOctet(c: nat)
    requires c <= 0x7F
    ensures Encode(c) == [c]
  {
  }

  /** The octets with the masks that keep the bits of one octet. */
  lemma MaskedOctets(c: nat)
    requires 0x7F < c <= 0x10FFFF
    ensures c <= 0x7FF ==> Encode(c) == [0xC0 + c / 64 % 32, 0x80 + c % 64]
    ensures 0x7FF < c <= 0xFFFF ==> Encode(c) == [0xE0 + c / 4096 % 16, 0x80 + c / 64 % 64, 0x80 + c % 64]
    ensures 0xFFFF < c ==>
              Encode(c) == [0xF0 + c / 262144 % 8, 0x80 + c / 4096 % 64, 0x80 + c / 64 % 64, 0x80 + c % 64]
  {
  }

  /** What a character read in a mode leaves between the write cursor and the read cursor. */
  function Pending(mode: Mode): nat {
    match mode
    case Scanning => 0
    case Escaping => 1
    case Unicode(count, _) => 2 + count
  }

  predicate InMode(mode: Mode) {
    mode.Unicode? ==> mode.count < 4 && mode.value < Limit(mode.count)
  }

  /** Going on with a literal of which `text` has been read from `used` bytes. */
  lemma Resume(text: seq<byte>, used: nat, s: seq<byte>, delimiter: byte, mode: Mode)
    requires s != []
    ensures var n := CharLength(s); var total := After(text, used, Scan(s, delimiter, mode));
            match StepOf(FirstChar(s), delimiter, mode)
            case Close => total == Text(text, used + n)
            case Raise(message) => total == Failed(message)
            case Enter(next) => total == After(text, used + n, Scan(s[n..], delimiter, next))
            case Emit(c) =>
              c <= 0x10FFFF ==> total == After(text + Encode(c), used + n, Scan(s[n..], delimiter, Scanning))
  {
    hide Scan, StepOf, CharLength, Encode;
    ScanUnfolds(s, delimiter, mode);
    assert text + [] == text;
    match StepOf(FirstChar(s), delimiter, mode)
    case Emit(c) =>
      if c <= 0x10FFFF && Scan(s[CharLength(s)..], delimiter, Scanning).Text? {
        var more := Scan(s[CharLength(s)..], delimiter, Scanning).text;
        assert text + (Encode(c) + more) == text + Encode(c) + more;
      }
    case Enter(next) =>
      if Scan(s[CharLength(s)..], delimiter, next).Text? {
        var more := Scan(s[CharLength(s)..], delimiter, next).text;
        assert [] + more == more;
      }
    case _ =>
  }

  /** A character is as long as what it writes when it stands for itself. */
  lemma Fits(s: seq<byte>)
    requires s != [] && FirstChar(s) != INVALID_UTF8
    ensures 0 < CharLength(s) && FirstChar(s) <= 0x10FFFF && |Encode(FirstChar(s))| == CharLength(s)
  {
    DecodedEncodes(s);
  }

  /** A character that goes on with the literal leaves room for what it writes. */
  lemma Room(s: seq<byte>, delimiter: byte, mode: Mode)
    requires Delimiter(delimiter) && InMode(mode) && s != [] && !StepOf(FirstChar(s), delimiter, mode).Raise?
    ensures 0 < CharLength(s) <= |s|
    ensures match StepOf(FirstChar(s), delimiter, mode)
            case Close => mode == Scanning && CharLength(s) == 1
            case Emit(c) => c <= 0x10FFFF && |Encode(c)| <= Pending(mode) + CharLength(s)
            case Enter(next) => InMode(next) && Pending(next) <= Pending(mode) + CharLength(s)
            case Raise(_) => true
  {
    FirstByte(s);
    DecodedEncodes(s);
  }

  class Scanner {
    /** The source, up to a terminating NUL at `end`. */
    const source: array<byte>
    ghost const end: nat
    var start: nat
    var current: nat

    /** Nothing between the read cursor and `end` is a NUL; an error may leave the cursor just behind the NUL. */
    ghost predicate Valid()
      reads this, source
    {
      && end < source.Length && source[end] == 0 && current <= end + 1
      && forall i :: current <= i < end ==> source[i] != 0
    }

    ghost function Unread(): seq<byte>
      requires Valid() && current <= end
      reads this, source
    {
      source[current..end]
    }

    constructor (text: array<byte>, ghost n: nat)
      requires n < text.Length && text[n] == 0 && forall i :: 0 <= i < n ==> text[i] != 0
      ensures Valid() && source == text && end == n && start == 0 && current == 0
    {
      source, end, start, current := text, n, 0, 0;
    }

    /** Reads one character. */
    method Utf8Advance() returns (cp: nat)
      requires Valid() && current < end
      modifies this`current
      ensures Valid() && old(current) < current && cp == FirstChar(old(Unread()))
      ensures CharLength(old(Unread())) > 0 ==> current == old(current) + CharLength(old(Unread()))
    {
      ghost var s := source[current..end];
      var codepoint: nat, state: nat := 0, ACCEPT;
      while true
        invariant old(current) <= current <= end && Reading(s, current - old(current), state, codepoint)
        decreases end - current
      {
        var ch := source[current];
        ghost var n := current - old(current);
        assert current < end ==> ch == s[n];
        current := current + 1;
        DecoderStep(s, n, state, codepoint, ch);
        var (next, value) := DecodeByte(state, codepoint, ch);
        state, codepoint := next, value;
        if state == ACCEPT {
          return codepoint;
        }
        if state == REJECT {
          return INVALID_UTF8;
        }
        // A NUL is always accepted or rejected, so it never ends the loop.
        assert ch > 0;
      }
    }

    /** Writes a code point in UTF-8. */
    method OutputUtf8(codepoint: nat, output: nat) returns (written: bool, next: nat)
      requires codepoint <= 0x10FFFF ==> output + |Encode(codepoint)| <= source.Length
      modifies source
      ensures written <==> codepoint <= 0x10FFFF
      ensures if written then Wrote(old(source[..]), output, Encode(codepoint)) && next == output + |Encode(codepoint)|
              else unchanged(source) && next == output
    {
      hide Encode;
      written, next := true, output;
      if codepoint <= 0x7F {
        OneOctet(codepoint);
        source[output] := codepoint;
        next := output + 1;
      } else if codepoint <= 0x7FF {
        MaskedOctets(codepoint);
        source[output] := 0xC0 + codepoint / 64 % 32;
        source[output + 1] := 0x80 + codepoint % 64;
        next := output + 2;
      } else if codepoint <= 0xFFFF {
        MaskedOctets(codepoint);
        source[output] := 0xE0 + codepoint / 4096 % 16;
        source[output + 1] := 0x80 + codepoint / 64 % 64;
        source[output + 2] := 0x80 + codepoint % 64;
        next := output + 3;
      } else if codepoint <= 0x10FFFF {
        MaskedOctets(codepoint);
        source[output] := 0xF0 + codepoint / 262144 % 8;
        source[output + 1] := 0x80 + codepoint / 4096 % 64;
        source[output + 2] := 0x80 + codepoint / 64 % 64;
        source[output + 3] := 0x80 + codepoint % 64;
        next := output + 4;
      } else {
        written := false;
      }
    }

    /** The buffer holds `bytes` at `at`, and is as `before` elsewhere. */
    ghost predicate Wrote(before: seq<byte>, at: nat, bytes: seq<byte>)
      reads this, source
    {
      && at + |bytes| <= |before| == source.Length
      && forall i :: 0 <= i < source.Length ==> source[i] == if at <= i < at + |bytes| then bytes[i - at] else before[i]
    }

    lemma Extended(before: seq<byte>, from: nat, at: nat, bytes: seq<byte>)
      requires Wrote(before, at, bytes) && from <= at
      ensures source[from..at + |bytes|] == before[from..at] + bytes
    {
    }

    /** What the switch of the scanning loop does with one character. */
    method Character(cp: nat, delimiter: byte, mode: Mode, output: nat)
      returns (nextMode: Mode, next: nat, complete: bool, error: Option<string>)
      requires Delimiter(delimiter) && InMode(mode) && output + Pending(mode) < source.Length
      requires mode.Scanning? && cp != INVALID_UTF8 ==> cp <= 0x10FFFF && output + |Encode(cp)| <= source.Length
      modifies source
      ensures match StepOf(cp, delimiter, mode)
              case Close => error.None? && complete && next == output + 1 && Wrote(old(source[..]), output, [delimiter])
              case Emit(c) =>
                && error.None? && !complete && nextMode == Scanning && c <= 0x10FFFF && next == output + |Encode(c)|
                && Wrote(old(source[..]), output, Encode(c))
              case Enter(m) => error.None? && !complete && nextMode == m && next == output && unchanged(source)
              case Raise(message) => error == Some(message) && unchanged(source)
    {
      hide Encode;
      OneOctet(0x0A);
      OneOctet(0x0D);
      OneOctet(0x09);
      OneOctet(delimiter);
      nextMode, next, complete, error := mode, output, false, None;
      var written := true;
      match mode
      case Scanning =>
        if cp == delimiter {
          written, next := OutputUtf8(cp, output);
          complete := true;
        } else if cp == BACKSLASH {
          nextMode := Escaping;
        } else if cp == 0 {
          error := Some("Unterminated string");
        } else if cp == INVALID_UTF8 {
          error := Some("Invalid UTF-8 character");
        } else {
          written, next := OutputUtf8(cp, output);
        }
      case Escaping =>
        nextMode := Scanning;
        if cp == 0x27 || cp == BACKSLASH || cp == 0x22 {
          OneOctet(cp);
          written, next := OutputUtf8(cp, output);
        } else if cp == 0x6E {
          source[output] := 0x0A;
          next := output + 1;
        } else if cp == 0x72 {
          source[output] := 0x0D;
          next := output + 1;
        } else if cp == 0x74 {
          source[output] := 0x09;
          next := output + 1;
        } else if cp == LETTER_U {
          nextMode := Unicode(0, 0);
        } else if cp == 0 {
          error := Some("Unterminated string");
        } else if cp == INVALID_UTF8 {
          error := Some("Invalid UTF-8 character");
        } else {
          error := Some("Invalid escape sequence");
        }
      case Unicode(count, value) =>
        var codepoint := value;
        if 0x30 <= cp <= 0x39 {
          codepoint := value * 16 + (cp - 0x30);
        } else if 0x61 <= cp <= 0x66 {
          codepoint := value * 16 + (cp - 0x61 + 10);
        } else if 0x41 <= cp <= 0x46 {
          codepoint := value * 16 + (cp - 0x41 + 10);
        } else {
          error := Some("Invalid character in Unicode escape");
          return;
        }
        if count + 1 == 4 {
          written, next := OutputUtf8(codepoint, output);
          if !written {
            error := Some("Invalid UTF-8 unicode escape");
            return;
          }
          nextMode := Scanning;
        } else {
          nextMode := Unicode(count + 1, codepoint);
        }
    }

    /** Only the literal itself is written, and only where it has been read. */
    ghost predicate Untouched(before: seq<byte>)
      reads this, source
    {
      |before| == source.Length && forall i :: 0 <= i < source.Length && !(start < i < current) ==>
        source[i] == before[i]
    }

    /** The literal that starts at `start`, as far as it has been read and written: the write cursor stays behind the
        read cursor, what is unread is as it was, and what is written is what has been read. */
    ghost predicate Progress(before: seq<byte>, output: nat, delimiter: byte, mode: Mode)
      reads this, source
    {
      && InMode(mode) && |before| == source.Length && end < source.Length
      && start + 1 <= output && output + Pending(mode) <= current <= end
      && Untouched(before)
      && Scan(before[start + 1..end], delimiter, Scanning)
         == After(source[start + 1..output], current - (start + 1), Scan(before[current..end], delimiter, mode))
    }

    /** The whole literal has been read and written. */
    ghost predicate Complete(before: seq<byte>, output: nat, delimiter: byte)
      reads this, source
    {
      && |before| == source.Length
      && start + 2 <= output <= current <= end < source.Length && source[output - 1] == delimiter
      && Scan(before[start + 1..end], delimiter, Scanning) == Text(source[start + 1..output - 1], current - (start + 1))
    }

    /** As `Progress`, before the character that has just been read: the buffer was `middle` and the cursor at `at`. */
    ghost predicate Midway(before: seq<byte>, middle: seq<byte>, at: nat, output: nat, delimiter: byte, mode: Mode)
      reads this
    {
      && InMode(mode) && |before| == |middle| == source.Length && end < source.Length
      && start + 1 <= output && output + Pending(mode) <= at < end
      && (forall i :: 0 <= i < |middle| && !(start < i < at) ==> middle[i] == before[i])
      && Scan(before[start + 1..end], delimiter, Scanning)
         == After(middle[start + 1..output], at - (start + 1), Scan(before[at..end], delimiter, mode))
    }

    /** The character stands for a code point that has been written. */
    lemma Emits(before: seq<byte>, middle: seq<byte>, at: nat, output: nat, delimiter: byte, mode: Mode, c: nat)
      requires Delimiter(delimiter) && Midway(before, middle, at, output, delimiter, mode)
      requires StepOf(FirstChar(before[at..end]), delimiter, mode) == Emit(c) && c <= 0x10FFFF
      requires Wrote(middle, output, Encode(c)) && current == at + CharLength(before[at..end])
      ensures Progress(before, output + |Encode(c)|, delimiter, Scanning)
    {
      hide Scan, StepOf, Encode, CharLength, FirstChar, After, Delimiter;
      var s := before[at..end];
      Resume(middle[start + 1..output], at - (start + 1), s, delimiter, mode);
      Room(s, delimiter, mode);
      Extended(middle, start + 1, output, Encode(c));
      assert s[CharLength(s)..] == before[current..end];
    }

    /** The character changes the mode. */
    lemma Enters(before: seq<byte>, middle: seq<byte>, at: nat, output: nat, delimiter: byte, mode: Mode, next: Mode)
      requires Delimiter(delimiter) && Midway(before, middle, at, output, delimiter, mode)
      requires StepOf(FirstChar(before[at..end]), delimiter, mode) == Enter(next)
      requires source[..] == middle && current == at + CharLength(before[at..end])
      ensures Progress(before, output, delimiter, next)
    {
      hide Scan, StepOf, Encode, CharLength, FirstChar, After, Delimiter;
      var s := before[at..end];
      Resume(middle[start + 1..output], at - (start + 1), s, delimiter, mode);
      Room(s, delimiter, mode);
      assert source[start + 1..output] == middle[start + 1..output];
      assert s[CharLength(s)..] == before[current..end];
    }

    /** The character is the final delimiter. */
    lemma Closes(before: seq<byte>, middle: seq<byte>, at: nat, output: nat, delimiter: byte, mode: Mode)
      requires Delimiter(delimiter) && Midway(before, middle, at, output, delimiter, mode)
      requires StepOf(FirstChar(before[at..end]), delimiter, mode) == Close
      requires Wrote(middle, output, [delimiter]) && current == at + CharLength(before[at..end])
      ensures Complete(before, output + 1, delimiter) && Untouched(before)
    {
      hide Scan, StepOf, Encode, CharLength, FirstChar, After, Delimiter;
      var s := before[at..end];
      Resume(middle[start + 1..output], at - (start + 1), s, delimiter, mode);
      Room(s, delimiter, mode);
      assert source[start + 1..output] == middle[start + 1..output];
    }

    /** One round of the scanning loop. */
    method Round(ghost before: seq<byte>, delimiter: byte, mode: Mode, output: nat)
      returns (nextMode: Mode, next: nat, complete: bool, error: Option<string>)
      requires Valid() && Delimiter(delimiter) && Progress(before, output, delimiter, mode) && current < end
      modifies this`current, source
      ensures Valid() && Untouched(before) && old(current) < current
      ensures error.Some? ==> Scan(before[start + 1..end], delimiter, Scanning) == Failed(error.value)
      ensures error.None? && complete ==> Complete(before, next, delimiter)
      ensures error.None? && !complete ==> Progress(before, next, delimiter, nextMode)
    {
      hide Scan, StepOf, Encode, CharLength, FirstChar, After, Delimiter, Wrote, Complete, InMode;
      ghost var s := before[current..end];
      assert s == Unread();
      ghost var middle, at: nat := source[..], current;
      assert Midway(before, middle, at, output, delimiter, mode) by {
        assert source[start + 1..output] == middle[start + 1..output];
      }
      Resume(middle[start + 1..output], at - (start + 1), s, delimiter, mode);
      var cp := Utf8Advance();
      if cp != INVALID_UTF8 {
        Fits(s);
      }
      nextMode, next, complete, error := Character(cp, delimiter, mode, output);
      match StepOf(cp, delimiter, mode)
      case Close => Closes(before, middle, at, output, delimiter, mode);
      case Emit(c) => Emits(before, middle, at, output, delimiter, mode, c);
      case Enter(m) => Enters(before, middle, at, output, delimiter, mode, m);
      case Raise(_) =>
    }

    /** The rest of a string literal, unescaped in place: the token is the delimiter, the text and the delimiter. */
    method ScanString(delimiter: byte) returns (token: Token)
      requires Valid() && Delimiter(delimiter) && current == start + 1 <= end && source[start] == delimiter
      modifies this`current, source
      ensures Valid() && Untouched(old(source[..]))
      ensures match Scan(old(Unread()), delimiter, Scanning)
              case Failed(message) => token == ErrorToken(message)
              case Text(text, used) =>
                && token == Lexeme(start, |text| + 2) && |text| + 1 <= used && current == old(current) + used <= end
                && source[start..start + |text| + 2] == [delimiter] + text + [delimiter]
    {
      hide Scan, StepOf, CharLength, After, Delimiter;
      ghost var before := source[..];
      assert before[start + 1..end] == Unread();
      var output: nat, mode: Mode, complete := current, Scanning, false;
      Starts(before, delimiter);
      while !complete
        invariant Valid() && start + 1 <= current && Untouched(before)
        invariant if complete then Complete(before, output, delimiter) else Progress(before, output, delimiter, mode)
        decreases end + 1 - current
      {
        if source[current] == 0 {
          assert current == end;
          EndsEarly(before, output, delimiter, mode);
          return ErrorToken("Unterminated string");
        }
        var error;
        mode, output, complete, error := Round(before, delimiter, mode, output);
        if error.Some? {
          return ErrorToken(error.value);
        }
      }
      assert source[start..output] == [delimiter] + source[start + 1..output - 1] + [delimiter];
      return Lexeme(start, output - start);
    }

    lemma Starts(before: seq<byte>, delimiter: byte)
      requires Valid() && current == start + 1 <= end && before == source[..]
      ensures Progress(before, current, delimiter, Scanning)
    {
      hide Scan, CharLength;
      assert source[start + 1..current] == [];
      AfterAfter([], 0, 0, Scan(before[start + 1..end], delimiter, Scanning));
    }

    lemma EndsEarly(before: seq<byte>, output: nat, delimiter: byte, mode: Mode)
      requires Progress(before, output, delimiter, mode) && current == end
      ensures Scan(before[start + 1..end], delimiter, Scanning) == Failed("Unterminated string")
    {
      assert before[current..end] == [];
    }
  }
}
