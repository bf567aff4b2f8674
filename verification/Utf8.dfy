/** UTF-8 as RFC 3629 defines it, the table-driven decoder, and their agreement. */
module Utf8 {

  type byte = b: int | 0 <= b < 256

  /** A Unicode scalar value: any code point but the surrogates. */
  predicate Scalar(c: int) {
    0 <= c <= 0x10FFFF && !(0xD800 <= c <= 0xDFFF)
  }

  /** Section 3 of RFC 3629: the octets of a code point. The surrogates, which the RFC excludes, get three octets. */
  function Encode(c: nat): (bytes: seq<byte>)
    requires c <= 0x10FFFF
    ensures 1 <= |bytes| <= 4 && (|bytes| <= 3 <==> c <= 0xFFFF)
  {
    if c <= 0x7F then [c]
    else if c <= 0x7FF then [0xC0 + c / 64, 0x80 + c % 64]
    else if c <= 0xFFFF then [0xE0 + c / 4096, 0x80 + c / 64 % 64, 0x80 + c % 64]
    else [0xF0 + c / 262144, 0x80 + c / 4096 % 64, 0x80 + c / 64 % 64, 0x80 + c % 64]
  }

  /** Section 4 of RFC 3629: UTF8-tail. */
  predicate Tail(b: byte) {
    0x80 <= b <= 0xBF
  }

  /** Section 4 of RFC 3629: which second octets may follow the first in UTF8-3 and UTF8-4. */
  predicate Second(lead: byte, b: byte) {
    && Tail(b)
    && (lead == 0xE0 ==> 0xA0 <= b)
    && (lead == 0xED ==> b <= 0x9F)
    && (lead == 0xF0 ==> 0x90 <= b)
    && (lead == 0xF4 ==> b <= 0x8F)
  }

  /** The length of the UTF8-char of section 4 that `s` starts with; 0 when it starts with none. */
  function CharLength(s: seq<byte>): (n: nat)
    ensures n <= 4 && n <= |s|
  {
    if |s| >= 1 && s[0] <= 0x7F then 1
    else if |s| >= 2 && 0xC2 <= s[0] <= 0xDF && Tail(s[1]) then 2
    else if |s| >= 3 && 0xE0 <= s[0] <= 0xEF && Second(s[0], s[1]) && Tail(s[2]) then 3
    else if |s| >= 4 && 0xF0 <= s[0] <= 0xF4 && Second(s[0], s[1]) && Tail(s[2]) && Tail(s[3]) then 4
    else 0
  }

  /** A code point from the bits of its octets. */
  function Joined(high: int, low: byte): int {
    high * 64 + (low - 0x80)
  }

  /** The code point of the UTF8-char that `s` starts with. */
  function CharValue(s: seq<byte>): int
    requires CharLength(s) > 0
  {
    match CharLength(s)
    case 1 => s[0]
    case 2 => Joined(s[0] - 0xC0, s[1])
    case 3 => Joined(Joined(s[0] - 0xE0, s[1]), s[2])
    case _ => Joined(Joined(Joined(s[0] - 0xF0, s[1]), s[2]), s[3])
  }

  /** Shifting by 12 or 18 is shifting by 6 two or three times. */
  lemma Shifts(c: nat)
    ensures c / 4096 == c / 64 / 64 && c / 262144 == c / 64 / 64 / 64
  {
  }

  /** The last octet holds the low six bits and the octets before it the others. */
  lemma Digits(high: nat, low: byte)
    requires Tail(low)
    ensures Joined(high, low) / 64 == high && 0x80 + Joined(high, low) % 64 == low
  {
  }

  /** Encoding then decoding gives the scalar value back, whatever follows. */
  lemma EncodedDecodes(c: nat, rest: seq<byte>)
    requires Scalar(c)
    ensures CharLength(Encode(c) + rest) == |Encode(c)| && CharValue(Encode(c) + rest) == c
  {
    Shifts(c);
    var s := Encode(c) + rest;
    assert forall k :: 0 <= k < |Encode(c)| ==> s[k] == Encode(c)[k];
  }

  /** Only the surrogates encode to what is not UTF-8. */
  lemma EncodesToUtf8Iff(c: nat, rest: seq<byte>)
    requires c <= 0x10FFFF
    ensures CharLength(Encode(c) + rest) == |Encode(c)| <==> Scalar(c)
  {
    if Scalar(c) {
      EncodedDecodes(c, rest);
    } else {
      SurrogatesAreNotUtf8(c, rest);
    }
  }

  lemma SurrogatesAreNotUtf8(c: nat, rest: seq<byte>)
    requires c <= 0x10FFFF && !Scalar(c)
    ensures CharLength(Encode(c) + rest) == 0
  {
    var s := Encode(c) + rest;
    assert s[0] == Encode(c)[0] == 0xED && s[1] == Encode(c)[1] >= 0xA0;
  }

  /** Decoding then encoding gives the octets back: a UTF8-char is the only spelling of a scalar value. */
  lemma DecodedEncodes(s: seq<byte>)
    requires CharLength(s) > 0
    ensures Scalar(CharValue(s)) && Encode(CharValue(s)) == s[..CharLength(s)]
  {
    match CharLength(s)
    case 1 =>
    case 2 => TwoDecoded(s);
    case 3 => ThreeDecoded(s);
    case _ => FourDecoded(s);
  }

  lemma TwoDecoded(s: seq<byte>)
    requires CharLength(s) == 2
    ensures Scalar(CharValue(s)) && Encode(CharValue(s)) == s[..2]
  {
    Digits(s[0] - 0xC0, s[1]);
    assert Encode(CharValue(s)) == [s[0], s[1]];
  }

  lemma ThreeDecoded(s: seq<byte>)
    requires CharLength(s) == 3
    ensures Scalar(CharValue(s)) && Encode(CharValue(s)) == s[..3]
  {
    var c := Joined(s[0] - 0xE0, s[1]);
    Digits(s[0] - 0xE0, s[1]);
    Digits(c, s[2]);
    ThreeOctets(CharValue(s));
    assert Encode(CharValue(s)) == [s[0], s[1], s[2]];
  }

  lemma FourDecoded(s: seq<byte>)
    requires CharLength(s) == 4
    ensures Scalar(CharValue(s)) && Encode(CharValue(s)) == s[..4]
  {
    var c := Joined(s[0] - 0xF0, s[1]);
    Digits(s[0] - 0xF0, s[1]);
    Digits(c, s[2]);
    Digits(Joined(c, s[2]), s[3]);
    FourOctets(CharValue(s));
    assert Encode(CharValue(s)) == [s[0], s[1], s[2], s[3]];
  }

  lemma ThreeOctets(c: nat)
    requires 0x7FF < c <= 0xFFFF
    ensures Encode(c) == [0xE0 + c / 64 / 64, 0x80 + c / 64 % 64, 0x80 + c % 64]
  {
    Shifts(c);
  }

  lemma FourOctets(c: nat)
    requires 0xFFFF < c <= 0x10FFFF
    ensures Encode(c) == [0xF0 + c / 64 / 64 / 64, 0x80 + c / 64 / 64 % 64, 0x80 + c / 64 % 64, 0x80 + c % 64]
  {
    Shifts(c);
  }

  const ACCEPT: nat := 0
  const REJECT: nat := 12

  /** The first part of the decoder's table, sixteen bytes a row. */
  function ClassRow(row: nat): (classes: seq<nat>)
    ensures |classes| == 16
  {
    if row < 8 then [0, 0, 0, 0, 0, 0, 0, 0, 0, 0, 0, 0, 0, 0, 0, 0]
    else if row == 8 then [1, 1, 1, 1, 1, 1, 1, 1, 1, 1, 1, 1, 1, 1, 1, 1]
    else if row == 9 then [9, 9, 9, 9, 9, 9, 9, 9, 9, 9, 9, 9, 9, 9, 9, 9]
    else if row < 12 then [7, 7, 7, 7, 7, 7, 7, 7, 7, 7, 7, 7, 7, 7, 7, 7]
    else if row == 12 then [8, 8, 2, 2, 2, 2, 2, 2, 2, 2, 2, 2, 2, 2, 2, 2]
    else if row == 13 then [2, 2, 2, 2, 2, 2, 2, 2, 2, 2, 2, 2, 2, 2, 2, 2]
    else if row == 14 then [10, 3, 3, 3, 3, 3, 3, 3, 3, 3, 3, 3, 3, 4, 3, 3]
    else [11, 6, 6, 6, 5, 8, 8, 8, 8, 8, 8, 8, 8, 8, 8, 8]
  }

  /** The second part, one row of twelve classes for each state; the states are the offsets of the rows. */
  function TransitionRow(state: nat): (states: seq<nat>)
    ensures |states| == 12
  {
    match state
    case 0 => [0, 12, 24, 36, 60, 96, 84, 12, 12, 12, 48, 72]
    case 24 => [12, 0, 12, 12, 12, 12, 12, 0, 12, 0, 12, 12]
    case 36 => [12, 24, 12, 12, 12, 12, 12, 24, 12, 24, 12, 12]
    case 48 => [12, 12, 12, 12, 12, 12, 12, 24, 12, 12, 12, 12]
    case 60 => [12, 24, 12, 12, 12, 12, 12, 12, 12, 24, 12, 12]
    case 72 => [12, 12, 12, 12, 12, 12, 12, 36, 12, 36, 12, 12]
    case 84 => [12, 36, 12, 12, 12, 12, 12, 36, 12, 36, 12, 12]
    case 96 => [12, 36, 12, 12, 12, 12, 12, 12, 12, 12, 12, 12]
    case _ => [12, 12, 12, 12, 12, 12, 12, 12, 12, 12, 12, 12]
  }

  /** The class of a byte, read from the table. */
  function ClassOf(b: byte): nat {
    ClassRow(b / 16)[b % 16]
  }

  /** What the rows of the first part say about bytes that do not start a longer character, and about those that may. */
  lemma LowClasses(b: byte)
    requires b < 0xC0
    ensures ClassOf(b) == if b <= 0x7F then 0 else if b <= 0x8F then 1 else if b <= 0x9F then 9 else 7
  {
  }

  lemma HighClasses(b: byte)
    requires 0xC0 <= b
    ensures ClassOf(b) ==
            if b <= 0xC1 then 8 else if b <= 0xDF then 2 else if b == 0xE0 then 10 else if b == 0xED then 4
            else if b <= 0xEF then 3 else if b == 0xF0 then 11 else if b <= 0xF3 then 6 else if b == 0xF4 then 5 else 8
  {
  }

  lemma ClassRanges(b: byte)
    ensures ClassOf(b) ==
            if b <= 0x7F then 0 else if b <= 0x8F then 1 else if b <= 0x9F then 9 else if b <= 0xBF then 7
            else if b <= 0xC1 then 8 else if b <= 0xDF then 2 else if b == 0xE0 then 10 else if b == 0xED then 4
            else if b <= 0xEF then 3 else if b == 0xF0 then 11 else if b <= 0xF3 then 6 else if b == 0xF4 then 5 else 8
  {
    hide ClassOf;
    if b < 0xC0 {
      LowClasses(b);
    } else {
      HighClasses(b);
    }
  }

  /** `0xff >> type` masks this many values. */
  function MaskSize(kind: nat): (size: nat)
    ensures 1 <= size <= 256
  {
    match kind
    case 0 => 256
    case 1 => 128
    case 2 => 64
    case 3 => 32
    case 4 => 16
    case 5 => 8
    case 6 => 4
    case 7 => 2
    case _ => 1
  }

  const MODULUS: nat := 0x1_0000_0000

  /** One call of the decoder: the next state and code point. The masks keep low bits, so they are remainders,
      and the bits that are or'ed together do not overlap. */
  function DecodeByte(state: nat, codepoint: nat, b: byte): (nat, nat)
    requires ClassOf(b) < 12
  {
    (TransitionRow(state)[ClassOf(b)],
     if state != ACCEPT then (b % 64 + codepoint * 64) % MODULUS else b % MaskSize(ClassOf(b)))
  }

  /** The state after the first byte of a character. */
  function AfterLead(b: byte): nat {
    if b <= 0x7F then ACCEPT
    else if b < 0xC2 || 0xF4 < b then REJECT
    else if b <= 0xDF then 24
    else if b == 0xE0 then 48
    else if b == 0xED then 60
    else if b <= 0xEF then 36
    else if b == 0xF0 then 72
    else if b <= 0xF3 then 84
    else 96
  }

  /** The bits of the code point that the first byte holds. */
  function LeadBits(b: byte): int {
    b - (if b <= 0x7F then 0 else if b <= 0xDF then 0xC0 else if b <= 0xEF then 0xE0 else 0xF0)
  }

  lemma LeadStep(b: byte)
    ensures ClassOf(b) < 12 && DecodeByte(ACCEPT, 0, b).0 == AfterLead(b)
    ensures AfterLead(b) != REJECT ==> DecodeByte(ACCEPT, 0, b).1 == LeadBits(b)
  {
    hide ClassOf;
    ClassRanges(b);
  }

  /** The state after the second byte of a character of three or four bytes, and after the later ones. */
  lemma SecondStep(lead: byte, codepoint: nat, b: byte)
    requires 0xE0 <= lead <= 0xF4 && codepoint < 0x10000
    ensures ClassOf(b) < 12
    ensures DecodeByte(AfterLead(lead), codepoint, b).0 == (if !Second(lead, b) then REJECT else if lead <= 0xEF then 24
                                                                                                 else 36)
    ensures Tail(b) ==> DecodeByte(AfterLead(lead), codepoint, b).1 == Joined(codepoint, b)
  {
    hide ClassOf;
    ClassRanges(b);
  }

  lemma TailStep(state: nat, codepoint: nat, b: byte)
    requires (state == 24 || state == 36) && codepoint < 0x10000
    ensures ClassOf(b) < 12
    ensures DecodeByte(state, codepoint, b).0 == (if !Tail(b) then REJECT else if state == 24 then ACCEPT else 24)
    ensures Tail(b) ==> DecodeByte(state, codepoint, b).1 == Joined(codepoint, b)
  {
    hide ClassOf;
    ClassRanges(b);
  }

  /** Where the decoder stands after the first `n` bytes of `s`, none of which ended the character. */
  ghost predicate Reading(s: seq<byte>, n: nat, state: nat, codepoint: nat) {
    && n <= 3 && n <= |s|
    && (n == 0 ==> state == ACCEPT && codepoint == 0)
    && (n == 1 ==> state == AfterLead(s[0]) && state != ACCEPT && state != REJECT && codepoint == LeadBits(s[0]))
    && (n >= 2 ==> 0xE0 <= s[0] <= 0xF4 && Second(s[0], s[1]))
    && (n == 2 ==> state == (if s[0] <= 0xEF then 24 else 36) && codepoint == Joined(LeadBits(s[0]), s[1]))
    && (n == 3 ==> 0xF0 <= s[0] && Tail(s[2]) && state == 24 && codepoint == Joined(Joined(LeadBits(s[0]), s[1]), s[2]))
  }

  /** The decoder accepts exactly at the end of a UTF8-char, with its value, and rejects as soon as there is none. */
  lemma DecoderStep(s: seq<byte>, n: nat, state: nat, codepoint: nat, b: byte)
    requires Reading(s, n, state, codepoint) && b == (if n < |s| then s[n] else 0) && s != []
    ensures ClassOf(b) < 12
    ensures var (next, value) := DecodeByte(state, codepoint, b);
            && (next == ACCEPT <==> CharLength(s) == n + 1)
            && (next == ACCEPT ==> value == CharValue(s))
            && (next == REJECT ==> CharLength(s) == 0)
            && (next != ACCEPT && next != REJECT ==> b > 0 && Reading(s, n + 1, next, value))
  {
    hide ClassOf, TransitionRow, MaskSize, DecodeByte;
    if n == 0 {
      LeadStep(b);
    } else if n == 1 && 0xE0 <= s[0] {
      SecondStep(s[0], codepoint, b);
    } else {
      TailStep(state, codepoint, b);
    }
  }

  /** Examples of section 7 of RFC 3629: the letters A and Alpha, a CJK character, and one beyond the basic plane. */
  lemma EncodingExamples()
    ensures Encode(0x41) == [0x41] && Encode(0x391) == [0xCE, 0x91]
    ensures Encode(0x65E5) == [0xE6, 0x97, 0xA5] && Encode(0x233B4) == [0xF0, 0xA3, 0x8E, 0xB4]
  {
  }
}
