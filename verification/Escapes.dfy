/** The escapes of string literals, octet by octet. */
module Escapes {
  import opened Options
  import opened Utf8
  import opened Scanner

  const LOWER: string := "0123456789abcdef"
  const UPPER: string := "0123456789ABCDEF"

  /** A backslash and a letter take two bytes and stand for the octet `c`. */
  ghost predicate StandsFor(letter: byte, c: byte, rest: seq<byte>, delimiter: byte) {
    Scan([0x5C, letter] + rest, delimiter, Scanning) == After([c], 2, Scan(rest, delimiter, Scanning))
  }

  /** `\n`, `\r`, `\t`, the quotes and the backslash; any other letter than these and `u` is an error. */
  lemma EscapesByOctet(letter: byte, rest: seq<byte>, delimiter: byte)
    requires Delimiter(delimiter)
    ensures letter == 0x6E ==> StandsFor(letter, 0x0A, rest, delimiter)
    ensures letter == 0x72 ==> StandsFor(letter, 0x0D, rest, delimiter)
    ensures letter == 0x74 ==> StandsFor(letter, 0x09, rest, delimiter)
    ensures letter == 0x22 || letter == 0x27 || letter == 0x5C ==> StandsFor(letter, letter, rest, delimiter)
    ensures letter !in {0x6E, 0x72, 0x74, 0x22, 0x27, 0x5C, 0x75} ==>
              Scan([0x5C, letter] + rest, delimiter, Scanning).Failed?
  {
    hide Scan, After, AllHex;
    var s := [0x5C, letter] + rest;
    EscapeScan(s, delimiter);
    assert s[2..] == rest;
  }

  /** Digit `v` is the one at index `v`, in either case of letter. */
  lemma HexDigitsByIndex(v: nat)
    requires v < 16
    ensures HexDigit(LOWER[v] as nat) == Some(v) && HexDigit(UPPER[v] as nat) == Some(v)
  {
  }

  /** There are no other digits. */
  lemma OnlyHexDigits(c: nat)
    ensures HexDigit(c).Some? <==> exists v :: 0 <= v < 16 && (c == LOWER[v] as nat || c == UPPER[v] as nat)
  {
    if HexDigit(c).Some? {
      var v := HexDigit(c).value;
      assert c == LOWER[v] as nat || c == UPPER[v] as nat;
    }
    forall v | 0 <= v < 16 ensures HexDigit(LOWER[v] as nat).Some? && HexDigit(UPPER[v] as nat).Some? {
      HexDigitsByIndex(v);
    }
  }

  predicate IsDigit(b: byte, v: nat) {
    v < 16 && (b as nat == LOWER[v] as nat || b as nat == UPPER[v] as nat)
  }

  /** Four digits write the number they spell in base 16. */
  lemma FourDigitsByOctet(
    a: byte, b: byte, c: byte, d: byte, va: nat, vb: nat, vc: nat, vd: nat, rest: seq<byte>, delimiter: byte
  )
    requires Delimiter(delimiter) && IsDigit(a, va) && IsDigit(b, vb) && IsDigit(c, vc) && IsDigit(d, vd)
    ensures
      var code := 4096 * va + 256 * vb + 16 * vc + vd;
      code <= 0xFFFF
      && Scan([0x5C, 0x75, a, b, c, d] + rest, delimiter, Scanning) ==
           After(Encode(code), 6, Scan(rest, delimiter, Scanning))
  {
    hide Scan, After, Encode;
    var s := [0x5C, 0x75, a, b, c, d] + rest;
    assert s[2..6] == [a, b, c, d] && s[6..] == rest;
    HexDigitsByIndex(va);
    HexDigitsByIndex(vb);
    HexDigitsByIndex(vc);
    HexDigitsByIndex(vd);
    FourDigitValue(a, b, c, d, va, vb, vc, vd);
    EscapeScan(s, delimiter);
  }

  lemma FourDigitValue(a: byte, b: byte, c: byte, d: byte, va: nat, vb: nat, vc: nat, vd: nat)
    requires HexDigit(a) == Some(va) && HexDigit(b) == Some(vb) && HexDigit(c) == Some(vc) && HexDigit(d) == Some(vd)
    ensures AllHex([a, b, c, d]) && HexValue(0, [a, b, c, d]) == 4096 * va + 256 * vb + 16 * vc + vd
  {
    hide HexDigit;
    assert AllHex([d]) && AllHex([c, d]) && AllHex([b, c, d]) && AllHex([a, b, c, d]);
    assert [a, b, c, d][1..] == [b, c, d] && [b, c, d][1..] == [c, d] && [c, d][1..] == [d] && [d][1..] == [];
    MoreDigits(0, [a, b, c, d]);
    MoreDigits(va, [b, c, d]);
    MoreDigits(16 * va + vb, [c, d]);
    OneDigit(256 * va + 16 * vb + vc, d);
  }

  lemma MoreDigits(value: nat, digits: seq<byte>)
    requires digits != [] && AllHex(digits)
    ensures AllHex(digits[1..])
    ensures HexValue(value, digits) == HexValue(value * 16 + HexDigit(digits[0]).value, digits[1..])
  {
    hide HexDigit;
  }

  lemma OneDigit(value: nat, d: byte)
    requires HexDigit(d).Some?
    ensures AllHex([d]) && HexValue(value, [d]) == value * 16 + HexDigit(d).value
  {
    hide HexDigit;
    assert [d][1..] == [];
  }

  /** Every code point of the basic plane has such a writing. */
  lemma EveryCodeHasDigits(code: nat) returns (va: nat, vb: nat, vc: nat, vd: nat)
    requires code <= 0xFFFF
    ensures va < 16 && vb < 16 && vc < 16 && vd < 16 && code == 4096 * va + 256 * vb + 16 * vc + vd
  {
    var q := code / 16;
    var r := q / 16;
    va, vb, vc, vd := r / 16, r % 16, q % 16, code % 16;
  }
}
