/** The instruction encoding: one opcode byte followed by its operands, little-endian. */
module Bytecode {
  import opened Values

  type byte = x: int | 0 <= x < 256
  type Code = seq<byte>

  const CONST8: byte := 0
  const CONST16: byte := 1
  const IMMI: byte := 2
  const NIL: byte := 3
  const TRUE: byte := 4
  const FALSE: byte := 5
  const POP: byte := 6
  const POPN: byte := 7
  const GET_LOCAL: byte := 13
  const SET_LOCAL: byte := 18
  const EQUAL: byte := 30
  const GREATER: byte := 31
  const LESS: byte := 32
  const ADD: byte := 33
  const SUBTRACT: byte := 34
  const MULTIPLY: byte := 35
  const DIVIDE: byte := 36
  const MODULO: byte := 37
  const NOT: byte := 40
  const NEGATE: byte := 41
  const JUMP: byte := 42
  const JUMP_IF_FALSE: byte := 43
  const LOOP: byte := 44
  const RETURN: byte := 52

  const UINT16_MAX: int := 65535

  datatype Chunk = Chunk(code: Code, constants: seq<Num>)

  /** A 16-bit operand, truncated. */
  function U16(n: int): (c: Code)
    ensures |c| == 2
  {
    var u := n % 65536;
    [u % 256, u / 256]
  }

  function ReadU16(code: Code, at: nat): (n: nat)
    requires at + 2 <= |code|
    ensures n <= UINT16_MAX
  {
    code[at] as int + 256 * (code[at + 1] as int)
  }

  /** A 32-bit operand in two's complement. */
  function I32(n: int): (c: Code)
    ensures |c| == 4
  {
    var u := n % 0x1_0000_0000;
    [u % 256, u / 256 % 256, u / 0x1_0000 % 256, u / 0x100_0000]
  }

  function ReadI32(code: Code, at: nat): int
    requires at + 4 <= |code|
  {
    var a, b, c, d := code[at] as int, code[at + 1] as int, code[at + 2] as int, code[at + 3] as int;
    var u := a + 256 * b + 0x1_0000 * c + 0x100_0000 * d;
    if u < 0x8000_0000 then u else u - 0x1_0000_0000
  }

  /** Operands have their low byte first. */
  lemma LowByteFirst(a: byte, b: byte)
    ensures U16(a as int + 256 * (b as int)) == [a, b] && ReadU16([a, b], 0) == a as int + 256 * (b as int)
  {
  }

  /** A set top bit makes a 32-bit operand negative. */
  lemma TopBitIsSign(a: byte, b: byte, c: byte, d: byte)
    ensures ReadI32([a, b, c, d], 0) ==
      a as int + 256 * (b as int) + 65536 * (c as int) + 16777216 * (if d < 128 then d as int else d as int - 256)
  {
  }

  predicate IsInt32(r: real) {
    r == r.Floor as real && -0x8000_0000 <= r.Floor < 0x8000_0000
  }

  lemma U16RoundTrips(n: nat)
    requires n <= UINT16_MAX
    ensures ReadU16(U16(n), 0) == n
  {
  }

  lemma I32RoundTrips(n: int)
    requires -0x8000_0000 <= n < 0x8000_0000
    ensures ReadI32(I32(n), 0) == n
  {
    var u := n % 0x1_0000_0000;
    var a, b, c, d := u % 256, u / 256 % 256, u / 0x1_0000 % 256, u / 0x100_0000;
    assert u / 0x1_0000 == u / 256 / 256;
    assert u / 0x100_0000 == u / 0x1_0000 / 256;
    assert u == a + 256 * b + 0x1_0000 * c + 0x100_0000 * d;
  }

  /** `part` sits in `code` at `pc`. */
  ghost predicate Placed(code: Code, pc: nat, part: Code) {
    pc + |part| <= |code| && code[pc..pc + |part|] == part
  }

  lemma PlacedSplit(code: Code, pc: nat, a: Code, b: Code)
    requires Placed(code, pc, a + b)
    ensures Placed(code, pc, a) && Placed(code, pc + |a|, b)
  {
    assert code[pc..pc + |a|] == (a + b)[..|a|];
    assert code[pc + |a|..pc + |a| + |b|] == (a + b)[|a|..];
  }

  lemma PlacedAt(code: Code, pc: nat, part: Code, i: nat)
    requires Placed(code, pc, part) && i < |part|
    ensures pc + i < |code| && code[pc + i] == part[i]
  {
    assert code[pc..pc + |part|][i] == part[i];
  }
}
