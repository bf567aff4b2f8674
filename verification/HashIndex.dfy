/** The multiplicative ("Fibonacci") hash-to-slot mapping that both kinds of hash table share. */
module HashIndex {

  const WORD: int := 0x1_0000_0000

  type uint32 = x: int | 0 <= x < WORD

  function Pow2(n: nat): (r: nat)
    ensures r > 0
  {
    if n == 0 then 1 else 2 * Pow2(n - 1)
  }

  /** Trailing zero bits of a positive number, as `ELOX_CTZ` counts them. */
  function CountTrailingZeros(n: nat): nat
    requires n > 0
  {
    if n % 2 == 1 then 0 else 1 + CountTrailingZeros(n / 2)
  }

  /** The 32-bit product with the golden-ratio constant, wrapped around. */
  function Scramble(hash: uint32): uint32 {
    hash * 2654435769 % WORD
  }

  /** `x >> n` for `p = 2^n`. */
  function ShiftRight(x: nat, p: nat): nat
    requires p > 0
  {
    x / p
  }

  /** The scrambled hash, of which the top `32 - shift` bits are kept. */
  function IndexFor(hash: uint32, shift: nat): nat {
    ShiftRight(Scramble(hash), Pow2(shift))
  }

  /** Growth policy of every dynamic array of the program. */
  function GrowCapacity(capacity: nat): nat {
    if capacity < 8 then 8 else capacity * 2
  }

  lemma {:induction false} Pow2Adds(a: nat, b: nat)
    ensures Pow2(a + b) == Pow2(a) * Pow2(b)
  {
    if a > 0 {
      Pow2Adds(a - 1, b);
      assert Pow2(a + b) == 2 * Pow2(a - 1 + b);
      assert Pow2(a) * Pow2(b) == 2 * (Pow2(a - 1) * Pow2(b));
    }
  }

  lemma {:induction false} TrailingZerosOfPow2(lg: nat)
    ensures CountTrailingZeros(Pow2(lg)) == lg
  {
    if lg > 0 {
      TrailingZerosOfPow2(lg - 1);
    }
  }

  lemma {:induction false} Pow2Of32()
    ensures Pow2(32) == WORD
  {
    assert Pow2(8) == 256 by {
      assert Pow2(4) == 16;
      Pow2Adds(4, 4);
    }
    Pow2Adds(8, 8);
    Pow2Adds(16, 16);
  }

  lemma QuotientBelow(x: nat, p: nat, q: nat)
    requires p > 0 && x < q * p
    ensures x / p < q
  {
  }

  /** Some products with the golden ratio, 9E3779B9: their top 8 bits, and their top bit. */
  lemma IndexVectors()
    ensures IndexFor(1, 24) == 0x9E && IndexFor(2, 24) == 0x3C && IndexFor(3, 24) == 0xDA
    ensures IndexFor(1, 31) == 1 && IndexFor(2, 31) == 0
  {
    hide Pow2;
    PowersOf2();
    assert Scramble(1) == 0x9E3779B9 && Scramble(2) == 0x3C6EF372 && Scramble(3) == 0xDAA66D2B;
  }

  lemma PowersOf2()
    ensures Pow2(24) == 0x100_0000 && Pow2(31) == 0x8000_0000
  {
    assert Pow2(3) == 8 && Pow2(4) == 16;
    hide Pow2;
    Pow2Adds(4, 3);
    Pow2Adds(4, 4);
    Pow2Adds(8, 8);
    Pow2Adds(16, 8);
    Pow2Adds(24, 7);
  }

  /** With `shift = 32 - lg` every hash lands inside a table of `2^lg` slots. */
  lemma {:induction false} IndexInRange(hash: uint32, lg: nat)
    requires lg <= 32
    ensures IndexFor(hash, 32 - lg) < Pow2(lg)
  {
    Pow2Adds(lg, 32 - lg);
    Pow2Of32();
    QuotientBelow(Scramble(hash), Pow2(32 - lg), Pow2(lg));
  }
}
