/**
 * Unbounded unsigned arithmetic in the vocabulary of Go's `math/big`:
 * powers of two, bit shifts and bit length, with the facts about them
 * that the compact-target codec needs.
 *
 * The shifts are defined one bit at a time, so that every fact about them
 * is proved by induction on the shift distance.
 */
module Arith {

  /** 2^n. */
  function Pow2(n: nat): (r: nat)
    ensures r >= 1
  {
    if n == 0 then 1 else 2 * Pow2(n - 1)
  }

  /** `x << n` on an unbounded integer (big.Int.Lsh). */
  function Lsh(x: nat, n: nat): nat
  {
    if n == 0 then x else 2 * Lsh(x, n - 1)
  }

  /** `x >> n` on an unbounded non-negative integer (big.Int.Rsh). */
  function Rsh(x: nat, n: nat): nat
  {
    if n == 0 then x else Rsh(x / 2, n - 1)
  }

  /** Number of bits needed to write x; zero for zero (big.Int.BitLen). */
  function BitLen(x: nat): (r: nat)
    ensures x == 0 <==> r == 0
  {
    if x == 0 then 0 else 1 + BitLen(x / 2)
  }

  /** Number of bytes needed to write x, `(BitLen(x) + 7) / 8`. */
  function ByteLen(x: nat): nat
  {
    (BitLen(x) + 7) / 8
  }

  lemma {:induction false} Pow2Add(a: nat, b: nat)
    ensures Pow2(a + b) == Pow2(a) * Pow2(b)
  {
    if a > 0 {
      Pow2Add(a - 1, b);
      assert Pow2(a + b) == 2 * Pow2(a - 1 + b);
      assert 2 * (Pow2(a - 1) * Pow2(b)) == (2 * Pow2(a - 1)) * Pow2(b);
    }
  }

  lemma Pow2Constants()
    ensures Pow2(8) == 0x100
    ensures Pow2(15) == 0x8000
    ensures Pow2(16) == 0x1_0000
    ensures Pow2(23) == 0x80_0000
    ensures Pow2(24) == 0x100_0000
  {
  }

  /** The bit lengths of the word sizes the compact codec works with. */
  lemma BitLenThresholds(x: nat)
    ensures BitLen(x) <= 8 <==> x < 0x100
    ensures BitLen(x) <= 15 <==> x < 0x8000
    ensures BitLen(x) <= 16 <==> x < 0x1_0000
    ensures BitLen(x) <= 23 <==> x < 0x80_0000
    ensures BitLen(x) <= 24 <==> x < 0x100_0000
  {
    Pow2Constants();
    BitLenBelow(x, 8);
    BitLenBelow(x, 15);
    BitLenBelow(x, 16);
    BitLenBelow(x, 23);
    BitLenBelow(x, 24);
  }

  /** The ranges of Go's uint32 and uint64. */
  lemma Pow2Widths()
    ensures Pow2(32) == 0x1_0000_0000
    ensures Pow2(64) == 0x1_0000_0000_0000_0000
  {
    Pow2Constants();
    Pow2Add(16, 16);
    Pow2Add(32, 32);
  }

  lemma MulMonotone(a: nat, b: nat, c: nat)
    requires a <= b
    ensures a * c <= b * c
  {
  }

  /** The quotient is pinned down by bracketing the dividend. */
  lemma DivBracket(t: nat, d: nat, lo: nat, hi: nat)
    requires d > 0 && lo * d <= t < hi * d
    ensures lo <= t / d < hi
  {
    var q := t / d;
    assert t == q * d + t % d;
    if q < lo {
      MulMonotone(q + 1, lo, d);
    }
    if q >= hi {
      MulMonotone(hi, q, d);
    }
  }

  /** Shifting left is multiplying by a power of two. */
  lemma {:induction false} LshIsMul(x: nat, n: nat)
    ensures Lsh(x, n) == x * Pow2(n)
  {
    if n > 0 {
      LshIsMul(x, n - 1);
      assert 2 * (x * Pow2(n - 1)) == x * (2 * Pow2(n - 1));
    }
  }

  /** Shifting left twice is shifting left by the sum. */
  lemma {:induction false} LshLsh(x: nat, a: nat, b: nat)
    ensures Lsh(Lsh(x, a), b) == Lsh(x, a + b)
  {
    if b > 0 {
      LshLsh(x, a, b - 1);
    }
  }

  /** Shifting right twice is shifting right by the sum. */
  lemma {:induction false} RshRsh(x: nat, a: nat, b: nat)
    ensures Rsh(Rsh(x, a), b) == Rsh(x, a + b)
  {
    if a > 0 {
      RshRsh(x / 2, a - 1, b);
    }
  }

  /** `(x << a) >> a == x`: shifting left loses nothing. */
  lemma {:induction false} LshRsh(x: nat, a: nat)
    ensures Rsh(Lsh(x, a), a) == x
  {
    if a > 0 {
      LshRsh(x, a - 1);
      assert 2 * Lsh(x, a - 1) / 2 == Lsh(x, a - 1);
    }
  }

  /** `(x << (a + b)) >> b == x << a`. */
  lemma LshRshPartial(x: nat, a: nat, b: nat)
    ensures Rsh(Lsh(x, a + b), b) == Lsh(x, a)
  {
    LshLsh(x, a, b);
    LshRsh(Lsh(x, a), b);
  }

  /** `(x >> a) << a` clears the low a bits, so it never exceeds x. */
  lemma {:induction false} RshLshBelow(x: nat, a: nat)
    ensures Lsh(Rsh(x, a), a) <= x
  {
    if a > 0 {
      RshLshBelow(x / 2, a - 1);
      RshRsh(x, 1, a - 1);
      LshLsh(Rsh(x, a), a - 1, 1);
    }
  }

  /** Shifting left adds to the bit length of a nonzero number. */
  lemma {:induction false} BitLenLsh(x: nat, n: nat)
    ensures BitLen(Lsh(x, n)) == if x == 0 then 0 else BitLen(x) + n
  {
    if n > 0 {
      BitLenLsh(x, n - 1);
      var y := Lsh(x, n - 1);
      assert 2 * y / 2 == y;
    }
  }

  /** Shifting right takes from the bit length, down to zero. */
  lemma {:induction false} BitLenRsh(x: nat, n: nat)
    ensures BitLen(Rsh(x, n)) == if BitLen(x) >= n then BitLen(x) - n else 0
  {
    if n > 0 {
      BitLenRsh(x / 2, n - 1);
    }
  }

  /** A smaller number never needs more bits. */
  lemma {:induction false} BitLenMonotone(a: nat, b: nat)
    requires a <= b
    ensures BitLen(a) <= BitLen(b)
  {
    if a > 0 {
      BitLenMonotone(a / 2, b / 2);
    }
  }

  /** Fewer bits means a smaller number. */
  lemma {:induction false} BitLenLess(a: nat, b: nat)
    requires BitLen(a) < BitLen(b)
    ensures a < b
  {
    if a > 0 {
      BitLenLess(a / 2, b / 2);
    }
  }

  /** A number fits in b bits exactly when it is below 2^b. */
  lemma {:induction false} BitLenBelow(x: nat, b: nat)
    ensures BitLen(x) <= b <==> x < Pow2(b)
  {
    if b > 0 {
      BitLenBelow(x / 2, b - 1);
    }
  }
}
