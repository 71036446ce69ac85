/**
 * Byte strings read as big-endian unsigned integers, the reading Go's
 * `big.Int.SetBytes` gives a block id, and the two ways back: the minimal
 * form of `big.Int.Bytes` and a fixed-width field.
 */
module Bytes {
  import opened Arith

  type Byte = b: nat | b < 0x100

  /** The big-endian unsigned value of a byte string (big.Int.SetBytes). */
  function BigEndian(s: seq<Byte>): (n: nat)
    ensures n < Pow2(8 * |s|)
  {
    if |s| == 0 then 0
    else
      var hi := BigEndian(s[..|s| - 1]);
      Pow2Add(8 * (|s| - 1), 8);
      Pow2Constants();
      MulMonotone(hi, Pow2(8 * (|s| - 1)) - 1, 0x100);
      hi * 0x100 + s[|s| - 1]
  }

  /** The shortest big-endian byte string of n, empty for zero (big.Int.Bytes). */
  function MinimalBytes(n: nat): (s: seq<Byte>)
    ensures BigEndian(s) == n
    ensures |s| > 0 ==> s[0] != 0
  {
    if n == 0 then []
    else
      var s := MinimalBytes(n / 0x100) + [n % 0x100];
      assert s[..|s| - 1] == MinimalBytes(n / 0x100);
      s
  }

  /** n written in exactly `width` big-endian bytes. */
  function FixedBytes(n: nat, width: nat): (s: seq<Byte>)
    requires n < Pow2(8 * width)
    ensures |s| == width
    ensures BigEndian(s) == n
  {
    if width == 0 then []
    else
      Pow2Add(8 * (width - 1), 8);
      Pow2Constants();
      DivBracket(n, 0x100, 0, Pow2(8 * (width - 1)));
      var s := FixedBytes(n / 0x100, width - 1) + [n % 0x100];
      assert s[..|s| - 1] == FixedBytes(n / 0x100, width - 1);
      s
  }

  /** Every byte string is the fixed-width writing of its own value. */
  lemma {:induction false} FixedBytesOfValue(s: seq<Byte>)
    ensures FixedBytes(BigEndian(s), |s|) == s
  {
    if |s| > 0 {
      var p := s[..|s| - 1];
      var n := BigEndian(s);
      FixedBytesOfValue(p);
      assert n / 0x100 == BigEndian(p);
      assert n % 0x100 == s[|s| - 1];
      assert s == p + [s[|s| - 1]];
    }
  }

  /** A byte string without a leading zero byte is the minimal writing of its value. */
  lemma {:induction false} MinimalBytesOfValue(s: seq<Byte>)
    requires |s| == 0 || s[0] != 0
    ensures MinimalBytes(BigEndian(s)) == s
  {
    if |s| > 0 {
      var p := s[..|s| - 1];
      var n := BigEndian(s);
      if |p| > 0 {
        assert p[0] == s[0];
        LeadingByteBound(p);
      }
      MinimalBytesOfValue(p);
      assert n / 0x100 == BigEndian(p);
      assert n % 0x100 == s[|s| - 1];
      assert s == p + [s[|s| - 1]];
      if |p| == 0 {
        assert n == s[0];
      }
    }
  }

  /** A leading nonzero byte makes the value nonzero. */
  lemma {:induction false} LeadingByteBound(s: seq<Byte>)
    requires |s| > 0 && s[0] != 0
    ensures BigEndian(s) > 0
  {
    if |s| > 1 {
      var p := s[..|s| - 1];
      assert p[0] == s[0];
      LeadingByteBound(p);
    }
  }
}
