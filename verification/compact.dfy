/**
 * The compact "nBits" encoding of a proof-of-work target (Bitcoin Core's
 * `arith_uint256::SetCompact` / `GetCompact`), used by the PoW consensus
 * engine as `SetCompact(uint32) (*big.Int, bool, bool)` and
 * `GetCompact(*big.Int) (uint32, bool)`.
 *
 * A 32-bit word holds an exponent byte `size` (bits 24..31), a sign flag
 * (bit 23) and a 23-bit mantissa; it stands for mantissa * 256^(size-3).
 */
module Compact {
  import opened Arith
  import opened Wrappers

  type Uint32 = x: nat | x < 0x1_0000_0000

  /** `bits >> 24`: the exponent byte, the length in bytes of the value. */
  function Size(bits: Uint32): nat
  {
    bits / 0x100_0000
  }

  /** `bits & 0x007fffff`: the 23-bit mantissa. */
  function Mantissa(bits: Uint32): nat
  {
    bits % 0x80_0000
  }

  /** `bits & 0x00800000 != 0`: the sign flag. */
  predicate SignFlag(bits: Uint32)
  {
    (bits / 0x80_0000) % 2 == 1
  }

  /** The value of a mantissa under an exponent byte: bytes below the third are cut off. */
  function Expand(word: nat, size: nat): nat
  {
    if size <= 3 then Rsh(word, 8 * (3 - size)) else Lsh(word, 8 * (size - 3))
  }

  /** The overflow rule: a nonzero mantissa placed beyond the 34th byte. */
  predicate Overflows(word: nat, size: nat)
  {
    word != 0 && (size > 34 || (word > 0xff && size > 33) || (word > 0xffff && size > 32))
  }

  /** The three results of SetCompact: the target and the two invalidity flags. */
  datatype Decoded = Decoded(value: nat, negative: bool, overflow: bool)

  /** SetCompact: decode a compact word. */
  function SetCompact(bits: Uint32): (d: Decoded)
    ensures d.overflow <==> BitLen(d.value) > 256
    ensures d.negative <==> SignFlag(bits) && Mantissa(bits) != 0
  {
    var size := Size(bits);
    var word := Mantissa(bits);
    OverflowIffWide(word, size);
    Decoded(Expand(word, size), word != 0 && SignFlag(bits), Overflows(word, size))
  }

  /** A decoded target is usable only when it is neither negative nor overflowing. */
  predicate Valid(d: Decoded)
  {
    !d.negative && !d.overflow
  }

  /**
   * The overflow rule says exactly that the value does not fit in 256 bits,
   * the width of Bitcoin Core's arith_uint256.
   */
  lemma OverflowIffWide(word: nat, size: nat)
    requires word < 0x80_0000
    ensures Overflows(word, size) <==> BitLen(Expand(word, size)) > 256
  {
    BitLenThresholds(word);
    if size <= 3 {
      BitLenRsh(word, 8 * (3 - size));
    } else {
      BitLenLsh(word, 8 * (size - 3));
    }
  }

  /** The target scaled so that its top byte is the third byte of a 24-bit window. */
  function Normalize(t: nat): nat
  {
    var size := ByteLen(t);
    if size <= 3 then Lsh(t, 8 * (3 - size)) else Rsh(t, 8 * (size - 3))
  }

  /** A nonzero target always reaches into the top byte of the window. */
  lemma NormalizeRange(t: nat)
    ensures t == 0 ==> Normalize(t) == 0
    ensures t > 0 ==> 0x1_0000 <= Normalize(t) < 0x100_0000
  {
    var n := ByteLen(t);
    if n <= 3 {
      BitLenLsh(t, 8 * (3 - n));
    } else {
      BitLenRsh(t, 8 * (n - 3));
    }
    BitLenThresholds(Normalize(t));
  }

  /** A window whose sign bit is set, moved down one byte, fills two bytes. */
  lemma ShiftWindow(w: nat)
    requires w < 0x100_0000
    ensures w >= 0x80_0000 ==> 0x8000 <= Rsh(w, 8) < 0x1_0000
  {
    BitLenThresholds(w);
    BitLenRsh(w, 8);
    BitLenThresholds(Rsh(w, 8));
  }

  /** Packing an exponent and a sign-free mantissa, and reading them back. */
  lemma Compose(size: nat, word: nat)
    requires size < 0x100 && word < 0x80_0000
    ensures size * 0x100_0000 + word < 0x1_0000_0000
    ensures Size(size * 0x100_0000 + word) == size
    ensures Mantissa(size * 0x100_0000 + word) == word
    ensures !SignFlag(size * 0x100_0000 + word)
  {
    var c := size * 0x100_0000 + word;
    assert c == (2 * size) * 0x80_0000 + word;
    DivBracket(c, 0x80_0000, 2 * size, 2 * size + 1);
    DivBracket(c, 0x100_0000, size, size + 1);
  }

  /** A compact word with the sign flag clear is its exponent and mantissa side by side. */
  lemma Decompose(bits: Uint32)
    requires !SignFlag(bits)
    ensures bits == Size(bits) * 0x100_0000 + Mantissa(bits)
    ensures Size(bits) < 0x100
  {
    var q := bits / 0x80_0000;
    assert bits == q * 0x80_0000 + Mantissa(bits);
    assert q == 2 * (q / 2);
    DivBracket(bits, 0x100_0000, q / 2, q / 2 + 1);
  }

  /**
   * GetCompact: encode a target. The mantissa is the top three bytes of the
   * target; if its top bit would read as the sign flag it moves down one
   * byte and the exponent grows by one. There is no encoding when the
   * exponent does not fit in its byte.
   */
  function GetCompact(t: nat): (r: Option<Uint32>)
    ensures r.Some? ==> !SignFlag(r.value)
    ensures r == Some(0) <==> t == 0
    ensures ByteLen(t) <= 0xfe ==> r.Some?
  {
    var size := ByteLen(t);
    var word := Normalize(t);
    NormalizeRange(t);
    // word < 2^24, so testing bit 23 is comparing against 2^23
    var shift := word >= 0x80_0000;
    var size' := if shift then size + 1 else size;
    var word' := if shift then Rsh(word, 8) else word;
    if size' > 0xff then None
    else
      ShiftWindow(word);
      Compose(size', word');
      Some(size' * 0x100_0000 + word')
  }

  /** Place m at byte k: `m << 8k`. */
  function ByteShift(m: nat, k: nat): nat
  {
    Lsh(m, 8 * k)
  }

  /** A target the compact form holds exactly: a 23-bit mantissa shifted by whole bytes. */
  ghost predicate Representable(t: nat)
  {
    exists m: nat, k: nat :: m < 0x80_0000 && t == ByteShift(m, k)
  }

  /** The low n bits of x are zero: shifting them out and back in loses nothing. */
  predicate LowBitsClear(x: nat, n: nat)
  {
    Lsh(Rsh(x, n), n) == x
  }

  /**
   * The form GetCompact produces: sign flag clear; zero only as the zero
   * word; otherwise the mantissa sits as high as it can below the sign bit
   * (at least 0x8000) and, for exponents up to three, no set bit of it is
   * cut off on decoding.
   */
  predicate Canonical(bits: Uint32)
  {
    && !SignFlag(bits)
    && (bits == 0
        || (&& Size(bits) >= 1
            && Mantissa(bits) >= 0x8000
            && (Size(bits) <= 3 ==> LowBitsClear(Mantissa(bits), 8 * (3 - Size(bits))))))
  }

  /** What an encoding of a nonzero target looks like once split into its fields. */
  lemma EncodeShape(t: nat, c: Uint32)
    requires t > 0 && GetCompact(t) == Some(c)
    ensures Size(c) >= 1 && 0x8000 <= Mantissa(c) < 0x80_0000 && !SignFlag(c)
    ensures Size(c) <= 3 ==> Expand(Mantissa(c), Size(c)) == t
    ensures Size(c) <= 3 ==> LowBitsClear(Mantissa(c), 8 * (3 - Size(c)))
    ensures Size(c) > 3 ==> Mantissa(c) == Rsh(t, 8 * (Size(c) - 3))
  {
    var n := ByteLen(t);
    var w := Normalize(t);
    NormalizeRange(t);
    var shift := w >= 0x80_0000;
    var s' := if shift then n + 1 else n;
    var w' := if shift then Rsh(w, 8) else w;
    ShiftWindow(w);
    Compose(s', w');
    assert Size(c) == s' && Mantissa(c) == w';
    if !shift {
      if n <= 3 {
        LshRsh(t, 8 * (3 - n));
      }
    } else if n <= 2 {
      LshRshPartial(t, 8 * (2 - n), 8);
      LshRsh(t, 8 * (2 - n));
    } else if n > 3 {
      RshRsh(t, 8 * (n - 3), 8);
    }
  }

  /** GetCompact always produces the canonical form. */
  lemma EncodeIsCanonical(t: nat)
    requires GetCompact(t).Some?
    ensures Canonical(GetCompact(t).value)
  {
    if t > 0 {
      EncodeShape(t, GetCompact(t).value);
    }
  }

  /** The zero word decodes to zero. */
  lemma DecodeZero()
    ensures SetCompact(0) == Decoded(0, false, false)
  {
    BitLenRsh(0, 24);
  }

  /**
   * Decoding an encoding rounds the target down, never up, and yields a
   * valid target whenever the target fits in 256 bits.
   */
  lemma DecodeEncodeBelow(t: nat)
    requires GetCompact(t).Some?
    ensures SetCompact(GetCompact(t).value).value <= t
    ensures !SetCompact(GetCompact(t).value).negative
    ensures BitLen(t) <= 256 ==> Valid(SetCompact(GetCompact(t).value))
  {
    var c := GetCompact(t).value;
    EncodedValueBelow(t, c);
    BitLenMonotone(SetCompact(c).value, t);
  }

  lemma EncodedValueBelow(t: nat, c: Uint32)
    requires GetCompact(t) == Some(c)
    ensures SetCompact(c).value <= t
  {
    if t == 0 {
      DecodeZero();
    } else {
      EncodeShape(t, c);
      if Size(c) > 3 {
        RshLshBelow(t, 8 * (Size(c) - 3));
      }
    }
  }

  /** Decoding an encoding gives the target back exactly when the target is representable. */
  lemma DecodeEncodeExact(t: nat)
    requires GetCompact(t).Some?
    ensures SetCompact(GetCompact(t).value).value == t <==> Representable(t)
  {
    if t == 0 {
      DecodeZero();
      assert t == ByteShift(0, 0);
    } else {
      var c := GetCompact(t).value;
      EncodeShape(t, c);
      if Size(c) <= 3 {
        ExactWhenShort(t, c);
      } else {
        ExactWhenLong(t, c);
      }
    }
  }

  /** With an exponent of at most three, the encoding is exact and the target is a small mantissa. */
  lemma ExactWhenShort(t: nat, c: Uint32)
    requires t > 0 && GetCompact(t) == Some(c) && Size(c) <= 3
    ensures SetCompact(c).value == t && Representable(t)
  {
    EncodeShape(t, c);
    var m := Mantissa(c);
    BitLenRsh(m, 8 * (3 - Size(c)));
    BitLenThresholds(m);
    BitLenThresholds(t);
    assert t == ByteShift(t, 0);
  }

  /** With a longer exponent, the encoding is exact exactly when the target is representable. */
  lemma ExactWhenLong(t: nat, c: Uint32)
    requires t > 0 && GetCompact(t) == Some(c) && Size(c) > 3
    ensures SetCompact(c).value == t <==> Representable(t)
  {
    EncodeShape(t, c);
    var e := Size(c) - 3;
    var m := Mantissa(c);
    assert SetCompact(c).value == ByteShift(m, e);
    if Representable(t) {
      var m0: nat, k: nat :| m0 < 0x80_0000 && t == ByteShift(m0, k);
      RepresentableIsExact(t, m0, k, e);
    }
  }

  /**
   * If t is a 23-bit mantissa shifted k bytes, and t shifted right e bytes
   * still holds at least 16 bits, then no set bit of t is lost by that shift.
   */
  lemma RepresentableIsExact(t: nat, m0: nat, k: nat, e: nat)
    requires m0 < 0x80_0000 && t == ByteShift(m0, k)
    requires Rsh(t, 8 * e) >= 0x8000
    ensures ByteShift(Rsh(t, 8 * e), e) == t
  {
    BitLenThresholds(m0);
    BitLenThresholds(Rsh(t, 8 * e));
    BitLenLsh(m0, 8 * k);
    BitLenRsh(t, 8 * e);
    assert k >= e;
    LshLsh(m0, 8 * (k - e), 8 * e);
    LshRsh(Lsh(m0, 8 * (k - e)), 8 * e);
  }

  /** A canonical word with the mantissa's top byte set re-encodes to itself. */
  lemma ReencodeWide(bits: Uint32)
    requires Canonical(bits) && bits != 0 && Mantissa(bits) >= 0x1_0000
    ensures GetCompact(SetCompact(bits).value) == Some(bits)
  {
    var s, m := Size(bits), Mantissa(bits);
    var t := SetCompact(bits).value;
    Decompose(bits);
    BitLenThresholds(m);
    if s <= 3 {
      BitLenRsh(m, 8 * (3 - s));
    } else {
      BitLenLsh(m, 8 * (s - 3));
      LshRsh(m, 8 * (s - 3));
    }
    assert ByteLen(t) == s;
    assert Normalize(t) == m;
  }

  /** A canonical word whose mantissa was moved down one byte re-encodes to itself. */
  lemma ReencodeNarrow(bits: Uint32)
    requires Canonical(bits) && bits != 0 && Mantissa(bits) < 0x1_0000
    ensures GetCompact(SetCompact(bits).value) == Some(bits)
  {
    var s, m := Size(bits), Mantissa(bits);
    var t := SetCompact(bits).value;
    Decompose(bits);
    if s <= 3 {
      NarrowShortNormalize(bits);
    } else {
      NarrowLongNormalize(bits);
    }
    WidenWindow(m);
    assert GetCompact(t) == Some((s - 1 + 1) * 0x100_0000 + m);
  }

  /** A two-byte mantissa moved up one byte sets the sign bit of the window. */
  lemma WidenWindow(m: nat)
    requires 0x8000 <= m < 0x1_0000
    ensures 0x80_0000 <= Lsh(m, 8) < 0x100_0000
    ensures Rsh(Lsh(m, 8), 8) == m
  {
    BitLenThresholds(m);
    BitLenLsh(m, 8);
    BitLenThresholds(Lsh(m, 8));
    LshRsh(m, 8);
  }

  /** Exponent at most three: the target is one byte shorter and normalizes to the mantissa one byte up. */
  lemma NarrowShortNormalize(bits: Uint32)
    requires Canonical(bits) && bits != 0 && Mantissa(bits) < 0x1_0000 && Size(bits) <= 3
    ensures ByteLen(SetCompact(bits).value) == Size(bits) - 1
    ensures Normalize(SetCompact(bits).value) == Lsh(Mantissa(bits), 8)
  {
    var s, m := Size(bits), Mantissa(bits);
    var k := 8 * (3 - s);
    var t := SetCompact(bits).value;
    assert t == Rsh(m, k);
    assert Lsh(t, k) == m;
    assert BitLen(m) == 16 by {
      BitLenThresholds(m);
    }
    assert BitLen(t) == 8 * (s - 1) by {
      BitLenRsh(m, k);
      BitLenLsh(t, k);
    }
    assert ByteLen(t) == s - 1;
    assert Normalize(t) == Lsh(t, k + 8);
    LshLsh(t, k, 8);
  }

  /** Exponent above three: the target is one byte shorter and normalizes to the mantissa one byte up. */
  lemma NarrowLongNormalize(bits: Uint32)
    requires Canonical(bits) && bits != 0 && Mantissa(bits) < 0x1_0000 && Size(bits) > 3
    ensures ByteLen(SetCompact(bits).value) == Size(bits) - 1
    ensures Normalize(SetCompact(bits).value) == Lsh(Mantissa(bits), 8)
  {
    var s, m := Size(bits), Mantissa(bits);
    BitLenThresholds(m);
    BitLenLsh(m, 8 * (s - 3));
    if s > 4 {
      LshRshPartial(m, 8, 8 * (s - 4));
    }
  }

  /** A canonical word survives decoding and re-encoding. */
  lemma CanonicalReencodes(bits: Uint32)
    requires Canonical(bits)
    ensures GetCompact(SetCompact(bits).value) == Some(bits)
  {
    if bits == 0 {
      DecodeZero();
    } else if Mantissa(bits) >= 0x1_0000 {
      ReencodeWide(bits);
    } else {
      ReencodeNarrow(bits);
    }
  }

  /** Encoding a decoded word gives the word back exactly when the word is canonical. */
  lemma EncodeDecode(bits: Uint32)
    ensures GetCompact(SetCompact(bits).value) == Some(bits) <==> Canonical(bits)
  {
    var t := SetCompact(bits).value;
    if GetCompact(t) == Some(bits) {
      EncodeIsCanonical(t);
    }
    if Canonical(bits) {
      CanonicalReencodes(bits);
    }
  }
}
