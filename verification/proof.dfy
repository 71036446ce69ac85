/**
 * The proof-of-work acceptance rule `IsProofed(blockid, targetBits)`:
 * a block id, read as a big-endian unsigned integer, must not exceed the
 * target its compact word decodes to, and an invalid compact word accepts
 * nothing.
 */
module Proof {
  import opened Arith
  import opened Bytes
  import opened Compact
  import opened Wrappers

  function IsProofed(hash: seq<Byte>, bits: Uint32): (ok: bool)
    ensures ok ==> BitLen(BigEndian(hash)) <= 256
    ensures SignFlag(bits) && Mantissa(bits) != 0 ==> !ok
    ensures Size(bits) > 34 && Mantissa(bits) != 0 ==> !ok
  {
    var d := SetCompact(bits);
    if d.negative || d.overflow || BigEndian(hash) > d.value then false
    else
      BitLenMonotone(BigEndian(hash), d.value);
      true
  }

  /** An easier valid target accepts every hash a harder one accepts. */
  lemma ProofMonotone(hash: seq<Byte>, hard: Uint32, easy: Uint32)
    requires Valid(SetCompact(easy))
    requires SetCompact(hard).value <= SetCompact(easy).value
    ensures IsProofed(hash, hard) ==> IsProofed(hash, easy)
  {
  }

  /**
   * Checking against the encoding of a target never accepts a hash above
   * the target; for a representable target of at most 256 bits it accepts
   * exactly the hashes up to the target.
   */
  lemma ProofUnderEncodedTarget(hash: seq<Byte>, t: nat, bits: Uint32)
    requires GetCompact(t) == Some(bits)
    ensures IsProofed(hash, bits) ==> BigEndian(hash) <= t
    ensures Representable(t) && BitLen(t) <= 256 ==> (IsProofed(hash, bits) <==> BigEndian(hash) <= t)
  {
    DecodeEncodeBelow(t);
    DecodeEncodeExact(t);
  }
}
