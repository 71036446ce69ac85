/**
 * The concrete cases the PoW consensus tests check, proved of the model:
 * the default target 0x1903a30c, the easiest target 0x207FFFFF, the name
 * check at construction and the storage round trip.
 */
module PowVectors {
  import opened Arith
  import opened Bytes
  import opened Compact
  import opened Proof
  import opened PowConsensus
  import opened Wrappers

  /** The default target of the test configuration. */
  const Target: Uint32 := 0x1903a30c
  /** The easiest target, used as MaxTarget. */
  const MaxTarget: Uint32 := 0x207F_FFFF

  /** The test's integer: 0x3A30C00000000 shifted left by 144 bits. */
  function TargetValue(): nat
  {
    Lsh(0x3_A30C_0000_0000, 144)
  }

  lemma TargetValueIsShiftedMantissa()
    ensures TargetValue() == Lsh(0x03_A30C, 176)
  {
    LshLsh(0x03_A30C, 32, 144);
    LshIsMul(0x03_A30C, 32);
    Pow2Widths();
  }

  /** 0x1903a30c decodes to the test's integer, neither negative nor overflowing, within 256 bits. */
  lemma SetCompactVector()
    ensures SetCompact(Target) == Decoded(TargetValue(), false, false)
    ensures BitLen(SetCompact(Target).value) <= 256
  {
    assert Size(Target) == 0x19;
    assert Mantissa(Target) == 0x03_A30C;
    assert !SignFlag(Target);
    TargetValueIsShiftedMantissa();
  }

  /** Encoding the test's integer gives 0x1903a30c. */
  lemma GetCompactVector()
    ensures GetCompact(TargetValue()) == Some(Target)
  {
    SetCompactVector();
    TargetIsCanonical();
    CanonicalReencodes(Target);
  }

  lemma TargetIsCanonical()
    ensures Canonical(Target)
  {
    assert Size(Target) == 0x19;
    assert Mantissa(Target) == 0x03_A30C;
  }

  /** MaxTarget decodes to 0x7FFFFF shifted left by 232 bits and is valid. */
  lemma MaxTargetVector()
    ensures SetCompact(MaxTarget) == Decoded(Lsh(0x7F_FFFF, 232), false, false)
  {
    assert Size(MaxTarget) == 0x20;
    assert Mantissa(MaxTarget) == 0x7F_FFFF;
    assert !SignFlag(MaxTarget);
  }

  /**
   * A block id equal to the test's integer is accepted under the MaxTarget
   * of the engine built from the test configuration.
   */
  lemma IsProofedVector(miner: MinerInfo)
    ensures
      var e := NewPoWConsensus(ConsensusConfig("pow", EncodeConfig(TestConfig()), 1, 0), miner);
      && e.Some?
      && e.value.config.maxTarget == MaxTarget
      && IsProofed(MinimalBytes(TargetValue()), e.value.config.maxTarget)
  {
    ConfigRoundTrip(TestConfig());
    MaxTargetVector();
    var h := MinimalBytes(TargetValue());
    assert BigEndian(h) == TargetValue();
    TargetBelowMax();
  }

  lemma TargetBelowMax()
    ensures TargetValue() <= Lsh(0x7F_FFFF, 232)
  {
    TargetValueIsShiftedMantissa();
    BitLenLsh(0x03_A30C, 176);
    BitLenLsh(0x7F_FFFF, 232);
    BitLenThresholds(0x03_A30C);
    BitLenLess(TargetValue(), Lsh(0x7F_FFFF, 232));
  }

  /** The test's serialized configuration. */
  function TestConfig(): PoWConfig
  {
    PoWConfig(Target, 1, 3000, MaxTarget)
  }

  /** Construction under the name "pow" yields an engine; under "pow2" it yields none. */
  lemma NewPoWConsensusVector(miner: MinerInfo)
    ensures NewPoWConsensus(ConsensusConfig("pow", EncodeConfig(TestConfig()), 1, 0), miner).Some?
    ensures NewPoWConsensus(ConsensusConfig("pow2", EncodeConfig(TestConfig()), 1, 0), miner).None?
  {
  }

  /** The test engine reports version 0, index 0, begin height 1, name "pow" and its miner. */
  lemma ConsensusStatusVector(miner: MinerInfo)
    ensures
      var e := NewPoWConsensus(ConsensusConfig("pow", EncodeConfig(TestConfig()), 1, 0), miner);
      e.Some? && GetConsensusStatus(e.value) == ConsensusStatus(0, 0, 1, "pow", miner)
  {
    StatusOfNewEngine(ConsensusConfig("pow", EncodeConfig(TestConfig()), 1, 0), miner);
  }

  /** A block at height 1 carrying PoWStorage{TargetBits: 0x1903a30c} parses back to it. */
  lemma ParseConsensusStorageVector(blockid: seq<Byte>, preHash: seq<Byte>, timestamp: int)
    ensures ParseConsensusStorage(Block(1, blockid, preHash, timestamp, EncodeStorage(PoWStorage(Target))))
      == Ok(PoWStorage(Target))
  {
    StorageRoundTrip(PoWStorage(Target));
  }

  /**
   * Not every valid word survives decoding and re-encoding: 0x04000001
   * decodes to 0x100, a valid target, which encodes as 0x02010000.
   */
  lemma ValidWordNotCanonical()
    ensures Valid(SetCompact(0x0400_0001)) && SetCompact(0x0400_0001).value == 0x100
    ensures GetCompact(SetCompact(0x0400_0001).value) == Some(0x0201_0000)
    ensures !Canonical(0x0400_0001)
  {
    assert Size(0x0400_0001) == 4 && Mantissa(0x0400_0001) == 1;
    assert Lsh(1, 8) == 0x100;
    assert Size(0x0201_0000) == 2 && Mantissa(0x0201_0000) == 0x1_0000;
    assert Rsh(0x1_0000, 8) == 0x100;
    assert Lsh(0x100, 8) == 0x1_0000;
    assert Canonical(0x0201_0000);
    CanonicalReencodes(0x0201_0000);
  }
}
