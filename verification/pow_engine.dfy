/**
 * The PoW consensus engine's construction, status report and per-block
 * storage parsing. The engine's configuration and each block's consensus
 * payload are serialized records; here they are fixed-width big-endian
 * byte records (see README), decoded by total functions with an error
 * result for malformed input.
 */
module PowConsensus {
  import opened Arith
  import opened Bytes
  import opened Compact
  import opened Wrappers

  type Uint64 = x: nat | x < 0x1_0000_0000_0000_0000

  /** The name this implementation answers to in the consensus-selection envelope. */
  const PowName: string := "pow"

  /** The host runtime's consensus-selection envelope. */
  datatype ConsensusConfig = ConsensusConfig(consensusName: string, config: seq<Byte>, beginHeight: int, index: int)

  datatype PoWConfig = PoWConfig(
    defaultTarget: Uint32,
    adjustHeightGap: Uint64,
    expectedPeriodMilSec: Uint64,
    maxTarget: Uint32)

  /** The per-block consensus payload: the compact target the block was mined under. */
  datatype PoWStorage = PoWStorage(targetBits: Uint32)

  datatype MinerInfo = MinerInfo(address: string)

  /** The ledger's block record, as far as this engine reads it. */
  datatype Block = Block(height: int, blockid: seq<Byte>, preHash: seq<Byte>, timestamp: int, consensusStorage: seq<Byte>)

  datatype DecodeError = MalformedPayload

  /** A constructed engine: the parsed configuration and the live difficulty. */
  datatype Engine = Engine(config: PoWConfig, targetBits: Uint32, beginHeight: int, index: int, miner: MinerInfo)

  datatype ConsensusStatus = ConsensusStatus(
    version: int,
    stepConsensusIndex: int,
    consensusBeginInfo: int,
    consensusName: string,
    currentValidatorsInfo: MinerInfo)

  /** A uint32 as a four-byte big-endian field. */
  function Field32(n: Uint32): (s: seq<Byte>)
    ensures |s| == 4 && BigEndian(s) == n
  {
    Pow2Widths();
    FixedBytes(n, 4)
  }

  /** A uint64 as an eight-byte big-endian field. */
  function Field64(n: Uint64): (s: seq<Byte>)
    ensures |s| == 8 && BigEndian(s) == n
  {
    Pow2Widths();
    FixedBytes(n, 8)
  }

  /** Every four bytes are the field of a uint32. */
  lemma Field32OfBytes(s: seq<Byte>)
    requires |s| == 4
    ensures BigEndian(s) < 0x1_0000_0000 && Field32(BigEndian(s)) == s
  {
    Pow2Widths();
    FixedBytesOfValue(s);
  }

  /** Every eight bytes are the field of a uint64. */
  lemma Field64OfBytes(s: seq<Byte>)
    requires |s| == 8
    ensures BigEndian(s) < 0x1_0000_0000_0000_0000 && Field64(BigEndian(s)) == s
  {
    Pow2Widths();
    FixedBytesOfValue(s);
  }

  function EncodeStorage(s: PoWStorage): (b: seq<Byte>)
    ensures |b| == 4
  {
    Field32(s.targetBits)
  }

  /** Reads a payload back; only a four-byte record is a payload, and it is the encoding of what is read. */
  function DecodeStorage(b: seq<Byte>): (r: Result<PoWStorage, DecodeError>)
    ensures r.Err? <==> |b| != 4
    ensures r.Ok? ==> EncodeStorage(r.value) == b
  {
    if |b| != 4 then Err(MalformedPayload)
    else
      Field32OfBytes(b);
      Ok(PoWStorage(BigEndian(b)))
  }

  lemma StorageRoundTrip(s: PoWStorage)
    ensures DecodeStorage(EncodeStorage(s)) == Ok(s)
  {
  }

  function EncodeConfig(c: PoWConfig): (b: seq<Byte>)
    ensures |b| == 24
  {
    Field32(c.defaultTarget) + Field64(c.adjustHeightGap) + Field64(c.expectedPeriodMilSec) + Field32(c.maxTarget)
  }

  /** Reads a configuration record; only a 24-byte record parses, and it is the encoding of what is read. */
  function DecodeConfig(b: seq<Byte>): (r: Result<PoWConfig, DecodeError>)
    ensures r.Err? <==> |b| != 24
    ensures r.Ok? ==> EncodeConfig(r.value) == b
  {
    if |b| != 24 then Err(MalformedPayload)
    else
      ConfigOfBytes(b);
      Ok(PoWConfig(BigEndian(b[0..4]), BigEndian(b[4..12]), BigEndian(b[12..20]), BigEndian(b[20..24])))
  }

  /** A 24-byte record is the four fields of the configuration it spells. */
  lemma ConfigOfBytes(b: seq<Byte>)
    requires |b| == 24
    ensures BigEndian(b[0..4]) < 0x1_0000_0000 && BigEndian(b[20..24]) < 0x1_0000_0000
    ensures BigEndian(b[4..12]) < 0x1_0000_0000_0000_0000 && BigEndian(b[12..20]) < 0x1_0000_0000_0000_0000
    ensures EncodeConfig(PoWConfig(BigEndian(b[0..4]), BigEndian(b[4..12]), BigEndian(b[12..20]), BigEndian(b[20..24]))) == b
  {
    var f1, f2, f3, f4 := b[0..4], b[4..12], b[12..20], b[20..24];
    Field32OfBytes(f1);
    Field64OfBytes(f2);
    Field64OfBytes(f3);
    Field32OfBytes(f4);
    assert b[..12] == f1 + f2;
    assert b[..20] == b[..12] + f3;
    assert b == b[..20] + f4;
  }

  lemma ConfigRoundTrip(c: PoWConfig)
    ensures DecodeConfig(EncodeConfig(c)) == Ok(c)
  {
    var b := EncodeConfig(c);
    assert b[0..4] == Field32(c.defaultTarget);
    assert b[4..12] == Field64(c.adjustHeightGap);
    assert b[12..20] == Field64(c.expectedPeriodMilSec);
    assert b[20..24] == Field32(c.maxTarget);
  }

  /**
   * NewPoWConsensus: no engine for another consensus name or a malformed
   * configuration; otherwise an engine whose difficulty starts at the
   * configured default target.
   */
  function NewPoWConsensus(conf: ConsensusConfig, miner: MinerInfo): (r: Option<Engine>)
    ensures r.Some? <==> conf.consensusName == PowName && |conf.config| == 24
    ensures r.Some? ==> EncodeConfig(r.value.config) == conf.config
    ensures r.Some? ==> r.value.targetBits == r.value.config.defaultTarget
  {
    if conf.consensusName != PowName then None
    else
      match DecodeConfig(conf.config)
      case Err(_) => None
      case Ok(c) => Some(Engine(c, c.defaultTarget, conf.beginHeight, conf.index, miner))
  }

  /** GetConsensusStatus: version 0, the envelope's index and begin height, this name and the miner. */
  function GetConsensusStatus(e: Engine): ConsensusStatus
  {
    ConsensusStatus(0, e.index, e.beginHeight, PowName, e.miner)
  }

  /** A freshly constructed engine reports the envelope it was built from. */
  lemma StatusOfNewEngine(conf: ConsensusConfig, miner: MinerInfo)
    requires NewPoWConsensus(conf, miner).Some?
    ensures GetConsensusStatus(NewPoWConsensus(conf, miner).value)
      == ConsensusStatus(0, conf.index, conf.beginHeight, conf.consensusName, miner)
  {
  }

  /** ParseConsensusStorage: the block's payload, or a decode error. */
  function ParseConsensusStorage(b: Block): (r: Result<PoWStorage, DecodeError>)
    ensures r.Ok? ==> EncodeStorage(r.value) == b.consensusStorage
  {
    DecodeStorage(b.consensusStorage)
  }

  /** A payload written into a block is parsed back unchanged. */
  lemma ParseWrittenStorage(b: Block, s: PoWStorage)
    requires b.consensusStorage == EncodeStorage(s)
    ensures ParseConsensusStorage(b) == Ok(s)
  {
    StorageRoundTrip(s);
  }
}
