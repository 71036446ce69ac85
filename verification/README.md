# xupercore p2p dispatch and PoW compact targets, in Dafny

This project models two parts of xupercore, a blockchain kernel written in Go.

The first part is the **p2p subscription layer**.
- A `Subscriber` listens for one `XuperMessage` type.
- It may filter on the sender (`WithFrom`).
- It hands each message either to a handler, which answers on the stream, or to a channel.
- The `Dispatcher` keeps a registry from message type to a set of subscribers, plus a cache of keys of messages it has already handled.
- `Dispatch` checks its guards in a fixed order.
- It then hands the message to every matching subscriber of its type and marks the message handled under the key `logid_checksum`.

The second part is the **proof-of-work consensus engine's difficulty codec and acceptance rule**, together with the behaviour its tests pin down:
- the compact 32-bit "nBits" target word of Bitcoin Core (`SetCompact` decodes it, `GetCompact` encodes a target);
- `IsProofed`, which accepts a block id read as a big-endian integer when it does not exceed the decoded target;
- the consensus-name check at construction;
- the status report;
- parsing of the per-block `PoWStorage` payload.

Modules:

| file | module | what |
|---|---|---|
| wrappers.dfy | Wrappers | `Option`, `Result` |
| arith.dfy | Arith | `big.Int` shifts, bit length and their laws |
| bytes.dfy | Bytes | big-endian byte strings (`SetBytes`, `Bytes`, fixed-width fields) |
| compact.dfy | Compact | `SetCompact`, `GetCompact`, canonical words, round trips |
| proof.dfy | Proof | `IsProofed` |
| pow_engine.dfy | PowConsensus | engine construction, status, storage and configuration records |
| pow_vectors.dfy | PowVectors | the concrete cases of the PoW tests |
| decimal.dfy | DecimalFormat | `%d` formatting of a checksum and reading it back |
| p2p_message.dfy | P2PMessage | the message fields the p2p layer reads |
| subscriber.dfy | P2PSubscriber | subscriber construction, matching, `HandleMessage` |
| dispatcher.dfy | P2PDispatcher | registry, `Dispatch`, message keys, handled set |

Modelling choices:
- A Go pointer's identity is an `id` field, so two subscribers are equal only when they are the same allocation.
- Nil pointers are `Option`s.
- Errors are returned as values, next to the new state.
- The handler's result, `stream.Send` failing, and the readiness of the cases of a `select` are parameters.
- The block id is a `seq<Byte>` read by `BigEndian`.
- The shifts `Lsh`/`Rsh` act on unbounded naturals, as `big.Int` does.
- The target word is a `Uint32`.
- `GetCompact` moves the mantissa down with `>> 8`.

## Model

| member | source | states |
|---|---|---|
| P2PDispatcher.Register | kernel/network/p2p/dispatcher.go:53-70 | a nil or MSG_TYPE_NONE subscriber gives ErrSubscriber and a present one ErrRegistered, both with the dispatcher unchanged; otherwise the subscriber joins its type's set, the type gains an entry, and no other entry and nothing in the handled set changes |
| P2PDispatcher.UnRegister | kernel/network/p2p/dispatcher.go:72-89 | a nil or MSG_TYPE_NONE subscriber gives ErrSubscriber; an absent type or subscriber gives ErrNotRegister, both with the dispatcher unchanged; otherwise exactly that subscriber leaves its type's set, the type keeps its entry, and nothing else changes |
| P2PDispatcher.RegistrationKeepsWellTyped | kernel/network/p2p/dispatcher.go:53-89 | Register and UnRegister keep every subscriber filed under the message type it reports |
| P2PDispatcher.RegisterThenUnRegister | kernel/network/p2p/dispatcher.go:53-89 | registering a new subscriber and unregistering it both succeed; the result is the original dispatcher, except that the type now has an entry, which may be an empty set |
| P2PDispatcher.UnRegisterThenRegister | kernel/network/p2p/dispatcher.go:53-89 | unregistering a present subscriber and registering it again restores the dispatcher exactly |
| P2PDispatcher.MessageKey | kernel/network/p2p/dispatcher.go:141-147 | the key is empty exactly for a nil message or a nil header |
| P2PDispatcher.MessageKeyRoundTrip | kernel/network/p2p/dispatcher.go:141-147 | reading a key back at its last underscore recovers the header's log id and checksum |
| P2PDispatcher.MessageKeyInjective | kernel/network/p2p/dispatcher.go:141-147 | two messages with headers share a key if and only if they share log id and checksum |
| P2PDispatcher.MaskHandled | kernel/network/p2p/dispatcher.go:149-159 | after masking, a message counts as handled if and only if it did before or shares the masked message's key; the registry is untouched |
| P2PDispatcher.IsHandledByLogidAndChecksum | kernel/network/p2p/dispatcher.go:141-159 | IsHandled depends only on the key: two messages with the same log id and checksum are handled alike, and so are a nil message and a message without a header |
| P2PDispatcher.NewDispatcherIsEmpty | kernel/network/p2p/dispatcher.go:43-51 | NewDispatcher starts with an empty, well-typed registry and has handled no message, so registering any subscriber not typed MSG_TYPE_NONE succeeds |
| P2PDispatcher.Dispatch | kernel/network/p2p/dispatcher.go:91-139 | the guards fire in the source's order: empty message, already handled, nil stream, unregistered type; every error leaves the dispatcher unchanged and reaches no subscriber; a complete, unhandled message with a stream and a registered type is always delivered; success marks the message handled and reaches exactly the subscribers of its type that match it |
| P2PDispatcher.RedispatchIsRefused | kernel/network/p2p/dispatcher.go:91-139 | a message dispatched once is refused with ErrMessageHandled the next time, whatever the stream |
| P2PDispatcher.DispatchMarksOnlyItsKey | kernel/network/p2p/dispatcher.go:137-159 | dispatching a message changes whether another message is handled only when the two share log id and checksum |
| P2PDispatcher.RecipientsListenToTheMessage | kernel/network/p2p/dispatcher.go:114-118 | in a well-typed registry every recipient is registered, has the message's type and accepts its sender |
| DecimalFormat.ParseDecimal | kernel/network/p2p/dispatcher.go:146 | reading the checksum part of a key back: a string is read if and only if `%d` could have printed it, and what is read prints as the same string |
| DecimalFormat.ParseDecimalOfDecimal | kernel/network/p2p/dispatcher.go:146 | reading a checksum's `%d` text gives the checksum back |
| DecimalFormat.DecimalOfParse | kernel/network/p2p/dispatcher.go:146 | every decimal numeral is the `%d` text of the number it spells |
| P2PSubscriber.ApplyOptions | kernel/network/p2p/subscriber.go:66-68 | options never change a subscriber's identity, type or sink |
| P2PSubscriber.LastOptionWins | kernel/network/p2p/subscriber.go:39-43 | after several WithFrom options the last one sets the sender filter; with none the filter is kept |
| P2PSubscriber.NewSubscriber | kernel/network/p2p/subscriber.go:45-71 | a subscriber exists if and only if `v` is a handler or a non-nil channel; it has the given type and sinks into `v` |
| P2PSubscriber.NewSubscriberFields | kernel/network/p2p/subscriber.go:45-86 | GetMessageType of a constructed subscriber is the type it was built with, and it filters on the last WithFrom, or on nothing |
| P2PSubscriber.Match | kernel/network/p2p/subscriber.go:88-96 | a subscriber accepts a message if and only if it has no sender filter or the filter equals the header's sender, where a nil header reads as the empty sender |
| P2PSubscriber.MatchOfNewSubscriber | kernel/network/p2p/subscriber.go:88-96 | a subscriber built without options accepts every message; otherwise it accepts exactly the messages from the last WithFrom's sender, or every message when that sender is "" |
| P2PSubscriber.HandleWithHandler | kernel/network/p2p/subscriber.go:99-116 | a failing handler gives ErrHandlerError and a nil response gives ErrResponseNil, neither sending anything; a returned response panics if and only if it or the request has a nil header; the response is sent if and only if the handler returned one, both headers exist and Send succeeds; if Send then fails the result is ErrStreamSendError; what is sent carries the request's log id |
| P2PSubscriber.SentIsStampedResponse | kernel/network/p2p/subscriber.go:111-115 | what goes on the stream is the handler's response with only the header's log id replaced |
| P2PSubscriber.HandleWithChannel | kernel/network/p2p/subscriber.go:127-138 | ErrChannelBlock needs a done context; delivery needs a ready channel; the message is silently dropped if and only if neither case is ready |
| P2PSubscriber.HandleMessage | kernel/network/p2p/subscriber.go:98-141 | a channel subscriber returns ErrChannelBlock exactly when the select takes the timeout case, so never while its context is live, and otherwise nil; a handler subscriber returns ErrHandlerError when the handler fails and ErrResponseNil for a nil response, whatever the request header; it panics if and only if the handler returned a response and that response or the request has a nil header; otherwise it returns ErrStreamSendError if and only if Send fails, and nil if and only if Send succeeds |
| P2PSubscriber.HandlerErrors | kernel/network/p2p/subscriber.go:99-116 | for a request with a header, a handler subscriber returns an error if and only if the handler fails, returns nil, or Send fails on a response with a header |
| Compact.SetCompact | bcs/consensus/pow/pow_test.go:130-151 | the overflow flag is set if and only if the decoded target needs more than 256 bits; the negative flag is set if and only if the sign bit is on and the mantissa is nonzero |
| Compact.OverflowIffWide | bcs/consensus/pow/pow_test.go:130-151 | the three-clause overflow rule on mantissa and exponent says exactly that the value does not fit in 256 bits |
| Compact.GetCompact | bcs/consensus/pow/pow_test.go:153-161 | an encoding never sets the sign bit; the zero word encodes zero and nothing else; every target of at most 254 bytes has an encoding |
| Compact.EncodeShape | bcs/consensus/pow/pow_test.go:153-161 | the encoding of a nonzero target has exponent at least 1 and a mantissa in [0x8000, 0x800000); for exponents up to 3 it decodes to the target with no bit lost; above 3 the mantissa is the target shifted down by the exponent's excess bytes |
| Compact.EncodeIsCanonical | bcs/consensus/pow/pow_test.go:153-161 | every encoding is in canonical form |
| Compact.DecodeEncodeBelow | bcs/consensus/pow/pow_test.go:130-161 | decoding an encoding never exceeds the target and is never negative; it is valid when the target fits in 256 bits |
| Compact.DecodeEncodeExact | bcs/consensus/pow/pow_test.go:130-161 | decoding an encoding gives the target back if and only if the target is a 23-bit mantissa shifted by whole bytes |
| Compact.CanonicalReencodes | bcs/consensus/pow/pow_test.go:130-161 | a canonical word re-encodes to itself after decoding |
| Compact.EncodeDecode | bcs/consensus/pow/pow_test.go:130-161 | a word re-encodes to itself after decoding if and only if it is canonical |
| Proof.IsProofed | bcs/consensus/pow/pow_test.go:163-179 | an accepted block id fits in 256 bits; a word with the sign bit on a nonzero mantissa, or an exponent above 34 with a nonzero mantissa, accepts nothing |
| Proof.ProofMonotone | bcs/consensus/pow/pow_test.go:163-179 | an easier valid target accepts every block id a harder one accepts |
| Proof.ProofUnderEncodedTarget | bcs/consensus/pow/pow_test.go:163-179 | checking against the encoding of a target never accepts an id above the target; for a representable target of at most 256 bits it accepts exactly the ids up to the target |
| Bytes.MinimalBytes | bcs/consensus/pow/pow_test.go:173-175 | `b.Bytes()` reads back to the number and has no leading zero byte |
| Bytes.MinimalBytesOfValue | bcs/consensus/pow/pow_test.go:173-175 | a byte string without a leading zero is the `Bytes()` of its own value |
| Bytes.FixedBytesOfValue | bcs/consensus/pow/pow_test.go:102-128 | every byte string is the fixed-width writing of its value |
| PowConsensus.DecodeStorage | bcs/consensus/pow/pow_test.go:102-128 | a payload parses if and only if it is a four-byte record, and what it parses to encodes back to the payload |
| PowConsensus.StorageRoundTrip | bcs/consensus/pow/pow_test.go:103-127 | a PoWStorage written and read back is unchanged |
| PowConsensus.DecodeConfig | bcs/consensus/pow/pow_test.go:20-29 | a configuration parses if and only if it is a 24-byte record, and what it parses to encodes back to the record |
| PowConsensus.ConfigRoundTrip | bcs/consensus/pow/pow_test.go:20-29 | a PoWConfig written and read back is unchanged |
| PowConsensus.NewPoWConsensus | bcs/consensus/pow/pow_test.go:56-67 | an engine exists if and only if the envelope names "pow" and carries a well-formed configuration; the engine holds that configuration and its difficulty starts at the default target |
| PowConsensus.StatusOfNewEngine | bcs/consensus/pow/pow_test.go:69-100 | GetConsensusStatus of a new engine reports version 0, the envelope's index, begin height and name, and its miner |
| PowConsensus.ParseConsensusStorage | bcs/consensus/pow/pow_test.go:102-128 | what a block's payload parses to encodes back to that payload |
| PowConsensus.ParseWrittenStorage | bcs/consensus/pow/pow_test.go:102-128 | a payload written into a block parses back unchanged |
| PowVectors.TargetValueIsShiftedMantissa | bcs/consensus/pow/pow_test.go:145-147 | the test's integer, 0x3A30C00000000 shifted left by 144 bits, is the mantissa 0x03A30C shifted left by 176 bits |
| PowVectors.SetCompactVector | bcs/consensus/pow/pow_test.go:130-151 | 0x1903a30c decodes to the test's integer, is neither negative nor overflowing, and fits in 256 bits |
| PowVectors.GetCompactVector | bcs/consensus/pow/pow_test.go:153-161 | the test's integer encodes to 0x1903a30c |
| PowVectors.MaxTargetVector | bcs/consensus/pow/pow_test.go:13-18 | 0x207FFFFF decodes to 0x7FFFFF shifted left by 232 bits, neither negative nor overflowing |
| PowVectors.IsProofedVector | bcs/consensus/pow/pow_test.go:163-179 | the engine built from the test configuration has MaxTarget 0x207FFFFF, and the `Bytes()` of the test's integer is accepted under that engine's MaxTarget |
| PowVectors.NewPoWConsensusVector | bcs/consensus/pow/pow_test.go:56-67 | the test configuration builds an engine under "pow" and none under "pow2" |
| PowVectors.ConsensusStatusVector | bcs/consensus/pow/pow_test.go:69-100 | the test engine reports version 0, index 0, begin height 1, name "pow" and its miner |
| PowVectors.ParseConsensusStorageVector | bcs/consensus/pow/pow_test.go:102-128 | a height-1 block carrying PoWStorage{TargetBits: 0x1903a30c} parses back to it |
| PowVectors.ValidWordNotCanonical | bcs/consensus/pow/pow_test.go:130-161 | 0x04000001 is a valid word that decodes to 0x100, which re-encodes as 0x02010000 |

## Left out

- Concurrency in `Dispatch` is not modelled:
  - the registry's RWMutex;
  - the second, locked lookup of the type, which the model merges with the first;
  - the goroutine per recipient, the `ctrl` semaphore of 2048 slots and the WaitGroup.

  `Dispatch` returns the set of recipients instead. A recipient's returned error is only logged and does not change Dispatch's result.
- P2PDispatcher.Dispatch: a recipient that panics is not modelled. A handler that returns a response with a nil header panics while its log id is stamped, inside the recipient's goroutine, and that ends the process. The model's `Dispatch` still reports success in that case. `P2PSubscriber.HandleMessage` alone states when the panic happens.
- The handled cache's 3-second expiry: the model keeps a plain set, with no clock.
- Logging, and the Prometheus packet metric in `HandleMessage`: neither affects any result.
- The handler, `stream.Send` and the channel are foreign code. Their outcomes are parameters: `HandlerOutcome`, `sendFails`, and the readiness of the `select` cases.
- bcs/consensus/pow/pow.go, which holds `SetCompact`, `GetCompact`, `IsProofed`, `NewPoWConsensus` and the storage parsing, is not part of this model. The codec follows Bitcoin Core's compact format (`arith_uint256::SetCompact` and `GetCompact`). The cases in pow_test.go fix its behaviour at concrete points.
- Compact.SetCompact: the model computes the negative and overflow flags from the 23-bit mantissa before the shift. Bitcoin Core tests the shifted value when the exponent is at most 3. The two differ only for words whose value shifts to zero.
- Compact.GetCompact: the second Go result is not modelled. The model returns no encoding when the exponent would not fit in its byte, which happens only for targets of 255 bytes or more. Its contract promises an encoding only up to 254 bytes.
- Decoding a word and re-encoding it returns the word exactly for canonical words (`Compact.EncodeDecode`), not for every valid word. 0x04000001 is valid and decodes to 0x100, which re-encodes as 0x02010000 (`PowVectors.ValidWordNotCanonical`).
- The test integer 0x3A30C00000000 << 144 is the mantissa 0x03A30C shifted by 176 = 8·(0x19−3) bits, because 0x3A30C00000000 is that mantissa already shifted by 32 bits. `PowVectors.TargetValueIsShiftedMantissa` and `SetCompactVector` state this.
- The JSON encoding of `PoWConfig` and `PoWStorage` is replaced by fixed-width big-endian records: four bytes for a uint32, eight for a uint64. JSON text is not modelled.
- The status carries `MinerInfo` as a value. Its serialized form, returned by `GetCurrentValidatorsInfo()`, is not modelled, and neither is the unmarshal that the status test performs on it (bcs/consensus/pow/pow_test.go:90-96).
- Validation of configuration values, for example `AdjustHeightGap >= 1`, is not part of this model.
- The error of `BlockHandle.GetConsensusStorage` is not modelled: the block carries its payload directly.
- Difficulty retargeting (`refreshDifficulty`), mining and miner checks are not modelled. Their code is not part of this model, and they depend on hashing, the clock and a ledger.
- Only the `Logid`, `From`, `Type`, `DataCheckSum` and `Bcname` header fields and the data body are modelled; the p2p layer reads nothing else.
