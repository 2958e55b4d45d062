# A verified model of a VoIP media plane

The repository implements the media plane of encrypted voice calls by hand: key agreement
between two engines, encrypted signaling, relay packets for audio, a playout buffer, ICE
connectivity checks over STUN and TURN, a DTLS 1.2 client with a DER encoder for its
certificate and signatures, and SRTP. This project models those parts in Dafny and proves
what they promise.

Each part comes in the same three layers:

* a specification on values (`StunSpec`, `JitterSpec`, `DtlsSessionSpec`, ...): the wire
  formats and state transitions as functions;
* the code as the program runs it (`StunMessage`, `JitterBuffer`, `DtlsClientSession`, ...):
  loops with cursors, buffers that are overwritten, objects whose methods update fields,
  counters of fixed width. Every method is proved to compute what the specification says;
* laws about the specification (`StunLaws`, `JitterLaws`, `DtlsSessionLaws`, ...): round
  trips against independent readers, invariants over every run, refinements of a simpler
  form, and exact conditions where a stronger claim fails. `JitterTiming`, `KeyCommitment`,
  `DtlsAcceptance` and `IceHistory` say what every run does in terms of its events alone, and
  the modules named after layouts, headers, languages and readings say exactly which bytes or
  texts are accepted and what they mean, without a word of the specification.

`CallEndToEnd` puts the layers together: after the key exchange of two engines, audio frames
and signaling messages of either side arrive at the other.

The modules, by component:

| component | modules |
|---|---|
| bytes, sequences, exclusive or | `Bytes`, `SeqFacts` |
| playout buffer | `JitterSpec`, `JitterBuffer`, `JitterRefinement`, `JitterLaws`, `JitterTiming` |
| signaling text | `JsonSpec`, `JsonParser`, `JsonRoundTrip`, `JsonSpaced`, `JsonLanguage`, `DecimalText`, `SignalingMessages`, `SignalingWriter`, `SignalingRoundTrip`, `SignalingSpaced`, `SignalingReading` |
| signaling packets | `SignalingFrames`, `SignalingCodec`, `SignalingLayout`, `SignalingEnvelope`, `CounterMode` |
| key agreement and waiting packets | `ModularPower`, `KeyExchangeSpec`, `KeyCommitment`, `PendingQueue`, `VoipEngine` |
| audio packets | `PacketCrypto`, `RelayLayout`, `MediaPackets`, `MediaReading`, `MediaChain` |
| STUN, TURN, ICE | `Crc32`, `StunSpec`, `StunLaws`, `StunReading`, `StunMessage`, `Md5`, `Md5Context`, `TurnMessage`, `TurnReading`, `IceCandidateSpec`, `CandidateReading`, `IceCandidate`, `IceAgentSpec`, `IceAgentLaws`, `IceHistory`, `IceConnects`, `IceAgent` |
| DTLS and DER | `DtlsRecord`, `DtlsHandshake`, `DtlsLayout`, `DtlsDecoders`, `DtlsSessionSpec`, `DtlsSessionLaws`, `DtlsTranscript`, `DtlsAcceptance`, `DtlsSecret`, `DtlsEstablished`, `DtlsClientSession`, `Asn1Spec`, `Asn1Laws`, `Asn1Builder` |
| SRTP | `CounterMode`, `SrtpKeys`, `SrtpPacket`, `RtpHeaders`, `SrtpLaws` |

## What the model takes as given

AES on one block, SHA-1, SHA-256, HMAC-SHA1, AES-GCM, the TLS pseudo-random function, ECDH,
ECDSA signing and the MD5 compression function are parameters: arbitrary functions, with the
one law that block decryption inverts block encryption where relay packets need it. Random
numbers, transaction ids, clock readings, the bytes of the own certificate, whether the
socket accepts a datagram, and the reading of a dotted-quad address are inputs. Fixed-width
integers are written out: subset types for the widths and explicit reductions where a
counter wraps or a length is truncated. A `std::string` is a Dafny string whose characters
are bytes; where text becomes bytes (`SignalingEnvelope.Sendable`) this is stated. Lengths
of buffers stay below 2^64, and JSON texts below the 2^32 bytes that their length prefix
can express.

## Where the code and its documentation differ

The model follows the code. Each of these has a lemma.

* `srtp_packet_codec.h` says that the rollover counter rises when the sequence number wraps.
  The test in the code is inverted: the counter stays at a wrap and rises on a small
  backward step (`SrtpLaws.RocCorrectIff`, `SrtpLaws.WrapDoesNotRaiseRoc`). Over a run of
  consecutive numbers two packets therefore share key stream exactly when they are a
  multiple of 65536 apart (`SrtpLaws.RunSharesBlockIff`).
* `turn_message.h` places the high class bit at bit 9 of the message type, where method bit
  7 already is, and not at bit 8 (section 6 of RFC 5389). Requests and indications are
  encoded as in the standard, and every success or error response that follows the standard
  is read as a request or an indication (`TurnMessage.TypeRoundTrip`, `StandardIff`,
  `StandardResponsesAreMisread`).
* An IPv6 address in a TURN message loses its family and port to a stray write, so no
  IPv6 address survives (`TurnMessage.AddressRoundTrip`).
* The playout buffer evicts the numerically smallest key, which is the oldest packet exactly
  when the buffered numbers do not straddle a multiple of 65536
  (`JitterLaws.EvictsOldestIff`; `BurstEvicts` and `EvictionNearWrap` as runs).
* The stream packet admits Opus frames of up to 1100 bytes, the control packet around it
  only frames of up to 1093; frames in between are dropped after their sequence number is
  spent (`MediaChain.SendsIff`).
* The DTLS client binds the extended master secret to the transcript including
  CertificateVerify; section 3 of RFC 7627 ends the session hash at ClientKeyExchange
  (`DtlsSecret.SecretIsStandardIff`; `DepartureOccurs` is a complete run with another secret
  than the standard's). The order of handshake messages is not enforced, and nothing here
  claims that it is.
* Joining the frames of a split body writes an empty length behind an unknown tag, so the
  result is a prefix of the body only if those four zero bytes were there
  (`SignalingFrames.JoinSplitIff`).
* `WriteIntegerSmall` of the DER builder encodes negative numbers as large positive ones
  (`Asn1Laws.SmallMeansIff`, `MinusOneBecomes255`).
* A signaling packet whose only message is shorter than seven bytes is below the receiver's
  minimum and is lost; nothing behind a JSON text over 1 MiB is delivered
  (`SignalingEnvelope.OpenedSealed`).
* The JSON reader ignores whatever follows the first value, so the round trip holds for any
  text behind the closing brace (`SignalingRoundTrip.ParseSerialize`).

## Model

| member | source | states |
|---|---|---|
| JitterBuffer.VoipJitterBuffer.Insert | src/voip/src/domain/voip_jitter_buffer.cpp:51-88 | the verdict and the whole new state, 32-bit counters included, are those of the specification with exact counters; `JitterTiming` says what delay that means |
| JitterBuffer.VoipJitterBuffer.NextPlayoutFrame | src/voip/src/domain/voip_jitter_buffer.cpp:90-125 | the frame handed out, concealed frames included, and the new state are those of the specification |
| JitterBuffer.VoipJitterBuffer.RecalculateTarget | src/voip/src/domain/voip_jitter_buffer.cpp:142-158 | the smoothed jitter and the clamped playout delay, over exact reals |
| JitterBuffer.VoipJitterBuffer.TrimOverflow | src/voip/src/domain/voip_jitter_buffer.cpp:160-165 | the eviction loop ends with at most 64 packets, having dropped smallest keys one by one and counted them |
| JitterRefinement.RunRefines | src/voip/src/domain/voip_jitter_buffer.cpp:51-165 | on every run whose packets arrive within [-32768, 32768) of the cursor, the buffer keyed by 16-bit numbers gives the same verdicts and frames as one keyed by unbounded indices, and stays related to it |
| JitterRefinement.SixteenBitBufferIsTheUnboundedBuffer | src/voip/src/domain/voip_jitter_buffer.cpp:27-31 | from a fresh buffer the two also agree on all counts and on the depth |
| JitterRefinement.WindowIsExact | src/voip/src/domain/voip_jitter_buffer.cpp:27-31 | one number beyond either end of that window the 16-bit comparison misjudges the packet |
| JitterRefinement.PlaysLatestArrival | src/voip/src/domain/voip_jitter_buffer.cpp:90-125 | a frame with a packet carries the timestamp and payload most recently received under exactly the index the cursor stands at |
| JitterLaws.RunConserves | src/voip/src/domain/voip_jitter_buffer.cpp:51-165 | in every reachable state inserted = played + buffered + overwritten + trimmed, at most 64 packets are buffered, and the delay stays within 60 and 180 ms |
| JitterLaws.PlayoutSchedule | src/voip/src/domain/voip_jitter_buffer.cpp:90-125 | over every run the frames handed out have consecutive sequence numbers and none comes before its due time |
| JitterTiming.FrameOfTick | src/voip/src/domain/voip_jitter_buffer.cpp:51-125 | after every run a tick hands out a frame if and only if 60 ms plus one frame duration for each frame before have passed since the first packet with a payload arrived; it has the next number after that packet's and, if concealed, that packet's timestamp that many durations on |
| JitterTiming.PlayoutsInTime | src/voip/src/domain/voip_jitter_buffer.cpp:51-125 | over every run, and read off the events, frame number j comes no earlier than the first packet's arrival plus 60 ms plus j durations, with that number and, if concealed, that timestamp; nothing comes before a packet |
| JitterTiming.CountsOfRun | src/voip/src/domain/voip_jitter_buffer.cpp:51-158 | after every run the delay is 60 ms plus four times the jitter of the packets that did not come late, at most 180; packets are inserted or late, frames handed out played or lost |
| JitterTiming.JitterBetween | src/voip/src/domain/voip_jitter_buffer.cpp:142-158 | the smoothed jitter lies between the smallest and the largest deviation of two arrivals from one frame duration |
| JitterLaws.EvictsOldestIff | src/voip/src/domain/voip_jitter_buffer.cpp:160-165 | the evicted packet is the oldest one if and only if the buffered indices do not straddle a multiple of 65536 |
| JitterLaws.BurstEvicts | src/voip/src/domain/voip_jitter_buffer.cpp:51-165 | of sixty-five consecutive packets into a fresh buffer exactly one is pushed out, and the oldest survives if and only if they straddle a multiple of 65536, in the reference and in the 16-bit buffer |
| JitterLaws.EvictionNearWrap | src/voip/src/domain/voip_jitter_buffer.cpp:160-165 | a run of sixty-five packets around a wrap after which the oldest is still buffered and 65536 is not |
| JsonParser.Parser.ParseValue | src/voip/src/domain/tgcalls_signaling_messages.cpp:178-233 | the recursive descent over a position and a failure flag reads the value the scanning functions define, ends, and leaves the position behind it; `JsonLanguage.ReadsExactly` says which texts those are |
| JsonParser.Parser.ScanString | src/voip/src/domain/tgcalls_signaling_messages.cpp:95-147 | the string loop with its escapes and UTF-8 encoding of \u escapes |
| JsonParser.Parser.ParseNumber | src/voip/src/domain/tgcalls_signaling_messages.cpp:157-176 | the number scanner takes the longest sign, digits, fraction and exponent, and fails without a digit |
| JsonRoundTrip.ScanEscaped | src/voip/src/domain/tgcalls_signaling_messages.cpp:254-279 | every byte string, control characters and quotes included, is read back from its escaped form |
| JsonRoundTrip.ParsePrint | src/voip/src/domain/tgcalls_signaling_messages.cpp:64-240 | every JSON tree with integer numbers is read back from its printed text, and the reader stops where the text ends |
| JsonRoundTrip.EscapeForms | src/voip/src/domain/tgcalls_signaling_messages.cpp:254-279 | which characters are written as they stand, which with two characters and which with six |
| JsonSpaced.ParseText | src/voip/src/domain/tgcalls_signaling_messages.cpp:64-240 | every text of the grammar is read as its value, whatever blanks, tabs and line ends lie around its tokens and however its strings and numbers are spelled, and the reader stops behind the value |
| JsonSpaced.ScanSpelled | src/voip/src/domain/tgcalls_signaling_messages.cpp:95-147 | every string is read however each of its characters is spelled: as it stands, behind a backslash, or as four hexadecimal digits of either case |
| JsonSpaced.Utf8IsRead | src/voip/src/domain/tgcalls_signaling_messages.cpp:124-140 | an escaped code point becomes the one shortest sequence of UTF-8 bytes |
| JsonSpaced.SpreadSpells | src/voip/src/domain/tgcalls_signaling_messages.cpp:64-240 | every tree of integer numbers has such a text with any white space before and after every token |
| JsonLanguage.ValueWasRead | src/voip/src/domain/tgcalls_signaling_messages.cpp:64-240 | conversely what is read from the front of a text stands there in this grammar |
| JsonLanguage.ReadsExactly | src/voip/src/domain/tgcalls_signaling_messages.cpp:64-240 | so the reader accepts exactly the texts that begin with a value of the grammar, and reads that value |
| DecimalText.IntegerConversions | src/voip/src/domain/tgcalls_signaling_messages.cpp:244-252 | a printed 32-bit integer comes back through the floating-point conversion with the same value, signed and unsigned |
| SignalingWriter.EscapeJson | src/voip/src/domain/tgcalls_signaling_messages.cpp:254-279 | the appending loop produces the escaped text that the reader undoes |
| SignalingWriter.ParseCandidates | src/voip/src/domain/tgcalls_signaling_messages.cpp:314-328 | the candidates are the texts of exactly those list items that have one, in order |
| SignalingWriter.SerializeCandidateList | src/voip/src/domain/tgcalls_signaling_messages.cpp:377-386 | commas stand between the candidates and nowhere else |
| SignalingRoundTrip.SerializedIsPrinted | src/voip/src/domain/tgcalls_signaling_messages.cpp:365-418 | the text of every structured message is the printed form of a JSON tree with its fields |
| SignalingRoundTrip.ParseSerialize | src/voip/src/domain/tgcalls_signaling_messages.cpp:287-487 | for every message of a structured type and arbitrary text in its fields, reading back gives the same fields, empty media states as "inactive", whatever follows the text |
| SignalingRoundTrip.SerializeIsStable | src/voip/src/domain/tgcalls_signaling_messages.cpp:420-487 | writing what was read gives the same text again |
| SignalingSpaced.ParseSpaced | src/voip/src/domain/tgcalls_signaling_messages.cpp:287-487 | a structured message is read from every text that spells its tree, with any white space and any spelling of its strings |
| SignalingSpaced.ParseSpread | src/voip/src/domain/tgcalls_signaling_messages.cpp:287-487 | in particular with the same white space around all tokens, for every message |
| SignalingReading.NumberMeans | src/voip/src/domain/tgcalls_signaling_messages.cpp:157-252 | every number of the grammar has the value its digits, fraction and exponent say |
| SignalingReading.TextNumberMeans | src/voip/src/domain/tgcalls_signaling_messages.cpp:248-250 | a text that stands for a number counts with the integer it begins with behind white space |
| SignalingReading.FindIff | src/voip/src/domain/tgcalls_signaling_messages.cpp:287-363 | a member is found if and only if it is the first one with its key |
| SignalingReading.SetupReadIff | src/voip/src/domain/tgcalls_signaling_messages.cpp:287-312 | which objects are read as a setup and what each field holds: two texts and a list are needed, and the fingerprint is the first item's |
| SignalingReading.CandidatesReadIff | src/voip/src/domain/tgcalls_signaling_messages.cpp:314-328 | which are read as candidates: the texts of the items that have one, in order |
| SignalingReading.PingReadIff | src/voip/src/domain/tgcalls_signaling_messages.cpp:339-345 | the identifier is under the one key or, only if that is missing, under the other |
| SignalingReading.MediaStateReadIff | src/voip/src/domain/tgcalls_signaling_messages.cpp:347-361 | every object is read as a media state, with the defaults where a member is missing or of another kind |
| SignalingReading.EachTypeIsRead | src/voip/src/domain/tgcalls_signaling_messages.cpp:420-487 | for each of the ten type names the part it names is filled and no other, and a message whose members do not fit keeps only its type name; so does one of any other type |
| SignalingFrames.Split | src/voip/src/domain/tgcalls_signaling_frames.cpp:34-103 | the scanning loop yields the frames of the recursive format, stopping at unknown tags, long payloads and truncation |
| SignalingFrames.Join | src/voip/src/domain/tgcalls_signaling_frames.cpp:105-133 | the loop that resizes and writes yields the recursive layout, the first frame without its sequence word |
| SignalingFrames.SplitJoin | src/voip/src/domain/tgcalls_signaling_frames.cpp:34-133 | splitting what was joined gives back all frames up to the first one over 1 MiB, the first under the packet's sequence word |
| SignalingFrames.JoinSplitIff | src/voip/src/domain/tgcalls_signaling_frames.cpp:34-133 | joining what was split is a prefix of the body if and only if the scan meets no unknown tag or one that four zero bytes follow |
| SignalingFrames.JoinSplit | src/voip/src/domain/tgcalls_signaling_frames.cpp:34-133 | in particular whenever no unknown tag occurs among the frames |
| SignalingFrames.UnknownTagIsNotRejoined | src/voip/src/domain/tgcalls_signaling_frames.cpp:75-84 | a body with an unknown tag for which it is not, and one for which it is |
| SignalingFrames.FlagsAre | src/voip/src/domain/tgcalls_signaling_frames.cpp:26-30 | a sequence word is the single bit, the acknowledgement bit and a counter of 30 bits |
| SignalingFrames.FrameIs | src/voip/src/domain/tgcalls_signaling_frames.cpp:105-133 | a frame is its tag alone or tag, length of four bytes and payload |
| SignalingCodec.AesCtrXcrypt | src/voip/src/domain/tgcalls_signaling_codec.cpp:70-101 | the loop over a counter incremented in place is counter mode |
| SignalingCodec.Encrypt | src/voip/src/domain/tgcalls_signaling_codec.cpp:205-251 | message key and ciphertext of the sequence word and body; nothing for a key of another length |
| SignalingCodec.Decrypt | src/voip/src/domain/tgcalls_signaling_codec.cpp:136-203 | the packet is accepted exactly if it has 32 bytes and its key matches the hash of what it decrypts to |
| SignalingCodec.DecryptEncrypt | src/voip/src/domain/tgcalls_signaling_codec.cpp:136-251 | the peer gets back every sequence word and body, except bodies under 12 bytes, which are always refused |
| SignalingLayout.EncryptedLayout | src/voip/src/domain/tgcalls_signaling_codec.cpp:205-251 | what is sent, written with the byte ranges of the shared key for either side; nothing for a key of another size |
| SignalingLayout.DecryptedIff | src/voip/src/domain/tgcalls_signaling_codec.cpp:136-203 | a packet is accepted if and only if it is the other side's packet for some sequence word and a body of at least 12 bytes, which are then read |
| SignalingEnvelope.Encrypt | src/voip/src/domain/tgcalls_signaling_envelope.cpp:11-47 | the frame-building loop yields one frame per message with the flags and numbers of the format, joined and encrypted |
| SignalingEnvelope.Decrypt | src/voip/src/domain/tgcalls_signaling_envelope.cpp:49-71 | the messages are those of the custom, non-empty frames, in order |
| SignalingEnvelope.OpenedSealed | src/voip/src/domain/tgcalls_signaling_envelope.cpp:11-71 | for every list of messages the peer gets, in order, what each JSON text parses to, up to the first text over 1 MiB and without empty texts; a lone text under seven bytes is lost |
| SignalingEnvelope.FrameSeqBits | src/voip/src/domain/tgcalls_signaling_envelope.cpp:22-42 | the low 30 bits count on from frame to frame, the acknowledgement bit is always set and the single bit for a lone message |
| SignalingEnvelope.SealedSequence | src/voip/src/domain/tgcalls_signaling_envelope.cpp:11-47 | the packet carries the word of its first frame |
| SignalingEnvelope.EachFrame | src/voip/src/domain/tgcalls_signaling_envelope.cpp:62-71 | a frame brings one message if it has the tag of messages and is not empty, any other frame none |
| SignalingEnvelope.StructuredArrive | src/voip/src/domain/tgcalls_signaling_envelope.cpp:11-71 | lists of structured messages of at most 1 MiB each arrive completely |
| ModularPower.Agreement | src/voip/src/application/voip_engine.cpp:1030-1074 | raising either public value to the other exponent gives the same number, for every base and modulus |
| KeyExchangeSpec.PickInRange | src/voip/src/application/voip_engine.cpp:1010-1028 | the private exponent lies strictly between 1 and the modulus whatever the eight draws are |
| KeyExchangeSpec.SharedKeysAgree | src/voip/src/application/voip_engine.cpp:1030-1074 | both sides compute the same 256 key bytes |
| KeyExchangeSpec.RunKeeps | src/voip/src/application/voip_engine.cpp:1169-1390 | on every run of the engine's operations a ready key has 256 bytes and its own fingerprint, and every exponent belongs to a valid group |
| KeyExchangeSpec.EnginesAgree | src/voip/src/application/voip_engine.cpp:1169-1346 | from any states of two engines, if both public values lie in (1, p), all six steps succeed and both hold the same key and fingerprint |
| KeyCommitment.GroupIsValidConfig | src/voip/src/application/voip_engine.cpp:963-982 | exactly the odd moduli of 2048 bits with a generator from 2 to 7 are taken |
| KeyCommitment.PickIsFirst | src/voip/src/application/voip_engine.cpp:1010-1028 | the exponent is the first of the draws inside the group, and 2 if there is none |
| KeyCommitment.FingerprintMeans | src/voip/src/application/voip_engine.cpp:1052-1060 | the fingerprint is the last eight bytes of the key's SHA-1, least significant first, with sign |
| KeyCommitment.ConfirmIff | src/voip/src/application/voip_engine.cpp:1303-1346 | in a call with a commitment a value is confirmed if and only if it hashes to it, lies in (1, p) and gives the expected fingerprint, if one is expected; otherwise the engine is unchanged |
| KeyCommitment.AcceptIff | src/voip/src/application/voip_engine.cpp:1269-1301 | the caller takes exactly the values in (1, p), and is unchanged otherwise |
| KeyCommitment.ConfirmUncommitted | src/voip/src/application/voip_engine.cpp:1303-1346 | without a commitment a confirmation asks for no hash and takes the same values |
| KeyCommitment.MaterialIs | src/voip/src/application/voip_engine.cpp:1169-1267 | both sides are given the public value of their exponent, its hash and no fingerprint yet |
| KeyCommitment.SubstitutedValue | src/voip/src/application/voip_engine.cpp:1169-1346 | when any value and fingerprint reach the callee in place of the caller's, exactly a value with the same hash as the caller's, in range and with the right fingerprint, is confirmed |
| KeyCommitment.AnswersOfRun | src/voip/src/application/voip_engine.cpp:1169-1390 | after every run which operations succeed follows from the operations before them, and the ones that fail change nothing |
| KeyCommitment.ConfirmedValueWasCommitted | src/voip/src/application/voip_engine.cpp:1213-1346 | over every run a key that a confirmation sets in a call with a commitment comes from a value that hashes to the one registered last |
| KeyExchangeSpec.WaitingPackets | src/voip/src/application/voip_engine.cpp:1936-1966 | packets and bytes received are counted modulo 2^32; what waits for a call is the longest suffix, within the limits, of the packets its media stack did not take, and the drop counter makes up the difference |
| VoipEngine.PickPrivateExponent | src/voip/src/application/voip_engine.cpp:1010-1028 | the loop returns the first of eight draws in range, or 2 |
| VoipEngine.CallEngine.CreateOutgoingDh | src/voip/src/application/voip_engine.cpp:1169-1197 | new material for a random id, nothing else changed; refused for an unsound group |
| VoipEngine.CallEngine.BindOutgoingCall | src/voip/src/application/voip_engine.cpp:1199-1211 | the session moves from its random id to the call and the call is no longer dropped |
| VoipEngine.CallEngine.RegisterIncomingGAHash | src/voip/src/application/voip_engine.cpp:1213-1231 | the commitment is stored with the call, other fields kept |
| VoipEngine.CallEngine.CreateIncomingDh | src/voip/src/application/voip_engine.cpp:1233-1267 | material only for a call with a commitment |
| VoipEngine.CallEngine.AcceptPeerGB | src/voip/src/application/voip_engine.cpp:1269-1301 | a key for every peer value in range, no change otherwise |
| VoipEngine.CallEngine.ConfirmPeerGAOrB | src/voip/src/application/voip_engine.cpp:1303-1346 | a key only if the value matches the commitment, lies in range and gives the expected fingerprint; no change otherwise |
| VoipEngine.CallEngine.DropCall | src/voip/src/application/voip_engine.cpp:1370-1390 | the call's session is gone and the call is remembered as dropped |
| VoipEngine.CallEngine.ReceiveSignalingData | src/voip/src/application/voip_engine.cpp:1936-1980 | packets of unknown calls are refused, of dropped calls swallowed, of known calls counted and queued unless delivered |
| VoipEngine.QueuePendingSignaling | src/voip/src/application/voip_engine.cpp:1084-1105 | the loop drops from the front exactly until both limits hold and counts what it drops |
| PendingQueue.PendingIsLongestSuffix | src/voip/src/application/voip_engine.cpp:1092-1105 | after any packets the queue is the longest suffix of the whole stream with at most 128 packets and 512 KiB, and queued = pending + dropped |
| PendingQueue.DropsWhenFull | src/voip/src/application/voip_engine.cpp:1092-1105 | at most 128 packets of at most 524288 bytes are pending, and the youngest packet dropped would exceed one of the two |
| CallEndToEnd.AudioArrives | src/voip/src/application/voip_engine.cpp:1914-1922 | after the key exchange, frames of 1 to 1093 bytes of either side reach the other with number, timestamp and payload intact |
| CallEndToEnd.SignalingArrives | src/voip/src/application/voip_engine.cpp:1169-1346 | and so do structured signaling messages |
| PacketCrypto.EncryptIge | src/voip/src/domain/voip_packet_crypto.cpp:77-109 | the block loop writing into the output is infinite garble extension mode; refused for lengths that are zero or not whole blocks |
| PacketCrypto.DecryptIge | src/voip/src/domain/voip_packet_crypto.cpp:111-143 | likewise for decryption, with the roles of the two chained blocks exchanged |
| PacketCrypto.IgeRoundTrip | src/voip/src/domain/voip_packet_crypto.cpp:77-143 | decryption undoes encryption for every block-aligned text, key and initial vectors |
| PacketCrypto.PaddingBounds | src/voip/src/domain/voip_packet_crypto.cpp:192-196 | padding is 16 to 31 bytes and completes a block |
| PacketCrypto.EncryptRelayPacket | src/voip/src/domain/voip_packet_crypto.cpp:171-225 | tag, message key and ciphertext of the padded plaintext; refused for wrong key, tag or plaintext sizes |
| PacketCrypto.DecryptRelayPacket | src/voip/src/domain/voip_packet_crypto.cpp:227-286 | the plaintext if size, tag, alignment, message key, inner length and padding are right, nothing otherwise |
| PacketCrypto.DecryptEncrypt | src/voip/src/domain/voip_packet_crypto.cpp:162-286 | the peer recovers every plaintext of 1 to 1200 bytes whatever the padding, exactly if it expects this tag or none |
| RelayLayout.IgeChains | src/voip/src/domain/voip_packet_crypto.cpp:77-109 | every ciphertext block is the encryption of its plaintext block masked with the ciphertext block before, masked with the plaintext block before |
| RelayLayout.EncryptedLayout | src/voip/src/domain/voip_packet_crypto.cpp:162-225 | what is sent, written with the byte ranges of the shared key for either side, with 16 to 31 random bytes; nothing for other sizes |
| RelayLayout.DecryptedIff | src/voip/src/domain/voip_packet_crypto.cpp:227-286 | a packet is accepted if and only if the other side of the call makes it under the same key, with the expected tag, from this plaintext and some padding |
| MediaPackets.EncodeAudio | src/voip/src/domain/voip_stream_data_packet.cpp:44-77 | the pushed bytes, with one or two length bytes, or the refusals |
| MediaPackets.DecodeOne | src/voip/src/domain/voip_stream_data_packet.cpp:79-131 | the packet at the front, with every refusal of flags and lengths |
| MediaPackets.AudioRoundTrip | src/voip/src/domain/voip_stream_data_packet.cpp:44-131 | every encodable packet is decoded to itself whatever follows it |
| MediaPackets.ControlRoundTrip | src/voip/src/domain/voip_control_packet.cpp:74-114 | every encodable control packet is decoded to itself |
| MediaPackets.ControlDecodeUnique | src/voip/src/domain/voip_control_packet.cpp:74-114 | what is decoded, short enough to be sent, is its own encoding |
| MediaPackets.ParseInitAckPayload | src/voip/src/domain/voip_control_packet.cpp:147-190 | the descriptor loop with its truncation and version checks |
| MediaPackets.InitAckRoundTrip | src/voip/src/domain/voip_control_packet.cpp:147-190 | from a peer of compatible version and any list of at most 255 streams, the last enabled Opus audio stream is taken, whatever follows |
| MediaPackets.InitAckReadIff | src/voip/src/domain/voip_control_packet.cpp:147-190 | an answer is read if and only if its versions are compatible and all the streams it announces are there |
| MediaReading.AudioReadIff | src/voip/src/domain/voip_stream_data_packet.cpp:79-131 | a stream packet is read if and only if it stands at the front in the short or the long form, with its length, identifier and flags in range |
| MediaReading.ControlReadIff | src/voip/src/domain/voip_control_packet.cpp:74-114 | a control packet is read if and only if the bytes are its layout and its type has a number; written only up to 1100 bytes |
| MediaChain.MediaContext.TakeNextSequence | src/voip/src/application/voip_engine.cpp:144-151 | zero is skipped, before and after the counter wraps |
| MediaChain.TakenIs | src/voip/src/application/voip_engine.cpp:144-151 | the k-th number taken is 1 + (first - 1 + k) mod (2^32 - 1) |
| MediaChain.TakenDistinct | src/voip/src/application/voip_engine.cpp:144-151 | any 2^32 - 1 consecutive packets carry different, non-zero numbers |
| MediaChain.MediaContext.EncodeAndSendAudioFrame | src/voip/src/application/voip_engine.cpp:177-224 | the three nested encodings, and what a refusal of each leaves behind |
| MediaChain.MediaContext.OnDatagram | src/voip/src/application/voip_engine.cpp:601-644 | the decoded frame goes into the playout buffer under the low 16 bits of its number, and nothing else does |
| MediaChain.SendsIff | src/voip/src/application/voip_engine.cpp:177-224 | a frame goes out exactly if it has 1 to 1093 bytes and the socket takes it; a number is spent exactly for 1 to 1100 bytes; the timestamp advances exactly when a frame goes out |
| MediaChain.EndToEnd | src/voip/src/application/voip_engine.cpp:177-224 | the peer's receive chain returns exactly the number, timestamp and payload of every frame that goes out, in a control packet that acknowledges the newest remote number |
| MediaChain.FrameIff | src/voip/src/application/voip_engine.cpp:601-644 | a datagram hands a frame to the playout buffer if and only if it opens to a control packet of type 4 that begins with the text of a stream packet with this frame |
| MediaChain.LastIsMaximum | src/voip/src/application/voip_engine.cpp:601-645 | over any datagrams received, forged ones included, the newest remote number is the maximum of the first one and those of the datagrams that are not refused |
| Crc32.Crc32Table.constructor | src/voip/src/infrastructure/ice/crc32.cpp:11-22 | the nested loops fill the table with eight shift steps of each byte |
| Crc32.Compute | src/voip/src/infrastructure/ice/crc32.cpp:31-38 | the table-driven checksum equals the bit-by-bit division of the message by the reflected polynomial, on every byte string |
| Crc32.FeedBitLinear | src/voip/src/infrastructure/ice/crc32.cpp:11-22 | a shift step is linear in the register, which is why eight of them can be tabulated |
| Crc32.PolynomialIs | src/voip/src/infrastructure/ice/crc32.cpp:11-22 | the polynomial is the reflected generator of ITU-T V.42 |
| StunMessage.AppendAttr | src/voip/src/infrastructure/ice/stun_message.cpp:46-59 | header, value and the padding loop, on any buffer of whole words |
| StunMessage.Encode | src/voip/src/infrastructure/ice/stun_message.cpp:98-186 | the buffer whose length is overwritten for the code and again for the fingerprint is the specified layout |
| StunMessage.Decode | src/voip/src/infrastructure/ice/stun_message.cpp:188-271 | the cursor walk applies exactly the attributes before the end, or refuses a cut one |
| StunMessage.VerifyMessageIntegrity | src/voip/src/infrastructure/ice/stun_message.cpp:273-317 | the first 20-byte code is compared with that of the bytes before it under the rewritten length |
| StunMessage.VerifyFingerprint | src/voip/src/infrastructure/ice/stun_message.cpp:319-335 | likewise for the last eight bytes |
| StunLaws.ScanAttrs | src/voip/src/infrastructure/ice/stun_message.cpp:188-269 | scanning gives back every list of attributes whose values fit 16 bits |
| StunLaws.DecodeEncode | src/voip/src/infrastructure/ice/stun_message.cpp:98-271 | every message that fits the 16-bit length decodes to its fields, code and fingerprint; a mapped address is kept exactly if it is IPv4 |
| StunLaws.FingerprintVerifies | src/voip/src/infrastructure/ice/stun_message.cpp:175-335 | the fingerprint of every encoded message verifies, even of one too long for its length field |
| StunLaws.IntegrityVerifies | src/voip/src/infrastructure/ice/stun_message.cpp:160-317 | a message that fits verifies under a password exactly if one was used and both codes of its covered bytes agree |
| StunLaws.IntegrityOfLayout | src/voip/src/infrastructure/ice/stun_message.cpp:273-317 | for any attributes in front of the code, verification compares with the code of exactly those |
| StunReading.ReadsLast | src/voip/src/infrastructure/ice/stun_message.cpp:188-271 | a message with any attributes in any order is read as: each field from the last attribute of its type and size, and no field without one |
| StunReading.ReadIff | src/voip/src/infrastructure/ice/stun_message.cpp:188-271 | exactly the data with the magic cookie and a whole list of attributes are read |
| StunReading.FingerprintIff | src/voip/src/infrastructure/ice/stun_message.cpp:319-335 | exactly the data that end with the fingerprint of what precedes it are accepted |
| Md5.FoldAppend | src/voip/src/infrastructure/turn/turn_message.cpp:144-160 | folding the compression function splits at block boundaries |
| Md5.PaddedInjective | src/voip/src/infrastructure/turn/turn_message.cpp:162-179 | below 2^61 bytes different messages have different paddings |
| Md5.PaddedIs | src/voip/src/infrastructure/turn/turn_message.cpp:162-179 | behind the message stand the byte 128, the fewest zeros that complete a block, and the number of bits, least significant byte first |
| Md5.InitialBytes | src/voip/src/infrastructure/turn/turn_message.cpp:133-142 | the registers start with the values of section 3.3 of RFC 1321 |
| Md5Context.Md5Ctx.Update | src/voip/src/infrastructure/turn/turn_message.cpp:144-160 | after any pieces the context stands for their concatenation: state, bit count and buffered tail |
| Md5Context.Md5Ctx.Final | src/voip/src/infrastructure/turn/turn_message.cpp:162-179 | the digest is one fold over the padded message that was absorbed |
| Md5Context.DeriveLongTermKey | src/voip/src/infrastructure/turn/turn_message.cpp:609-641 | the key is the digest of username, realm and password with colons between them |
| TurnMessage.TypeRoundTrip | src/voip/src/infrastructure/turn/turn_message.h:67-85 | method and class are both recovered if and only if method bit 7 equals the high class bit |
| TurnMessage.StandardIff | src/voip/src/infrastructure/turn/turn_message.h:67-75 | the type agrees with section 6 of RFC 5389 if and only if the class is request or indication |
| TurnMessage.StandardResponsesAreMisread | src/voip/src/infrastructure/turn/turn_message.h:77-85 | every success or error response of the standard for a method below 0x80 is read as a request or an indication |
| TurnMessage.AddressRoundTrip | src/voip/src/infrastructure/turn/turn_message.cpp:246-326 | every IPv4 address is decoded to itself and no IPv6 address is decoded |
| TurnMessage.EncodeXorAddress | src/voip/src/infrastructure/turn/turn_message.cpp:246-289 | the value filled in place, including the stray write, appended as an attribute; malformed addresses add nothing |
| TurnMessage.EncodeSendIndication | src/voip/src/infrastructure/turn/turn_message.cpp:455-473 | header, peer and data with the length written last |
| TurnMessage.EncodeCreatePermission | src/voip/src/infrastructure/turn/turn_message.cpp:433-453 | the peer loop, the credentials, and the code under the length that includes it |
| TurnMessage.DecodeMessage | src/voip/src/infrastructure/turn/turn_message.cpp:498-603 | the cursor walk over attributes with every refusal |
| TurnMessage.DecodeSend | src/voip/src/infrastructure/turn/turn_message.cpp:455-603 | every Send indication that fits decodes to its data and to its peer exactly if that is IPv4 |
| TurnMessage.DecodePermission | src/voip/src/infrastructure/turn/turn_message.cpp:328-603 | a permission request that fits decodes to its credentials and its IPv4 peers in order; with a key its code is read and verifies under that key, without one it carries no code and does not verify |
| TurnReading.StandardIsRead | src/voip/src/infrastructure/turn/turn_message.cpp:291-326 | addresses of either family that a peer lays out by section 15.2 of RFC 5389 are read back |
| TurnReading.AddressIff | src/voip/src/infrastructure/turn/turn_message.cpp:291-326 | an address is read if and only if the value is IPv4 of at least eight bytes or IPv6 of at least twenty |
| TurnReading.AddressWritten | src/voip/src/infrastructure/turn/turn_message.cpp:246-289 | an address is written by the standard in IPv4, with four zeros over its front in IPv6, and not at all if it is malformed |
| TurnReading.ReadsLast | src/voip/src/infrastructure/turn/turn_message.cpp:498-603 | a message with any attributes is read as: lifetime, error code, relayed and mapped address, texts and the rest from the last attribute of their type and size, the peers from all of theirs |
| TurnReading.ReadIff | src/voip/src/infrastructure/turn/turn_message.cpp:498-603 | exactly the messages of the lower types with the cookie and a whole list of attributes are read |
| IceCandidate.Trim | src/voip/src/domain/ice_candidate.cpp:14-20 | the two loops cut white space off both ends |
| IceCandidate.SplitSpaces | src/voip/src/domain/ice_candidate.cpp:23-33 | the collecting loop yields the maximal runs of other characters |
| IceCandidate.Parse | src/voip/src/domain/ice_candidate.cpp:73-111 | the line is read token by token with every refusal; unknown extensions and unreadable numbers change nothing |
| IceCandidate.Format | src/voip/src/domain/ice_candidate.cpp:113-130 | the appended pieces are the tokens of the candidate with spaces between them |
| IceCandidateSpec.SplitSpaced | src/voip/src/domain/ice_candidate.cpp:23-33 | splitting undoes joining for tokens free of white space |
| IceCandidateSpec.ParseDecimal | src/voip/src/domain/ice_candidate.cpp:35-51 | a printed 32-bit integer is read back by the C conversions |
| IceCandidateSpec.ParseFormat | src/voip/src/domain/ice_candidate.cpp:14-130 | every candidate with white-space-free tokens is read back as itself, as far as a line can say |
| IceCandidateSpec.ParseFormatExactIff | src/voip/src/domain/ice_candidate.cpp:14-130 | it is read back unchanged if and only if nothing unprinted differs from its default |
| CandidateReading.NumberIsRead | src/voip/src/domain/ice_candidate.cpp:35-51 | white space, a sign and digits are read as the nearest 32-bit integer, or counted down from 2^32 for an unsigned number with a minus sign |
| CandidateReading.NumberWasSpelled | src/voip/src/domain/ice_candidate.cpp:35-51 | and nothing else is read but a text that begins with NUL, which is zero |
| CandidateReading.SplitIff | src/voip/src/domain/ice_candidate.cpp:23-33 | the tokens split off are these if and only if the text is laid out as these with gaps of blanks and tabs |
| CandidateReading.LineIsRead | src/voip/src/domain/ice_candidate.cpp:14-84 | padding, attribute mark, prefix and the widths of the gaps make no difference |
| CandidateReading.TokensReadIff | src/voip/src/domain/ice_candidate.cpp:80-111 | which tokens are read and what each field holds: an extension comes from the last pair of its key whose value, where it should be one, is a number |
| IceAgent.Agent.AddRemoteCandidate | src/voip/src/application/ice_agent.cpp:63-74 | a pair is added exactly for a new address |
| IceAgent.Agent.GetBindingRequestsToSend | src/voip/src/application/ice_agent.cpp:107-120 | one request per pair, and exactly the nominated pairs are marked |
| IceAgent.Agent.ProcessIncoming | src/voip/src/application/ice_agent.cpp:123-181 | result, response and new state for every datagram, authenticated or not |
| IceAgent.Agent.FindPair | src/voip/src/application/ice_agent.cpp:183-190 | the first pair with this address, or none |
| IceAgentLaws.RunKeeps | src/voip/src/application/ice_agent.cpp:63-190 | on every run targets stay distinct, a selected pair has succeeded and is never replaced, and no pair, success or nomination is lost |
| IceAgentLaws.EstablishedOnce | src/voip/src/application/ice_agent.cpp:123-181 | a run reports connectivity exactly as often as it changes from unconnected to connected, so at most once |
| IceAgentLaws.NominatedOnce | src/voip/src/application/ice_agent.cpp:107-120 | the datagrams of a run that are check requests with USE-CANDIDATE for a target are counted by the change of its pair, so at most one |
| IceAgentLaws.NominationIsRead | src/voip/src/application/ice_agent.cpp:107-120 | of the requests sent, a receiver reads the flag off exactly these, if they fit the 16-bit length |
| IceAgentLaws.ControlledNeverNominates | src/voip/src/application/ice_agent.cpp:107-120 | a controlled agent sends none |
| IceAgentLaws.RequestSays | src/voip/src/application/ice_agent.cpp:192-212 | what the peer reads off a request: both user fragments with its own first, the priority, the role with the tie breaker, and the flag |
| IceAgentLaws.ResponseSays | src/voip/src/application/ice_agent.cpp:214-239 | and off a response: the transaction and the address of the request, if that is IPv4 |
| IceHistory.AgentOfRun | src/voip/src/application/ice_agent.cpp:63-190 | after every run the pairs, which of them have succeeded or been nominated and the selected address follow from the events: a pair succeeds exactly when an authenticated message comes from its address |
| IceHistory.ReportOfRun | src/voip/src/application/ice_agent.cpp:123-181 | and so does what is reported for the next datagram, and whether and how it is answered |
| IceConnects.TwoRoundsConnect | src/voip/src/application/ice_agent.cpp:107-239 | from any reachable unconnected states of two cross-configured agents that know each other and have an unspent nomination, two lossless rounds connect both to each other |
| IceConnects.OneRoundIsNotEnough | src/voip/src/application/ice_agent.cpp:107-239 | one round connects only the controlling agent when nothing has succeeded before |
| DtlsRecord.Encode | src/voip/src/infrastructure/dtls/dtls_record.cpp:43-57 | the buffer filled field by field is the record layout |
| DtlsRecord.Decode | src/voip/src/infrastructure/dtls/dtls_record.cpp:59-78 | the record at the front and its size, or a refusal if it is cut |
| DtlsRecord.RecordRoundTrip | src/voip/src/infrastructure/dtls/dtls_record.cpp:43-78 | every record that fits its fields is read back from the front of any datagram |
| DtlsRecord.ReadRecordUnique | src/voip/src/infrastructure/dtls/dtls_record.cpp:43-78 | conversely the bytes read are the encoding of what was read |
| DtlsLayout.RecordReadIff | src/voip/src/infrastructure/dtls/dtls_record.cpp:59-78 | a record is read if and only if its fields stand at the bytes of section 4.1 of RFC 6347, most significant byte first, and its payload is all there |
| DtlsLayout.RecordWritten | src/voip/src/infrastructure/dtls/dtls_record.cpp:43-57 | and every record that fits is written so |
| DtlsHandshake.HeaderRoundTrip | src/voip/src/infrastructure/dtls/dtls_handshake_messages.cpp:36-52 | every handshake header that fits is read back |
| DtlsHandshake.CookieRoundTrip | src/voip/src/infrastructure/dtls/dtls_handshake_messages.cpp:169-176 | every cookie of a HelloVerifyRequest is read back whatever follows it |
| DtlsHandshake.ServerHelloRoundTrip | src/voip/src/infrastructure/dtls/dtls_handshake_messages.cpp:188-233 | every ServerHello with any extensions is read back, the extensions applied in order |
| DtlsHandshake.PlainServerHello | src/voip/src/infrastructure/dtls/dtls_handshake_messages.cpp:188-206 | without an extension block neither optional feature is on |
| DtlsHandshake.ExtendedIff | src/voip/src/infrastructure/dtls/dtls_handshake_messages.cpp:213-233 | the extended master secret is on exactly if some extension of that type is present |
| DtlsHandshake.ProfileIsLast | src/voip/src/infrastructure/dtls/dtls_handshake_messages.cpp:213-233 | the SRTP profile is that of the last extension that carries one |
| DtlsHandshake.CertificatesRoundTrip | src/voip/src/infrastructure/dtls/dtls_handshake_messages.cpp:240-256 | every chain under 2^24 bytes is read back |
| DtlsHandshake.KeyExchangeRoundTrip | src/voip/src/infrastructure/dtls/dtls_handshake_messages.cpp:266-291 | all fields are read back and the signed parameters are exactly the bytes before the algorithms |
| DtlsHandshake.KeyExchangeReadIff | src/voip/src/infrastructure/dtls/dtls_handshake_messages.cpp:266-291 | a key exchange is read if and only if it stands at the front in this layout, for a named curve |
| DtlsLayout.MessageWritten | src/voip/src/infrastructure/dtls/dtls_handshake_messages.cpp:36-79 | a message goes out in one piece behind a header with its fields at the bytes of section 4.2.2 of RFC 6347 |
| DtlsLayout.TranscriptIs | src/voip/src/application/dtls_client_session.cpp:152-164 | what is hashed is type, length of three bytes and body of each message, one after the other |
| DtlsLayout.ServerHelloReadIff | src/voip/src/infrastructure/dtls/dtls_handshake_messages.cpp:188-233 | exactly which bytes are a ServerHello and with which fields: the extended master secret is on if an extension of that type is in the block, the SRTP profile is that of the last one that has it |
| DtlsLayout.CertificatesReadIff | src/voip/src/infrastructure/dtls/dtls_handshake_messages.cpp:240-256 | exactly which bytes are which chain |
| DtlsLayout.KeyExchangeAt | src/voip/src/infrastructure/dtls/dtls_handshake_messages.cpp:266-291 | exactly which bytes are which key exchange and which of them are signed |
| DtlsLayout.HelloWritten | src/voip/src/infrastructure/dtls/dtls_handshake_messages.cpp:81-164 | the ClientHello byte by byte: version, random, cookie, one cipher suite, no compression and 35 bytes of extensions |
| DtlsLayout.SignatureWritten | src/voip/src/infrastructure/dtls/dtls_handshake_messages.cpp:307-317 | the CertificateVerify byte by byte |
| DtlsHandshake.TranscriptParses | src/voip/src/application/dtls_client_session.cpp:152-164 | a transcript can be parsed in one way only, into the messages that were hashed |
| DtlsDecoders.DecodeServerHello | src/voip/src/infrastructure/dtls/dtls_handshake_messages.cpp:188-233 | the cursor reads the fields and the extension loop ends or refuses as specified |
| DtlsDecoders.DecodeCertificate | src/voip/src/infrastructure/dtls/dtls_handshake_messages.cpp:240-256 | the chain loop yields all certificates or refuses a cut one |
| DtlsDecoders.DecodeServerKeyExchange | src/voip/src/infrastructure/dtls/dtls_handshake_messages.cpp:266-291 | the fields in order, with every refusal |
| DtlsDecoders.DecodeHelloVerifyRequest | src/voip/src/infrastructure/dtls/dtls_handshake_messages.cpp:169-176 | the cookie, or a refusal if it is cut |
| DtlsClientSession.ClientSession.Initiate | src/voip/src/application/dtls_client_session.cpp:188-214 | the first flight, with random, keys, counters and transcript updated |
| DtlsClientSession.ClientSession.HandleHandshakeMessage | src/voip/src/application/dtls_client_session.cpp:219-402 | answers, transcript, counters and phase after every kind of message |
| DtlsClientSession.ClientSession.BuildClientFinishedFlight | src/voip/src/application/dtls_client_session.cpp:407-450 | ChangeCipherSpec in the old epoch, Finished as record zero of the new one |
| DtlsClientSession.ClientSession.DeriveKeysAndCipher | src/voip/src/application/dtls_client_session.cpp:621-670 | master secret and keys, or failure |
| DtlsClientSession.ClientSession.ProcessDatagram | src/voip/src/application/dtls_client_session.cpp:455-542 | the loops over records and messages give the specified verdict, answers and state |
| DtlsClientSession.ClientSession.EncryptAppData | src/voip/src/application/dtls_client_session.cpp:675-693 | a sealed record under the next number once established, nothing and no change otherwise |
| DtlsSessionLaws.PackingIsIrrelevant | src/voip/src/application/dtls_client_session.cpp:455-542 | a datagram that packs any well-formed records has the same outcome as one datagram per record, also when a record in the middle fails |
| DtlsSessionLaws.GroupingIsIrrelevant | src/voip/src/application/dtls_client_session.cpp:455-542 | so has any other grouping of the same records into datagrams |
| DtlsSessionLaws.RecordFailsOnly | src/voip/src/application/dtls_client_session.cpp:455-542 | a record is refused exactly if it makes the session fail |
| DtlsSessionLaws.FailedRun | src/voip/src/application/dtls_client_session.cpp:455-542 | a failed session neither changes nor sends, whatever arrives or is written |
| DtlsSessionLaws.EmissionsIncrease | src/voip/src/application/dtls_client_session.cpp:407-450 | over every run the emitted (epoch, sequence) pairs strictly increase, on the wire as long as neither field has overflowed |
| DtlsTranscript.TranscriptOfRun | src/voip/src/application/dtls_client_session.cpp:152-450 | on every run, restarted or not, the transcript is exactly the sequence of handshake messages accepted from the datagrams and sent in the records since the last HelloVerifyRequest, in order, with that request and the ClientHello before it left out |
| DtlsTranscript.TranscriptParsesBack | src/voip/src/application/dtls_client_session.cpp:152-164 | and its bytes parse in one way only, into that sequence |
| DtlsTranscript.TranscriptOpens | src/voip/src/application/dtls_client_session.cpp:188-261 | for a session started once it begins with the latest ClientHello and holds no other one |
| DtlsAcceptance.AcceptedIff | src/voip/src/application/dtls_client_session.cpp:219-402 | a session that has not failed accepts exactly the messages that meet the conditions: cipher suite, a chain whose first certificate has the announced fingerprint, a point of the curve, a Finished over the history; it fails over any other and ignores the rest |
| DtlsAcceptance.AcceptedLeaves | src/voip/src/application/dtls_client_session.cpp:219-402 | what each accepted message leaves in the session |
| DtlsAcceptance.TrustOfRun | src/voip/src/application/dtls_client_session.cpp:219-542 | on every run each message accepted from a datagram had met its condition, and a session is established only when the peer's Finished is in the history |
| DtlsAcceptance.CertificatesOfRun | src/voip/src/application/dtls_client_session.cpp:271-292 | in particular every certificate chain accepted in a run is not empty and its first entry has the announced fingerprint |
| DtlsSecret.FlightBinds | src/voip/src/application/dtls_client_session.cpp:331-450 | a successful flight enters its four messages into the transcript, CertificateVerify over all before it, and sends three in plaintext and the Finished over all before it sealed as record zero of the next epoch |
| DtlsSecret.TranscriptsDiffer | src/voip/src/application/dtls_client_session.cpp:331-374 | the transcript the code hashes for the master secret is never the one that ends at ClientKeyExchange |
| DtlsSecret.SecretIsStandardIff | src/voip/src/application/dtls_client_session.cpp:621-670 | from every session the derived secret is the one of RFC 7627 if and only if the extension was not negotiated or the pseudo-random function gives the same value for both transcripts |
| DtlsSecret.HandshakeRun | src/voip/src/application/dtls_client_session.cpp:188-542 | a fresh session that starts and receives a server flight sends its Finished if and only if cipher suite, certificate and point are the wanted ones, and fails with only its ClientHello sent otherwise; then its transcript is all messages in order, and its secret is the standard's under that condition exactly |
| DtlsSecret.DepartureOccurs | src/voip/src/application/dtls_client_session.cpp:360-374 | a complete run with the extension whose master secret is not the standard's |
| DtlsEstablished.FinishedEstablishes | src/voip/src/application/dtls_client_session.cpp:382-396 | a Finished in a record that opens establishes the session if and only if it covers the history so far, and fails it otherwise |
| DtlsEstablished.UnopenedEnds | src/voip/src/application/dtls_client_session.cpp:483-507 | a handshake record behind the first epoch that does not open fails the session |
| DtlsEstablished.AlertEnds | src/voip/src/application/dtls_client_session.cpp:474-481 | an alert of level two ends the session, other alerts and application data change nothing |
| DtlsEstablished.DataArrives | src/voip/src/application/dtls_client_session.cpp:675-718 | the other end reads exactly the data that an established session sends |
| DtlsEstablished.DataReadIff | src/voip/src/application/dtls_client_session.cpp:695-718 | data is read if and only if the session is established and the first record of the datagram is application data that opens to it |
| DtlsEstablished.SentIs | src/voip/src/application/dtls_client_session.cpp:130-146 | every record that goes out is of DTLS 1.2 and carries its counters in 16 and 48 bits |
| Asn1Builder.Builder.WriteInteger | src/voip/src/infrastructure/ecdsa_p256_keypair.cpp:113-132 | the stripping loop yields the contents of an INTEGER of the same unsigned value |
| Asn1Builder.Builder.WriteIntegerSmall | src/voip/src/infrastructure/ecdsa_p256_keypair.cpp:136-162 | the two trimming loops |
| Asn1Builder.Builder.BeginConstructed | src/voip/src/infrastructure/ecdsa_p256_keypair.cpp:204-211 | tag and placeholder, with the offset pushed, open a tree element |
| Asn1Builder.Builder.EndConstructed | src/voip/src/infrastructure/ecdsa_p256_keypair.cpp:212-231 | patching and inserting length bytes close the innermost open element |
| Asn1Builder.EncodeLength | src/voip/src/infrastructure/ecdsa_p256_keypair.cpp:242-257 | the two byte loops yield the definite length form |
| Asn1Builder.RawRsToDer | src/voip/src/infrastructure/ecdsa_p256_keypair.cpp:279-287 | the builder's calls yield the encoding of a sequence of two integers; nothing for other sizes |
| Asn1Laws.RunRepresents | src/voip/src/infrastructure/ecdsa_p256_keypair.cpp:93-261 | after any calls, nested well or not, the patched output is that of the trees built so far, and both forms refuse the same calls |
| Asn1Laws.PatchingEncodes | src/voip/src/infrastructure/ecdsa_p256_keypair.cpp:204-233 | for every well-nested call sequence no length is missing at the end and the output is the recursive encoding of the described trees |
| Asn1Laws.LengthIsMinimal | src/voip/src/infrastructure/ecdsa_p256_keypair.cpp:242-257 | no shorter string of bytes holds the length |
| Asn1Laws.ParseEncode | src/voip/src/infrastructure/ecdsa_p256_keypair.cpp:93-261 | every forest whose tags tell primitive from constructed is read back from its encoding |
| Asn1Laws.IntegerBodyMeans | src/voip/src/infrastructure/ecdsa_p256_keypair.cpp:113-132 | an INTEGER's contents are minimal and mean the unsigned value given |
| Asn1Laws.MinimalUnique | src/voip/src/infrastructure/ecdsa_p256_keypair.cpp:113-132 | minimal contents of the same value are equal, so the encoding is canonical |
| Asn1Laws.SmallMeansIff | src/voip/src/infrastructure/ecdsa_p256_keypair.cpp:136-162 | a 64-bit number keeps its value if and only if it is not negative |
| Asn1Laws.NegativeBody | src/voip/src/infrastructure/ecdsa_p256_keypair.cpp:136-162 | a negative number is written as its minimal two's complement with a zero byte in front, which reads as that much more |
| Asn1Laws.MinusOneBecomes255 | src/voip/src/infrastructure/ecdsa_p256_keypair.cpp:136-162 | the contents written for -1 |
| Asn1Laws.SignatureRoundTrip | src/voip/src/infrastructure/ecdsa_p256_keypair.cpp:279-287 | a 64-byte signature reads back as a sequence of two minimal integers with the values of r and s |
| Asn1Laws.SignaturesDistinct | src/voip/src/infrastructure/ecdsa_p256_keypair.cpp:279-287 | different raw signatures have different encodings |
| CounterMode.IncrementCounter | src/voip/src/infrastructure/srtp/srtp_aes_ctr.cpp:15-21 | the ripple-carry loop adds one modulo 2^128 |
| CounterMode.AdvanceValue | src/voip/src/infrastructure/srtp/srtp_aes_ctr.cpp:15-21 | k steps add k modulo 2^128 |
| CounterMode.Encrypt | src/voip/src/infrastructure/srtp/srtp_aes_ctr.cpp:23-50 | the output is the input masked with the key stream, also within one buffer unless the output overlaps the input from behind, and nothing around it changes |
| CounterMode.CtrInvolution | src/voip/src/infrastructure/srtp/srtp_aes_ctr.cpp:23-50 | encrypting twice gives back the data |
| CounterMode.KeystreamSplit | src/voip/src/infrastructure/srtp/srtp_aes_ctr.cpp:23-50 | the key stream continues at the advanced counter after whole blocks |
| CounterMode.StreamIsBlocks | src/voip/src/infrastructure/srtp/srtp_aes_ctr.cpp:23-50 | block i of the key stream is the encryption of the initial counter plus i modulo 2^128 |
| SrtpKeys.DeriveBytes | src/voip/src/infrastructure/srtp/srtp_session_keys.cpp:41-68 | the chunked path equals the prefix of one key stream, for every length |
| SrtpKeys.LabelsSeparate | src/voip/src/infrastructure/srtp/srtp_session_keys.cpp:33-39 | different labels select different counters |
| SrtpKeys.KdfCounterIs | src/voip/src/infrastructure/srtp/srtp_session_keys.cpp:33-39 | the counter is the salt with the label mixed into its eighth byte and two zero bytes behind it |
| SrtpKeys.DeriveSessionKeys | src/voip/src/infrastructure/srtp/srtp_session_keys.cpp:72-82 | labels 0, 1 and 2 give 16, 20 and 14 bytes |
| SrtpPacket.BuildPacketIv | src/voip/src/infrastructure/srtp/srtp_packet_codec.cpp:59-80 | the array filled and masked byte by byte is the specified initial counter |
| SrtpPacket.Encrypt | src/voip/src/infrastructure/srtp/srtp_packet_codec.cpp:117-167 | the packet, and every field of the parameters that the code changes; its bytes are those of `RtpHeaders.ProtectLayout` |
| SrtpPacket.Decrypt | src/voip/src/infrastructure/srtp/srtp_packet_codec.cpp:169-208 | the packet exactly if its tag verifies and its header has a payload, as `RtpHeaders.UnprotectIff` spells out |
| SrtpPacket.UnprotectProtect | src/voip/src/infrastructure/srtp/srtp_packet_codec.cpp:117-208 | with the sender's keys, SSRC and rollover counter every packet is accepted, and the exact one comes back if the sender passed the header's number, for another number if and only if both mask the payload alike |
| SrtpPacket.SameHeaderSameStart | src/voip/src/infrastructure/srtp/srtp_packet_codec.cpp:27-46 | only the bytes before the payload decide where it starts |
| RtpHeaders.HeaderEnds | src/voip/src/infrastructure/srtp/srtp_packet_codec.cpp:27-46 | for every header with padding bit, up to 15 CSRCs and an extension of any number of words, and every payload, the payload starts where the header ends |
| RtpHeaders.LocatedHeader | src/voip/src/infrastructure/srtp/srtp_packet_codec.cpp:27-46 | conversely a payload is located only behind such a header |
| RtpHeaders.ProtectLayout | src/voip/src/infrastructure/srtp/srtp_packet_codec.cpp:117-167 | a protected packet is the header in the clear, exactly, the payload masked from its first byte on, and ten bytes of the code over both and the rollover counter |
| RtpHeaders.ProtectIff | src/voip/src/infrastructure/srtp/srtp_packet_codec.cpp:117-167 | a packet is sent if and only if it has such a header and a payload |
| RtpHeaders.UnprotectIff | src/voip/src/infrastructure/srtp/srtp_packet_codec.cpp:169-208 | a packet is accepted if and only if its tag is right and it has such a header and a payload |
| RtpHeaders.UnprotectLayout | src/voip/src/infrastructure/srtp/srtp_packet_codec.cpp:169-208 | and its payload is unmasked under the header's own sequence number |
| SrtpLaws.CounterBlocksDisjoint | src/voip/src/infrastructure/srtp/srtp_packet_codec.cpp:59-80 | for payloads up to 2^20 bytes two counter blocks are equal if and only if SSRC, index and block number are |
| SrtpLaws.BlockBoundIsExact | src/voip/src/infrastructure/srtp/srtp_packet_codec.cpp:59-80 | one block further the next packet's counter is reached |
| SrtpLaws.RocCorrectIff | src/voip/src/infrastructure/srtp/srtp_packet_codec.cpp:127-143 | the rollover counter is that of section 3.3.1 of RFC 3711 if and only if the number rose by at most 2^15, stayed, or fell by exactly 2^15 |
| SrtpLaws.ForwardStepIff | src/voip/src/infrastructure/srtp/srtp_packet_codec.cpp:127-143 | for a sender that moves forward by less than 2^15: if and only if the step does not cross a multiple of 65536 |
| SrtpLaws.WrapDoesNotRaiseRoc | src/voip/src/infrastructure/srtp/srtp_packet_codec.cpp:127-143 | from 65535 to 0 the counter stays, where the standard raises it |
| SrtpLaws.RunIndexRepeatsIff | src/voip/src/infrastructure/srtp/srtp_packet_codec.cpp:127-143 | in a run of consecutive numbers two indices are equal if and only if the packets are a multiple of 65536 apart |
| SrtpLaws.RunSharesBlockIff | src/voip/src/infrastructure/srtp/srtp_packet_codec.cpp:59-146 | and key stream is shared exactly then, at equal block positions |

## Left out

- WinRT sockets, WASAPI audio, timers, threads, DLL loading and the public projection: input, output and foreign calls.
- The Opus codec, the tgcalls DLL placeholder and the internals of AES, SHA, HMAC, GCM, ECDH and the MD5 compression function: parameters of the model.
- Lock interleavings in the engine: each public call is one atomic step, although the code releases its lock between reading and writing back a session.
- `StartMedia`, endpoint selection, the INIT and PING exchanges and the draining of waiting packets into a started media stack: only the state they find is modelled.
- Rounding in the jitter estimate: the smoothed value is an exact real, and the delay is its floor; the 64-bit arrival times do not overflow.
- Conversions of out-of-range doubles and `atoi` overflow, which the language leaves undefined, are taken modulo 2^32.
- Allocation failure, `reserve` and the clearing of secrets in memory.
- The X.509 certificate around the DER builder, object identifiers and times: calls of the same builder with fixed bytes.
- Fragmented handshake messages, retransmission and renegotiation: the program has none.
- EncodeAllocate and EncodeRefresh of TURN: the same header, credentials and integrity code as the permission request, which is modelled.
- IPv6 and dotted-quad address texts of TURN, candidate generation and log texts: easy members only.
- StunLaws.DecodeEncode: assumes that the attributes fit the 16-bit length of the header, as the format demands; the fingerprint is proved without that assumption.
- IceAgentLaws.NominationIsRead: assumes that the user names are short enough for a check request to fit the 16-bit length; a longer request fits no datagram. The count itself does not assume it. `RequestSays` assumes the same.
- CounterMode.Encrypt: does not say what happens when the output starts inside the input and behind its start, where bytes are overwritten before they are read; the program never does this.
- Asn1Laws.ParseEncode: excludes bytes written verbatim, whose structure the builder does not know.
- DtlsTranscript.TranscriptParsesBack: assumes that the pseudo-random function returns as many bytes as it is asked for and that the own certificate and signatures fit their length fields; the same holds for `TranscriptOpens`. `TranscriptOfRun` assumes nothing.
- DtlsSecret.HandshakeRun: assumes that sealing and the key agreement succeed, that the pseudo-random function returns as many bytes as it is asked for, and that each server message fits one record, because the program does not reassemble fragments; it assumes nothing about cipher suite, certificate or point.
- DtlsEstablished.DataArrives: assumes that what is sealed opens under the same key, and that neither the epoch, the record number nor the length of the record has left its field.
- Exported keying material of the DTLS session: one call of the pseudo-random function.
- RelayLayout.DecryptedIff: assumes that block encryption and decryption invert each other in both directions.
- CandidateReading.LineIsRead: is about lines whose tokens are free of blanks and tabs, as every split is; a carriage return or line feed inside the line belongs to a token.
- SignalingReading.TextNumberMeans: does not say what `atoi` gives for an integer beyond 32 bits, which the language leaves undefined.
- CallEndToEnd.SignalingArrives: takes the side that created the outgoing material as the initiator that the call descriptor names.
