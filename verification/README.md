# FCast in Dafny

A verified model of the parts of FCast whose correctness is not obvious from reading them. FCast is a
casting protocol: a sender connects to a receiver, exchanges length-prefixed packets in plaintext, upgrades
the connection to TLS, and then loads media. The model covers the following parts, one or two files each.

- **Packets** (`Framing`, `PacketReader`, `ReaderRuns`). The reassembly buffer with its cursor, lazy discard and
  compaction is an array that methods update in place. It refines a pure parser over the byte stream for every
  interleaving of its operations and every chunking.
- **The TLS hand-over** (`TlsHandover`). Bytes that were read too early are drained and replayed ahead of the socket.
- **The Version exchange** (`VersionExchange`). Two parties over two bounded byte channels, as a state machine.
- **Companion resources** (`Companion`). A binary response format and the bound that makes it fit a packet.
- **FairPlay** (`Words`, `Blocks`, `Fips197`, `InverseCipher`, `KeySchedule`, `MessageCbc`, `ContentKey`,
  `SapHash`, `ModifiedMd5`). Arrays of bytes and `bv32` registers updated in place, proved against functions on blocks, and
  bijections, inverses and comparisons with FIPS 197, NIST SP 800-38A and RFC 1321 proved about those functions.
  Tables are parameters. What a proof needs of them, that slices of 256 entries and column maps are injective, is a
  hypothesis of that proof.
- **Metadata** (`MetaCodec`, `ExtraMetadata`, `Relay`, `MessageBuilder`). FlatBuffers is a store of nodes to which the
  builder appends and in which every reference leads to an earlier node.
- **Dependencies** (`Dependencies`), **the pipeline graph** (`PipelineGraph`) and **the file body** (`FileBody`).

`Sequences`, `Arithmetic` and `Wrappers` hold a few general facts. `dafny verify dfyconfig.toml` checks everything.

Environment choices are parameters: what a socket or a file does on each poll, how the network fragments, in which
order a hash set is drained (chosen with `:|`), what a library's dependencies are.

## Where the code does not do what its text says

- *Both sides send before reading, so there is no deadlock* (`v4_handshake.py:162`). This needs a channel that takes a
  whole Version packet in at least one direction. `DeadlockFreeIffOneDirectionHoldsAPacket` is the exact condition. The
  program's own Version packet has 18 bytes, so only channels of fewer than 18 bytes both ways can be stuck
  (`OwnVersionsNeedEighteenBytes`); no ordinary socket is that small.
- *No lossy conversion* of metadata values (`v4.rs:747-749`). A negative zero is equal to the default and is left out,
  so it reads back as a positive zero. `RoundTripIsExactWithoutNegativeZero` is the exact condition, and
  `RelayedExtraIsTheSame` is the same for a relayed item.
- *`key_out` is also an input seed* (`garble.rs:365`). It is overwritten before it is read; `SapHash.SapHash` states the
  result without it.
- A file body ends early where a `usize` is narrower than the announced length, because `remaining as usize` is cut. A
  body of `usize::MAX + 1` bytes ends at once with nothing delivered (`WideBodyEndsAtOnce`).
  `DeliversAllIffTheLengthFits` is the exact condition.
- A `Content-Range` has a first and a last byte, so it cannot announce a range of no bytes. If the range parser lets one
  through, the announced last byte lies before the first or, at the start of the file, wraps around. `Respond` states
  that the announced range lies within the file if and only if it has a byte.

## Model

| member | source | states |
|---|---|---|
| ReaderRuns.BytesAreConserved | crates/fcast-protocol/src/lib.rs:225-397 | for every sequence of pushes, in-place fills, packet requests and drains: bytes buffered at the start plus bytes received = frames of returned packets plus drained bytes plus bytes still buffered, in order |
| ReaderRuns.PacketsAreParsed | crates/fcast-protocol/src/lib.rs:262-291 | in a run without a drain, returned packets, followed by those still buffered, are what the reference parser finds in the whole stream |
| ReaderRuns.PacketsSinceTheLastDrain | crates/fcast-protocol/src/lib.rs:262-397 | in every run, the packets returned since the last drain, followed by those still buffered, are what the reference parser finds in the bytes received since that drain |
| ReaderRuns.AllPacketsTaken | crates/fcast-protocol/src/lib.rs:376-381 | once no complete packet is left, packets and leftover equal the reference parse |
| ReaderRuns.ChunkingIsIrrelevant | crates/fcast-protocol/src/lib.rs:301-378 | two runs with different chunking, feeding methods, capacities and request times but the same stream return the same packets and keep the same leftover |
| ReaderRuns.FramedBodiesReadBack | crates/fcast-protocol/src/lib.rs:262-314 | framing any list of bodies within the limit and reading it back, fed in any way, gives the list |
| ReaderRuns.DrainIsTheStreamSuffix | crates/fcast-protocol/src/lib.rs:383-397 | the drained bytes are exactly the stream behind the last returned packet, and the reader is empty afterwards |
| ReaderRuns.StuckForGood | crates/fcast-protocol/src/lib.rs:273-275 | behind an oversized length nothing is ever returned, whatever arrives later |
| ReaderRuns.Execute | crates/fcast-protocol/src/lib.rs:225-397 | the buffer with its cursor, lazy discard and compaction refines the run on byte sequences for every interleaving of operations |
| ReaderRuns.Perform | crates/fcast-protocol/src/lib.rs:304-397 | one operation on the buffer is one step on its unconsumed bytes |
| ReaderRuns.TakePackets | crates/fcast-protocol/src/lib.rs:376-381 | the drain loop ends, because each packet consumes at least its length field, and takes exactly the complete packets |
| ReaderRuns.Refill | crates/fcast-protocol/src/lib.rs:322-329 | a read into the spare slice after `NeedData` always brings at least one byte, so it never looks like the end of the stream |
| ReaderRuns.ReceiveStream | crates/fcast-protocol/src/lib.rs:322-381 | the receive loop over a whole stream returns the reference parse and stops early exactly at an oversized length |
| PacketReading.PacketReader.constructor | crates/fcast-protocol/src/lib.rs:226-234 | an empty reader with room for a length field, a largest body and the padding |
| PacketReading.PacketReader.DiscardConsumed | crates/fcast-protocol/src/lib.rs:243-248 | moves the cursor over the returned packet without changing the unconsumed bytes |
| PacketReading.PacketReader.Compact | crates/fcast-protocol/src/lib.rs:252-260 | moves the unconsumed bytes to the front, whole and in order |
| PacketReading.PacketReader.NextState | crates/fcast-protocol/src/lib.rs:262-299 | the three-state recursion terminates and answers what one look at the front of the unconsumed bytes yields |
| PacketReading.PacketReader.PushData | crates/fcast-protocol/src/lib.rs:304-314 | fails exactly when unconsumed plus new bytes exceed the buffer, and then loses nothing; otherwise appends |
| PacketReading.PacketReader.SpareCapacity | crates/fcast-protocol/src/lib.rs:352-355 | keeps the unconsumed bytes; after `NeedData` the slice has at least padding + 1 bytes |
| PacketReading.PacketReader.Commit | crates/fcast-protocol/src/lib.rs:366-374 | makes the bytes written into the slice part of the unconsumed bytes |
| PacketReading.PacketReader.GetPacket | crates/fcast-protocol/src/lib.rs:379-381 | returns the answer to the unconsumed bytes, read off their four length bytes, and consumes exactly the packet with its length field; no buffered byte changes |
| PacketReading.PacketReader.DrainUnparsed | crates/fcast-protocol/src/lib.rs:389-396 | hands out all unconsumed bytes and resets the reader |
| Framing.ReadIsFramed | crates/fcast-protocol/src/lib.rs:266-286 | a packet is found only where the stream starts with the frame of a body within the limit |
| Framing.FramedIsRead | crates/fcast-protocol/src/lib.rs:266-286 | and it is always found there, a zero-length body included |
| Framing.AnswerIsByTheBytes | crates/fcast-protocol/src/lib.rs:266-288 | by the bytes: the length is b0 + 256 b1 + 65536 b2 + 16777216 b3, it is checked against the limit as soon as it is there, and the packet is the announced number of bytes behind it |
| Framing.DecisionIsStable | crates/fcast-protocol/src/lib.rs:262-299 | more bytes never change a decision already taken |
| Framing.NeedDataIsShort | crates/fcast-protocol/src/lib.rs:323-327 | a stream that needs data is shorter than the largest frame |
| Framing.ParseConservesBytes | crates/fcast-protocol/src/lib.rs:262-299 | the reference parser loses, duplicates and reorders nothing |
| Framing.ParseIsMaximal | crates/fcast-protocol/src/lib.rs:273-288 | the reference parser stops only where no packet is complete, and returns only acceptable packets |
| Framing.ParseResumes | crates/fcast-protocol/src/lib.rs:225-231 | parsing can stop anywhere and resume on the leftover plus new bytes |
| Framing.FramesParseBack | crates/fcast-protocol/src/lib.rs:262-291 | parsing a framed list gives the list |
| Framing.LeRoundTrip | crates/fcast-protocol/src/lib.rs:268-272 | little-endian lengths within their width are read back |
| Framing.LeInverse | crates/fcast-protocol/src/lib.rs:268-272 | four bytes are the little-endian form of the length read from them |
| TlsHandover.PrefixedRead.PollRead | crates/fcast-protocol/src/receiver.rs:36-52 | every poll moves the next bytes of prefix-then-socket into the buffer; while prefix remains it is ready, leaves the socket alone and yields at least one byte whenever there is room |
| TlsHandover.PrefixedRead.constructor | crates/fcast-protocol/src/receiver.rs:27-33 | replay starts at the first prefix byte |
| TlsHandover.ReadsReplayTheStream | crates/fcast-protocol/src/receiver.rs:36-52 | for every schedule of buffer sizes and socket behaviour, bytes read plus bytes left = prefix plus socket, in order |
| TlsHandover.PrefixIsFinished | crates/fcast-protocol/src/receiver.rs:36-52 | reads into non-empty buffers finish the prefix in at most as many steps as it has bytes |
| TlsHandover.ReadOnce | crates/fcast-protocol/src/receiver.rs:36-52 | one poll carries out one step of the schedule |
| TlsHandover.ReadSchedule | crates/fcast-protocol/src/receiver.rs:36-52 | a whole schedule of polls obtains what its specification says |
| TlsHandover.Connection.UpgradeWithPrefix | crates/fcast-protocol/src/receiver.rs:134-160 | an accepted upgrade leaves a TLS stream whose bytes, with those the accept saw, are prefix plus socket; a failed one leaves no stream; a stream that is not TCP stays |
| TlsHandover.HandOver | crates/fcast-protocol/src/receiver.rs:129-160 | draining the reader and upgrading with the drained bytes passes on exactly what was not returned as a packet |
| TlsHandover.TlsSeesTheStreamSuffix | crates/fcast-protocol/src/lib.rs:383-397 | packets returned before the hand-over and the bytes TLS sees are together exactly what the peer sent |
| VersionExchange.ReadExact | crates/fcast-protocol/misc/v4_handshake.py:73-80 | reads exactly n bytes under every fragmentation and reports a closed connection exactly when fewer are left |
| VersionExchange.ReadPacket | crates/fcast-protocol/misc/v4_handshake.py:82-89 | classifies every stream like the framing does and consumes exactly one encoded packet on success |
| VersionExchange.ClosingSocket.Recv | crates/fcast-protocol/misc/v4_handshake.py:58 | `recv` returns some bytes, and none only at the end of the stream |
| VersionExchange.VersionPacket | crates/fcast-protocol/misc/v4_handshake.py:91-93 | the bytes that encode a Version body |
| VersionExchange.StepKeeps | crates/fcast-protocol/misc/v4_handshake.py:160-174 | every step of either side keeps the invariant of the two-party system |
| VersionExchange.RunKeeps | crates/fcast-protocol/misc/v4_handshake.py:160-174 | so does every run |
| VersionExchange.TlsStartsAtAPacketBoundary | crates/fcast-protocol/misc/v4_handshake.py:160-187 | a side that is done has consumed exactly the peer's Version packet; what is in flight is exactly what the peer's TLS layer wrote |
| VersionExchange.OutcomeIsDecidedByTheVersions | crates/fcast-protocol/misc/v4_handshake.py:163-174 | a finished side is done, not failed, exactly if the peer announced version 4 |
| VersionExchange.ExchangeStepsAreBounded | crates/fcast-protocol/misc/v4_handshake.py:73-89 | every run has finitely many exchange steps |
| VersionExchange.NeverStuck | crates/fcast-protocol/misc/v4_handshake.py:160-163 | with room for one whole Version packet in some direction, some side can move until both have finished |
| VersionExchange.EveryRunCanFinish | crates/fcast-protocol/misc/v4_handshake.py:160-163 | under the same condition every run, however it has gone so far, can be continued until both sides have finished |
| VersionExchange.BothTooSmallDeadlocks | crates/fcast-protocol/misc/v4_handshake.py:160-163 | a run to a deadlock when neither direction has that room |
| VersionExchange.OwnVersionsNeedEighteenBytes | crates/fcast-protocol/misc/v4_handshake.py:91-93 | the program's own Version packets have 18 bytes; between two such sides a stuck state is reachable if and only if both channels hold fewer |
| VersionExchange.DeadlockFreeIffOneDirectionHoldsAPacket | crates/fcast-protocol/misc/v4_handshake.py:160-163 | a stuck state is reachable if and only if both channels are smaller than their Version packet |
| Companion.ResponseRoundTrip | crates/fcast-protocol/src/companion.rs:37-63 | every response parses back to itself |
| Companion.ParsedResponseSerializesBack | crates/fcast-protocol/src/companion.rs:37-63 | parsed bytes serialize back exactly unless they are a not-found answer with trailing bytes |
| Companion.ResponseByTheBytes | crates/fcast-protocol/src/companion.rs:37-84 | the serialized bytes: request number with its lowest byte first, part, number of parts, tag 0 or 1, data |
| Companion.ParseByTheBytes | crates/fcast-protocol/src/companion.rs:37-63 | fewer than seven bytes are missing data, and any tag but 0 and 1 is an invalid variant, and nothing else fails |
| Companion.HeaderThenDataIsSerialize | crates/fcast-protocol/src/companion.rs:69-84 | the fixed header followed by the data is the serialized success |
| Companion.ReadSizeIsTight | crates/fcast-protocol/src/companion.rs:8-9 | a success fits one packet if and only if its data respects the read size |
| Companion.ResponseSurvivesTheReader | crates/fcast-protocol/src/companion.rs:37-116 | a response within the bound, prefixed, framed and read in any way, parses back to itself |
| Blocks.PermuteInPlace | crates/apple-fairplay/src/lib.rs:172-225 | the sixteen assignments with their temporaries equal a simultaneous InvShiftRows plus a substitution per position |
| Blocks.PermuteRow1 | crates/apple-fairplay/src/lib.rs:207-211 | the rotation of one row through a temporary is simultaneous |
| Blocks.PermuteRow2 | crates/apple-fairplay/src/lib.rs:213-218 | so are the two exchanges of the third row |
| Blocks.PermuteRow3 | crates/apple-fairplay/src/lib.rs:220-224 | and the rotation of the fourth |
| Blocks.XorBlocks | crates/apple-fairplay/src/lib.rs:304-308 | exclusive or of two blocks |
| Blocks.ShiftSubIsInjective | crates/apple-fairplay/src/lib.rs:172-225 | with injective substitutions the permutation loses nothing |
| Blocks.ColumnsIsInjective | crates/apple-fairplay/src/lib.rs:268-294 | with an injective column map the column step loses nothing |
| Blocks.InjectiveMapsReachEverything | crates/apple-fairplay/src/lib.rs:262-302 | an injective map of 16-byte blocks reaches every block |
| Words.WriteU32 | crates/apple-fairplay/src/lib.rs:135-142 | a stored `u32` is read back, and no other word changes |
| Words.XorU32 | crates/apple-fairplay/src/lib.rs:263-265 | storing a loaded word combined with a key word is the exclusive or of their four bytes |
| Words.ValueInverse | crates/apple-fairplay/src/lib.rs:135-142 | a `u32` and its four little-endian bytes determine each other |
| Words.ReadsLittleEndian | crates/apple-fairplay/src/lib.rs:135-138 | `rd_le` is b0 + 256 b1 + 65536 b2 + 16777216 b3 |
| InverseCipher.AddRoundKey | crates/apple-fairplay/src/lib.rs:263-265 | word-wise key addition is the exclusive or of blocks |
| InverseCipher.KeyedColumns | crates/apple-fairplay/src/lib.rs:268-294 | the four table look-ups per column, in place, are key addition followed by the column map |
| InverseCipher.PermuteBlock1 | crates/apple-fairplay/src/lib.rs:172-197 | the first permutation with its rotated slices |
| InverseCipher.PermuteBlock2 | crates/apple-fairplay/src/lib.rs:199-225 | the permutation of an inner round |
| InverseCipher.DoRound | crates/apple-fairplay/src/lib.rs:268-297 | one inner round |
| InverseCipher.Cycle | crates/apple-fairplay/src/lib.rs:262-302 | `cycle` decrypts: for all tables that can be inverted, the forward cipher of section 5.1 of FIPS 197 (key 0, nine rounds with the keys 1 to 9 in ascending order, a last round with key 10) leads from its output back to its input |
| InverseCipher.CycleIsInjective | crates/apple-fairplay/src/lib.rs:262-302 | two blocks with the same output are the same |
| InverseCipher.CycleIsABijection | crates/apple-fairplay/src/lib.rs:262-302 | for every fixed schedule `cycle` is a bijection of blocks, given injective slices and column map |
| InverseCipher.CipherBlockDeciphers | crates/apple-fairplay/src/lib.rs:262-302 | for every schedule and all tables that can be inverted, `cycle` undoes the forward cipher |
| InverseCipher.CipherBlockIsUndone | crates/apple-fairplay/src/lib.rs:262-302 | and the forward cipher undoes `cycle` |
| InverseCipher.InvertibleTablesHaveInverses | crates/apple-fairplay/src/lib.rs:172-225 | tables with injective slices and an injective column map have the inverses that the forward cipher needs |
| Fips197.ShiftSubUndone | crates/apple-fairplay/src/lib.rs:199-225 | substituting back and then shifting the rows left undoes the permutation in place, and is undone by it |
| Fips197.ColumnsUndone | crates/apple-fairplay/src/lib.rs:268-294 | the inverse column map undoes the column step, and is undone by it |
| Fips197.RoundsUndone | crates/apple-fairplay/src/lib.rs:268-297 | rounds undone one by one in the opposite order are undone together |
| KeySchedule.GenerateKeySchedule | crates/apple-fairplay/src/lib.rs:227-260 | the 44 words follow the recurrence of section 5.2 of FIPS 197: the key under its pad, then RotWord, SubWord with a slice of its own for each byte, and Rcon as powers of x; every row is that of the specification |
| KeySchedule.OnlyOneSchedule | crates/apple-fairplay/src/lib.rs:227-260 | only one schedule of a key follows that recurrence |
| KeySchedule.MangleIsRcon | crates/apple-fairplay/src/lib.rs:37-39 | `INDEX_MANGLE` lists the powers of x in the field of FIPS 197 |
| KeySchedule.ScheduleRound | crates/apple-fairplay/src/lib.rs:233-259 | one round stores the row, word by word, while the buffer turns into the next |
| KeySchedule.FoldWord | crates/apple-fairplay/src/lib.rs:248-258 | a word folded over its predecessor in place |
| KeySchedule.TurnFirstWord | crates/apple-fairplay/src/lib.rs:236-246 | the rotated and substituted last word enters the first, with the round constant in its first byte |
| KeySchedule.Recurrence | crates/apple-fairplay/src/lib.rs:233-259 | rows satisfy the recurrence of section 5.2 of FIPS 197 byte by byte, with a substitution per position |
| KeySchedule.RoundsUndoEachOther | crates/apple-fairplay/src/lib.rs:233-259 | an inverse round exists, for any table contents |
| KeySchedule.RowGivesKey | crates/apple-fairplay/src/lib.rs:227-260 | the inverse rounds lead from any row back to the key |
| KeySchedule.KeyGivesRow | crates/apple-fairplay/src/lib.rs:227-260 | every value of a row belongs to a key |
| KeySchedule.OneRowDeterminesAll | crates/apple-fairplay/src/lib.rs:227-260 | one row determines the key and every other row, for any table contents |
| MessageCbc.DecryptMessage | crates/apple-fairplay/src/lib.rs:310-429 | in all four modes the eight blocks are the CBC decryption (section 6.2 of NIST SP 800-38A) of bytes 0x10 to 0x90, so that what was enciphered with the inverse tables and the ascending round keys of the mode and chained from its IV comes back block by block; the rest of the output is untouched |
| MessageCbc.DecryptBlock | crates/apple-fairplay/src/lib.rs:313-427 | one iteration deciphers the block of its mode and order and combines it with the block before, or the IV for block 0 only |
| MessageCbc.Decipher | crates/apple-fairplay/src/lib.rs:323-401 | nine keyed rounds and the last permutation |
| MessageCbc.MixColumns | crates/apple-fairplay/src/lib.rs:354-374 | four words computed from the whole buffer, then written back |
| MessageCbc.LoadBlock | crates/apple-fairplay/src/lib.rs:314-321 | the block of this mode and iteration |
| MessageCbc.Chain | crates/apple-fairplay/src/lib.rs:403-427 | where the result goes and what it is combined with, in either direction |
| MessageCbc.EveryBlockOnce | crates/apple-fairplay/src/lib.rs:313-428 | forwards or backwards, every block is handled exactly once |
| MessageCbc.ChainingInvertsEncryption | crates/apple-fairplay/src/lib.rs:403-427 | for any block cipher and its inverse, what was chained by CBC encryption comes out |
| MessageCbc.DecipherUndoesEncipher | crates/apple-fairplay/src/lib.rs:325-399 | for all tables that can be inverted the block decryption of every mode undoes its encryption, which is defined forwards |
| MessageCbc.PlainIsHeld | crates/apple-fairplay/src/lib.rs:310-429 | what was encrypted block by block is what the chaining decryption holds |
| MessageCbc.InvertibleTablesHaveInverses | crates/apple-fairplay/src/lib.rs:325-399 | tables with injective slices and an injective column map have the inverses that the encryption needs |
| MessageCbc.DecipherIsInjective | crates/apple-fairplay/src/lib.rs:323-401 | with injective tables the block decryption loses nothing |
| MessageCbc.DecipherIsABijection | crates/apple-fairplay/src/lib.rs:323-401 | and is a bijection of blocks in every mode |
| MessageCbc.SamePlainSameCipher | crates/apple-fairplay/src/lib.rs:310-429 | messages that decrypt to the same blocks have the same blocks |
| ContentKey.PlayfairDecrypt | crates/apple-fairplay/src/lib.rs:464-485 | the content key is chunk 1 combined with the cipher of chunk 2 under the schedule of the session key and the two pads; a key that was wrapped with the forward cipher under the FIPS 197 schedule comes back |
| ContentKey.WrappedIsUnwrapped | crates/apple-fairplay/src/lib.rs:473-484 | wrapping, with the pads in the other order and the forward cipher, is undone |
| ContentKey.SecondChunkIsDetermined | crates/apple-fairplay/src/lib.rs:464-485 | with the rest fixed, every content key comes from exactly one second chunk |
| ContentKey.FirstChunkShiftsTheKey | crates/apple-fairplay/src/lib.rs:478-484 | changing the first chunk changes the key by the same difference |
| SapHash.WrapShiftsBy46 | crates/apple-fairplay/src/garble.rs:403-405 | where the subtraction wraps, the index is 46 cells from the signed one |
| SapHash.OwnCellIsNotRead | crates/apple-fairplay/src/garble.rs:402-411 | no step reads its own cell as x, y or z, wrapped or not |
| SapHash.UnmixedMixed | crates/apple-fairplay/src/garble.rs:407-410 | given the three cells read, the wrapping byte arithmetic of a step is invertible |
| SapHash.ScrambleIsABijection | crates/apple-fairplay/src/garble.rs:402-456 | any scramble whose steps keep clear of their own cell and can be undone is a bijection |
| SapHash.BufferScrambleIsABijection | crates/apple-fairplay/src/garble.rs:402-411 | the 840 steps are a bijection of 210-byte buffers, with the inverse named |
| SapHash.BufferDeterminesBlock | crates/apple-fairplay/src/garble.rs:394-411 | the buffer handed to `garble` determines the 64-byte block, which a named function recovers |
| SapHash.UnloadedLoaded | crates/apple-fairplay/src/garble.rs:394-399 | the load loses nothing |
| SapHash.Load | crates/apple-fairplay/src/garble.rs:394-399 | the load loop |
| SapHash.Scramble | crates/apple-fairplay/src/garble.rs:402-411 | the in-place loop computes the specified scramble |
| SapHash.PassesAreOneRun | crates/apple-fairplay/src/garble.rs:448-452 | sixteen passes over sixteen cells are 256 steps of one scramble; wrapping is harmless because 16 divides 2^32 |
| SapHash.KeyMixedTwice | crates/apple-fairplay/src/garble.rs:450-454 | a step on the key undoes itself |
| SapHash.KeyScrambleIsABijection | crates/apple-fairplay/src/garble.rs:447-456 | the reverse scramble is a bijection of 16-byte keys |
| SapHash.ScrambleKey | crates/apple-fairplay/src/garble.rs:447-456 | the two nested loops compute it in place |
| SapHash.FoldSeed | crates/apple-fairplay/src/garble.rs:421-433 | the fill and the first fold, with the fixed byte at index 3 |
| SapHash.FoldIn | crates/apple-fairplay/src/garble.rs:434-445 | a fold combines each lane with the bytes of its residue modulo 16 |
| SapHash.FoldIsLinear | crates/apple-fairplay/src/garble.rs:434-445 | replacing a byte of a folded buffer changes exactly its lane, by the difference |
| SapHash.FirstBufferIsFolded | crates/apple-fairplay/src/garble.rs:434-437 | replacing byte i of the first buffer changes lane i modulo 16 of the fold by the difference, and no other |
| SapHash.ThirdBufferIsFolded | crates/apple-fairplay/src/garble.rs:438-441 | the same for the third buffer |
| SapHash.SecondBufferIsFolded | crates/apple-fairplay/src/garble.rs:442-445 | the same for the second |
| SapHash.FourthBufferSeeds | crates/apple-fairplay/src/garble.rs:425-433 | replacing a byte of the fourth buffer that seeds a lane changes just that lane |
| SapHash.NothingElseIsFolded | crates/apple-fairplay/src/garble.rs:421-445 | its other bytes and the fifth buffer change nothing |
| SapHash.LanesShowInTheHash | crates/apple-fairplay/src/garble.rs:447-456 | a change of one lane shows in the hash, and undoing the last scramble tells lane and difference |
| SapHash.FoldedByLanes | crates/apple-fairplay/src/garble.rs:421-445 | each lane is its seed combined with every sixteenth byte of the three buffers |
| SapHash.ScrambledIsHistory | crates/apple-fairplay/src/garble.rs:402-456 | scrambling in place writes a recurrence over everything written before |
| SapHash.BufferScrambleIsARecurrence | crates/apple-fairplay/src/garble.rs:402-411 | the 840 steps: rotl5 of the byte 57 steps back, plus (rotl3 of that 13 back, combined with that 210 back), minus rotl7 of that 155 back, with the exact positions where the step number wraps |
| SapHash.KeyScrambleIsARecurrence | crates/apple-fairplay/src/garble.rs:447-456 | the 256 steps combine rotl1, the byte itself, rotl6 and rotl5 of the bytes 7, 16, 5 and 1 steps back |
| SapHash.SapHash | crates/apple-fairplay/src/garble.rs:366-457 | the whole hash by its bytes: word-reversed load, a recurrence of order 210, `garble`, sixteen lanes of the first three buffers with their seeds from the fourth, and a recurrence of order 16; the former content of `key_out` plays no part, although its comment calls it a seed |
| SapHash.HashesAgreeIffFoldsAgree | crates/apple-fairplay/src/garble.rs:366-457 | two blocks hash alike if and only if their folds agree |
| ModifiedMd5.RegisterUndone | crates/apple-fairplay/src/md5.rs:90-101 | one wrapping, rotating register update and its inverse |
| ModifiedMd5.TurnUndone | crates/apple-fairplay/src/md5.rs:90-107 | one turn of the four registers is invertible for every word |
| ModifiedMd5.SwapTwice | crates/apple-fairplay/src/md5.rs:111-117 | a swap undoes itself and keeps the words |
| ModifiedMd5.SwapsPermute | crates/apple-fairplay/src/md5.rs:109-127 | the five data-dependent swaps permute the sixteen words and can be undone |
| ModifiedMd5.StepUndone | crates/apple-fairplay/src/md5.rs:73-128 | a step on registers and block, step 31 included, is invertible and keeps the words |
| ModifiedMd5.StepsAreABijection | crates/apple-fairplay/src/md5.rs:73-128 | the 64 steps are a bijection of registers and block |
| ModifiedMd5.SwapInPlace | crates/apple-fairplay/src/md5.rs:111-117 | two words of the byte block exchanged |
| ModifiedMd5.StepInPlace | crates/apple-fairplay/src/md5.rs:73-128 | the loop body with its temporaries is the specified step |
| ModifiedMd5.Digest | crates/apple-fairplay/src/md5.rs:59-134 | by the bytes: the output is, modulo 2^32 and with the lowest byte first, the key plus the four variables of RFC 1321 after two rounds on the block, read with the highest byte first, and two on the block with its words exchanged |
| ModifiedMd5.TurnIsAnOperation | crates/apple-fairplay/src/md5.rs:90-107 | the rotating registers do what section 3.4 of RFC 1321 does on fixed variables |
| ModifiedMd5.Round2AsListed | crates/apple-fairplay/src/md5.rs:74-82 | the word order of round 2 is the one the RFC lists |
| ModifiedMd5.Round3AsListed | crates/apple-fairplay/src/md5.rs:74-82 | so is that of round 3 |
| ModifiedMd5.Round4AsListed | crates/apple-fairplay/src/md5.rs:74-82 | and that of round 4 |
| ModifiedMd5.WordsAsListed | crates/apple-fairplay/src/md5.rs:74-82 | the index formulas pick the words that the RFC lists, in all four rounds |
| ModifiedMd5.RunEndsInTheVariables | crates/apple-fairplay/src/md5.rs:73-128 | the registers in the end are A, B, C and D of the RFC in this order |
| ModifiedMd5.RunToHalf | crates/apple-fairplay/src/md5.rs:73-127 | after 32 steps: two rounds of the RFC on the words as numbers, then the swaps |
| ModifiedMd5.AddedUpIsTheSum | crates/apple-fairplay/src/md5.rs:130-133 | the four sums are taken in place, each modulo 2^32 |
| ModifiedMd5.NumbersByTheBytes | crates/apple-fairplay/src/md5.rs:84-88 | the word at j is 16777216 b(4j) + 65536 b(4j+1) + 256 b(4j+2) + b(4j+3) |
| ModifiedMd5.SwappedFromOrigin | crates/apple-fairplay/src/md5.rs:109-127 | where each word comes from in the five swaps, named by the hexadecimal digits of A, B, C and D |
| ModifiedMd5.FunctionsAsDefined | crates/apple-fairplay/src/md5.rs:32-43 | the four round functions bit by bit: choice by the first, choice by the third, parity, and the last |
| ModifiedMd5.ShiftsAsListed | crates/apple-fairplay/src/md5.rs:24-30 | each round shifts what goes into A, B, C and D by the amounts of the RFC |
| ModifiedMd5.RunIsMd5WithSwaps | crates/apple-fairplay/src/md5.rs:73-128 | all 64 steps: two rounds of RFC 1321, the swaps, and two more rounds on the block with its words exchanged |
| MetaCodec.RoundTrip | crates/fcast-protocol/src/v4.rs:358-409 | any value built into any store reads back, up to the sign of zero; left-out zeroes read as zeroes |
| MetaCodec.ReadsBackUpToZero | crates/fcast-protocol/src/v4.rs:358-411 | what reads back, from any later store, differs from what was built in nothing but the signs of zeroes, which are positive |
| MetaCodec.RoundTripIsExactWithoutNegativeZero | crates/fcast-protocol/src/v4.rs:358-409 | the original comes back bit by bit if and only if it holds no negative zero |
| MetaCodec.NegativeZeroIsLost | crates/fcast-protocol/src/v4_generated.rs:2714-2716 | the builder leaves a negative zero out, because it equals the default, and it reads as a positive one |
| MetaCodec.CanonIsIdentity | crates/fcast-protocol/src/v4.rs:751-758 | a value is canonical if and only if it holds no negative zero |
| MetaCodec.ReadIsStable | crates/fcast-protocol/src/v4.rs:764-810 | what an offset reads as never changes when the store grows |
| MetaCodec.OffsetsSurviveAppends | crates/fcast-protocol/src/v4.rs:358-425 | a built value still reads back after any further appends |
| MetaCodec.ItemsRoundTrip | crates/fcast-protocol/src/v4.rs:385-396 | every item of a list, in its wrapper, reads back |
| MetaCodec.ListRoundTrip | crates/fcast-protocol/src/v4.rs:385-402 | a list reads back in order |
| MetaCodec.PutAppends | crates/fcast-protocol/src/v4.rs:358-409 | building only appends |
| ExtraMetadata.SortForgetsIterationOrder | crates/fcast-protocol/src/v4.rs:433-434 | any two iteration orders of the same keys are sorted alike |
| ExtraMetadata.SortedIsAscending | crates/fcast-protocol/src/v4.rs:433-434 | the sort orders the keys and keeps them |
| ExtraMetadata.OneAscendingOrder | crates/fcast-protocol/src/v4.rs:426-434 | a set of keys has only one ascending order |
| ExtraMetadata.LessIsLexicographic | crates/fcast-protocol/src/v4.rs:433-434 | the key order is that of the first character that differs, a prefix coming first |
| ExtraMetadata.EntriesRoundTrip | crates/fcast-protocol/src/v4.rs:435-439 | every entry reads back from where it was put |
| ExtraMetadata.ExtraRoundTrip | crates/fcast-protocol/src/v4.rs:428-440 | a whole map comes back, up to the sign of zeroes, from any later store |
| ExtraMetadata.CanonExtraIsIdentity | crates/fcast-protocol/src/v4.rs:428-440 | bit by bit if and only if no value holds a negative zero |
| MessageBuilding.MessageBuilder.BuildMetaValue | crates/fcast-protocol/src/v4.rs:358-411 | the recursive builder appends exactly the specified nodes and returns a tag and an offset at which the value reads back, up to the signs of zeroes |
| MessageBuilding.MessageBuilder.BuildMetaKv | crates/fcast-protocol/src/v4.rs:413-424 | value first, then key, then the pair |
| MessageBuilding.MessageBuilder.BuildExtraMetadata | crates/fcast-protocol/src/v4.rs:428-440 | what is built depends on the map alone, whatever order the iteration takes: one entry for each key, in strictly ascending order |
| ExtraMetadata.LastEntryWins | crates/fcast-protocol/src/v4.rs:814-821 | of several entries with one key the last is read |
| ExtraMetadata.OnlyEntriesAreRead | crates/fcast-protocol/src/v4.rs:814-821 | and nothing is read that is not the last entry with its key |
| MessageBuilding.ReadExtraMetadata | crates/fcast-protocol/src/v4.rs:814-821 | the loop that fills the map; the last of several entries with one key wins |
| MessageBuilding.MessageBuilder.StripFlatMediaItem | crates/fcast-protocol/src/v4.rs:263-285 | the rebuilt table has container, source, start time, volume, speed, title, thumbnail and extra metadata of the original, field by field, and no headers and typed metadata |
| MessageBuilding.MessageBuilder.StripQueue | crates/fcast-protocol/src/v4.rs:294-322 | the rebuilt queue has the same length, order, durations, start index and autoplay |
| MessageBuilding.MessageBuilder.FromPlayStripped | crates/fcast-protocol/src/v4.rs:287-329 | the rebuilt message keeps every relayed field of the source, for a queue of every element in order with its duration, start index and autoplay; it says the original, stripped, or there is none exactly if the source is of an unknown type; nowhere does it hold a header or typed metadata |
| Relay.StripIsIdempotent | crates/fcast-protocol/src/v4.rs:263-329 | stripping twice is stripping once |
| Relay.RelayIsIdempotent | crates/fcast-protocol/src/v4.rs:287-329 | relaying a relayed message says nothing new |
| Relay.RelayedExtraIsTheSame | crates/fcast-protocol/src/v4.rs:267-283 | a non-empty extra map is relayed unchanged if and only if it holds no negative zero; an empty one becomes none |
| Relay.SourceIsKnown | crates/fcast-protocol/src/v4.rs:288-326 | a well-formed message is relayed exactly if its source is a single item or a queue |
| Relay.PutStrippedReads | crates/fcast-protocol/src/v4.rs:267-269 | the extra metadata of a relayed item reads back |
| Relay.ItemIsStable | crates/fcast-protocol/src/v4.rs:263-285 | later appends do not change what an item says |
| Relay.StrippedQueue | crates/fcast-protocol/src/v4.rs:298-320 | elements stripped one by one make the stripped queue |
| Relay.StrippedItemIsKept | crates/fcast-protocol/src/v4.rs:263-285 | an item that says the stripped original keeps every relayed field |
| Dependencies.ProcessDependencies | xtask/src/lib.rs:243-286 | terminates for every finite graph, cyclic or not, and every drain order; at the end exactly the transitive closure is copied, under one file per name, in at most one round more than there are libraries |
| Dependencies.Round | xtask/src/lib.rs:245-285 | a batch is added to the copied set; a round that finds nothing new leaves nothing queued |
| Dependencies.RoundStep | xtask/src/lib.rs:246-284 | one library of a batch keeps the invariant, whichever is taken first |
| Dependencies.GrowsOrNot | xtask/src/lib.rs:243-249 | a round grows the copied set or finds nothing new |
| Dependencies.ClosedAndReachedIsClosure | xtask/src/lib.rs:241-286 | a closed set of reached libraries with the start in it is the transitive closure |
| Dependencies.CopyOneMore | xtask/src/lib.rs:254-276 | a library is copied only if no file has its name yet |
| PipelineGraph.NumbersAreDistinct | crates/fcastplaybin/src/graph.rs:173-178 | every visited pad has a number, no two share one, and there are no gaps |
| PipelineGraph.NumbersAreStable | crates/fcastplaybin/src/graph.rs:173-178 | a pad keeps its number for the rest of the walk |
| PipelineGraph.NumbersFollowTheWalk | crates/fcastplaybin/src/graph.rs:117-178 | with one owner for each pad the numbers count the pads in the order of the walk |
| PipelineGraph.LinksAreThoseOfVisitedPads | crates/fcastplaybin/src/graph.rs:70-87 | the links are exactly the recorded pairs whose two ends were visited at any time, ghost and proxy legs included |
| PipelineGraph.LinksComeInOrder | crates/fcastplaybin/src/graph.rs:70-163 | with one owner for each pad no pad is the source of two links, and links come in the order of their sources |
| PipelineGraph.NoLinkIsDropped | crates/fcastplaybin/src/graph.rs:74-84 | if every recorded end was visited, no link is dropped |
| PipelineGraph.SnapshotIdsAreDistinct | crates/fcastplaybin/src/graph.rs:100-178 | with one owner for each pad the numbers in the whole tree of cells are pairwise distinct |
| PipelineGraph.NothingIsDroppedIffAllLeadInside | crates/fcastplaybin/src/graph.rs:138-194 | where proxies are no element's own pads: no recorded connection is dropped if and only if every visited source pad's peer, or the ghost whose proxy it is, and every visited ghost sink's target is visited; the links then join exactly the recorded pads |
| PipelineGraph.LinkEndsAreVisited | crates/fcastplaybin/src/graph.rs:74-84 | both ends of every link are numbers of visited pads |
| PipelineGraph.CellListsItsPads | crates/fcastplaybin/src/graph.rs:138-166 | the numbers in a cell and below are those of the pads listed there, in order |
| PipelineGraph.CellIsStable | crates/fcastplaybin/src/graph.rs:100-170 | a finished cell is right for the whole walk |
| PipelineGraph.ElementIsShown | crates/fcastplaybin/src/graph.rs:100-170 | a cell has the texts of its element, one entry for each pad by direction and in order, and the cells of its children in reverse of their listing |
| PipelineGraph.LinksAreThoseOfThePads | crates/fcastplaybin/src/graph.rs:70-163 | a link exists exactly for a numbered source pad with a peer, or ghost sink with a target, whose other end is numbered; a proxy stands for its ghost, and the caps are those of the pad |
| PipelineGraph.WalkIsNumbered | crates/fcastplaybin/src/graph.rs:100-178 | the numbers cover everything below the bin without gaps; with one owner for each pad they follow the tree |
| PipelineGraph.Walker.PadId | crates/fcastplaybin/src/graph.rs:173-178 | gets the number of a pad or gives it the next one |
| PipelineGraph.Walker.VisitPad | crates/fcastplaybin/src/graph.rs:138-166 | numbers a pad and records its link with its caps |
| PipelineGraph.Walker.ElementCell | crates/fcastplaybin/src/graph.rs:117-170 | the cell of an element with its texts, its pads sorted by direction |
| PipelineGraph.Walker.BinCell | crates/fcastplaybin/src/graph.rs:100-115 | own pads first, then the children in reverse of their listing |
| PipelineGraph.ResolveLinks | crates/fcastplaybin/src/graph.rs:74-84 | keeps the pairs with a number at both ends |
| PipelineGraph.Snapshot | crates/fcastplaybin/src/graph.rs:70-87 | the tree shows everything from the bin down, texts, pads in order and children oldest first, under one numbering that follows the tree; the links are exactly those from each numbered pad, with its caps, to the numbered pad that its peer or target stands for; numbers are distinct, links come in the order of their sources, and connections are dropped only where a pad leads outside |
| FileServer.File.PollRead | crates/file-server/src/lib.rs:56 | what is assumed of a file: a poll that blocks, fails or serves; if it serves, the bytes at the cursor, none only without room or at the end |
| FileServer.FileBody.PollSeek | crates/file-server/src/lib.rs:90-106 | the seek is started once and awaited; where it fails or blocks, no read follows |
| FileServer.FileBody.PollRead | crates/file-server/src/lib.rs:48-68 | one read through the buffer, cut to the platform's `usize`; its outcome is that of the file |
| FileServer.FileBody.PollNext | crates/file-server/src/lib.rs:75-121 | one poll gives exactly the answer that the seek and the file call for, and the next bytes of the announced window; no frame before the seek is complete; emitted plus remaining stays the announced length |
| FileServer.FileBody.constructor | crates/file-server/src/lib.rs:34-46 | a body starts with nothing emitted and everything remaining |
| FileServer.PollKeeps | crates/file-server/src/lib.rs:75-121 | a frame is the next bytes of the window and fits the room |
| FileServer.FramesAreAPrefix | crates/file-server/src/lib.rs:75-121 | over every schedule the frames are the announced bytes that are newly out, in order |
| FileServer.CutIsModulo | crates/file-server/src/lib.rs:53-59 | the cut of a length to a `usize` is its remainder by the number of values of `usize` |
| FileServer.EndsAtTheCut | crates/file-server/src/lib.rs:53-62 | a body that ends, of a file that reaches that far, has put out the length cut to a `usize` |
| FileServer.ReadyPollsEnd | crates/file-server/src/lib.rs:75-121 | without failures, more ready polls than remaining bytes bring the end, whatever lies between them |
| FileServer.DeliversAllIffTheLengthFits | crates/file-server/src/lib.rs:53-121 | an intact file, no failures and more ready polls than bytes: the body ends, and has delivered everything if and only if the length fits a `usize` |
| FileServer.WideBodyEndsAtOnce | crates/file-server/src/lib.rs:53-62 | a body of exactly as many bytes as `usize` has values ends on its first ready poll with nothing delivered |
| FileServer.RunSchedule | crates/file-server/src/lib.rs:75-121 | polling carries out the schedule as specified |
| FileServer.Stream | crates/file-server/src/lib.rs:75-121 | the same for a fresh body, with what it means for the frames and the announced length |
| FileServer.CutOfTheRest | crates/file-server/src/lib.rs:53-59 | the remaining length cut to a `usize` is what remains of the cut length, so a read never crosses it |
| FileServer.Respond | crates/file-server/src/lib.rs:229-267 | status, lengths and body for each header: the file for none, exactly the first range for a list, a bad request for an empty list or a malformed header; Content-Length and Content-Range are those of the body, and the announced range lies within the file if and only if it has a byte |
| FileServer.Serve | crates/file-server/src/lib.rs:229-267 | a request answered and its body polled: the frames are the first bytes of the requested slice of the file, as many as announced, all of them if and only if their number fits a `usize` |

## Left out

- `garble`, the straight-line byte arithmetic between the two scrambles of the hash, is a parameter of `SapHash`.
- The 64 additive constants of the digest and the fixed bytes of the hash's buffers are data; nothing derives them.
- The contents of the FairPlay tables. Tables are sequences of maps from bytes; an entry that a map lacks reads as 0.
- FairPlay glue: `generate_session_key`, the setup and handshake replies.
- MessageCbc.DecryptMessage: requires a mode below 4, because the code stops at an index out of range for any other.
- TLS itself, certificates, JSON, base64, HTTP parsing and the sockets: only what their callers rely on is modelled.
- `PrefixedRead` writes and flushes, which go to the socket unchanged.
- VersionExchange: what the JSON body says is a parameter, so the size and version of a Version body are arbitrary.
- The depth and size limits of the FlatBuffers verifier, and alignment, vtables and string encoding of the real buffer.
- `from_queue_insert_stripped`, which strips one item like the queue does, and the other message constructors.
- Relay: the headers of an unstripped item are seen only as a reference; stripped items have none.
- The width of pad ids: `u32` numbers repeat after 2^32 pads, here they are unbounded.
- How GStreamer's names, states, properties, pad details and caps become text; the texts are parameters of the pipeline graph. Locking of a live pipeline.
- The commands that copy, rewrite and strip a library, and the extras copied after the worklist; a copy is an entry in a map from file names.
- FileServer.FileBody.PollNext: not called after an error or the end, as the server's body contract has it; a poll after a failed `start_seek` would read from the wrong place.
- FileServer: a file keeps its content while it is served, though it may be shorter or longer than announced.
- FileServer.Respond: that ranges lie within the file is assumed of the range parser, which is not part of this model. With overflow checks compiled in the code stops at an empty range at the start of the file; here `u64` wraps.
- FileServer: requests for unknown files, other methods, required headers, and the constant response headers.
- Overflow of `usize` in buffer sizes, and the release-build behaviour of `commit` beyond the slice, which its documentation calls a caller bug.
- Versions 1 to 3 of the protocol, opcodes, discovery, the other crates and the user interfaces.
