# Proofs about the packet programs

A Dafny model of the programs in this repository that compute something on a packet, and proofs about it:

- the ZUC stream cipher and EEA3 (`Zuc*.dfy`, with `Bits`, `Words`, `Mersenne`, `Rotations`, `Sboxes`,
  `SboxDesign` below it);
- the UDP checksum and the header swap (`Packets.dfy`, `Checksum.dfy`, `UdpChecks.dfy`);
- the key-value cache (`KvCache.dfy`, `KvStore.dfy`, `KvRuns.dfy`);
- reduction, histogram and aggregation, on many CPUs at once and one packet after another
  (`SharedCounters.dfy`, `CounterResults.dfy`, `CounterHandlers.dfy`, `CounterRuns.dfy`, `CounterReplies.dfy`,
  `ReplyBalance.dfy`);
- the load balancer's string hash (`Sdbm.dfy`).

`dafny verify dfyconfig.toml` checks everything.

C routines that update registers, maps or a frame in place are classes and methods here, each proved against a
function of the old state; the theorems are about those functions. Words are integers with their wrap-around
written out, and `&`, `|`, `^` and the shifts are defined bit by bit in `Bits.dfy`, so that arithmetic laws and
bit laws can be combined without bit-vectors. The specification functions that methods are proved against are in
turn characterised by lemmas stated in plain numbers and frame offsets: `ZucMeaning`, `ZucF.SubstituteIs`,
`SboxDesign`, `Packets.AcceptedIs`, `Packets.PayloadBytes`, `KvStore.ReplyBytes` and others in the table.

## Where the code and its documentation part ways

- **Initialisation mode starts from an unassigned variable.** `dpdk/zuc/zuc.h:84-85` reads `f` before anything
  was assigned to it (the PsPIN copy does the same). Section 3.2 of the ZUC Specification starts from cell 0, work
  mode does so (`dpdk/zuc/zuc.h:118`), and the eBPF copy tries to (`ebpf-xdp/zuc/zuc.h:84-90`). The modelled routine
  takes what it finds in `f` as a parameter, and Initialization passes cell 0. `ZucStart.StartCondition` says for
  every 32-bit value found there whether the step still does what the specification asks, `ZucStart.LowStart` and
  `ZucStart.HighStart` say it in closed form, and `ZucStart.WrongStart` shows that 0 makes the first round wrong for
  every key and IV.
- **The BEARER constant 120 does not fit its field.** It has five bits; only `120 % 32` reaches the IV
  (`ZucIv.Eea3IvFields`).
- **The checksum folds once.** It is the checksum of RFC 768 exactly when that fold has no carry to drop
  (`UdpChecks.ChecksumExact`, `UdpChecks.ChecksumOfSummed`). `KvStore.ReplyFails` is a key-value request whose
  checksum verifies and whose reply's does not.
- **The checksum covers the frame, not the datagram.** It sums to the end of the frame, and at most 1481 UDP bytes.
  `UdpChecks.FilledVerifies` says for every frame when a check field filled this way verifies, and
  `KvStore.TrailingFails` names two bytes behind the datagram that spoil every reply.
- **`get_set` is called with 0 to 3, and handles 1 to 4.** The branch marked as impossible serves a quarter of all
  keys: keys 0 and 1 modulo 4 share the first set, and the fourth set is never used (`KvCache.RouteValues`,
  `KvCache.FourthSetUnused`).
- **The histogram guard lets 1024 through, but there is no bin 1024.** Such a value is skipped without ending the
  packet, so the bins of a packet can add up to less than 256 (`CounterResults.HistogramShort`), and a packet left
  early leaves what it counted behind (`CounterResults.HistogramStray`). `CounterResults.PacketInBins` and
  `CounterResults.HistogramExact` say exactly when the bins and the packet counter agree.
- **A reply can be sent twice or not at all.** The counter is incremented and read again in two steps
  (`ebpf-xdp/reduce/reduce_no_t.c:76-78`). `CounterReplies.DoubledReply` and `CounterReplies.LostReply` are runs of
  two CPUs. `ReplyBalance.RepliesExact` says exactly when a run sends one reply per full batch, and
  `ReplyBalance.BatchReplies` exactly when one batch gets one reply.

## What is assumed

- Chars are signed and 32-bit signed arithmetic wraps around. The host is little-endian.
- The IP header has 20 bytes, as the code's own offsets have it.
- An LRU map drops other keys of its set only when it needs room for the key being written, and then keeps at most
  500 (`KvCache.EvictionOk`). Which keys go is left open.
- `__sync_fetch_and_add` is one atomic step, wrapping modulo 2^32. Map slots are kept as 32-bit patterns.
- One cipher call runs at a time.

## Model

| member | source | states |
|---|---|---|
| Mersenne.AddMIsSum | dpdk/zuc/zuc.h:75-79 | on operands up to 2^31-1, AddM does not overflow 32 bits, adds modulo 2^31-1, stays in range and is zero only for 0+0 |
| Mersenne.MulByPow2IsProduct | dpdk/zuc/zuc.h:81 | MulByPow2(x, k) is x times 2^k less an explicit multiple of 2^31-1, in range, for every k up to 31 |
| Mersenne.MulByPow2Rotates | dpdk/zuc/zuc.h:81 | it is a rotation of the 31 bits: the top k bits move below the others |
| Rotations.RotIsTurns | dpdk/zuc/zuc.h:155 | ROT by k is k rotations by one bit, for every k up to 32 |
| Rotations.RotIsSum | dpdk/zuc/zuc.h:155 | ROT by k is x times 2^k modulo 2^32 plus the quotient of x by 2^(32-k) |
| Rotations.L1IsSum | dpdk/zuc/zuc.h:157-160 | L1 is the exclusive-or of the turns by 0, 2, 10, 18 and 24 places |
| Rotations.L2IsSum | dpdk/zuc/zuc.h:162-165 | L2 is the exclusive-or of the turns by 0, 8, 14, 22 and 30 places |
| Words.XorBits | dpdk/zuc/zuc.h:171 | exclusive-or adds each binary digit modulo 2 |
| Rotations.Squared | dpdk/zuc/zuc.h:157-165 | any exclusive-or sum of rotations, applied twice, is the same sum with every amount doubled |
| Rotations.L1FourTimes | dpdk/zuc/zuc.h:157-160 | L1 applied four times is the rotation by 8 |
| Rotations.L2FourTimes | dpdk/zuc/zuc.h:162-165 | L2 applied four times is the rotation by 24 |
| Rotations.L1Bijective | dpdk/zuc/zuc.h:157-160 | L1 has a two-sided inverse on 32-bit words |
| Rotations.L2Bijective | dpdk/zuc/zuc.h:162-165 | L2 has a two-sided inverse on 32-bit words |
| Sboxes.S0Bijective | dpdk/zuc/zuc.h:31-48 | S0 is a permutation of the bytes, with its inverse table |
| SboxDesign.S0IsThreeRounds | dpdk/zuc/zuc.h:31-48 | which permutation: on every byte, three rounds of mixing its nibbles with three tables, and a rotation by five places |
| Sboxes.S1Bijective | dpdk/zuc/zuc.h:49-66 | S1 is a permutation of the bytes, with its inverse table |
| SboxDesign.S1InvertsLow | dpdk/zuc/zuc.h:49-66 | which permutation, below 128: the affine preimage of S1(x), times x, is 1 in the field of 256 elements modulo X^8 + X^7 + X^3 + X + 1 |
| SboxDesign.S1InvertsHigh | dpdk/zuc/zuc.h:49-66 | the same from 128 on |
| SboxDesign.AffineBack | dpdk/zuc/zuc.h:49-66 | the affine map takes each such preimage back to its image |
| ZucF.SubstituteBijective | dpdk/zuc/zuc.h:176-179 | taking a word apart, substituting its bytes and joining them is a bijection on words |
| ZucF.SubstituteIs | dpdk/zuc/zuc.h:176-179 | S0, S1, S0, S1 on the four base-256 digits, highest first |
| ZucF.MixIs | dpdk/zuc/zuc.h:174-175 | the low half of one word followed by the high half of the other |
| ZucF.FByParts | dpdk/zuc/zuc.h:168-181 | output word and new registers of F in terms of that exchange, L1, L2 and the S-box layer |
| ZucF.MixTwice | dpdk/zuc/zuc.h:174-175 | the exchange of half-words between the two inputs undoes itself |
| ZucF.FMeaning | dpdk/zuc/zuc.h:168-181 | F is the F of section 3.4 of the ZUC Specification, written with quotients and remainders instead of shifts and masks |
| ZucF.FUndone | dpdk/zuc/zuc.h:168-181 | for every X0, X1, X2 the old registers are recovered from the new ones and X1, X2 |
| ZucF.FReached | dpdk/zuc/zuc.h:168-181 | every pair of registers is reached: the update is a permutation |
| ZucLfsr.FeedbackIsTapSum | dpdk/zuc/zuc.h:118-127 | on cells in 1..2^31-1 the work-mode chain is the weighted sum of the taps modulo 2^31-1, never zero |
| ZucLfsr.InitFeedbackIsTapSum | dpdk/zuc/zuc.h:82-95 | the same with u added, from any start in 1..2^31-1: the specification's "if zero" step never fires |
| ZucLfsr.FeedbackNeverWraps | dpdk/zuc/zuc.h:82-127 | none of the additions of the chain, nor the one of u, overflows 32 bits |
| ZucLfsr.WorkLfsrReduced | dpdk/zuc/zuc.h:115-146 | work mode keeps all cells in 1..2^31-1 |
| ZucLfsr.InitLfsrReduced | dpdk/zuc/zuc.h:82-113 | initialisation mode keeps all cells in 1..2^31-1 |
| ZucLfsr.Cell0Undoes | dpdk/zuc/zuc.h:118-120 | cell 0 comes back from the new cell and the other taps, multiplying by the inverse of 257 |
| ZucLfsr.Cell0Reaches | dpdk/zuc/zuc.h:118-120 | and any new cell in range arises from such a cell 0 |
| ZucStart.StartMustBeCell0 | dpdk/zuc/zuc.h:84-95 | among start values a cell can hold, exactly cell 0 gives the specified step |
| ZucStart.StartCondition | dpdk/zuc/zuc.h:84-95 | for every 32-bit start value: the step is the specified one if and only if the first addition leaves the residue of 257 times cell 0 and does not leave 2^31 in front of a chain of maximal terms |
| ZucStart.LowStart | dpdk/zuc/zuc.h:84-95 | for start values below 2^31 the step is the specified one if and only if the value is cell 0, or is 0 while cell 0 is 2^31-1 |
| ZucStart.HighStart | dpdk/zuc/zuc.h:84-95 | for start values from 2^31 on, the same condition as StartCondition with the first addition worked out as quotients and remainders of the value |
| ZucStart.RoundStart | dpdk/zuc/zuc.h:82-113 | the conditions of LowStart and HighStart in every initialisation round of every key and IV, so for all 32-bit start values |
| ZucStart.WrongStart | dpdk/zuc/zuc.h:84-95 | for every key and IV, a start value of 0 makes the first initialisation round wrong |
| ZucSteps.WorkStepUndone | dpdk/zuc/zuc.h:115-181 | on valid states Undo takes back a whole work-mode round: cells and both registers |
| ZucSteps.WorkStepReached | dpdk/zuc/zuc.h:115-181 | and a work-mode round takes back Undo, which keeps states valid |
| ZucSteps.InitStepUndone | dpdk/zuc/zuc.h:82-113 | Undo also takes back an initialisation round, whose input depends on F |
| ZucSteps.InitStepReached | dpdk/zuc/zuc.h:82-113 | and an initialisation round takes back Undo |
| ZucRuns.LoadedCell | dpdk/zuc/zuc.h:68-71 | a loaded cell is the key byte, constant and IV byte side by side, in 1..2^31-1 |
| ZucRuns.LoadKeyInjective | dpdk/zuc/zuc.h:185-204 | loading loses nothing of key and IV |
| ZucRuns.ReachableValid | dpdk/zuc/zuc.h:185-230 | after key loading, any number of initialisation rounds and any number of work rounds, every cell is in 1..2^31-1 |
| ZucRuns.NoOverflow | dpdk/zuc/zuc.h:75-146 | in every such state no AddM of either LFSR mode overflows 32 bits |
| ZucRuns.Halves | dpdk/zuc/zuc.h:148-154 | on such states X0 to X3 are two true 16-bit halves side by side |
| ZucMeaning.FOfCells | dpdk/zuc/zuc.h:148-181 | in a round F runs on those halves of cells 15, 14, 11, 9, 7 and 5 |
| ZucMeaning.WorkRound | dpdk/zuc/zuc.h:115-181 | a work-mode round in numbers: the shifted cells, the new cell modulo 2^31-1, F's registers |
| ZucMeaning.InitRound | dpdk/zuc/zuc.h:82-113 | an initialisation round in numbers, with half of F's output word added |
| ZucMeaning.InitialisationUndone | dpdk/zuc/zuc.h:185-216 | exactly 32 initialisation rounds taken back give empty registers and the bytes of key and IV around the constants |
| ZucMeaning.Constants | dpdk/zuc/zuc.h:68-71 | the first fifteen constants are runs of a four-digit linear recurrence, started from 1 to 15; the last is 0x47AC |
| ZucMeaning.OutputIs | dpdk/zuc/zuc.h:227 | a state puts out ((X0 xor R1) + R2) xor X3, on the halves of cells 15, 14, 2 and 0 |
| ZucMeaning.KeystreamWord | dpdk/zuc/zuc.h:217-239 | word i of the key stream of any key and IV is put out after i+1 rounds, so exactly one word is discarded |
| ZucRuns.InitialisationInjective | dpdk/zuc/zuc.h:185-230 | after the 32 rounds and any number of further steps, two runs are in the same internal state if and only if key and IV are the same |
| ZucRuns.Window | dpdk/zuc/zuc.h:128-145 | the sixteen registers are the window t..t+15 on one sequence of cells |
| ZucRuns.Recurrence | dpdk/zuc/zuc.h:115-146 | that sequence satisfies the recurrence of section 3.2 of the ZUC Specification at every t |
| ZucRuns.PurelyPeriodic | dpdk/zuc/zuc.h:224-229 | every work-mode run from a valid state returns to exactly that state and repeats from there, for all time |
| ZucRuns.StreamWord | dpdk/zuc/zuc.h:224-229 | key stream word i is F xor X3 in the state after i steps from the one that follows the discarded step |
| ZucRuns.StreamPrefix | dpdk/zuc/zuc.h:217-230 | a shorter key stream is a prefix of a longer one |
| ZucRuns.KeystreamPeriodic | dpdk/zuc/zuc.h:233-239 | the key stream of any key and IV repeats from its first word on |
| ZucCipher.Cipher.LFSRWithInitialisationMode | dpdk/zuc/zuc.h:82-113 | the in-place step, for whatever f holds on entry, is InitLfsrFrom of it and the old cells, and touches only the cells |
| ZucCipher.Cipher.LFSRWithWorkMode | dpdk/zuc/zuc.h:115-146 | the in-place step is WorkLfsr of the old cells and touches only the cells |
| ZucCipher.Cipher.BitReorganization | dpdk/zuc/zuc.h:148-154 | fills the four BRC registers from the cells and touches nothing else |
| ZucCipher.Cipher.RunF | dpdk/zuc/zuc.h:168-181 | output and new registers are those of F, which FMeaning, FUndone and FReached are about |
| ZucCipher.Cipher.Initialization | dpdk/zuc/zuc.h:185-216 | with every round started from cell 0, and whatever the registers held, the state afterwards depends on key and IV only: 32 rounds from the loaded state |
| ZucCipher.Cipher.GenerateKeystream | dpdk/zuc/zuc.h:217-230 | the loop writes the recursive stream from the state after one discarded step, nothing past len, and ends len+1 work rounds on; len may be negative |
| ZucCipher.Cipher.ZUC | dpdk/zuc/zuc.h:233-239 | the first len words are the key stream of key and IV whatever the registers held; the rest of the buffer is untouched |
| ZucCipher.Cipher.EEA3 | dpdk/zuc/zuc.h:242-279 | the processed words of C are M xor key stream, the others are untouched, also when C and M are one buffer |
| ZucCipher.Eea3Undoes | dpdk/zuc/zuc.h:242-279 | EEA3 applied to its own output under the same key and LENGTH restores the processed words and no others |
| ZucCipher.Eea3Prefix | dpdk/zuc/zuc.h:253-277 | a shorter ciphertext is a prefix of a longer one |
| ZucCipher.Eea3Bits | dpdk/zuc/zuc.h:253-277 | for every LENGTH up to 2^32-32, each of the first LENGTH bits of the output is the message bit exclusive-or the key stream bit |
| ZucCipher.WordCountRoundsUp | dpdk/zuc/zuc.h:253 | the word count covers LENGTH bits exactly while LENGTH is at most 2^32-32, and then it is the least one; beyond, it is 0 |
| ZucCipher.RoundTrip | dpdk/zuc/zuc.h:242-279 | two calls of the method, on any two register states, the second one in place, give the message back |
| ZucIv.Eea3IvFields | dpdk/zuc/zuc.h:256-271 | byte by byte: counter big-endian, bearer modulo 32 and direction in byte 4, zeros, and the same again |
| ZucIv.Eea3FixedIv | dpdk/zuc/zuc.h:244-271 | EEA3 always uses the IV 00 00 00 96 C4 00 00 00, twice over |
| ZucIv.Eea3StatesDistinct | dpdk/zuc/zuc.h:242-273 | two runs share an internal state after equally many steps if and only if key, counter, bearer modulo 32 and lowest direction bit agree |
| Packets.SwapFields | ebpf-xdp/ping_pong/ping_pong_no_t.c:26-38 | exchanging two disjoint fields byte by byte |
| Packets.SwapEndpoints | ebpf-xdp/ping_pong/ping_pong_no_t.c:26-38 | the three exchanges give Swapped of the frame |
| Packets.SwappedBytes | ebpf-xdp/ping_pong/ping_pong_no_t.c:26-38 | for every byte of the reply, which byte of the request it is |
| Packets.SwappedFields | ebpf-xdp/ping_pong/ping_pong_no_t.c:26-38 | field by field: MAC addresses, IP addresses and ports change places and nothing else moves |
| Packets.SwappedTwice | ebpf-xdp/ping_pong/ping_pong_no_t.c:26-38 | replying to a reply restores the frame |
| Packets.PingPong | ebpf-xdp/ping_pong/ping_pong_no_t.c:8-48 | a frame of at least 42 bytes whose byte 23 is 17 is returned swapped, every other frame passes unchanged |
| Packets.Check | ebpf-xdp/kvstore/kvstore_no_t.c:78-98 | the nested checks accept exactly frames of at least 1066 bytes whose byte 23 is 17 and whose UDP length is 1032 |
| Packets.PayloadBytes | ebpf-xdp/reduce/reduce_no_t.c:53-66 | payload word i is the four bytes from 42 + 4i on, lowest first |
| Checksum.OnesSumIsCanon | ebpf-xdp/helpers/helpers.c:26-40 | the one's complement sum of RFC 1071 is the canonical residue of the plain big-endian sum modulo 65535 |
| Checksum.ByteOrder | ebpf-xdp/helpers/helpers.c:26-38 | section 2(B) of RFC 1071: 256 times the big-endian sum is the little-endian sum modulo 65535, odd last byte included |
| Checksum.HostSumBound | ebpf-xdp/helpers/helpers.c:14-38 | the accumulator stays below 746 * 2^16 for every frame |
| Checksum.SummedIs | ebpf-xdp/helpers/helpers.c:26-38 | the bytes summed are those from 34 on, up to byte 1515 of the frame |
| Checksum.PseudoHeaderIs | ebpf-xdp/helpers/helpers.c:18-23 | addresses, zero, protocol and UDP length, byte by byte |
| Checksum.CalUdpCsum | ebpf-xdp/helpers/helpers.c:13-43 | the loop, the odd byte, the fold, the truncation and the complement compute Folded(HostSum) of the frame |
| UdpChecks.ChecksumOfSummed | ebpf-xdp/helpers/helpers.c:13-43 | for every frame: over the bytes summed, the bytes stored are those of RFC 768 if and only if low half plus high half is at most 0xFFFF, and otherwise the value is exactly one more; the high half is at most 745 |
| UdpChecks.ChecksumExact | ebpf-xdp/helpers/helpers.c:13-43 | up to 1481 UDP bytes, all of which are summed, the same over the whole datagram |
| UdpChecks.SwapKeepsVerifying | ebpf-xdp/ping_pong/ping_pong_no_t.c:25-32 | the swapped frame's checksum verifies if and only if the original's did |
| UdpChecks.FilledVerifies | ebpf-xdp/kvstore/kvstore_no_t.c:130-131 | for every frame whose length field fits: a check field filled by the code verifies if and only if the excess summed over the datagram is 0 modulo 65535 and the fold drops no carry, or is 1 and it drops one |
| UdpChecks.NoExcess | ebpf-xdp/helpers/helpers.c:26-38 | a frame that ends with its datagram, of at most 1481 bytes, has no excess |
| UdpChecks.TrailingExcess | ebpf-xdp/helpers/helpers.c:26-38 | behind an even datagram the excess is the sum of the bytes that follow, up to UDP byte 1481 |
| UdpChecks.DroppedCarry | ebpf-xdp/kvstore/kvstore_no_t.c:131 | an accepted 1066-byte frame whose checksum comes out as FF FF instead of FE FF |
| KvCache.RouteValues | ebpf-xdp/kvstore/kvstore_no_t.c:53-67 | keys 0 and 1 modulo 4 go to the first set, the others to the set of their remainder |
| KvCache.RunRoutes | ebpf-xdp/kvstore/kvstore_no_t.c:107-124 | after any requests and evictions, keys are only where they are routed, and no set holds more than 500 |
| KvCache.HeldInOneSet | ebpf-xdp/kvstore/kvstore_no_t.c:107-112 | a key is never in two sets |
| KvCache.FourthSetUnused | ebpf-xdp/kvstore/kvstore_no_t.c:45-67 | in every run the fourth set stays empty and the cache holds at most 1500 keys |
| KvCache.PutGet | ebpf-xdp/kvstore/kvstore_no_t.c:107-124 | what one write does to the lookup of every key |
| KvCache.GetIsLatest | ebpf-xdp/kvstore/kvstore_no_t.c:100-133 | after any legal run a lookup finds a key exactly if no later write dropped it, and then returns the latest value written |
| KvCache.AgreesWithPlainMap | ebpf-xdp/kvstore/kvstore_no_t.c:16-67 | while no set has seen more than 500 distinct keys, every lookup agrees with a plain map |
| KvStore.Store.constructor | ebpf-xdp/kvstore/kvstore_no_t.c:24-50 | all four sets start empty |
| KvStore.Store.Update | ebpf-xdp/kvstore/kvstore_no_t.c:108-112 | updates the selected set only |
| KvStore.Store.LookupElem | ebpf-xdp/kvstore/kvstore_no_t.c:121-124 | looks in the selected set |
| KvStore.Store.Handle | ebpf-xdp/kvstore/kvstore_no_t.c:71-159 | rejected frames pass and change nothing; otherwise the four sets make the request's step and the frame becomes the swapped answer |
| KvStore.UnansweredVerifies | ebpf-xdp/kvstore/kvstore_no_t.c:102-148 | the reply to a write or to a read that finds nothing verifies if and only if the request did |
| KvStore.AnsweredVerifiesAny | ebpf-xdp/kvstore/kvstore_no_t.c:126-148 | for every accepted frame: the reply to a read that finds content verifies if and only if the summed bytes behind the datagram are 0 modulo 65535 and the fold drops no carry, or are 1 and it drops one |
| KvStore.AnsweredVerifies | ebpf-xdp/kvstore/kvstore_no_t.c:126-148 | in a frame that ends with its datagram, if and only if the fold has no carry to drop |
| KvStore.ReplyFails | ebpf-xdp/kvstore/kvstore_no_t.c:126-148 | a read request that verifies, after a legal run of one write, gets a reply that does not verify |
| KvStore.TrailingFails | ebpf-xdp/helpers/helpers.c:26-33 | with bytes 2 and 0 behind the datagram, no reply to a read that finds content verifies |
| KvStore.FoundContent | ebpf-xdp/kvstore/kvstore_no_t.c:128-130 | the content written into the frame is what a reader gets, flag and key stay |
| KvStore.RequestBytes | ebpf-xdp/kvstore/kvstore_no_t.c:100-121 | flag, key and content are bytes 42 to 45, 46 to 49 and 50 to 53 of the frame |
| KvStore.ReplyBytes | ebpf-xdp/kvstore/kvstore_no_t.c:126-148 | when content is found, every byte of the reply outside check field and content is the request's byte at the swapped place |
| KvStore.PlainReplyBytes | ebpf-xdp/kvstore/kvstore_no_t.c:102-148 | otherwise every byte is |
| KvStore.ReadReplyIsLatest | ebpf-xdp/kvstore/kvstore_no_t.c:115-151 | after any legal run, the bytes of a read's reply carry the latest value written to its key, or the request's own content if the key is not kept |
| KvRuns.FramesAreRun | ebpf-xdp/kvstore/kvstore_no_t.c:71-159 | frames handled one after another, rejected ones among them, leave the cache of the run of their requests, and that run is legal if and only if the map kept its contract at every write |
| KvRuns.ReadAfterFrames | ebpf-xdp/kvstore/kvstore_no_t.c:100-151 | after any handled frames, a read's reply carries the latest value an accepted frame wrote to its key, or the request's own content |
| KvRuns.WriteThenRead | ebpf-xdp/kvstore/kvstore_no_t.c:71-159 | after any handled frames, three calls of the method, a write, a rejected frame and a read of the same key: the last frame comes back with the content of the first |
| SharedCounters.StepAccounted | ebpf-xdp/reduce/reduce_no_t.c:57-76 | every step of every CPU keeps the accounting of all slots and of the counter |
| SharedCounters.AlwaysAccounted | ebpf-xdp/reduce/reduce_no_t.c:57-76 | in every state that any interleaving of any number of CPUs reaches, each slot is, modulo 2^32, what finished and unfinished packets have added |
| SharedCounters.ServedIsRun | ebpf-xdp/reduce/reduce_no_t.c:57-95 | a handler call that no CPU disturbs is a run of the machine, from every reachable state |
| CounterResults.ReduceSlots | ebpf-xdp/reduce/reduce_no_t.c:57-76 | slot i is the column sum of finished packets plus payload[i] of every packet whose loop has passed i |
| CounterResults.ReduceTotal | ebpf-xdp/reduce/reduce_no_t.c:57-76 | at quiescence slot i is the column sum of all packets modulo 2^32 and the counter is their number |
| CounterResults.ScheduleIndependent | ebpf-xdp/reduce/reduce_no_t.c:57-76 | for reduce, histogram and aggregate: at quiescence map and counter depend only on the multiset of packets: not on the number of CPUs, the assignment or the interleaving |
| CounterResults.HistogramBins | ebpf-xdp/histogram/histogram_no_t.c:59-69 | bin b counts the occurrences of b in the walked part of each packet; no value walked, in a finished packet or one still in a loop, is outside 0..1024, and a finished packet was walked to its end or its first value outside |
| CounterResults.PacketInBins | ebpf-xdp/histogram/histogram_no_t.c:59-69 | a packet puts all its 256 values into bins if and only if each is in 0..1023 |
| CounterResults.HistogramWalked | ebpf-xdp/histogram/histogram_no_t.c:59-76 | at quiescence, for every run: the bins add up to the number of values with a bin that were walked, and the counter is the number of packets walked to their end, modulo 2^32 |
| CounterResults.HistogramExact | ebpf-xdp/histogram/histogram_no_t.c:59-76 | for every quiescent run: the bins add up to 256 times the packet counter modulo 2^32 if and only if as many values were counted for packets left early as were skipped in complete ones |
| CounterResults.HistogramTotal | ebpf-xdp/histogram/histogram_no_t.c:59-76 | in particular when every packet has all values in range, or was left at its first value |
| CounterResults.HistogramShort | ebpf-xdp/histogram/histogram_no_t.c:61-66 | a run over one packet that holds 1024: the counter is 1 and the bins add up to 255 |
| CounterResults.HistogramStray | ebpf-xdp/histogram/histogram_no_t.c:61 | a run over one packet left at its second value: the counter is 0 and the bins add up to 1 |
| CounterResults.AggregateTotal | ebpf-xdp/aggregate/aggregate_no_t.c:52-71 | at quiescence, whatever the schedule, rxaggr is the sum of all words modulo 2^32 and the counter is the number of packets |
| CounterResults.PayloadSumUpdate | ebpf-xdp/aggregate/aggregate_no_t.c:52-56 | the payload sum depends on each of the 256 words exactly once |
| CounterResults.PayloadSumZero | ebpf-xdp/aggregate/aggregate_no_t.c:52-56 | and is 0 for a payload of zeros |
| CounterHandlers.BatchFullIs | ebpf-xdp/aggregate/aggregate_no_t.c:75 | C's signed remainder of the counter is zero exactly when the batch size divides the unsigned counter |
| CounterHandlers.ValuesOfWords | ebpf-xdp/histogram/histogram_no_t.c:51-62 | a frame that carries the little-endian bytes of 256 words has exactly these words, read as signed, for values |
| CounterHandlers.ReduceBytes | ebpf-xdp/reduce/reduce_no_t.c:59-67 | after one frame slot i has gained the four payload bytes from 42 + 4i on |
| CounterHandlers.ActionIs | ebpf-xdp/aggregate/aggregate_no_t.c:75-93 | a frame is sent back, swapped, exactly if it counts and fills a batch of 1024; dropped exactly if aggregate accepts it and does not send it back; all others pass, unchanged |
| CounterHandlers.AggregateServed | ebpf-xdp/aggregate/aggregate_no_t.c:52-64 | one add of the locally wrapped sum is as good as adding every word to the slot |
| CounterHandlers.Reply | ebpf-xdp/reduce/reduce_no_t.c:78-95 | the frame is swapped and returned when the batch is full, and is otherwise left alone |
| CounterHandlers.ReduceMaps.Handle | ebpf-xdp/reduce/reduce_no_t.c:30-103 | maps, frame and action after one call, rejected frames included |
| CounterHandlers.HistogramMaps.CountValues | ebpf-xdp/histogram/histogram_no_t.c:57-69 | the loop adds to each bin the occurrences in the walked part, and says whether it reached the end |
| CounterHandlers.HistogramMaps.Handle | ebpf-xdp/histogram/histogram_no_t.c:28-104 | maps, frame and action after one call; a packet left early keeps what it added and does not move the counter |
| CounterHandlers.AggregateMaps.Handle | ebpf-xdp/aggregate/aggregate_no_t.c:25-101 | maps, frame and action after one call: the frame is dropped unless it completes a batch |
| CounterRuns.RunsOnMachine | ebpf-xdp/reduce/reduce_no_t.c:57-95 | handler calls one after another are a run of the machine on one CPU, so every result about the machine applies |
| CounterRuns.OneReplyPerBatch | ebpf-xdp/aggregate/aggregate_no_t.c:67-90 | after any number of frames the counter is the number counted modulo 2^32, and the number of replies is that number divided by 1024, also past wrap-around |
| CounterRuns.AggregateSum | ebpf-xdp/aggregate/aggregate_no_t.c:52-64 | rxaggr is the wrapping sum of all words of all accepted frames |
| CounterReplies.UndisturbedReplies | ebpf-xdp/aggregate/aggregate_no_t.c:71-75 | the special case in which no CPU ever increments the counter between another's increment and second read: one reply per full batch of completed packets, in every state of the run |
| CounterReplies.NoneBeforeBatch | ebpf-xdp/aggregate/aggregate_no_t.c:71-75 | in any run, no reply is sent before the counter reaches a batch |
| CounterReplies.DoubledReply | ebpf-xdp/aggregate/aggregate_no_t.c:71-75 | a run of two CPUs over 1024 packets with two replies |
| CounterReplies.LostReply | ebpf-xdp/aggregate/aggregate_no_t.c:71-75 | a run of two CPUs over 1025 packets with none |
| ReplyBalance.Balance | ebpf-xdp/aggregate/aggregate_no_t.c:71-75 | in every run, replies sent, missed and pending make up the full batches and the premature replies |
| ReplyBalance.RepliesExact | ebpf-xdp/aggregate/aggregate_no_t.c:71-75 | for every run that ends with all CPUs idle: one reply per full batch if and only if, over all multiples of the batch size, as many CPUs stood between increment and second read when it was reached as when it was left |
| ReplyBalance.QuietReplies | ebpf-xdp/aggregate/aggregate_no_t.c:71-75 | in particular if none stood there at those increments; all other increments may fall anywhere |
| ReplyBalance.BatchReplies | ebpf-xdp/aggregate/aggregate_no_t.c:71-75 | for every batch of every run: the number of its replies, which is one if and only if as many CPUs stand between increment and second read when the multiple is left as when it is reached |
| ReplyBalance.NoOtherReplies | ebpf-xdp/aggregate/aggregate_no_t.c:71-75 | no reply is sent while the counter is not at a multiple |
| ReplyBalance.ReplyCountIs | ebpf-xdp/aggregate/aggregate_no_t.c:71-75 | the replies of a run are the sum over its steps, so over its batches |
| Sdbm.PassIs | ebpf-xdp/loadbalancing/loadbalancing.c:10 | the wrapping shifts, additions and subtraction of one pass amount to 65599 times the hash plus the character, wrapped once |
| Sdbm.HashOne | ebpf-xdp/loadbalancing/loadbalancing.c:7-13 | a one-character word hashes to its character |
| Sdbm.HashNext | ebpf-xdp/loadbalancing/loadbalancing.c:10 | one more character: 65599 times the hash so far plus the character, wrapped |
| Sdbm.Sdbm | ebpf-xdp/loadbalancing/loadbalancing.c:7-13 | the loop computes the polynomial of the characters in 65599, wrapped to 32 bits, for every length, a negative one included |
| Sdbm.HashConcat | ebpf-xdp/loadbalancing/loadbalancing.c:7-13 | the hash of a concatenation is the hash of the first part times 65599 to the length of the second, plus the hash of the second, wrapped |

## Left out

- ZucCipher.Cipher.Initialization: passes cell 0 for the variable that the C routine never assigns; ZucStart covers the other values it may hold.
- ZucCipher.Cipher.EEA3: the C allocation can fail and the PsPIN copy takes its key stream buffer from a scratchpad of fixed size; neither limit is modelled. Bits past LENGTH in the last word are encrypted like the others, as in the code.
- The sixteen C variables LFSR_S0 to LFSR_S15 are one field of sixteen cells, so the order of the sixteen assignments in the shift is not modelled.
- The rule of RFC 768 that a computed zero is sent as all ones: the code does not implement it.
- KvCache.EvictionOk: which keys an LRU map drops is left open, so recency order is not modelled, nor is a failing map update.
- CounterRuns.OneReplyPerBatch: is about handlers run one after another; CounterReplies is about interleaved ones.
- The machine of SharedCounters takes the local sum of aggregate and its one add as steps of the same loop; local passes touch nothing shared.
- The eBPF variant of EEA3, which has a key stream of one word, and the packet framing around ZUC in all three copies, whose offsets for copying back do not match the buffers passed.
- The timed variants of the eBPF programs, which overwrite payload words with timestamps, and the load balancer's choice of queue.
- DPDK port set-up, burst counters and callbacks, PsPIN message handlers, loaders, statistics, plots and the filter tables: foreign calls, input and output, or small finite domains.
