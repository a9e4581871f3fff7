# Verified models of isdn4linux

Dafny models of the byte-level protocol engines of isdn4linux, and proofs about them. Each engine is modelled in the
form its source has: classes with the fields of the C structures, methods with the loops of the C functions, and beside
them functions on values that say what the methods do and lemmas about whole runs.

| files | subject |
|---|---|
| `Bits.dfy` | bit strings, shift registers of fixed width, and the numbers they denote |
| `BsdTables.dfy`, `BsdHash.dfy`, `BsdProbing.dfy`, `BsdLockstep.dfy`, `BsdCodec.dfy`, `BsdRuns.dfy` | BSD-Compress (RFC 1977): the hash dictionary, its probe loops, the codec, and runs between two peers |
| `BsdWidths.dfy`, `BsdLzw.dfy` | what is on the wire: the width of every code, and that the codes are those of plain LZW |
| `BsdRatio.dfy`, `BsdChecks.dfy` | when a full dictionary is cleared, and when the peers part |
| `MpWire.dfy`, `MpSpec.dfy`, `MpReceiver.dfy`, `MpNetwork.dfy`, `MpPackets.dfy`, `MpWaiting.dfy` | multilink PPP (RFC 1990): headers, the receiver, the receiver at the end of lossy links, the bytes it delivers, and which complete packets it keeps waiting |
| `V110Frames.dfy`, `V110Lines.dfy`, `V110Stream.dfy`, `V110Codec.dfy`, `V110Format.dfy`, `V110Send.dfy`, `V110Link.dfy`, `V110Loss.dfy` | V.110 rate adaption: hunks, frames, the start/stop decoder, encoder and decoder, what is on the line, repeated calls of the encoder, end to end, and what the decoder does not hand up |
| `AdpcmPredictor.dfy`, `AdpcmCodec.dfy`, `AdpcmTracking.dfy` | ADPCM: predictor and quantiser, bit packing, two-party lockstep, and how the step follows the samples |
| `ReadQueue.dfy` | the receive queue with its doubled DLEs |
| `Ring.dfy` | the ring of a bundle's channels |
| `Dial.dfy`, `DialRuns.dfy`, `DialCounts.dfy`, `DialNumbers.dfy`, `DialLaws.dfy` | the dialling state machine, why it comes to rest, how often it dials, which numbers, and how long it waits |

`dafny verify dfyconfig.toml` verifies the project.

## What is modelled, and what was found

**BSD-Compress.** `BsdTables.Consistent` is the invariant of the open-addressing dictionary with lazy invalidation:
codes are bounded, every code in use points to one slot and is pointed back to, code chains lead downwards to a literal,
keys are distinct, and the probe sequence of every live key runs over live slots only. Under it a search behaves like a
map lookup and always ends, because the table sizes are primes larger than the number of codes. Compressor and
decompressor are proved against `Encode` and `Decode`, which work on bit strings; the two install the same strings at
different moments, and `Lockstep` shows that they meet again. What goes over the wire is stated without the tables:
`FrameFormat` and `EncodeWritten` give every code the least width that holds the codes in use at its place in the
packet, and `EncodeIsLzw` and `DecodeIsLzw` say that the codes are those of plain LZW with a list of strings. The sender
sends the longest string it has every time, and the receiver accepts exactly the frames whose codes are legal, whose
strings fit the buffer, and which end with less than a code, or with CLEAR and less than a byte. `PacketKeepsLockstep`
states exactly when the two dictionaries stay equal: if and only if the decisions of the two `bsd_check` calls agree.
They need not. The source demands that both peers compute the same ratio, but for a packet that does not compress the
sender bills the whole frame it has thrown away, and the receiver, which codes without a buffer, one byte at most; for a
compressed packet the sender bills two bytes more, the header (`SenderBillsHeader`). `FirstCheckIff` says which packets
part the peers, up to and at the first check that meets a full dictionary: exactly those that go out plain, leave the
dictionary full, bring the bytes that went in up to the sender's checkpoint, and have brought out more bytes than that.
It makes no difference whether the receiver checks after frames of its own accord or is the ABC build, which does not:
while no ratio is known and it has counted no more bytes than went in, the receiver never clears by itself.
`StaysAbreast` keeps these conditions over every packet that does not bring a check upon a full dictionary, and
`ClearedAbreast` restores them after an in-band CLEAR. `AgreeIff` is about all states of a run whose receiver checks
after frames, ratio known or not: `CheckIsExact` gives the decision as a comparison of whole numbers, and `RunKeepsTame`
shows that in a run of packets below 2^20 bytes no counter and no product of the check wraps around. `NewPeersPart` has
packets of any size from 256 bytes to below 2^20 with which two new peers part: packets of 1499 bytes, which an
interface can send (its mtu is 1500, drivers/isdn/isdn_net.c:2816), part them with the seventh. `accm` is a register of
32 bits.

**Multilink PPP.** Fragments carry true numbers in the model and 24 bits of them on the wire; all comparisons of the
source are shown to compare true numbers as long as the numbers in play span less than 2^23. One call of the receiver is
proved against the relation `MpSpec.Received`. `MpNetwork` puts that relation behind any number of in-order links that
lose whatever they like, and shows for every reachable state that delivery is exact, ordered and at most once, that
nothing is given up early, that nothing vanishes, and that the branches for late and misplaced fragments are not taken.
`MpPackets` says the same in bytes: of packets that are cut in any way, those that are delivered arrive byte for byte.
What it does not promise, because the code does not do it, is to hand on every complete packet at once.
`TakenIffUnbroken` says exactly which of the complete packets at hand one call takes: those that follow without a gap on
the first of them, if that is the next one, or was queued before and nothing older can precede it any more. So a packet
may stay queued after a discard (`DiscardLeavesPacket` has three fragments with which this happens), and a packet behind
a gap waits when one before it is taken. The first fragment to arrive stays queued in any case, because `mp->seq` is not
yet known: of a stream that arrives whole, nothing is handed on if and only if its first fragment arrives last, and
otherwise everything is (`AllUnlessFirstIsLast`, `LonePacketWaits`).

**V.110.** `EndToEnd` holds for the three keys, for any mixture of user data, idle and sync frames, and for any cut of
the aligned stream into packets. What the decoder hands up is trimmed with `skb_trim`, which never lengthens a packet: a
packet shorter than what it completes loses bytes. `HandedIffRoomy` gives the exact condition, which can be told from
the sizes of the segments and the cuts alone, and `FiveIsLeast` the least length from which on packets are safe: five
octets. For octets of any kind, not only those of an encoder, it is six (`SixIsLeast`). `AllIsSent` is about a sender
that calls the encoder again with what it has left: the calls come to an end, and all bytes arrive. A buffer below forty
octets takes nothing, so such a sender would never end (`TakesSomething`).

**ADPCM.** The bounds of value and step are inductive for each mode, and no product or sum of the encoder leaves 32
bits. The decoder reads ahead at most one byte and stops when its input is used up, so of a flushed stream it decodes
all codes but those that only the last byte completes, and none of the padding (`AdpcmCodec.EndToEnd`). `CatchesUp` says
what the adaption of the step is for: wherever value and step are, a sample that stays the same is met within 27, 15 or
13 samples. A sample that was predicted exactly is coded as a step down in the 4-bit mode (`ZeroIsEight`).

**Read queue, ring, dialler.** The reader's output is the input with every DLE doubled, whatever the sizes of buffers
and reads. The bundle stays a ring, and calls of `isdn_net_get_locked_lp` hand out each idle link once in ring order.
Dialling ends after a bounded number of ticks whatever messages come in between. Where the log message speaks of trying
all numbers `dialmax` times, the code dials the list `dialmax + 1` times, less the very last number (`DialsExactly`);
the model follows the code. The numbers are those of the list, in order, again and again (`DialledInOrder`,
`DialsTheList`). Its timers compare before they count, so a wait of n ticks takes n + 2 (`WaitsExactly`).

Times are unbounded integers, so `time_after` is plain comparison. A failed allocation is a parameter where the source
goes on after it (`alloc` of `Bundle.Receive`, a missing buffer of `Compress`, a capacity of zero of `Decompress`).
Lookup tables of the audio code and the conversion of its output are parameters.

## Model

| member | source | states |
|---|---|---|
| BsdTables.HashInRange | drivers/isdn/isdn_bsdcomp.c:170-173 | the initial hash of every code and byte lies inside the table, for every code size |
| BsdHash.HashIs | drivers/isdn/isdn_bsdcomp.c:170-173 | the byte is shifted as far as the table size allows and laid over the code with exclusive or |
| BsdHash.SiblingsApart | drivers/isdn/isdn_bsdcomp.c:170-173 | two bytes after the same code are never looked for in the same slot first |
| BsdHash.ProbesAre | drivers/isdn/isdn_bsdcomp.c:584-594 | probe j is j hash values further on round the table, or j slots for hash 0 |
| BsdTables.InstallFrame | drivers/isdn/isdn_bsdcomp.c:625-639 | taking over a code makes exactly one slot live and leaves every live slot as it was |
| BsdTables.InstallSound | drivers/isdn/isdn_bsdcomp.c:629-639 | after a code take-over every slot's code is still invalid or pointed back to by dict[code].cptr |
| BsdTables.InstallChained | drivers/isdn/isdn_bsdcomp.c:636-645 | code chains stay well founded, and the new code's string is its prefix's string and one byte |
| BsdTables.InstallDistinct | drivers/isdn/isdn_bsdcomp.c:636-639 | no two live slots hold the same key afterwards |
| BsdTables.InstallReachable | drivers/isdn/isdn_bsdcomp.c:625-639 | lazy invalidation and take-over never cut the probe sequence of a live key |
| BsdTables.ClearedConsistent | drivers/isdn/isdn_bsdcomp.c:185-195 | bsd_clear, which only resets max_ent and n_bits, keeps the whole dictionary invariant |
| BsdTables.FreshConsistent | drivers/isdn/isdn_bsdcomp.c:404-442 | bsd_init establishes it |
| BsdProbing.SizesArePrime | drivers/isdn/isdn_bsdcomp.c:327-342 | each table size is a prime, and larger than the largest code |
| BsdProbing.ProbesDiffer | drivers/isdn/isdn_bsdcomp.c:584-594 | a constant nonzero step modulo the table size meets no slot twice in one round |
| BsdProbing.SomeProbeIsDead | drivers/isdn/isdn_bsdcomp.c:590-600 | some probe meets a slot without a live code, so the loop ends without a safety counter |
| BsdProbing.SearchRefinesMap | drivers/isdn/isdn_bsdcomp.c:570-611 | probing for a pair ends at the slot of its one live code if the pair is in the dictionary, else at the first dead slot of its sequence |
| BsdTables.VacantIsFirstDead | drivers/isdn/isdn_bsdcomp.c:590-600 | where the compressor's search for a pair ends without finding it is the first dead slot of the sequence |
| BsdProbing.FirstDeadFound | drivers/isdn/isdn_bsdcomp.c:922-942 | the decompressor's search for a dead slot ends, and at a slot that is reached over live slots only |
| BsdProbing.InstallHolds | drivers/isdn/isdn_bsdcomp.c:625-639 | a code take-over adds exactly one pair to the map, under the next code, and removes none |
| BsdProbing.InstallConsistent | drivers/isdn/isdn_bsdcomp.c:614-639 | entering an absent pair where its search ended keeps the invariant |
| BsdLockstep.EncodeConsistent | drivers/isdn/isdn_bsdcomp.c:569-648 | coding any data keeps the invariant |
| BsdLockstep.GrowConsistent | drivers/isdn/isdn_bsdcomp.c:614-646 | a miss keeps the invariant and leaves a dictionary that holds what it held and, if there was code space left, the missed pair under the next code |
| BsdLockstep.AdvanceKeeps | drivers/isdn/isdn_bsdcomp.c:918-973 | the decompressor's entry for the string before keeps the tables sound and the code chains well founded, whatever was received, and uses one code if there is one |
| BsdLockstep.Lockstep | drivers/isdn/isdn_bsdcomp.c:786-973 | decoding what the compressor emits, from tables one entry behind, gives back the data and ends with the compressor's tables: KwKwK codes, width changes, CLEAR and padding included |
| BsdLockstep.PacketRoundTrip | drivers/isdn/isdn_bsdcomp.c:567-681 | one padded packet from equal tables decodes to the protocol byte and the data, with equal tables again and CLEAR where it was sent |
| BsdWidths.EncodeWritten | drivers/isdn/isdn_bsdcomp.c:498-526 | each code of a packet is sent in the least width, from nine bits on, that holds the codes in use at its place in the packet |
| BsdWidths.BetweenLaw | drivers/isdn/isdn_bsdcomp.c:676-681 | between packets the width is above nine bits only if the next entry needs it, and always enough for the next entry |
| BsdWidths.GrowWithin | drivers/isdn/isdn_bsdcomp.c:614-623 | after an entry within a packet the width is that of the largest code, and one code more is in use if there was one |
| BsdWidths.FrameFormat | drivers/isdn/isdn_bsdcomp.c:557-681 | a frame is 16 bits of sequence number, the codes in their widths, code 256 in the full width if the dictionary is cleared, and fewer than eight ones |
| BsdWidths.PacketKeepsBetween | drivers/isdn/isdn_bsdcomp.c:676-681 | the law of the width holds again after every packet, cleared or not |
| BsdWidths.HopKeepsBetween | drivers/isdn/isdn_bsdcomp.c:479-1000 | both ends of a link keep it, packet by packet |
| BsdLzw.EncodeIsLzw | drivers/isdn/isdn_bsdcomp.c:567-650 | the codes sent and the dictionary left are those of plain LZW with a list of strings: every code stands for the longest string there is |
| BsdLzw.DecodeIsLzw | drivers/isdn/isdn_bsdcomp.c:786-973 | a frame is read exactly as far as its codes, in the widths in which they are sent, are legal in plain LZW and fit the buffer; it is accepted if less than a code, or CLEAR and less than a byte, is left then, with the bytes and the dictionary of plain LZW, and is an error otherwise |
| BsdLzw.PacketReads | drivers/isdn/isdn_bsdcomp.c:786-973 | so is any packet that arrives between packets |
| BsdLzw.FirstStrings | drivers/isdn/isdn_bsdcomp.c:404-442 | a new or cleared dictionary has the single bytes and no other strings |
| BsdCodec.BsdDb.constructor | drivers/isdn/isdn_bsdcomp.c:320-442 | allocation and initialisation: sizes by number of bits, all slots invalid, lengths of the literals one |
| BsdCodec.BsdDb.Clear | drivers/isdn/isdn_bsdcomp.c:185-195 | bsd_clear: the dictionary is emptied by resetting max_ent, and the counters |
| BsdCodec.BsdDb.Check | drivers/isdn/isdn_bsdcomp.c:210-252 | bsd_check: counters aged and compared in 32 bits, and cleared only when the ratio no longer pays |
| BsdCodec.BsdDb.Find | drivers/isdn/isdn_bsdcomp.c:570-611 | the compressor's probe loop returns what the search on values finds |
| BsdCodec.BsdDb.FindFree | drivers/isdn/isdn_bsdcomp.c:922-942 | the decompressor's probe loop returns the first dead slot |
| BsdCodec.BsdDb.Enter | drivers/isdn/isdn_bsdcomp.c:625-639 | invalidation of the slot that had the code, and the take-over |
| BsdCodec.BsdDb.AddEntry | drivers/isdn/isdn_bsdcomp.c:614-646 | widening, entry and length of a new string |
| BsdCodec.Output | drivers/isdn/isdn_bsdcomp.c:498-526 | the OUTPUT macro appends a code to the bits sent; bytes for which the buffer has no room are lost |
| BsdCodec.BsdDb.EmitCodes | drivers/isdn/isdn_bsdcomp.c:567-650 | the coding loop emits exactly the bits of Encode and leaves its tables |
| BsdCodec.BsdDb.EndPacket | drivers/isdn/isdn_bsdcomp.c:659-681 | in-band CLEAR, one-padding of the dribble bits, and the width change at the packet boundary |
| BsdCodec.BsdDb.Compress | drivers/isdn/isdn_bsdcomp.c:479-705 | bsd_compress and bsd_incomp: the frame, clipped to its buffer, the tables, counters, sequence number and return value, and nothing for other protocols |
| BsdCodec.BsdDb.ExpandCode | drivers/isdn/isdn_bsdcomp.c:857-899 | following a code's chain fills exactly codelen bytes with its string, and the bad-chain exit is not taken |
| BsdCodec.BsdDb.TakeString | drivers/isdn/isdn_bsdcomp.c:846-973 | one received string, KwKwK or not, and the entry for the one before |
| BsdCodec.BsdDb.DecodeCodes | drivers/isdn/isdn_bsdcomp.c:786-973 | the decoding loop does what Decode says |
| BsdCodec.BsdDb.Decompress | drivers/isdn/isdn_bsdcomp.c:710-1000 | bsd_decompress: refusal out of sequence, errors exactly where Decode has them, else byte 0 and the decoded string, tables, counters and check |
| BsdCodec.LensGrow | drivers/isdn/isdn_bsdcomp.c:641-645 | lens[code] stays the length of the code's string when an entry is added |
| BsdCodec.CheckedWords | drivers/isdn/isdn_bsdcomp.c:210-252 | all counters stay 32-bit words |
| BsdRuns.PacketKeepsLockstep | drivers/isdn/isdn_bsdcomp.c:479-1000 | a packet between peers with equal tables arrives whole, compressed or not; sequence numbers stay equal, and the tables do if and only if the two clearing decisions agree |
| BsdRuns.LeftAloneIff | drivers/isdn/isdn_bsdcomp.c:537-547 | a packet goes out as it is and without a number if and only if its protocol is below 0x21, above 0xf9 or even |
| BsdRuns.CompressedIff | drivers/isdn/isdn_bsdcomp.c:670-693 | a frame is sent if and only if with header and last bits it is shorter than its packet |
| BsdRuns.RunRoundTrip | drivers/isdn/isdn_bsdcomp.c:479-1000 | over every run on which the decisions agree each packet arrives whole and the peers stay equal slot for slot |
| BsdRuns.CompressedRunAgrees | drivers/isdn/isdn_bsdcomp.c:980-994 | without the receiver's own check, runs of compressed packets never disagree |
| BsdRuns.FreshLinkReady | drivers/isdn/isdn_bsdcomp.c:404-442 | two initialised peers can start such a run |
| BsdRuns.SenderBillsHeader | drivers/isdn/isdn_bsdcomp.c:652-660 | the sender's byte count is the receiver's plus two for every compressed packet without CLEAR |
| BsdRuns.Transfer | drivers/isdn/isdn_ppp.c:2309-2449 | a compressor and a decompressor in step do with a packet what the run lemmas say: it arrives whole, and the dictionaries are equal afterwards if and only if the decisions agree |
| BsdRatio.FirstCheckIff | drivers/isdn/isdn_bsdcomp.c:210-252 | up to and at the first check that meets a full dictionary the two ends decide alike, in either build, unless a packet goes out plain, leaves the dictionary full, brings what went in up to the sender's checkpoint, and has brought out more than that; then only the sender clears |
| BsdRatio.StaysAbreast | drivers/isdn/isdn_bsdcomp.c:652-660 | any packet that does not bring a check upon a full dictionary leaves the counters, in either build, so that the next one falls under FirstCheckIff |
| BsdRatio.ClearedAbreast | drivers/isdn/isdn_bsdcomp.c:811-820 | so does every frame with an in-band CLEAR, whatever the counters were |
| BsdRatio.NewPeersPart | drivers/isdn/isdn_bsdcomp.c:479-705 | packets of n bytes, for any n from 256 to below 2^20, of which all arrive, and with which two new peers stay together until the first check is due and have different dictionaries then |
| BsdChecks.CheckIsExact | drivers/isdn/isdn_bsdcomp.c:210-252 | for all counters of a run: a due check clears exactly a full dictionary whose ratio, counts shrunk to three quarters if either reaches 2^23 - 1, is below one or the one before; otherwise it notes the ratio in 256ths |
| BsdChecks.NoOverflow | drivers/isdn/isdn_bsdcomp.c:225-237 | nothing in the check leaves 32 bits |
| BsdChecks.BilledIs | drivers/isdn/isdn_bsdcomp.c:652-660 | what the sender bills for a packet, and what the receiver does |
| BsdChecks.AgreeIff | drivers/isdn/isdn_bsdcomp.c:210-252 | in every state of a run the two ends decide alike about a packet if and only if the dictionary has room, both ratios are worse or neither, or a frame carries CLEAR |
| BsdChecks.RunKeepsTame | drivers/isdn/isdn_bsdcomp.c:210-252 | over every run the counters of both ends stay such that this holds |
| MpWire.ComparesTrueNumbers | drivers/isdn/isdn_ppp.c:1338-1342 | MP_LT and MP_LE compare true numbers that are less than 2^23 apart |
| MpWire.HeaderRoundTrip | drivers/isdn/isdn_ppp.c:1255-1278 | the long header returns every number; the short one every number within 2048 ahead of the link's last, across every wrap |
| MpWire.HeaderFormat | drivers/isdn/isdn_ppp.c:1255-1278 | the bits of both headers: the flags, zeros, and 12 or 24 bits of the number |
| MpReceiver.Bundle.constructor | drivers/isdn/isdn_ppp.c:1369-1390 | isdn_ppp_mp_init: an empty queue, mp->seq LONG_MAX, every link at 0 |
| MpReceiver.Bundle.LowMark | drivers/isdn/isdn_ppp.c:1449-1465 | the minimum over all links, but not below mp->seq |
| MpReceiver.Bundle.Enqueue | drivers/isdn/isdn_ppp.c:1468-1473 | a fragment in front of the queue is put there at once |
| MpReceiver.Bundle.PlaceNew | drivers/isdn/isdn_ppp.c:1502-1517 | duplicates are dropped, and the list stays in increasing order on insertion |
| MpReceiver.Bundle.FindStart | drivers/isdn/isdn_ppp.c:1519-1542 | a start is the list head; the misplaced-start branch is not taken; a freed fragment cannot be completed |
| MpReceiver.Bundle.TakePacket | drivers/isdn/isdn_ppp.c:1548-1580 | a taken run is handed up as the concatenation of its data; the END without BEGIN branch is not taken |
| MpReceiver.Bundle.MoveOn | drivers/isdn/isdn_ppp.c:1571-1602 | the cursor goes on, a run that breaks off below the mark is discarded, and the measure of the loop falls |
| MpReceiver.Bundle.Traverse | drivers/isdn/isdn_ppp.c:1500-1603 | the loop ends with the list in order, all fragments accounted for and every packet taken exact |
| MpReceiver.Bundle.Spill | drivers/isdn/isdn_ppp.c:1607-1616 | the overflow is dropped from the head until sixteen fragments are left |
| MpReceiver.Bundle.Receive | drivers/isdn/isdn_ppp.c:1401-1618 | one call does what Received says, hands up the payloads of the packets taken, keeps frames equal to the list's length and at most 16, and never takes the first-packet branch |
| MpReceiver.HeadDoomed | drivers/isdn/isdn_ppp.c:1529-1541 | a fragment below the mark that begins no packet belongs to a packet with a fragment that is not at hand and that no link can bring |
| MpReceiver.RunDoomed | drivers/isdn/isdn_ppp.c:1584-1596 | so do all fragments of a run that breaks off below the mark |
| MpReceiver.RunHasNoBegin | drivers/isdn/isdn_ppp.c:1519-1528 | no fragment of an unbroken run but the first carries BEGIN |
| MpNetwork.DeliveryIsExact | drivers/isdn/isdn_ppp.c:1401-1618 | in every reachable state the packets taken are whole packets of the sender, in sending order, each at most once, of fragments that arrived |
| MpNetwork.NeverGivesUpEarly | drivers/isdn/isdn_ppp.c:1529-1596 | a fragment is freed only if a link lost a fragment of its packet or the queue overflowed one |
| MpNetwork.NeverLate | drivers/isdn/isdn_ppp.c:1434-1447 | no fragment under way is older than what was processed: the late-fragment branch is not taken |
| MpNetwork.NothingVanishes | drivers/isdn/isdn_ppp.c:1401-1730 | a fragment that was sent is on a link, lost, queued, in a taken packet, freed or dropped, and only one of these |
| MpPackets.StreamIsWellFormed | drivers/isdn/isdn_ppp.c:1255-1278 | packets cut into any consecutive pieces make a conforming stream |
| MpPackets.HandedUp | drivers/isdn/isdn_ppp.c:1678-1722 | what one call hands up are packets of the sender, byte for byte, in its order, those for which there was a buffer |
| MpPackets.BytesDelivered | drivers/isdn/isdn_ppp.c:1401-1722 | in every reachable state what was taken are the sender's packets, byte for byte, in order and none twice |
| MpPackets.SixteenWait | drivers/isdn/isdn_ppp.c:1607-1616 | nothing is dropped as long as sixteen fragments suffice, and otherwise all but the latest sixteen |
| MpWaiting.AllUnlessFirstIsLast | drivers/isdn/isdn_ppp.c:1475-1603 | of a stream that has arrived whole, nothing has been handed on if and only if its first fragment arrived last, and otherwise everything has |
| MpWaiting.TakenIffUnbroken | drivers/isdn/isdn_ppp.c:1500-1603 | a complete packet at hand is taken by a call if and only if all from the first complete packet to its end is at hand and that one is the next, or was queued and nothing older can precede it; otherwise it stays queued whole |
| MpWaiting.CompleteHeadIsTaken | drivers/isdn/isdn_ppp.c:1519-1563 | a complete packet at the head that nothing older can precede is taken by the next call that does not insert before it |
| MpWaiting.DiscardLeavesPacket | drivers/isdn/isdn_ppp.c:1584-1603 | of three fragments the second is lost: when the third arrives, the receiver discards the first and leaves the third, a complete packet, in the queue |
| MpWaiting.LonePacketWaits | drivers/isdn/isdn_ppp.c:1475-1500 | a lone packet is never taken, in any run |
| V110Frames.FlipClosed | drivers/isdn/isdn_v110.c:58-82 | FlipBits exchanges mirrored places within hunks of 2, 4 and 8 bits |
| V110Frames.JoinHunks | drivers/isdn/isdn_v110.c:309-314 | the line the decoder joins from its octets is the one the encoder spread over them, for the three keys |
| V110Lines.MatrixBits | drivers/isdn/isdn_v110.c:339-393 | the data bits of the frames are the start/stop bit string, filled up with ones |
| V110Lines.MatrixDecodes | drivers/isdn/isdn_v110.c:197-255 | DecodeMatrix inverts EncodeMatrix on every byte string and ends in its idle state |
| V110Stream.PrecodedFrames | drivers/isdn/isdn_v110.c:33-56 | the idle and sync frames are frames of ones, cut into hunks, for each key |
| V110Stream.JoinSpread | drivers/isdn/isdn_v110.c:309-314 | joining inverts spreading over whole streams |
| V110Stream.FlipBits | drivers/isdn/isdn_v110.c:64-82 | the nested loops compute the flip |
| V110Stream.FillLine | drivers/isdn/isdn_v110.c:357-390 | the bits of one line, and ones behind the last bit of the data |
| V110Stream.EncodeMatrix | drivers/isdn/isdn_v110.c:332-415 | lines as far as they fit, and all of them, ten for every 48 bits begun, when a frame more would fit |
| V110Stream.FillFrame | drivers/isdn/isdn_v110.c:392-413 | the last frame is filled up to its tenth line |
| V110Codec.NeverFull | drivers/isdn/isdn_v110.c:483-490 | the bytes one call takes always fit: neither buffer-full exit is reached |
| V110Codec.DecodedCount | drivers/isdn/isdn_v110.c:226-249 | the start/stop decoder gives at most a byte for nine bits |
| V110Codec.Stream.constructor | drivers/isdn/isdn_v110.c:88-132 | isdn_v110_open counts the key's bits and starts the decoder idle |
| V110Codec.Stream.Encode | drivers/isdn/isdn_v110.c:457-523 | how many bytes are taken, and the hunks of exactly their frames; an idle frame for no bytes |
| V110Codec.Stream.DecodeMatrix | drivers/isdn/isdn_v110.c:197-255 | the start/stop decoder over the data bits of the lines, with its state kept from call to call |
| V110Codec.Stream.ValidHeaderBytes | drivers/isdn/isdn_v110.c:158-167 | the number of clean octets, and whether they are a header |
| V110Codec.Stream.SyncHeader | drivers/isdn/isdn_v110.c:171-189 | the buffer from the next octet on that may begin a header |
| V110Codec.Stream.FindHeader | drivers/isdn/isdn_v110.c:294-302 | the resynchronising loop |
| V110Codec.Stream.JoinLines | drivers/isdn/isdn_v110.c:309-314 | the lines of the whole frames in the buffer |
| V110Codec.Stream.Decode | drivers/isdn/isdn_v110.c:262-326 | the new state and the packet handed up, which is never longer than the one that came in |
| V110Format.LineShape | drivers/isdn/isdn_v110.c:332-415 | the first line of a frame is zero, the sixth has the E bits, and each other one has a leading one and a trailing zero |
| V110Format.FewestFrames | drivers/isdn/isdn_v110.c:332-415 | as many frames of 48 bits as eleven bits a byte need, and no more |
| V110Format.ByteOnLine | drivers/isdn/isdn_v110.c:339-355 | two ones, a zero, and the byte from its lowest bit |
| V110Format.WithoutData | drivers/isdn/isdn_v110.c:33-56 | the lines of the idle and the sync frames |
| V110Format.CleanIs | drivers/isdn/isdn_v110.c:158-167 | an octet may begin a header if none of the bits that carry the stream is set |
| V110Format.FirstHeader | drivers/isdn/isdn_v110.c:294-302 | resynchronisation passes over no header, and stops at one or where the rest is too short for one |
| V110Format.NoiseIsSkipped | drivers/isdn/isdn_v110.c:283-289 | a decoder that holds nothing decodes the same with and without octets in front that can begin no header |
| V110Send.TakenLaw | drivers/isdn/isdn_v110.c:483-490 | all bytes are taken if and only if the buffer has forty octets for every four of them, and otherwise one for every forty octets |
| V110Send.TakesSomething | drivers/isdn/isdn_v110.c:483-490 | nothing is taken of what there is if and only if the buffer has less than forty octets |
| V110Send.CallsAreFew | drivers/isdn/isdn_v110.c:457-523 | a sender that calls again with what is left is done after few calls |
| V110Send.AllIsSent | drivers/isdn/isdn_v110.c:457-523 | and what the calls give, cut in any way, decodes to all of its bytes |
| V110Link.LinesDecode | drivers/isdn/isdn_v110.c:197-255 | the lines of user data, idle and sync frames in any order decode to the user data |
| V110Link.RunIsAfter | drivers/isdn/isdn_v110.c:262-326 | whatever the cut of an aligned stream into packets, the whole frames so far are decoded and the rest is kept |
| V110Link.EndToEnd | drivers/isdn/isdn_v110.c:262-523 | for each key, any segments and any cut, what is decoded is what the users gave, and nothing is left over |
| V110Link.SoFar | drivers/isdn/isdn_v110.c:262-326 | at every moment before the end it is a prefix of that |
| V110Loss.FramesDecode | drivers/isdn/isdn_v110.c:197-255 | the first f frames of a stream decode to as many bytes as their bits complete, eleven of 48 a byte in each segment |
| V110Loss.HandedIffRoomy | drivers/isdn/isdn_v110.c:318-325 | everything decoded is handed up if and only if no packet ends frames that complete more bytes than it has octets, told from the segments and the cuts |
| V110Loss.LongPacketsLoseNothing | drivers/isdn/isdn_v110.c:318-325 | packets of six octets or more lose nothing, whatever they carry |
| V110Loss.SixIsLeast | drivers/isdn/isdn_v110.c:318-325 | packets of at least k octets of any kind are safe if and only if k is six or more |
| V110Loss.LastOctetsAlone | drivers/isdn/isdn_v110.c:318-325 | when the last few octets of a user's frames come alone, bytes are lost if and only if the last frame completes more bytes than that |
| V110Loss.FiveIsLeast | drivers/isdn/isdn_v110.c:318-325 | packets of at least k octets are safe, however any stream is cut, if and only if k is five or more |
| AdpcmPredictor.Quantise | drivers/isdn/isdn_audio.c:435-452 | the quantising loop gives the code of the sample |
| AdpcmPredictor.StepsAre | drivers/isdn/isdn_audio.c:447-450 | the loop finds the interval of one step in which the difference lies, or the last one |
| AdpcmPredictor.CodeInRange | drivers/isdn/isdn_audio.c:451-452 | a code fits its bits, and in the 4-bit mode is never 0 |
| AdpcmPredictor.MoveUp | drivers/isdn/isdn_audio.c:457-462 | a positive code moves the value up by half a step more than its magnitude, rounded up, and adapts the step |
| AdpcmPredictor.MoveDown | drivers/isdn/isdn_audio.c:457-462 | the same downwards, with the arithmetic shift of a negative product |
| AdpcmPredictor.StepBounded | drivers/isdn/isdn_audio.c:425-467 | the bounds on value and step of each mode are inductive, for every sample |
| AdpcmPredictor.EncodedBounded | drivers/isdn/isdn_audio.c:425-467 | the encoder's state is bounded after any input of any length |
| AdpcmPredictor.NoOverflow | drivers/isdn/isdn_audio.c:457-462 | no difference, product or sum of a step leaves 32 bits, the sum of value and move included |
| AdpcmTracking.StepLaw | drivers/isdn/isdn_audio.c:460-462 | the new step is a fixed number of 16384ths of the old one for each mode and magnitude, to the nearest whole number, and five at least |
| AdpcmTracking.FactorsAre | drivers/isdn/isdn_audio.c:308-313 | those numbers |
| AdpcmTracking.StepGrows | drivers/isdn/isdn_audio.c:460-462 | neither a greater magnitude nor a greater step leaves a smaller one |
| AdpcmTracking.EndsOfScale | drivers/isdn/isdn_audio.c:460-462 | the greatest magnitude makes every step longer, the least makes none longer |
| AdpcmTracking.ZeroIsEight | drivers/isdn/isdn_audio.c:451-452 | a sample that was predicted exactly is coded as zero, but as eight in the 4-bit mode |
| AdpcmTracking.ResetLaw | drivers/isdn/isdn_audio.c:392-407 | code 0 of the 4-bit mode moves the value up by two and leaves the least step; all other codes do what they do in the encoder |
| AdpcmTracking.OneSample | drivers/isdn/isdn_audio.c:435-467 | a sample is met to within half a step, or one and a half where code 0 is avoided, or the code is of the greatest magnitude and the value comes nearer by that much |
| AdpcmTracking.CatchesUp | drivers/isdn/isdn_audio.c:425-467 | a sample that stays the same is met within 27, 15 or 13 samples, whatever value and step were |
| AdpcmPredictor.Lockstep | drivers/isdn/isdn_audio.c:379-467 | after k codes the decoder's value and step are the encoder's after k samples, and so are all values it hands on |
| AdpcmCodec.State.constructor | drivers/isdn/isdn_audio.c:347-360 | isdn_audio_adpcm_init |
| AdpcmCodec.State.PutBits | drivers/isdn/isdn_audio.c:333-345 | bytes out and pending bits are the pending bits and the new ones |
| AdpcmCodec.State.GetBits | drivers/isdn/isdn_audio.c:320-331 | a code is the next bits of the pending ones and the byte read |
| AdpcmCodec.State.Flush | drivers/isdn/isdn_audio.c:414-422 | pending bits are filled up with zeros to one byte |
| AdpcmCodec.State.Encode | drivers/isdn/isdn_audio.c:424-467 | the packed codes of the samples, and the predictor's state |
| AdpcmCodec.State.Decode | drivers/isdn/isdn_audio.c:379-412 | which codes a call decodes, their values, and the bits it leaves |
| AdpcmCodec.AnyNumberOfCalls | drivers/isdn/isdn_audio.c:379-412 | state, codes and values depend on the bytes given so far and not on their split into calls |
| AdpcmCodec.CodesUnique | drivers/isdn/isdn_audio.c:320-331 | codes can be read off their bits in one way only |
| AdpcmCodec.EndToEnd | drivers/isdn/isdn_audio.c:320-467 | of a flushed stream the decoder has, whatever the split, exactly the encoder's first codes and values, as many as the last byte allows, and never reaches the padding |
| ReadQueue.Channel.Arrive | drivers/isdn/isdn_tty.c:277-286 | a buffer is queued with its exact DLE count, and rcvcount grows by the bytes it will give |
| ReadQueue.Channel.TakeEscaped | drivers/isdn/isdn_common.c:827-849 | the doubling loop over one buffer |
| ReadQueue.Channel.Read | drivers/isdn/isdn_common.c:799-895 | a read gives the next bytes owed, exactly as many as it may, and rcvcount stays the number of bytes owed |
| ReadQueue.NothingLost | drivers/isdn/isdn_common.c:799-895 | over any interleaving of arrivals and reads, output and what is owed make up the input with every DLE doubled |
| ReadQueue.OutputIsPrefix | drivers/isdn/isdn_common.c:799-895 | the output is a prefix of that, and lags by one pending DLE at most when the queue is empty |
| ReadQueue.SizesDoNotMatter | drivers/isdn/isdn_common.c:799-895 | two readers of the same bytes see the same, whatever the sizes of buffers and reads |
| ReadQueue.ListenerHears | drivers/isdn/isdn_common.c:799-895 | at every moment the output is made of pairs of 0x10 and other bytes, and what a listener hears and what is queued are the input |
| Ring.NetDev.Add | drivers/isdn/isdn_net.h:95-110 | the new channel becomes the first of the ring; next and last stay inverse |
| Ring.NetDev.Remove | drivers/isdn/isdn_net.h:114-129 | the ring without the channel, which is alone afterwards; removing it again changes nothing; a lone channel stays |
| Ring.NetDev.FindIdle | drivers/isdn/isdn_net.h:74-87 | the search holds one lock at a time, and none when it has been round |
| Ring.NetDev.GetLocked | drivers/isdn/isdn_net.h:67-91 | the first idle channel with exactly its xmit_lock added, or null and no lock; the next call begins behind it |
| Ring.NetDev.Transmit | drivers/isdn/isdn_net.h:49-91 | a frame goes to a link with less than two frames outstanding, and to none if and only if all have two |
| Ring.PickIs | drivers/isdn/isdn_net.h:67-91 | null if and only if all are busy, otherwise an idle member, and the members stay the same |
| Ring.EachOnce | drivers/isdn/isdn_net.h:67-91 | as many calls as there are idle channels hand out each once, in ring order; with none busy, once round the ring |
| Dial.Dialler.DialInterface | drivers/isdn/isdn_net.c:742-1133 | the switch over the dial state, falling through from 1 to 2 to 3: new state, commands, and whether the timer is needed |
| Dial.Dialler.Dial3 | drivers/isdn/isdn_net.c:866-1032 | state 3: suppression, leased lines, timeout, the next number and the retries |
| Dial.Dialler.Wait | drivers/isdn/isdn_net.c:1033-1129 | states 4 to 12 |
| Dial.Dialler.NetDial | drivers/isdn/isdn_net.c:726-1136 | isdn_net_dial over all interfaces, and the timer request at its end |
| Dial.Dialler.NetHangup | drivers/isdn/isdn_net.c:1141-1192 | isdn_net_hangup: the connected slaves first, then state 0 |
| Dial.Dialler.StatCallback | drivers/isdn/isdn_net.c:524-714 | what status messages do to the dial state |
| DialRuns.AdvanceLeft | drivers/isdn/isdn_net.c:925-941 | trying a number leaves one less, or none and the interface hangs up without a DIAL |
| DialRuns.TickProgress | drivers/isdn/isdn_net.c:742-1133 | every tick of an interface not at rest hangs up or brings it nearer to rest and asks for the timer, and every DIAL is one less to come |
| DialRuns.StatusProgress | drivers/isdn/isdn_net.c:546-694 | no status message brings it further from rest or lets it dial more |
| DialRuns.HangupProgress | drivers/isdn/isdn_net.c:1141-1192 | hanging up brings interfaces to rest only, and dials nothing |
| DialRuns.DiallingEnds | drivers/isdn/isdn_net.c:726-1136 | after as many ticks as its start allows an interface is at rest, whatever messages came in between |
| DialRuns.DialsAreBounded | drivers/isdn/isdn_net.c:925-941 | a call request for n numbers sends at most n times dialmax + 1, less one, DIAL commands, whatever messages come in |
| DialCounts.DialsExactly | drivers/isdn/isdn_net.c:925-941 | when nobody answers it sends exactly so many |
| DialNumbers.DialledInOrder | drivers/isdn/isdn_net.c:924-941 | in any run the j-th number that a call request dials is number j of its list, taken round and round |
| DialNumbers.DialsTheList | drivers/isdn/isdn_net.c:924-941 | when nobody answers it dials exactly its list, dialmax + 1 times round, less the last number |
| DialLaws.DialsIff | drivers/isdn/isdn_net.c:866-941 | the current number is dialled if and only if dialling is allowed, it is not a leased line, its time is not over and it is not the last one of the last round |
| DialLaws.TimeIsOver | drivers/isdn/isdn_net.c:914-922 | when the time is over it hangs up, and has to wait |
| DialLaws.TriesAreOver | drivers/isdn/isdn_net.c:925-941 | when the tries are over it hangs up, and has to wait if no time was set |
| DialLaws.TimeBegins | drivers/isdn/isdn_net.c:803-807 | the time for dialling begins with the call request, unless an earlier one is still within its times |
| DialLaws.AfterDialling | drivers/isdn/isdn_net.c:1008-1027 | after dialling it waits for the answer, or for the callback it has asked for |
| DialLaws.WaitsExactly | drivers/isdn/isdn_net.c:1033-1129 | a wait takes two ticks more than its limit, and where it leads |
| DialLaws.IncomingWaits | drivers/isdn/isdn_net.c:1095-1105 | so does the wait of an incoming call, which is hung up then |
| DialLaws.CallbackHangsUp | drivers/isdn/isdn_net.c:1112-1127 | the line is hung up for a callback after just that time |
| DialLaws.AnsweredCall | drivers/isdn/isdn_net.c:546-694 | an answered call: one tick that asks for the B channel, and the interface is at rest |
| DialLaws.IncomingCall | drivers/isdn/isdn_net.c:546-694 | an incoming call: one tick sets up the line, one asks for the B channel |
| DialLaws.MessagesMove | drivers/isdn/isdn_net.c:546-694 | what each message does in each state |
| DialLaws.HangupTakesSlaves | drivers/isdn/isdn_net.c:1141-1192 | the connected slaves are hung up first, each before its master, and no other interface is touched |
| DialRuns.TimerStays | drivers/isdn/isdn_net.c:1135 | the dial timer stays requested while any interface is not at rest |

## Left out

- BsdCodec.BsdDb.Decompress: after a code two above the newest, which the checks of the code let through and no compressor sends, the contract only says that the tables stay sound; code chains may be broken then.
- BsdCodec.BsdDb.Compress: the statistics for packets (compressed and incompressible counts) are not kept; only the counters that bsd_check reads are.
- MpReceiver.Bundle.Receive: requires numbers that span less than 2^23 and short headers within 2048 ahead of the link's last number; for other senders the branch for misplaced starts does not repair the list.
- MpReceiver.Bundle.Traverse: of the statistics only the drops of late fragments, the overflows and the longest queue are stated; seqerrs is never counted for conforming senders.
- V110Codec.Stream.Decode: the output is a buffer of its own, and the leftover and the packet together have at most 1024 octets; the copies of overlapping memory are taken as memmove; a failed allocation of the line buffer is not modelled.
- V110Codec.Stream.Encode: a failed allocation, and the size of the buffer for the idle frame of an empty packet, are not modelled.
- V110Link.EndToEnd: streams start frame-aligned, or after octets that can begin no header (V110Format.NoiseIsSkipped); from other octets the decoder finds the first header there is (V110Format.FirstHeader), which need not be that of a frame.
- AdpcmPredictor.Lockstep: for one stream without a flush in between; a decoder that goes on after flush padding meets code 0.
- AdpcmCodec.State.PutBits: the register is a word of 32 bits without sign, where the source shifts a signed int.
- Ring.NetDev.GetLocked: the xmit_locks held by the caller are a set; spinning for a lock that another processor holds, and the queue lock, are not modelled.
- ReadQueue.Channel.Read: the flag bytes fp, sleeping, and the lock of a buffer are not modelled; raw control messages queued with a zero DLE count are not covered.
- DialCounts.DialsExactly: for an interface without a limit of time for dialling, and not the slave of another one.
- BsdRatio.FirstCheckIff: about checks up to the first one since a clearing that meets a full dictionary, while at most 2^22 bytes have been counted; BsdChecks.AgreeIff is about all others.
- BsdChecks.AgreeIff: for packets below 2^20 bytes and the build whose receiver checks after frames too; a receiver that does not may count past 32 bits, and its decisions are those of CheckRatio on the wrapped counters.
- DialRuns.DialsAreBounded: for lists without LEASED numbers, which never consume a retry.
- Dial.Dialler.DialInterface: idle and charge timers, usage tables and messages to the user are not modelled; neither are the parts of the ABC build.
- The ioctl and tty layers, device and module glue, hardware access, `isdn_dwabc.c`, `isdn_x25iface.c`, fax and AT commands are not part of this model.
- The lookup tables of the audio code and the conversion of decoded values to mu-law are parameters; values outside 16 bits are not converted faithfully by the code.
