# canforge, modelled and proved in Dafny

canforge reads, writes, times and simulates traffic on CAN buses. This project models the parts of it that
compute rather than talk to the outside world, and proves of each what it is there to do:

* **DEFLATE** (`Huffman`, `BitReader`, `Deflate`, `DeflateParse`, `DeflateStream`, `Inflate`, `FixedCodes`,
  `KnownStreams`): the format of sections 3.2.2 to 3.2.7 of RFC 1951 as an encoder specification, and the decompressor
  proved to succeed on exactly the data that begins with an encoding of a valid list of blocks, with their expansion as
  result; the codes and tables of those sections as numbers.
* **Signals** (`Words`, `Signal`, `SignalCodec`, `SignalPlaces`, `Overlap`): the word-at-a-time coder and the
  bit-at-a-time one proved against one description of where the bits of a signal lie, in both byte orders and over
  nine-byte spans, and that against the bits counted off on the wire; round trips, and writes of disjoint signals that
  commute.
* **The virtual bus** (`Frame`, `Timing`, `TimingRules`, `Arbitration`, `Medium`, `MediumSteps`, `MediumRuns`,
  `VirtualBus`): the medium as a state machine, the objects proved to follow it, arbitration keys against bit-serial
  wired-AND arbitration, independence of how the clock is stepped, and what every run keeps.
* **ISO-TP** (`IsoTp`, `StMin`, `IsoTpBytes`, `IsoTpFrames`, `IsoTpLink`, `IsoTpCount`, `IsoTpWindow`, `IsoTpAliasing`,
  `IsoTpTimed`, `IsoTpCompletion`, `IsoTpReceiverFirst`): sender, link and receiver composed; lossy, lossless and timed
  runs.
* **UDS** (`Uds`, `UdsSteps`, `UdsServices`, `UdsSecurity`, `UdsRuns`, `UdsLimits`, `UdsClient`): the server's request
  handler, service by service, what every request sequence keeps, what it fails to keep and exactly
  when, and the client's flash sequence against it.
* **DBC files** (`Lexer`, `LexerRules`, `Glyphs`, `DbcWriter`, `DbcText`, `DbcParser`, `DbcRules`, `WrittenDbc`,
  `DbcReading`, `DbcPreamble`, `DbcRoundTrip`, `Encoding`, `Utf8Rules`, `LineEnds`, `Sources`, `DbcStrings`, `DbcAsRead`,
  `DbcFile`): writer, scanner and parser of the preamble, of messages, signals and extended multiplexing, and the round
  trip from a database through the bytes of a file and back.
* **Bit stuffing** (`Stuffing`), **nested multiplexing** (`Multiplexing`, `MuxRules`) and **candump lines** (`Text`,
  `Candump`, `CandumpText`).

Each component has a value-level specification; the code that changes things step by step is written as methods
with loops on arrays and objects, and each such method is proved equal to the specification function. The theorems
are about the specification, and a second set of them ties it to numbers, bits, bytes and characters that are written
down without its functions: `SignalPlaces`, `FixedCodes`, `KnownStreams`, `StMin`, `IsoTpBytes`, `UdsServices`,
`UdsSecurity`, `MediumSteps`, `TimingRules`, `MuxRules`, `DbcText`, `DbcRules`, `LexerRules`, `Utf8Rules` and `CandumpText`.

What the proofs found about the code:

* The comment in `Huffman::build` says an incomplete code is rejected; the code rejects only over-subscribed ones
  (`Huffman.Build`, `Huffman.IncompleteIsUsable`).
* In a compressed block the size ceiling is strict, for the end-of-block symbol too; a stored block may reach it
  (`Deflate.Block.Fits`).
* `ns_to_st_min` rounds up, but its clamp turns a time between 900 microseconds and a millisecond into a byte that stands
  for less: the byte stands for at least the time asked for exactly up to 900 microseconds and from one to 127
  milliseconds (`StMin.RoundsUpExactly`).
* `max_receive_length` is not consulted for Single Frames, so a message above it can end Ok on both sides, exactly
  when it needs no First Frame (`IsoTpWindow.LimitIsForFirstFrames`).
* Polled receiver first, two sides that keep to their times by a whole tick still end in an N_Cr timeout exactly when
  STmin is zero, a tick is as long as N_Cr and some block holds two Consecutive Frames (`IsoTpReceiverFirst.TimesOutExactly`).
* On a link that loses frames the receiver's bytes can stop being a prefix of the message: exactly when blocks are
  unlimited or longer than 16 frames and the message takes more than 16 Consecutive Frames (`IsoTpAliasing.PrefixExactly`).
* A RequestDownload that is refused as out of range still replaces the address and size of a download under way
  (`UdsRuns.RefusedAnnouncement`, `UdsLimits.RefusedAnnouncementMatters`). Blocks before and after one make the checksum
  routine read past the end of flash; without one that is impossible (`UdsLimits.PastFlashExactly`,
  `UdsLimits.NeverPastFlash`).
* The range check of RequestDownload wraps at 32 bits, so an accepted region need not fit flash
  (`UdsRuns.AcceptedFits`, `UdsRuns.AcceptedNeedNotFit`).
* The checksum routine sums from the start of flash wherever the download went: its answer is right for every content
  exactly when that is the start, or the download empty (`UdsLimits.ChecksumIsRight`).
* Going back to the default session in the middle of a download locks the server but leaves the download open: it
  still writes flash (`UdsRuns.LockedWhileActive`, `UdsLimits.LockedServerWrites`).
* Repeating the block just written is idempotent except after block 0xFF (`UdsRuns.RepeatedBlock`).
* The last completion in `VirtualMedium::advance` never happens (`VirtualBus.VirtualMedium.Turn`), and the comment
  that `dropped` counts filtered frames does not hold: only overruns are counted.
* A standard-identifier error frame, or an error frame with RTR, does not survive a candump line
  (`Candump.RoundTrip`).
* A database does not always come back from a file. Reading turns every carriage return into a newline, in quoted strings
  too, and takes a file that is not UTF-8 for Latin-1, every string of it; and the usual symbols are written when there are
  none. A well-formed database comes back exactly if all its strings are UTF-8, neither the version nor a unit holds a
  carriage return, and no symbols were made up (`DbcFile.FileRoundTrip`).

## Model

| member | source | states |
|---|---|---|
| Huffman.Build | transport/src/Inflate.cpp:25-58 | accepts exactly the length vectors with no length above 15 that satisfy Kraft's inequality, and then the table holds every symbol at the slot of its length and rank |
| Huffman.IncompleteIsUsable | transport/src/Inflate.cpp:36-44 | a code that leaves words unused is accepted, whatever the comment says |
| Huffman.CanonicalPrefixFree | transport/src/Inflate.cpp:120-121 | the canonical code of every accepted length vector is prefix-free |
| Huffman.CodesUsed | transport/src/Inflate.cpp:36-44 | the running count of the builder is Kraft's sum: used codes of length l, shifted to 15 bits, equal the weight of the lengths up to l |
| Huffman.CodeFits | transport/src/Inflate.cpp:36-44 | every canonical code fits in its length |
| Huffman.SortSymbols | transport/src/Inflate.cpp:46-56 | the counting sort puts each symbol in its slot |
| BitReading.BitReader.ReadBits | transport/src/Inflate.cpp:76-92 | the value is the next bits of the data, least significant first, or overrun is set exactly when they are missing |
| BitReading.BitReader.Decode | transport/src/Inflate.cpp:122-145 | returns a symbol, having consumed exactly its code, if and only if that code is what follows; -1 otherwise |
| BitReading.WalkStep | transport/src/Inflate.cpp:126-144 | the walk keeps code at or above first, an in-range offset finds the symbol whose code was read, and an out-of-range one rules the length out |
| BitReading.BitReader.CopyBytes | transport/src/Inflate.cpp:99-107 | appends exactly the next n bytes, or sets overrun and appends none |
| BitReading.BitReader.ReadU16Le | transport/src/Inflate.cpp:109-118 | reads the next sixteen bits as a number |
| Deflate.CopyBackByte | transport/src/Inflate.cpp:366-369 | byte i of a back reference is byte i mod d of the d bytes before it, so an overlapping copy repeats |
| Deflate.LengthsCovered | transport/src/Inflate.cpp:157-161 | every length from 3 to 258 has a code and extra bits |
| Deflate.DistancesCovered | transport/src/Inflate.cpp:162-168 | every distance from 1 to 32768 has a code and extra bits |
| DeflateParsing.BodySound | transport/src/Inflate.cpp:326-370 | what the symbol loop accepts is the encoding of some tokens that reach back no further than the output, and it returns their expansion |
| DeflateParsing.BodyComplete | transport/src/Inflate.cpp:326-370 | the encoding of every list of tokens below the ceiling is accepted and expanded |
| DeflateParsing.LengthsSound | transport/src/Inflate.cpp:214-244 | accepted run-length coded lists are encodings of operations that fill the list exactly |
| DeflateParsing.LengthsComplete | transport/src/Inflate.cpp:214-244 | and every such encoding is accepted |
| DeflateParsing.TablesSound | transport/src/Inflate.cpp:192-257 | an accepted dynamic header is the encoding of a well-formed one with these two length lists |
| DeflateParsing.TablesComplete | transport/src/Inflate.cpp:192-257 | every well-formed dynamic header is accepted |
| DeflateStreams.FixedUsable | transport/src/Inflate.cpp:170-190 | the fixed codes satisfy Kraft's inequality |
| DeflateStreams.DecodesExactly | transport/src/Inflate.cpp:283-372 | the block loop accepts data exactly when it begins with the encoding of a valid block list, and returns what the blocks stand for |
| Inflate.LengthBaseTable | transport/src/Inflate.cpp:157-159 | the table of length bases follows the doubling rule |
| Inflate.DistanceBaseTable | transport/src/Inflate.cpp:162-165 | the table of distance bases follows the doubling rule |
| Inflate.FixedTables | transport/src/Inflate.cpp:170-190 | builds the tables of section 3.2.6 of RFC 1951 |
| Inflate.DynamicTables | transport/src/Inflate.cpp:192-257 | succeeds exactly when a dynamic header follows, with tables of its lists |
| Inflate.ReadLengths | transport/src/Inflate.cpp:213-244 | the list loop, including repeats at the start and past the end |
| Inflate.BackReference | transport/src/Inflate.cpp:341-369 | copies exactly when the reference is complete, reaches back no further than the output and fits |
| Inflate.CopyLoop | transport/src/Inflate.cpp:366-369 | the byte loop writes the overlapping copy |
| Inflate.InflateBlock | transport/src/Inflate.cpp:326-370 | the symbol loop computes the block's expansion or fails with it |
| Inflate.StoredBlock | transport/src/Inflate.cpp:290-306 | aligns, checks the complement, the ceiling and the input, and copies |
| Inflate.InflateRaw | transport/src/Inflate.cpp:272-373 | succeeds exactly on data that begins with the encoding of a valid list of blocks, and returns their expansion |
| FixedCodes.DistanceCode | transport/src/Inflate.cpp:182-183 | distance code c of a fixed block is the five-bit number c |
| FixedCodes.LiteralCode | transport/src/Inflate.cpp:173-181 | a literal or length symbol of a fixed block is the eight, nine, seven or eight-bit number of section 3.2.6 of RFC 1951 |
| FixedCodes.FixedBlockDecodes | transport/src/Inflate.cpp:326-370 | data that begins with a final fixed block of those numbers is decompressed to what its tokens stand for |
| FixedCodes.FinalBlock | transport/src/Inflate.cpp:283-324 | so is a final block of any other type: one bit, two bits of type, and its payload |
| FixedCodes.LengthsInNumbers | transport/src/Inflate.cpp:157-159 | the lengths of section 3.2.5 of RFC 1951 |
| FixedCodes.LengthExtrasInNumbers | transport/src/Inflate.cpp:160-161 | and their extra bits |
| FixedCodes.LongDistancesInNumbers | transport/src/Inflate.cpp:162-165 | the distances from code 16 on |
| FixedCodes.DistanceExtrasInNumbers | transport/src/Inflate.cpp:166-168 | and the extra bits of all of them |
| FixedCodes.RepeatsInNumbers | transport/src/Inflate.cpp:221-244 | the length symbols 16, 17 and 18: three to six times the length before, three to ten zeros, eleven to 138 |
| KnownStreams.StoredBlockDecodes | transport/src/Inflate.cpp:290-306 | the bytes of a final stored block are decompressed to its content, whatever follows |
| KnownStreams.OutputBounded | transport/src/Inflate.cpp:297-299 | no stream is decompressed to more than 2^28 bytes, and one that ends in a compressed block to fewer |
| Words.MaskBit | core/include/canforge/core/Signal.hpp:22-27 | bit_mask sets exactly the low bits, at full width too |
| Signal.RoundTrip | core/src/Signal.cpp:163-176 | decoding what was encoded gives the value masked to the width |
| Signal.ReadBack | core/src/Signal.cpp:163-176 | encoding what was decoded changes nothing |
| Signal.LastWrite | core/src/Signal.cpp:169-176 | a second write hides the first |
| Signal.OutsideUnchanged | core/src/Signal.cpp:169-176 | no bit outside the signal changes |
| Signal.OthersKeepTheirValue | core/src/Database.cpp:141-152 | writing one signal keeps the value of a disjoint one |
| Signal.WritesCommute | core/src/Database.cpp:141-152 | disjoint signals can be written in either order |
| SignalCodec.LoadLe | core/src/Signal.cpp:33-39 | bit i of the word is canonical bit i of the bytes |
| SignalCodec.LoadBe | core/src/Signal.cpp:47-53 | bit i of the word is canonical bit i from the end of the bytes |
| SignalCodec.StoreLe | core/src/Signal.cpp:41-45 | writes the word's bits to its bytes and no others |
| SignalCodec.StoreBe | core/src/Signal.cpp:55-59 | the same in the other order |
| SignalCodec.ExtractIntel | core/src/Signal.cpp:61-75 | the word-at-a-time value is the signal's, nine-byte spans included |
| SignalCodec.ExtractMotorola | core/src/Signal.cpp:101-120 | the same for Motorola |
| SignalCodec.InsertIntel | core/src/Signal.cpp:77-99 | every bit of the buffer is as the bit-by-bit description says |
| SignalCodec.InsertMotorola | core/src/Signal.cpp:122-146 | the same for Motorola |
| SignalCodec.DecodeRaw | core/src/Signal.cpp:163-167 | returns the value the reference decoder returns |
| SignalCodec.EncodeRaw | core/src/Signal.cpp:169-176 | leaves the buffer the reference encoder leaves |
| SignalCodec.DecodeRawReference | core/src/Signal.cpp:178-194 | the bit-at-a-time decoder |
| SignalCodec.EncodeRawReference | core/src/Signal.cpp:196-211 | the bit-at-a-time encoder |
| SignalPlaces.FitsExactly | core/include/canforge/core/Signal.hpp:99-120 | a signal fits exactly if it has 1 to 64 bits and each of them, counted off from the start bit, is in the payload |
| SignalPlaces.DecodedBits | core/src/Signal.cpp:178-194 | bit 0 of an Intel value, and the highest of a Motorola one, is bit startBit % 8 of byte startBit / 8; the next Intel bit is one up or bit 0 of the next byte, the next lower Motorola bit one down or bit 7 of the next byte; no other bit is set |
| SignalPlaces.DecodedExactly | core/src/Signal.cpp:178-194 | and no other value has these bits |
| SignalPlaces.EncodedBits | core/src/Signal.cpp:196-211 | encoding puts the bits of the value at the same places |
| SignalPlaces.OtherBitsStay | core/src/Signal.cpp:196-211 | and changes no other bit of the payload |
| Overlap.MarkBits | core/src/Database.cpp:127-139 | marks exactly the physical bits of the signal inside the bitmap |
| SignalPlaces.OccupiesPlaces | core/src/Database.cpp:127-139 | the bits of a signal are its places and no others |
| Overlap.Overlaps | core/src/Database.cpp:141-152 | true exactly when some physical bit belongs to both signals |
| Overlap.ClearOfEachOther | core/src/Database.cpp:141-152 | signals it reports clear can be written in either order and both keep their values |
| Frame.KeyInjective | core/include/canforge/core/Frame.hpp:73-79 | identifiers with the same arbitration key are the same |
| Frame.KeyOrder | core/include/canforge/core/Frame.hpp:73-79 | keys order identifiers by base, then standard before extended, then extension |
| Frame.CheckFilters | transport/src/IBus.cpp:83-93 | accepted when there are no filters, or some filter agrees with every bit it looks at or, inverted, does not |
| Frame.AcceptsByBits | transport/include/canforge/transport/IBus.hpp:70-87 | a filter accepts exactly the identifiers whose bits, 0 to 28 of the value and with the format matched bit 31 for extended, agree with its id wherever its mask is set; an inverted one exactly the others |
| Frame.ExactFilter | transport/include/canforge/transport/IBus.hpp:70-87 | the filter for one identifier accepts that one alone |
| Arbitration.LowestKeySurvives | core/include/canforge/core/Frame.hpp:69-79 | after bit-serial wired-AND arbitration the nodes left are exactly those that sent the identifier with the lowest key |
| Medium.WinnerIsLowest | transport/src/VirtualBus.cpp:73-95 | the scan picks the first participant with the lowest key, and none only when nobody wants the bus |
| MediumRuns.WinnerSurvives | transport/src/VirtualBus.cpp:71-95 | the participant picked survives bit-serial arbitration among all contenders, and only its identifier does |
| Medium.AdvanceAdds | transport/src/VirtualBus.cpp:148-168 | advance(a) then advance(b) reaches the state of advance(a+b) |
| Medium.DrainIsAdvance | transport/src/VirtualBus.cpp:170-188 | a drain that empties the queues equals one advance by the time it returns |
| Medium.DrainEmpties | transport/src/VirtualBus.cpp:170-188 | a drain allowed as many frames as are queued leaves nothing to send |
| MediumRuns.EveryRun | transport/src/VirtualBus.cpp:35-188 | every state of every run conserves frames, keeps transmissions apart, counts drops and logs only wins of the lowest key |
| MediumRuns.RunsConserve | transport/src/VirtualBus.cpp:35-223 | each accepted frame is queued or on the wire once and in order; transmissions do not overlap; a receiver sees the wire's order, filtered, less counted drops |
| VirtualBus.VirtualMedium.Arbitrate | transport/src/VirtualBus.cpp:71-95 | the scan over participants finds the specified winner and counts the contenders |
| VirtualBus.VirtualMedium.StartTransmission | transport/src/VirtualBus.cpp:66-137 | the whole new state of medium and participants |
| VirtualBus.VirtualMedium.Deliver | transport/src/VirtualBus.cpp:35-64 | what every participant's queue and statistics become |
| VirtualBus.VirtualMedium.CompleteTransmission | transport/src/VirtualBus.cpp:139-146 | the whole new state |
| VirtualBus.VirtualMedium.Turn | transport/src/VirtualBus.cpp:151-167 | one turn of the loop; the completion after the last step never happens |
| VirtualBus.VirtualMedium.Advance | transport/src/VirtualBus.cpp:148-168 | terminates and follows the state machine |
| VirtualBus.VirtualMedium.Drain | transport/src/VirtualBus.cpp:170-188 | terminates and follows the state machine |
| MediumSteps.DeliveredTo | transport/src/VirtualBus.cpp:35-64 | a frame ends up in the inboxes of those that are open, do not send it or hear themselves, have room, and a filter that agrees with the identifier bit by bit; and where only room is missing it is counted |
| MediumSteps.OthersUntouched | transport/src/VirtualBus.cpp:35-64 | every other participant is left as it was |
| MediumSteps.WinnerWins | transport/src/VirtualBus.cpp:73-95 | who wins is open, has a frame, and no other such has a lower key, or the same and an earlier place |
| MediumSteps.StartedBy | transport/src/VirtualBus.cpp:97-137 | what that does to the medium and to every participant |
| MediumSteps.NothingStarts | transport/src/VirtualBus.cpp:73-98 | nothing starts exactly when nobody open has a frame |
| MediumSteps.SentExactly | transport/src/VirtualBus.cpp:207-223 | a frame is queued exactly if the participant is open, the bus can carry it and there is room |
| VirtualBus.VirtualBus.Send | transport/src/VirtualBus.cpp:207-223 | queues the frame or refuses it with the right error, and changes nothing else |
| VirtualBus.VirtualBus.Receive | transport/src/VirtualBus.cpp:225-245 | lets the medium run when nothing waits, then takes the head of the queue |
| VirtualBus.VirtualBus.Close | transport/src/VirtualBus.cpp:201-205 | closes and empties both queues |
| IsoTp.Sender.Start | isotp/src/IsoTp.cpp:148-176 | starts a transfer, or refuses it with the right error and changes nothing |
| IsoTp.Sender.Poll | isotp/src/IsoTp.cpp:178-268 | the frames sent, flags included, and the whole new state |
| IsoTp.Sender.OnFrame | isotp/src/IsoTp.cpp:270-338 | the whole new state |
| IsoTp.Receiver.Poll | isotp/src/IsoTp.cpp:379-410 | the Flow Control sent, flags included, and the whole new state |
| IsoTp.Receiver.OnFrame | isotp/src/IsoTp.cpp:412-559 | the whole new state |
| StMin.ByteComesBack | isotp/src/IsoTp.cpp:58-84 | every STmin byte that is not reserved comes back from the time it stands for, and no other |
| StMin.RoundsUpExactly | isotp/src/IsoTp.cpp:71-84 | the byte for a time stands for no less exactly up to 900 microseconds and from one to 127 milliseconds |
| StMin.LeastOfItsKind | isotp/src/IsoTp.cpp:71-84 | and then no byte stands for a shorter time that is enough |
| IsoTpBytes.FdLengthIsLeast | isotp/src/IsoTp.cpp:15-50 | a CAN FD frame is padded to the least length there is |
| IsoTpBytes.FrameLayout | isotp/src/IsoTp.cpp:117-146 | address extension, body and padding of a frame, and its length |
| IsoTpBytes.FirstFrameBytes | isotp/src/IsoTp.cpp:216-228 | the length in a First Frame: twelve bits up to 4095, four bytes above |
| IsoTpBytes.BeginExactly | isotp/src/IsoTp.cpp:148-176 | when a transfer is refused, and with which error |
| IsoTpBytes.FirstPoll | isotp/src/IsoTp.cpp:178-234 | a Single Frame up to seven bytes, or six behind an address extension; else a First Frame with what is left of eight |
| IsoTpBytes.ConsecutivePoll | isotp/src/IsoTp.cpp:236-262 | the bytes of a Consecutive Frame, its number, and when the next one is due |
| IsoTpBytes.FlowControlTaken | isotp/src/IsoTp.cpp:270-338 | what a waiting sender makes of the bytes of a Flow Control, STmin in numbers |
| IsoTpBytes.WaitsCounted | isotp/src/IsoTp.cpp:310-326 | as many Wait frames as WFTmax are put up with, each for another N_Bs, and no more |
| IsoTpBytes.SingleTaken | isotp/src/IsoTp.cpp:432-461 | when a Single Frame is taken, with which bytes |
| IsoTpBytes.FirstTaken | isotp/src/IsoTp.cpp:463-512 | when a First Frame is taken, with which bytes, and what is answered when |
| IsoTpBytes.ConsecutiveTaken | isotp/src/IsoTp.cpp:514-548 | a Consecutive Frame is taken exactly if its number is the one awaited; which bytes it adds, and when a Flow Control is due |
| IsoTpBytes.OtherFramesRefused | isotp/src/IsoTp.cpp:412-559 | frames that do not fit what the receiver is doing end the transfer, with which result |
| IsoTpFrames.BodyArrives | isotp/src/IsoTp.cpp:117-146 | a receiver with the mirrored address sees the body, with or without padding |
| IsoTpFrames.FirstTaken | isotp/src/IsoTp.cpp:463-512 | a First Frame gives the receiver the length, 12-bit or 32-bit, and its bytes |
| IsoTpFrames.ConsecutiveTaken | isotp/src/IsoTp.cpp:514-548 | a Consecutive Frame with the awaited number is taken, with the right bytes when it is the one due |
| IsoTpLink.OkMeansTheMessage | isotp/src/IsoTp.cpp:412-559 | whatever frames are lost, for every block size, a receiver that ends Ok holds exactly the message |
| IsoTpWindow.LosslessIsSafe | isotp/src/IsoTp.cpp:148-559 | on a lossless link no run ends in WrongSequence, UnexpectedPdu or InvalidPdu, and the receiver always holds a prefix |
| IsoTpWindow.LossyKeepsPrefix | isotp/src/IsoTp.cpp:412-559 | with blocks of 1 to 16 frames, or at most 16 Consecutive Frames in all, the receiver holds a prefix in every state of a lossy run |
| IsoTpAliasing.SeventeenthForFirst | isotp/src/IsoTp.cpp:520-547 | otherwise some run from the start has the bytes of the seventeenth Consecutive Frame where those of the first belong |
| IsoTpAliasing.PrefixExactly | isotp/src/IsoTp.cpp:412-559 | every lossy run of every message of a length keeps a prefix exactly when blocks are of 1 to 16 frames or there are at most 16 Consecutive Frames |
| IsoTpWindow.TooLongNeverOk | isotp/src/IsoTp.cpp:497-502 | a segmented message above max_receive_length never ends Ok on either side |
| IsoTpWindow.LimitIsForFirstFrames | isotp/src/IsoTp.cpp:432-461 | a message above max_receive_length can end Ok on both sides exactly when it needs no First Frame |
| IsoTpTimed.CostOfATransfer | isotp/src/IsoTp.cpp:199-262 | a transfer that ends Ok took one First Frame, the Consecutive Frames its rest fills, and a Flow Control per block, or one when the block size is 0 |
| IsoTpCount.FrameCount | isotp/src/IsoTp.cpp:236-262 | frame j exists exactly up to the number of Consecutive Frames, rounded up |
| IsoTpCompletion.FramesKeepTheGap | isotp/src/IsoTp.cpp:236-261 | on any link, frames with no Flow Control between them are at least as far apart as STmin says: raw milliseconds up to 127, hundreds of microseconds for 0xF1 to 0xF9, 127 milliseconds otherwise |
| IsoTpCompletion.DueFramesAreSent | isotp/src/IsoTp.cpp:236-261 | and once that time has passed, in the same numbers, a poll sends the next frame, and not before |
| IsoTpCompletion.PolledTransfersComplete | isotp/src/IsoTp.cpp:178-410 | polled every d nanoseconds, sender first, with prompt delivery and delays within the timeouts, every accepted message ends Ok on both sides at that cost |
| IsoTpReceiverFirst.ReceiverFirstCompletes | isotp/src/IsoTp.cpp:178-410 | the same with the receiver polled first, if a tick is shorter than N_Cr or no block holds two frames |
| IsoTpReceiverFirst.ReceiverFirstTimesOut | isotp/src/IsoTp.cpp:399-404 | otherwise the receiver gives up, from the start of any such transfer |
| IsoTpReceiverFirst.TimesOutExactly | isotp/src/IsoTp.cpp:178-410 | with a tick to spare before every timeout, the receiver times out exactly when STmin is zero, a tick is as long as N_Cr and some block holds two frames |
| Uds.UdsServer.HandleRequest | sim/src/UdsServer.cpp:150-484 | the answer to every request and the whole new state, flash included |
| Uds.UdsServer.TransferData | sim/src/UdsServer.cpp:423-465 | writes the expected block and nothing else, in 32-bit arithmetic |
| Uds.UdsServer.ControlRoutine | sim/src/UdsServer.cpp:344-385 | erases, or sums the written bytes modulo 2^32; more bytes than flash has are an undefined answer |
| Uds.UdsServer.RequestDownload | sim/src/UdsServer.cpp:387-421 | the checks in their order and what each leaves behind |
| Uds.UdsServer.ReadDtcs | sim/src/UdsServer.cpp:306-342 | counts or lists the trouble codes that match the mask |
| Uds.UdsServer.ClearDtcs | sim/src/UdsServer.cpp:289-304 | keeps exactly the trouble codes outside the group, in order |
| UdsServices.SessionControl | sim/src/UdsServer.cpp:183-200 | the session of each sub-function and the bytes of the answer; going back to the default session locks |
| UdsServices.Erase | sim/src/UdsServer.cpp:355-374 | only an unlocked server erases, all of flash and nothing else, and answers at once or later |
| UdsServices.Download | sim/src/UdsServer.cpp:387-403 | what a download is refused for, in which order |
| UdsServices.DownloadAccepted | sim/src/UdsServer.cpp:404-421 | which regions are accepted, in 32-bit arithmetic, and the bytes of the answer |
| UdsServices.Transfer | sim/src/UdsServer.cpp:423-447 | which block numbers are refused, answered again or written |
| UdsServices.Exit | sim/src/UdsServer.cpp:467-477 | a download is over exactly when as many bytes have been written as were announced |
| UdsServices.ReadIdentifier | sim/src/UdsServer.cpp:222-235 | two bytes of identifier, most significant first, and the bytes stored under it |
| UdsServices.WriteIdentifier | sim/src/UdsServer.cpp:237-254 | only identifiers that exist and are below F100 are written |
| UdsServices.ReadCodes | sim/src/UdsServer.cpp:306-342 | the bytes of the answer: how many, or which, trouble codes share a status bit with the mask |
| UdsServices.ClearCodes | sim/src/UdsServer.cpp:289-304 | which trouble codes are left |
| UdsSecurity.UnlocksExactly | sim/src/UdsServer.cpp:274-287 | a locked server is unlocked exactly by the awaited sub-function, outside the default session, with four bytes that are the key of the last seed |
| UdsSecurity.KeyAnswered | sim/src/UdsServer.cpp:274-287 | other bytes are answered with InvalidKey and change nothing; the key changes nothing but the lock |
| UdsSecurity.SeedAnswered | sim/src/UdsServer.cpp:256-272 | the bytes of the seed; an unlocked server gives 0 |
| UdsSecurity.OthersKeepTheSeed | sim/src/UdsServer.cpp:256-287 | no other request touches the seed |
| UdsSecurity.LocksExactly | sim/src/UdsServer.cpp:183-213 | an unlocked server is locked exactly by a return to the default session or a reset |
| UdsSecurity.UnlockedTakesTheKey | sim/src/UdsServer.cpp:256-287 | in every run from power-up an unlocked server has been sent the key of the last seed it gave before, and has stayed unlocked since |
| UdsRuns.UnlockedNeedsASession | sim/src/UdsServer.cpp:183-200 | after any requests an unlocked server is not in the default session, and the block counter is never 0 |
| UdsRuns.FlashChanges | sim/src/UdsServer.cpp:344-465 | flash changes only by an erase while unlocked or by the expected block, and how |
| UdsRuns.DownloadNeedsSecurity | sim/src/UdsServer.cpp:391-414 | only an accepted announcement in an unlocked programming session opens a download |
| UdsRuns.LockedWhileActive | sim/src/UdsServer.cpp:183-200 | a request leaves an unlocked download open and the server locked exactly when it goes back to the default session |
| UdsRuns.WritesAreUnlocked | sim/src/UdsServer.cpp:183-200 | in every run from power-up without such a request only an unlocked server writes flash |
| UdsLimits.LockedServerWrites | sim/src/UdsServer.cpp:183-200 | with one, a run from power-up in which a locked server writes flash |
| UdsRuns.DownloadWritesItsBlocks | sim/src/UdsServer.cpp:423-477 | until an erase, a reset or an announcement disturbs it, flash is what it was with the accepted blocks in order, and the exit is accepted exactly when they add up to the announced size |
| UdsRuns.DownloadFromRequest | sim/src/UdsServer.cpp:387-477 | the same from the request that announces the download; the exit is never accepted for a region that does not fit flash |
| UdsRuns.AcceptedFits | sim/src/UdsServer.cpp:406-410 | an accepted region fits flash exactly when its end does not wrap at 32 bits |
| UdsRuns.AcceptedNeedNotFit | sim/src/UdsServer.cpp:406-410 | an accepted region that does not fit can be announced exactly when flash does not begin at the last address |
| UdsRuns.RefusedAnnouncement | sim/src/UdsServer.cpp:404-410 | in any download, after a refused announcement the exit is accepted exactly when the refused size is what has been written; the download is unchanged exactly when the refused numbers are its own |
| UdsLimits.RefusedAnnouncementMatters | sim/src/UdsServer.cpp:404-410 | a run from power-up in which one makes an exit fail that would have been accepted |
| UdsLimits.NeverPastFlash | sim/src/UdsServer.cpp:376-383 | a run from power-up in which no refused announcement moves a download never reads past flash |
| UdsLimits.PastFlashExactly | sim/src/UdsServer.cpp:376-383 | some run from power-up reads past flash, by requests that keep to any limit from 11 bytes on, exactly when flash is neither empty nor of the greatest length |
| UdsLimits.ChecksumIsRight | sim/src/UdsServer.cpp:376-383 | after a download of n bytes to an offset of erased flash the reported sum is that of the bytes, whatever they are, exactly when the offset or n is zero |
| UdsLimits.WrongChecksum | sim/src/UdsServer.cpp:376-383 | an instance at any other offset, in blocks of any length, where it is one off |
| UdsRuns.RepeatedBlock | sim/src/UdsServer.cpp:430-439 | repeating the last block changes nothing, except after 0xFF |
| UdsClient.Flash | cli/src/canforge.cpp:395-476 | against a server in any state every image that fits arrives whole, through session change, seed and key and any number of counter wraps, at whatever times the requests are made; the exit is accepted and the checksum matches |
| UdsClient.Unlock | cli/src/canforge.cpp:395-418 | the session change, seed and key unlock a server in any state |
| UdsClient.SendBlocks | cli/src/canforge.cpp:431-452 | the block loop and the server's counter stay in step |
| Stuffing.AtMostTheWorstCase | transport/src/IBus.cpp:7-12 | no bit string takes more stuff bits than worst_case_stuff_bits says |
| Stuffing.WorstCaseIsReached | transport/src/IBus.cpp:7-12 | for every length of at least one bit some string takes that many |
| Stuffing.RoundTrip | transport/src/IBus.cpp:7-12 | removing the stuff bits restores the bits |
| Stuffing.NoSixEqual | transport/src/IBus.cpp:7-12 | a stuffed string has no six equal bits in a row |
| Stuffing.TimingBoundsEveryFrame | transport/src/IBus.cpp:14-33 | arbitration_bits bounds every classic frame, whatever its data and CRC |
| TimingRules.DurationIsFloor | transport/src/IBus.cpp:35-75 | a duration is the whole nanoseconds that the bits take |
| TimingRules.ClassicInNumbers | transport/src/IBus.cpp:14-33 | 34 or 54 bits and the bytes, a stuff bit for every four after the first, and thirteen bits behind |
| TimingRules.FdInNumbers | transport/src/IBus.cpp:35-75 | the bits of an FD frame at either rate |
| TimingRules.LengthsInNumbers | core/include/canforge/core/Frame.hpp:129-146 | the bytes of every data length code |
| Multiplexing.ActiveExactly | core/include/canforge/core/Message.hpp:92-119 | active exactly when at most nine links lead to a root, each switch fits and each selects the level below |
| Multiplexing.CycleIsInactive | core/include/canforge/core/Message.hpp:102-104 | a signal switched by itself through any number of levels is never active |
| MuxRules.PresentExactly | core/src/Signal.cpp:399-412 | a switched signal is there for the values of its ranges, bounds included, or for its one value if it has none |
| MuxRules.NamedSwitch | core/include/canforge/core/Message.hpp:92-119 | a named switch is the first signal of that name |
| MuxRules.UnnamedSwitch | core/src/Message.cpp:32-48 | an unnamed one the first multiplexor that is not switched itself, or else the first |
| MuxRules.SelectsExactly | core/include/canforge/core/Message.hpp:92-119 | a switch selects by its value modulo 2^32, if it fits the frame |
| Multiplexing.ForEachActiveSignal | core/include/canforge/core/Message.hpp:126-138 | passes on the specified visits, with raw and physical value |
| Multiplexing.VisitsExactly | core/include/canforge/core/Message.hpp:126-138 | only fitting active signals are visited, in order and with their values |
| Multiplexing.NoneMissed | core/include/canforge/core/Message.hpp:126-138 | and every one of them is |
| Text.ParseHexLoop | transport/src/LogFormat.cpp:39-52 | one to sixteen hex digits, read as a number |
| Text.ParseHexBytesLoop | transport/src/LogFormat.cpp:54-72 | pairs of hex digits, read as bytes |
| Text.ParseSecondsLoop | transport/src/LogFormat.cpp:90-121 | seconds with a fraction, exactly to the nanosecond |
| Text.SplitLoop | transport/src/LogFormat.cpp:123-139 | the words between blanks |
| Text.TrimLoop | transport/src/LogFormat.cpp:74-82 | blanks and carriage returns removed at both ends |
| Text.BytesRead | transport/src/LogFormat.cpp:141-153 | printed bytes read back, in front of anything |
| Candump.ParseCandumpLine | transport/src/LogFormat.cpp:196-300 | the record of a line, or the code of the error |
| Candump.FormatCandumpLine | transport/src/LogFormat.cpp:302-334 | the line of a record |
| CandumpText.LineWritten | transport/src/LogFormat.cpp:302-334 | a line character by character: digits of the time, of the identifier and of the bytes |
| CandumpText.HexDigitRead | transport/src/LogFormat.cpp:24-37 | which characters are hex digits, and which digits |
| CandumpText.CommentsAreBad | transport/src/LogFormat.cpp:196-205 | blank lines and comments are no frames |
| Candump.LineReads | transport/src/LogFormat.cpp:196-334 | what the line of any built frame reads back as |
| Candump.RoundTrip | transport/src/LogFormat.cpp:196-334 | the record comes back, its time floored to the microsecond, exactly when the frame is no error frame or an extended one without RTR |
| Glyphs.QuotedReads | dbc/src/Writer.cpp:29-47 | lex_string undoes quoted, for every string, exactly when what follows is not a quote |
| Lexer.Scanner.ScanString | text/src/Lexer.cpp:313-363 | the value and end of a quoted string, or that it is not closed |
| Lexer.Scanner.ScanNumber | text/src/Lexer.cpp:238-298 | where a number ends and of which kind it is, or that it is a name that begins with digits |
| Lexer.Scanner.Tokenise | text/src/Lexer.cpp:365-455 | the tokens of a text up to the end token, each knowing whether it is the first on its line |
| LexerRules.TriviaPassed | text/src/Lexer.cpp:199-224 | what is passed over is spacing and comments, and behind it neither begins |
| LexerRules.TokenShape | text/src/Lexer.cpp:365-455 | what the text of each kind of token is made of, and that it goes on as far as it can |
| LexerRules.ExponentShape | text/src/Lexer.cpp:255-268 | an exponent has a letter, perhaps a sign, and digits |
| LexerRules.StringCharacters | text/src/Lexer.cpp:313-363 | what backslashes and quotes stand for in a string |
| LexerRules.IntegersSaturate | text/src/Lexer.cpp:283-296 | an integer is its number, or the largest 64-bit word |
| LexerRules.TokensCover | text/src/Lexer.cpp:365-455 | nothing is lost: the tokens, with spacing and comments between them, are the text |
| Glyphs.LexRender | text/src/Lexer.cpp:365-455 | for every text put together from glyphs that keep apart, the tokens are those of the glyphs and the end token, and each knows whether it is the first on its line |
| WrittenDbc.FileSeparated | dbc/src/Writer.cpp:160-354 | in what is written about a well-formed database the scanner finds the end of every name, number, string and mark |
| DbcWriter.Stream.WriteSignal | dbc/src/Writer.cpp:122-154 | puts down the glyphs of a signal's line and nothing else |
| DbcWriter.Stream.WritePreamble | dbc/src/Writer.cpp:160-189 | puts down the VERSION, NS_, BS_ and BU_ lines, with the usual symbols on request if there are none |
| DbcWriter.WriteFile | dbc/src/Writer.cpp:160-354 | the text of the preamble, of the BO_ and SG_ lines of all messages, and then of their SG_MUL_VAL_ lines |
| DbcText.SignalWritten | dbc/src/Writer.cpp:122-154 | a signal's line character by character |
| DbcText.SwitchWritten | dbc/src/Writer.cpp:325-354 | a line of extended multiplexing character by character |
| DbcText.PreambleWritten | dbc/src/Writer.cpp:160-189 | the lines in front of the messages character by character |
| DbcText.FileWritten | dbc/src/Writer.cpp:160-354 | a file character by character |
| DbcParser.Parser.ReadSignal | dbc/src/Parser.cpp:474-618 | the signal behind SG_ with its defaults and corrections, or where it got stuck; diagnostics as raised |
| DbcParser.Parser.ReadSwitch | dbc/src/Parser.cpp:1088-1152 | the messages with the line's switch and ranges on its signal, or unchanged with a warning |
| DbcParser.Parser.ReadVersion | dbc/src/Parser.cpp:325-333 | the version, or recovery |
| DbcParser.Parser.ReadSymbols | dbc/src/Parser.cpp:335-353 | the names that stand alone on their lines, up to BS_ |
| DbcParser.Parser.ReadTiming | dbc/src/Parser.cpp:355-377 | the bit timing, where there is one |
| DbcParser.Parser.ReadNodes | dbc/src/Parser.cpp:379-393 | the nodes up to the end of the line, each once |
| DbcParser.Parser.RunAll | dbc/src/Parser.cpp:259-323 | preamble and messages of any list of tokens, with recovery at semicolons and sections |
| DbcRules.IdentifierExactly | dbc/src/Parser.cpp:205-225 | bit 31 marks an extended identifier; one without it that is too large is taken for extended with a warning, and one that is too large for either is an error |
| DbcRules.PlaceCorrected | dbc/src/Parser.cpp:510-538 | what becomes of a start bit above 511 and of a length of none or above 64 |
| DbcRules.OrderCorrected | dbc/src/Parser.cpp:540-562 | 0 is Motorola, 1 is Intel and anything more an error; a minus means signed |
| DbcRules.SignalChecked | dbc/src/Parser.cpp:592-618 | a factor of zero becomes 1, and a signal that does not fit is an error |
| DbcRules.RangeCorrected | dbc/src/Parser.cpp:1112-1130 | a range whose bounds are the wrong way round is swapped, with a warning |
| DbcRules.RecoversAt | dbc/src/Parser.cpp:111-123 | after an error parsing goes on behind the next semicolon, or at the next section or the end if that is first |
| DbcReading.SignalParses | dbc/src/Parser.cpp:474-618 | the parser makes of a written SG_ line the signal it was written from, but for its ranges, wherever the line stands |
| DbcReading.SwitchLineParses | dbc/src/Parser.cpp:1088-1130 | and of a written SG_MUL_VAL_ line its identifier, names and ranges |
| DbcPreamble.PreambleParses | dbc/src/Parser.cpp:325-393 | of a written preamble, with nothing but a new line behind it, the parser makes the preamble |
| DbcRoundTrip.SwitchApplies | dbc/src/Parser.cpp:1131-1152 | each SG_MUL_VAL_ line completes its own signal and no other, with a warning exactly if its switch is missing |
| DbcRoundTrip.RoundTrip | dbc/src/Writer.cpp:160-354 | scanning and parsing what was written about any well-formed database restores it without an error, with a warning exactly if some switch is missing |
| Encoding.SequenceLength | text/src/Lexer.cpp:26-50 | the length of the sequence at a position, or 0 if there is none |
| Encoding.IsValidUtf8 | text/src/Lexer.cpp:52-63 | whether the bytes are sequences, one after the other, as a byte-wise automaton has it |
| Encoding.Latin1ToUtf8 | text/src/Lexer.cpp:67-80 | the bytes with every one from 128 on made two |
| Encoding.TranscodedValid | text/src/Lexer.cpp:65-80 | whatever the bytes were, the result is UTF-8 |
| Encoding.TranscodedInjective | text/src/Lexer.cpp:67-80 | and no two texts become the same |
| Utf8Rules.ValidExactly | text/src/Lexer.cpp:26-63 | bytes are UTF-8 exactly if they are characters of one to four bytes, one after the other |
| Utf8Rules.CodedInNumbers | text/src/Lexer.cpp:67-80 | a byte from 128 on becomes two that hold its value in five and six bits |
| Sources.Normalise | text/src/Lexer.cpp:112-158 | byte order mark, encoding, line ends and the last line, in that order |
| Sources.NormalisedIsUtf8 | text/src/Lexer.cpp:112-158 | a text that was read is UTF-8, whatever it was read from |
| LineEnds.UnifiedExactly | text/src/Lexer.cpp:128-147 | newlines behind a carriage return are dropped, and then every carriage return is a newline |
| LineEnds.ReturnedUnifies | dbc/src/Writer.cpp:356-367 | reading text written with carriage returns gives its newlines back, and makes newlines of its own carriage returns |
| DbcStrings.RenderValid | text/src/Lexer.cpp:52-63 | a written text is UTF-8 exactly if each of its names and quoted strings is |
| DbcStrings.RenderRead | text/src/Lexer.cpp:112-158 | reading a written text amounts to reading each of its names and quoted strings |
| DbcAsRead.ComesBackExactly | dbc/src/Parser.cpp:1155-1168 | the strings of a database are unchanged by reading exactly if all are UTF-8 and neither the version nor a unit holds a carriage return |
| DbcFile.WriteString | dbc/src/Writer.cpp:160-369 | the text of the database, with carriage returns in front of the newlines on request |
| DbcFile.ParseString | dbc/src/Parser.cpp:1155-1168 | normalising, scanning and parsing, one after the other |
| DbcFile.FileReads | dbc/src/Parser.cpp:1155-1168 | what comes back from the file of any well-formed database: itself without carriage returns in strings, and with every string transcoded if one of them is not UTF-8; no errors, and a warning exactly if some switch is missing |
| DbcFile.FileRoundTrip | dbc/tests/test_roundtrip.cpp:59-70 | so it comes back, with either kind of line end, exactly if all its strings are UTF-8, neither the version nor a unit holds a carriage return, and no symbols were made up |

## Left out

- Inflate.InflateRaw: error texts, the reservation hint and the zlib wrapper with its Adler-32 check are not modelled; the output is a value that grows, where the source appends to a vector.
- BitReading.BitReader.ReadBits: the accumulator is unbounded; the source reads at most 13 bits at a time into 32.
- Floating point: scaling between raw and physical values, float signals and sign extension for them.
- VirtualBus.VirtualMedium.Attach: detaching participants, and changing limits, loopback or filters during a run, are not part of the runs that `MediumRuns` is about; closing and opening are modelled but not part of those runs either.
- Clocks do not overflow: 64-bit times in the medium and in ISO-TP are natural numbers.
- ISO-TP: abort() and reset(), and zero-length messages in the composed runs; a receiver never sends Wait frames, so WFTmax is only modelled inside the sender.
- Uds.UdsServer.HandleRequest: responses that are pending are given as the deferred response without their timing, and the seed and key are arbitrary functions into 32-bit words; where the checksum loop would leave flash the answer is an explicit undefined one.
- UdsClient.Flash: the ISO-TP transport between client and server, with its limit on the length of a message, is replaced by a call at any time.
- Multiplexing.ForEachActiveSignal: the conversion of a raw value to a physical one is an arbitrary function.
- Candump.ParseCandumpLine: the texts of errors.
- DbcParser.Parser.RunAll: stops as `Foreign` at the other sections (value tables, further transmitters, comments, attributes, value descriptions and value types), which are not written either: a database holds a preamble and messages; diagnostics are one flag for errors and one for warnings.
- DbcWriter.WriteFile: numbers are exact literals, so neither format_number nor a factor that underflows to zero is modelled, and a printed number is one the scanner reads whole.
- Sources.Normalise: lines and columns are not kept.
- The ASC and BLF logs, SocketCAN, the user interface, diagnostics, attributes and fault injection.
