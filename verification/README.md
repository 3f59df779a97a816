# librle in Dafny

librle implements Return Link Encapsulation (ETSI TS 103 179 V1.1.1). A transmitter turns each SDU into an ALPDU and
cuts it into PPDUs (COMP, or START CONT* END) for whatever burst sizes its user asks for; PPDUs are packed into frames;
a receiver parses the frames, reassembles the ALPDUs in one of eight contexts and hands the SDUs back. This project
models that whole data path and proves that its two halves undo each other.

There are two layers.

* **State machines over values.** `ProtoType`, `AlpduCodec`, `CrcTable`, `Crc`, `Ctx`, `Trailer` and `PpduHeader` are
  the formats; `Transmit` is one transmitter context and `Receive` the receiver; `Fpdu` is the frame parser. The
  theorems are about these: `Fragments`, `RoundTrip`, `Collecting`, `Lossy`, `Resync`, `Link`, `Interleave`,
  `LossyLink`, `Conservation`, `System`.
* **The program's own form.** `FragmentationBuffer`, `Transmitter`, `ReassemblyBuffer`, `Receiver` and `Packing` have
  classes and methods that update fields and byte arrays in place as the source does: the zero-copy buffer of 4099
  bytes in which every header is written over bytes already sent, the eight contexts with their bit mask, the parsing
  loop. Each public method is proved to do to the meaning of the object (`Transmitter.State`, `Receiver.State`) exactly
  what one step of the state machine does, and to leave the other contexts alone, so a sequence of calls is a run of
  the machines that the theorems are about. Pointers are indices; what the source asserts is a precondition, proved at
  each call.

Main results: `RoundTrip.EndToEnd` (every SDU and every burst schedule), `Link.LinkDelivers` with `Link.SentIsDelivered`
(every run of calls whatever), `LossyLink.NoChimeraOnLine` (what loss of any PPDUs can never do), `Resync.Resynchronises`,
`Interleave.MergedLinks` (eight streams merged), `System.SystemDelivers` (eight streams through frames),
`Fpdu.ConsumeServes` and `Packing.PackedFrameParses`, `Crc.ComputeCrc` with `Crc.WindowCorruptionDetected`,
`Transmitter.FragCtx.PushPpduHdr` and `Receiver.Receiver.Decapsulate`.

## What the code does that its documentation does not say

The model follows the code. These are results, each with its lemma.

* With implicit type 0x31 the transmitter omits the type of any SDU shaped like Ethernet/VLAN/IP, whatever its type,
  but shortens it only for type 0x8100. `AlpduCodec.Misread` is that family; `AlpduCodec.CodecRoundTrip` and
  `RoundTrip.EndToEnd` hold if and only if the SDU is outside it, and inside it the receiver always rejects.
* The lost counter is the remainder of a possibly negative difference: around the wrap of the sequence numbers it moves
  by almost 2^64 (`Trailer.LostCountWraps`); it is exact if and only if the numbers do not wrap in the gap.
* In sequence-number mode a mix of two SDUs can be delivered in three ways, and `LossyLink.NoChimeraOnLine` says there is no fourth: on number
  zero, which is accepted out of sequence as a presumed restart (`Lossy.ChimeraAtZero`); on the first trailer of a new
  context (`Lossy.ChimeraBeforeInit`); and when the numbers have gone round since the last trailer check
  (`Lossy.ChimeraAfterWrap`).
* A misread SDU sent in fragments uses up a number that the receiver never looks at, so the next fragmented SDU
  is rejected too (`Link.MisreadCostsTheNext`). An SDU abandoned after its START leaves the receiver busy and costs the
  next two fragmented ones (`Link.AbandonedCostsTwo`).
* An SDU of invalid size frees a busy context and forgets its SDU (`Conservation.EncapsulateBalance`).
* An orphan END is counted as dropped twice, and a START on a busy context loses one SDU from the counters
  (`Conservation.OutOfOrderDrift` has the exact amounts).
* A START whose total leaves no room for the ALPDU header, or for any SDU byte, fails an assertion
  (`Receive.AbortsExactly`); the model has an outcome for it.
* The decompression table has 255 initial values for 256 slots, so what follows the missing value at 0x47 is one slot
  early. `ProtoType.TableIsShifted` says at which slots this shows, and `ProtoType.CompressedIsRead` that it never meets
  a type that the transmitter compresses.

## Model

| member | source | states |
|---|---|---|
| AlpduCodec.CodecRoundTrip | src/header.c:383-457 | For every configuration and every non-empty SDU, the receiver's extraction and VLAN reinsertion give back the type and bytes of the transmitter's ALPDU if and only if the SDU is not misread; otherwise they reject it |
| AlpduCodec.ExtractFirstFragment | src/reassembly.c:305-345 | A first fragment with the whole ALPDU header and at least one SDU byte is read exactly as the whole ALPDU would be |
| AlpduCodec.ExtractFrag | src/header.c:655-812 | What was extracted is the tail of the fragment after the header, and compressed type 0x31 always comes with type 0x8100 (asserted by the callers) |
| AlpduCodec.VlanFieldRoundTrip | src/reassembly.c:78-156 | The two bytes dropped from an Ethernet/VLAN/IP frame are put back where they were |
| AlpduCodec.WholeFrameIsNotShortened | src/reassembly.c:118-131 | A frame whose field was not dropped is never mistaken for one whose field was |
| AlpduCodec.ShortenedExactly | src/header.c:339-381 | The frames that may be shortened are exactly those from which reinsertion gets the dropped field back, and exactly those with a VLAN header in front of IP, byte by byte |
| AlpduCodec.ReinsertedExactly | src/reassembly.c:78-156 | Reinsertion gives a frame if and only if shortening that frame gives its input; everything else is refused |
| AlpduCodec.OmittedExactly | src/rle_conf.c:122-193 | The type is omitted if and only if omission is allowed and the receiver gets the SDU back without it, the misread family added |
| AlpduCodec.HeaderChoice | src/header.c:391-456 | Which header is written when the type is not omitted: one byte exactly for the seven compressible types, with the code of the standard, 0x31 exactly for a shortened frame; otherwise the whole type |
| AlpduCodec.CodeIsImplicitType | src/header.c:739-812 | Every compressed code but 0xff is read as if it were the implicit type of an ALPDU without header, failures included |
| AlpduCodec.WholeTypeIsRead | src/header.c:708-737 | Any type written out, plain or behind 0xff, is read back with the right header length |
| AlpduCodec.EncodeSizes | src/header.c:391-456 | At most three header bytes, never more than three bytes over the SDU, and two dropped bytes only behind a short header |
| AlpduCodec.MisreadExample | src/rle_conf.c:165-176 | A concrete configuration and SDU of the misread family |
| ProtoType.LabelType | src/rle_header_proto_type_field.c:211-225 | Label type 3 exactly for signalling, 2 exactly for another omitted type when the configuration gives it a label, otherwise 0 |
| ProtoType.TableIsShifted | src/rle_header_proto_type_field.c:86-138 | The compiled table agrees with the commented one, written out independently, at every slot that has a comment except 0x7f, 0xfe and 0xff, and is one slot early from 0x47 on |
| ProtoType.CompressedIsRead | src/rle_header_proto_type_field.c:150-209 | Every type the transmitter compresses is decompressed to itself, and only compressible types are compressed |
| PpduHeader.CompHeaderRoundTrip | src/header.c:210-230 | Every field written in a COMP header is read back; the length if and only if it fits in 11 bits |
| PpduHeader.StartHeaderRoundTrip | src/header.c:232-261 | The same for START: the 6+5-bit length and the 7+5-bit total decode if and only if they fit |
| PpduHeader.ContEndHeaderRoundTrip | src/header.c:263-299 | The same for CONT and END |
| PpduHeader.LengthFields | src/header.h:545-573 | The split length field and the indicator bits share two bytes without disturbing one another |
| PpduHeader.TotalFields | src/header.h:575-603 | The split total length and the bits beside it do not disturb one another |
| PpduHeader.HeaderWords | src/header.h:90-149 | The headers as big-endian words: where each bit, length, total, label type and id stands |
| PpduHeader.LengthOf | src/rle_ctx.c:209-214 | The length read from any two bytes is between 2 and 2049 |
| CrcTable.Table | src/crc.c:90-144 | Every entry is eight steps of bit-by-bit division by 0x04c11db7 |
| Crc.ComputeCrc | src/crc.c:160-170 | The table-driven loop computes the remainder of the bit-by-bit division |
| Crc.ComputeCrc32 | src/trailer.c:63-83 | The two calls are one division over type and SDU |
| Crc.DivideConcat | src/trailer.c:73-78 | The division of a concatenation is the division of its parts in turn |
| Crc.DivideInjective | src/crc.c:166-168 | The division of any data loses no information about its starting state |
| Crc.DivideWindow | src/crc.c:166-168 | Up to four bytes enter the division as one word added to the state |
| Crc.WindowCorruptionDetected | src/crc.c:160-170 | Two strings of any length that differ only within four consecutive bytes have different CRCs |
| Crc.SduCorruptionDetected | src/trailer.c:63-83 | The same for SDUs |
| Crc.CrcBytesInjective | src/trailer.c:133 | Comparing the stored bytes is comparing the CRCs |
| Crc.CheckValue | src/crc.h:89-91 | The published check value of the CRC over "123456789", as an SDU of type 0x3231 |
| Crc.CheckTrailerBytes | src/trailer.c:99-103 | The trailer of that SDU, byte by byte |
| Ctx.MaskUpdate | src/rle_ctx.h:735-768 | Setting or clearing the bit of one id is seen on that id and on no other |
| Ctx.IdBitIsShift | src/rle_ctx.h:755 | The mask of an id is one shifted by the id |
| Trailer.IntactSduChecked | src/trailer.c:116-175 | An SDU that arrives as sent is accepted by the CRC; by number exactly when none is awaited yet or it is the awaited one or zero; the next number is awaited afterwards, and an accepted SDU reports nothing lost |
| Trailer.CorruptedSduRejected | src/trailer.c:127-140 | An SDU corrupted within four consecutive bytes is rejected and counted as lost |
| Trailer.LostCountExact | src/trailer.c:158-159 | The reported number is the number missing if and only if the numbers did not wrap |
| Trailer.LostCountWraps | src/trailer.c:158-159 | Two ALPDUs missing around the wrap move the counter by 2^64 - 254 |
| Transmit.CutOneKeepsJobOk | src/header.c:515-545 | The invariant of every run: sizes stay in bounds and a fragmented ALPDU has its whole trailer unsent, so that no subtraction wraps |
| Transmit.TrailerIsNeverSplit | src/header.c:499-545 | START leaves at least three SDU bytes and the trailer, CONT at least the trailer, END carries all of it |
| Transmit.PpduBounds | src/header.c:459-603 | Every PPDU fits the burst and the 11-bit field, has a payload, is of the right type and announces its own length and total |
| Transmit.PayloadIsNextBytes | src/header.c:506-594 | Each PPDU carries exactly the next unsent bytes, and the sequence number is used up at START only |
| Transmit.RefusedExactly | src/header.c:490-536 | The exact bursts that are too small; eight bytes always suffice |
| Transmit.CutIsMaximal | src/header.c:508-545 | An ALPDU is cut only when it does not fit, and a cut PPDU fills the room unless that would split the CRC |
| Transmit.MeasureDecreases | src/header.c:483-603 | Unsent bytes, with the trailer counted before it exists, strictly decrease with each PPDU |
| Transmit.QueueMayGrow | src/trailer.c:99-111 | The raw queue size may grow at START |
| Transmit.ProtectionChosen | src/trailer.c:95-111 | In terms of the configuration fields alone: with sequence numbers allowed a START announces no CRC, one trailer byte follows and it is the number, which is used up; otherwise a CRC is announced and its four bytes follow |
| Transmit.FragmentReports | src/fragmentation.c:84-121 | When rle_fragment reports no SDU, a small burst or a PPDU, exactly; only a PPDU changes anything, and what it changes in the counters |
| Transmit.EncapsulateReports | src/encap.c:95-146 | When rle_encapsulate reports a bad size, a busy context or success, exactly, and what each leaves |
| Fragments.DrainRest | src/header.c:483-546 | From a fragmented ALPDU on, any bursts that empty the queue give CONT* END with exactly the unsent bytes |
| Fragments.DrainWhole | src/header.c:459-603 | Any bursts that empty the queue give one COMP, or START CONT* END whose payloads are a partition of header, SDU and trailer |
| Receive.StepKeepsRxOk | src/reassembly.c:459-469 | Whatever PPDU arrives, a busy context never holds more than its START announced |
| Receive.StartAcceptedExactly | src/reassembly.c:255-406 | A START is accepted if and only if the context is free, its header is readable and its total leaves room for some SDU byte and for those it carries; what the context holds then |
| Receive.ContAcceptedExactly | src/reassembly.c:408-490 | A CONT is accepted if and only if the context is busy and the announced size is not exceeded; only its bytes are added |
| Receive.DeliveredExactly | src/reassembly.c:492-634 | A context delivers if and only if an END comes, the context is busy, exactly the announced bytes are there, they can be rebuilt and the trailer fits; what it delivers is rebuilt from those bytes |
| Receive.AbortsExactly | src/reassembly.c:346-385 | Which STARTs fail an assertion, in both directions |
| Collecting.BufferIsCollected | src/reassembly_buffer.c:43-71 | Over any run, a busy buffer holds exactly the bytes of the fragments accepted since its START, at most 4094 |
| RoundTrip.StartOpens | src/reassembly.c:255-406 | The transmitter's START opens a free context with the right type, size and first bytes |
| RoundTrip.ContAccepted | src/reassembly.c:408-490 | Each of its CONTs is accepted and extends the buffer |
| RoundTrip.EndDecides | src/reassembly.c:492-634 | Its END delivers exactly that SDU or, out of sync or misread, rejects it, with every counter determined |
| RoundTrip.ReceiveTail | src/reassembly.c:408-634 | CONT* END received in full: all accepted, one verdict at the end |
| RoundTrip.ReceiveFragments | src/reassembly.c:255-634 | START CONT* END received in full by a free context |
| RoundTrip.ReceiveWhole | src/reassembly.c:163-253 | A COMP delivers its SDU unless it is misread, and touches no context |
| RoundTrip.EndToEnd | src/encap.c:77-178 | Every configuration, SDU and burst schedule that empties the queue: a free, synchronised context delivers exactly the SDU and is free again, if and only if the SDU is not misread |
| RoundTrip.EightByteBurstsDrain | src/fragmentation.c:64-121 | Bursts of eight bytes or more always empty the queue |
| Lossy.OneAlpdu | src/reassembly.c:296-301 | One ALPDU through a lossy channel, into any context: it delivers its own SDU or nothing when the context was free |
| Lossy.NoChimera | src/trailer.c:141-172 | Sequence-number mode, fragmented ALPDUs with consecutive numbers, any PPDUs lost: within 256 ALPDUs of the last trailer check, an initialised context delivers on a non-zero number exactly the SDU encapsulated with it |
| Lossy.ChimeraAtZero | src/trailer.c:162-165 | Number zero is a real exception: an initialised context in sync delivers a mix of two SDUs |
| Lossy.ChimeraBeforeInit | src/trailer.c:145-151 | So is the first trailer of a context |
| Lossy.ChimeraAfterWrap | src/trailer.c:153-160 | So is a full round of the numbers: with 257 ALPDUs since the last check a mix is delivered on number one |
| LossyLink.NoChimeraOnLine | src/trailer.c:141-172 | The same for the stream of any run of rle_encapsulate and rle_fragment calls, COMPs and abandoned ALPDUs included, from any matching state, any PPDUs dropped |
| LossyLink.LabelsAreTheLine | src/fragmentation.c:64-121 | The labelled stream of that theorem is, PPDU for PPDU, what the calls put on the line |
| LossyLink.NoChimeraFromNew | src/rle_receiver.c:104-148 | The same from two new ends |
| Resync.EachIsJudged | src/trailer.c:141-172 | After any whole-ALPDU losses each arriving ALPDU is judged by its number alone, or rejected before its number is looked at if it is misread |
| Resync.GapLaw | src/trailer.c:153-160 | Within 256 ALPDUs a number fits if and only if none is missing, and the count is exact if and only if the numbers did not wrap |
| Resync.Resynchronises | src/reassembly.c:604-622 | Misread arrivals are rejected and move nothing; any other is delivered if and only if it is the first one read, next in sequence after the last one read, or numbered zero; then the next number is awaited; the lost counter grows by exactly the number missing if and only if no wrap |
| Link.FragmentSimulated | src/fragmentation.c:64-121 | One call of rle_fragment and the receiver's step on its PPDU keep the two ends coupled and do what the fate of the SDU says; a refused call changes nothing |
| Link.LinkDelivers | src/fragmentation.c:64-121 | Any calls, any SDUs of any size offered at any time, any bursts: what is delivered, and whether a PPDU is refused, is exactly what the log of sent SDUs says, and no assertion fails |
| Link.NewLinkDelivers | src/rle_transmitter.c:109-153 | The same from two new ends |
| Link.SentIsDelivered | src/encap.c:77-146 | Everything sent comes out in order if and only if nothing sent was misread or abandoned; then no PPDU is refused |
| Link.TakenIsDelivered | src/encap.c:77-146 | When only valid, readable SDUs are offered, delivered plus in flight is exactly what was taken, in order |
| Link.MisreadCostsTheNext | src/reassembly.c:597-608 | A misread SDU in fragments takes the next fragmented SDU with it, unless that one is numbered zero |
| Link.AbandonedCostsTwo | src/encap.c:107-110 | An SDU abandoned after its START takes the next two fragmented ones with it, but only the first if the second is numbered zero |
| Interleave.StepIsLocal | src/rle_receiver.c:177-233 | A PPDU changes the context of its own id and no other |
| Interleave.TaggedStep | src/rle_receiver.c:206-223 | A PPDU steps the context of the transmitter context that built it, COMPs included, and no other |
| Interleave.OriginAlone | src/rle_receiver.c:177-233 | In any merge, the PPDUs of one origin, COMPs included, get exactly the outcomes they would get alone |
| Interleave.Independent | src/rle_receiver.c:177-233 | Any merge of streams: the context and outcomes of one id are those of its own fragments alone |
| Interleave.CompletesIndependent | src/reassembly.c:163-253 | COMP outcomes do not depend on the contexts |
| Interleave.MergedLinks | src/rle_receiver.c:177-233 | Eight streams merged in any way: the outcomes of each origin's PPDUs on the line are those of its link alone, so they deliver, in order, what its own log says, and exactly what it took when only valid, readable SDUs were offered |
| Conservation.EncapsulateBalance | src/encap.c:107-131 | SDUs in equals SDUs sent plus one if busy survives rle_encapsulate if and only if no invalid SDU is offered to a busy context |
| Conservation.TxConservation | src/fragmentation.c:111-115 | The balance and the byte counter over any run with valid sizes |
| Conservation.LineCost | src/fragmentation.c:115 | ALPDU + 2 bytes for a COMP; ALPDU + trailer + 4 + 2(n-1) for n fragments |
| Conservation.StepConserves | src/reassembly.c:610-622 | In order, each PPDU keeps the receiver's SDU balance, the current counter is the sum of the PPDU bytes since START, and bytes done grow only on delivery, by that sum |
| Conservation.OutOfOrderDrift | src/reassembly.c:289-301 | Out of order, the exact drift of both counters, and one SDU counted as lost |
| Conservation.CountersFollow | src/reassembly.c:391-634 | After any PPDU, SDUs and bytes in, SDUs and bytes delivered and SDUs lost are what a reader of PPDUs and return codes would have counted |
| Conservation.RxConservation | src/reassembly.c:391-396 | Receiver conservation over any run in order, delivered bytes being counted from the PPDUs by an observer |
| Fpdu.SplitPacked | src/deencap.c:119-175 | The loop finds exactly the PPDUs a frame was packed from, whatever the padding |
| Fpdu.SplitIsPrefix | src/deencap.c:126-143 | On any bytes, what it cuts is a prefix, each piece has the length it announces, and it stops only at the end, at padding or at a length that does not fit |
| Fpdu.ConsumeTurn | src/deencap.c:145-173 | One turn of the loop: status, SDU count and contexts after it |
| Fpdu.ConsumeServes | src/deencap.c:119-175 | The whole loop on any PPDUs and any number of buffers: which PPDUs are processed, what is returned, and the status: no buffer left, else an error exactly if a PPDU is refused or a length does not fit |
| Fpdu.ServedExactly | src/deencap.c:145-154 | A PPDU is processed exactly while fewer SDUs were delivered than there are buffers |
| Fpdu.RoomyServesAll | src/deencap.c:145-154 | A buffer for each COMP and END, and one to spare for what follows them, always suffices |
| Fpdu.RefusedFrames | src/deencap.c:73-106 | Which frames are refused before the loop, with which status, in raw sizes: labels of 0, 3 and 6 bytes and no others; they change nothing |
| Fpdu.FrameRoundTrip | src/deencap.c:60-191 | A frame of any PPDUs behind a label of 0, 3 or 6 bytes, any padding, any number of buffers: contexts, SDUs and status are those of feeding the receiver the same PPDUs up to the first that finds no buffer |
| System.SentIsParsable | src/fragmentation.c:107-109 | No PPDU of the transmitter is taken for padding |
| System.EmptyContIsPadding | src/header.c:490-495 | The rule against empty CONTs is needed: on id 0 one is read as padding |
| System.FramesDeliver | src/deencap.c:60-191 | However PPDUs were packed into frames, the frames deliver what the PPDUs deliver, and some frame reports an error if and only if a PPDU is refused |
| System.FittingFramesCarry | src/pack.c:99-148 | Frames large enough by their sizes alone, with a buffer for each COMP and END, meet every condition that SystemDelivers puts on frames |
| System.SystemDelivers | src/deencap.c:60-191 | From eight users of the transmitter to the user of the receiver, through any merge and any packing calls, with a free buffer before each PPDU: what comes out is a merge of the eight lists that the logs give, each in order and nothing else; for valid, readable SDUs no frame reports an error and the lists are the SDUs taken |
| FragmentationBuffer.FragBuf.Init | src/fragmentation_buffer.c:97-112 | All positions at byte 7 of a zeroed buffer |
| FragmentationBuffer.FragBuf.CpySdu | src/fragmentation_buffer.c:114-128 | Refuses exactly a long SDU or a buffer in use; otherwise the SDU stands where the headers fit in front |
| FragmentationBuffer.FragBuf.PushAlpduBytes | src/header.c:172-208 | The header is in front of the SDU and no other byte changed |
| FragmentationBuffer.FragBuf.DropVlanField | src/header.c:428-431 | The memmove and the push leave the SDU without bytes 16 and 17 |
| FragmentationBuffer.FragBuf.PushAlpduHdr | src/header.c:383-457 | In place, the copied SDU becomes the ALPDU of AlpduCodec.Encode |
| FragmentationBuffer.FragBuf.PpduInit | src/fragmentation_buffer.h:477-480 | The next PPDU starts at the current position, strictly inside the buffer |
| FragmentationBuffer.FragBuf.PpduPut | src/fragmentation_buffer.c:138-152 | The PPDU grows by the size asked for, never beyond the ALPDU |
| FragmentationBuffer.FragBuf.PushCompHdr | src/header.c:210-230 | The COMP header is right before the payload, which is unchanged |
| FragmentationBuffer.FragBuf.PushStartHdr | src/header.c:232-261 | The same for START with the total length |
| FragmentationBuffer.FragBuf.PushContEndHdr | src/header.c:263-299 | The same for CONT and END |
| Transmitter.FragCtx.PushAlpduTrailer | src/trailer.c:90-114 | The trailer is right behind the ALPDU; a sequence number is used up if and only if it is the trailer |
| Transmitter.FragCtx.PushPpduHdr | src/header.c:459-603 | The PPDU left in the buffer, the bytes still to be sent and the sequence number are those of Transmit.CutOne, and no unsent byte was overwritten |
| Transmitter.FragCtx.BuildPpdu | src/fragmentation.c:89-117 | The same with counters and completion, for a busy context |
| Transmitter.FragCtx.Load | src/encap.c:121-131 | Whatever the buffer held, it now holds the job of the SDU, CRC included |
| Transmitter.Transmitter.constructor | src/rle_transmitter.c:109-153 | Eight idle contexts that share nothing |
| Transmitter.Transmitter.Encapsulate | src/encap.c:77-146 | The context of the id steps as Transmit.Encapsulate says; no other id is touched; an id over 7 is an error without effect |
| Transmitter.Transmitter.Fragment | src/fragmentation.c:64-121 | The same for Transmit.Fragment; the PPDU is a slice of the context's buffer |
| ReassemblyBuffer.RasmBuf.Append | src/reassembly_buffer.c:43-58 | The bytes received so far are extended by the fragment |
| ReassemblyBuffer.SduBuf.InsertVlanField | src/reassembly.c:78-156 | The two copies and the rebuilt field give AlpduCodec.InsertVlanPtype, failures included |
| Receiver.RasmCtx.Start | src/reassembly.c:255-406 | The handler does what Receive.StepStart says, assertion failures included |
| Receiver.RasmCtx.Cont | src/reassembly.c:408-490 | The handler does what Receive.StepCont says |
| Receiver.RasmCtx.End | src/reassembly.c:492-634 | The handler does what Receive.StepEnd says, and the caller's buffer holds the delivered SDU |
| Receiver.RasmCtx.CheckSum | src/trailer.c:116-175 | The check does what Trailer.CheckTrailer says, with the C remainder of a negative difference |
| Receiver.Receiver.constructor | src/rle_receiver.c:104-148 | Eight free contexts that share nothing |
| Receiver.Receiver.FreeContext | src/rle_receiver.c:235-239 | One context is freed, nothing else changes |
| Receiver.BusyAfter | src/deencap.c:164-168 | After a PPDU a context is busy if and only if the PPDU was accepted, so the second freeing on error changes nothing |
| Receiver.Receiver.Handle | src/rle_receiver.c:206-223 | A fragment steps the context of its id, its bit included; the others keep their meaning |
| Receiver.Receiver.Deencap | src/rle_receiver.c:177-233 | All eight contexts after any PPDU, the return code, the index and the delivered SDU |
| Receiver.Receiver.Decapsulate | src/deencap.c:60-191 | Whatever the bytes, the loop terminates with the contexts, status, label and SDUs of Fpdu.Decapsulate, and the frame is only read |
| Packing.PackInit | src/pack.c:57-97 | Status, frame and room are those of InitFrame, and bytes behind stay |
| Packing.Pack | src/pack.c:99-148 | Status, frame and room are those of AddPpdu, and bytes behind stay |
| Packing.Pad | src/pack.c:150-157 | The room becomes zeros, the rest stays |
| Packing.PackedFrameParses | src/pack.c:57-157 | Any sequence of calls, refused ones included, keeps the frame size, and after padding the parser finds exactly the PPDUs that were taken, in order, behind a label of valid size |
| Packing.PackReports | src/pack.c:57-148 | The status of each refusal of either call, exactly, in raw sizes; a refused call changes nothing |
| Packing.TakenIfItFits | src/pack.c:126-131 | After any calls, the next PPDU is taken if and only if it is not empty, the label is valid and the frame with it is not longer than its size |
| Packing.TakesAllThatFits | src/pack.c:99-148 | A frame takes all of a list of PPDUs if and only if label and PPDUs together fit |

## Left out

- Logging, timing blocks and buffer dumps, and the loop that only warns about non-zero padding: no effect on state.
- Allocation, destruction and NULL arguments, with the statuses that report them and the NULL-against-size test of the label in rle_decapsulate: objects exist already.
- The kernel module, the pcap tools, the test programs and the build files: input and output.
- Statistics getters and counter resets, rle_get_header_size: single reads and writes.
- rle_frag_contextless: the COMP branch of the same code without a context.
- Big-endian hosts: headers are the same bytes there; the type fed to the CRC and the CRC itself are stored in host order, here little-endian at both ends.
- Counters are unbounded, except the lost counter, which is 64 bits wide because wrapped differences are added to it.
- A failed assertion of the source is an outcome or a precondition; nothing is said about the state after it.
- Receiver.Receiver.Decapsulate: a PPDU is handed to its handler as a value, not as a pointer into the frame, because the handlers only read it.
- Transmitter.Transmitter.Fragment: the PPDU is described as it stands at return; the next call on the same id may overwrite it, as in the source.
- ReassemblyBuffer.SduBuf.InsertVlanField: the caller's SDU buffer is required to hold 4096 bytes, which the source leaves to its caller.
- Conservation.TxConservation: sizes from 1 to 4088 only, because an invalid size forgets a queued SDU, which EncapsulateBalance states.
- Conservation.RxConservation: runs without a START on a busy context or a CONT or END on a free one, because those drift, which OutOfOrderDrift states.
- Crc.WindowCorruptionDetected: corruptions wider than four bytes can collide and nothing is claimed about them.
