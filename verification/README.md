# A verified model of libnack's algorithms and state machines

libnack is a cell console for roguelikes. Most of it is platform glue; this project models the parts that are
algorithms or protocols in their own right, and proves what they are for:

- **JPEG files** (`JpegHuffman`, `JpegBitWriter`, `JpegBlock`, `JpegEncoder`, `JpegScan`, `JpegTables`, `JpegRange`,
  `JpegBaseline`, `JpegFile`): canonical Huffman codes, the bit writer with byte stuffing, run/size coding, the scan
  loop and the marker segments, against the decoder of section F.2.2 of ITU-T T.81 and a reader of the markers, both
  written as specifications. The result is a round trip for whole scans and whole files, with the exact condition
  under which it holds.
- **X11 selections** (`IncrSends`, `IncrProtocol`, `IncrFeeding`, `IncrRuns`, `IncrProgress`, `IncrRestart`,
  `IncrAlone`, `IncrWitnesses`, `IncrReader`): the four outgoing INCR slots as a class; the conversation between
  owner, server and any number of requestors as a step relation, with an invariant over all runs, completion under
  fair schedules, and the exact conditions under which a read is whole and a delete is reported; the read loop, which
  serves while it reads.
- **UTF-8 and word wrapping** (`Utf8`, `WordWrap`, `WordWrapLaws`): what the decoder makes of any bytes, what
  `print_wrapped` draws, that it keeps the text, malformed bytes or not, and that no layout of its kind needs fewer rows.
- **Dungeon and turns** (`Grid`, `Dungeon`): connectivity of every level whatever `rand()` returns, and safety of every
  game played on it.
- **GL entry-point cache** (`ProcCache`): open addressing that answers as its resolver over every run.
- **PNG rows** (`PngFilter`, `Adam7`): filters and interlacing with their inverses.
- **Tilesets and rendering** (`Cp437`, `TilesetMap`, `Batching`): the two-table codepoint map as one finite map, its
  seeding, and the per-atlas passes as a reordering of the per-cell rendering.
- **Input** (`EventCore`, `KeyRepeat`, `Utf16`): latched keys, focus and the queue; client-side key repeat on top of
  them; UTF-16 recombined message by message and string by string.

Round trips are against decoders written from the standards: the reconstruction of PNG filters, the choice of JPEG
tables, the value of a UTF-8 sequence and the place of a pixel are each written out a second time. Where code and
specification do share a helper, a lemma says in other terms what it does.

`Bits`, `Division`, `Options` and `Sequences` hold what the others share. Code that changes state in the repository is a
class with methods here, each method tied to a function of the old state; code made of expressions is a function. An
error return, a `KeyError` or a `NULL` is a missing value. `rand()`, the clock, the resolver and the field of view are
parameters or nondeterminism.

Where a promise fails, the code is kept and the failure is stated:

- `encode_block` does not bound coefficients: from sixteen bits on, `(run << 4) | size` can be the key of another
  symbol. `BlockRoundTrip` is an equivalence and `WideCoefficientMisread` an input that fails.
- An overlong UTF-8 form of a space is not a separator for `print_wrapped` but decodes to one. `ContentPreserved` is an
  equivalence and `OverlongSpaceIsDrawn` an input that fails.
- `map_range` with `last` at 2^32 - 1 wraps and never succeeds; `MapRange` gives its exact result.
- A filter number above 4 is written as it is and filtered with Paeth; `RawRoundTrip` is an equivalence.
- Deletes of a shared property are answered from the first slot only (`SharedKeyStarvesLater`), so a requestor that
  asks again while a transfer of its is alive can be fed from the old one. `ReadIsWholeIff` says exactly when its read
  is whole all the same, and `RestartLosesData` is a run, for any large selection, whose second read ends without the
  first chunk. The run theorems of `IncrRuns` assume only that a transfer begins where no live, unexpired transfer of
  the same property is left (`Distinctly`), and that a requestor has its answer, good or bad, before it asks again
  (`Answered`). Without that a read takes the answer to an earlier request: `FirstAnswerTaken` says so for all inputs,
  and `StaleAnswerTaken` is a run in which the text was replaced meanwhile.
- Ending a transfer stops watching the requestor's window, whatever other transfers go there. `WatchStep` and
  `ReportedUntilEnd` say exactly when a delete is reported, `BlindWindowStalls` is a run in which a live transfer stalls
  for good, and with one transfer for each window (`Solely`) none does: `FairTransferCompletes`.
- A pump that emits exactly 32 repeats leaves the grid even if it had caught up, because the guard is compared after the
  loop. `GridKeptIff` is an equivalence and `ExactlyAtGuard` the inputs that fail.
- A tileset registered twice would have its cells drawn twice; `BatchingPreserves` is an equivalence.

The comment on key repeat in the source speaks of catching up after a long block; the code also gives up the grid when
exactly 32 repeats were due, and the model follows the code.

## Model

| member | source | states |
|---|---|---|
| JpegHuffman.HuffmanCodes | tools/mkjpeg.py:92-104 | For sixteen counts and a symbol for every code, the dictionary gives the k-th symbol the k-th canonical code (codes of one length consecutive, each length starting at twice the end of the one before); a repeated symbol keeps its last code |
| JpegHuffman.FirstCodeIsKraftSum | tools/mkjpeg.py:96-103 | The first code of a length is the Kraft sum of all shorter codes at that length's scale |
| JpegHuffman.CodesFitIffKraft | tools/mkjpeg.py:92-104 | Every code fits its length if and only if the Kraft sum is at most 1 |
| JpegHuffman.DecodeOfCode | tools/mkjpeg.py:92-104 | The DECODE procedure of figure F.16 of ITU-T T.81, run on the k-th code followed by anything, yields k and stops exactly after the code |
| JpegHuffman.PrefixFree | tools/mkjpeg.py:92-104 | With Kraft sum at most 1 no code is a prefix of another |
| JpegHuffman.DecodeOfSymbol | tools/mkjpeg.py:92-104 | With distinct symbols, decoding the code of a symbol gives the symbol back and leaves the rest of the stream |
| JpegHuffman.UniquelyDecodable | tools/mkjpeg.py:92-104 | Two symbol strings with the same concatenated codes are equal |
| JpegBitWriter.UnstuffsIffNoMarker | tools/mkjpeg.py:148-152 | A byte stream can be unstuffed if and only if every 0xFF is followed by 0x00 |
| JpegBitWriter.UnstuffAppend | tools/mkjpeg.py:148-152 | Unstuffing distributes over concatenation, so it undoes the writer byte by byte |
| JpegBitWriter.BitStep | tools/mkjpeg.py:143-154 | One turn of the write loop appends exactly one bit to what a decoder reads back, also when it completes (and escapes) a byte |
| JpegBitWriter.BitWriter.constructor | tools/mkjpeg.py:138-141 | A new writer has written nothing |
| JpegBitWriter.BitWriter.PutBit | tools/mkjpeg.py:145-154 | The body of the write loop appends one bit to the decoded content |
| JpegBitWriter.BitWriter.Write | tools/mkjpeg.py:143-154 | Appends the low `length` bits of the code, most significant first, to the decoded content |
| JpegBitWriter.BitWriter.Flush | tools/mkjpeg.py:156-158 | Ends on a byte boundary after fewer than eight bits of padding, all of them ones |
| JpegBlock.CategoryOf | tools/mkjpeg.py:161-169 | The category n of a value other than zero satisfies 2^(n-1) <= abs(value) < 2^n, and is 0 only for zero |
| JpegBlock.ExtendInvertsEncodeBits | tools/mkjpeg.py:172-173 | EXTEND of figure F.12 of ITU-T T.81 inverts the magnitude bits of every integer |
| JpegBlock.NegativeIsComplement | tools/mkjpeg.py:172-173 | A positive value is written as its binary digits, a negative one as those of its opposite with every digit inverted |
| JpegBlock.ReceiveMagnitude | tools/mkjpeg.py:172-185 | Reading `category` bits of the stream and extending them gives the value back and leaves the rest |
| JpegBlock.RunSizeOfSmall | tools/mkjpeg.py:197 | The run shifted by four bits and or-ed with the size is 16 * run + size, for every run, when the size fits four bits |
| JpegBlock.RunRoundTrip | tools/mkjpeg.py:192-199 | The ZRL codes and the run/size code of one coefficient decode to exactly the pending zeroes and the coefficient, for runs of any length |
| JpegBlock.AcRoundTrip | tools/mkjpeg.py:187-203 | The AC codes of a block from any coefficient on, with any number of zeroes pending, decode to the rest of the block, including the end-of-block rule |
| JpegBlock.DecodedAcIsSmall | tools/mkjpeg.py:197 | No stream at all decodes to an AC coefficient of more than fifteen bits |
| JpegBlock.BlockRoundTrip | tools/mkjpeg.py:176-204 | An encoded block decodes to itself whatever follows it, if and only if every AC category is at most 15 |
| JpegEncoder.ZigzagRoundTrip | tools/mkjpeg.py:178 | Reordering by ZIGZAG and by its inverse table (figure A.6 of ITU-T T.81) undo each other |
| JpegEncoder.ZigzagWalks | tools/mkjpeg.py:17-25 | ZIGZAG starts in the upper left corner and goes step by step along the diagonals as in figure A.6 of ITU-T T.81, up to the right and down to the left in turn |
| JpegEncoder.WriteSymbol | tools/mkjpeg.py:193-194 | Writes a symbol's code, or fails when it has none |
| JpegEncoder.WriteCoefficient | tools/mkjpeg.py:196-199 | Writes a symbol's code followed by the magnitude bits of the value |
| JpegEncoder.WriteRun | tools/mkjpeg.py:192-199 | Writes the specified bits of a run and its coefficient; fails exactly when a code is missing |
| JpegEncoder.WriteAc | tools/mkjpeg.py:187-203 | The coefficient loop writes the specified AC bits of the block, or fails exactly when they do not exist |
| JpegEncoder.EncodeBlock | tools/mkjpeg.py:176-204 | Appends the specified bits of the block and returns its DC coefficient; fails exactly when some symbol has no code |
| JpegScan.McuRoundTrip | tools/mkjpeg.py:267-280 | A decoder with one pair of tables for each component, the luminance tables for the first and the chrominance tables for all others, reads every component of an MCU back with its own prediction |
| JpegScan.ScanRoundTrip | tools/mkjpeg.py:263-280 | The bits of any scan decode to its MCUs when the first component is read with the luminance tables and every other with the chrominance tables, each block predicted from the upper left coefficient of the same component one MCU before |
| JpegScan.DecodedScanIsSmall | tools/mkjpeg.py:263-281 | Whatever a decoder reads from any bit string has AC categories of at most 15 |
| JpegScan.EncodeComponent | tools/mkjpeg.py:276-280 | Appends the bits of the block under the luminance tables if it is the first component's, under the chrominance tables otherwise |
| JpegScan.EncodeMcu | tools/mkjpeg.py:267-280 | Appends the specified bits of one MCU and returns the new prediction of every component |
| JpegScan.WriteScan | tools/mkjpeg.py:263-280 | Writes the specified bits of the whole scan, or reports a missing code |
| JpegScan.EncodeScan | tools/mkjpeg.py:263-282 | The segment holds no marker; read with the luminance tables for the first component and the chrominance tables for all others it gives the MCUs back if and only if every AC category is at most 15, for all valid tables; a scan of one component needs the luminance tables alone |
| JpegTables.AcLumaIndexed | tools/mkjpeg.py:56-72 | No AC luminance symbol stands in two places of the table |
| JpegTables.AcChromaIndexed | tools/mkjpeg.py:73-89 | No AC chrominance symbol stands in two places of the table |
| JpegBaseline.ValidFrom | tools/mkjpeg.py:51-89 | A table with as many distinct symbols as codes and a Kraft sum of at most 1 is valid; the four Annex K tables are built through it |
| JpegBaseline.DcTablesComplete | tools/mkjpeg.py:51-54 | The DC tables have a code for exactly the sizes 0 to 11 |
| JpegBaseline.AcLumaComplete | tools/mkjpeg.py:56-72 | The AC luminance table has ZRL, EOB and, for every run, exactly the sizes 1 to 10 |
| JpegBaseline.AcChromaComplete | tools/mkjpeg.py:73-89 | The AC chrominance table has ZRL, EOB and, for every run, exactly the sizes 1 to 10 |
| JpegRange.BlockCoded | tools/mkjpeg.py:176-204 | A block is encoded with small AC categories if and only if its DC difference is within 2047 and its AC coefficients within 1023 |
| JpegRange.ScanCoded | tools/mkjpeg.py:263-281 | A scan is encoded with small AC categories if and only if every block is in that range |
| JpegBaseline.EncodeBaselineScan | tools/mkjpeg.py:222-282 | With the tables of Annex K of ITU-T T.81, luminance for the first component and chrominance for the others (luminance alone for a grey scan), a scan is encoded and decodes to itself if and only if every DC difference and AC coefficient is in baseline range; no marker appears in it |
| JpegBaseline.WideCoefficientMisread | tools/mkjpeg.py:196-199 | A coefficient of 65536 is encoded without complaint and decodes to something else |
| JpegFile.NextTells | tools/mkjpeg.py:207-208 | A segment's length field brings a reader exactly to the segment after it, with what this one told added to what the file told before |
| JpegFile.NotedQuant | tools/mkjpeg.py:241-244 | From a DQT segment the reader has the quantisation table back in natural order |
| JpegFile.NotedTable | tools/mkjpeg.py:211-213 | From a DHT segment the reader has the table back under its class and number |
| JpegFile.NotedFrame | tools/mkjpeg.py:246-249 | From the frame header the reader has width, height and, for each component, its number and its quantisation table |
| JpegFile.FrameHeader | tools/mkjpeg.py:246-248 | The loop over the components writes the frame header: the first component names quantisation table 0, the others table 1 |
| JpegFile.ScanHeader | tools/mkjpeg.py:257-260 | The loop over the components writes the scan header: the first component names Huffman tables 0, the others tables 1 |
| JpegFile.WriteTables | tools/mkjpeg.py:251-255 | After these segments a reader knows the luminance tables as number 0 and, unless the file is grey, the chrominance tables as number 1 |
| JpegFile.GreyRead | tools/mkjpeg.py:250-283 | A reader of a grey file decodes its segment with the luminance tables alone; there are no others in the file |
| JpegFile.ColourRead | tools/mkjpeg.py:250-283 | A reader of a colour file decodes the first component with the tables numbered 0 and the two others with the tables numbered 1, because the scan header names them |
| JpegFile.EncodeJpeg | tools/mkjpeg.py:238-284 | A reader that knows nothing but what the markers tell it gets size, quantisation tables and every quantised block of the file back if and only if width and height fit sixteen bits and every coefficient is in baseline range |
| IncrSends.Selections.constructor | src/xcb/nack_xcb_clipboard.cpp:76-86 | Starts with four idle slots |
| IncrSends.Selections.End | src/xcb/nack_xcb_clipboard.cpp:88-104 | Ends an active transfer and clears the event mask of its requestor; does nothing to an idle slot |
| IncrSends.Selections.FindSlot | src/xcb/nack_xcb_clipboard.cpp:107-120 | Ends every expired transfer, then gives the first idle slot if there is one |
| IncrSends.Selections.HandlePropertyNotify | src/xcb/nack_xcb_clipboard.cpp:126-156 | A delete is answered from the first active transfer for the property, and only then reported as handled; any other property event changes nothing |
| IncrSends.Selections.Write | src/xcb/nack_xcb_clipboard.cpp:159-216 | One target of a request: the target list, the text in one piece, the start of an incremental transfer, or a refusal |
| IncrSends.RetireAt | src/xcb/nack_xcb_clipboard.cpp:107-120 | Retiring ends exactly the active transfers whose deadline has passed, and changes no property |
| IncrSends.RetireWatches | src/xcb/nack_xcb_clipboard.cpp:88-120 | Retiring stops watching the windows of the transfers it ends, and no others |
| IncrSends.AnswerIsLocal | src/xcb/nack_xcb_clipboard.cpp:126-156 | Answering a delete changes no other transfer and no other property; the window stays watched unless this was the last answer of the transfer |
| IncrSends.LiveTransferSurvives | src/xcb/nack_xcb_clipboard.cpp:107-120 | A request never overwrites or ends a live transfer that has not expired |
| IncrSends.ServedIff | src/xcb/nack_xcb_clipboard.cpp:159-216 | A request is served if and only if the selection is owned, the property is not None, the target is known, and, for a large text, some slot is idle or expired |
| IncrSends.LargeRequest | src/xcb/nack_xcb_clipboard.cpp:184-206 | A large text takes the first slot that is idle or out of time, is announced by its size as a 32-bit number and has its window watched; the other slots that are out of time end, the rest are kept |
| IncrSends.NoSlotLeft | src/xcb/nack_xcb_clipboard.cpp:186-188 | With four live, unexpired transfers a large text is refused and nothing changes |
| IncrSends.SmallRequest | src/xcb/nack_xcb_clipboard.cpp:159-216 | Every other request leaves the transfers alone and puts the four targets or the text in the property, or is refused without a change |
| IncrSends.AnswerProgress | src/xcb/nack_xcb_clipboard.cpp:139-152 | Each answer leaves strictly less to send and renews the deadline, or ends the transfer when all is sent |
| IncrSends.AnswerPosts | src/xcb/nack_xcb_clipboard.cpp:139-148 | An answer appends at most 65536 bytes of the text to what the property holds (or starts it), is refused by the server for a property of another type, and gives the transfer ten more seconds |
| IncrSends.SharedKeyStarvesLater | src/xcb/nack_xcb_clipboard.cpp:131-154 | Of two active transfers on one property the later is never answered |
| IncrFeeding.OthersUnseen | src/xcb/nack_xcb_clipboard.cpp:126-216 | No step of another requestor, of the clock or of the clipboard changes what a conversation can see: its events, its property, its requestor and its transfer, unless the transfer has expired |
| IncrFeeding.FeedingStep | src/xcb/nack_xcb_clipboard.cpp:126-156 | A requestor that a transfer feeds goes on being fed the same bytes by every step that does not retire the transfer or give the read up |
| IncrFeeding.FeedingContinues | src/xcb/nack_xcb_clipboard.cpp:328-385 | Along any such stretch, with any number of transfers for the property, what the requestor ends with is what its transfer had to send |
| IncrFeeding.StalledStays | src/xcb/nack_xcb_clipboard.cpp:99-101 | A requestor whose delete was not reported gets nothing more, whatever anybody does, until it gives up |
| IncrRuns.StepPreserves | src/xcb/nack_xcb_clipboard.cpp:126-216 | Every step of the owner, of any requestor, of the clock and of the clipboard keeps the invariant of every conversation: leftover deletes, expired transfers, refusals and small answers beside a live transfer included |
| IncrRuns.RunKeepsInv | src/xcb/nack_xcb_clipboard.cpp:126-216 | The invariant holds in every state of every run in which an answer is awaited before the next request and a transfer begins only where no live, unexpired transfer of the property is left |
| IncrRuns.TransferConserves | src/xcb/nack_xcb_clipboard.cpp:126-156 | In every state of such a run in which a read has a live transfer, received bytes + chunk in the property + unsent bytes is the snapshot taken at the request, even if the clipboard is replaced or lost meanwhile |
| IncrRuns.DoneIsWhole | src/xcb/nack_xcb_clipboard.cpp:328-385 | In such a run a finished read holds the whole selection, after exactly ceil(len / 65536) + 1 answered deletes |
| IncrRuns.SnapshotIsOwned | src/xcb/nack_xcb_clipboard.cpp:199-205 | The snapshot is the selection owned when the request was served, and nothing but the next request served changes it |
| IncrProgress.WatchStep | src/xcb/nack_xcb_clipboard.cpp:88-104 | A window is watched after a step exactly when the step begins a transfer to it, or it was watched and the step ends no transfer to it |
| IncrProgress.ReportedUntilEnd | src/xcb/nack_xcb_clipboard.cpp:99-101 | In any run at all, while no new transfer begins to a watched window, a delete there is reported if and only if no transfer to the window has ended since |
| IncrProgress.GuardedStep | src/xcb/nack_xcb_clipboard.cpp:159-216 | If a transfer begins only for a window no other live transfer goes to, no two go to one window and every transfer's window stays watched |
| IncrProgress.SoleRunKeepsInv | src/xcb/nack_xcb_clipboard.cpp:126-216 | In every state of every such run each conversation's invariant holds and every requestor that has asked for a chunk has been heard |
| IncrProgress.TransfersAreWatched | src/xcb/nack_xcb_clipboard.cpp:182-205 | In every such run the owner watches the window of every live transfer |
| IncrProgress.MeasureStep | src/xcb/nack_xcb_clipboard.cpp:126-156 | Under any interleaving the answers still missing never grow, drop by one with each answered delete, and with the rest of the measure shrink at each turn of owner or requestor |
| IncrProgress.FairReadFinishes | src/xcb/nack_xcb_clipboard.cpp:328-385 | If owner and requestor keep getting turns and, as long as the requestor needs an answer, its window is watched and its transfer not retired, the read finishes with exactly the bytes due, whatever all others do and whatever other transfers there are |
| IncrProgress.FairTransferCompletes | src/xcb/nack_xcb_clipboard.cpp:328-385 | With one transfer for each window, fair turns alone bring the requestor of an unexpired transfer the whole selection |
| IncrRestart.AnyRunShaped | src/xcb/nack_xcb_clipboard.cpp:402-453 | In every state of every run, with any number of live transfers for a property, at most one delete is on its way and each requestor's inbox and property fit its phase |
| IncrRestart.FirstAfterServing | src/xcb/nack_xcb_clipboard.cpp:107-120 | After a request is served, the transfer that answers the property is the live one in an earlier slot if there is one, and the new one otherwise |
| IncrRestart.ReadIsWholeIff | src/xcb/nack_xcb_clipboard.cpp:402-453 | A read that ends undisturbed holds the selection it asked for if and only if no live transfer of the property stood in an earlier slot when its request was served, or that one had the very same bytes still to send |
| IncrRestart.RestartConserves | src/xcb/nack_xcb_clipboard.cpp:402-453 | At every moment of such a read until the empty chunk, received bytes + chunk in the property + unsent bytes of the transfer that answers is what that transfer had to send when the request was served |
| IncrRestart.RunReadIsWholeIff | src/xcb/nack_xcb_clipboard.cpp:402-453 | The same equivalence for every run with any number of live transfers for a property: a selection served at one time and its read over at a later one |
| IncrRestart.StartedRivalLoses | src/xcb/nack_xcb_clipboard.cpp:402-453 | If that earlier transfer had sent something of the same selection, the read ends short |
| IncrRestart.RestartedReadFinishes | src/xcb/nack_xcb_clipboard.cpp:402-453 | With fair turns such a read does end, with exactly the bytes the earlier transfer had left |
| IncrRestart.FirstAnswerTaken | src/xcb/nack_xcb_clipboard.cpp:402-453 | A read that waits while several requests of its are unanswered takes the answer to the first of them, be it a refusal, a text or the start of a transfer; the others are still queued when it does |
| IncrAlone.TurnsAreFair | src/xcb/nack_xcb_clipboard.cpp:126-156 | Owner and requestor taking turns with nobody else waiting is such a fair schedule, rival transfers or not |
| IncrAlone.RivalReadFinishes | src/xcb/nack_xcb_clipboard.cpp:402-453 | From any state in which the next request is served and nobody else waits, taking turns brings the read to its end, with what the transfer that answers had to send |
| IncrWitnesses.RestartLosesData | src/xcb/nack_xcb_clipboard.cpp:416-453 | For any selection of more than one chunk, a run in which a requestor gives up on UTF8_STRING, asks for STRING and reads to the end, undisturbed: the first chunk is missing |
| IncrWitnesses.BlindWindowStalls | src/xcb/nack_xcb_clipboard.cpp:99-101 | A run in which the end of one transfer leaves the requestor of another, live transfer to the same window waiting for an answer that cannot come |
| IncrWitnesses.StaleAnswerTaken | src/xcb/nack_xcb_clipboard.cpp:402-453 | A run in which a requestor asks again before its first request was answered: its second read takes the answer to the first, and ends with a text that was replaced before the second was served |
| IncrReader.Dispatch | src/xcb/nack_xcb.cpp:570-594 | One event handed on is the protocol's own step: a delete or a request at the head of the owner's queue leaves slots, server and owned text as `OwnerStep` would in any state of the protocol, a lost selection as `SetClipboard(None)`; anything else changes nothing |
| IncrReader.DispatchIsStep | src/xcb/nack_xcb.cpp:784-791 | What dispatching makes of an event is what the step of the protocol makes of it, whatever else is queued and whoever else is reading |
| IncrReader.ServedMeanwhile | src/xcb/nack_xcb_clipboard.cpp:346-358 | A live transfer alone on its property, not out of time when a request is handled, has after k deletes heard during a read sent exactly min(len, k * 65536) of its len bytes, and has ended after ceil(len / 65536) + 1 |
| IncrReader.WaitForProperty | src/xcb/nack_xcb_clipboard.cpp:304-325 | Dispatches everything up to the next event about a property |
| IncrReader.ReadIncr | src/xcb/nack_xcb_clipboard.cpp:328-385 | Returns the chunks up to the empty one, nothing on a timeout or a failed read; every transfer that was live when it began has by its end sent a chunk for each delete heard meanwhile, or has ended after the last of them |
| IncrReader.ReadReturnsSnapshot | src/xcb/nack_xcb_clipboard.cpp:328-385 | Along every run, a read that begins after the announcement and comes to its end makes that loop return exactly the snapshot, whatever other events its process hears in between |
| IncrReader.ChunksAreReads | src/xcb/nack_xcb_clipboard.cpp:328-385 | Along a run the loop deletes the property once for the announcement and once for each chunk the requestor reads |
| Utf8.DecodeNext | src/console/nack_console.cpp:16-40 | One codepoint and the bytes it took, told from the bytes alone: ASCII is itself; a lead byte followed by all the continuation bytes it announces is the value of their bits; any other byte is U+FFFD and one byte long |
| Utf8.NextReads | src/console/nack_console.cpp:16-40 | The same for every byte string and every position in it |
| Utf8.MalformedIsOneByte | src/console/nack_console.cpp:29-34 | A byte that cannot lead, or is not followed by all it announces, costs one U+FFFD, and decoding goes on with the very next byte |
| Utf8.TailInside | src/console/nack_console.cpp:31-38 | Continuation bytes that were accepted all lie inside the string |
| Utf8.EncodeWellFormed | src/nack.cpp:67-93 | The encoding of a value below 2^21 is a UTF8-char of section 4 of RFC 3629 if and only if the value is a Unicode scalar value |
| Utf8.NextOfEncode | src/nack.cpp:67-93 | The console's decoder reads an encoded codepoint back, wherever it stands in a string |
| Utf8.DecodeOfEncodeAll | src/nack.cpp:67-93 | Decoding any string of encoded codepoints gives the codepoints back |
| Utf8.DecodeOfPieces | src/console/nack_console.cpp:16-40 | A text of encoded codepoints with stray bytes anywhere between them, none completed by what follows, decodes to the codepoints with one U+FFFD for each stray byte |
| Utf8.Resynchronises | src/console/nack_console.cpp:29-34 | Before well-formed text any single byte that is not ASCII is U+FFFD, and every codepoint after it is read |
| WordWrap.MeasureWord | src/console/nack_console.cpp:248-253 | The end of the word and its length in codepoints |
| WordWrap.Console.Put | src/console/nack_console.cpp:127-139 | Writes one cell inside the console and nothing outside it |
| WordWrap.Console.PutGlyph | src/console/nack_console.cpp:262-267 | One glyph at the layout's next position, drawn unless measuring or below the height |
| WordWrap.Console.PrintWord | src/console/nack_console.cpp:260-269 | Draws a word as the layout places it; the second walk over it ends exactly at `scan` |
| WordWrap.Console.WrapWord | src/console/nack_console.cpp:248-270 | Moves a word that does not fit to a fresh row and draws it |
| WordWrap.Console.PrintItem | src/console/nack_console.cpp:230-271 | One turn of the loop draws one newline, space or word of the layout |
| WordWrap.Console.PrintWrapped | src/console/nack_console.cpp:219-274 | The console afterwards is the layout of the text's items drawn on the console before, and the result is the layout's row count, the same whether drawing or measuring |
| WordWrapLaws.LayoutOrdered | src/console/nack_console.cpp:230-271 | Positions strictly increase in reading order and every column is below the width |
| WordWrapLaws.WordKeptWhole | src/console/nack_console.cpp:255-258 | A word of at most `width` codepoints stands whole in neighbouring cells of one row |
| WordWrapLaws.LayoutComplete | src/console/nack_console.cpp:230-271 | The glyphs placed are the glyphs of all words, in order |
| WordWrapLaws.ContentPreserved | src/console/nack_console.cpp:219-274 | The placed codepoints are the decoded text without spaces and newlines, if and only if no multi-byte sequence decodes to one of these |
| WordWrapLaws.StrayBytesLoseNothing | src/console/nack_console.cpp:219-274 | A malformed byte costs its own cell and nothing else: every codepoint before and after it is drawn |
| WordWrapLaws.ItemsOfText | src/console/nack_console.cpp:230-253 | Newlines, spaces and words written out as bytes are read as those newlines, spaces and words |
| WordWrapLaws.OverlongSpaceIsDrawn | src/console/nack_console.cpp:26-36 | The bytes C0 A0 decode to a space and are drawn as a glyph |
| WordWrapLaws.GlyphShown | src/console/nack_console.cpp:265-268 | Nothing overwrites a drawn glyph: every glyph above the height is on the console at the end |
| WordWrapLaws.OtherCellsKept | src/console/nack_console.cpp:127-139 | Every cell no glyph was placed on keeps what it had |
| WordWrapLaws.WrappedTextShown | src/console/nack_console.cpp:219-274 | A text that fits its box is on the console glyph by glyph, and all other cells are unchanged |
| WordWrapLaws.GreedyLeads | src/console/nack_console.cpp:230-271 | After every item the greedy position is at or before that of any layout allowed |
| WordWrapLaws.FewestRows | src/console/nack_console.cpp:219-274 | No layout that keeps short words whole, keeps gaps on a row and starts long words on a fresh row uses fewer rows than `print_wrapped` returns |
| WordWrapLaws.GreedyAttainsFewest | src/console/nack_console.cpp:219-274 | The greedy layout is itself one of those layouts |
| Grid.RoomConnected | examples/roguelike.cpp:80-86 | All cells of a carved room are connected to its centre |
| Grid.CorridorConnected | examples/roguelike.cpp:88-94 | All cells of a corridor are connected to its start |
| Grid.StillConnected | examples/roguelike.cpp:124-128 | Adding a room and its corridor keeps every floor cell reachable from the start |
| Grid.FarRoomsDisjoint | examples/roguelike.cpp:112-120 | Rooms that pass the overlap test share no cell |
| Grid.TooCloseIff | examples/roguelike.cpp:112-117 | The overlap test holds exactly when some cell of the one room is a cell of the other or next to it, also diagonally |
| Grid.CorridorIsWay | examples/roguelike.cpp:88-94 | A corridor is the cells on the way from its first end along that end's row and then along the other end's column, and no others |
| Dungeon.EveryRoomRolled | examples/roguelike.cpp:106-109 | Every room of five to twelve by three to seven cells inside the border can be rolled |
| Dungeon.Game.CarveRoom | examples/roguelike.cpp:80-86 | Makes floor of exactly the room's cells inside the border |
| Dungeon.Game.CarveCorridor | examples/roguelike.cpp:88-94 | Makes floor of exactly the two legs of the corridor |
| Dungeon.Game.Overlaps | examples/roguelike.cpp:112-120 | True if and only if some earlier room is too close |
| Dungeon.Game.AddRoom | examples/roguelike.cpp:124-131 | Keeps the level connected, inside the border and its rooms apart, and adds exactly the room and the corridor |
| Dungeon.Game.CarveLevel | examples/roguelike.cpp:101-132 | For every outcome of `rand()`: a connected level inside the border with pairwise disjoint rooms, at least one |
| Dungeon.Game.PlaceMonsters | examples/roguelike.cpp:137-153 | At most 24 unhurt monsters of the three kinds on floor in rooms other than the player's, none on the player's cell: at most two for each such room, and some in every one unless all 24 are placed |
| Dungeon.Game.GenerateMap | examples/roguelike.cpp:96-154 | Every floor cell is reachable from the player's start by orthogonal steps; rooms are disjoint; the game is playable |
| Dungeon.Game.MonsterAt | examples/roguelike.cpp:211-217 | The first living monster on the cell, if any |
| Dungeon.ActOnce | examples/roguelike.cpp:219-240 | After all have acted, each monster is where its own turn left it: a living visible monster beside the player has stayed; any other stands on the cell each of whose coordinates is one nearer to the player's, or equal to it already, exactly when that cell was floor and free of living monsters at its turn |
| Dungeon.TurnOf | examples/roguelike.cpp:222-238 | One turn, from coordinates alone: dead or unseen nothing; beside the player one bite and no step; otherwise one step nearer in each coordinate if that cell is floor and free |
| Dungeon.StepExists | examples/roguelike.cpp:228-229 | There is exactly one such cell, and it is nearer to the player |
| Dungeon.BitesAreBiters | examples/roguelike.cpp:219-240 | A round costs one hit point for each living visible monster beside the player when it begins, wherever the others step |
| Dungeon.ActSafely | examples/roguelike.cpp:219-240 | After all monsters have acted they are on floor and off the player's cell, and no two living ones share a cell that did not share that very cell before |
| Dungeon.Game.ActMonster | examples/roguelike.cpp:222-238 | The turn of one monster: beside the player it takes one hit point and stays; otherwise it stands on the cell one nearer in each coordinate exactly when that is floor and free of living monsters |
| Dungeon.Game.MonstersAct | examples/roguelike.cpp:219-240 | All monsters act in order; the hit points lost are the living visible monsters beside the player |
| Dungeon.Game.Strike | examples/roguelike.cpp:250-257 | A hit costs the monster a point; a kill pays 5 to 14 gold |
| Dungeon.Game.TryMove | examples/roguelike.cpp:242-268 | The outcome of a turn in every case (off the map, monster, wall, floor), with the hit points the monsters then beside the player take, keeping the level and the safety of the game |
| Dungeon.Game.Play | examples/roguelike.cpp:96-268 | Any sequence of moves after any generated level leaves player and living monsters on reachable floor, apart from each other |
| ProcCache.Hash | src/common/nack_proc_cache.cpp:28-37 | The 32-bit FNV-1a hash of the name |
| ProcCache.XorBits | src/common/nack_proc_cache.cpp:33 | The exclusive or of the hash has a one exactly where the bits differ |
| ProcCache.ViewHas | src/common/nack_proc_cache.cpp:55-69 | A name is in the cached map if and only if some used slot holds it |
| ProcCache.ViewUpdate | src/common/nack_proc_cache.cpp:61-64 | Filling a free slot with a new name adds exactly that name to the cached map |
| ProcCache.CountUpdate | src/common/nack_proc_cache.cpp:63-64 | and adds one to the number of used slots |
| ProcCache.CountAll | src/common/nack_proc_cache.cpp:59-60 | The count equals the size only when every slot is used |
| ProcCache.NotBeyond | src/common/nack_proc_cache.cpp:55-66 | A free slot on a name's probe means the name is nowhere in the table |
| ProcCache.NeverFull | src/common/nack_proc_cache.cpp:55-70 | With a slot free, every probe with wrap-around reaches a free slot, so the fall-through is never taken |
| ProcCache.StillGood | src/common/nack_proc_cache.cpp:55-66 | Storing an entry keeps every other entry reachable by an unbroken probe chain |
| ProcCache.Cache.constructor | src/common/nack_proc_cache.cpp:25-26 | The empty cache is valid |
| ProcCache.Cache.Clear | src/common/nack_proc_cache.cpp:39-43 | Forgets everything and is valid again |
| ProcCache.Cache.Store | src/common/nack_proc_cache.cpp:59-66 | Keeps the invariant: chains unbroken, names distinct, count exact, at most 1023 slots used |
| ProcCache.Cache.Get | src/common/nack_proc_cache.cpp:45-71 | Returns what the resolver would, calls it only for names not cached, and caches exactly names of at most 63 bytes while a slot can stay free |
| ProcCache.Run | src/common/nack_proc_cache.cpp:39-71 | Any run of lookups and clears answers exactly as the resolver alone |
| PngFilter.PaethIsNearest | tools/mkpng.py:21-24 | The Paeth predictor is the neighbour nearest to a + b - c, ties going to left, above, upper left |
| PngFilter.RestoredInverts | tools/mkpng.py:26-38 | What each filter takes from a byte, its reconstruction adds back: nothing, the byte to the left, the byte above, half the sum of both rounded down, or the nearest of the three neighbours |
| PngFilter.FilterRow | tools/mkpng.py:26-38 | The filtered row modulo 256; for any row before and pixel size, what sections 6.2 to 6.6 of RFC 2083 reconstruct from it is the row |
| PngFilter.UnfilterInverts | tools/mkpng.py:26-38 | Reconstruction written out from sections 6.2 to 6.6 of RFC 2083 inverts every filter for any row, row before and pixel size |
| PngFilter.WriteRaw | tools/mkpng.py:67-73 | The raw stream: filter byte and filtered row for each row |
| PngFilter.FilterBytes | tools/mkpng.py:68-71 | Row k starts at byte k * (n + 1) of the stream, with filter k modulo the number of filters |
| PngFilter.RawRoundTrip | tools/mkpng.py:67-73 | That reconstruction gives the rows back from the stream if and only if every filter used is one of the five |
| Adam7.PassesPartition | tools/mkpng.py:41-42 | Every pixel lies in exactly one of the seven passes |
| Adam7.GatherRow | tools/mkpng.py:51-53 | Collects the pixels of one row of a pass |
| Adam7.InterlaceRow | tools/mkpng.py:50-58 | Appends one row of a pass, or nothing when the pass has no columns |
| Adam7.InterlacePass | tools/mkpng.py:48-58 | Writes one pass |
| Adam7.Interlace | tools/mkpng.py:44-60 | Writes the seven passes in order |
| Adam7.ScatterInverts | tools/mkpng.py:51-53 | Placing a pass row puts every pixel of it where it came from, none twice |
| Adam7.PassInverts | tools/mkpng.py:48-58 | Reading a pass back places exactly its pixels and leaves the rest of the stream |
| Adam7.ReadInverts | tools/mkpng.py:44-60 | Reading the remaining passes completes the image |
| Adam7.InterlaceRoundTrip | tools/mkpng.py:44-60 | De-interlacing the stream of any image gives every byte of every row back, each pixel from exactly one place |
| Cp437.SlotOfCodepoint | src/console/nack_tileset.cpp:21-54 | No codepoint stands in two slots of the CP437 table |
| TilesetMap.LowerBound | src/console/nack_tileset.cpp:69-70 | The first entry not below the codepoint |
| TilesetMap.Tileset.SparseSet | src/console/nack_tileset.cpp:66-78 | The map is updated at one codepoint and the vector stays strictly sorted |
| TilesetMap.Tileset.IndexFor | src/console/nack_tileset.cpp:80-92 | Looks the codepoint up in the finite map both tables stand for; -1 when it is not mapped |
| TilesetMap.Tileset.Map | src/console/nack_tileset.cpp:94-105 | Succeeds if and only if the index is a tile of the sheet, and then updates the map at exactly this codepoint |
| TilesetMap.Tileset.MapRange | src/console/nack_tileset.cpp:107-119 | Terminates in all cases, also when the codepoint wraps; maps the range or the prefix before the first bad index; true if and only if the whole range fits and `last` is below 2^32 - 1 |
| TilesetMap.RangeMeaning | src/console/nack_tileset.cpp:114-117 | What a range call leaves at every codepoint: its offset's tile inside the mapped part, the old entry elsewhere |
| TilesetMap.MappedMeaning | src/console/nack_tileset.cpp:107-119 | A range that fits maps exactly its codepoints, in order; one outside the sheet nothing; one that runs off the sheet as many as there are tiles left |
| TilesetMap.TcodIndexPlace | src/console/nack_tileset.cpp:231-234 | The index of slot i is in column i / rows and row i % rows, and inside the sheet, so the guard never fires |
| TilesetMap.TcodPermutes | src/console/nack_tileset.cpp:231-234 | Every tile of the sheet is the index of exactly one slot |
| TilesetMap.SeededLookup | src/console/nack_tileset.cpp:216-239 | After seeding, the codepoint of every slot below min(256, count) gives that slot's tile, and no other slot's codepoint is mapped |
| TilesetMap.SeedMeaning | src/console/nack_tileset.cpp:216-239 | Slot i shows tile i in CP437 order, the tile in row i mod rows of column i / rows in TCOD order, and codepoint i shows tile i without an order |
| TilesetMap.SeededOnly | src/console/nack_tileset.cpp:216-239 | Nothing but the codepoints of the seeded slots is mapped |
| TilesetMap.Tileset.constructor | src/console/nack_tileset.cpp:204-239 | The seeded map of each of the three layouts |
| TilesetMap.Tileset.SeedCp437 | src/console/nack_tileset.cpp:217-228 | Seeds the CP437 order; the ASCII pass after it changes nothing |
| TilesetMap.Tileset.SeedTcod | src/console/nack_tileset.cpp:229-235 | Seeds the column-major order |
| TilesetMap.Tileset.SeedSequential | src/console/nack_tileset.cpp:236-239 | Seeds the identity |
| Batching.PassIsNaive | src/console/nack_render.cpp:149-192 | A pass emits exactly the sprites of its own atlas, in row-major order |
| Batching.EachOnce | src/console/nack_render.cpp:149-192 | The passes together drop nothing, and emit every sprite once if and only if the tileset of every sprite is registered once |
| Batching.BatchingPreserves | src/console/nack_render.cpp:148-198 | Every pass emits the per-cell sprites of its atlas in the same order; the passes together are the per-cell rendering if and only if no tileset drawn from is registered twice, and draw more otherwise |
| Batching.GlyphIs | src/console/nack_render.cpp:161-190 | A cell is drawn exactly when its colour is not clear and it shows a tile of a usable atlas: its own number if it names a tileset, else the tile of its codepoint, or of '?' for an unmapped one, and none for a space or a zero; in the cell's own colours |
| Batching.SpriteIs | src/console/nack_render.cpp:165-167 | A cell is drawn from the tileset it names, or else from the font |
| Batching.EveryCellDrawn | src/console/nack_render.cpp:124-192 | The background draw holds every cell with a background and a pass every cell that shows a tile of its atlas, each once, in row-major order, and no other |
| Batching.TileInsideSheet | src/console/nack_render.cpp:156-190 | A drawn tile samples a cell inside the texture |
| Batching.TilesApart | src/console/nack_render.cpp:185-190 | Different tiles sample texture cells that do not overlap |
| Batching.TileQuadPlace | src/console/nack_render.cpp:183-190 | A quad covers its cell of the framebuffer and samples the column and row its tile has in the sheet |
| Batching.QuadFillsRectangle | src/console/nack_render.cpp:35-55 | The six vertices are corners with the matching texture corners and carry the foreground and background colours as fractions of 255; the two triangles turn the same way, share a diagonal and fill the rectangle |
| Batching.CellQuadsApart | src/console/nack_render.cpp:188-190 | Quads of different cells do not overlap |
| Batching.Renderer.Reserve | src/console/nack_render.cpp:16-25 | The buffer holds 72 floats a cell |
| Batching.Renderer.EmitQuad | src/console/nack_render.cpp:27-55 | Appends the 72 floats of a quad at the cursor and keeps what was before it |
| Batching.Renderer.RenderCell | src/console/nack_render.cpp:161-190 | One cell of a pass: nothing, or the quad of the tile it asks for, with '?' for an unmapped glyph |
| Batching.Renderer.RenderPass | src/console/nack_render.cpp:149-198 | One pass submits exactly its glyphs' vertices, never writing beyond the buffer |
| Batching.Renderer.RenderConsole | src/console/nack_render.cpp:111-199 | A frame is one background draw and one draw for each usable atlas, with exactly these vertices |
| EventCore.Alternates | src/nack.cpp:245-261 | Between two focus events of a window there is a blur |
| EventCore.ReleasedBeforeBlur | src/nack.cpp:250-259 | Between a press and a later blur there is a release of the key |
| EventCore.AccountPush | src/nack.cpp:166-179 | Queueing an event keeps the account of delivered and queued events |
| EventCore.AccountPop | src/nack.cpp:191-198 | Delivering the first keeps it: log order, no repetition, no loss |
| EventCore.PurgeKeeps | src/nack.cpp:382-388 | The purge drops exactly the events of one window and keeps the order of the others |
| EventCore.AccountPurge | src/nack.cpp:382-388 | After a purge only events of windows that are gone are missing |
| EventCore.Core.constructor | src/nack.cpp:493 | No key is down, no modifier held, no event queued and no window registered |
| EventCore.Core.Register | src/nack.cpp:369-372 | A new window starts without focus |
| EventCore.Core.PushEvent | src/nack.cpp:166-179 | Appends one event to queue and log |
| EventCore.Core.EmitOther | src/nack.cpp:296-308 | An event of another kind is appended; a mouse event also sets the modifiers |
| EventCore.Core.EmitText | src/nack.cpp:283-294 | Empty text sends nothing; other text is one event of at most 31 bytes |
| EventCore.Core.EmitKey | src/nack.cpp:263-281 | A key reads as down exactly when the last key event for it is a press |
| EventCore.Core.EmitFocus | src/nack.cpp:245-261 | Focus and blur alternate; a blur comes after a release of every held key, in key order, and leaves no key and no modifier |
| EventCore.Core.ReleaseAll | src/nack.cpp:250-257 | Emits one release for each held key |
| EventCore.ReleasesExact | src/nack.cpp:250-257 | Those are one release for each held key and none for any other, with the modifiers as they were |
| EventCore.ReleasesInOrder | src/nack.cpp:250-257 | in the order of the keys |
| EventCore.Core.Pop | src/nack.cpp:191-198 | Events come out in push order, each of a window that still exists |
| EventCore.Core.Destroy | src/nack.cpp:667-682 | Nothing of a destroyed window is left in the queue; everything else stays in order |
| KeyRepeat.PumpOutcome | src/wayland/nack_wayland_input.cpp:139-153 | Stepping deadline by deadline fires floor((now - next) / interval) + 1 times, at most 32, and leaves the deadline this calls for |
| KeyRepeat.DeadlineAhead | src/wayland/nack_wayland_input.cpp:139-151 | Short of the guard, the new deadline is the first one of the original grid beyond now |
| KeyRepeat.OwedIs | src/wayland/nack_wayland_input.cpp:139-151 | Of the first 32 repeats exactly those are owed whose deadline, a whole number of intervals after the first, is reached |
| KeyRepeat.IntervalFitsRate | src/wayland/nack_wayland_input.cpp:133-135 | The interval is the longest that fits `rate` times into a second |
| KeyRepeat.RatePerSecond | src/wayland/nack_wayland_input.cpp:133-151 | Pumped a second after its first deadline a key owes at least `rate` repeats, and exactly `rate` if that divides a second, for rates up to the guard |
| KeyRepeat.RepeatsCounted | src/wayland/nack_wayland_input.cpp:139-151 | n repeats are n key events, whatever text they type |
| KeyRepeat.GridKeptIff | src/wayland/nack_wayland_input.cpp:139-153 | A pump that fires keeps to the grid if and only if it fired fewer than 32 repeats or came exactly on the grid |
| KeyRepeat.ExactlyAtGuard | src/wayland/nack_wayland_input.cpp:139-153 | For every interval and any lateness short of it: exactly 32 repeats are due and sent, nothing is left to catch up, and the next deadline is off the grid |
| KeyRepeat.FocusRepeatsNothing | src/wayland/nack_wayland_input.cpp:198-233 | A change of focus sends no repeat |
| KeyRepeat.RepeatHasPress | src/wayland/nack_wayland_input.cpp:127-154 | In the log of every run, each repeat goes back to a first press of the same key in the same window, with no release of the key and no blur of the window in between |
| KeyRepeat.Keyboard.constructor | src/wayland/nack_wayland.cpp:901-902 | Idle, with rate 25 and delay 400 |
| KeyRepeat.Keyboard.StartRepeat | src/wayland/nack_wayland_input.cpp:99-109 | Arms the repeat if and only if repeat is on, there is a keymap and the key repeats |
| KeyRepeat.Keyboard.StopRepeat | src/wayland/nack_wayland_input.cpp:111-115 | Disarms it |
| KeyRepeat.Keyboard.NextTimeout | src/wayland/nack_wayland_input.cpp:117-125 | -1 when idle, 0 exactly when due, otherwise the time left |
| KeyRepeat.Keyboard.PumpKeyRepeat | src/wayland/nack_wayland_input.cpp:127-154 | Emits exactly the repeats owed, at most 32, as repeat presses of the armed key to its window, each with the text it types; the next deadline is on the grid short of 32 and now + interval at 32 |
| KeyRepeat.Keyboard.FireRepeats | src/wayland/nack_wayland_input.cpp:139-151 | The catch-up loop |
| KeyRepeat.Keyboard.KeyboardEnter | src/wayland/nack_wayland_input.cpp:198-217 | Focus goes to the window found for the surface, left before or not; the log gets one focus event if the window had no focus |
| KeyRepeat.Keyboard.KeyboardLeave | src/wayland/nack_wayland_input.cpp:219-233 | Nothing is armed or focused; the window gets its releases and its blur |
| KeyRepeat.Keyboard.KeyboardKey | src/wayland/nack_wayland_input.cpp:235-258 | A press arms its own repeat and types its text, a release stops the repeat only for the armed key; an armed repeat always belongs to a key pressed and not released in a registered window that has not lost the focus |
| KeyRepeat.Keyboard.KeyboardRepeatInfo | src/wayland/nack_wayland_input.cpp:272-280 | A rate of zero disarms, any other rate leaves an armed repeat |
| KeyRepeat.Keyboard.DestroyWindow | src/wayland/nack_wayland.cpp:581-592 | A destroyed window keeps neither focus nor repeat |
| Utf16.EventsAreStrings | src/cocoa/nack_cocoa.mm:548-570 | The events of a string are its codepoints that are text, one string each |
| Utf16.Win32Window.WmChar | src/win32/nack_win32.cpp:593-625 | One message: what it emits and which high surrogate it leaves waiting, with and without modifiers |
| Utf16.Win32Window.Receive | src/win32/nack_win32.cpp:593-625 | Messages one by one emit the events of the whole string of units, for every string, unpaired surrogates dropped |
| Utf16.InsertText | src/cocoa/nack_cocoa.mm:540-571 | The batch loop emits the same events |
| Utf16.EventsWellFormed | src/nack.cpp:67-111 | Every emitted string is one UTF8-char of section 4 of RFC 3629 |
| Utf16.EventsReadBack | src/console/nack_console.cpp:16-40 | Reading the events back gives the recombined text codepoints, whatever the units were |
| Utf16.TypedTextArrives | src/nack.cpp:97-111 | Text written as UTF-16 arrives unchanged, but for codepoints that are not text |
| Utf16.CharacterArrives | src/nack.cpp:97-111 | One typed character arrives exactly when it is none of the control characters, delete, the C1 codes and the function keys F700 to F8FF, and not at all otherwise |
| Utf16.PrintableTextArrives | src/nack.cpp:97-111 | Typed text arrives whole if and only if every character of it is such a one |

## Left out

- JpegScan.EncodeScan: starts from quantised coefficients; the DCT, colour conversion and quantisation are not modelled.
- JpegFile.EncodeJpeg: the quantisation tables are given; `scale_quant` is not modelled, and an exception while packing the size is a missing file. The reader is for files of this shape: one table in each segment, one scan of all components, no subsampling and no restart intervals.
- JpegScan.WriteScan: takes the blocks MCU by MCU; the padding of blocks at the right and lower edge belongs to the pixel side and is not modelled.
- IncrSends.Selections.Write: one selection; MULTIPLE, which calls it once for each pair, is not modelled, nor is a request without a property, which is given its target's name. The announced total is cut to 32 bits, as in the source.
- IncrRuns.StepPreserves: the shortcut for an own selection is not modelled. A fetch whose SelectionNotify has not come within the timeout leaves a request behind whose answer a later fetch takes for its own (`FirstAnswerTaken`); the invariant is proved for runs in which the answer has come and was read before the next request (`Answered`).
- IncrRuns.TransferConserves: time is exact, the server delivers in order, and a requestor may time out at any moment; the 50 ms polling of `nack__xcb_wait_for` is not modelled.
- IncrReader.ReadIncr: the events, their times and the server's replies are given as a sequence; the deletes it sends are counted, and their effect on the server is that of the protocol's steps. The other end written for the tests serves smaller chunks with the same rules and is not modelled separately.
- WordWrap.Console.PrintWrapped: row and column counters are unbounded integers; 32-bit overflow on texts of more than 2^31 rows is not modelled.
- Dungeon.Game.UpdateFov: the field of view is a truncated Taylor series in floating point; any set of cells may come out visible.
- Dungeon.Game.PlaceMonsters: monsters may share a cell with each other, as in the source; colours and the message log are not modelled.
- ProcCache.Cache.Get: a NULL resolver, which returns NULL, is not modelled; names are byte strings without the terminator.
- PngFilter.WriteRaw: starts from rows of bytes; zlib, CRC and chunk layout are not modelled.
- TilesetMap.Tileset.Map: an allocation that fails is not modelled.
- TilesetMap.Tileset.constructor: starts from the sheet's columns and rows; image decoding, the check that tiles divide the sheet, font detection and the texture are not modelled.
- Batching.Renderer.RenderConsole: coordinates are real numbers instead of floats, and a tileset is given by an identity and its finite codepoint map; draw calls are recorded, not performed.
- EventCore.Core.PushEvent: an event dropped for want of memory is not modelled.
- EventCore.Core.EmitOther: mouse, scroll, resize and scale events are one kind of event here; their payload, click counting and the changes that make a resize or a scale event are not modelled.
- EventCore.Core.Register: a window has an identity that is never used again, and events are emitted only for registered windows.
- KeyRepeat.Keyboard.PumpKeyRepeat: what a repeat types, compose sequences included, is given; nanoseconds do not wrap, and the delay is not negative.
- KeyRepeat.Keyboard.NextTimeout: its conversion to a poll timeout is not modelled; a repeat already due gives 0, which that code takes as no limit.
- Loss of the keyboard capability does not stop an armed repeat in the source; the seat listener is not part of the model.
- Viewport centring, mouse-to-cell mapping and blending: floating point, and simple facts in the integer mode.
- Window creation order, backends, shaders, key-name tables, clipboard pipes and RAII wrappers: plumbing.
