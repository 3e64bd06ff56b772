# A verified model of the data paths of cdrecord and cdda2wav

This project models, in Dafny, the parts of the cdrtools programs `cdrecord` and `cdda2wav`
through which data flows, and proves what those parts are for. `dafny verify dfyconfig.toml`
checks all of it.

- **The two-process FIFO of cdrecord** (`Fifo`, `FifoSafety`, `FifoLate`, `FifoTheorems`,
  `FifoRepeat`, `FifoProgress`, `FifoAwait`, `FifoServed`, `FifoScan`, `FifoExamples`, `FifoTracks`,
  `FifoReads`, `FifoLayout`). A
  background process fills slots in shared memory, the writing process drains them; there is no
  lock. The model is a transition system whose steps are single shared loads and stores, in the
  order of the source (`owner` is handed over before `users` is stored). A run is any sequence of
  choices of who moves and what the environment supplies, so every theorem speaks about all
  interleavings and all sources; liveness is stated for all endless fair schedules. `FifoExamples`
  has concrete runs. `FifoReads` follows what each call of `fill_buf` gives into its segment. `FifoLayout` is the layout that `init_faio` computes.
- **The sample pipeline of cdda2wav** (`Decimation`, `Converter`, `ConvertedBytes`, `Resync`). `Decimation` says by a
  closed formula what the decimator is to compute; `Converter.SampleConverter` is the state machine
  with its carried registers, writing over its own input buffer, and its invariant ties every byte
  ever written to that formula, however the stream is cut into buffers. `ConvertedBytes` says what the
  formula and the bytes mean in numbers. `Resync` is the jitter
  correction made of three searches.
- **The ring buffer between reader and writer of cdda2wav** (`RingBuffer`), with counting
  semaphores, again over all interleavings. The two counter loads of an assertion are one step.
- **CD-Text.** `CdTextFormat`, `CdTextSequence` and `CdTextDisc` say what packs a disc needs and how
  a reader recovers the strings; `CdTextPack` is the packer over its buffer. `CdTextSub` is the
  expansion to six bits. `LinearCode`, `CrcBits`, `CrcTable`, `CrcDivision` and `CdTextCrc` are the
  table-driven CRC, what it means as a polynomial remainder, and the correction of one wrong bit.
  `CdTextBytes` puts all of it together, from the strings to the subcode bytes and back.
- **The full table of contents** (`FullToc`, `FullTocBuffer`): filtering, compacting and shortening
  records inside one buffer, against a scan that has no buffer.
- **Digests** (`Digest`, `Sha`, `Md5`, `ShaRounds`): buffered updates against the one-shot
  definitions of section 4 of FIPS 180-1 and sections 3.1 to 3.3 of RFC 1321. The transform is a
  parameter; `ShaRounds` compares the unravelled rounds with the generic ones.
- **Splitting among track files** (`TrackSplit`, `TrackWriter`). `TrackSplit` says what the loop of
  `do_write` does to its counters and to the samples, whether or not the counters agree;
  `TrackWriter.Writer` is the loop over its buffer, calling the sample converter.
- **Array loops** (`Scatter`, `Base64`).

Protocols between processes are state machines on values, because what matters in them is the
interleaving. Code that works step by step on one buffer is a method or a class over an array, proved
against a specification without the buffer.

## What the proofs found

- **FIFO, wrong file.** A request for another file than that of a head slot of length 0 never ends:
  the code jumps back and finds the same slot (`FifoProgress.MismatchedRequestLoops`;
  `FifoExamples.MismatchIsReached` is a run that gets there).
- **FIFO, one request too many.** The exiting filler marks slot N-1 without looking at its owner. So
  one request beyond the last segment may be served, never more than one, and it gets the last of N
  segments again (`FifoTheorems.AtMostOneMore`). This is possible if and only if the mark meets slot
  N-1 while the consumer still holds it and has not gone past the test for it in the next call
  (`FifoRepeat.RepeatsIffStillHeld`). `FifoExamples.LastSegmentTwice` is such a run.
- **Lower rates lose count.** `SaveBuffer` does not add to `nSamplesDone` when the samples it was given
  complete no output sample, but `do_write` has consumed them. From then on every cut comes late
  by as many samples (`TrackSplit.CutIsLate`), and `nSamplesDone` never reaches the number wanted
  (`TrackSplit.WriterEndsIff`). The counter keeps up if and only if every round of the loop gives bytes
  or still waits for a signal (`TrackSplit.SessionLag`). Every sample is in the file of its track if and
  only if no round passes the end of a track while the counter is behind (`TrackSplit.SessionRoutedIff`).
  At the full rate neither goes wrong (`TrackSplit.FullRateSession`). `TrackSplit.LateCut` is a failing
  input: half the rate, and a buffer that jitter correction made one sample longer.
- **Twelve bits.** The path without conversion is taken for 12-bit output too and then does not
  scale; it agrees with the conversion loop exactly for 16-bit output
  (`Converter.ShortcutAgreesWithLoop`).
- **Half overlap.** With `2 * overlap == nsectors` the search does not reach the end of the buffer;
  for all other overlaps it is exhaustive (`Resync.ExhaustiveUnlessHalf`).
- **Ring of one.** With a single buffer the previous buffer is the one being refilled from the second
  segment on (`RingBuffer.PreviousIsNotRefilled`).
- **Second session.** The first track number in the rewritten table of contents is that of the last
  session that raises it, so kept tracks of earlier sessions may lie below it
  (`FullToc.SecondSessionRaisesFirst`). A kept track lies in the final range if and only if no later
  record raises the first number (`FullToc.FinalRange`).
- **Late lead-out.** A lead-out of 100 minutes or more is not encoded faithfully
  (`FullToc.LeadOutDecodes`).
- **Track behind the lead-out.** A track that starts behind the lead-out is kept, because the lead-out is
  corrected for it, but the one written is that of the last 0xA2 record in effect. All kept tracks start
  before it if and only if every correction is followed by a record that sets the lead-out
  (`FullToc.TracksBeforeLeadOutIff`; `FullToc.TrackBehindLeadOut` is an input for which it fails).
- **Track without a file.** In bulk mode at a lower sample rate, a track that starts exactly
  `SamplesToWrite` samples after the beginning gets no file, because that counter is set in output
  samples and counted down in input samples (`TrackSplit.TrackWithoutFile`). The first bytes for it are
  written to the closed file, which ends the program (`TrackSplit.StopsIff`, and `TrackSplit.TrackLost`
  for an input).
- **Base64 length.** The length given back is always two more than that of the text
  (`Base64.Rfc822Binary`).

## Model

| member | source | states |
|---|---|---|
| `FifoLate.StepKeepsInv` | cdrecord/fifo.c:502-713 | every shared store of either process keeps the ring invariant: owners form one cyclic window, its slots hold the segments not yet taken, counters and private indices agree with it; or slot N-1 was marked late and is the only one not given back, or all are given back |
| `FifoTheorems.RunKeepsInv` | cdrecord/fifo.c:409-418 | from the slots as init_faio leaves them, every state of every interleaving satisfies that invariant |
| `FifoTheorems.Delivery` | cdrecord/fifo.c:622-713 | the k-th request that returns gets file, length, error number and bytes of the k-th segment; whatever is asked for, at most one more returns, with the last of N segments again or with a slot that has no file |
| `FifoTheorems.AtMostOneMore` | cdrecord/fifo.c:521-523 | with requests for real files only the last of N segments can be handed out once more |
| `FifoRepeat.RepeatsIffStillHeld` | cdrecord/fifo.c:521-523 | after any run up to the mark of slot N-1, some continuation gets more segments than were stored if and only if the mark meets that slot owned by faio and the consumer between two calls, or in one that the slot serves and not past the test for faio |
| `FifoRepeat.RepeatedWasHeld` | cdrecord/fifo.c:521-523 | every run in which a request too many was served went through such a mark |
| `FifoExamples.LastSegmentTwice` | cdrecord/fifo.c:521-523 | three slots and three files of one byte: a run that hands out four segments, the last one twice |
| `FifoTheorems.OwnersFormWindow` | cdrecord/fifo.c:622-713 | while the filler runs: at most one slot is owner_faio, at buf_idx; the writer-owned slots are exactly those behind the stored segments; users never exceeds 1 |
| `FifoTheorems.HeldIsNotFilled` | cdrecord/fifo.c:634-637 | the slot the consumer takes from or still holds is never the one being filled |
| `FifoTheorems.HandedOutBytesStay` | cdrecord/fifo.c:704-712 | until the next request the slot handed out keeps the content of the last segment delivered, although users is stored after owner |
| `FifoProgress.NeverBothBlocked` | cdrecord/fifo.c:586-620 | filler and consumer never wait for each other, unless everything stored has been taken and the filler is gone |
| `FifoProgress.LastSlotFull` | cdrecord/fifo.c:464-465 | a filler that has to wait before the first request has filled all N slots, so slot N-1 is the reader's and await_faio goes on |
| `FifoAwait.AwaitEnds` | cdrecord/fifo.c:449-484 | in every endless schedule that is fair to both processes await_faio finds slot N-1 owned by the reader and goes on, unless the filler dies of a transfer that does not fit |
| `FifoAwait.AwaitStepCloser` | cdrecord/fifo.c:545-584 | while await_faio waits the filler cannot block, and each of its steps descends a well-founded order: slots left, stage, bytes left to store |
| `FifoAwait.NeverDead` | cdrecord/fifo.c:558-563 | if every transfer fits a slot the filler never takes its fatal exit |
| `FifoServed.RequestEnds` | cdrecord/fifo.c:661-713 | in every endless fair schedule a request is served, or the next segment does not serve it, or there is no next segment and the filler is gone: no request waits for ever beside a live filler |
| `FifoServed.FittingRequestReturns` | cdrecord/fifo.c:661-713 | in every endless fair schedule a request that the next segment serves returns with it |
| `FifoServed.RequestArrives` | cdrecord/fifo.c:586-620 | the descent behind both: stage of the request, then slots, stage and stores of the filler, then the distance to the next move that counts |
| `FifoProgress.RequestOutcome` | cdrecord/fifo.c:686-702 | a request is served if and only if file and size match the oldest segment, jumps back if and only if only the file differs and the length is 0, and is fatal otherwise |
| `FifoProgress.MismatchedRequestLoops` | cdrecord/fifo.c:670-693 | with another file and a head slot of length 0 the request never gets anywhere, in any run |
| `FifoExamples.MismatchIsReached` | cdrecord/fifo.c:686-694 | three slots, a track of size 0 and one of one byte: a run that comes to such a request for the second track |
| `FifoTracks.TracksAreWhole` | cdrecord/fifo.c:545-584 | with a known tracksize a track's segments never add up to more, and to exactly tracksize once the filler is past the track, unless a read returned 0 or an error |
| `FifoTracks.ZeroSizeIsReadOnce` | cdrecord/fifo.c:566-582 | with a tracksize of 0 a track has at most one segment, and exactly one once the filler is past it |
| `FifoReads.SegmentsCarryCalls` | cdrecord/fifo.c:566-645 | the k-th segment carries the file of its track, and the error number, the bytes and the result of the k-th call of fill_buf; the result is cut only to a whole transfer or to what is left of a track of known size |
| `FifoReads.RequestsGetCalls` | cdrecord/fifo.c:622-713 | end to end: what the k-th request hands out is what the k-th call of fill_buf gave |
| `FifoReads.TracksInTurn` | cdrecord/fifo.c:511-516 | the tracks are read in turn from the first one on; the filler goes on to the next exactly after a segment that ends its track, and exits behind the last |
| `FifoReads.UnknownSizeIsReadToTheEnd` | cdrecord/fifo.c:577-582 | a track of unknown size is read until a read gives 0 or an error, and not further: it is behind the filler if and only if such a read was made |
| `FifoScan.AwaitStopsIff` | cdrecord/fifo.c:474-484 | await_faio reports a premature end of standard input if and only if one of the first N segments is the first of standard input and empty |
| `FifoScan.CountersCount` | cdrecord/fifo.c:517-707 | puts and gets count the segments stored and handed out, and done is 1 exactly when all tracks have been read |
| `FifoLayout.SlotsFit` | cdrecord/fifo.c:383-392 | the header space reserved for the first slot count suffices for the final one, and all slots fit the segment |
| `FifoLayout.NoSlotMore` | cdrecord/fifo.c:383-392 | and not one slot less than possible: less than a slot and a page is left over beyond the space for the first count of headers |
| `FifoLayout.InitFaio` | cdrecord/fifo.c:366-418 | headers, statistics and page-aligned slots are disjoint and inside the segment, or the FIFO is refused because fewer than three slots fit |
| `FifoLayout.PlaceSlots` | cdrecord/fifo.c:405-417 | the loop over the headers: slots one after the other, all owned by the writer |
| `FifoLayout.LaidOutIsInitial` | cdrecord/fifo.c:405-418 | the slots laid out are an initial state of the FIFO, whatever is in their memory |
| `Decimation.BaseClosedForm` | cdda2wav/resample.c:823-937 | where the window of output k starts, in closed form: 2u + 1 samples make two outputs |
| `Decimation.NoOverflow` | cdda2wav/resample.c:863-869 | the sums over windows of 16-bit samples and the numerator of their interpolation stay within 32 bits for the divisors main admits |
| `Decimation.StoreLoad16` | cdda2wav/resample.c:836-840 | storing a loaded 16-bit sample gives its two bytes back |
| `Converter.NextOk` | cdda2wav/resample.c:831-915 | one sample through the state machine: the registers keep their meaning as sums over windows, and an output is the one the formula gives |
| `Converter.RunOk` | cdda2wav/resample.c:831-915 | any number of samples: the outputs are those of the formula, in order, without gaps |
| `Converter.RunBufferOk` | cdda2wav/resample.c:917-937 | a buffer with its flush leaves an integral divisor without a complete window, so the next flush fits |
| `Converter.CountIsExact` | cdda2wav/resample.c:823-937 | the number of outputs depends on the amount of input alone, with a closed form |
| `Converter.RunIsShort` | cdda2wav/resample.c:831-937 | at no time have more samples been given than read, the reason why writing in place is safe |
| `Converter.SampleConverter.EmitSample` | cdda2wav/resample.c:273-358 | one sample to the output format, or counted as skipped while waiting for a signal; nothing behind it changes |
| `Converter.SampleConverter.Take` | cdda2wav/resample.c:843-913 | the switch on the sample state refines the register machine, falling through as the source does |
| `Converter.SampleConverter.Convert` | cdda2wav/resample.c:831-937 | the conversion loop and the flush, reading and writing one buffer, produce what the machine produces from a copy |
| `Converter.SampleConverter.Forward` | cdda2wav/resample.c:699-719 | the path without conversion yields the bytes, the signal flag and the skipped count of the conversion loop, with and without waiting |
| `Converter.SampleConverter.SaveSamples` | cdda2wav/resample.c:654-951 | either path, and what is written when the wait for a signal goes on |
| `Converter.SampleConverter.SaveBuffer` | cdda2wav/resample.c:654-1006 | keeps the invariant: all bytes ever written encode exactly the outputs the formula gives for all input so far, for any cutting into buffers; bytes come out exactly if the wait is over and an output is completed, and the samples are added to TotSamplesDone exactly then or while the wait goes on |
| `Converter.BytesIffOutputs` | cdda2wav/resample.c:944-951 | without a wait, or after it, a buffer gives bytes exactly if it gives outputs |
| `Converter.GivenIsCount` | cdda2wav/resample.c:823-951 | at a buffer end the number of outputs and the end of the wait are functions of all input so far |
| `Converter.HistoryStep` | cdda2wav/resample.c:823-951 | one more buffer continues the history: bytes, signal flag, skipped samples, number of outputs |
| `Converter.ForwardOk` | cdda2wav/resample.c:706-719 | for 16-bit stereo forwarding from the first sample that is not silent equals encoding sample by sample |
| `Converter.ShortcutAgreesWithLoop` | cdda2wav/resample.c:699-701 | the shortcut agrees with the loop on all inputs if and only if the output has 16 bits |
| `ConvertedBytes.InterpolationIsExact` | cdda2wav/resample.c:260-268 | on every quadratic, given at 0, 1 and 2, the interpolated value is that at 1/2 |
| `ConvertedBytes.OutputIs` | cdda2wav/resample.c:823-915 | an output is the mean of its u samples rounded toward zero, or (3A + 6B - C) / 8 / u of three windows, each quotient rounded toward zero, for each channel by itself |
| `ConvertedBytes.LoadedSample` | cdda2wav/resample.c:836-840 | a sample is loaded from two bytes in two's complement, the low byte first and the left channel first |
| `ConvertedBytes.EncodingIs` | cdda2wav/resample.c:287-357 | the bytes of an output stand for the value in units of 1, 16 or 256, rounded down: the mean of both channels, or left and right; one byte in offset binary or two with the low one first |
| `ConvertedBytes.HeardIffBytes` | cdda2wav/resample.c:292-350 | the wait for a signal ends exactly with a sample of which some byte is not that of silence |
| `ConvertedBytes.WaitDropsLeading` | cdda2wav/resample.c:292-350 | exactly the samples before the first one heard are dropped and counted, and everything from it on is written |
| `ConvertedBytes.HistoryMeans` | cdda2wav/resample.c:654-951 | all of it for whole streams: the bytes ever written are the encodings of the rounded means and interpolations, from the first one heard on |
| `Resync.SymmetricSearch` | cdda2wav/resample.c:98-127 | the match nearest to the start, ties to the lower offset, and no byte outside the buffer is compared |
| `Resync.ForwardSearch` | cdda2wav/resample.c:129-153 | the first match upwards |
| `Resync.BackwardSearch` | cdda2wav/resample.c:155-179 | the first match downwards |
| `Resync.SyncBuffers` | cdda2wav/resample.c:181-258 | the end of the match of the last 600 bytes of the previous buffer nearest to where they are expected among all offsets below the reach, or NULL if there is none |
| `Resync.ExhaustiveUnlessHalf` | cdda2wav/resample.c:209-242 | NULL means that the needle occurs nowhere if and only if 2 * overlap is not nsectors |
| `RingBuffer.RunKeepsInv` | cdda2wav/ringbuff.c:53-213 | every state of every interleaving satisfies the invariant on pointers, counters, semaphores and slot contents |
| `RingBuffer.Delivery` | cdda2wav/ringbuff.c:94-136 | segments come out once each, in order, as they were filled, and at most n are between |
| `RingBuffer.DrainedIsRead` | cdda2wav/ringbuff.c:94-213 | from reader to writer: the k-th segment drained is what the reader last put into the k-th slot it got |
| `RingBuffer.FillAndDrainAreApart` | cdda2wav/ringbuff.c:144-213 | the slot being filled is never the one being drained, and neither side's writes change the other's slot |
| `RingBuffer.AssertsHold` | cdda2wav/ringbuff.c:94-155 | none of the assertions of occupy_buffer, define_buffer and drop_buffer fails, and no NULL pointer is used |
| `RingBuffer.PreviousIsNotRefilled` | cdda2wav/ringbuff.c:80-92 | while a buffer is filled there is a previous one exactly from the second segment on, and it differs from the one being filled exactly if n >= 2 (or there is none yet) |
| `RingBuffer.PreviousHoldsLastSegment` | cdda2wav/ringbuff.c:144-155 | unless the writer has taken it, the previous buffer holds the segment read last, which the overlap comparison needs |
| `RingBuffer.WaitsOnlyAtZero` | cdda2wav/ringbuff.c:158-213 | a process stands still if and only if the semaphore it asks for is 0 |
| `RingBuffer.NoDeadlock` | cdda2wav/ringbuff.c:158-213 | the two processes never wait for each other: in every reachable state at least one goes on |
| `CrcTable.TableEntry` | cdda2wav/cd_text.c:12-45 | each of the 256 entries is eight bit-serial division steps of its index |
| `CrcTable.UpdateIsFeed` | cdda2wav/cd_text.c:59-62 | the table step equals adding the byte on top and eight steps |
| `CrcDivision.CrcIsRemainder` | cdda2wav/cd_text.c:54-73 | for every message the checksum is the remainder of the message times x^16 divided by x^16 + x^12 + x^5 + 1 |
| `LinearCode.FlipAddsPower` | cdda2wav/cd_text.c:88-106 | flipping a bit changes the checksum by a value that depends only on how many bits follow |
| `CrcBits.Crc16Separates` | cdda2wav/cd_text.c:88-106 | the 144 single-bit errors of a pack have 144 different, nonzero effects |
| `CdTextCrc.ChecksumsDiffer` | cdda2wav/cd_text.c:88-106 | a pack and its 144 single-bit changes have 145 different checksums |
| `CdTextCrc.ValidIsUnique` | cdda2wav/cd_text.c:111-121 | at most one valid pack lies within one bit of a pack |
| `CdTextCrc.SingleErrorIsCorrected` | cdda2wav/cd_text.c:111-121 | the valid pack near a valid pack with one wrong bit is the original |
| `CdTextCrc.UpdateCrc` | cdda2wav/cd_text.c:54-64 | the loop with the table does what feeding the bytes bit by bit does |
| `CdTextCrc.FlipErrorCorr` | cdda2wav/cd_text.c:88-106 | for any length: finds a single-bit change that clears the checksum if there is one, keeps it, and otherwise restores every bit |
| `CdTextCrc.CdTextCrcOk` | cdda2wav/cd_text.c:111-121 | succeeds if and only if the pack is within one bit of a valid pack, then leaves a valid pack; on failure the pack is unchanged |
| `CdTextCrc.CdTextCrcOkCopy` | cdrecord/cdtext.c:277-295 | the same for the variant that works on a copy |
| `CdTextCrc.FillCrc` | cdrecord/cdtext.c:442-446 | the two bytes filled in make the pack valid and nothing else changes |
| `CdTextCrc.ValidIff` | cdda2wav/cd_text.c:75-121 | a pack is valid if and only if its last two bytes are the checksum of the others, the high byte first and every bit inverted |
| `CdTextFormat.SplitText` | cdrecord/cdtext.c:339-352 | splitting the joined text at the NULs gives the strings back |
| `CdTextFormat.JoinedPacks` | cdrecord/cdtext.c:410-452 | the text fields of the packs, joined, are the stream padded with NULs |
| `CdTextFormat.PackHeader` | cdrecord/cdtext.c:422-433 | the track number and min(15, character position) of a pack are those of its first byte, and fillcrc closed it |
| `CdTextDisc.PackingIsInvertible` | cdrecord/cdtext.c:334-355 | a reader of all packs of a disc gets back every string of every type (type 6: the disc's) |
| `CdTextDisc.PacksAreNumbered` | cdrecord/cdtext.c:429 | the sequence numbers of up to 256 packs are 0, 1, 2, ... |
| `CdTextDisc.SizesAgree` | cdrecord/cdtext.c:313-364 | the size information read back from the three 0x8F packs agrees with the packs: counts of all types, last sequence number, and the first and the last track, whatever number the first track has; character code and copyright byte are 0, the language is 9 in the first of eight blocks |
| `CdTextDisc.SizePackHeaders` | cdrecord/cdtext.c:358-364 | the last three packs have type 0x8F, track fields 0, 1 and 2, and follow the text in the numbering |
| `CdTextDisc.NumbersReadRightIff` | cdrecord/cdtext.c:338-352 | for a first track of any number: a reader finds every disc's strings under the tracks' numbers if and only if the first track has number 1, as the program calls packtext |
| `CdTextPack.TextArgs.FillOne` | cdrecord/cdtext.c:422-448 | one round of the loop: the stream grows by the bytes copied, complete packs stay as they are |
| `CdTextPack.TextArgs.FillPacks` | cdrecord/cdtext.c:410-452 | the stream of the type grows by the whole string, with its track and positions; tsize counts the packs begun |
| `CdTextPack.TextArgs.FillupPack` | cdrecord/cdtext.c:398-408 | the packs of the finished type are those of its whole stream, padded |
| `CdTextPack.HasText` | cdrecord/cdtext.c:379-396 | true if and only if some track has text of the type |
| `CdTextPack.PackType` | cdrecord/cdtext.c:334-355 | a type adds its packs and its count, or nothing |
| `CdTextPack.PackText` | cdrecord/cdtext.c:298-364 | the buffer holds exactly the packs specified for the disc and its first track number, the size packs last |
| `CdTextSub.EightOfSix` | cdrecord/cdtext.c:524-570 | six2eight undoes eight2six |
| `CdTextSub.SixIsSameNumber` | cdrecord/cdtext.c:524-546 | three bytes as a number to base 256 are their four six-bit bytes as a number to base 64 |
| `CdTextSub.TimesIsSmallest` | cdrecord/cdtext.c:223-230 | no smaller repetition gives whole groups of four packs |
| `CdTextSub.SetUpTextData` | cdrecord/cdtext.c:207-241 | the output is the expansion of the repeated packs, a multiple of 96 bytes, each below 64; every group of four bytes is the same number as its three source bytes |
| `CdTextSub.OutputDecodes` | cdrecord/cdtext.c:235-239 | decoding the output group by group gives the packs cyclically |
| `CdTextBytes.WritePack` | cdrecord/cdtext.c:420-446 | a pack in 18 bytes: type, track, number and block byte, the twelve text bytes, and a checksum that makes it valid |
| `CdTextBytes.SetText` | cdrecord/cdtext.c:298-366 | packtext as a whole: the subcode is the expansion of the packs in bytes, each of them valid, in whole subchannel sectors of bytes below 64 |
| `CdTextBytes.SubcodeDecodes` | cdrecord/cdtext.c:207-241 | six2eight on the first groups gives the packs back, byte for byte |
| `CdTextBytes.CorrectionSucceeds` | cdda2wav/cd_text.c:111-121 | a pack received with at most one wrong bit is near a valid one, so that cdtext_crc_ok succeeds |
| `CdTextBytes.CorrectionIsRight` | cdda2wav/cd_text.c:111-121 | what cdtext_crc_ok leaves of a pack received with at most one wrong bit is the pack that was sent |
| `CdTextBytes.StringsSurvive` | cdrecord/cdtext.c:298-366 | end to end: packed, given checksums, expanded, decoded, received with up to one wrong bit in every pack, and corrected, every string of every type is read back as it was |
| `FullToc.StepKeeps` | cdda2wav/scsi_cmds.c:588-632 | a record is kept if and only if it is a track of the current session, in range, not before the last start and not exactly at the lead-out |
| `FullToc.KeptAreChosen` | cdda2wav/scsi_cmds.c:430-634 | the kept records are a subsequence of the decoded input, each in range when it was kept |
| `FullToc.KeptAreOrdered` | cdda2wav/scsi_cmds.c:611-630 | starts never decrease and lie before the corrected lead-out |
| `FullToc.TracksBeforeLeadOutIff` | cdda2wav/scsi_cmds.c:535-644 | all kept tracks start before the lead-out that is written if and only if every record for which the lead-out was corrected is followed by one that sets it |
| `FullToc.TrackBehindLeadOut` | cdda2wav/scsi_cmds.c:618-644 | an input with a track at two minutes and the lead-out written at one minute |
| `FullToc.FinalRange` | cdda2wav/scsi_cmds.c:455-507 | a kept number lies between the final header bytes if and only if no record from it on starts a session behind all track numbers known by then |
| `FullToc.BoundsGrow` | cdda2wav/scsi_cmds.c:455-507 | both track numbers of the header only grow; the first one stays, or passes the last one known before |
| `FullToc.SecondSessionRaisesFirst` | cdda2wav/scsi_cmds.c:468-472 | an input for which a kept number lies below the final first track |
| `FullToc.LeadOutDecodes` | cdda2wav/scsi_cmds.c:637-647 | the lead-out decodes through dvd_lba to itself if and only if it is below 100 minutes |
| `FullTocBuffer.ScanRecord` | cdda2wav/scsi_cmds.c:430-634 | one pass of the loop on the buffer refines one step of the scan; later records stay untouched |
| `FullTocBuffer.Reformat` | cdda2wav/scsi_cmds.c:666-686 | shortening records in the buffer they are read from gives what converting from a copy gives: in every entry adr and control have changed places, and track and start are those of the record |
| `FullTocBuffer.CollectTracks` | cdda2wav/scsi_cmds.c:391-690 | header bytes, length field 8 * tracks + 2, and byte by byte the entries of the records kept, as they were read, with the lead-out 0xAA last |
| `Digest.CountBits` | cdda2wav/sha_func.c:243-248 | adding a length to two counter words with the source's carry test keeps the bit count modulo 2^64 |
| `Digest.LengthBytesAre` | cdda2wav/sha_func.c:297-304 | the eight length bytes of either digest are the number of bits modulo 2^64, the highest or the lowest byte first |
| `Digest.AbsorbMore` | cdda2wav/sha_func.c:264-269 | compressing one block extends what has been absorbed by that block |
| `Sha.ShaInfo.Update` | cdda2wav/sha_func.c:235-272 | the state depends only on the concatenation of all updates |
| `Sha.ShaMessagePads` | cdda2wav/sha_func.c:285-304 | what is compressed is the message, 0x80, zeros, and the length in bits with its highest byte first, in the least number of blocks |
| `Sha.ShaInitialWords` | cdda2wav/sha_func.c:219-229 | the five initial words, low bytes first |
| `Sha.ShaInfo.Final` | cdda2wav/sha_func.c:278-326 | the digest compresses exactly the padded message with its 64-bit length, and every four bytes of the result are a word, the highest byte first |
| `Md5.Md5Context.CountUp` | cdda2wav/md5c.c:132-137 | the carry test against the addend does the same as the one against the old word |
| `Md5.Md5Context.Update` | cdda2wav/md5c.c:122-159 | the context depends only on the concatenation of all updates |
| `Md5.Md5MessagePads` | cdda2wav/md5c.c:164-182 | what is compressed is the message, 0x80, zeros, and the length in bits with its lowest byte first, in the least number of blocks |
| `Md5.Md5InitialWords` | cdda2wav/md5c.c:108-117 | the four initial words, low bytes first |
| `Md5.Md5Context.Final` | cdda2wav/md5c.c:164-188 | padding through updates gives the digest of exactly the padded message, each word with its lowest byte first; the context is zeroised |
| `ShaRounds.EightyRounds` | cdda2wav/sha_func.c:71-95 | eighty unravelled rounds leave in E, T, A, B, C what eighty generic rounds leave in A to E |
| `ShaRounds.GroupsOfTwenty` | cdda2wav/sha_func.c:71-95 | twenty rounds for each of the four functions |
| `TrackSplit.SavedOnce` | cdda2wav/cdda2wav.c:1514-1624 | whatever the counters say, the samples wanted are saved once each and in order, and SamplesToWrite counts all of them, unless a write fails |
| `TrackSplit.SamplesToWriteIs` | cdda2wav/cdda2wav.c:2594 | SamplesToWrite starts as the number of wanted samples divided by the divisor, rounded down |
| `TrackSplit.GivesIffWindow` | cdda2wav/resample.c:944-1003 | without a wait, an integral divisor u gives bytes for n samples after a others if and only if a mod u + n >= u, and otherwise does not count them |
| `TrackSplit.LagIff` | cdda2wav/cdda2wav.c:1520-1624 | from any state, nSamplesDone falls no further behind in a call if and only if every round counts; it never catches up |
| `TrackSplit.CutIsLate` | cdda2wav/cdda2wav.c:1524-1536 | every cut comes after the start of the next track by exactly as many samples as nSamplesDone is behind |
| `TrackSplit.RoutedIff` | cdda2wav/cdda2wav.c:1507-1626 | a call puts every sample into the file of its track if and only if in every round the counters agree or the samples in the buffer do not pass the end of the track |
| `TrackSplit.RoundMisroutes` | cdda2wav/cdda2wav.c:1524-1547 | otherwise the sample at the end of the track is saved to a file that is not that of its track |
| `TrackSplit.SessionRoutedIff` | cdda2wav/cdda2wav.c:1683-1692 | the same for whole sessions, for any cutting into buffers |
| `TrackSplit.SessionLag` | cdda2wav/cdda2wav.c:1683-1692 | in whole sessions nSamplesDone counts all samples saved if and only if every round counts |
| `TrackSplit.WriterEndsIff` | cdda2wav/cdda2wav.c:1683-1692 | when all samples wanted were saved the writer is through if and only if every round counted |
| `TrackSplit.FullRateSession` | cdda2wav/cdda2wav.c:1507-1626 | at the full rate no session ends early, the counters agree, and everything is where it belongs |
| `TrackSplit.FullRateRouting` | cdda2wav/cdda2wav.c:1507-1626 | at the full rate every sample of every session reaches the file of the one track that contains its position |
| `TrackSplit.LateCut` | cdda2wav/resample.c:951 | half the rate, from the beginning of a disc, buffers of 1176, 589, 588 and 588 samples: the first sample of the third track is in the file of the second |
| `TrackSplit.TrackWithoutFile` | cdda2wav/cdda2wav.c:1593-1618 | where samples are in their tracks' files, a track has none if and only if it starts exactly SamplesToWrite samples after the beginning |
| `TrackSplit.StopsIff` | cdda2wav/cdda2wav.c:1545-1553 | a round ends the program if and only if it gives bytes for such a track |
| `TrackSplit.TrackLost` | cdda2wav/cdda2wav.c:2594 | half the rate, two tracks of one sector: the program ends with the first bytes of the second |
| `TrackWriter.Writer.SaveBuffer` | cdda2wav/cdda2wav.c:1545-1547 | the samples go through the converter, which counts them or not; the rest of the buffer stays |
| `TrackWriter.Writer.WriteSome` | cdda2wav/cdda2wav.c:1520-1624 | one round on the buffer, with its unsigned comparisons and the move of the residual samples, is one round of the specification |
| `TrackWriter.Writer.DoWrite` | cdda2wav/cdda2wav.c:1507-1626 | the loop over the buffer does what the specified rounds do to counters, file and samples |
| `Scatter.ScatterSecs` | cdrecord/movesect.c:64-100 | in both directions every sector arrives with its bytes, as far as the smaller size goes, in spite of overlap |
| `Scatter.SpreadThenGather` | cdrecord/movesect.c:64-100 | spreading and then gathering restores the sectors |
| `Base64.RoundTrip` | cdda2wav/base64.c:89-117 | decoding the printed text gives the source back, for every length |
| `Base64.PadsAtTheEnd` | cdda2wav/base64.c:97-107 | the text without its line breaks ends in one '-' if two bytes are left over and in two if one is, and has no other |
| `Base64.BreaksEverySixty` | cdda2wav/base64.c:109-112 | a return and a line feed stand after every sixty characters and nowhere else |
| `Base64.Rfc822Binary` | cdda2wav/base64.c:89-117 | the text is the encoding with a line break after each 60 characters, it and its NUL fit the allocation, and the length given back is two more than that of the text |
| `Base64Alphabet.V` | cdda2wav/base64.c:97 | the table is the alphabet by ranges, ending in '.' and '_' |

## Left out

- FIFO: stores are sequentially consistent; statistics, time-outs, killing the filler and closing files are not modelled, and the value of `--f->users` is the computed one.
- FIFO: with fewer than MIN_BUFFERS slots there is no FIFO (cdrecord/fifo.c:395), and none is modelled.
- FIFO: requests whose file does not match, or whose size is too small, end in the fatal states of the source or loop; what is said of delivery is about requests that return.
- Converter: byte order (little-endian host and output), channel swap, de-emphasis, minimum and maximum amplitudes, mono detection and the sound card.
- Ring buffer: the pipe and no-fork variants, `drop_all_buffers`; each assertion reads both counters in one step. The writer converts its buffer in place, so the content of the previous buffer is claimed only until the writer takes it.
- CD-Text: reading text files and decoding text; blocks and character sets other than the one packtext writes. The packer works on packs as records and marks those that fillcrc closed; `CdTextBytes` writes them as bytes. The pack buffer holds 256 packs, and more are not allowed. Entries of the track array behind the last track are taken to have no text.
- Full table of contents: the warnings, and 0xB0 records beyond being skipped.
- Digests: the compression functions themselves; lengths of one update are bounded as in C (int for SHA, 32 bits for MD5).
- `TrackWriter.Writer.DoWrite`: bulk mode, no early end of recording and an offset of whole samples are assumed, and files are written (not the option to write none); write errors other than to a closed file, file names, the signature over the first bytes and the per-track sample count are left out, and an unsigned wrap-around of SamplesToWrite below 2^64 samples is a negative number. Which bytes of a converted chunk reach which file is that of the chunk.
- SCSI commands, drivers, mode pages, option parsing, MSF and BCD accessors, WAV and AIFF headers: they would only add easy members.
