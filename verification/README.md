# MistServer media library: a verified model

A Dafny model of the parts of MistServer's media library in which the code itself decides something hard, with proofs
about it. Code that changes state step by step is modelled by classes and methods with the source's fields and loops;
each is proved against functions on values, and the theorems are about those functions, over all inputs, all runs or
all interleavings.

| files | what they model |
|---|---|
| `TrackPredictorSpec`, `TrackPredictorTheorems`, `TrackPredictorOrder`, `TrackPredictorSessions`, `TrackPredictorStreams`, `TrackPredictorLate`, `TrackPredictorPasses`, `TrackPredictor` | turning presentation times in arrival order into decode times and offsets (`lib/ebml_socketglue.cpp`) |
| `CmafSpec`, `CmafTheorems`, `CmafLayout`, `CmafFragment`, `CmafPlan`, `Cmaf` | planning a multiplexed fMP4 fragment (`lib/cmaf.cpp`) |
| `CommsProtocol`, `CommsSafety`, `CommsVisibility`, `CommsFailures`, `CommsPage`, `CommsAlone` | claiming, scanning and shrinking the shared record page (`lib/comms.cpp`, `lib/comms.h`) |
| `AmfSpec`, `AmfRoundTrip`, `AmfAccounting`, `AmfCoincidence`, `Amf`, `AmfWire` | printing and parsing AMF0 (`lib/amf.cpp`) |
| `EbmlInt`, `EbmlTree`, `EbmlSearch`, `EbmlWriter`, `EbmlSigned`, `EbmlBlock`, `EbmlWire`, `EbmlSent`, `EbmlBlockWire` | EBML integers, element trees and search, Matroska writers and their sizes, block lacing (`lib/ebml.cpp`, `lib/ebml_socketglue.cpp`) |
| `BitstreamBits`, `BitstreamReader`, `BitstreamGolomb`, `Bitstream`, `BitstreamScript`, `BitstreamRules` | bit writer, bit reader, Exp-Golomb codes, emulation prevention (`lib/bitstream.cpp`, `lib/bitstream.h`) |
| `EventLoopSpec`, `EventLoopTheorems`, `EventLoopOrder`, `EventLoop` | interval timers (`lib/ev.cpp`) |
| `HashPadding`, `Hmac`, `HashRules` | block streaming and padding of MD5 and SHA-2, HMAC (`lib/auth.cpp`) |
| `ChecksumDivision`, `ChecksumBits`, `ChecksumTables`, `Checksum` | table-driven checksums (`lib/checksum.h`) |
| `Obu`, `ObuRules` | AV1 unit framing (`lib/av1.cpp`) |
| `Base64`, `Hex`, `Url`, `TextRules` | text encodings (`lib/encode.cpp`) |
| `Basics` | shared vocabulary |

A `char` is a byte from 0 to 255, as the code assumes. A function that returns an `Option` returns `None` where the
code would read outside its data, shift out of range or otherwise be undefined. Every lemma
switches automatic induction off, so each induction is written out in its proof. The modules whose names end in `Wire`,
`Sent` and `Rules` say in plain numbers what the constants and formats of the others amount to.

## Where the code falls short of its promise

Each of these is proved, with the exact condition under which the promise holds.

- An AMF0 typed object does not survive printing and parsing: the parser reads its class name but does not step over
  it (`AmfAccounting.RoundTripIff`, `AmfAccounting.TypedIsLost`), except by a coincidence of lengths
  (`AmfCoincidence.SomeTypedSurvive`).
- A fixed-size laced block with a single frame reports one byte too many (`EbmlBlock.FixedRecoveredIff`).
- A Seek element declares the plain size of its identifier but writes it as a variable-length integer
  (`EbmlWriter.SeekExactIff`); the Info element counts a date that it then leaves out when it equals the 2001 origin,
  and both it and the EBML header are wrong for names over 126 bytes (`EbmlWriter.InfoExactIff`,
  `EbmlWriter.EbmlExactIff`).
- A signed element's width is chosen by magnitude alone, so a value whose highest bit is set comes back with the other
  sign (`EbmlSigned.IntRoundTripIff`); dates between February 2002 and April 2003, among others, come back wrong
  (`EbmlSigned.DateRoundTripIff`, `EbmlSigned.DateIsLost`).
- Outside minimal mode the outer length of an element of unknown size wraps around to one byte less than its head
  (`EbmlSearch.UnknownSize`).
- The top byte of the MD5 and SHA-256 length is shifted by 54 bits instead of 56, which shows from 2^51 bytes on
  (`HashPadding.BlocksExactIff`).
- A shrink of the record count can hide a record that was claimed behind the running scan
  (`CommsVisibility.ShrinkVisibleIff`, `CommsFailures.ShrinkCanHideIff`), and finishAll can undo a disconnect
  (`CommsFailures.DisconnectCanBeLost`, `CommsFailures.MarksLastIff`). A client's own update can likewise undo its
  request to disconnect (`CommsFailures.RequestCanBeLostIff`, `CommsFailures.RequestsLastIff`).
- The packet ring can overrun once a packet moves 23 places (`TrackPredictorSessions.RingSufficesIff`), and the 32-bit
  offset can wrap (`TrackPredictorTheorems.NeverLateIff`).
- A packet can be decoded after it should be shown: a head below the offset is not lowered, however late it is for the
  packet that gets it (`TrackPredictorLate.WindowNeverLateIff`, `TrackPredictorLate.BufferedNeverLateIff`,
  `TrackPredictorLate.FrameIsLate`).
- Decode times can go backwards: the offset is only subtracted from times that reach it, so in a stream that starts
  near 0 a later packet can be lowered below an earlier one (`TrackPredictorOrder.DecodeTimesInOrderIff`,
  `TrackPredictorStreams.PyramidGoesBack`).
- `trackPredictor::flush` is documented to clear everything for reuse as new, but keeps the delay, the offset and the
  initialised state (`TrackPredictorTheorems.FlushIsNewIff`). For the same frames that is what makes a second reading
  agree with the first (`TrackPredictorPasses.SecondPassSame`); for others, whether the old offset makes packets late is
  decided by `TrackPredictorLate.BufferedNeverLateIff`.
- A timer callback that removes its own timer and then asks to be called again is scheduled without a function, and
  the call of the missing function throws (`EventLoopTheorems.FireMatchedIff`, `EventLoopTheorems.RunMatched`).
- `bitSizeUExpGolomb` never returns for the largest 64-bit value (`BitstreamGolomb.LargestNeverStops`).
- A temporal delimiter with a payload loses it, and with it the position of the next unit (`Obu.UnitReads`).
- A one-byte AV1 unit with an extension flag and no size shows a payload of 2^64 - 1 bytes
  (`ObuRules.UnsizedTakesAll`).
- An emulation prevention byte is kept when the input is appended in pieces and the cut runs through it
  (`BitstreamReader.TwoPiecesIff`).
- URL settings that cannot be undone are accepted (`Url.UrlUndoneIff`).

## Model

| member | source | states |
|---|---|---|
| TrackPredictorSpec.InsertAt | lib/ebml_socketglue.cpp:583-595 | settling a new time puts it behind everything not larger and moves exactly the larger ones up, position by position |
| TrackPredictorSpec.InsertKeepsSorted | lib/ebml_socketglue.cpp:583-595 | settling keeps the array sorted and adds exactly the new time to it |
| TrackPredictorSpec.InsertLowers | lib/ebml_socketglue.cpp:583-595 | settling a time never raises the time at any position |
| TrackPredictorTheorems.InOrderNoneLost | lib/ebml_socketglue.cpp:540-603 | over any run of arrivals and extractions packets leave in arrival order, none lost, duplicated or altered apart from time and offset, and the rest is still queued in order |
| TrackPredictorTheorems.FirstInFirstOut | lib/ebml_socketglue.cpp:540-603 | the k-th packet out is the k-th packet in, for every run |
| TrackPredictorTheorems.TimesConserved | lib/ebml_socketglue.cpp:575-603 | at every moment the array is the sorted rearrangement of all times that came in minus all heads that left |
| TrackPredictorTheorems.HeadStaysBelow | lib/ebml_socketglue.cpp:540-603 | the k-th smallest-first extraction is at most the k-th smallest time buffered at the start, however many packets arrive in between |
| TrackPredictorTheorems.OffsetIsFixed | lib/ebml_socketglue.cpp:547-572 | after the first extraction the offset never changes, and every packet buffered then or arriving later leaves with its head lowered by that offset exactly if the head reaches it, and with the difference to its own time as its composition offset if that is at least 3 ms, and none otherwise |
| TrackPredictorTheorems.SearchFindsLargest | lib/ebml_socketglue.cpp:548-558 | the offset search finds the largest amount by which a sorted time exceeds the arrival time in its slot, when every such amount fits 32 bits |
| TrackPredictorTheorems.OffsetExactIff | lib/ebml_socketglue.cpp:548-558 | it finds it exactly when every amount fits 32 bits; otherwise the narrower running maximum wraps |
| TrackPredictorTheorems.WindowIsRetimed | lib/ebml_socketglue.cpp:547-572 | every packet of the first window leaves with a head no later than its sorted time, lowered by the offset found at the first extraction if it reaches that; its time plus composition offset is its own time if it is at least 3 ms ahead, and otherwise there is no composition offset |
| TrackPredictorTheorems.DecodeBeforePresentation | lib/ebml_socketglue.cpp:540-573 | for every packet of the first window and any later arrivals: decode time is at most presentation time if and only if the head is at least the offset or no later than the presentation time; and then time plus offset is the presentation time up to 2 ms |
| TrackPredictorTheorems.NeverLateIff | lib/ebml_socketglue.cpp:540-573 | the packets of the first window whose heads reach the offset are on time under every continuation exactly when no shift in the window needs more than 32 bits |
| TrackPredictorTheorems.WindowOnTimeIff | lib/ebml_socketglue.cpp:540-573 | at any later moment, and after a flush that kept the old offset: of the packets buffered then, those whose heads reach the offset are on time under every continuation exactly when the offset covers each of them whose sorted time it can lower |
| TrackPredictorLate.PileRun | lib/ebml_socketglue.cpp:575-603 | after n arrivals of one time the heads of the next extractions are those of the sorted array with that time piled up in it |
| TrackPredictorLate.PiledAt | lib/ebml_socketglue.cpp:583-595 | with more than j copies of a time no later than the one at position j, position j holds that time: any earlier head can be forced |
| TrackPredictorLate.WindowNeverLateIff | lib/ebml_socketglue.cpp:540-573 | every packet of the first window is decoded no later than presented, under every continuation, exactly when no shift needs more than 32 bits and for each packet its sorted time is no later than its own time, or the offset is at most its own time plus one |
| TrackPredictorLate.BufferedNeverLateIff | lib/ebml_socketglue.cpp:540-573 | the same for what is buffered at any later moment: exactly when each packet's lowered sorted time is no later than its own time, and its sorted time is no later than that or the offset at most its own time plus one |
| TrackPredictorLate.RunKeepsTimes | lib/ebml_socketglue.cpp:575-596 | in every run from an empty buffer the array holds the times of the queue until the first packet leaves |
| TrackPredictorLate.FrameIsLate | lib/ebml_socketglue.cpp:560-566 | a steady session of six frames in which the frame to be shown at 40 is decoded and shown at 80: its head is below the offset and is not lowered |
| TrackPredictorTheorems.FlushIsNewIff | lib/ebml_socketglue.cpp:533-538 | flushing leaves the object as new exactly when it had no delay, no offset and nothing extracted yet |
| TrackPredictorPasses.HandedOut | lib/ebml_socketglue.cpp:540-573 | every packet of a run is handed out as its arrival, its head, and the delay and offset the run ends with say |
| TrackPredictorPasses.PassTakesAll | src/input/input_ebml.cpp:287-291 | a steady pass over all frames with finish and drain at the end is given the frames' times as heads, sorted, and hands every packet out |
| TrackPredictorPasses.SecondPassSame | src/input/input_ebml.cpp:287-341 | reading the same frames again with the same predictor, flushed in between, hands out the same packets with the same times and offsets |
| TrackPredictorOrder.HeadsAreMonotone | lib/ebml_socketglue.cpp:524-603 | when no packet overtakes more than d earlier ones, none precedes a finished group, and packets leave only with more than d buffered or out of a finished group, the sorted heads they are given never go backwards |
| TrackPredictorOrder.HeadsSorted | lib/ebml_socketglue.cpp:524-603 | the same for every such run from a consistent start, an empty buffer included |
| TrackPredictorOrder.HeadsFromWindow | lib/ebml_socketglue.cpp:524-603 | every head is a time of the first window or at least the earliest time that could still arrive |
| TrackPredictorOrder.EarliestIsLeast | lib/ebml_socketglue.cpp:575-596 | which is the time d places below the largest one buffered, or the end of the finished group: nothing earlier may arrive, everything else may |
| TrackPredictorOrder.DecodeTimesInOrderIff | lib/ebml_socketglue.cpp:540-573 | from the first extraction on, the decode times of every continuation within the delay are in order exactly when the offset is at most 1, or every time of the first window below the offset is at least the whole offset before every window time at or above it and before everything that may still arrive |
| TrackPredictorStreams.SessionWithin | lib/ebml_socketglue.cpp:804-823 | a steady session, key frames and the draining before them included, keeps within the delay its first window shows |
| TrackPredictorStreams.SessionHeadsInOrder | lib/ebml_socketglue.cpp:804-823 | so every steady session from a new predictor is given its heads in order |
| TrackPredictorOrder.UnmovedInOrder | lib/ebml_socketglue.cpp:543-546 | while nothing has moved there is no delay, packets leave with the times they came with, and those are in order |
| TrackPredictorStreams.SessionDecodeTimesInOrder | lib/ebml_socketglue.cpp:540-573 | the decode times of a steady session are in order if its first window shows no delay or meets that condition |
| TrackPredictorStreams.PyramidGoesBack | lib/ebml_socketglue.cpp:560-564 | not otherwise: a pyramid of B-frames from time 0 and the next key frame are a steady session whose decode times go from 40 back to 0 |
| TrackPredictorSessions.SessionIsRun | lib/ebml_socketglue.cpp:804-823 | adding a frame and draining, frame after frame, is one of the runs above |
| TrackPredictorSessions.DrainLeaves | lib/ebml_socketglue.cpp:524-527 | how many packets a drain leaves: what was finished goes first, and then, once anything has left or more than 16 packets have come in, everything beyond the delay |
| TrackPredictorSessions.PeakFollowsDelay | lib/ebml_socketglue.cpp:524-527 | a session never buffers more packets than the larger of 17 and the delay seen plus one |
| TrackPredictorSessions.SlotsFollowMoves | lib/ebml_socketglue.cpp:524-527 | if no packet of the first window moves more than d places, at most max(17, d + 2) slots are used |
| TrackPredictorSessions.RingSuffices | lib/ebml_socketglue.cpp:524-527 | so with at most 15 places 17 slots suffice, and with at most 22 the 24 slots are never exceeded |
| TrackPredictorSessions.RingSufficesIff | lib/ebml_socketglue.cpp:524-603 | sessions whose first window moves packets at most d places never need a 25th slot exactly when d is at most 22: 24 falling times move at most 23 places, none leaves, and the next frame needs one more slot |
| TrackPredictor.TrackPredictor.constructor | lib/ebml_socketglue.h:65-84 | a new predictor is empty and within its ring |
| TrackPredictor.TrackPredictor.HasPacketsIsAbstract | lib/ebml_socketglue.cpp:524-527 | hasPackets on the ring is the question asked of the queue; if it says yes there is a packet |
| TrackPredictor.TrackPredictor.FinishBuffered | lib/ebml_socketglue.cpp:529-531 | finish releases everything buffered so far and changes nothing else |
| TrackPredictor.TrackPredictor.FlushBuffered | lib/ebml_socketglue.cpp:534-538 | flush empties the buffer but keeps delay, offset and initialised state (its comment promises reuse as new) |
| TrackPredictor.TrackPredictor.Settle | lib/ebml_socketglue.cpp:584-595 | the swap loop in the array performs the sorted insertion and raises maxDelay to moves plus one before the first extraction |
| TrackPredictor.TrackPredictor.AddPacket | lib/ebml_socketglue.cpp:575-596 | add on the ring for any number of outstanding packets, clamp included: the slot written and the whole new array |
| TrackPredictor.TrackPredictor.AddInRing | lib/ebml_socketglue.cpp:575-596 | with a free slot, add appends to the queue and is the abstract step |
| TrackPredictor.TrackPredictor.FindOffset | lib/ebml_socketglue.cpp:548-558 | the in-place search is the 32-bit running maximum over the buffered slots |
| TrackPredictor.TrackPredictor.GetPacketData | lib/ebml_socketglue.cpp:540-573 | getPacketData rewrites only the oldest slot, with the retimed packet, and fixes the offset on first use |
| TrackPredictor.TrackPredictor.Remove | lib/ebml_socketglue.cpp:598-603 | remove frees the oldest slot and shifts the array down by one, clamp included |
| TrackPredictor.TrackPredictor.TakePacket | lib/ebml_socketglue.cpp:809-820 | getPacketData and remove together are the abstract extraction |
| TrackPredictor.TrackPredictor.DrainBuffered | lib/ebml_socketglue.cpp:804-823 | the drain loop terminates and lets out exactly what the abstract drain does, in order |
| TrackPredictor.TrackPredictor.Receive | lib/ebml_socketglue.cpp:688-716 | a key frame finishes what is buffered, then the frame is added and the buffer drained |
| TrackPredictor.Feed | lib/ebml_socketglue.cpp:804-823 | a whole session on the 24-slot ring lets out what the unbounded specification does, whenever the session needs at most 24 slots |
| CmafTheorems.SamplesFromAt | lib/cmaf.cpp:484-502 | the samples collected are consecutive parts with their accumulated times |
| CmafTheorems.SamplesFromEnd | lib/cmaf.cpp:484-485 | collection stops only at the end of the part range or at the first part not before the end time |
| CmafTheorems.CollectedIff | lib/cmaf.cpp:467-503 | a sample is collected if and only if it is a selected part of the track, with exactly its fields |
| CmafTheorems.SortStrict | lib/cmaf.cpp:506-510 | sorting distinct parts orders them strictly by time, track and part and keeps exactly the same samples |
| CmafTheorems.StrictUnique | lib/cmaf.cpp:506-510 | two strictly ordered lists of the same samples are equal, so any correct sort gives this list |
| CmafTheorems.EachTrackInOrder | lib/cmaf.cpp:506-510 | within the merged list each track's samples are exactly its own, in part order |
| CmafTheorems.ListedOnce | lib/cmaf.cpp:467-518 | every selected part of every track is listed, once, with its own fields, by time, of one time by track, and of one track by part; and nothing else is listed |
| CmafLayout.RunsPartition | lib/cmaf.cpp:520-527 | the runs are the maximal same-track segments and tile the list without gap or overlap |
| CmafLayout.RunsHoldTrack | lib/cmaf.cpp:520-527 | the runs of one track, joined, are exactly its samples in order |
| CmafLayout.SizingPassExact | lib/cmaf.cpp:590-593 | the moof built with zero offsets has the size of the moof finally written, whatever the offset |
| CmafLayout.TrunPositions | lib/cmaf.cpp:566-582 | a reader that adds sample sizes to a trun's data offset finds every sample right after everything listed before it |
| CmafLayout.TrafHoldsTrack | lib/cmaf.cpp:543-586 | a traf's records, over all its truns, are those of the track's parts in order, and its base time is the first one's time |
| CmafLayout.TimesRecovered | lib/cmaf.cpp:478-502 | each record of a track has its part's size, duration and composition offset, adding up durations from the base time gives the part's own time, and its flags say exactly whether that time is a key time |
| CmafFragment.PlanConsistent | lib/cmaf.cpp:504-602 | a successful plan has offsets computed for the header that is written, an mdat size that matches the payload, the sequence number in 32 bits, and everything within a signed 32-bit offset |
| CmafFragment.TrafPresent | lib/cmaf.cpp:543-586 | every track with samples has its traf |
| CmafFragment.TrafHasTrack | lib/cmaf.cpp:543-586 | every traf belongs to a track with samples |
| CmafFragment.RunContaining | lib/cmaf.cpp:522-527 | every listed sample lies in exactly the run found for it |
| CmafFragment.PartOfSample | lib/cmaf.cpp:492-500 | every listed sample is a part of its track and its record has that part's size, duration and composition offset |
| CmafFragment.EverySampleFound | lib/cmaf.cpp:537-602 | every listed sample is described in a trun of its own track, with the size, duration and composition offset of its part, at the byte after the header and all earlier samples: the samples tile the payload |
| CmafFragment.TimesAndKeysRecovered | lib/cmaf.cpp:537-602 | from the boxes alone a reader recovers every part's size, duration, composition offset, original time (minus the track's first time for VoD) and exact key flags, for every traf, whose default flags and base time are the track's |
| CmafPlan.PlanSucceedsIff | lib/cmaf.cpp:450-602 | a fragment is planned exactly when the interval is not empty, every selected track is valid, has its parts and a usable first time, a part falls into the interval, no VoD track starts before its first time, and header and payload stay below 2^31 bytes |
| CmafPlan.HeaderMeasured | lib/cmaf.cpp:537-595 | the header takes 32 bytes, 52 for each track served, 20 for each uninterrupted run of one track and 16 for each sample |
| CmafPlan.BoxesAscend | lib/cmaf.cpp:543-586 | the track fragment boxes come by ascending track, one for each |
| Cmaf.PointerFindsKey | lib/cmaf.cpp:480-490 | with sorted key times, comparing the pointed-to key with the sample time decides whether the time is a key time at all |
| Cmaf.AdvanceKey | lib/cmaf.cpp:481-488 | the pointer loop stops at the last key at or before the sample time |
| Cmaf.CollectTrack | lib/cmaf.cpp:467-503 | the per-track loop fails exactly for tracks that cannot be served and otherwise appends exactly the track's samples |
| Cmaf.CollectAll | lib/cmaf.cpp:467-503 | the outer loop does so for all selected tracks |
| Cmaf.AssignOffsets | lib/cmaf.cpp:512-518 | the prefix-sum loop fails exactly when the payload cannot fit an mdat and otherwise assigns every offset |
| Cmaf.GroupRuns | lib/cmaf.cpp:520-527 | the grouping loop fills the map with exactly the non-empty run lists of the partition |
| Cmaf.CheckRebase | lib/cmaf.cpp:528-535 | the VoD loop accepts exactly when no track with samples starts before its own first time |
| Cmaf.BuildMoof | lib/cmaf.cpp:537-588 | the box loops build one traf per track with runs, in track order, with the specified truns |
| Cmaf.BoxSamples | lib/cmaf.cpp:590-601 | the two passes build the specified boxes or fail exactly when the offsets do not fit |
| Cmaf.MuxedFragment | lib/cmaf.cpp:450-602 | the whole planner, step by step, computes the specified fragment or fails exactly where the specification does |
| CommsSafety.StepKeepsInv | lib/comms.cpp:171-188 | every single shared access of any client or of the master keeps the invariant: owners' records are theirs, and no record has two live owners |
| CommsSafety.SafeInEveryRun | lib/comms.cpp:171-188 | so does every interleaving |
| CommsSafety.OwnersAreSafe | lib/comms.h:9-27 | in every interleaving from a fresh page, a live owner that has not disconnected finds its pid in a record that is neither free nor marked disconnected, and no other live client owns it |
| CommsSafety.ScanSparesOwners | lib/comms.h:13-25 | no step of a scan touches the record of a live owner |
| CommsSafety.FreeUnowned | lib/comms.cpp:174-178 | a record that is free, disconnected or carries a dead process's pid has no live owner |
| CommsVisibility.VisibleInEveryRun | lib/comms.cpp:84-87 | in every interleaving every record in use is below the count, about to raise it, or was cut off after a late claim and is still beyond the count; and the count never falls below what a running scan read |
| CommsVisibility.ShrinkSparesNewRecords | lib/comms.cpp:84-87 | a shrink never hides a record at or above the count its scan read: whatever is in use there has been beyond the count since an earlier shrink |
| CommsVisibility.ShrinkVisibleIff | lib/comms.cpp:84-87 | a shrink hides no record that was visible exactly when none between the last one the scan saw in use and the count it read has come into use since |
| CommsVisibility.StaysVisible | lib/comms.h:11-26 | in every run without such claims every record in use stays below the count |
| CommsFailures.ShrinkCanHideIff | lib/comms.h:9-27 | from a fresh page some interleaving leaves a live owner beyond the count, where no scan looks, exactly when the page has at least two records |
| CommsFailures.CountStaysPositive | lib/comms.h:26-26 | in every interleaving the count stays at least one |
| CommsFailures.DisconnectCanBeLost | lib/comms.cpp:105-124 | from every fresh page: finishAll writes back a status it read earlier, a client disconnects in between, and its record stays in use without the mark |
| CommsFailures.StepMarksIff | lib/comms.cpp:105-124 | a step of any process takes the disconnect mark from a record that it does not free exactly when it is finishAll writing back a status read before the mark was set |
| CommsFailures.MarksLastIff | lib/comms.cpp:105-124 | over every run disconnects last until their records are freed exactly when no such write happens |
| CommsFailures.StepRequestsIff | lib/comms.cpp:89-100 | a step takes the request to disconnect from a record that it does not free exactly when a client, or the scan that marks it dead, writes back a status worked out before the request |
| CommsFailures.RequestsLastIff | lib/comms.cpp:89-124 | over every run requests last until their records are freed exactly when no such write happens |
| CommsFailures.RequestCanBeLostIff | lib/comms.cpp:89-124 | from a fresh page some interleaving loses a request, unless the flags that every client sets hold it already |
| CommsPage.Page.constructor | lib/comms.cpp:147-155 | a new page is all free records with a count of one |
| CommsPage.Page.Reload | lib/comms.cpp:171-188 | undisturbed, reload claims exactly the first free record, with pid and status, and raises the count if needed, or fails when there is none |
| CommsPage.Page.SetRecordCount | lib/comms.cpp:84-87 | the count is replaced only when it has not grown past the count read before |
| CommsPage.Page.CommLoop | lib/comms.h:9-27 | an undisturbed scan treats every record below the count as specified, leaves the others alone, and shrinks the count to just behind the last one that was in use |
| CommsPage.LastUsedIsLast | lib/comms.h:12-24 | nothing behind the recorded last one is in use |
| CommsPage.TwoScansFree | lib/comms.h:16-23 | a dead process's record is free after two scans; a live one's is untouched unless disconnected; a disconnected one is freed at once |
| CommsPage.ScanKeepsVisible | lib/comms.h:11-26 | an undisturbed scan never shrinks the count below a record still in use |
| CommsAlone.ScanAlone | lib/comms.h:9-27 | the scan of the interleaved protocol, from any reachable page and left to itself, ends as COMM_LOOP: every record below the count marked or freed as in an undisturbed scan, everything else untouched, the count shrunk to the last one that was in use |
| CommsAlone.ScannedIs | lib/comms.h:14-23 | in plain numbers: a status with bit 0x20 becomes 0, one in use by a dead process gets that bit, and the process number stays |
| CommsAlone.DeadIsFreed | lib/comms.h:9-27 | two such scans free the record of a process that has died |
| CommsAlone.ClaimAlone | lib/comms.cpp:171-189 | a claim left to itself, from any record it looks at or waits for, even one that was taken meanwhile, ends as the owner of the first free record from there on, with its process number and bit 0x01 next to the common flags, the count raised over it and the semaphore free; or fails and changes nothing when there is none |
| CommsAlone.FinishAlone | lib/comms.cpp:105-124 | a pass of finishAll left to itself sets bit 0x10 on every record below the count in use without bit 0x20, and changes nothing else |
| CommsAlone.UpdateAlone | lib/comms.cpp:89-91 | a client's update left to itself adds its bits to its own status or to the common flags, and is its last when bit 0x20 is among them |
| AmfRoundTrip.ParseUndoesPack | lib/amf.cpp:422-571 | standing at a printed value without typed objects, whatever surrounds it, the parser returns that value in normal form and stops right behind it |
| AmfRoundTrip.MembersUndone | lib/amf.cpp:506-522 | the member loop gives all named members back and stops at the end marker |
| AmfRoundTrip.ElementsUndone | lib/amf.cpp:557-567 | the element loop gives all strict array elements back |
| AmfRoundTrip.TextUndone | lib/amf.cpp:325-337 | strings, long strings and XML come back; over 65535 bytes a string comes back as a long string |
| AmfAccounting.AllUndone | lib/amf.cpp:576-590 | the whole-data loop gives a printed list of values back |
| AmfAccounting.UntypedRoundTrips | lib/amf.cpp:293-413 | every printable tree without typed objects survives printing and parsing, in normal form |
| AmfAccounting.RoundTripIff | lib/amf.cpp:523-540 | exactly the trees without any typed object come back, where no named member is a typed object or the first typed object cannot be saved by a coincidence: the parser reads a class name but never steps over it |
| AmfCoincidence.SomeTypedSurvive | lib/amf.cpp:523-540 | there are such coincidences: a concrete tree with two typed objects comes back as it was |
| AmfAccounting.TreeIsLost | lib/amf.cpp:523-540 | a whole tree, typed objects among named members or not, never comes back when its first typed object is such a one |
| AmfAccounting.TypedIsLost | lib/amf.cpp:523-540 | a typed object, wherever it stands, never comes back unless its first member has the type that the high byte of that member's name length announces and is named like the class or typed itself; for names under 256 bytes: unless that member is a number named like the class. Without a class name it loses its members |
| AmfAccounting.KindParsed | lib/amf.cpp:422-571 | what comes out of the parser has the type its first byte announces, or is the error container |
| AmfAccounting.ParseBalanced | lib/amf.cpp:422-571 | on any bytes: printing what was cleanly parsed takes exactly the bytes consumed plus the class names not stepped over |
| AmfAccounting.ParseAllBalanced | lib/amf.cpp:576-590 | the same for the whole data, all of which is consumed |
| AmfAccounting.NormalSize | lib/amf.cpp:293-413 | normal form changes neither printed size nor class name bytes |
| AmfCodec.PrintsTheSameAgain | lib/amf.cpp:295-296 | printing may change an object's type, but printing it again gives the same bytes and changes nothing more |
| AmfCodec.Pack | lib/amf.cpp:293-413 | the printer with its growing buffer emits exactly the specified bytes and leaves the object with over-long strings turned into long strings |
| AmfCodec.TakeOne | lib/amf.cpp:422-571 | the parser with its moving cursor returns the specified object and position, and goes wrong exactly where the specification says it leaves the data |
| AmfCodec.TakeMembers | lib/amf.cpp:506-522 | the member loop, likewise |
| AmfCodec.TakeElements | lib/amf.cpp:557-567 | the element loop, likewise |
| AmfCodec.ParseData | lib/amf.cpp:576-590 | the outer loop terminates, collects every object, and never takes its exit for a cursor that stands still |
| AmfCodec.PrintAndParse | lib/amf.cpp:293-590 | the parser run on the printer's output returns the tree in normal form, for every printable tree without typed objects |
| AmfWire.ScalarBytes | lib/amf.cpp:293-374 | the printed bytes, in plain numbers, of numbers, dates, booleans, references and the types without data |
| AmfWire.TextBytes | lib/amf.cpp:325-337 | those of strings (0x02 and a 16-bit length), of long ones (0x0C and 32 bits) and of XML (0x0F) |
| AmfWire.HolderBytes | lib/amf.cpp:338-410 | those of objects (0x03), typed objects (0x10, with the class name), ECMA arrays (0x08) and strict arrays (0x0A) around their contents, and of the container, which prints only those |
| AmfWire.MemberBytes | lib/amf.cpp:343-349 | those of a named member: the 16-bit length of its name, the name, the value |
| AmfWire.MarkerIs | lib/amf.cpp:298-298 | what the first byte of every printed value is |
| AmfWire.ScalarParsed | lib/amf.cpp:422-500 | which value the parser returns at each of these first bytes, and how far it moves |
| AmfWire.StringParsed | lib/amf.cpp:490-496 | the same for strings, cut off at the end of the data |
| AmfWire.LongParsed | lib/amf.cpp:474-489 | the same for long strings and XML |
| AmfWire.HolderParsed | lib/amf.cpp:506-567 | the same for objects, typed objects and arrays, in terms of their members |
| AmfWire.MemberParsed | lib/amf.cpp:509-519 | one turn of the member loop: where it ends, and which name and value it takes |
| AmfWire.ElementsNamed | lib/amf.cpp:557-567 | strict array elements are parsed under the name "arrVal" |
| AmfWire.OthersFail | lib/amf.cpp:568-571 | any other first byte ends the parse with an empty container named "error" |
| AmfWire.WidenedIs | lib/amf.cpp:295-296 | printing turns exactly the strings over 65535 bytes into long strings and leaves every other tree as it is |
| EbmlInt.CodedFirst | lib/ebml.cpp:11-21 | in each of the eight widths the first byte announces exactly that width, and is all ones only for the reserved value |
| EbmlInt.CodedReads | lib/ebml.cpp:38-52 | a value coded in any width that can hold it reads back wherever it stands |
| EbmlInt.UniBytesRead | lib/ebml.cpp:24-67 | every value up to 2^56 - 2 written by the writers reads back with its width; larger ones read as unknown size |
| EbmlInt.WriteSizeIsLeast | lib/ebml.cpp:24-34 | the width chosen is the smallest whose all-ones value is larger |
| EbmlInt.SignedReads | lib/ebml.cpp:69-81 | the signed reader undoes the coding of differences of RFC 9559 section 10.3.3 in every width |
| EbmlInt.BeExact | lib/bitfields.h:20-116 | big-endian bytes of any width read back |
| EbmlWire.WrittenBytes | lib/ebml_socketglue.cpp:7-16 | the bytes of written integers: the value under the bits 0x80, 0x40, 0x20 and 0x10 of the first of one to four bytes, and 0xFF for an unknown size |
| EbmlWire.LongerBytes | lib/ebml_socketglue.cpp:7-16 | and under 0x08 to 0x01 for five to eight bytes |
| EbmlWire.WidthOfFirst | lib/ebml.cpp:11-21 | the width read from each first byte; a zero byte is a zero of one byte |
| EbmlWire.SignedIs | lib/ebml.cpp:69-81 | what each width subtracts to read a signed number |
| EbmlTree.ElementReads | lib/ebml.cpp:231-252 | a serialised element is read with its own identifier, payload length, header length and outer length, whatever follows it |
| EbmlTree.NeedBytesExact | lib/ebml.cpp:90-102 | with the whole element at hand needBytes is its outer length; with less it always asks for more but never for more than the element has |
| EbmlTree.NeedBytesMinimal | lib/ebml.cpp:97-98 | in minimal mode a master needs only its head, any other element all of itself |
| EbmlTree.StepsVisitChildren | lib/ebml.cpp:366-376 | stepping by getOuterLen through a serialised payload visits exactly the children's positions |
| EbmlTree.PositionsHold | lib/ebml.cpp:366-376 | at each of these positions stands that child |
| EbmlTree.FindsFirst | lib/ebml.cpp:358-379 | on every serialised tree findChild terminates and returns the first element with the identifier in pre-order, or none |
| EbmlTree.FirstIsFirst | lib/ebml.cpp:358-379 | that is: the element has the identifier and none before it in pre-order has |
| EbmlTree.NeededIsWhole | lib/ebml.cpp:367-371 | the bounds check before each child guarantees that it lies within its parent |
| EbmlTree.FindChildIn | lib/ebml.cpp:358-379 | the recursive loop, on arbitrary bytes, reads only within the element and computes the specified result or reports an element of unknown size |
| EbmlWire.MastersOnWire | lib/ebml.cpp:254-287 | an identifier is descended into exactly if its bytes in a file are one of the 26 listed ones |
| EbmlWire.MasterRead | lib/ebml.cpp:254-287 | an identifier read from any of these bytes is |
| EbmlWire.OthersNotRead | lib/ebml.cpp:254-287 | and an identifier read from anything else is not, in whatever form it stands there |
| EbmlWire.FindsFirstListed | lib/ebml.cpp:358-379 | on every tree whose elements hold elements exactly where that list says so, findChild returns the first element with the identifier in pre-order, or none |
| EbmlWire.WidthIsFound | lib/ebml_socketglue.cpp:506-506 | the width of a video track is found within its track entry: in AE 86 E0 84 B0 82 07 80 at position 4 |
| EbmlSearch.NeedBytesStages | lib/ebml.cpp:90-102 | needBytes asks for two bytes, then for the first byte of the size, then for the head, then for the whole element |
| EbmlSearch.UnknownSize | lib/ebml.cpp:90-102 | an element of unknown size needs only its head; its outer length is that in minimal mode and wraps around to one byte less otherwise |
| EbmlSearch.UnknownSearched | lib/ebml.cpp:358-379 | searching an element of unknown size finds itself, or nothing, or stops if it is a master |
| EbmlSearch.FoundHasId | lib/ebml.cpp:358-379 | on any data: what is found has the identifier and begins within the element searched |
| EbmlSearch.CutOffSearched | lib/ebml.cpp:366-378 | when a payload ends in a cut-off element or in rubbish, the whole children before it are searched in order and the rest is ignored |
| EbmlSearch.UIntOfAny | lib/ebml.cpp:468-484 | getValUInt of any element: no bytes are 0, up to eight are the number, more are 0 |
| EbmlWriter.UIntSize | lib/ebml_socketglue.cpp:42-45 | sizeElemUInt is the length of what sendElemUInt emits, for every value |
| EbmlWriter.IntSize | lib/ebml_socketglue.cpp:66-69 | sizeElemInt is the length of what sendElemInt emits |
| EbmlWriter.StrSize | lib/ebml_socketglue.cpp:81-83 | sizeElemStr is the length of what sendElemStr emits |
| EbmlWriter.IdSizeIff | lib/ebml_socketglue.cpp:71-74 | sizeElemID is exact for values that have an encoding and for no others |
| EbmlWriter.EbmlExactIff | lib/ebml_socketglue.cpp:179-215 | the declared size, the predicted size and the element as a whole are right exactly for doctypes of up to 126 bytes |
| EbmlWriter.InfoExactIff | lib/ebml_socketglue.cpp:195-229 | the same for the Info element, exactly when the name is at most 126 bytes and the date is not the 2001 origin (at the origin an error of four bytes can only be hidden by a name of 16383 to 2097150 bytes) |
| EbmlWriter.SeekExactIff | lib/ebml_socketglue.cpp:259-269 | a Seek element's declared size is exact for four ranges of identifiers and no others; its predicted size always is |
| EbmlWriter.CuePointExact | lib/ebml_socketglue.cpp:271-293 | both declared sizes and the predicted size of a cue point are exact for all arguments |
| EbmlWriter.BlockExactIff | lib/ebml_socketglue.cpp:231-257 | a simple block's sizes are right exactly when the track number has an encoding and the 32-bit size does not overflow |
| EbmlWriter.UIntRoundTrip | lib/ebml.cpp:468-484 | getValUInt gives back every 64-bit value from its element |
| EbmlWriter.SendUniInt | lib/ebml_socketglue.cpp:7-16 | emits the shortest encoding, or one byte for unknown |
| EbmlWriter.SendElemUInt | lib/ebml_socketglue.cpp:123-138 | emits exactly the serialised element |
| EbmlWriter.SendElemInt | lib/ebml_socketglue.cpp:140-155 | emits exactly the serialised element |
| EbmlWriter.SendElemEBML | lib/ebml_socketglue.cpp:179-193 | emits the header with its declared size, then the seven children |
| EbmlWriter.SendElemInfo | lib/ebml_socketglue.cpp:195-211 | emits the head with the computed content length, then the children that are present |
| EbmlWriter.SendElemSeek | lib/ebml_socketglue.cpp:259-264 | emits the head with the declared size, then both children |
| EbmlWriter.SendElemCuePoint | lib/ebml_socketglue.cpp:271-283 | emits exactly the serialised element tree |
| EbmlWriter.AppendSimpleBlock | lib/ebml_socketglue.cpp:242-252 | appends the head with the declared size, then track, time, flags and frame |
| EbmlSent.WidthIsLeast | lib/ebml_socketglue.cpp:23-40 | unsigned values are stored in the fewest bytes that hold them, and at least one |
| EbmlSent.UIntBytes | lib/ebml_socketglue.cpp:123-138 | the bytes of an unsigned element: identifier, 0x80 plus the width, and the value |
| EbmlSent.HeaderSent | lib/ebml_socketglue.cpp:179-193 | the bytes of the EBML header, child by child, with version 4 for "matroska" and 1 for anything else |
| EbmlSent.InfoSent | lib/ebml_socketglue.cpp:195-211 | the bytes of the Info element: a scale of a million, the duration and the date if there are any, and the application twice |
| EbmlSent.SeekSent | lib/ebml_socketglue.cpp:259-264 | the bytes of a Seek element |
| EbmlSent.CueSent | lib/ebml_socketglue.cpp:271-283 | the bytes of a cue point with its nested track position |
| EbmlSent.BlockSent | lib/ebml_socketglue.cpp:242-252 | the bytes of a simple block: track, 16-bit time since the cluster's, 0x80 for a key frame, frame |
| EbmlSigned.IntRoundTripIff | lib/ebml_socketglue.cpp:140-155 | a 64-bit signed value is read back by getValInt exactly when the width, chosen by magnitude alone, leaves room for its sign |
| EbmlSigned.DateRoundTripIff | lib/ebml.cpp:504-506 | a date comes back exactly when its nanoseconds since 2001 do |
| EbmlSigned.DateIsLost | lib/ebml.cpp:486-506 | 1 July 2002 comes back as 19 March 2000 |
| EbmlBlock.XiphRecovered | lib/ebml.cpp:563-617 | for every Xiph-laced block of 1 to 255 frames getFrameSize and getFrameData return exactly each frame |
| EbmlBlock.EbmlRecovered | lib/ebml.cpp:580-634 | the same for EBML lacing, for every choice of widths the lacer makes |
| EbmlBlock.FixedRecoveredIff | lib/ebml.cpp:600-640 | a block of equal frames with fixed lacing gives them back exactly when there are at least two: the count byte is divided along with the frames |
| EbmlBlock.StartsTile | lib/ebml.cpp:608-650 | each frame starts where the one before ends, and the last ends at the payload's end |
| EbmlBlock.NoSuchFrame | lib/ebml.cpp:563-620 | a frame number beyond the count gives size 0 and no data |
| EbmlBlock.SimpleBlockReadsBack | lib/ebml.cpp:532-561 | the accessors give back track, key flag and frame of every appended block, and the time exactly when it is within 16 signed bits of the cluster's |
| EbmlBlock.GetFrameSize | lib/ebml.cpp:557-606 | the lace loops compute the specified size on any payload, and read past it exactly where the specification says |
| EbmlBlock.GetFrameData | lib/ebml.cpp:608-650 | the position loops, likewise |
| EbmlBlockWire.HeadRead | lib/ebml.cpp:532-550 | track, signed time, key, invisible, discardable and lacing as read from a block's first bytes, whatever the bits of its flags |
| EbmlBlockWire.LacingRead | lib/ebml.cpp:548-555 | flags 0x00, 0x02, 0x04 and 0x06 are the four lacings, and the byte behind the flags of the last three is the number of frames less one, in 8 bits |
| EbmlBlockWire.ExampleTables | lib/ebml.cpp:557-606 | the lace tables of frames of 800, 500 and 1000 bytes are those of sections 10.3.2 and 10.3.3 of RFC 9559 |
| BitstreamBits.BitsOfBe | lib/bitfields.h:98-116 | the bits of a big-endian number are the number's bits |
| BitstreamBits.ValueSplit | lib/bitstream.cpp:80-104 | cutting a bit string divides its value with remainder |
| BitstreamReader.NextChunk | lib/bitstream.cpp:82-104 | appending one masked and shifted byte chunk to the value read so far gives the value of the longer bit string, modulo 2^64 |
| BitstreamReader.EmulationUndone | lib/bitstream.cpp:45-59 | removing emulation prevention bytes undoes inserting them (section 7.4.1.1 of ITU-T H.264) on every byte string |
| BitstreamReader.TwoPiecesIff | lib/bitstream.cpp:45-59 | appending in two pieces keeps the same bytes as appending at once exactly when no 0, 0, 3 starts in the first piece and ends in the second |
| BitstreamReader.BitReader.AppendPreventEmulation | lib/bitstream.cpp:45-59 | the copy loop appends exactly the input without its emulation prevention bytes |
| BitstreamReader.BitReader.Peek | lib/bitstream.cpp:70-106 | peek returns the value of the next bits, low 64 of them, at any alignment, and 0 when there are not enough |
| BitstreamReader.BitReader.Get | lib/bitstream.cpp:108-117 | get returns the same and moves behind it; without enough bits nothing moves |
| BitstreamReader.BitReader.Skip | lib/bitstream.cpp:127-133 | skip drops that many bits, or all |
| BitstreamReader.BitReader.Flush | lib/bitstream.cpp:145-149 | flush forgets whole bytes already read and no bit that is left |
| BitstreamReader.BitReader.GolombPeeker | lib/bitstream.cpp:151-156 | finds the first one bit among the next 64 and peeks the code behind it |
| BitstreamReader.BitReader.GolombGetter | lib/bitstream.cpp:158-163 | the same, moving behind the code |
| BitstreamReader.BitReader.GetUExpGolomb | lib/bitstream.cpp:170-170 | returns the code's value less one in 64 bits |
| BitstreamReader.BitReader.GetExpGolomb | lib/bitstream.cpp:165-168 | returns the unfolded signed value |
| BitstreamGolomb.CodeReads | lib/bitstream.cpp:151-170 | the reader returns every value below 2^64 - 1 from its code and stops right behind it, whatever follows |
| BitstreamGolomb.CodeShape | lib/bitstream.cpp:215-237 | the code emitted is as many zeros as the number has digits, less one, and then the number (section 9.1 of ITU-T H.264) |
| BitstreamGolomb.SignedUnfolds | lib/bitstream.cpp:165-233 | the signed reader inverts the writer's folding (section 9.1.1 of ITU-T H.264) |
| BitstreamGolomb.UExpGolombEncodedSize | lib/bitstream.cpp:215-224 | the loop returns twice the number of digits of value + 1, less one; for the largest 64-bit value, whose successor wraps, it returns 1 |
| BitstreamGolomb.BitSizeUExpGolomb | lib/bitstream.h:36-44 | the loop returns the same for all values below 2^64 - 1, in 64-bit arithmetic |
| BitstreamGolomb.LargestNeverStops | lib/bitstream.h:36-44 | for the largest value its guard holds for every power it can reach |
| Bitstream.BitWriter.Append | lib/bitstream.cpp:187-208 | append through the 9-byte window adds exactly the value's bits at any alignment and keeps every bit behind them zero |
| Bitstream.BitWriter.AppendUExpGolomb | lib/bitstream.cpp:235-237 | appends exactly the code, as long as it fits the window |
| Bitstream.BitWriter.AppendExpGolomb | lib/bitstream.cpp:226-233 | appends exactly the code of the folded value |
| Bitstream.BitWriter.Str | lib/bitstream.h:67-67 | returns all bits written, filled up to a whole byte with zeros |
| BitstreamScript.CodeFitsIff | lib/bitstream.cpp:187-208 | a code fits the window at the worst alignment exactly for values up to 2^33 - 2 |
| BitstreamScript.ScriptReads | lib/bitstream.cpp:108-170 | for every script of fields, unsigned and signed codes, the matching reads return the values in order and stop right behind the last one, from any alignment |
| BitstreamScript.WriteScript | lib/bitstream.cpp:187-237 | the writer turns a script into its bits, behind whatever was written before |
| BitstreamScript.ReadScript | lib/bitstream.cpp:108-170 | the reader, likewise |
| BitstreamScript.WriteAndRead | lib/bitstream.cpp:65-237 | writing a script behind any other script, the empty one included, and reading the resulting bytes from there returns the script's values |
| BitstreamRules.BitOfByte | lib/bitstream.cpp:65-68 | bit j of a byte is the one of value 128, 64, ... 1 |
| BitstreamRules.ReadIs | lib/bitstream.cpp:70-117 | a read of up to 64 bits returns the number whose bits they are, a longer one that of the last 64 bits, and one beyond the end 0 |
| BitstreamRules.NoCode | lib/bitstream.cpp:151-163 | without a one bit among the next 64 the code number is 0 and nothing is read |
| BitstreamRules.CodeOrNot | lib/bitstream.cpp:151-163 | behind k zeros and a one the number is that one and the next k bits; when they are not all there it is 0 and nothing is read |
| BitstreamRules.CodeMeans | lib/bitstream.cpp:165-170 | the codes stand for 0, 1, 2, ... unsigned and for 0, 1, -1, 2, -2, ... signed; without a code the unsigned number is all ones |
| BitstreamRules.SignedFitsIff | lib/bitstream.cpp:226-237 | signed numbers fit the writer's window at every alignment exactly up to 2^32 - 1 in size |
| EventLoopSpec.FireLowers | lib/ev.cpp:70-91 | every firing of an overdue timer lowers the total overdue time, whatever its callback adds, removes or reschedules: the phase ends |
| EventLoopTheorems.FiresInOrder | lib/ev.cpp:70-91 | timers fire in the order they are due, none due after the start, and afterwards, unless a call threw, every timer is due after the start |
| EventLoopTheorems.FollowsSchedule | lib/ev.cpp:70-91 | unless a call threw, the firings of each timer and its due time afterwards are those of its own schedule, independent of all other timers; a repeat is due its increment after the last due time, without drift |
| EventLoopTheorems.CatchesUp | lib/ev.cpp:70-91 | a timer that others leave alone and that keeps its increment fires at exactly its missed due times, each once, and is next due at the first one after the start |
| EventLoopTheorems.RunCatchesUp | lib/ev.cpp:70-91 | the same for a whole phase, next to any other timers |
| EventLoopTheorems.RepeatsCounted | lib/ev.cpp:70-91 | the k-th of these is the first due time plus k increments, not after the start |
| EventLoopTheorems.FireMatchedIff | lib/ev.cpp:79-90 | a firing keeps scheduled timers equal to registered ones exactly when a callback that wants to continue has not removed its own timer |
| EventLoopTheorems.RunMatched | lib/ev.cpp:70-91 | so through a whole phase nothing throws, every scheduled number is unique and registered, and every registered one scheduled |
| EventLoopTheorems.InsertSorted | lib/ev.cpp:86-86 | insertion into the multimap keeps due order |
| EventLoopOrder.InsertPlace | lib/ev.cpp:81-81 | a timer is scheduled behind everything due no later and before everything due later |
| EventLoopOrder.AddSchedules | lib/ev.cpp:274-279 | a new timer is due its interval after now under a number of its own, and no other is touched; an interval of zero changes nothing |
| EventLoopOrder.RemoveUnschedules | lib/ev.cpp:281-289 | a removed timer is neither scheduled nor registered, and no other is touched |
| EventLoopOrder.RescheduleMoves | lib/ev.cpp:291-306 | a scheduled timer moves to its interval after now, and no other is touched |
| EventLoopOrder.ScheduledBehindIff | lib/ev.cpp:277-277 | a newly scheduled timer stands behind another exactly when it is due no earlier |
| EventLoopOrder.FiresInTurn | lib/ev.cpp:71-91 | of two timers the one that stands ahead fires first, whatever the callbacks before it do to any other timer |
| EventLoopOrder.SameTimeInOrder | lib/ev.cpp:71-91 | so timers due at the same time fire in the order they were scheduled |
| EventLoopOrder.ThrowsAtOnce | lib/ev.cpp:76-78 | a due timer without a function ends the phase: it loses its entry and gets an empty function |
| EventLoopOrder.ThrowLeavesStray | lib/ev.cpp:76-78 | after a throw some registered timer has no entry in the queue |
| EventLoop.Loop.AddInterval | lib/ev.cpp:274-279 | registers and schedules a fresh number, or refuses a zero interval |
| EventLoop.Loop.EraseTime | lib/ev.cpp:282-289 | the search loop takes exactly the first entry of the timer out, and says whether there was one |
| EventLoop.Loop.RemoveInterval | lib/ev.cpp:281-289 | unregisters and unschedules one timer and leaves all others alone |
| EventLoop.Loop.RescheduleInterval | lib/ev.cpp:291-306 | moves a scheduled timer to its new due time; one that is not scheduled is left alone |
| EventLoop.Loop.FireDue | lib/ev.cpp:71-91 | the loop over the tables, callbacks included, is the specified run; for a number without a function the code calls an empty function, which throws out of the phase |
| EventLoop.Loop.FireTimers | lib/ev.cpp:70-95 | the timer phase of await: unless a call threw, which takes a callback that removed its own timer, everything due has fired in order, the tables match, and the wait never reaches past the next due time |
| HashPadding.FeedsPadded | lib/auth.cpp:105-131 | the blocks fed to the compression function are the padded message cut into blocks, for every input, block size and length field, with a second block when the field does not fit |
| HashPadding.PadFills | lib/auth.cpp:115-122 | padding makes whole blocks with fewer zeros than a block |
| HashPadding.FieldsExactIff | lib/auth.cpp:123-131 | the MD5 and SHA-256 length fields agree with the standards exactly for these lengths (always below 2^51 bytes): the top byte holds bits 54 to 61 instead of 56 to 63 |
| HashPadding.BlocksExactIff | lib/auth.cpp:100-134 | so the blocks hashed are the standards' blocks exactly for these lengths |
| HashPadding.Sha512ExactIff | lib/auth.cpp:411-414 | the SHA-512 length field is right exactly below 2^61 bytes |
| HashPadding.FieldShows | lib/auth.cpp:123-133 | blocks made with different length fields differ |
| HashRules.PaddedBits | lib/auth.cpp:112-133 | the padded message in bits: the message, a one, zeros, the length |
| HashRules.FewestZeros | lib/auth.cpp:112-133 | and no shorter run of zeros makes whole blocks |
| HashRules.AbcBlocks | lib/auth.cpp:100-134 | the blocks of the message "abc" of the appendices of FIPS 180-4, for MD5, SHA-256 and SHA-512 |
| HashPadding.Digest | lib/auth.cpp:103-134 | the streaming loop with its one-block buffer folds the compression function over exactly the specified blocks |
| HashPadding.DigestTail | lib/auth.cpp:110-133 | the buffer handling after the loop, one block or two |
| HashPadding.Md5Digest | lib/auth.cpp:100-134 | MD5's chaining value is that of RFC 1321 sections 3.1 to 3.4 for any compression function, for all messages below 2^51 bytes |
| HashPadding.Sha256Digest | lib/auth.cpp:218-253 | SHA-256's is that of FIPS 180-4 section 5.1.1, likewise |
| HashPadding.Sha512Digest | lib/auth.cpp:393-418 | SHA-384's and SHA-512's are those of FIPS 180-4 section 5.1.2, below 2^61 bytes |
| Hmac.HmacBin | lib/auth.cpp:471-496 | hmacbin computes HMAC of RFC 2104 section 2 over any hash function, for keys and messages of any length |
| Hmac.LongKeyIsItsHash | lib/auth.cpp:474-477 | a key longer than a block and its hash are interchangeable |
| Hmac.ZerosDoNotMatter | lib/auth.cpp:478-482 | trailing zero bytes of a key do not matter while it fits a block |
| HashRules.KeysSpelledOut | lib/auth.cpp:484-495 | HMAC with both key blocks byte by byte: key bytes exclusive-or 0x36 and 0x36 behind the key, in front of the message, and the same with 0x5C in front of the inner hash |
| HashRules.XorBits | lib/auth.cpp:487-490 | the exclusive or of two bytes has the bits in which they differ |
| ChecksumDivision.Linear | lib/checksum.h:46-51 | dividing is linear: the register of a sum of messages and start values is the sum of their registers |
| ChecksumDivision.ManyAtOnce | lib/checksum.h:46-51 | why tables work: a whole byte at once is that byte together with the register's leading bits, divided from zero, plus the rest of the register moved up |
| ChecksumDivision.BurstDetected | lib/checksum.h:5-52 | an error within as many consecutive bits as the register has always changes the remainder |
| ChecksumTables.Next32 | lib/checksum.h:6-44 | every entry of the table of crc32c is the entry of its leading seven bits, one division step on |
| ChecksumTables.NextReflected | lib/checksum.h:55-92 | the same for crc32LE, whose bits come in from the lowest |
| ChecksumTables.EntrySwapped | lib/checksum.h:103-140 | every entry of the table of crc32 is the entry of crc32c with its bytes in reverse |
| ChecksumTables.Next16 | lib/checksum.h:149-183 | the same for crc16 |
| ChecksumTables.Next8 | lib/checksum.h:197-220 | the same for crc8 |
| Checksum.Crc32cDivides | lib/checksum.h:46-51 | crc32c is bit-by-bit division by 0x04C11DB7 from any start value over any bytes |
| Checksum.Crc32LEDivides | lib/checksum.h:94-99 | crc32LE is the same division with the bits of every byte and of the register in reverse |
| Checksum.Crc16Divides | lib/checksum.h:187-191 | the low 16 bits of the register of crc16, which is never cut, are the division by 0x8005 |
| Checksum.Crc8Divides | lib/checksum.h:222-227 | crc8 is the division by 0x07, and stays below 256 from a start value below 256 |
| Checksum.Crc32IsSwapped | lib/checksum.h:102-146 | crc32 is crc32c with the bytes of start value and result in reverse, for every start value and message |
| Checksum.Crc32cDetects | lib/checksum.h:5-52 | two messages that differ only within 32 consecutive bits never have the same crc32c, nor the same crc32 |
| Checksum.Crc32LEDetects | lib/checksum.h:54-100 | nor the same crc32LE, bits counted from the lowest of each byte |
| Checksum.ShortCrcsDetect | lib/checksum.h:148-228 | nor, within 16 or 8 bits, the same crc16 or crc8 |
| Checksum.Crc32c | lib/checksum.h:46-51 | the loop folds the bytes of the message with the table lookups the theorems speak of |
| Checksum.Crc32LE | lib/checksum.h:94-99 | so does the loop of crc32LE |
| Checksum.Crc32 | lib/checksum.h:142-145 | so does the loop of crc32 |
| Checksum.Crc16 | lib/checksum.h:185-191 | so does the loop of crc16 |
| Checksum.Crc8 | lib/checksum.h:222-227 | so does the loop of crc8 |
| Obu.AppendLeb128 | lib/av1.cpp:9-19 | the shift loop emits the specified groups of seven bits |
| Obu.LebReads | lib/av1.cpp:33-45 | the size loop gives back every length below 2^31 from its encoding, whatever follows |
| Obu.UnitReads | lib/av1.cpp:21-67 | init recovers header and payload length of every sized unit; its total size is the unit's own exactly unless it is a temporal delimiter with a payload |
| Obu.WalkRecovers | lib/av1.cpp:21-67 | calling init on the rest and stepping by getSize recovers every unit of a list, whatever follows it |
| Obu.OBU.Init | lib/av1.cpp:21-67 | init's field updates compute the specified sizes or mark the object invalid, and are undefined exactly where a shift leaves a signed 32-bit number |
| ObuRules.FirstByte | lib/av1.cpp:27-57 | the bits of the first byte: four of type, extension, size |
| ObuRules.GroupIs | lib/av1.cpp:9-19 | every group of a length holds its seven bits; all but the last are marked, and the last is not zero unless it is the only one |
| ObuRules.LengthExamples | lib/av1.cpp:9-45 | the lengths 0, 127, 128 and 300, the largest size that is read and the smallest whose shift leaves a signed 32-bit number |
| ObuRules.CutUnitIsInvalid | lib/av1.cpp:35-51 | less than a whole sized unit is invalid, wherever it is cut |
| ObuRules.UnsizedTakesAll | lib/av1.cpp:54-56 | a unit without a size takes all there is, and its parts add up exactly unless a header of two bytes stands in one |
| ObuRules.DelimiterIsHeader | lib/av1.cpp:57-65 | a unit of type 2 is only its header |
| Hex.HexUndone | lib/encode.cpp:73-100 | hexadecimal decoding undoes encoding on every byte string |
| TextRules.HexDigits | lib/encode.cpp:73-84 | the sixteen digits written, and those of either case read |
| TextRules.HexPair | lib/encode.cpp:92-100 | the high digit first, written and read |
| TextRules.AnyDigit | lib/encode.h:30-30 | any other character counts by its low four bits, with 9 added for 0x40 to 0x7F and from 0xC0 on |
| Hex.Encode | lib/encode.cpp:85-89 | the encoding loop appends two digits per byte |
| Hex.Decode | lib/encode.cpp:92-100 | the decoding loop ors every character into its half byte; it writes behind the result exactly for an odd last character with a non-zero value |
| Url.UrlUndoneIff | lib/encode.cpp:103-144 | URL decoding undoes encoding on every byte string exactly for compatible settings of ignore list and query flags |
| Url.OneByteLost | lib/encode.cpp:103-144 | otherwise a single byte is already lost |
| TextRules.PlainAre | lib/encode.cpp:107-110 | the characters that are left alone |
| TextRules.Escaped | lib/encode.cpp:107-119 | everything else becomes a percent sign and two digits, or a plus sign for a space in a query |
| TextRules.Unescaped | lib/encode.cpp:124-144 | a percent sign takes two characters, a cut-off one what there is; a plus sign is a space in a query; everything else stands for itself |
| Url.Encode | lib/encode.cpp:103-121 | the encoding loop computes the specified text |
| Url.Decode | lib/encode.cpp:124-144 | the decoding loop does, also for truncated escapes |
| Base64.Base64Undone | lib/encode.cpp:6-70 | Base64 decoding undoes encoding on every byte string, in both alphabets, with and without padding |
| Base64.TripleUndone | lib/encode.cpp:19-23 | the bit regrouping of three bytes into four values is inverted |
| TextRules.LettersAre | lib/encode.cpp:7-8 | the 64 characters of both alphabets |
| TextRules.LetterReadIff | lib/encode.cpp:30-37 | a character is read as the value whose letter it is in either alphabet, and every other character ends the text |
| TextRules.SameBits | lib/encode.cpp:19-57 | the four values of three bytes and the three bytes of four values are the same 24 bits |
| TextRules.Unfinished | lib/encode.cpp:61-68 | of an unfinished group only the whole bytes are kept |
| TextRules.EndsThere | lib/encode.cpp:49-49 | nothing behind the first character that ends the text matters |
| TextRules.Examples | lib/encode.cpp:6-28 | examples of section 10 of RFC 4648 |
| TextRules.UrlExamples | lib/encode.cpp:6-28 | the last two letters of either alphabet, and no padding in the URL form |
| Base64.Encode | lib/encode.cpp:6-28 | the encoding loop computes the specified text, padding and its removal included |
| Base64.Decode | lib/encode.cpp:42-70 | the decoding loop computes the specified bytes on any text |

## Left out

- TrackPredictor: payload bytes are the argument of `add` only; the reuse of a slot's old bytes when no data pointer is given is not modelled, nor the wrap of the 64-bit packet counters.
- TrackPredictorTheorems: runs contain arrivals, extractions and finishes; `flush` does not occur inside a run, what follows one is a run from the state it leaves (`TrackPredictorPasses`).
- Cmaf: `getPartIndex`, `getPartTime`, key times and part fields are inputs, and a box is its fields and its size; the byte layout of MP4 boxes is not part of this model, nor the wrap of 64-bit times.
- CmafTheorems.SortStrict: `std::sort` is modelled by an insertion sort; `CmafTheorems.StrictUnique` shows that any correct sort gives the same list.
- CmafSpec.Track: key times are taken in ascending order and tracks in map order, as the metadata keeps them.
- CommsProtocol: the record of a client that disconnected is not touched by it again, finishAll runs any number of passes, sends no signals and reads no pid, process numbers are never reused, a page is claimed once per client (no re-issue), the master does not crash or restart, and a crashed semaphore holder blocks everyone; sessions, environment and triggers are left out.
- AmfAccounting.RoundTripIff: says nothing about trees outside `Decided`, where a typed object stands among named members and the first typed object's first member has exactly the type its name length's high byte announces and bears the class name (or is typed): some of them come back (`AmfCoincidence.SomeTypedSurvive`), and which ones is not characterised.
- AmfSpec.ParseOne: reads outside the data and lengths of 2^31 and more are one outcome, `None`; doubles are opaque 8-byte values. AMF3, JSON conversion and the text form are left out.
- EbmlTree.FindChild: an element of unknown size inside the search is one outcome, `Unsized`, where the code leaves the buffer or computes with a wrapped length.
- EbmlWriter: predicted sizes are not cut to 32 bits except for simple blocks, so names are below 2^30 or 2^31 bytes; doubles are opaque bytes with the width the caller's value selects.
- EbmlBlock.GetFrameSize: reads past the payload are one outcome; blocks whose stored count wraps to zero frames are covered only by the model, not by a theorem.
- BitstreamReader: buffers always grow when asked to; the LSB-first reader, whose refill loop tests a size that does not change, is left out.
- Bitstream.BitWriter.Append: one to 64 bits, or up to 72 bits counted from the last whole byte, with a value that fits; outside this the code shifts out of range.
- EventLoopSpec.Lawful: callbacks see a clock that has not gone back and do not reschedule another timer to the very millisecond the phase started in, from where two callbacks could keep each other due as long as the clock stands still; sockets, select and signals are left out.
- HashPadding: the compression functions themselves are parameters; the output conversion is left out.
- Hmac: the stack buffers' size limits are not modelled.
- Obu: key frame detection and names are left out.
- Checksum: bytes are 8-bit vectors and registers 32-bit vectors; a table is written in 16 rows.
- FLAC, ADTS and H.264 field getters, MP4 box internals, metadata storage, network and device code are left out.
