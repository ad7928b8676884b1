# HPCAP: verified models of the capture engine

HPCAP captures network traffic at up to 40 Gb/s into a circular buffer that clients read. This project
models how a frame gets from the network card to a client's file, proves what the repository relies on
along that way, and adds models of four smaller stateful parts of the drivers. `dafny verify
dfyconfig.toml` checks everything.

**The descriptor ring** (`Geometry`, `RingProtocol`, `RingSafety`, `RingRuns`, `RingLimits`, `RingDepartures`,
`RingLosses`, `RingPace`, `RxRing`). Consumer threads share the receive ring of the 40 Gb/s Intel driver. A token goes
round with the segments and only its holder gives descriptors back. Steps of the threads and of the card
interleave freely. `RingRuns` has the guarantees of the runs in which no call ends too late;
`RingDepartures` and `RingLosses` take in every end of a call and say for which rings the guarantees survive.

**The stream** (`StreamLayout`, `FileLayout`, `WriteCounter`, `RawRecord`, `CircularBuffer`,
`ByteStream`, `RxWriter`, `FrameLog`, `RxLoop`, `RxCalls`, `ReceiveCall`, `WriteOrder`,
`ExposedLayouts`). Threads reserve bytes with one atomic add and
lay records and padding so that the stream can be cut into files. The layout depends only on the list of
reservations. `Reading` says whether the places where the code differs from its comments are taken as
coded or as documented; the theorems hold for both and say exactly when the code meets its comments.

**Listeners and clients** (`ListenerModel`, `ListenerTable`, `ListenerRuns`, `CaptureRuns`,
`CaptureLimits`, `CallSteps`, `CaptureTape`, `PollThread`, `HandleModel`, `ClientHandle`, `ClientRuns`,
`ReaderModel`, `Reader`, `PacketReader`). Wrapped offsets of the driver and of the client's handle stand for
positions in the stream.

**Files** (`CheckRaw`, `CaptureFiles`, `DumpRuns`, `CaptureSystem`). The repository's check of a RAW file, the
program that cuts the stream into files, and that program and the driver at work together.

**Smaller parts** (`DuplicateTable`, `AdminSend`, `AdminReceive`, `LldpModel`, `LldpParser`,
`LldpEncoding`, `PageDescriptors`). The duplicate filter, the two admin queues with the firmware as an
arbitrary stepper, the parser of DCB settings and the page descriptors.

Sizes (file, buffer, ring, consumers, listeners, largest frame) are parameters. `Cyclic` has the
arithmetic of positions in a ring. Most objects that the C code changes in place are classes whose
methods are proved against functions of their old state, and the theorems are about those functions.
Positions, histories and logs are ghost: no step reads them.

## Where the code differs from its text

The models follow the code. These differences have a theorem each.

- `driver/common/hpcap_rx.c:634` announces too many bytes of padding, and `:623-624` writes padding for a
  reservation that ends inside the last eleven bytes of a file and owns nothing of the next one
  (`StreamLayout.StreamTiles`; lists of reservations that meet them are in `ExposedLayouts`).
- `driver/common/hpcap_rx.c:690-695` repeats the release after the loop. After the last descriptor of a
  segment that does nothing exactly as long as the token has not come back to the thread
  (`RingSafety.LateReleaseIdleIff`), whatever other threads do in between. Once the token is back, it gives
  away a segment the thread has not read: the protocol's invariant is lost
  (`RingDepartures.LateReleaseBreaksInv`), and the card and the other threads go on as if the segment had been
  read (`RingLosses.LateReleaseIsPretence`). Some run then stops for good whenever several threads share the
  ring, whatever its size (`RingDepartures.StopsIff`), and some run hands out unread frames whenever they share
  more than eight descriptors (`RingLosses.LosesIff`). All runs are right exactly when one thread has a ring of
  more than eight descriptors to itself (`RingLosses.RightIff`). When the release itself hands out unread frames
  is `RingLimits.LateReleaseUnsafeIff` and `RingLimits.LateReleaseLosesAtOnce`.
- `driver/common/hpcap_rx.c:782-785` gives each call a share of the space free at that moment, but takes no
  account of the shares other calls still hold. Which limits may be taken is
  `CaptureLimits.BeginStaysInLapIff`; `CaptureLimits.RepeatedCallsOverwrite` and
  `CaptureLimits.StaleLimitOverwrites` are runs that overwrite unread bytes.
- `driver/common/hpcap_rx.c:213-224` rounds the tail down to eight, so a ring of eight descriptors or
  fewer can stop even while no call ends too late (`RingLimits.StallsIffTailCannotMove`).
- `driver/common/hpcap_rx.h:38` documents the result of `hpcap_rx` as bytes written; it also counts frame
  lengths (`RxLoop.ReturnedCount`).
- `driver/common/hpcap_listeners.c:175` returns -EUSERS on every path of `hpcap_add_listener`, and
  `:111` keeps a distance in an `int` (`ListenerRuns.PopFreesWhatAllHaveRead`).
- `driver/common/hpcap_listeners.c:148-157` says where a new client starts; after the last client has gone
  and before the reset it starts at a stale offset (`ListenerRuns.OpenStartsAt`), and a write offset near
  a file boundary is not the start of a record (`StreamLayout.NextRecordAt`).
- `srclib/libhpcap/libhpcap.c:201` says a timeout of 0 is none; it does not wait at all, and neither does a
  timeout whose count of sleeps is zero or negative as an `int` (`ClientRuns.TimeoutWaitsIff`).
- `srclib/libhpcap/libhpcap.c:417` puts the second block in the wrong place
  (`CircularBuffer.CopyRightIffNoWrap`).
- `srclib/libhpcap/libhpcap.c:468` tests `sec` twice (`PacketReader.PaddingTestsAgreeIff`), and `:482-487`
  ends the client whenever the available bytes do not reach the end of the next frame, as after padding
  with nothing behind it (`PacketReader.PacketIff`).
- `samples/hpcapdd/hpcapdd.c:140-157` announces a final block of any size but writes only a whole one
  (`DumpRuns.RemainderIsDropped`).
- `driver/hpcap_i40e-2.4.6/driver/i40e_dcb.c:224` wraps for an application TLV shorter than five octets
  (`LldpEncoding.AppTlvReach`), and `:473-502` reads on past a CEE TLV with one or two features
  (`LldpEncoding.WalkReads`, `LldpEncoding.PortDescriptionMistaken`).
- `driver/hpcap_i40e-2.4.6/driver/i40e_hmc.c:263` counts down an entry that is not there
  (`PageDescriptors.RemoveKeepsIffValid`).

## Model

| member | source | states |
|---|---|---|
| Cyclic.DistanceOfPositions | driver/common/driver_hpcap.h:21-24 | the `distance` macro on wrapped offsets measures the gap between two positions less than a lap apart |
| Geometry.ConsumerOfSlot | driver/common/hpcap_rx.c:133-145 | the owner computed from a descriptor index is the owner of every frame position that falls on it |
| Geometry.LastDescriptorMeaning | driver/common/hpcap_rx.c:118-131 | an index is a consumer's last descriptor exactly when the frame there ends that consumer's segment |
| Geometry.CalcNextIsNextOwned | driver/common/hpcap_rx.c:147-172 | the index arithmetic moves to the descriptor of the consumer's next frame, across segments and laps |
| Geometry.NextOwnedIsNext | driver/common/hpcap_rx.c:147-172 | no frame of the consumer lies between one it reads and the next: none is skipped |
| RingSafety.NicKeepsInv | driver/common/hpcap_rx.c:174-252 | a frame written by the NIC keeps the ring invariant |
| RingSafety.LockedOut | driver/common/hpcap_rx.c:334-343 | `can_lock_ring` holds exactly for a thread without the token that stands in the last nine descriptors of its segment |
| RingSafety.DoneMeansArrived | driver/common/hpcap_rx.c:346-425 | a set DD bit at a thread's cursor means its next frame has arrived and is that very frame |
| RingSafety.AdvanceKeepsInv | driver/common/hpcap_rx.c:174-252 | a release, idle or with the token, inside a segment or at its end, keeps the invariant and the tail monotone |
| RingSafety.ReadKeepsInv | driver/common/hpcap_rx.c:483-682 | one trip of the receive loop keeps the invariant and delivers exactly the thread's next frame |
| RingSafety.FinishKeepsInv | driver/common/hpcap_rx.c:690-695 | the release after the loop keeps the invariant whenever it does not come too late: also after a segment's last descriptor, with any steps of others in between, until the token is back |
| RingSafety.ReadAndFinishKeepsInv | driver/common/hpcap_rx.c:483-695 | the last trip of a call and its final release keep the invariant, also at the end of a segment |
| RingSafety.LateReleaseIdleIff | driver/common/hpcap_rx.c:684-695 | after a segment's last descriptor the second release only ends the call if and only if the thread is alone or the token has not come back to it, whoever ran in between |
| RingRuns.LaunchEstablishesInv | driver/common/hpcap_rx.c:935-972 | the launch leaves one token, with the owner of the first descriptor, and cursors from which the invariant holds |
| RingRuns.StepKeepsInv | driver/common/hpcap_rx.c:174-695 | every step of every thread and of the NIC keeps the invariant, except a departure that comes too late, which never does (`RingDepartures.LateReleaseBreaksInv`) |
| RingRuns.RunKeepsInv | driver/common/hpcap_rx.c:174-695 | so does every interleaving of any length in which no departure comes too late |
| RingRuns.RunsAreSafe | driver/common/hpcap_rx.c:174-252 | in every interleaving from a launch in which no departure comes too late: exactly one token; the tail never offers the NIC a descriptor whose frame is unread; each thread gets its own frames, each once and in order |
| RingRuns.OldestIsReadable | driver/common/hpcap_rx.c:334-343 | the owner of the oldest waiting frame holds the token or is being handed it, and can read: no lost-token deadlock |
| RingRuns.RunsNeverStall | driver/common/hpcap_rx.c:684-695 | a ring of more than eight descriptors never stops in any interleaving in which no departure comes too late |
| RingPace.TripReturns | driver/common/hpcap_rx.c:680-688 | a trip moves the tail exactly if the thread may release and the trip is the 32nd, 64th, ... of its call or reads the last frame of a segment; the tail then stands at the frame's descriptor rounded down to eight |
| RingPace.RunsReturnBlocks | driver/common/hpcap_rx.c:680-695 | in every state of every run in which no departure comes too late, a thread that may release has read fewer than 32 frames beyond what has been released |
| RingPace.TailKeepsUp | driver/common/hpcap_rx.c:213-224 | and the tail on the ring is fewer than 40 descriptors behind that thread's cursor |
| RingLimits.StallsIffTailCannotMove | driver/common/hpcap_rx.c:213-224 | without late departures, some run stops for good exactly when the ring has eight descriptors or fewer: because of the rounding of the tail |
| RingRuns.CallIsRun | driver/common/hpcap_rx.c:467-726 | a whole call is one of the interleavings |
| RingLimits.LateReleaseUnsafeIff | driver/common/hpcap_rx.c:684-695 | in any state of any run, a release that comes too late hands the NIC unread frames itself, in the state right after it, if and only if the NIC has passed the rounded end of the thread's segment, and that is not in the group of eight of its start |
| RingLimits.LateReleaseReached | driver/common/hpcap_rx.c:684-695 | a run from a fresh ring that gets there, for every geometry and thread where it can |
| RingLimits.LateReleaseLosesAtOnce | driver/common/hpcap_rx.c:684-695 | runs from a fresh ring can come to a release that hands out unread frames itself exactly when several threads share the ring and some segment straddles a group of eight |
| RingDepartures.LegalIffNeverLate | driver/common/hpcap_rx.c:467-726 | the runs of the guarantees are exactly those runs of the code in which no departure comes too late |
| RingDepartures.LateReleaseBreaksInv | driver/common/hpcap_rx.c:684-695 | in any state of the protocol the end of a call keeps the invariant, for some history of the ring, if and only if it does not come too late; if it does and a frame of the thread waits, that frame is the oldest in the ring and its owner may no longer release |
| RingDepartures.DeadForGood | driver/common/hpcap_rx.c:334-343 | once the NIC has no descriptor, no call is open and no thread can read, no step of any kind changes anything |
| RingDepartures.StopsIff | driver/common/hpcap_rx.c:684-695 | with every departure a step, some run from a fresh ring comes to that exactly when several threads share the ring, whatever its size, or it has eight descriptors or fewer |
| RingLosses.LateReleaseIsPretence | driver/common/hpcap_rx.c:684-695 | once the thread's segment has filled, a late departure leaves the NIC and every other thread the very ring they would see had the thread read and returned the segment |
| RingLosses.LosesIff | driver/common/hpcap_rx.c:684-695 | with every departure a step, some run from a fresh ring hands the NIC a descriptor whose frame is unread exactly when several threads share a ring of more than eight descriptors |
| RingLosses.RightIff | driver/common/hpcap_rx.c:174-695 | all runs of the code are safe and none stops for good exactly when one thread has a ring of more than eight descriptors to itself |
| RxRing.HwRing.LaunchPollThreads | driver/common/hpcap_rx.c:920-972 | the thread table and token flags after launch |
| RxRing.HwRing.AdvanceReadDescriptors | driver/common/hpcap_rx.c:174-252 | the in-place release is the step of the protocol |
| RxRing.HwRing.ReceiveOne | driver/common/hpcap_rx.c:346-425 | reads exactly when the protocol allows, and then does its step, whose release is `RingPace.TripReturns` |
| RxRing.HwRing.FinishCall | driver/common/hpcap_rx.c:684-695 | the end of a call in place is the protocol's |
| StreamLayout.HeadPaddingAsCoded | driver/common/hpcap_rx.c:623-636 | line 634 always announces too many bytes: by the offset of the reservation in its file |
| StreamLayout.ReserveTiles | driver/common/hpcap_rx.c:569-637 | one trip lays its records end to end from where the last ones stop, exactly where the code follows its comments |
| StreamLayout.StreamTiles | driver/common/hpcap_rx.c:569-637 | the records of any list of reservations lie end to end: always as documented; as coded if and only if no reservation starts in the first eleven bytes of a file (634) and none stops in the last eleven (623-624) |
| ExposedLayouts.BreaksAtSomeHead | driver/common/hpcap_rx.c:623-636 | a list of reservations whose layout line 634 breaks |
| ExposedLayouts.BreaksAtSomeTail | driver/common/hpcap_rx.c:599-624 | a list whose layout lines 623-624 break |
| ExposedLayouts.CodeMissesIff | driver/common/hpcap_rx.c:569-637 | for which sizes such lists exist: for all but records of a single byte with files of a multiple of thirteen bytes |
| FileLayout.EmittedOk | driver/common/hpcap_rx.c:599-637 | no record crosses a file boundary, padding touches one, a frame leaves room for a header after it |
| FileLayout.HeadersNeverCollide | driver/common/hpcap_rx.c:569-637 | records of any two trips are disjoint and start on reserved bytes |
| FileLayout.FilesAreWellFormed | driver/common/hpcap_rx.c:569-637 | each piece of the stream between multiples of the file size is records end to end, padding only first or last and always last, with at least one frame |
| FileLayout.PaddingRunsAreShort | srclib/libhpcap/libhpcap.c:448-480 | no stream holds three padding records in a row, so the reader's abort at four is out of reach |
| WriteCounter.CounterIsWrappedTotal | driver/common/hpcap_rx.c:581-583 | the 32-bit counter after any reservations is the wrapped byte count |
| WriteCounter.OffsetFromCounter | driver/common/hpcap_rx.c:464-465 | offsets taken from the sign-extended counter are those of the unbounded count, for sizes that divide 2^32 |
| WriteCounter.ReservationOffsets | driver/common/hpcap_rx.c:581-597 | start and end offsets of a reservation, in file and buffer, as the code computes them after the add |
| WriteCounter.OffsetsFollowIffDivides | driver/common/hpcap_rx.c:581-586 | the offsets follow the byte count for every run exactly when the size divides 2^32 |
| RawRecord.DecodeEncode | include/hpcap.h:216-221 | a header read back from its twelve bytes is the header written |
| RawRecord.HeaderOctets | include/hpcap.h:216-221 | the twelve bytes one by one: four fields, each with its lowest byte first |
| CircularBuffer.CopyToCircularBuffer | driver/common/hpcap_rx.c:312-332 | one or two block copies put every byte at its place round the buffer, and nothing else changes |
| CircularBuffer.CopyFromCircBuffer | srclib/libhpcap/libhpcap.c:409-427 | the destination after the copy, the misplaced second block included |
| CircularBuffer.CopyRightIffNoWrap | srclib/libhpcap/libhpcap.c:409-427 | the copy delivers the bytes asked for, for every content of the buffer, if and only if the range does not go round its end |
| ByteStream.WriteAllKeeps | driver/common/hpcap_rx.c:312-332 | writes less than a lap ahead leave unread bytes as they were |
| ByteStream.WritesExtendStream | driver/common/hpcap_rx.c:312-332 | writes that follow one another past the end of the stream stand in the grown stream, and the unread part stays readable |
| ByteStream.TripPlaces | driver/common/hpcap_rx.c:569-658 | the headers and frames of a trip follow one another beyond the part of the stream that is final |
| ByteStream.TripExtendsStream | driver/common/hpcap_rx.c:569-658 | after a trip the buffer still shows everything unread and each header and frame written stands in the stream for good |
| RxWriter.CapturedFits | driver/common/hpcap_rx.c:566-567 | what is kept of a frame are its time stamp, its full length and its beginning, and it can be laid out exactly when it is no larger than the largest record |
| RxWriter.TripAtEnd | driver/common/hpcap_rx.c:599-621 | what the end-of-file branch writes is what the layout lays |
| RxWriter.TripInHead | driver/common/hpcap_rx.c:623-636 | the same for the start-of-file branch |
| RxWriter.TripForFrame | driver/common/hpcap_rx.c:642-658 | the same for the frame itself: header, then payload |
| RxWriter.CaptureBuffer.WritePadding | driver/common/hpcap_rx.c:427-461 | the padding header in the buffer, or nothing for less than a header |
| RxWriter.CaptureBuffer.WriteFrame | driver/common/hpcap_rx.c:642-658 | header and captured bytes in the buffer |
| RxWriter.CaptureBuffer.Reserve32 | driver/common/hpcap_rx.c:581-597 | the atomic add gives the offsets of the unbounded position |
| RxWriter.CaptureBuffer.ReserveAndWrite | driver/common/hpcap_rx.c:569-658 | one trip of the loop leaves the buffer of the layout |
| RxWriter.CaptureBuffer.Store | driver/common/hpcap_rx.c:569-637 | the do-while loop: the frame is stored or the limit stops it, and the counter keeps a header's room |
| FrameLog.SoundPrefix | driver/common/hpcap_rx.c:569-637 | a layout that holds for a run of trips holds for each of its beginnings |
| FrameLog.EmptyRecorded | driver/common/hpcap_rx.c:996-1000 | before the first reservation any buffer is a recorded one |
| FrameLog.TripRecorded | driver/common/hpcap_rx.c:569-658 | a trip keeps the whole record: buffer, stream, log and reader |
| FrameLog.RunRecorded | driver/common/hpcap_rx.c:569-658 | over any run of trips and reads, everything unread is in the buffer and everything logged stands in a stream that only grows |
| FrameLog.LogIsEmitted | driver/common/hpcap_rx.c:569-658 | the log names exactly the records of the layout |
| FrameLog.FramesAreStored | driver/common/hpcap_rx.c:569-658 | without its padding the log is the list of stored frames, each once and in order |
| RxLoop.StoreIsPlan | driver/common/hpcap_rx.c:569-637 | the trips, end and buffer of the do-while loop |
| RxLoop.CallStaysInLimit | driver/common/hpcap_rx.c:483-576 | a call reserves nothing, or leaves at least a header's room of its limit |
| RxLoop.ReturnedCount | driver/common/hpcap_rx.h:30-39 | the returned count equals the bytes written only for a call that takes no frame; otherwise it also counts the frames' lengths |
| ReceiveCall.HalvesMeet | driver/common/hpcap_rx.c:483-695 | one call, with the byte limit that ends it: the frames the ring gives away are, in order, exactly those the buffer's loop consumes; ring, buffer and count are those of the two models |
| ReceiveCall.HpcapRx | driver/common/hpcap_rx.c:467-726 | the loop in place, over the arrays of the ring and of the buffer, with each arrival cut to the capture length |
| RxCalls.TripsRecorded | driver/common/hpcap_rx.c:569-658 | any trips within a lap of the reader keep the record of the stream |
| RxCalls.TakenArePrefix | driver/common/hpcap_rx.c:483-576 | a call stores the first of the frames it keeps, and all of them unless the limit stops it |
| RxCalls.CallStored | driver/common/hpcap_rx.c:483-682 | the frames stored grow by exactly those |
| RxCalls.CallRecorded | driver/common/hpcap_rx.c:467-726 | a call inside its limit loses no unread byte, and the log grows by the frames it took, each once |
| WriteOrder.AnyOrder | driver/common/hpcap_rx.c:312-332 | block writes that share no byte, inside one lap, leave the same buffer in any order and in any pieces |
| WriteOrder.TripsCommute | driver/common/hpcap_rx.c:569-658 | however the copies of several threads interleave, once finished the buffer is that of the trips made one after the other |
| ListenerTable.BufferListeners.constructor | driver/common/hpcap_listeners.c:34-50 | an empty table with offsets zero |
| ListenerTable.BufferListeners.PushListener | driver/common/hpcap_listeners.c:52-74 | the new write offset, the clamp included |
| ListenerTable.BufferListeners.PushAllListeners | driver/common/hpcap_listeners.c:76-91 | the global and every registered listener advance, free slots do not |
| ListenerTable.BufferListeners.PopGlobalListener | driver/common/hpcap_listeners.c:105-133 | the scan for the smallest distance, with its `int`, and the global read offset |
| ListenerTable.BufferListeners.AddListener | driver/common/hpcap_listeners.c:135-176 | first slot with the id or free; offsets of the newcomer; the return value is -EUSERS on every path |
| ListenerTable.BufferListeners.GetListener | driver/common/hpcap_listeners.c:178-193 | the first slot with the id |
| ListenerTable.BufferListeners.DelListener | driver/common/hpcap_listeners.c:206-225 | the slot is emptied and the count drops, or -EIDRM |
| ListenerTable.BufferListeners.AcknowledgeBytes | driver/common/hpcap_cdev.c:301-304 | the bytes come off the client's listener and the table remembers that someone has read |
| ListenerTable.BufferListeners.ResetGlobalOffsets | driver/common/hpcap_listeners.c:301-306 | offsets back to zero, and nobody has read |
| ListenerRuns.PushStands | driver/common/hpcap_listeners.c:52-74 | a push that fits takes no error branch and moves the write offset by its bytes |
| ListenerRuns.PushClamps | driver/common/hpcap_listeners.c:66-73 | a push that does not fit takes the error branch, which leaves the write offset two bytes behind the read offset |
| ListenerRuns.PopStands | driver/common/hpcap_listeners.c:93-103 | a pop moves the read offset by its bytes, up to the write offset |
| ListenerRuns.MinDistanceMeasured | driver/common/hpcap_listeners.c:113-120 | the scan finds how far the slowest reader is ahead of the global read offset, if that fits an `int` |
| ListenerRuns.StepStands | driver/common/hpcap_listeners.c:52-306 | whatever comes next, global read <= reader <= write goes on, all listeners share the write offset, `already_popped` says whether a client has acknowledged bytes since the last reset, and no error branch changes a result |
| ListenerRuns.RunStands | driver/common/hpcap_listeners.c:52-306 | the same over every interleaving of open, close, acknowledge, push, pop and idle reset |
| ListenerRuns.PopFreesWhatAllHaveRead | driver/common/hpcap_listeners.c:105-133 | the global read offset comes to stand at a listener with the most unread bytes; nothing is freed if that lead is 2^31 or more |
| ListenerRuns.OpenStartsAt | driver/common/hpcap_listeners.c:148-157 | a new client starts at 0 until the first acknowledgement since the reset, whoever has come and gone; after that at the last byte pushed, but at the stale global offset of an emptied table |
| ListenerRuns.OpenTakesFirstFree | driver/common/hpcap_listeners.c:135-172 | an open takes the first free slot, counts one client more and leaves all else alone |
| ListenerRuns.CloseUnregisters | driver/common/hpcap_listeners.c:206-225 | a close empties the client's slot and leaves all else alone; of an unknown client it changes nothing |
| ListenerRuns.CloseUndoesOpen | driver/common/hpcap_listeners.c:135-225 | opening and closing again gives the table back |
| PollThread.BeginIteration | driver/common/hpcap_rx.c:761-783 | the idle reset and the limit of a call are the steps of the system of all threads |
| PollThread.UpdatePointers | driver/common/hpcap_rx.c:823-847 | so are the pop and the publication of the first thread |
| CaptureRuns.StartsInStep | driver/common/hpcap_rx.c:996-1000 | it holds of an empty table and a counter at zero |
| CaptureRuns.StepSafe | driver/common/hpcap_rx.c:730-848 | taking a limit, each reservation under it, pop, publication, reset and clients keep all that calls in progress can still reserve clear of the slowest reader, if each limit taken is affordable |
| CaptureRuns.AffordableRunsAreSafe | driver/common/hpcap_rx.c:730-848 | over any run with affordable limits, calls open across publications included: no reserved byte shares its place with a byte some listener has not read, and the next push is of exactly the bytes reserved |
| CaptureRuns.ReservedInLap | driver/common/hpcap_rx.c:782-785 | when each consumer calls at most once between publications and no call is open across one, everything reserved and still reservable stays inside the lap |
| CaptureRuns.LimitIsFree | driver/common/hpcap_rx.c:782-785 | then the limit of a consumer that has not called is free space, beside all that the other calls can still reserve |
| CaptureRuns.NewBytesExact | driver/common/hpcap_rx.c:830-838 | the count pushed is exactly the bytes reserved since the last push |
| CaptureRuns.StepInStep | driver/common/hpcap_rx.c:730-848 | that discipline is kept by every step, and makes every limit affordable |
| CaptureRuns.RunInStep | driver/common/hpcap_rx.c:730-848 | so over any run that keeps it |
| CaptureRuns.NothingUnreadIsOverwritten | driver/common/hpcap_rx.c:730-848 | in any run in which each consumer calls at most once between two publications and no call is open across one, no reserved byte shares its place with a byte some listener has not read |
| CaptureLimits.BeginStaysInLapIff | driver/common/hpcap_rx.c:782-785 | exactly which limit may be taken: all calls in progress stay in the lap, however they go on, if and only if the outstanding limits, less a header each, fit the free space |
| CaptureLimits.StaysInLapIff | driver/common/hpcap_rx.c:569-599 | the calls in progress are harmless exactly when what they can still reserve fits |
| CaptureLimits.PushIsExactIff | driver/common/hpcap_rx.c:830-838 | the publication pushes what was reserved, unclamped, exactly when that is inside the lap |
| CaptureLimits.RepeatedCallsOverwrite | driver/common/hpcap_rx.c:782-785 | a run from the start in which no call is open across a publication, but one consumer calls three times between two: an unread byte is overwritten though every call keeps to its limit |
| CaptureLimits.StaleLimitOverwrites | driver/common/hpcap_rx.c:782-785 | a run from the start in which each consumer calls once between two publications, but one call is open across one: likewise |
| CallSteps.CallIsReservations | driver/common/hpcap_rx.c:483-658 | the trips of a call are steps it may take under its limit, and reserve what the call reserves |
| CaptureTape.StepTogether | driver/common/hpcap_rx.c:569-848 | offsets, positions and the contents of the buffer stay in agreement over every step of the whole system, the idle reset with a new stream included |
| CaptureTape.ListenersFindTheStream | driver/common/hpcap_rx.c:730-848 | over any run of the whole system every listener finds in the buffer all published and final bytes it has not read, which is what the capture program asks of it |
| CaptureTape.StartsTogether | driver/common/hpcap_rx.c:920-972 | the system starts in agreement, with an empty stream and any contents of the buffer |
| StreamLayout.HeaderBelowReservation | driver/common/hpcap_rx.c:623-636 | a trip writes before its own reservation exactly when that starts in the first eleven bytes of a file |
| StreamLayout.NextRecordAt | driver/common/hpcap_listeners.c:154-157 | the write offset given to a new client is the start of a record exactly away from the first and last eleven bytes of a file |
| ClientHandle.WaitListenerUser | driver/common/hpcap_listeners.c:245-267 | the available bytes when the wait ends, whatever the poll thread pushed meanwhile |
| ClientHandle.IoctlLstop | driver/common/hpcap_cdev.c:291-315 | acknowledge, wait, reply |
| ClientHandle.HpcapHandle.AdvanceRdoffBy | srclib/libhpcap/libhpcap.c:168-172 | both offsets move by the bytes |
| ClientHandle.HpcapHandle.AdvanceRdoffTo | srclib/libhpcap/libhpcap.c:180-192 | the forward move to an offset |
| ClientHandle.HpcapHandle.DoListenerOp | srclib/libhpcap/libhpcap.c:204-253 | handle and driver after a request, the error returns and the abort included |
| ClientRuns.AgreementMeans | srclib/libhpcap/libhpcap.c:204-253 | available bytes imply read offset = driver's + acks modulo the buffer, and acks <= available <= used |
| ClientRuns.AdvanceToTracks | srclib/libhpcap/libhpcap.c:180-192 | moving to an offset moves by the distance and keeps the offset in the file in step |
| ClientRuns.FileOffsetRightIff | srclib/libhpcap/libhpcap.c:168-172 | the tracked offset in the file is right if and only if the bytes skipped before the first wait are whole files |
| ClientRuns.TimeoutWaitsIff | driver/common/hpcap_listeners.c:245-267 | with bytes missing, a request waits if and only if its timeout in units of 200 ns, modulo 2^32, is positive and below 2^31; else it returns at once; a wait that ends short has slept exactly that often |
| ClientRuns.TimeoutsThatDoNotWait | driver/common/hpcap_listeners.c:245-267 | zero, documented as no timeout, and 429.4967296 s, whose count is negative, do not wait |
| ClientRuns.AckIsWhole | driver/common/hpcap_cdev.c:301-304 | an acknowledgement is never clamped by the driver |
| ClientRuns.DriverAnswers | driver/common/hpcap_cdev.c:291-315 | the driver's reply is its read position and everything pushed |
| ClientRuns.RequestEnds | srclib/libhpcap/libhpcap.c:204-253 | a request of an unknown client is an error that changes nothing on either side; a handle that acknowledges more than it has aborts; otherwise the counts of the handle after it |
| ClientRuns.SettleAgrees | srclib/libhpcap/libhpcap.c:228-250 | the library's half keeps the agreement and never aborts |
| ClientRuns.OpAgrees | srclib/libhpcap/libhpcap.c:204-253 | every request keeps the agreement; once started the read offset moves by reading only |
| ClientRuns.WaitUnacknowledged | srclib/libhpcap/libhpcap.c:261-264 | waiting with unacknowledged bytes breaks the agreement if and only if there are such bytes |
| ClientRuns.RunAgrees | srclib/libhpcap/libhpcap.c:204-253 | the agreement over any run of reads, acknowledging waits and timeouts, with the driver and other clients going on |
| ClientRuns.OpenedAgrees | srclib/libhpcap/libhpcap.c:22-49 | it holds when the handle is opened |
| ReaderModel.FetchShows | srclib/libhpcap/libhpcap.c:409-427 | the bytes fetched at a position are the stream's |
| ReaderModel.ReadsEntry | srclib/libhpcap/libhpcap.c:659-691 | a read at the start of a logged record returns its header and bytes (of padding, the header alone), moves to its end and counts its size |
| ReaderModel.ReadsNothingIff | srclib/libhpcap/libhpcap.c:659-668 | nothing is returned, and nothing changes, exactly when fewer than twelve bytes are available and not yet acknowledged |
| ReaderModel.ReadBack | srclib/libhpcap/libhpcap.c:659-691 | the round trip: reading from any record on returns exactly the frames written, in order, and acknowledges up to the end of the last record |
| ReaderModel.ReadsAllReserved | srclib/libhpcap/libhpcap.c:659-691 | the acknowledged bytes are the reserved ones if and only if the reservations stop away from a file boundary; in the last eleven bytes of a file the count of read bytes passes the available ones |
| ReaderModel.WholeFilesReadable | srclib/libhpcap/libhpcap.c:659-691 | in a buffer that holds whole files no record goes round the end, so the misplaced copy does no harm |
| Reader.HpcapReadNext | srclib/libhpcap/libhpcap.c:659-691 | the function on the handle and the mapped buffer |
| PacketReader.PaddingTestsAgreeIff | srclib/libhpcap/libhpcap.c:468 | the test that names `sec` twice differs from the documented one exactly on headers with zero seconds and nonzero nanoseconds |
| PacketReader.LogTestsAgree | srclib/libhpcap/libhpcap.c:468 | on every record the driver lays the two tests agree |
| PacketReader.SkipsTo | srclib/libhpcap/libhpcap.c:448-480 | the loop over padding arrives at the next frame with the padding counted |
| PacketReader.ReturnsNextFrame | srclib/libhpcap/libhpcap.c:429-516 | with the next frame available its header and bytes are returned and exactly skipped padding and frame acknowledged; the abort on many paddings is unreachable |
| PacketReader.RefusesIff | srclib/libhpcap/libhpcap.c:437-446 | the two refusals before the loop, exactly by what is available, with the handle unchanged |
| PacketReader.FourPaddingsGiveUp | srclib/libhpcap/libhpcap.c:448-480 | four records of padding in a row end the client, whatever follows them |
| PacketReader.PacketIff | srclib/libhpcap/libhpcap.c:448-515 | at any logged record, a packet is returned if and only if the available bytes reach the end of the next frame of the log; otherwise the client is ended |
| PacketReader.PublishedPaddingEndsClient | srclib/libhpcap/libhpcap.c:482-487 | a publication right after a trip that wrote padding ends the client that has read everything before |
| PacketReader.SkipPaddings | srclib/libhpcap/libhpcap.c:448-480 | the loop on the handle and the mapped buffer |
| PacketReader.HpcapReadPacket | srclib/libhpcap/libhpcap.c:429-516 | the function on the handle and the mapped buffer |
| CheckRaw.ReadRaw | samples/checkraw/checkraw.c:93-221 | frames and errors counted by the loop, the limit on errors included; what they count is `CheckRaw.CountsRecords` |
| CheckRaw.CountsRecords | samples/checkraw/checkraw.c:93-221 | the frames counted are the records up to the first after which the check stops, or all; the errors are those of these records and of what is left behind them |
| CheckRaw.FaultsCounted | samples/checkraw/checkraw.c:145-200 | every fault of a header counts as exactly one error |
| CheckRaw.CleanIff | samples/checkraw/checkraw.c:93-221 | no error is reported exactly for files of sane records end to end, padding only first or last |
| CheckRaw.CapturedFilesPass | samples/checkraw/checkraw.c:93-221 | every complete file of the stream passes the check when its frames are sane |
| CaptureFiles.HpcapWriteBlock | srclib/libhpcap/libhpcap.c:519-566 | a block read round the buffer's end, or nothing |
| CaptureFiles.OneTurn | samples/hpcapdd/hpcapdd.c:119-138 | one acknowledging wait and at most one block |
| CaptureFiles.CloseFile | samples/hpcapdd/hpcapdd.c:159-169 | the acknowledgement at the end of a file |
| CaptureFiles.CaptureLoop | samples/hpcapdd/hpcapdd.c:94-168 | the nested loops cut the bytes into files as the pass-by-pass description says |
| CaptureFiles.StopCapture | samples/hpcapdd/hpcapdd.c:140-159 | the stop branch: what is there, at most one block of it, and the acknowledgement |
| CaptureFiles.CaptureUntilStopped | samples/hpcapdd/hpcapdd.c:94-168 | the loops and then the stop branch |
| DumpRuns.BlockIsStable | samples/hpcapdd/hpcapdd.c:119-138 | an aligned block that has been pushed whole is never one whose file still owes its first header |
| DumpRuns.WaitKeepsPlace | samples/hpcapdd/hpcapdd.c:119-122 | acknowledging and waiting moves neither the reading position nor what is saved |
| DumpRuns.TurnSaves | samples/hpcapdd/hpcapdd.c:119-138 | a turn appends the next block of the stream or nothing |
| DumpRuns.CloseSaves | samples/hpcapdd/hpcapdd.c:159-169 | closing a file changes no saved byte |
| DumpRuns.RunSaves | samples/hpcapdd/hpcapdd.c:94-168 | the files one after the other are the stream from the listener's start, without gap or repeat, and each closed file is exactly full |
| DumpRuns.OpenedSaved | samples/hpcapdd/hpcapdd.c:69-94 | an opened handle has saved nothing and stands at the listener's start |
| DumpRuns.TapeIsReady | samples/hpcapdd/hpcapdd.c:119-138 | the buffer the driver's trips leave is the one the capture loop needs, whatever of the reserved bytes has been published |
| DumpRuns.ClosedFilesPass | samples/hpcapdd/hpcapdd.c:94-168 | for a start at a file boundary each closed file passes the repository's check |
| DumpRuns.RemainderIsDropped | samples/hpcapdd/hpcapdd.c:140-159 | at a stop the files are the stream up to one block more, if a whole one is there and the file has room; every published byte is saved exactly if none was left, or just one block with room |
| DumpRuns.StoppedRun | samples/hpcapdd/hpcapdd.c:94-168 | the same for any run that is then stopped |
| CaptureSystem.SlowestInStream | driver/common/hpcap_rx.c:730-790 | while the capture program is attached, no pop gives up bytes whose file header is still owed |
| CaptureSystem.DriveKeeps | driver/common/hpcap_rx.c:569-848 | any affordable deed of the driver's threads or of another client, at any point of the program, keeps program, driver and buffer in agreement |
| CaptureSystem.ReturnKeeps | samples/hpcapdd/hpcapdd.c:119-122 | so does the answer of the wait, whenever and for whatever reason the wait ends |
| CaptureSystem.CopyKeeps | samples/hpcapdd/hpcapdd.c:123-138 | the block copied is the next of the stream, whatever has been written between the answer and the copy |
| CaptureSystem.FinishKeeps | samples/hpcapdd/hpcapdd.c:159-169 | the end of a full file keeps the agreement and adds exactly that file |
| CaptureSystem.JoinedIsGood | samples/hpcapdd/hpcapdd.c:69-94 | the program may join at any moment at which its listener starts at a multiple of its block size |
| CaptureSystem.RunKeeps | samples/hpcapdd/hpcapdd.c:94-168 | the same over every run in which the program's steps and the driver's deeds interleave |
| CaptureSystem.FilesOfEveryRunPass | samples/hpcapdd/hpcapdd.c:94-168 | from the driver's start, over any deeds, idle resets included, and any interleaving after the program has joined at a file boundary: every file it closes passes the repository's check, and its files are the stream the driver laid out, without gap or repeat |
| CaptureSystem.PollIsDeeds | driver/common/hpcap_rx.c:773-848 | one iteration of the poll thread, as the driver's wait sees it, is a pop and a publication of the system |
| CaptureSystem.TurnIsSteps | samples/hpcapdd/hpcapdd.c:119-138 | request, wait, answer and copy together are the turn of the program's loop |
| DuplicateTable.ScanFinds | driver/common/hpcap_dups.c:20-37 | the scan reports whether any entry matches and picks the highest unused or else the oldest entry |
| DuplicateTable.MatchIsRepeat | driver/common/hpcap_dups.c:15-30 | an entry matches exactly if the frame it holds has the same length and the same first 70 bytes, as far as there are that many, and came at most two seconds before |
| DuplicateTable.CheckAppends | driver/common/hpcap_dups.c:9-45 | a bucket is a queue of the last L frames: a check appends the frame and drops the oldest |
| DuplicateTable.CheckAnswers | driver/common/hpcap_dups.c:9-45 | the answer is 1 if and only if one of those frames has the same length and the same first 70 bytes and is at most two seconds old |
| DuplicateTable.Table.ScanLevels | driver/common/hpcap_dups.c:20-37 | the loop over the levels |
| DuplicateTable.Table.CheckDuplicate | driver/common/hpcap_dups.c:9-45 | the same for the table and its history, all buckets together |
| AdminSend.UnusedCounts | driver/hpcap_i40e-2.4.6/driver/i40e_type.h:61-63 | the unused count is the slots less one less the commands not reclaimed |
| AdminSend.DetailsInRing | driver/hpcap_i40e-2.4.6/driver/i40e_adminq.c:826-850 | writing the next command's details before any check overwrites no posted command |
| AdminSend.CallbacksStay | driver/hpcap_i40e-2.4.6/driver/i40e_adminq.c:738-748 | callbacks already made are not affected by later posts or answers |
| AdminSend.CallbackOfEach | driver/hpcap_i40e-2.4.6/driver/i40e_adminq.c:738-745 | each reclaimed command that wants a callback has had one, with its own write-back, in posting order, and no other has |
| AdminSend.FlagsByBit | driver/hpcap_i40e-2.4.6/driver/i40e_adminq.c:850-852 | the flags bit by bit: enabled ones set, else disabled ones cleared, the rest the caller's |
| AdminSend.OnRingMeans | driver/hpcap_i40e-2.4.6/driver/i40e_adminq.c:886-908 | a direct command goes to the ring as it is, an indirect one with its length and the address of its slot's buffer |
| AdminSend.StatusByOctet | driver/hpcap_i40e-2.4.6/driver/i40e_adminq.c:949-968 | the lower octet of the return value alone decides the status |
| AdminSend.AdminSendQueue.constructor | driver/hpcap_i40e-2.4.6/driver/i40e_adminq.c:302-324 | the empty ring |
| AdminSend.AdminSendQueue.Firmware | driver/hpcap_i40e-2.4.6/driver/i40e_adminq.c:726-763 | any progress of the firmware up to the tail keeps clean <= head <= tail <= use and everything posted, and finishes exactly as many commands as it answers |
| AdminSend.AdminSendQueue.CleanAsq | driver/hpcap_i40e-2.4.6/driver/i40e_adminq.c:726-763 | terminates, reclaims exactly the finished commands, each callback once in posting order, and returns the free count |
| AdminSend.AdminSendQueue.Post | driver/hpcap_i40e-2.4.6/driver/i40e_adminq.c:886-918 | the command, with its own buffer, stands at its slot and the tail covers it unless postponed |
| AdminSend.AdminSendQueue.AsqDone | driver/hpcap_i40e-2.4.6/driver/i40e_adminq.c:772-779 | head = next_to_use means every posted command is finished |
| AdminSend.AdminSendQueue.WaitForWriteback | driver/hpcap_i40e-2.4.6/driver/i40e_adminq.c:923-939 | when the wait ends, the firmware has had every batch of answers that fits the timeout, one each 50 microseconds and at least one, or has finished every command it was told of |
| AdminSend.AdminSendQueue.SendCommand | driver/hpcap_i40e-2.4.6/driver/i40e_adminq.c:792-997 | for any firmware: the error returns post nothing; an accepted command is posted once; every command answered before it has had its callback; a completed one returns the answer written to its own slot and the status that answer says; a synchronous one whose wait brings an answer to every unanswered command never returns a timeout |
| AdminReceive.TakeInQueue | driver/hpcap_i40e-2.4.6/driver/i40e_adminq.c:1056-1112 | reposting the slot restores its own address and length and leaves the other events alone |
| AdminReceive.OfferMeans | driver/hpcap_i40e-2.4.6/driver/i40e_adminq.c:1091-1105 | a slot is offered with its own address and size and exactly the flags of a buffer |
| AdminReceive.DeliveredMeans | driver/hpcap_i40e-2.4.6/driver/i40e_adminq.c:1061-1085 | the message as far as the reader has room, and an error exactly if the firmware has set the error bit |
| AdminReceive.AdminReceiveQueue.constructor | driver/hpcap_i40e-2.4.6/driver/i40e_adminq.c:332-357 | all buffers offered, tail one slot behind |
| AdminReceive.AdminReceiveQueue.Firmware | driver/hpcap_i40e-2.4.6/driver/i40e_adminq.c:1044-1046 | the firmware fills the queue up to the tail, no further |
| AdminReceive.AdminReceiveQueue.CleanArqElement | driver/hpcap_i40e-2.4.6/driver/i40e_adminq.c:1026-1129 | the next event in the firmware's order, once, cut to the reader's room; `pending` is the exact number left; the tail stays one slot behind |
| LldpParser.DcbxConfig.ParseIeeeEtscfg | driver/hpcap_i40e-2.4.6/driver/i40e_dcb.c:56-118 | the ETS tables from their octets |
| LldpParser.DcbxConfig.ParseIeeeEtsrec | driver/hpcap_i40e-2.4.6/driver/i40e_dcb.c:127-173 | the recommended tables; the head of the record is left alone |
| LldpParser.DcbxConfig.ParseIeeePfccfg | driver/hpcap_i40e-2.4.6/driver/i40e_dcb.c:182-200 | the PFC settings |
| LldpParser.DcbxConfig.ParseIeeeApp | driver/hpcap_i40e-2.4.6/driver/i40e_dcb.c:209-255 | the loop writes as many entries as its 16-bit length gives, up to the cap |
| LldpParser.DcbxConfig.ParseIeee | driver/hpcap_i40e-2.4.6/driver/i40e_dcb.c:265-295 | dispatch by sub-type |
| LldpParser.DcbxConfig.ParseCeePgcfg | driver/hpcap_i40e-2.4.6/driver/i40e_dcb.c:304-349 | the priority groups |
| LldpParser.DcbxConfig.ParseCeePfccfg | driver/hpcap_i40e-2.4.6/driver/i40e_dcb.c:358-373 | the CEE PFC settings |
| LldpParser.DcbxConfig.ParseCeeApp | driver/hpcap_i40e-2.4.6/driver/i40e_dcb.c:382-434 | the CEE applications in IEEE terms |
| LldpParser.DcbxConfig.ParseCee | driver/hpcap_i40e-2.4.6/driver/i40e_dcb.c:444-503 | up to three features, wherever the TLV ends |
| LldpParser.DcbxConfig.LldpToDcbConfig | driver/hpcap_i40e-2.4.6/driver/i40e_dcb.c:544-589 | the walk terminates on any memory and is the walk of the model |
| LldpEncoding.EtsRead | driver/hpcap_i40e-2.4.6/driver/i40e_dcb.c:56-118 | an encoded ETS TLV is read as its tables |
| LldpEncoding.PfcRead | driver/hpcap_i40e-2.4.6/driver/i40e_dcb.c:182-200 | an encoded PFC TLV is read as its settings |
| LldpEncoding.AppCountExact | driver/hpcap_i40e-2.4.6/driver/i40e_dcb.c:218-254 | the count of applications is exact for every conforming length, up to 32 |
| LldpEncoding.AppTlvReach | driver/hpcap_i40e-2.4.6/driver/i40e_dcb.c:218-254 | for a TLV of any length, how many entries are read, and that the last reaches past the TLV exactly for lengths below five (a full table) and of two octets more than whole entries (one octet) |
| LldpEncoding.AppTableRead | driver/hpcap_i40e-2.4.6/driver/i40e_dcb.c:209-255 | an encoded application table comes back, as far as there is room |
| LldpEncoding.FeatureRead | driver/hpcap_i40e-2.4.6/driver/i40e_dcb.c:304-434 | each encoded CEE feature is read as what it says |
| LldpEncoding.PriorityOfMap | driver/hpcap_i40e-2.4.6/driver/i40e_dcb.c:406-411 | the priority of an entry is the number of the lowest bit set: the map is an odd multiple of that power of two and of no other; 8 for the empty map |
| LldpEncoding.PriorityByOctet | driver/hpcap_i40e-2.4.6/driver/i40e_dcb.c:406-411 | the same, priority by priority, in numbers |
| LldpEncoding.FeaturesRead | driver/hpcap_i40e-2.4.6/driver/i40e_dcb.c:444-503 | features are applied in order and reading goes on behind them |
| LldpEncoding.SettingRead | driver/hpcap_i40e-2.4.6/driver/i40e_dcb.c:544-589 | each TLV of a conforming list is read as what it says, and after a CEE TLV of one or two features the loop over features goes on behind it |
| LldpEncoding.WalkReads | driver/hpcap_i40e-2.4.6/driver/i40e_dcb.c:473-589 | what the walk applies for any list of conforming TLVs closed by an End TLV: each TLV as what it says, and TLVs of type 2, 3 or 4 directly behind a CEE TLV of one or two features once more as features |
| LldpEncoding.WalkStops | driver/hpcap_i40e-2.4.6/driver/i40e_dcb.c:561-586 | the walk ends at an End TLV and at any TLV that reaches beyond the 1500 octets, which it does not apply |
| LldpEncoding.WalkIsFold | driver/hpcap_i40e-2.4.6/driver/i40e_dcb.c:544-589 | the walk is the fold over the list, for every list where no such TLV stands there |
| LldpEncoding.PortDescriptionMistaken | driver/hpcap_i40e-2.4.6/driver/i40e_dcb.c:473-502 | a conforming list where it does: a Port Description is taken for a table of applications, and the walk is not the fold |
| LldpEncoding.TablesComeBack | driver/hpcap_i40e-2.4.6/driver/i40e_dcb.c:544-589 | ETS, PFC and application tables encoded and parsed come back |
| LldpEncoding.EtsOctets | driver/hpcap_i40e-2.4.6/driver/i40e_dcb.c:56-173 | the octets of both ETS TLVs of the encoding the parser is proved against |
| LldpEncoding.PfcOctets | driver/hpcap_i40e-2.4.6/driver/i40e_dcb.c:182-200 | the octets of the PFC TLV |
| LldpEncoding.AppOctets | driver/hpcap_i40e-2.4.6/driver/i40e_dcb.c:209-255 | the octets of an application TLV |
| LldpEncoding.PgOctets | driver/hpcap_i40e-2.4.6/driver/i40e_dcb.c:304-349 | the octets of the priority group feature |
| LldpEncoding.PfcFeatureOctets | driver/hpcap_i40e-2.4.6/driver/i40e_dcb.c:358-373 | the octets of the CEE PFC feature |
| LldpEncoding.CeeAppOctets | driver/hpcap_i40e-2.4.6/driver/i40e_dcb.c:382-434 | the octets of a CEE application |
| LldpEncoding.CeeOctets | driver/hpcap_i40e-2.4.6/driver/i40e_dcb.c:444-503 | the octets of a CEE TLV around its features |
| PageDescriptors.AddKeeps | driver/hpcap_i40e-2.4.6/driver/i40e_hmc.c:144-213 | an add keeps count = valid entries and valid = counted = word present, and takes a page exactly for a new entry without the caller's; a new entry has the page it was given, an old one its own, and no other entry changes |
| PageDescriptors.RemoveKeeps | driver/hpcap_i40e-2.4.6/driver/i40e_hmc.c:231-288 | a matching removal keeps them and gives the page back with the last reference, with the address kept and no other entry changed |
| PageDescriptors.RemoveKeepsIffValid | driver/hpcap_i40e-2.4.6/driver/i40e_hmc.c:253-258 | a removal keeps the accounts if and only if its entry is valid; otherwise the count wraps |
| PageDescriptors.AddThenRemove | driver/hpcap_i40e-2.4.6/driver/i40e_hmc.c:144-288 | a removal undoes an add |
| PageDescriptors.CallsBalance | driver/hpcap_i40e-2.4.6/driver/i40e_hmc.c:144-288 | over any calls whose removals answer adds: each reference count is the number of references the callers hold, the table counts the entries that have one, and the pages taken from the allocator are those given back and those the table has |
| PageDescriptors.GoneIffNoReferences | driver/hpcap_i40e-2.4.6/driver/i40e_hmc.c:253-288 | the array of entries is freed exactly by the removal of the last reference of all, and then the allocator has every page back |
| PageDescriptors.PdTable.Add | driver/hpcap_i40e-2.4.6/driver/i40e_hmc.c:170-211 | the table after an add; pages allocated less freed are its valid entries' own |
| PageDescriptors.PdTable.Remove | driver/hpcap_i40e-2.4.6/driver/i40e_hmc.c:253-285 | the table after a removal of any entry, the page given back, and the array of entries freed exactly with the last entry, when no allocated page is left |
| PageDescriptors.HmcInfo.AddPdTableEntry | driver/hpcap_i40e-2.4.6/driver/i40e_hmc.c:144-213 | the index split, the silent pass over other segment types and the error; other tables unchanged |
| PageDescriptors.HmcInfo.RemovePdBp | driver/hpcap_i40e-2.4.6/driver/i40e_hmc.c:231-288 | the same over all tables, where another type is an error and an entry that was never added is not |
| PageDescriptors.HmcInfo.PrepRemovePdPage | driver/hpcap_i40e-2.4.6/driver/i40e_hmc.c:346-365 | a table goes only with no valid entry, and then no page of its own is outstanding |

## Left out

- RingRuns.RunsAreSafe: the runs leave out the departures that come too late, and so do those of
  `RingRuns.StepKeepsInv`, `RingRuns.RunKeepsInv`, `RingRuns.RunsNeverStall` and
  `RingLimits.StallsIffTailCannotMove`. With them the statements fail for some rings; `RingDepartures` and
  `RingLosses` say for which.
- ReceiveCall.HpcapRx: a call is one step of the ring here, and frames that arrive while it runs are those in
  the ring at its start; calls whose trips interleave with the NIC and with other threads are `RingRuns`.
- RxCalls.CallRecorded: contents are claimed for one writer at a time, or once the copies of all writers have
  finished (`WriteOrder.TripsCommute`). With several consumers the driver publishes reserved bytes before they
  are copied, and what a reader sees in between is not modelled.
- CaptureRuns.StepInStep: the idle reset is atomic with respect to opening a client.
- CaptureTape.StepTogether: no reader acknowledges the first bytes of a file while their padding is owed
  (`StreamLayout.HeaderBelowReservation`); while the capture program is attached its own reading sees to that
  (`CaptureSystem.SlowestInStream`).
- CaptureSystem.FilesOfEveryRunPass: the files lie on the stream's file boundaries only if the listener starts
  at one, as the first client does; where a later one starts is `ListenerRuns.OpenStartsAt`. Stopping is
  `DumpRuns.RemainderIsDropped`.
- StreamLayout.StreamTiles: the largest record is at most 2060 bytes and a file holds at least two of them;
  frames of several descriptors (jumbo frames) are not modelled.
- FrameLog.TripRecorded: captured frames have a nonzero `sec`, as real time stamps do; the values of time
  stamps, filters and the choice of frames to keep are inputs.
- Memory order: steps are sequentially consistent; memory barriers, prefetching, the Mellanox variant, one
  ring per consumer, and the 10 Gb/s drivers are not modelled.
- ListenerRuns.StepStands: killed listeners and the open that finds no slot; the wait of `hpcap_read`.
- ClientHandle.WaitListenerUser: the kill flag, which also ends the wait.
- ClientHandle.HpcapHandle.DoListenerOp: the abort of a client whose descriptor has been closed by a kill.
- ClientHandle.IoctlLstop: what other clients do while one waits is modelled between requests, not inside
  one; only the poll thread's pops and pushes fall inside a wait.
- Reader.HpcapReadNext: the caller gives a copy area, and its header and frame parts are two arrays here;
  pointers into the buffer are the bytes they show at that moment.
- PacketReader.HpcapReadPacket: only the form with a header callback, and without what the callback does.
- CheckRaw.ReadRaw: the option that repairs files, the list of sizes, and the choice of files by name.
- CaptureFiles.CaptureLoop: writes to disk succeed; opening, naming and closing files; a stop seen between
  two files, which ends the program with nothing more to do.
- DuplicateTable.Table.CheckDuplicate: time stamps grow strictly, frames are shorter than 65536 bytes, and
  the hash is an input.
- AdminSend.AdminSendQueue.SendCommand: the contents of data buffers and the caller's copy of the
  write-back; a queue of no entries and a head register out of range, which return an error at once.
- AdminReceive.AdminReceiveQueue.CleanArqElement: the firmware-update hook at its end and the queue of no
  entries.
- LldpModel.Walk: the parser checks no length inside a TLV; the model lets it read 4096 bytes from the start
  of the frame and says nothing about memory beyond.
- LldpEncoding.WalkIsFold: lists with a TLV of type 2, 3 or 4 directly behind a CEE TLV of one or two features
  are `LldpEncoding.WalkReads`.
- PageDescriptors.PdTable.Add: fewer than 2^32 references to one entry; a table whose last entry has been
  removed must be set up again before the next add, and setting up segment descriptors is not modelled.
- Initialisation and teardown of the queues, character devices, memory mapping, huge pages, sysfs, module
  parameters, PCI enumeration and changing the buffer size at run time: calls into the kernel with little
  logic of their own.
- Latency statistics, profiling, occupation rates, pcap conversion, multicast sockets, the remaining samples,
  and the thin command wrappers of the i40e driver.
