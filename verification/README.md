# Verified model of the Sangoma voice libraries

Dafny models, with proofs, of six parts of the repository:

- **TDM channels** (`RingInterleaving`, `TdmChunks`, `TdmChannel`, `TdmMap`, `TdmSpan`). A user thread pushes chunks
  into a 16-slot ring, the span thread drains 31 rings into one interleaved block, and a receive block is taken apart
  again. The ring is modelled twice: as an interleaving of single memory accesses of the two threads, and as the classes
  `Channel` and `Span`, whose methods follow the C functions and are proved against a queue of bytes.
- **OSLEC echo canceller** (`TopBit`, `Fir`, `EchoStages`, `EchoSpec`, `EchoAdapt`, `EchoRuns`, `EchoPower`,
  `EchoOutput`, `EchoCanceller`). The class `OslecState` updates arrays and scalars in place and is proved to refine the
  state machine of `EchoSpec`; `EchoRuns` and `EchoPower` prove what every run of that machine keeps, for all pairs of input
  streams, and `EchoOutput` what it sends and how it learns.
- **Boost sequence numbers** (`BoostSequence`, `BoostRestart`). A production and a unit-tester endpoint, which count
  differently, joined by two links that may lose events; and what restart acknowledgements do to either direction.
- **Q.931 decoder** (`Q931`, `Q931Frames`). The call reference, the walk over information elements and the IA5 table,
  with an encoder of well-formed frames following sections 4.2 to 4.5 of ITU-T Q.931.
- **Channel lists** (`ChannelList`). The printer and the parser of lists such as `1-4.7-15`.
- **G.711** (`G711`). Both companding laws of ITU-T G.711, section 3, on the same `top_bit` as the echo canceller.

`Wrappers` holds optional results and `Words` machine words: 16- and 32-bit wrap-around is written out wherever the C
narrows a value or may leave its range. `dafny verify dfyconfig.toml` checks everything.

## Where the code falls short

The proofs follow the code. These are the places where it does less than its comments or a reader would expect; each has
the exact condition as a lemma.

- An accepted push of length 0 sends one stray zero byte (`TdmChunks.WireIsPayload`).
- `chan_push` reads `tx_idx_out` twice without a lock, so it can return "no free slots" on an empty ring
  (`RingInterleaving.NoFreeSlotsIff`, `RefusedThoughEmpty`). Nothing is lost or reordered by this.
- The intermediate sum of the transmit DC filter can overflow 32 bits exactly when samples exceed a magnitude of 31068;
  the stored value is right all the same when the overflow wraps (`EchoStages.OverflowIff`, `DcStepBounded`).
- `Pstates` drifts up by one per silent sample and wraps at the 2^31st (`EchoPower.SilenceDrifts`). Its bounds hold in
  every run of n updates exactly as long as n + taps*(2^28/2^log2taps) <= 2^31-1 (`EchoPower.PowerLimitIff`).
- A failed send of a restart acknowledgement leaves `txseq` at 2^32-1 (`BoostSequence.FailedSendIffOrdinary`).
- `1 << 31` is sign-extended on its way to a 64-bit `unsigned long`, so a list naming channel 32 parses to a mask with
  the upper 32 bits set (`ChannelList.RoundTripIff`).
- A channel range that ends at 2147483647 keeps the parser in its loop for ever (`ChannelList.LoopEndsIff`,
  `ParseIsUnion`).
- The Q.931 decoder reads numbers at fixed offsets and then trusts their length (`Q931Frames.NumberLandsIff`). A called
  number loses its last digit, and a last digit 4 is taken for a signal element (`CalledNumberIff`); a calling number
  without octet 3a loses its first digit (`ShortCallingNumberIff`); a redirecting number takes in the octet after it
  (`RedirectingNumberOvershoots`).
- It reads cause and channel identification at fixed offsets, not by their length (`Q931Frames.LandsIff`): a one-octet
  channel identification is overshot (`BasicRateOvershoots`), diagnostics can be taken for elements
  (`DiagnosticsOvershoot`), and an octet 3a is reported for the cause (`CauseValueIff`).
- It reports channels of 16 and above wrongly, 16 as -1 and 33 as 1 (`Q931Frames.ChannelIff`, `LastChannelWins`), and
  reads the wrong octet after an interface identifier (`ChannelNumberIff`).
- It does not check that what it writes fits the event's arrays. It does fit exactly for frames of at most 8188 octets with
  a call reference of at most two and numbers of at most 31 digits, 80 if redirecting (`Q931.FrameFitsIff`).
- It reports the presentation indicator of octet 3a as screening, times 32, and the screening indicator as presentation,
  against section 4.5.10 of ITU-T Q.931 (`Q931Frames.LastCallingNumberWins`).
- A-law samples -7 to -1 all decode to -8 (`G711.AlawQuantises`).

## Model

| member | source | states |
|---|---|---|
| `TdmChunks.WireIsPayload` | api/libsangoma/libhpsangoma.c:58-91 | the bytes put on the wire equal the bytes pushed if and only if no accepted push was empty; an empty chunk costs one stray byte |
| `RingInterleaving.StepInv` | api/libsangoma/libhpsangoma.c:66-100 | one shared-memory access of either thread, in any state satisfying the ring invariant (window of full slots, lagging indices, half-filled slot, half-drained head), keeps it |
| `RingInterleaving.RunInv` | api/libsangoma/libhpsangoma.c:66-100 | so does any interleaving of any length |
| `RingInterleaving.FifoNoLoss` | api/libsangoma/libhpsangoma_priv.c:257-285 | in every interleaving since open, bytes emitted followed by what the ring memory still holds are the wire form of the pushes that returned 0 plus the one about to: in push order, none lost, none duplicated |
| `RingInterleaving.StoredIsWire` | api/libsangoma/libhpsangoma_priv.c:265-272 | the bytes read from a stretch of slot memory are the payloads that the slots were filled with |
| `RingInterleaving.OwnershipByInit` | api/libsangoma/libhpsangoma.c:80-91 | at every reachable point the user thread changes no slot whose init is set, the span thread changes and reads no slot whose init is clear (and stays inside its data), and the two are never in the same slot |
| `RingInterleaving.PublishWindow` | api/libsangoma/libhpsangoma.c:88-91 | setting init appends exactly one whole chunk to the window and touches no other |
| `RingInterleaving.ReleaseWindow` | api/libsangoma/libhpsangoma_priv.c:270-271 | clearing init hands back exactly the head slot, before tx_idx_out moves |
| `RingInterleaving.NoFreeSlotsIff` | api/libsangoma/libhpsangoma.c:67-79 | a concurrent push leaves through the free_slots test exactly when its first read of tx_idx_out was larger than tx_idx_in and its second read equals it; only with 0, 15 or 16 chunks queued |
| `RingInterleaving.SlotBusyIffFull` | api/libsangoma/libhpsangoma.c:81-86 | the init test refuses exactly when 16 chunks are queued |
| `RingInterleaving.FinishWriting` | api/libsangoma/libhpsangoma.c:88-102 | past the init test a push returns 0 after a bounded number of its own steps, whatever state the span thread is stopped in |
| `RingInterleaving.TooBigAtOnce` | api/libsangoma/libhpsangoma.c:59-64 | a payload of 1024 bytes or more is refused at once and nothing else changes |
| `RingInterleaving.PushAlone` | api/libsangoma/libhpsangoma.c:50-103 | a push that runs while the span thread is stopped anywhere, also between init=0 and the advance of tx_idx_out, is accepted if and only if fewer than 16 chunks are queued |
| `RingInterleaving.EventAlone` | api/libsangoma/libhpsangoma_priv.c:257-286 | a write event that runs while the user thread is stopped anywhere ends within 7n+1 steps, has then emitted exactly the first min(n, queued) bytes of ring memory, and leaves the rest |
| `RingInterleaving.RefusedThoughEmpty` | api/libsangoma/libhpsangoma.c:67-79 | a concrete schedule in which push returns 1 although nothing is queued, because tx_idx_out is read twice around its wrap |
| `TdmChannel.DrainTakes` | api/libsangoma/libhpsangoma_priv.c:265-286 | draining n cells removes exactly min(n, queued) bytes from the front of the queue, across chunk boundaries |
| `TdmChannel.ApplyConserves` | api/libsangoma/libhpsangoma_priv.c:257-286 | one push or span write keeps "accepted = sent + queued" |
| `TdmChannel.RunConserves` | api/libsangoma/libhpsangoma_priv.c:257-286 | over any run since open, bytes placed in timeslots followed by bytes still queued are the wire form of the accepted pushes |
| `TdmChannel.RingFull` | api/libsangoma/libhpsangoma.c:80-86 | slot tx_idx_in has init set if and only if 16 chunks are queued; slot tx_idx_out if and only if any is |
| `TdmChannel.RingDrop` | api/libsangoma/libhpsangoma_priv.c:267-280 | one pass of the drain loop emits the first queued byte and keeps the init flags on the circular interval from tx_idx_out to tx_idx_in |
| `TdmChannel.RingPush` | api/libsangoma/libhpsangoma.c:88-100 | filling slot tx_idx_in appends the chunk to that interval |
| `TdmChannel.Channel.constructor` | api/libsangoma/libhpsangoma.c:156-164 | a zeroed channel is closed with an empty queue |
| `TdmChannel.Channel.Reset` | api/libsangoma/libhpsangoma.c:156-164 | opening empties the queue and sets init |
| `TdmChannel.Channel.Push` | api/libsangoma/libhpsangoma.c:50-103 | -2 if closed, -1 if too large, 1 exactly when 16 chunks are queued, otherwise 0 and the chunk is appended; free_slots is positive, so its branch is never taken |
| `TdmChannel.Channel.SendByte` | api/libsangoma/libhpsangoma_priv.c:267-285 | one cell gets the oldest queued byte, the queue loses it, and the loop continues exactly while bytes remain |
| `TdmChannel.Channel.SendTo` | api/libsangoma/libhpsangoma_priv.c:257-286 | the column of the channel gets the first min(chunk_sz, queued) bytes in order, no other cell changes, and the queue loses exactly those bytes |
| `TdmChannel.Channel.Receive` | api/libsangoma/libhpsangoma_priv.c:155-171 | rx_chunk is exactly the channel's column; a failing or missing callback closes the channel |
| `TdmChannel.Channel.Close` | api/libsangoma/libhpsangoma.c:182-189 | closing clears init and the registration only |
| `TdmMap.MapTimeslots` | api/libsangoma/libhpsangoma.c:391-417 | chan_no_hw is the rank of each active timeslot and -1 for the others, max_chans their number, after the E1 shift |
| `TdmMap.RankOnto` | api/libsangoma/libhpsangoma.c:404-417 | every column below the rank is hit by an active timeslot (witness returned) |
| `TdmMap.ActiveIff` | api/libsangoma/libhpsangoma.c:407-407 | bit i of the mask, tested by division, is the i-th of its binary digits |
| `TdmMap.MapCounts` | api/libsangoma/libhpsangoma.c:404-417 | timeslot i below 31 is mapped if and only if mask / 2^i is odd, to the number of such timeslots below it, and max_chans is how many there are |
| `TdmMap.E1Shift` | api/libsangoma/libhpsangoma.c:391-393 | on an E1 line timeslot i is bit i+1 of the configured mask |
| `TdmMap.SingleTimeslot` | api/libsangoma/libhpsangoma.c:404-417 | a mask of one bit maps that timeslot to column 0 and no other |
| `TdmMap.MapIsBijection` | api/libsangoma/libhpsangoma.c:404-417 | chan_no_hw is an order-preserving bijection from exactly the active timeslots onto 0..max_chans-1 |
| `TdmSpan.ScatterCell` | api/libsangoma/libhpsangoma_priv.c:267-267 | writing one channel's bytes changes its own column and no other cell |
| `TdmSpan.MuxCell` | api/libsangoma/libhpsangoma_priv.c:249-287 | cell max_chans*x+hw holds byte x of the open channel mapped to hw if it had that many, and what was there before otherwise |
| `TdmSpan.DemuxMux` | api/libsangoma/libhpsangoma_priv.c:155-157 | de-interleaving an interleaved block gives each open channel its own bytes padded with 0xFF, for every map, chunk size and set of open channels |
| `TdmSpan.Span.constructor` | api/libsangoma/libhpsangoma.c:391-424 | a new span has 31 closed channels, is initialised, and maps timeslot i if and only if its bit of the configured mask is set, whatever the configured chunk size |
| `TdmSpan.Span.SendLane` | api/libsangoma/libhpsangoma_priv.c:249-287 | one pass of the outer loop touches the block and the queue of its own channel only |
| `TdmSpan.Span.FillBlock` | api/libsangoma/libhpsangoma_priv.c:246-287 | the block is the interleaving of all open queues over idle cells, and each open queue is drained by its share |
| `TdmSpan.Span.WriteEvent` | api/libsangoma/libhpsangoma_priv.c:238-310 | for a block that fits the buffer: as FillBlock, with the returned code; the bytes are gone also when the driver refuses the block |
| `TdmSpan.Span.BlockDelivers` | api/libsangoma/libhpsangoma_priv.c:246-287 | the column of each timeslot in the block that is sent is its queue's first bytes padded with idle, or idle throughout if closed |
| `TdmSpan.Span.BlockCell` | api/libsangoma/libhpsangoma_priv.c:246-287 | row x of a timeslot's column is byte x of its queue, or 0xFF if there is none or it is closed |
| `TdmSpan.Span.LastResultIs` | api/libsangoma/libhpsangoma_priv.c:159-174 | the result of push_rx_data is that of the greatest open index |
| `TdmSpan.Span.NoResult` | api/libsangoma/libhpsangoma_priv.c:136-174 | and 0 if no channel is open |
| `TdmSpan.Span.Open` | api/libsangoma/libhpsangoma.c:121-172 | each refusal with its code, an uninitialised span included; success empties exactly the named channel and touches no other |
| `TdmSpan.Span.PushRx` | api/libsangoma/libhpsangoma_priv.c:134-176 | every open channel receives exactly its column, channels whose callback fails close, transmit queues are untouched, and the result is that of the last open channel |
| `TopBit.FloorLog2Unique` | OSLEC/echo/bit_operations.h:66-94 | the floor of the logarithm is the only r with 2^r <= n < 2^(r+1) |
| `TopBit.HighestIsFloorLog2` | OSLEC/echo/bit_operations.h:66-94 | the highest one bit of n is at floor(log2 n), and nowhere else |
| `TopBit.Narrow` | OSLEC/echo/bit_operations.h:73-92 | one mask test: the remaining bits lie in half the span and still include the top bit |
| `TopBit.TopBit` | OSLEC/echo/bit_operations.h:66-94 | the five masks return the position of the highest one bit, -1 for zero |
| `Fir.WindowHoldsLastSamples` | OSLEC/echo/fir.h:233-250 | entry i of the abstract window is the sample from i steps ago, 0 before the stream began |
| `Fir.DotIsConvolution` | OSLEC/echo/fir.h:239-245 | the sum the filter forms is the convolution of the coefficients with the stream, for every stream |
| `Fir.OutputIsConvolution` | OSLEC/echo/fir.h:250-250 | while the convolution is below 2^30 in magnitude the output is its floor in units of 2^15 |
| `Fir.ZeroTaps` | OSLEC/echo/fir.h:239-250 | coefficients of zero give 0 |
| `Fir.HoldsAfterWrite` | OSLEC/echo/fir.h:237-249 | writing at curr_pos and stepping back shifts the window by one sample |
| `Fir.DotCircular` | OSLEC/echo/fir.h:239-245 | the two loops over the circular history sum the whole window modulo 2^32 |
| `Fir.DotLinear` | OSLEC/echo/fir.h:230-231 | the straight dot product over the doubled history gives the same sum |
| `Fir.CircularFir.constructor` | OSLEC/echo/fir.h:105-117 | a new filter holds silence |
| `Fir.CircularFir.Flush` | OSLEC/echo/fir.h:119-126 | a flushed filter holds silence |
| `Fir.CircularFir.Filter` | OSLEC/echo/fir.h:160-251 | shifts the window by the sample and returns the truncated dot product; only the slot at curr_pos is written |
| `Fir.DoubledAfterWrite` | OSLEC/echo/fir.h:228-229 | the double store keeps history[j] == history[j+taps] and leaves the window contiguous at curr_pos |
| `Fir.LinearFir.Filter` | OSLEC/echo/fir.h:227-231 | the doubled form returns the same value from the same window as the circular form |
| `EchoStages.DcStepBounded` | OSLEC/echo/echo.c:371-391 | with X = 30720*max(abs(input)), each step keeps abs(x_2) <= X and -X <= x_1 - x_2 <= X+7, and wrapping never shows in the stored accumulator |
| `EchoOutput.HighPassOutput` | OSLEC/echo/echo.c:383-390 | the receive filter returns its accumulator in units of 2^15, rounded down and limited to 16383 |
| `EchoStages.DcRunBounded` | OSLEC/echo/echo.c:607-628 | these bounds hold after every run from zero, also at full scale |
| `EchoStages.HalvedInputNeverOverflows` | OSLEC/echo/echo.c:384-384 | on the halved receive input even the intermediate sum stays in 32 bits |
| `EchoStages.IncrementFits` | OSLEC/echo/echo.c:384-384 | with magnitudes up to 31068 the intermediate sum stays in 32 bits in every state within the bounds |
| `EchoStages.OverflowRun` | OSLEC/echo/echo.c:619-619 | a run of samples of magnitude 31069 after which the sum overflows |
| `EchoStages.OverflowIff` | OSLEC/echo/echo.c:607-628 | for 0 <= m <= 32768, no run of samples of magnitude up to m takes the intermediate sum out of 32 bits if and only if m <= 31068 |
| `EchoStages.FullScaleOverflows` | OSLEC/echo/echo.c:619-619 | at full scale three samples overflow |
| `EchoStages.ConstantIsBlocked` | OSLEC/echo/echo.c:371-391 | a constant input moves the accumulator towards 0 from one side, by at least one a sample, until it rests in 0..7 with output 0 |
| `EchoStages.PowerStepTracks` | OSLEC/echo/echo.c:396-409 | one update keeps sum of squares <= 2^k*Pstates <= sum of squares + n*2^k, and the sum before the clamp is never negative |
| `EchoStages.LevelStepWithin` | OSLEC/echo/echo.c:413-416 | a level tracker fed magnitudes up to top stays in 0..top |
| `EchoStages.SteadyReaches` | OSLEC/echo/echo.c:413-416 | under constant magnitude a level approaches it from one side, never overshoots, and equals it after at most abs(32*magnitude - acc) updates |
| `EchoAdapt.AdaptCircular` | OSLEC/echo/echo.c:198-226 | the portable loops correct tap i with the sample from i steps ago and leave no tap out |
| `EchoAdapt.AdaptLinear` | OSLEC/echo/echo.c:126-156 | the DSP loop produces identical taps |
| `EchoOutput.AdaptedNear` | OSLEC/echo/echo.c:218-225 | while nothing leaves its type, 32768 times the change of a tap is the sample times the factor to within 16384 |
| `EchoOutput.FactorIs` | OSLEC/echo/echo.c:206-209 | the factor is the residual times 2^shift, or its floor for shifts down, with the sign of the residual |
| `EchoOutput.ShiftIs` | OSLEC/echo/echo.c:476-479 | the shift is 28 - l - log2taps with 2^l <= 64 + Pstates < 2^(l+1) |
| `EchoOutput.AdaptMoves` | OSLEC/echo/echo.c:218-225 | an adaption changes the filter's sum on the same window by the factor times its power in units of 2^15, to within the rounding of the taps |
| `EchoOutput.AdaptMovesTowards` | OSLEC/echo/echo.c:218-225 | so once the factor outweighs the rounding, the sum moves towards the received sample |
| `EchoOutput.AtMostHalf` | OSLEC/echo/echo.c:443-482 | and the correction is at most half of the residual, as long as Pstates tracks the window |
| `EchoOutput.UpdateAdapts` | OSLEC/echo/echo.c:439-483 | the background filter learns from its own residual, exactly if the hangover is not running |
| `EchoRuns.NoErrorNoAdaption` | OSLEC/echo/echo.c:439-483 | without residual error adaption leaves every tap as it is, whatever the power |
| `EchoRuns.ApplyGood` | OSLEC/echo/echo.c:341-582 | one update or flush keeps every range |
| `EchoRuns.RunsAreGood` | OSLEC/echo/echo.c:341-582 | in every run DC accumulator, levels (Ltx, Lrx <= 16384, Lclean <= 32768), noise estimate, comfort noise state, taps, cond_met (0..6), hangover and power stay in their ranges |
| `EchoRuns.RunExists` | OSLEC/echo/echo.c:341-582 | every stream of samples and flushes, with the adaption mode set in any way in between, has a run, so the run lemmas speak of all of them |
| `EchoOutput.UpdateLevels` | OSLEC/echo/echo.c:413-431 | each level follows its own signal: tx, rx after its filter, and what either filter leaves |
| `EchoOutput.BypassOutput` | OSLEC/echo/echo.c:576-580 | disabled, the sample returned is the received one less its lowest bit, or twice the receive filter's output |
| `EchoOutput.ProcessedOutput` | OSLEC/echo/echo.c:515-580 | otherwise twice the foreground residual unless it is suppressed, then twice its clipped value, or 0 |
| `EchoOutput.CleanOutput` | OSLEC/echo/echo.c:419-580 | without processing: the received sample less its lowest bit, less twice the foreground filter's value |
| `EchoOutput.UntouchedOutput` | OSLEC/echo/echo.c:419-580 | with taps of zero an even sample passes unchanged |
| `EchoOutput.RunOutput` | OSLEC/echo/echo.c:341-582 | in every run the filter's value is taken on all that was transmitted since create or flush |
| `EchoOutput.NoiseApproaches` | OSLEC/echo/echo.c:562-565 | the noise estimate approaches a steady residual from one side and never passes it |
| `EchoOutput.NoiseEstimate` | OSLEC/echo/echo.c:552-566 | it follows residuals of level below 40 that are not suppressed, and no others |
| `EchoOutput.ComfortFits` | OSLEC/echo/echo.c:524-541 | the generator counts modulo 2^32, its filter stays within 10923, and up to level 6143 nothing wraps and the noise is at most 16/3 of the level, rounded up |
| `EchoOutput.CreateIsBlank` | OSLEC/echo/echo.c:229-280 | a new canceller has zero taps, windows, levels and counters |
| `EchoOutput.FlushIsBlank` | OSLEC/echo/echo.c:305-328 | a flush zeroes the same, but for the mode, cond_met and the comfort noise |
| `EchoRuns.SuppressionClamps` | OSLEC/echo/echo.c:535-546 | without comfort noise a suppressed sample is clamped to the background noise level, or muted |
| `EchoRuns.UpdateControl` | OSLEC/echo/echo.c:485-513 | what one update does to hangover, counter and both sets of taps |
| `EchoRuns.DoubleTalkFreezes` | OSLEC/echo/echo.c:439-513 | double talk in update m freezes the background taps in updates m+1..m+599 and the foreground taps in updates m..m+604 |
| `EchoRuns.DoubleTalkAtOnceIff` | OSLEC/echo/echo.c:485-492 | without the receive filter the first sample is double talk exactly if its halved magnitude is at least 2064 and its level above that of the transmit sample |
| `EchoOutput.HangoverExact` | OSLEC/echo/echo.c:485-492 | without further double talk the hangover reaches 0 after exactly 600 updates |
| `EchoOutput.AdaptionResumes` | OSLEC/echo/echo.c:439-492 | update m+600 is the first to adapt again |
| `EchoOutput.MetIff` | OSLEC/echo/echo.c:499-507 | the transfer condition in the levels the update leaves: 7/8 of the foreground's, 1/8 of the transmit level |
| `EchoRuns.CounterIsStreak` | OSLEC/echo/echo.c:499-513 | cond_met is the number of consecutive updates that met the condition, saturated at 6 |
| `EchoRuns.TransferIffSevenInARow` | OSLEC/echo/echo.c:499-513 | the foreground changes only after 7 updates in a row, and then equals the background |
| `EchoPower.PowerStepFits` | OSLEC/echo/echo.c:396-409 | while n + 1 + headroom fits 32 bits, the next sample neither wraps nor clamps and keeps the bounds |
| `EchoPower.PowerIsTracked` | OSLEC/echo/echo.c:396-409 | n updates since create or flush, with n plus the headroom taps*(2^28/2^k) within 32 bits: sum of squares <= 2^k*Pstates <= sum of squares + n*2^k |
| `EchoPower.ClampNeverActs` | OSLEC/echo/echo.c:407-408 | in those runs the clamp at zero never acts and nothing wraps, up to the same limit |
| `EchoPower.SilenceDrifts` | OSLEC/echo/echo.c:405-408 | on silence Pstates grows by exactly one per sample and collapses to 0 at the 2^31st |
| `EchoPower.OverflowAt` | OSLEC/echo/echo.c:405-408 | silence, then taps samples of -32768: one update beyond the limit Pstates overflows and the bounds fail |
| `EchoPower.PowerLimitIff` | OSLEC/echo/echo.c:396-409 | every run of up to n updates since create or flush keeps the bounds, and never clamps or wraps, if and only if n + taps*(2^28/2^k) <= 2^31-1; for every number of taps an int holds |
| `EchoRuns.WindowIsHistory` | OSLEC/echo/echo.c:424-428 | both filters see the last taps halved samples since create or flush |
| `EchoCanceller.OslecState.constructor` | OSLEC/echo/echo.c:229-280 | a new canceller has equal positions, equal silent histories and the initial abstract state |
| `EchoCanceller.OslecState.SetMode` | OSLEC/echo/echo.c:298-301 | setting the adaption mode changes that and nothing else |
| `EchoCanceller.OslecState.HighPassTx` | OSLEC/echo/echo.c:607-631 | the transmit filter is the DC filter; it returns its accumulator in units of 2^15, limited to 32767 |
| `EchoCanceller.OslecState.TrackPower` | OSLEC/echo/echo.c:396-409 | reads the sample about to be overwritten, which is the oldest of the window |
| `EchoCanceller.OslecState.FilterBoth` | OSLEC/echo/echo.c:413-431 | levels and both filters; afterwards both positions are one step ahead of curr_pos |
| `EchoCanceller.OslecState.AdaptBackground` | OSLEC/echo/echo.c:439-483 | runs on a history that has already advanced and still pairs tap i with the sample from i steps ago |
| `EchoCanceller.OslecState.Transfer` | OSLEC/echo/echo.c:499-513 | the in-place copy of the taps is the transfer of the abstract state |
| `EchoCanceller.OslecState.Update` | OSLEC/echo/echo.c:341-582 | the whole in-place update is the step of the abstract machine the run lemmas speak of, afterwards all three positions agree and both histories are equal; disabled it returns the received sample less its lowest bit, and without processing that less twice the filter's value |
| `EchoCanceller.OslecState.Flush` | OSLEC/echo/echo.c:305-328 | likewise for flush; cond_met survives it |
| `EchoCanceller.HistoriesAgree` | OSLEC/echo/echo.c:319-326 | equal positions and windows force equal history memory |
| `EchoCanceller.NewestAt` | OSLEC/echo/echo.c:211-212 | the newest sample is at the canceller's curr_pos after the filter has moved on |
| `BoostSequence.Connection.Write` | ssmg/sangoma_mgd.trunk/call_signal.c:395-467 | the state, result and event of a write in either build, including refused and failed sends |
| `BoostSequence.WriteAnswers` | ssmg/sangoma_mgd.trunk/call_signal.c:404-467 | a write returns -1 exactly if the event is out of range, or attempted and not delivered, otherwise 0; an event goes out exactly if it is in range, delivered, and an acknowledgement or not in a reset; a refused write changes nothing |
| `BoostSequence.WriteNumbers` | ssmg/sangoma_mgd.trunk/call_signal.c:429-434 | production sends its count before the event, the tester the count with it, and both count it |
| `BoostSequence.Connection.Read` | ssmg/sangoma_mgd.trunk/call_signal.c:169-284 | the state after a read and whether it reports a mismatch, in either build |
| `BoostSequence.ReadReportsGap` | ssmg/sangoma_mgd.trunk/call_signal.c:217-245 | a read reports a mismatch exactly when events were lost just before (not a multiple of 2^32 of them), is in step afterwards, and sets txwindow to sent minus seen |
| `BoostSequence.RunKeeps` | ssmg/sangoma_mgd.trunk/call_signal.c:217-245 | in every run of sends, failed sends, losses, reads and priority events both links keep their invariant |
| `BoostSequence.OneErrorPerGap` | ssmg/sangoma_mgd.trunk/call_signal.c:424-451 | successful sends carry consecutive numbers (from 0 or 1 by build) and there is exactly one mismatch per gap that is not a multiple of 2^32 |
| `BoostSequence.LosslessInStep` | ssmg/sangoma_mgd.trunk/call_signal.c:217-245 | without losses no mismatch is ever reported, rxseq is the count received and txseq the count sent |
| `BoostSequence.WindowCountsUnseen` | ssmg/sangoma_mgd.trunk/call_signal.c:217-217 | without losses txwindow is events sent minus events the peer had received when it wrote, and never underflows |
| `BoostSequence.RestartResynchronises` | ssmg/sangoma_mgd.trunk/call_signal.c:424-427 | a restart acknowledgement that gets through puts its direction in step whatever both had counted |
| `BoostSequence.RestartHandshake` | ssmg/sangoma_mgd.trunk/call_signal.c:424-427 | after both ends acknowledged, with nothing else in flight, both directions are in step |
| `BoostSequence.InStepMeansNoError` | ssmg/sangoma_mgd.trunk/call_signal.c:424-436 | in step, the next ordinary event is read without mismatch and leaves the ends in step |
| `BoostSequence.FailedSendIffOrdinary` | ssmg/sangoma_mgd.trunk/call_signal.c:438-451 | a failed send gives its number back if and only if it is not a restart acknowledgement (or the counter was at 2^32-1) |
| `BoostRestart.SettledIff` | ssmg/sangoma_mgd.trunk/call_signal.c:424-451 | for every move of one direction, acknowledgements, failed sends, losses and anything in the other direction included, and any events in flight: exactly when it leaves the reader due to be in step with the sender |
| `BoostRestart.Resynchronises` | ssmg/sangoma_mgd.trunk/call_signal.c:217-245 | from any counters and events in flight, once an event has got through the direction is due to be in step until a failed acknowledgement, a loss or an acknowledgement by the reader |
| `BoostRestart.NoErrorsUndisturbed` | ssmg/sangoma_mgd.trunk/call_signal.c:217-245 | in step and until such a move, no ordinary event is reported, however many acknowledgements the sender sends |
| `BoostRestart.RestartInFlight` | ssmg/sangoma_mgd.trunk/call_signal.c:217-245 | after an acknowledgement sent with any counters and events in flight, undisturbed, only the events ahead of it can be reported |
| `ChannelList.GetActiveChannels` | api/lib/lib_api.c:479-496 | the loop collects exactly the bits of the range, with the shift count taken modulo 32 and bit 31 sign-extended; None for a range that ends at the largest int |
| `ChannelList.LoopEndsIff` | api/lib/lib_api.c:486-489 | the counter of a range loop passes stop if and only if stop is not the largest int |
| `ChannelList.ParseActiveChannel` | api/lib/lib_api.c:499-528 | the pointer walk computes the parser specification on any string, None if the C does not return |
| `ChannelList.ParseIsUnion` | api/lib/lib_api.c:499-528 | for any dot-separated list, in any order, with any overlaps and numbers of any size: the parser returns if and only if no range ends at the largest int, and then returns the union of what the items mean |
| `ChannelList.ParseSeparated` | api/lib/lib_api.c:509-523 | the same for any separator other than digits and dashes |
| `ChannelList.DashChain` | api/lib/lib_api.c:513-516 | of several dashes the last one makes the range |
| `ChannelList.LeadingDash` | api/lib/lib_api.c:513-516 | a leading dash makes the range start at 0 |
| `ChannelList.TrailingDash` | api/lib/lib_api.c:513-516 | a trailing dash makes a range of one channel |
| `ChannelList.BitsOfChannel` | api/lib/lib_api.c:492-493 | channels 1 to 31 are one bit each, 32 is bit 31 copied upwards, and the rest repeat every 32 |
| `ChannelList.RangeIsUnion` | api/lib/lib_api.c:486-489 | a range is the union of its channels |
| `ChannelList.ChannelOfNumber` | api/lib/lib_api.c:511-511 | numbers keep their low 32 bits as an int, and read as -1 from 2^64 on |
| `ChannelList.AllChannels` | api/lib/lib_api.c:506-507 | ALL is the lowest 32 bits, both ways |
| `ChannelList.DecimalDigits` | api/libsangoma/libsangoma.c:625-633 | numbers are printed in decimal without leading zeros |
| `ChannelList.Example` | api/lib/lib_api.c:499-528 | 1-4.7.15 is printed for and parsed as channels 1 to 4, 7 and 15 |
| `ChannelList.TimeslotBitmapToString` | api/libsangoma/libsangoma.c:581-641 | the loop over 32 bits prints the ranges that Collect finds |
| `ChannelList.RangesAreMaximal` | api/libsangoma/libsangoma.c:594-638 | those ranges ascend, are separated by clear channels, and none can be extended |
| `ChannelList.CollectCovers` | api/libsangoma/libsangoma.c:594-638 | finished and open ranges cover exactly the bits seen so far |
| `ChannelList.ParseOfPrint` | api/lib/lib_api.c:499-528 | parsing a printed bitmap gives it back, sign-extended |
| `ChannelList.RoundTripIff` | api/lib/lib_api.c:490-491 | it is the same mask if and only if channel 32 is clear or all are set; the low 32 bits are always right |
| `ChannelList.PrintedFits` | api/libsangoma/libsangoma.c:585-585 | the output never exceeds 96 characters |
| `Q931.Ia5IsAscii` | api/libstelephony/Q931EventsDecoder.cpp:12-27 | for octets 0x20 to 0x7E the IA5 table is ASCII |
| `Q931.Ia5Control` | api/libstelephony/Q931EventsDecoder.cpp:12-27 | control octets and 0x7F have no character |
| `Q931.HexReadsBack` | api/libstelephony/Q931EventsDecoder.cpp:132-242 | the hexadecimal call reference reads back as the original octets |
| `Q931Frames.HexIsUpper` | api/libstelephony/Q931EventsDecoder.cpp:136-237 | the digits are 0 to 9 and A to F |
| `Q931.Element` | api/libstelephony/Q931EventsDecoder.cpp:329-607 | on any input every element advances the index |
| `Q931.Decoder.ReadElement` | api/libstelephony/Q931EventsDecoder.cpp:329-607 | the switch with its moving indices computes the element specification, and writes the digits announced and a NUL |
| `Q931.Decoder.ReadElements` | api/libstelephony/Q931EventsDecoder.cpp:329-607 | the loop computes the walk and ends on any input |
| `Q931.Decoder.ReadCallReference` | api/libstelephony/Q931EventsDecoder.cpp:132-242 | the loop produces the hexadecimal digits of exactly the announced octets |
| `Q931.Decoder.Input` | api/libstelephony/Q931EventsDecoder.cpp:82-612 | each status, exactly one report for an accepted frame and none otherwise, and which array elements are written |
| `Q931.Decoder.CopyData` | api/libstelephony/Q931EventsDecoder.cpp:127-130 | the whole frame is copied, octet for octet |
| `Q931.Decoder.ReadDigits` | api/libstelephony/Q931EventsDecoder.cpp:497-503 | the digit loops read exactly the announced octets and write them and a NUL |
| `Q931.FrameFitsIff` | api/libstelephony/Q931EventsDecoder.cpp:82-612 | every write stays in its array if and only if the frame has at most 8188 octets, its call reference at most two, and every number the walk comes to a length octet of at most 33, or 82 for a redirecting number |
| `Q931Frames.WellFormedInside` | api/libstelephony/Q931EventsDecoder.cpp:82-612 | in well-formed frames of at most 8188 octets every write stays in its array |
| `Q931Frames.WalkElement` | api/libstelephony/Q931EventsDecoder.cpp:329-607 | from the start of a well-formed element the walk passes to the start of the next, with only that element's effect and no write outside its array |
| `Q931Frames.CauseOrChannelLands` | api/libstelephony/Q931EventsDecoder.cpp:342-380 | a well-formed cause or channel identification is left before its end, on octets that count as elements of their own |
| `Q931Frames.ReachesIff` | api/libstelephony/Q931EventsDecoder.cpp:329-607 | the walk comes by the end of any stretch of octets if and only if that stretch, read as elements, ends where an element ends; nothing around it matters |
| `Q931Frames.FixedOffset` | api/libstelephony/Q931EventsDecoder.cpp:342-380 | for any content: after a cause the walk goes on at the second octet of content, after a channel identification at the third, and what is reported is read there |
| `Q931Frames.LandsIff` | api/libstelephony/Q931EventsDecoder.cpp:342-380 | for any content: the walk comes by the end of a cause if and only if it has at least 1 octet and the octets from the second on delimit as elements; likewise 2 and the third for a channel identification |
| `Q931Frames.BasicRateOvershoots` | api/libstelephony/Q931EventsDecoder.cpp:365-380 | a one-octet channel identification is left one octet late on any input |
| `Q931Frames.DiagnosticsOvershoot` | api/libstelephony/Q931EventsDecoder.cpp:342-350 | a cause whose diagnostics look like an element takes the walk past its end |
| `Q931Frames.CauseValueIff` | api/libstelephony/Q931EventsDecoder.cpp:342-350 | the reported cause is octet 4 if and only if octet 3a is absent or holds the same value |
| `Q931Frames.RecommendationForCause` | api/libstelephony/Q931EventsDecoder.cpp:342-350 | with an octet 3a, cause 16 is reported as 8 |
| `Q931Frames.ChannelIff` | api/libstelephony/Q931EventsDecoder.cpp:370-376 | the reported channel is the channel number if and only if that is below 16 |
| `Q931Frames.ChannelsMisreported` | api/libstelephony/Q931EventsDecoder.cpp:370-376 | channel 16 is reported as -1 and channel 33 as 1 |
| `Q931Frames.ChannelNumberIff` | api/libstelephony/Q931EventsDecoder.cpp:365-380 | the channel number is reported if and only if it is below 16, or, with an interface identifier, if the octet read in its place happens to hold the same value |
| `Q931Frames.InterfaceIdentified` | api/libstelephony/Q931EventsDecoder.cpp:365-380 | channel 5 of interface 1 is reported as channel 3 |
| `Q931Frames.LastCauseWins` | api/libstelephony/Q931EventsDecoder.cpp:342-350 | of several causes in a frame the last is reported, and its octet 4 if and only if octet 3a is absent or holds the same value |
| `Q931Frames.LastChannelWins` | api/libstelephony/Q931EventsDecoder.cpp:365-380 | of several channel identifications in a frame the last is reported, rightly if and only if its channel is below 16 |
| `Q931Frames.NumberLandsIff` | api/libstelephony/Q931EventsDecoder.cpp:487-561 | for any content: the walk comes by the end of a calling number iff it has two octets, of a called number iff it has one or its last octet is plain, of a redirecting number never |
| `Q931Frames.ShortCallingNumberIff` | api/libstelephony/Q931EventsDecoder.cpp:487-504 | without octet 3a a calling number loses its first digit; the walk is in step if and only if there is one |
| `Q931Frames.CalledNumberFallsShort` | api/libstelephony/Q931EventsDecoder.cpp:512-527 | a called number loses its last digit, and the walk stops on it |
| `Q931Frames.CalledNumberIff` | api/libstelephony/Q931EventsDecoder.cpp:512-527 | the walk is back in step after a called number if and only if its last digit is not 4 |
| `Q931Frames.RedirectingNumberOvershoots` | api/libstelephony/Q931EventsDecoder.cpp:534-561 | a redirecting number swallows the octet after it as one more digit and leaves the walk one octet late, always |
| `Q931Frames.DecodeOfEncode` | api/libstelephony/Q931EventsDecoder.cpp:82-612 | a well-formed frame of any number of elements, calling numbers with and without octet 3a and a final called number ending in 4 included, reports its call reference, message type and the effects of its elements, whatever follows it in memory |
| `Q931Frames.ReportedType` | api/libstelephony/Q931EventsDecoder.cpp:246-325 | the name reported for each of the 25 message types, and UNKNOWN for every other octet, of any frame |
| `Q931Frames.TypeOfName` | api/libstelephony/Q931EventsDecoder.cpp:246-325 | no two message types share a name |
| `Q931Frames.TypeOfEncode` | api/libstelephony/Q931EventsDecoder.cpp:246-325 | the message type of a well-formed frame can be read back from the name reported |
| `Q931Frames.ElementKinds` | api/libstelephony/Q931EventsDecoder.cpp:329-607 | the 26 identifiers that are stepped over by their length, the five that are read, and all others, which are passed over alone |
| `Q931Frames.NothingElse` | api/libstelephony/Q931EventsDecoder.cpp:90-103 | a frame without elements reports zeros and empty strings |
| `Q931Frames.LastCalledNumberWins` | api/libstelephony/Q931EventsDecoder.cpp:512-527 | of several called numbers the last is reported, without its last digit |
| `Q931Frames.LastCallingNumberWins` | api/libstelephony/Q931EventsDecoder.cpp:487-504 | of several calling numbers the last is reported, digit for digit if it has octet 3a; screening is reported as 32 times the presentation sent and presentation as the screening sent, so they are right iff both are 0, and iff they are equal |
| `G711.SegmentCases` | api/libsangoma/g711.h:249-249 | the segment is the position of the magnitude among doubling intervals |
| `G711.XorTwice` | api/libsangoma/g711.h:258-258 | masking twice with the same word changes nothing |
| `G711.XorDiffers` | api/libsangoma/g711.h:258-258 | a bit of the result is set exactly where the two words differ |
| `G711.UlawCode` | api/libsangoma/g711.h:231-284 | the code word is 255, or 127 for negative samples, less 16 times the segment plus the interval the biased magnitude lies in |
| `G711.UlawSaturates` | api/libsangoma/g711.h:255-256 | beyond 32635 it is 0x80 or 0x00 |
| `G711.UlawQuantises` | api/libsangoma/g711.h:231-284 | encode then decode puts every 32-bit sample in the middle of its mu-law interval |
| `G711.UlawMonotone` | api/libsangoma/g711.h:231-284 | encode then decode is monotone over all ints |
| `G711.UlawError` | api/libsangoma/g711.h:231-284 | the error is at most (abs(x)+132)/32 up to 32635; beyond, the result is 32124 or -32124 |
| `G711.UlawStable` | api/libsangoma/g711.h:272-284 | decode, encode, decode equals decode for every code word |
| `G711.UlawFixed` | api/libsangoma/g711.h:231-284 | decode, then encode gives every code word back except 0x7F, the negative zero, which becomes 0xFF |
| `G711.AlawCode` | api/libsangoma/g711.h:311-342 | the code word is 16 times the segment plus the interval the magnitude lies in, exclusive-or 0xD5 or, for negative samples, 0x55 |
| `G711.AlawSaturates` | api/libsangoma/g711.h:330-336 | beyond 15 bits of magnitude it is 0xAA or 0x2A |
| `G711.AlawQuantises` | api/libsangoma/g711.h:311-362 | as for mu-law; -7 to -1 share the interval of -8 |
| `G711.AlawMonotone` | api/libsangoma/g711.h:311-362 | encode then decode is monotone over all ints |
| `G711.AlawError` | api/libsangoma/g711.h:311-362 | the error is at most half the step, 8 more on the negative side; beyond 15 bits the result is 32256 or -32256 |
| `G711.AlawStable` | api/libsangoma/g711.h:349-362 | decode, encode, decode equals decode for every code word |
| `G711.AlawFixed` | api/libsangoma/g711.h:311-362 | decode, then encode gives every code word back |

## Left out

- Drivers, sockets, poll, registry, thread setup, the span run loop, out-of-band events and `get_cfg`: I/O. The results of
  `sangoma_writemsg`, `sendto` and of the user's receive callback are parameters.
- Logging and timestamps.
- `bottom_bit`, bit reversal, parity, float and 32-bit filters, gain tables, FSK and DTMF, `chan_toif`/`chan_fromif`: they
  are single expressions or tables that no modelled part depends on.
- The SIMD and assembly forms of the dot product: taken as a plain dot product modulo 2^32 over the doubled history.
- Weak memory: the interleaving model assumes sequential consistency, one access per step, and a channel that stays open;
  open and close are modelled on the class, from one thread. memset and memcpy go byte by byte for data and in one step for
  the header fields. A negative length, which the C accepts and hands to memcpy, is not modelled.
- The span's block: writing a block needs one that fits the transmit buffer, and taking one apart needs all its octets;
  the C checks neither. `Span` hands out its channels, so pushing and closing are methods of `Channel`.
- Signed 32-bit overflow and shifts by 32 or more are undefined in C; the model wraps and takes shift counts modulo 32, as
  the compiled x86 code does.
- Allocation failure in `oslec_create`, `oslec_snapshot` and the fields that are only recorded for inspection (`factor`,
  `shift`, `adapt`, `Lbgn_upper`).
- Comfort noise: its range and scaling are proved up to level 6143; nothing is said about its spectrum.
- Convergence of the adaptive filter: each step is proved to go towards the received sample and at most half of the way, but
  no statement is made about how fast the echo shrinks over many.
- Boost reads and writes are atomic steps (the C reads `rxseq` under the writer's lock but updates it without), and event
  lengths are valid.
- RunKeeps: its runs contain no restart acknowledgement; those of BoostRestart do, but speak of one direction at a time and
  not of `txwindow`.
- Decode: what the decoder reports for frames outside `Q931.FrameFitsIff` is what it would with longer arrays. Octets read
  past the end of a frame are arbitrary. An IA5 octet with bit 8 set runs into the next table row; past the last row NUL
  stands for whatever is there.
- DecodeOfEncode: well-formed frames carry no redirecting number, called numbers ending in 4 only in last place, causes
  with plain octets only and channel identifications of exactly three octets; RedirectingNumberOvershoots,
  CalledNumberIff and LandsIff say what happens to the others.
- The `ULAW_ZEROTRAP` build and transcoding between the two laws.
