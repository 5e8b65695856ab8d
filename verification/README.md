# YateBTS core behaviour, modelled and proved in Dafny

This project models the parts of YateBTS whose correctness depends on several
functions, threads or runs together, and proves properties of them. `dafny verify
dfyconfig.toml` checks everything.

| files | part of the system |
|---|---|
| `GsmTime`, `Downlink`, `Arfcn`, `Ownership`, `QueueOrder`, `DownlinkRuns`, `FillerContents`, `FillerMemory` | the downlink burst scheduler of a carrier over cyclic GSM time |
| `SendLoop`, `EndToEnd` | the loop of the radio send thread, alone and driving the scheduler |
| `GenQueue`, `QueuePeak`, `QueueService` | the queue between the radio read thread and the burst processing threads |
| `Signal`, `Modulator`, `Pulses`, `Correlation`, `Filters`, `SampleVector` | the DSP loops against their defining sums, and these as sums of pulses and as linear filters, over the reals |
| `ConnTable`, `Signalling`, `ConnRuns`, `TimerPass`, `ConnOwners`, `IdleDrop` | the connection table of the BTS module, its timers and its owners |
| `CallClearing`, `ClearingRuns`, `CallLife` | setup of calls, and their clearing with T305 and T308 |
| `HandoverState`, `HandoverCode`, `HandoverEdges` | the state carried over by a handover, printed and read back |
| `RpData`, `RpMessages` | BCD numbers and the RP-DATA header of a short message |
| `A5`, `KeyStream`, `Bits` | A5/1, A5/2 key setup, A5/4 block extraction, bit packing |
| `Tmsi` | the TMSI allocator with node selection |
| `Arithmetic` | division facts used by several of these |

## How it is built

Where the code changes state in place there is a class or a method over an array with
the code's loops and branches, proved equal to a specification function: `Arfcn.Arfcn`
against `Downlink`, `Signalling.YbtsSignalling` against `ConnTable`, and so on. What the
code is for is then proved about the specification. Where threads interleave, every
critical section is one step of an event type (`DownlinkRuns.Event`, `GenQueue.Event`,
`ConnRuns.Event`, `ClearingRuns.Event`), and the theorems quantify over all runs of these events, whatever
their order. A time a thread reads before it takes the mutex is part of the state, so it
can be stale when it is used; work a thread keeps for after the mutex is part of the
state as well.

## What turned out not to hold

* `GenQueue`: twice the maximum is not a bound on the objects queued. A taker pops
  before it gives its token back, and an adder that finds room takes no token, so tokens
  on their way add up. The bound holds exactly if there are no takers, or no adders
  (`QueuePeak.TwiceTheMaximumHoldsIff`); otherwise the exact maximum is twice the maximum
  length plus one for each further adder and each taker (`QueuePeak.PeakIsBound`,
  `QueuePeak.PeakIsReached`).
* Idle timeout: the pass collects the ids of idle connections under the mutex and drops
  them after it has released it. A use taken in between is lost with the connection.
  `IdleDrop.IdleDropHitsUsedIff` says exactly when.
* Handover state: the reader of a call drops the result of the `substr` that should
  consume the separator. One call is restored completely if no field contains its delimiter
  (`HandoverState.HandoverRoundTripIff`); several are only if all but the last have no
  called number (`HandoverState.SeveralCallsIff`).
* `addTerminatedCall` sets the timer to one second whatever T305 or T308 was set before.
* The space for the originator of a short message is one octet too small exactly if the
  caller is empty (`RpData.AddressFitsIff`).
* Of two bursts for the same filler that arrive between two slots the older one wins: the
  expired list is drained newest first (`FillerMemory.EmptySlotSends`).
* A TMSI without node bits leaves 32 bits after `ffffffff` (`Tmsi.NextWithoutNode`).
* `osmo_pbit2ubit` asked for no bits still writes one.
* `convolution` is a convolution for odd palindromic pulses only, or even ones with a zero
  in the middle (`Signal.FoldsExactlyIff`). Its comment asks for symmetry only.
* A `GenQueue` made without a maximum blocks its adders, since nobody posts their tokens
  (`GenQueue.WithoutMaximumOnlyInitialTokens`).

## Model

| member | source | states |
|---|---|---|
| GsmTime.AssignedFrame | transceiver/gsmutil.h:120-142 | Frame and timeslot number assigned are read back, the frame number cut to 29 bits and to the hyperframe; timeslot numbers above 7 count on into the next frames. |
| GsmTime.DiffIsCongruent | transceiver/gsmutil.h:241-244 | The cyclic difference lies in [-half, half) of a hyperframe and differs from the plain difference by a whole number of hyperframes. |
| GsmTime.DiffUnique | transceiver/gsmutil.h:241-244 | It is the only value in that range congruent to the plain difference. |
| GsmTime.DiffInWindow | transceiver/gsmutil.h:241-244 | Times less than half a hyperframe apart: the cyclic difference is the plain difference, so the comparison is the ordinary one. |
| GsmTime.DiffSubtracts | transceiver/gsmutil.h:164-244 | Differences to a common reference subtract, as long as the result stays in the half-hyperframe range. |
| GsmTime.SameSlotIffCongruent | transceiver/gsmutil.h:196-205 | Two times compare equal exactly if they are the same slot of the hyperframe. |
| GsmTime.BothBeforeIffHalfApart | transceiver/gsmutil.h:172-173 | `a<b` and `b<a` hold together exactly half a hyperframe apart; otherwise the difference is antisymmetric. |
| GsmTime.AfterIsNotTransitive | transceiver/gsmutil.h:164-165 | The comparison is no order on the whole hyperframe: three times that follow each other in a circle. |
| GsmTime.FillerRowPeriodic | transceiver/transceiver.cpp:3411-3417 | The filler row of a slot and of the slot one modulus of frames later agree, also across the hyperframe wrap, for moduli 26, 51 and 102. |
| Arfcn.Arfcn.constructor | transceiver/transceiver.cpp:3387-3398 | A carrier starts with empty lists, default filler cells and every slot unused. |
| Arfcn.Arfcn.InitTimeslot | transceiver/transceiver.cpp:3471-3507 | Setting a slot to its type changes nothing; otherwise it takes the type and the filler modulus of that type. |
| Arfcn.Arfcn.FindPlace | transceiver/transceiver.cpp:3615-3633 | The walk down the queue stops at the first burst that is not later than the new one. |
| Arfcn.Arfcn.AddBurst | transceiver/transceiver.cpp:3581-3635 | The new state is the specified one for each of the five outcomes: filler, expired, too far ahead, duplicate, enqueued. |
| Arfcn.Arfcn.SetFiller | transceiver/transceiver.h:1103-1112 | The cell gets the burst, the burst it held goes to the store; setting the same object again does nothing. |
| Arfcn.Arfcn.MoveExpired | transceiver/transceiver.cpp:3684-3687 | Draining the expired list sets its bursts into the filler table, newest first. |
| Arfcn.Arfcn.FindDue | transceiver/transceiver.cpp:3689-3693 | The walk stops at the first queued burst at or before the slot being sent. |
| Arfcn.Arfcn.TakeHit | transceiver/transceiver.cpp:3695-3717 | A burst for exactly the slot being sent leaves the queue and goes to the table, the caller or the store. |
| Arfcn.Arfcn.MoveOlder | transceiver/transceiver.cpp:3718-3723 | Every older burst follows into the filler table, in queue order, and is counted. |
| Arfcn.Arfcn.ClearDue | transceiver/transceiver.cpp:3683-3729 | The whole part under the TX mutex: queue, expired list, table, store, counters, result and ownership. |
| Arfcn.Arfcn.GetBurst | transceiver/transceiver.cpp:3678-3742 | The burst returned, whether the caller owns it, and the whole new state. |
| Downlink.Passed | transceiver/transceiver.cpp:3615-3633 | The insertion walk passes bursts that are neither before the new one nor in its slot, and stops at the first that is. |
| Downlink.Later | transceiver/transceiver.cpp:3689-3693 | Where the send walk stops: all before are after the slot, the one there is at or before it. |
| QueueOrder.WindowMeansDescending | transceiver/transceiver.cpp:3615-3635 | Inside a window shorter than half a hyperframe the queue is strictly descending under the cyclic comparison and has one burst per slot. |
| QueueOrder.PassedInWindow | transceiver/transceiver.cpp:3615-3635 | Every burst passed on insertion is later than the new one and every other is not. |
| QueueOrder.LaterInWindow | transceiver/transceiver.cpp:3689-3693 | What the send walk passes is exactly what is after the slot being sent. |
| QueueOrder.InsertKeepsWindow | transceiver/transceiver.cpp:3615-3635 | Inserting where the walk stops keeps the window and the order. |
| QueueOrder.AcceptedDistance | transceiver/transceiver.cpp:3591-3614 | A burst passes both time checks of addBurst exactly if it lies 0 to 204 frames ahead of the TX time. |
| QueueOrder.AddedRefinesMap | transceiver/transceiver.cpp:3581-3635 | addBurst is a map insertion: it enqueues exactly if the burst is no filler, is in the acceptance window and its slot is free, and changes the queue in no other case. |
| QueueOrder.GotRefinesMap | transceiver/transceiver.cpp:3678-3728 | getBurst is a map lookup that removes the entry and everything before it and keeps everything after it. |
| DownlinkRuns.StepKeepsOrder | transceiver/transceiver.cpp:3581-3635 | Every step of every thread keeps the window invariant, also with a TX time read before the mutex was taken. |
| DownlinkRuns.QueueStaysOrdered | transceiver/transceiver.cpp:3581-3742 | In every interleaving the queue is strictly descending, has one burst per slot of the hyperframe and ends at most 204 frames past the TX time. |
| DownlinkRuns.InitialIsOrdered | transceiver/transceiver.cpp:3431-3455 | A new carrier satisfies the window invariant. |
| Ownership.SetFillerConserves | transceiver/transceiver.h:1103-1112 | Setting a burst not in the table loses and duplicates nothing. |
| Ownership.SetFillersConserves | transceiver/transceiver.cpp:3684-3687 | The same for a list of bursts. |
| Ownership.SetFillersCell | transceiver/transceiver.cpp:3411-3417 | After setting a list a cell holds the last burst of the list that maps to it, or what it held. |
| DownlinkRuns.AddedConserves | transceiver/transceiver.cpp:3591-3634 | addBurst puts the burst in exactly one of queue, expired list and store. |
| DownlinkRuns.RefilledConserves | transceiver/transceiver.cpp:3684-3728 | getBurst moves expired, due and older bursts into table, store or the caller's hands and loses none. |
| DownlinkRuns.StepConserves | transceiver/transceiver.cpp:3581-3742 | Every step keeps each burst in exactly one place. |
| DownlinkRuns.BurstsAreConserved | transceiver/transceiver.cpp:3581-3742 | Over any run every burst ever made, by parsing or by the shaper, is in exactly one of queue, expired list, filler table, store, sender, hand-over, shaper or reused object. |
| DownlinkRuns.InitialIsAccounted | transceiver/transceiver.cpp:3431-3455 | A new carrier satisfies the accounting. |
| DownlinkRuns.AddedCounts | transceiver/transceiver.cpp:3591-3634 | addBurst counts each burst once in total, once for its slot and once for its outcome. |
| DownlinkRuns.CountsAddUp | transceiver/transceiver.cpp:3591-3723 | Over any run: bursts received = enqueued + fillers + expired on receive + too far ahead + duplicates = sum over slots; enqueued = still queued + sent in their slot + expired on send. |
| DownlinkRuns.InitialIsCounted | transceiver/transceiver.cpp:3431-3455 | A new carrier satisfies the count equations. |
| FillerContents.CellAfter | transceiver/transceiver.cpp:3684-3728 | What each filler cell holds after getBurst, in order of precedence: last older burst, burst just sent, oldest expired burst, old content. |
| FillerContents.GotReturns | transceiver/transceiver.cpp:3678-3742 | Unshaped: the burst queued for exactly this slot; else null and a count on a synchronisation slot of carrier 0; else the filler cell or the default filler. |
| FillerContents.BorrowedStaysIff | transceiver/transceiver.cpp:3704-3723 | A burst returned without ownership is still in the filler table exactly if no older queued burst maps to its cell; else it has gone to the store. |
| FillerContents.SendAfterAnyRun | transceiver/transceiver.cpp:3581-3742 | Both of these after any run of the threads from a new carrier. |
| FillerMemory.LookupIff | transceiver/transceiver.cpp:3411-3417 | Two times use the same filler exactly if their timeslot numbers agree and their frames differ by a multiple of that slot's multiframe. |
| FillerMemory.EvictsIff | transceiver/transceiver.h:1103-1112 | Of two bursts set one after the other the first is evicted, and goes to the store, exactly if their times are congruent in that sense. |
| FillerMemory.ReachesIff | transceiver/transceiver.cpp:3411-3417 | With an unchanged multiframe a burst that was set is the filler of exactly the times congruent to its own. |
| FillerMemory.LastReachingIs | transceiver/transceiver.h:1103-1118 | The filler of a slot is the last burst set that reaches it, and there is none exactly if no setting does. |
| FillerMemory.AddedPlaces | transceiver/transceiver.cpp:3591-3634 | addBurst puts a filler, and a burst not 0 to 204 frames ahead, in front of the expired list; only a burst whose slot is taken goes to the store, and is destroyed if that holds 200; last time and per-slot counts. |
| FillerMemory.SendSets | transceiver/transceiver.cpp:3684-3723 | getBurst leaves in each place the last of the expired bursts, the burst due and the older ones that belongs there, or what was there. |
| FillerMemory.StepRemembers | transceiver/transceiver.cpp:3581-3742 | Every step of every thread keeps the filler table in agreement with the memory of all settings, and the expired list with what came as filler, late or too early since the last getBurst. |
| FillerMemory.EmptySlotSends | transceiver/transceiver.cpp:3730-3733 | After any run from a new carrier an empty slot sends the last burst ever set for its timeslot number and its place in the multiframe, and the default filler exactly if there is none. |
| FillerMemory.SyncSlotSends | transceiver/transceiver.cpp:3730-3741 | With nothing queued for it slot 0 of frames 1, 11, 21, 31 and 41 of the 51-multiframe of carrier 0 sends nothing and is counted as missed; no other slot is. |
| FillerMemory.RejectedIsSent | transceiver/transceiver.cpp:3591-3614 | A burst that came as a filler, late or too early is set by the next getBurst, and is what every empty slot it reaches sends from then on, unless a later setting reaches that slot. |
| FillerMemory.OlderDescend | transceiver/transceiver.cpp:3718-3723 | Of several bursts found out of date the earliest is set last. |
| FillerMemory.MultiframesStay | transceiver/transceiver.cpp:3480-3500 | Over every run a slot has 51 frames exactly for channels IV, V and VI, 102 exactly for VII, else 26. |
| SendLoop.SendLoop.Plan | transceiver/transceiver.cpp:1347-1371 | Where a pass starts sending and how many slots: it ends at the later of the TX time and radio time + latency + txSlots. |
| SendLoop.SendLoop.SendSlots | transceiver/transceiver.cpp:1372-1382 | The slots sent are consecutive and extend the chain. |
| SendLoop.SendLoop.Pass | transceiver/transceiver.cpp:1346-1388 | TX time becomes max(old TX time, radio time + latency + txSlots); slots strictly increase, none is before radio time + latency, gaps occur only at underruns; next clock update one second later. |
| SendLoop.SendLoop.Run | transceiver/transceiver.cpp:1306-1396 | The same over any sequence of clock readings: slots sent and TX time are the specified ones, and gaps are exactly where a pass began with a TX time behind the radio. |
| SendLoop.TxIsFurthestTarget | transceiver/transceiver.cpp:1346-1385 | The TX time is the furthest target any pass had, or the initial time. |
| SendLoop.TxNeverGoesBack | transceiver/transceiver.cpp:1346-1385 | The TX time never goes back. |
| SendLoop.ChainIncreases | transceiver/transceiver.cpp:1372-1382 | Any two slots sent, in whatever passes, are in strictly increasing order. |
| SendLoop.RadioAdvances | transceiver/transceiver.cpp:1326-1334 | With a clock that never goes back a pass takes a new reading exactly if the clock stood still since the last one used; else it uses the one at the end of the pass before. It never uses an older one. |
| SendLoop.ToldEverySecond | transceiver/transceiver.cpp:1383-1388 | The upper layer is told the time more than 217 * 8 slots after it was told last, and the TX time never gets further than that from the last time told. |
| EndToEnd.LoopDrivesScheduler | transceiver/transceiver.cpp:1346-1388 | Every run of send loop and scheduler together is a run of the scheduler: the loop never asks for a slot outside its window. |
| EndToEnd.StepWaits | transceiver/transceiver.cpp:3689-3703 | A queued burst waits until its slot and is found and returned in it. |
| EndToEnd.SentInItsSlot | transceiver/transceiver.cpp:1372-1382 | A queued burst whose slot is still to come and is not skipped by an underrun is sent in exactly that slot, whatever else is received meanwhile. |
| EndToEnd.InsertedWaitsIff | transceiver/transceiver.cpp:3581-3635 | A burst that is enqueued gets to wait for its slot exactly if that slot was not sent yet. |
| EndToEnd.ExpiresIff | transceiver/transceiver.cpp:3713-3728 | A slot sent counts expired bursts exactly if a queued burst has missed its slot, and none has afterwards. |
| EndToEnd.NoneExpiresIff | transceiver/transceiver.cpp:3713-3728 | Over a run the count of bursts expired on send stays the same exactly if at every slot sent all queued bursts were in time. |
| EndToEnd.PromptRunsExpireNothing | transceiver/transceiver.cpp:1346-1388 | It stays the same in every run without underruns and without bursts enqueued after their slot. |
| GenQueue.GenQueue.constructor | transceiver/transceiver.cpp:656-666 | A bounded queue starts empty with every place free and none used; an unbounded one with the semaphores as made. |
| GenQueue.GenQueue.TakeFree | transceiver/transceiver.cpp:675-677 | A token is taken exactly if there is one. |
| GenQueue.GenQueue.PostFree | transceiver/transceiver.cpp:698-708 | A posted token never takes the semaphore past the maximum. |
| GenQueue.GenQueue.TryAppend | transceiver/transceiver.cpp:668-688 | Appends exactly if fewer than the maximum are queued. |
| GenQueue.GenQueue.AppendWithToken | transceiver/transceiver.cpp:680-688 | Appends without looking at the count again. |
| GenQueue.GenQueue.InternalPop | transceiver/transceiver.cpp:742-752 | Takes the first object, keeps counter and flag right. |
| GenQueue.FirstInFirstOut | transceiver/transceiver.cpp:668-752 | In every interleaving objects come out in insertion order, the counter is the length and the flag says whether it is zero. |
| GenQueue.StepLoad | transceiver/transceiver.cpp:668-714 | Only an append without a token raises objects + tokens, by one. |
| GenQueue.LoadIsBounded | transceiver/transceiver.cpp:668-714 | Objects + free tokens stay within twice the maximum plus the tokens on their way at such appends. |
| GenQueue.AnyRunIsDisturbedBy | transceiver/transceiver.cpp:668-714 | In any interleaving at most one token per other adder and per taker is on its way. |
| QueuePeak.PeakIsBound | transceiver/transceiver.cpp:668-714 | In every interleaving objects + free tokens stay within the peak: the maximum without adders, twice the maximum without takers, else 2 * max + (adders - 1) + takers. |
| QueuePeak.PeakIsReached | transceiver/transceiver.cpp:668-714 | For every maximum and all sets of threads with an adder, some interleaving queues that many objects. |
| QueuePeak.SlackIsExact | transceiver/transceiver.cpp:668-714 | Among the runs with at most s tokens on their way when add appends at once the exact most is 2 * max + s, for every s the threads can bring about. |
| QueuePeak.TwiceTheMaximumCanBeExceeded | transceiver/transceiver.cpp:668-714 | For every maximum, one adder and one taker can queue more than twice as many objects. |
| QueuePeak.TwiceTheMaximumHoldsIff | transceiver/transceiver.cpp:668-714 | Objects + free tokens, and objects alone, stay within twice the maximum in every interleaving exactly if there is no taker or no adder. |
| GenQueue.WithoutMaximumOnlyInitialTokens | transceiver/transceiver.cpp:672-678 | Without a maximum every add waits for a token that nobody posts: no more objects enter than there were tokens. |
| QueueService.AddedGetsIn | transceiver/transceiver.cpp:668-688 | In every interleaving an object given to add was appended once its thread neither waits nor holds a token, unless that thread gave up. |
| QueueService.PostSignals | transceiver/transceiver.cpp:686-708 | After add has posted a token is there for a waiting taker until one is taken. |
| QueueService.UsedTokens | transceiver/transceiver.cpp:686-708 | Over every run each post is a token taken or still there, but for posts that found the semaphore at its maximum. |
| Signal.SkipZeros | transceiver/sigproc.cpp:139-171 | Samples that are zero add nothing to the convolution sum. |
| Signal.FoldedIsConv | transceiver/sigproc.cpp:217-237 | Folding both ends of the window gives the convolution for a palindromic pulse of odd length, or with a zero in the middle. |
| Signal.FoldsExactlyIff | transceiver/sigproc.cpp:184-237 | Every sample of every output is the convolution exactly if the pulse is such a palindrome. |
| Modulator.WIsSparse | transceiver/sigproc.cpp:459-502 | The prepared vector is zero off the oversampling grid and purely real or purely imaginary on it. |
| Modulator.SkipLandsOnGrid | transceiver/sigproc.cpp:149-163 | The skip leads to the next grid sample and passes only samples off the grid. |
| Modulator.NextOnGrid | transceiver/sigproc.cpp:164-169 | One step of the inner loop leads to the next grid sample. |
| Modulator.SignalProcessing.SetOversample | transceiver/sigproc.cpp:354-384 | Both ramp indices are in range for every oversampling, so ramping is never disabled. |
| Modulator.SignalProcessing.PrepareV | transceiver/sigproc.cpp:472-491 | Symbols at the grid samples with half amplitude before the first and 0.71 after the last. |
| Modulator.SignalProcessing.PrepareW | transceiver/sigproc.cpp:493-501 | Each grid sample rotated by a quarter turn more, padded with half a pulse on both sides. |
| Modulator.SignalProcessing.SparseSample | transceiver/sigproc.cpp:149-170 | The inner loop that skips zeros and adds one part only computes the full convolution sum. |
| Modulator.SignalProcessing.Modulate | transceiver/sigproc.cpp:130-171 | For all bits, oversamplings and pulses the optimized modulator produces the convolution. |
| Modulator.SignalProcessing.FoldedSample | transceiver/sigproc.cpp:226-236 | One output of the folded loop. |
| Modulator.SignalProcessing.Convolution | transceiver/sigproc.cpp:189-237 | The output length and every output, also for an empty or too long pulse. |
| Modulator.SignalProcessing.ModulateCommon | transceiver/sigproc.cpp:173-181 | For folding pulses the general modulator produces the same vector as the optimized one. |
| Pulses.GridSample | transceiver/sigproc.cpp:459-501 | Grid sample k of w is the level of symbol period k times the k-th power of the imaginary unit, for complex multiplication defined on its own. |
| Pulses.QuarterFurther | transceiver/sigproc.cpp:493-500 | From one period to the next the sample turns by a quarter ahead, apart from its level. |
| Pulses.RampRatios | transceiver/sigproc.cpp:472-491 | The first symbol is real, 1 for a set bit and -1 for a clear one; half of it, a quarter turn behind, comes before it, and 0.71 of the sample of period 151, a quarter turn ahead, after that. |
| Pulses.ModulatedIsSumOfPulses | transceiver/sigproc.cpp:130-171 | Every sample of a burst is the sum over the 157 symbol periods of the pulse, scaled by the level and turned by a quarter per period. |
| Correlation.CorrSumClip | transceiver/sigproc.cpp:416-456 | Taps outside the window add nothing to the zero padded sum. |
| Correlation.ReadsInsideIff | transceiver/sigproc.cpp:416-456 | The three loops read inside the window and use existing taps only, exactly if the number of taps is odd or the signal length even. |
| Correlation.Row | transceiver/sigproc.cpp:432-455 | One inner loop. |
| Correlation.Correlate | transceiver/sigproc.cpp:416-456 | Every output is the zero padded correlation sum. |
| Correlation.DotSumClip | transceiver/sigproc.cpp:592-642 | The same clipping for the equalizer sum. |
| Correlation.Equalize | transceiver/sigproc.cpp:592-642 | Every output is the real part of the zero padded correlation with the conjugate. |
| Correlation.EvenSumClip | transceiver/transceiver.cpp:3015-3061 | The same clipping for the sum over even taps. |
| Correlation.HalfBandTapsIff | transceiver/transceiver.cpp:3015-3061 | For even outputs the loops use exactly the even taps whose sample exists, if and only if half the filter length, rounded up, is even and the filter length odd or the signal length even. |
| Correlation.FilterStart | transceiver/transceiver.cpp:3034-3040 | The first loop. |
| Correlation.FilterMiddle | transceiver/transceiver.cpp:3045-3051 | The second loop. |
| Correlation.FilterEnd | transceiver/transceiver.cpp:3053-3061 | The third loop. |
| Correlation.BuildHalfBandFilter | transceiver/transceiver.cpp:3015-3061 | Every even output is the zero padded sum over the even taps. |
| Filters.CorrOfSample | transceiver/sigproc.cpp:416-456 | A single sample contributes to a correlation output exactly the tap that lies over it. |
| Filters.CorrAdds | transceiver/sigproc.cpp:416-456 | Outputs for a sum of signals add up; with the contribution of one sample this determines every output. |
| Filters.DotOfSample | transceiver/sigproc.cpp:592-642 | A single sample contributes to an equalizer output the real part of its product with the conjugate of the tap over it. |
| Filters.DotAdds | transceiver/sigproc.cpp:592-642 | Equalizer outputs for a sum of signals add up. |
| Filters.EvenOfSample | transceiver/transceiver.cpp:3015-3061 | A single sample contributes to a half band output the tap over it if that is even, and nothing otherwise. |
| Filters.EvenAdds | transceiver/transceiver.cpp:3015-3061 | Half band outputs for a sum of signals add up. |
| SampleVector.CopyForward | transceiver/sigproc.h:773-783 | Copying from the start is a move when the destination is before the source or apart from it. |
| SampleVector.CopyBackward | transceiver/sigproc.h:785-791 | Copying from the end is a move when the destination is not before the source. |
| SampleVector.CopySlice | transceiver/sigproc.h:766-795 | For every overlap the destination receives the old source, all else is unchanged, and the count moved is the clipped length. |
| SampleVector.Reset | transceiver/sigproc.h:796-812 | Exactly the stated range is cleared. |
| SampleVector.Compensate | transceiver/transceiver.cpp:2731-2741 | data[i] = old[i + toa], zero where that is out of range, for every timing error up to the length. |
| SampleVector.ShiftBack | transceiver/transceiver.cpp:2731-2741 | Shifting there and back restores what never left the burst and clears the rest. |
| A5.TableIsParity | mbts/A53/a5.c:120-121 | The 4-bit table is the parity of its index. |
| A5.ParityLinear | mbts/A53/a5.c:114-122 | The folded parity is additive over GF(2). |
| A5.ClockLinear | mbts/A53/a5.c:142-146 | One forced clock is linear over GF(2). |
| A5.LoadLinear | mbts/A53/a5.c:210-234 | Loading a bit string into a register is linear over GF(2). |
| A5.DifferenceRises | mbts/A53/a5.c:142-146 | The highest bit in which two registers differ moves up by one per step. |
| A5.FirstDifference | mbts/A53/a5.c:225-234 | Two strings of at most 22 bits leave a top difference at a place given by their first difference. |
| A5.CountRoundTrip | mbts/A53/a5.h:43-50 | The frame number is recovered from COUNT by the formula of section 4.3.3 of GSM 05.02. |
| A5.CountInjective | mbts/A53/a5.h:43-50 | Different frames of a hyperframe have different COUNT. |
| A5.CountBitsInjective | mbts/A53/a5.c:225-227 | Different counts differ in one of the 22 bits loaded. |
| A5.FramesDiffer | mbts/A53/a5.c:203-234 | After the same key two frames differ at the same place of the second and third register. |
| A5.Loaded1Injective | mbts/A53/a5.c:203-234 | For a fixed key two frames of a hyperframe always load different A5/1 states. |
| A5.Loaded2Injective | mbts/A53/a5.c:320-356 | So does A5/2, although four bits are forced to one after the load. |
| A5.LoadA51 | mbts/A53/a5.c:203-234 | The loops load 64 key bits, then 22 count bits. |
| A5.OutputBlock | mbts/A53/a5.c:243-247 | One output loop of 114 bits. |
| A5.A51 | mbts/A53/a5.c:203-254 | Downlink is bits 0 to 113 of the stream after 100 mixing clocks, uplink the next 114; either may be left out. |
| A5.LoadA52 | mbts/A53/a5.c:320-356 | The A5/2 loads and the forced bits. |
| KeyStream.FirstRegister | mbts/A53/a5.c:105-146 | One clock of the first register: 19 bits shift up, bits 13, 16, 17 and 18 are fed back. |
| KeyStream.SecondRegister | mbts/A53/a5.c:106-146 | The second: 22 bits, fed back from 20 and 21. |
| KeyStream.ThirdRegister | mbts/A53/a5.c:107-146 | The third: 23 bits, fed back from 7, 20, 21 and 22. |
| KeyStream.MovesIff | mbts/A53/a5.c:161-181 | A free-running step clocks a register exactly if its clock bit agrees with that of at least one other. |
| KeyStream.RunIs | mbts/A53/a5.c:161-181 | After n steps each register is its start clocked as often as it moved; together the three move at least 2 n times. |
| KeyStream.StreamBit | mbts/A53/a5.c:236-254 | Bit i of the stream is the sum of the top bits of the loaded registers, each clocked as often as it moves in 101 + i steps. |
| KeyStream.KeyBitIs | mbts/A53/a5.c:212-214 | The bit loaded at step i is bit i of the key read as one number, first byte highest. |
| KeyStream.ForcedBits | mbts/A53/a5.c:355-358 | A5/2 begins with one bit of each register set and all others as loaded. |
| Bits.PackIntoBits | mbts/A53/bits.c:93-107 | Packing sets exactly its own bit positions, at any offset and in either order. |
| Bits.UnpackPack | mbts/A53/bits.c:93-129 | Unpacking what was packed gives the bits back. |
| Bits.PackUnpack | mbts/A53/bits.c:93-129 | Packing what was unpacked changes nothing. |
| Bits.Ubit2Pbit | mbts/A53/bits.c:20-41 | The bytes of a bit string, the last one filled with zeros. |
| Bits.Pbit2Ubit | mbts/A53/bits.c:48-82 | The first bits of the bytes, nothing else written; asked for none it still writes one. |
| Bits.Ubit2PbitExt | mbts/A53/bits.c:93-107 | The loop writes exactly the stated positions and returns the last byte written plus one. |
| Bits.Pbit2UbitExt | mbts/A53/bits.c:118-129 | The loop reads exactly the stated positions. |
| Bits.UplinkBlock | mbts/A53/a5.c:413-415 | The shifted bytes hold bits 114 to 227 of the generated stream. |
| Bits.A54 | mbts/A53/a5.c:407-421 | Downlink is bits 0 to 113 and uplink bits 114 to 227 of the generated stream. |
| Tmsi.InitNnsf | nipc/nipc.js:201-216 | The settings are always consistent: 0 to 10 bits, a node that fits. |
| Tmsi.ExpandFields | nipc/nipc.js:229-230 | Top byte, node and local part of an expanded counter, each in its place. |
| Tmsi.SqueezeExpand | nipc/nipc.js:226-230 | Squeezing undoes expanding for every counter of 32 - bits bits. |
| Tmsi.TopBitsIff | nipc/nipc.js:231-232 | Both top bits are set exactly from counter 192 * 2^(24 - bits) on. |
| Tmsi.TmsiCarriesNode | roaming/roaming.js:1255-1262 | Every TMSI, whatever the last one, has the configured node where the registrar is looked up and not both top bits. |
| Tmsi.NthIs | nipc/nipc.js:219-234 | The k-th TMSI is the expansion of a counter that runs from 1 to 192 * 2^(24 - bits) - 1 and starts over. |
| Tmsi.RepeatsExactly | nipc/nipc.js:219-234 | Two calls return the same TMSI exactly if that number divides their distance. |
| Tmsi.Period | nipc/nipc.js:219-234 | The sequence has that period. |
| Tmsi.NextFromAny | nipc/nipc.js:226-232 | Whatever node the last TMSI carries the counter goes on by one; it starts over at 1 from 192 * 2^(24 - bits) on, but at 0 after the very last counter. |
| Tmsi.NextWithoutNode | nipc/nipc.js:228-232 | Without node bits the next TMSI is one more, or 1 if both top bits would be set; only after ffffffff it leaves 32 bits. |
| Tmsi.EightDigits | nipc/nipc.js:233 | A number is printed with exactly eight digits if and only if it fits 32 bits. |
| Tmsi.ParseHexToHex | nipc/nipc.js:221-233 | Parsing the printed TMSI gives the number back. |
| Tmsi.TmsiAllocator.NewTmsi | nipc/nipc.js:219-234 | The method returns and stores the specified next TMSI, which carries the node. |
| RpData.IsDigitIff | ybts.cpp:2387-2395 | A character has an index below 15 exactly if it is in the digit table. |
| RpData.DecodeEncode | ybts.cpp:2357-2422 | Decoding an encoded number keeps it whole if all characters are digits, else the longest valid prefix rounded down to even length. |
| RpData.DigitsSurviveIff | ybts.cpp:2357-2422 | It is the identity exactly on numbers made of digits only. |
| RpData.HeaderRoundTrip | ybts.cpp:2362-2404 | The plan survives; the type survives exactly if its code is below 4. |
| RpData.EncodeBcdNumber | ybts.cpp:2399-2422 | The octets written by the loop. |
| RpData.DecodeDigits | ybts.cpp:2370-2384 | The digits collected by the loop. |
| RpData.DecodeBcdNumber | ybts.cpp:2357-2385 | Digits, plan and type of an address. |
| RpData.BuildRpData | ybts.cpp:10101-10198 | Header, padded originator, empty destination and user data; nothing if an element is too long. |
| RpData.AddressFitsIff | ybts.cpp:10105-10120 | The last octet of the originator is inside the space allocated for it exactly if the caller is not empty. |
| RpData.NetworkMessage | ybts.cpp:2437-2467 | decodeRP on a message from the network: originator decoded, destination skipped. |
| RpData.MtSmsRoundTrip | ybts.cpp:10101-10198 | The decoded header of an MT SMS gives caller, plan and type (masked to two bits) and leaves exactly the user data; an empty caller comes back as "0". |
| RpMessages.AnyRpData | ybts.cpp:2437-2467 | From the mobile the destination is the party, from the network the originator; the user data is what is left. The type is the lowest three bits, the reference passed on. |
| RpMessages.OtherTypes | ybts.cpp:2444-2447 | Other types pass with their reference and the rest unread. |
| RpMessages.FailsIff | ybts.cpp:2440-2454 | -1 exactly for less than two octets, -2 exactly for a message from the mobile with nothing after the originator. |
| RpMessages.AddressTooLong | ybts.cpp:2455-2464 | An address longer than the message is not decoded and takes the rest. |
| HandoverState.ReadPrintedUe | ybts.cpp:5464-5494 | The user is read back exactly if IMSI and IMEI are free of ":" and the TMSI of spaces. |
| HandoverState.ReadPrintedCall | ybts.cpp:6709-6742 | One delimiter-free call is read back, but its called number stays in front of what follows. |
| HandoverState.ReadPrintedCalls | ybts.cpp:6956-6963 | Reading several calls stops after the first one with a called number. |
| HandoverState.ReadPrintedFront | ybts.cpp:3717-3728 | The fields before the calls are read back. |
| HandoverState.HandoverRoundTripIff | ybts.cpp:6947-6963 | With at most one call the whole state is restored, nothing left over, exactly if no field contains the character that ends it. |
| HandoverState.SeveralCallsIff | ybts.cpp:6733-6736 | With several calls all are restored exactly if every call but the last has an empty called number. |
| HandoverCode.LoadUe | ybts.cpp:5464-5488 | The constructor reads what the specification reads. |
| HandoverCode.LoadCall | ybts.cpp:6709-6742 | The constructor of a call, which discards the result of the last substr. |
| HandoverCode.LoadCalls | ybts.cpp:6956-6963 | The loop that reads one call after another. |
| HandoverCode.Load | ybts.cpp:6947-6963 | All readers one after another. |
| HandoverCode.PrintChannelCalls | ybts.cpp:7063-7072 | The active call first, the others in order, calls being released left out. |
| HandoverEdges.ReadCutShort | ybts.cpp:5464-5494 | A text that ends after the user, the traffic channel or the service access point restores what came before and the initial values for the rest; numbers are cut to eight bits. |
| HandoverEdges.OthersInOrder | ybts.cpp:7063-7072 | The active call is printed first, the others keep their order. |
| HandoverEdges.CarriedCalls | ybts.cpp:7063-7072 | Exactly the calls not being released are carried over, each once, the active one first. |
| HandoverEdges.RestoredCalls | ybts.cpp:6956-6963 | The target always restores the active call, and all that were carried exactly if none but the last has a called number. |
| CallClearing.ProgressKeepsLive | ybts.cpp:7085-7149 | Messages other than clearing ones send no REL, in any state, also one restored by a handover. |
| CallClearing.HangupStartsClearing | ybts.cpp:7427-7439 | Hanging up leaves Disconnect without REL or Release with one REL sent. |
| CallClearing.CheckedKeepsClearing | ybts.cpp:8561-8585 | A timer check keeps every call in Disconnect with no REL or Release with one or two. |
| CallClearing.HandledKeepsClearing | ybts.cpp:8383-8406 | So does any message from the mobile. |
| CallClearing.HandledAt | ybts.cpp:8383-8406 | Only the first call with that reference on that connection answers. |
| CallClearing.WithoutConnIsSubset | ybts.cpp:8588-8602 | Exactly the calls of a released connection go. |
| ClearingRuns.ListShrinks | ybts.cpp:8380-8602 | Every entry after a timer check, a message or a lost connection comes from an entry before. |
| ClearingRuns.ListIsAlwaysClearing | ybts.cpp:8544-8602 | Over every run of channels, list and mobiles a call in a channel has sent no REL and a call on the list is in Disconnect without one or in Release with one or two. |
| ClearingRuns.LeavesAfterThreeExpiries | ybts.cpp:8544-8602 | Over every run, whatever mobiles send, whatever calls share a reference and whenever connections are lost, the timer of a terminated call runs out at most three times, fewer while it is on the list. |
| ClearingRuns.ReleasedAtMostTwice | ybts.cpp:1506-1510 | Over every run, from its arrival in a channel on, at most two REL are sent for a call. |
| ClearingRuns.ThreeSweepsEmptyTheList | ybts.cpp:8561-8585 | While none is added, three checks at which all timers have run out empty the list. |
| CallClearing.Driver.AddTerminatedCall | ybts.cpp:8544-8558 | The call is appended and its timer is one second, whatever was set before. |
| CallClearing.Driver.CheckTerminatedCalls | ybts.cpp:8561-8585 | The loop does the specified check on every call. |
| CallClearing.Driver.FindTerminated | ybts.cpp:8383-8386 | The first call with that reference on that connection, or none. |
| CallClearing.Driver.HandleCC | ybts.cpp:8380-8407 | The message is answered by the specified call. |
| CallClearing.Driver.RemoveTerminatedCall | ybts.cpp:8588-8602 | The loop removes exactly the calls of the connection. |
| CallClearing.Channel.HandleCC | ybts.cpp:7085-7174 | The new state of the call, or its hand-over with one REL sent, or its end, for a call in any state. |
| CallClearing.Channel.Hangup | ybts.cpp:7404-7439 | Every call is handed over in a clearing state, in order; on a hard release all are dropped without that. |
| CallLife.OfferedCall | ybts.cpp:7114-7141 | A call offered to the mobile becomes active exactly if it was confirmed and, at some time after that, connected; it is received exactly if alerted after being confirmed and not active. |
| CallLife.ConnectedCall | ybts.cpp:7175-7181 | A call the mobile asked for becomes active, and its timer stops, exactly if the mobile acknowledges; no message moves a call in another state. |
| CallLife.ArrivesAs | ybts.cpp:7427-7439 | A call arrives on the list with one second: in Disconnect if it was active and the network hangs up, else in Release with the first REL sent. |
| CallLife.CheckedCall | ybts.cpp:8561-8585 | At a check with its timer run out a call in Disconnect sends REL 1 and one with REL 1 sends REL 2, each with the timer at now + T308; one with REL 2 goes, and only that. |
| CallLife.AnsweredCall | ybts.cpp:8383-8406 | DISCONNECT takes the first matching call from Disconnect to Release with one REL; RELEASE, completion, and DISCONNECT in Release end it; everything else leaves it as it is. |
| CallLife.LeavesIff | ybts.cpp:8380-8602 | A call leaves the list exactly by a lost connection, such a message, or its last expiry. |
| CallLife.ChecksAlone | ybts.cpp:8561-8585 | A call that only sees checks has sent as many further REL as its timer ran out, with the timer restarted each time, and leaves at exactly the third expiry if it came without REL, the second if with one, the first if with two. |
| Signalling.YbtsSignalling.SetConnToutCheck | ybts.cpp:1062-1067 | The cached minimum only goes down, and the flag goes up with it. |
| Signalling.YbtsSignalling.FindConn | ybts.cpp:4778-4811 | Nothing is found exactly if the id has no active entry and its released entry was not asked for, or there is none and none may be created; a released id is not created again. |
| Signalling.YbtsSignalling.CountUsage | ybts.cpp:4688-4721 | The usage counter, the flags and the idle timer it starts or stops. |
| Signalling.YbtsSignalling.SetConnUsage | ybts.cpp:4688-4721 | The same on the list and the cached minimum. |
| Signalling.YbtsSignalling.DropAt | ybts.cpp:4443-4471 | What happens to the entry at hand: kept, released with a timer, or deleted. |
| Signalling.YbtsSignalling.DropEntries | ybts.cpp:4443-4474 | The traversal, which stops at the first active entry, is the specified drop of the id. |
| Signalling.YbtsSignalling.DropConn | ybts.cpp:4439-4475 | Whole new state, and whether an active connection was dropped. |
| Signalling.YbtsSignalling.CheckConnTimers | ybts.cpp:4254-4273 | Timed out sessions are taken from an active entry, its other timers are seen again. |
| Signalling.YbtsSignalling.CheckEntries | ybts.cpp:4239-4274 | The loop with removal in place: list, fresh minimum and ids put aside. |
| Signalling.YbtsSignalling.CheckTimers | ybts.cpp:4230-4277 | Whole new state of the locked part of checkTimers. |
| Signalling.YbtsSignalling.ConnUeChanged | ybts.cpp:4880-4888 | Exactly the other active connections with the same UE are put aside to be dropped. |
| ConnRuns.OneEntryPerId | ybts.cpp:4792-4811 | Over every run an id and an object are in the list at most once. |
| ConnRuns.EntriesAge | ybts.cpp:3850-3873 | Over every run an entry keeps its id, never becomes active again once released, and keeps its UE once set. |
| ConnRuns.ReleasedIdIsNotRecreated | ybts.cpp:4800-4810 | While a released entry is in the list there is no other entry of its id and none can be created. |
| ConnRuns.PassCovers | ybts.cpp:4236-4274 | The minimum a pass builds covers every timer it leaves running. |
| ConnRuns.StepCache | ybts.cpp:1062-1067 | Every critical section keeps each running timer covered by the minimum, put aside, or about to be announced. |
| ConnRuns.NoTimerIsForgotten | ybts.cpp:4206-4277 | The same over every run, and the flag is set exactly if the minimum is not zero. |
| ConnRuns.PassServesAll | ybts.cpp:4230-4277 | After a pass, even one cut short by the cached minimum, no due release, SS or authentication timer is left and every due idle connection is put aside. |
| ConnRuns.MinimumIsExact | ybts.cpp:1062-1067 | When no thread has anything in hand, the minimum is not later than any timer of any entry. |
| TimerPass.PutAsideIff | ybts.cpp:4237-4271 | An id is put aside exactly if the cached minimum has come and the list holds an active entry of it whose idle timer runs and is due, or any that runs when exiting. |
| TimerPass.PassOnEntry | ybts.cpp:4242-4273 | A released entry is deleted exactly if due; a session ends exactly if its timer runs and is due, authentication not by exiting; an entry with nothing due is unchanged. |
| TimerPass.AsideIff | ybts.cpp:4237-4271 | Over the runs the cached minimum never hides an idle connection that is due. |
| TimerPass.IdleLife | ybts.cpp:4268-4273 | An idle connection left alone is put aside by the first pass at or after its timer and by none before, whatever happens to the others. |
| TimerPass.ReleasedLife | ybts.cpp:4242-4252 | A released connection stays in the list until exactly the first pass at or after its timer. |
| TimerPass.UseMovesTimer | ybts.cpp:4706-4719 | Taking a use stops the idle timer; giving back the last starts it unless it runs, with the longer interval exactly if the connection is marked for SMS. |
| TimerPass.MarksIff | ybts.cpp:4692-4704 | The mark for MT SMS stays once set; that for a CM service request stays until taken back or until MO SMS begins. |
| TimerPass.DropOnEntry | ybts.cpp:4439-4475 | A dropped connection is released until now plus the interval, unused and without authentication, or deleted at once if nobody is to be told; entries of other ids stay. |
| ConnOwners.CollectedIff | ybts.cpp:4870-4891 | The search collects exactly the ids of the other active connections with the UE. |
| ConnOwners.StepOwned | ybts.cpp:4870-4891 | Every step keeps: two active connections share a UE only while one of them is being searched for or dropped. |
| ConnOwners.UesStayOwned | ybts.cpp:4870-4891 | The same over every run. |
| ConnOwners.NoSharedUe | ybts.cpp:3850-3863 | After every setUE is completed no two active connections share a UE. |
| IdleDrop.UsageIsTallied | ybts.cpp:4706-4719 | Over every run the usage of an active connection is what its users took less what they gave back. |
| IdleDrop.CollectedIsUnused | ybts.cpp:4268-4271 | A connection put aside by the pass is not in use at that moment. |
| IdleDrop.TallyIff | ybts.cpp:4706-4719 | A usage counter that stops at zero is above it exactly if what it began with is not all given back, or more was taken than given back from some moment on. |
| IdleDrop.IdleDropHitsUsedIff | ybts.cpp:4282-4287 | The drop that follows hits a connection in use exactly if, from some moment since it was put aside, more uses were taken than given back. |
| IdleDrop.UntouchedIsSpared | ybts.cpp:4282-4287 | So it spares every connection in use if nobody took a use in between. |
| IdleDrop.UsedConnectionIsDropped | ybts.cpp:4282-4287 | It can happen: a run in which a connection in use is released by its idle timeout. |

## Left out

- Times as 64-bit numbers: GSM time and microsecond timers are unbounded naturals; the
  wrap of a 64-bit slot counter and of the 32-bit usage counter is not modelled. Timeslot
  numbers inside the hyperframe and the cyclic difference follow the code's arithmetic.
- Bursts, calls and connections as objects: they are values with an identity kept in the
  lists that own them; only the lists, tables, counters and caches are updated in place.
- DownlinkRuns.SetSlot: a change of a timeslot's type is one step, although the code makes
  it without the TX mutex.
- Arfcn.Arfcn.GetBurst: the shaped burst is a parameter (that the shaper can parse into a
  stored object is a step of DownlinkRuns), and the lookup in the filler table,
  which follows the mutex, is one step with what precedes it; only the send thread uses the
  table.
- Removal and reconfiguration of carriers, the debug check of burst types in getBurst.
- SendLoop.SendLoop.Run: a failing sendBurst, loopback, and clock readings half a hyperframe
  or more away from the TX time.
- GenQueue.FirstInFirstOut: clear, which empties the list and refills the semaphores, is not
  a step; waiting with a timeout is a step that may be repeated; thread exit is giving up.
- Semaphores, lists, string extraction and mutexes come from the Yate library and are not
  part of this model; a semaphore saturates at its maximum, extraction of a number consumes
  the leading decimal digits, extraction of a text everything up to and including it.
- Signal, Modulator, Correlation: samples are reals, so float rounding, the generated
  pulse tables and the frequency shift tables are left out; the pulse and the filter taps are
  parameters.
- Correlation.Equalize: the channel estimate is used through its first `in2len` samples.
- TOA estimation, power and noise decisions: only the shift itself is modelled.
- A5.LoadA52: mixing and output of A5/2.
- Bits.A54: the KASUMI core that generates the stream; A5/3, which only repeats the key.
- Tmsi.TmsiAllocator.NewTmsi: script numbers are wide enough for every operation used; who
  asks for a new TMSI and where it is stored is left out.
- RpData.MtSmsRoundTrip: the TPDU is a parameter (GSM 7-bit and UCS-2 text, time stamps);
  plans and types are names, not numbers given as text.
- RpData.NetworkMessage: an RP-DATA message from the network that ends after its reference,
  where the code reads one octet past the end.
- HandoverState.ReadCalls: a separator at the very end of the text, which is never printed;
  negative or hexadecimal numbers.
- Allocation of buffers in the codecs.
- CallClearing: what is sent to the mobile besides REL, and reasons.
- ConnRuns: paging, the list of connections being moved away when signalling stops, and SMS
  and GPRS lists; a connection's authentication and its timer are one; T3260, idle and
  release intervals are parameters.
- Signalling.YbtsSignalling.CheckTimers: the unlocked look at the flag is one step with the
  section that follows it.
- Heartbeat and handshake timers, which have no cached minimum.
- Sockets, XML, logging, the radio device, MAP, SIP headers, IVR, configuration scripts:
  no property that spans several operations.
