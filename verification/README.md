# Verified model of the fan-out race pipeline

A Dafny model of the streaming pipeline behind the sender race, and of the joiners and
statistics that measure it, with proofs over every run of each component.

The pipeline: entries of each slot reach the merger from two sources in any order; the
merger passes on the first copy of each; the PoH supervisor puts each slot's entries back
in order, skips gaps after a timeout and closes each slot with one terminal event; the
trigger engine fires scheduled (slot, tick) pairs once and keeps the slot-hash cache from
which the next durable nonce is derived. Beside it stand the entry correlator, the
single-sender finalizer, the fan-out recorder, the observer's PoH arithmetic, the ordering
report, FEC set completion, and the Bradley-Terry and Cochran's Q statistics.

`dafny verify dfyconfig.toml` checks the whole project.

## How it is organised

Each imperative component is a class whose methods are proved equal to a step function on
plain values (`Receive`, `Accept`, `Consume`, ...). A run is a sequence of steps: arrivals,
sweeps at arbitrary instants, and a final flush. The theorems are about all such sequences.
Where a guarantee spans slots or keys, the run is projected to one slot or key
(`SlotsAreIndependent`, the `View` machines), and what every step keeps is lifted to runs by
one induction principle per component (`PohTraces.AdvanceKeeps`, `PohSafety.RunKeeps`,
`Recorder.FinishKeeps`).

| files | component |
|---|---|
| Entries.dfy | shared values, ordered maps |
| PohSlots.dfy, PohTraces.dfy, PohRuns.dfy | one slot of the supervisor, what its output means, whole runs |
| PohSafety.dfy, PohAccounting.dfy, PohWaits.dfy, Reordering.dfy | safety, accounting, waiting times and order independence of supervisor runs |
| PohSupervisor.dfy | the supervisor program |
| Merger.dfy, SlotHashCache.dfy, TriggerEngine.dfy, EndToEnd.dfy | the other stages, and supervisor and engine composed |
| Correlator.dfy, Finalizer.dfy, Recorder.dfy | the joiners |
| PohArithmetic.dfy, OrderingReport.dfy, FecTracker.dfy | hash and tick accounting, ordering report, FEC sets |
| BradleyTerry.dfy, CochransQ.dfy | statistics on single-winner data |

Modelling conventions: instants are natural numbers and every step carries its own; an
output channel is the sequence of what was sent; hashes, signatures and shred payloads are
opaque; counters are unbounded unless the source's width matters to a result, in which case
saturation or wrap-around is written out (u8 ticks, u32 distances and shred counts, u64
hash sums and trigger ids). A `HashMap` is visited in an arbitrary order.

## Where the code falls short of its documentation

Each of these has a lemma with a failing input and one that says exactly when the code keeps
the promise.

- The supervisor's "never both, never neither" terminal event holds exactly while a slot's
  state is created once; an arrival behind the retention window creates it again.
- The merger's "exactly once" holds exactly while no key comes back after leaving the
  200-slot window; likewise the trigger engine with its 256-slot fired set.
- The recorder can attribute a match to the wrong attempt once a live key is registered
  again with another signature.
- The ordering report promises to count an arrival for a sealed slot as out of order
  against the frozen record; the code opens a fresh record and reports the slot again.
- The ordering report never stores an entry of index 0 as the last entry, so a slot with
  one transaction-carrying entry is reported as ending on a tick.
- FEC completion counts data shreds, so a shred outside the announced range can complete a
  set that has a hole.
- The tick distance is 32-bit and wraps.

## Model

| member | source | states |
|---|---|---|
| `PohSafety.EverySlotIsToldOnce` | crates/tick-trigger-fan-out-bench/src/poh_supervisor.rs:205-536 | For every run of arrivals, sweeps and final flush in which the slot state is created once: the slot's output is indices 0, 1, 2, ... each once as Entry or Missing with tick number min(64, zero-transaction entries so far + late ticks so far), exact hash sum and uncertainty flag, then one terminal event, complete iff 64 ticks (late ones included) were counted, and nothing after; with a positive buffer cap it ends on an Entry whose hash the terminal event carries |
| `PohSafety.EveryPrefixIsOrdered` | crates/tick-trigger-fan-out-bench/src/poh_supervisor.rs:205-536 | At every moment of every such run, what a slot has sent is an ordered body or a finished slot |
| `PohSafety.TerminalsCountOpenings` | crates/tick-trigger-fan-out-bench/src/poh_supervisor.rs:205-239 | In every run without exception, a slot gets exactly as many terminal events as its state was created, a number computed from the inputs alone |
| `PohSafety.ToldOnceExactlyWhenOpenedOnce` | crates/tick-trigger-fan-out-bench/src/poh_supervisor.rs:416-470 | "Never both, never neither": a slot is told in one ordered piece with one terminal event if and only if its state is created exactly once |
| `PohSafety.RetentionOpensOnce` | crates/tick-trigger-fan-out-bench/src/poh_supervisor.rs:467-469 | If no arrival finds the frontier seal_lag + 10 slots past its slot (slot 0: seal_lag), no slot state is created twice |
| `PohSafety.ArrivedIsOpened` | crates/tick-trigger-fan-out-bench/src/poh_supervisor.rs:242-247 | In every run the state of a slot has been created if and only if some entry of it arrived |
| `PohSafety.RetainedSlotIsToldOnce` | crates/tick-trigger-fan-out-bench/src/poh_supervisor.rs:205-239 | Under the same hypothesis every slot of which some entry arrived is told once, in full |
| `PohSafety.ForgottenSlotIsToldTwice` | crates/tick-trigger-fan-out-bench/src/poh_supervisor.rs:467-469 | A run in which another entry of a slot arrives behind the retention window and reopens the slot, which then gets two terminal events |
| `PohSafety.SlotsAreIndependent` | crates/tick-trigger-fan-out-bench/src/poh_supervisor.rs:205-239 | Each step changes each slot as if the other slots were not there |
| `PohSafety.RunKeeps` | crates/tick-trigger-fan-out-bench/src/poh_supervisor.rs:205-239 | Induction principle: what every step keeps of one slot holds after every run |
| `PohSafety.SweepLeavesNothingStale` | crates/tick-trigger-fan-out-bench/src/poh_supervisor.rs:416-470 | After a sweep every unsealed slot has an empty buffer, or a lowest buffered index above the cursor and younger than the timeout, and no slot at or below max_slot - seal_lag is unsealed |
| `PohSafety.BufferStaysBounded` | crates/tick-trigger-fan-out-bench/src/poh_supervisor.rs:262-279 | In every run no buffer exceeds the cap |
| `PohSlots.Advance` | crates/tick-trigger-fan-out-bench/src/poh_supervisor.rs:296-313 | Draining and gap skipping terminate, stop only at an empty buffer or a gap that may not be skipped, and move the cursor by one per event sent |
| `PohTraces.AdvanceKeeps` | crates/tick-trigger-fan-out-bench/src/poh_supervisor.rs:296-313 | Induction principle: what every move of the cursor keeps holds after draining, gap skipping and flushing |
| `PohTraces.ArriveTells` | crates/tick-trigger-fan-out-bench/src/poh_supervisor.rs:242-294 | An arrival, on whichever branch, keeps the slot state equal to what its output says (cursor, emitted and missing counts, hash sum, tick count, uncertainty) |
| `PohTraces.SealFinishes` | crates/tick-trigger-fan-out-bench/src/poh_supervisor.rs:472-536 | Sealing turns any sound slot into a finished one: pending flushed in order, totals, last hash and terminal kind as the output says |
| `PohTraces.EveryEventCounted` | crates/tick-trigger-fan-out-bench/src/poh_supervisor.rs:347-405 | total_emitted + missing_count = the cursor |
| `PohAccounting.EveryArrivalIsAccountedFor` | crates/tick-trigger-fan-out-bench/src/poh_supervisor.rs:248-293 | In every run: arrivals = emitted at once + emitted reordered + dropped at capacity + dropped below the cursor + dropped after seal + still buffered + overwritten in the buffer by the same index |
| `PohAccounting.FlushAccountsForEverything` | crates/tick-trigger-fan-out-bench/src/poh_supervisor.rs:232-239 | After the final flush nothing is buffered and the same balance holds |
| `Reordering.ReorderingIsInvisible` | crates/tick-trigger-fan-out-bench/src/poh_supervisor.rs:242-379 | If the indices 0..n-1 of a slot each arrive once, in any order, with no seal in between, no sweep that finds the first early entry timed out and no early entry that finds the buffer full (all three read off the arrivals), the entries sent are those n in order, with their true tick numbers, cumulative hashes and certainty; before all have arrived, the entries sent are the first ones |
| `Reordering.InOrderIsClean` | crates/tick-trigger-fan-out-bench/src/poh_supervisor.rs:242-313 | In-order delivery is such a delivery, however long it takes, however many sweeps fall into it and however small the cap |
| `Reordering.FlushIsInvisible` | crates/tick-trigger-fan-out-bench/src/poh_supervisor.rs:232-239 | After the final flush the entries shown of such a slot are the same, complete and in order |
| `Reordering.AnyTwoOrdersLookTheSame` | crates/tick-trigger-fan-out-bench/src/poh_supervisor.rs:242-379 | Two such runs, whatever else happens in them, send the same entries of the slot up to waiting times and reorder flags |
| `PohSupervisor.Supervisor.EmitEntry` | crates/tick-trigger-fan-out-bench/src/poh_supervisor.rs:315-379 | Sends the entry with the updated counters of its slot state; counters follow the output |
| `PohSupervisor.Supervisor.EmitMissing` | crates/tick-trigger-fan-out-bench/src/poh_supervisor.rs:381-414 | Sends the gap marker at the cursor and moves past it |
| `PohSupervisor.Supervisor.DrainConsecutivePending` | crates/tick-trigger-fan-out-bench/src/poh_supervisor.rs:296-313 | The drain loop is Advance with no gap skipped |
| `PohSupervisor.Supervisor.TimeOutGaps` | crates/tick-trigger-fan-out-bench/src/poh_supervisor.rs:422-452 | The sweep loop of one slot is Advance skipping stale gaps |
| `PohSupervisor.Supervisor.FlushPending` | crates/tick-trigger-fan-out-bench/src/poh_supervisor.rs:483-504 | The flush loop of seal_slot is Advance skipping every gap |
| `PohSupervisor.Supervisor.SealSlot` | crates/tick-trigger-fan-out-bench/src/poh_supervisor.rs:472-536 | Flush, terminal event by tick count, sealed flag |
| `PohSupervisor.Supervisor.Process` | crates/tick-trigger-fan-out-bench/src/poh_supervisor.rs:242-294 | One arrival does what Receive says to the slot table, the output and all drop counters |
| `PohSupervisor.Supervisor.Sweep` | crates/tick-trigger-fan-out-bench/src/poh_supervisor.rs:416-470 | The three phases do what SweepAll says |
| `PohSupervisor.Supervisor.RunLoop` | crates/tick-trigger-fan-out-bench/src/poh_supervisor.rs:205-239 | The whole loop over any steps followed by the final flush ends in the state and output of Finish(Run), and the emission counters are the numbers of events of each kind in that output |
| `Merger.WindowedIsUnboundedExactly` | crates/tick-trigger-fan-out-bench/src/merger.rs:194-274 | Emissions and counters equal those of a never-evicting deduplicator if and only if no arrival repeats a key that has left the window |
| `Merger.WindowSuffices` | crates/tick-trigger-fan-out-bench/src/merger.rs:194-274 | If no arrival is more than 200 slots behind the frontier, the merger is unbounded first-seen-wins deduplication |
| `Merger.EmissionsAreFirstsAndForgotten` | crates/tick-trigger-fan-out-bench/src/merger.rs:194-248 | In every run: emissions = distinct keys + arrivals of forgotten keys |
| `Merger.ReferenceEmitsEachKeyOnce` | crates/tick-trigger-fan-out-bench/src/merger.rs:194-248 | The reference emits every key ever reported, and none twice |
| `Merger.EveryArrivalIsCounted` | crates/tick-trigger-fan-out-bench/src/merger.rs:163-248 | In every run: received by both sources = first by either + confirmed + duplicates |
| `Merger.ComebackIsEmittedTwice` | crates/tick-trigger-fan-out-bench/src/merger.rs:250-273 | A run outside the window in which one entry is emitted twice |
| `Merger.EntryMerger.EvictBelow` | crates/tick-trigger-fan-out-bench/src/merger.rs:250-273 | Prefix eviction through the slot index leaves exactly what filtering the whole map by slot >= cutoff leaves, and the index still lists exactly the map's keys, each hash once |
| `Merger.EntryMerger.Process` | crates/tick-trigger-fan-out-bench/src/merger.rs:194-274 | One arrival does what Accept says, and index and map keep describing the same keys |
| `Merger.EntryMerger.RunLoop` | crates/tick-trigger-fan-out-bench/src/merger.rs:150-182 | Over any arrivals the program ends in the state of Run |
| `SlotHashCache.CacheIsWindowOfHistory` | crates/tick-trigger-fan-out-bench/src/nonce/local_compute.rs:52-67 | After any writes the cache is the unbounded last-write-wins map restricted to slots >= highest - window |
| `SlotHashCache.RepeatedWriteIsInvisible` | crates/tick-trigger-fan-out-bench/src/nonce/local_compute.rs:52-72 | Writing a slot's latest hash again, however much later, changes nothing |
| `SlotHashCache.LookupMissesNothing` | crates/tick-trigger-fan-out-bench/src/nonce/local_compute.rs:79-93 | A lookup whose range lies inside the window answers as the unbounded history would |
| `SlotHashCache.Cache.RecordEntry` | crates/tick-trigger-fan-out-bench/src/nonce/local_compute.rs:52-67 | Insert and evict: the new map is the rolled old map with the write |
| `SlotHashCache.Cache.LatestBefore` | crates/tick-trigger-fan-out-bench/src/nonce/local_compute.rs:79-93 | Returns the greatest recorded slot in [landed - lookback, landed - 1] with its hash, or nothing if there is none |
| `TriggerEngine.CompactionIsInvisibleExactly` | crates/tick-trigger-fan-out-bench/src/trigger_engine.rs:186-253 | The engine fires exactly the triggers of a never-forgetting engine if and only if no entry repeats a scheduled key whose slot a compaction since its last coming has left behind; compactions are computed from the slots of the stream alone |
| `TriggerEngine.WindowSuffices` | crates/tick-trigger-fan-out-bench/src/trigger_engine.rs:186-253 | If no entry is more than 256 slots behind the highest, compaction is invisible |
| `TriggerEngine.TriggersAreFirstsAndForgotten` | crates/tick-trigger-fan-out-bench/src/trigger_engine.rs:186-253 | In every run: triggers = reference triggers + repeats of forgotten keys |
| `TriggerEngine.ReferenceFiresOnce` | crates/tick-trigger-fan-out-bench/src/trigger_engine.rs:186-253 | The reference fires a scheduled key once it is reached, and once only |
| `TriggerEngine.FiredIsKept` | crates/tick-trigger-fan-out-bench/src/trigger_engine.rs:234-253 | The fired set holds exactly the scheduled keys that came and that no compaction since then has left behind |
| `TriggerEngine.ComebackFiresTwice` | crates/tick-trigger-fan-out-bench/src/trigger_engine.rs:186-253 | A stream outside the window on which a scheduled tick fires twice |
| `EndToEnd.RunFiresTickTwice` | crates/tick-trigger-fan-out-bench/src/trigger_engine.rs:186-253 | A supervisor run (a tick entry of slot 1, slot 300, a sweep, the same entry again) on whose output the engine fires tick 1 of slot 1 twice |
| `TriggerEngine.TriggerIdsCollideExactly` | crates/tick-trigger-fan-out-bench/src/trigger_engine.rs:38-46 | Two (slot, tick) pairs share a trigger id iff the ticks agree and the slots agree in their low 56 bits |
| `TriggerEngine.Engine.Check` | crates/tick-trigger-fan-out-bench/src/trigger_engine.rs:186-253 | Schedule check, duplicate suppression and fired-set compaction for one entry |
| `TriggerEngine.Engine.Handle` | crates/tick-trigger-fan-out-bench/src/trigger_engine.rs:170-253 | One event does what Consume says to triggers, fired set, counters and cache |
| `TriggerEngine.Engine.RunLoop` | crates/tick-trigger-fan-out-bench/src/trigger_engine.rs:149-256 | Over any event stream the program ends in the state of Run and the cache in CacheAfter |
| `TriggerEngine.FiresExactly` | crates/tick-trigger-fan-out-bench/src/trigger_engine.rs:186-253 | Every stream: a scheduled key fires once if it comes at all, and once more for each entry that repeats it after a compaction dropped it; a key that is not scheduled never fires |
| `EndToEnd.ScheduledTickFiresExactlyOnce` | crates/tick-trigger-fan-out-bench/src/trigger_engine.rs:186-253 | Supervisor, with its final flush, and engine composed: a scheduled (slot, t) of a slot delivered complete in any order fires first on the t-th zero-transaction entry if t is at most min(64, ticks of the slot), and exactly once iff no entry of that slot and tick comes after a compaction dropped it, for which it is enough that the slot stays within 256 slots of the front; otherwise it never fires |
| `EndToEnd.TerminalWriteIsInvisible` | crates/tick-trigger-fan-out-bench/src/trigger_engine.rs:170-197 | In every run, the cache write of the terminal event of a slot told once changes nothing |
| `Correlator.EveryInterleavingJoins` | crates/entry-comparator/src/correlator.rs:103-203 | If each source reports a key at most once and nothing expires before its partner, every interleaving with sweeps and final flush gives the same record: BOTH, YS_ONLY, SS_ONLY or none by who reported it |
| `Correlator.JoinsExactlyWhenInTime` | crates/entry-comparator/src/correlator.rs:103-146 | The join is right if and only if the partner came before a sweep expired the first; otherwise two one-sided records |
| `Correlator.BothRecordsMatch` | crates/entry-comparator/src/correlator.rs:148-203 | In every run, final flush included, every BOTH record pairs two observations of its key, so hash_match is true, and every other record carries exactly the side it is named after |
| `Correlator.EntryCorrelator.Emit` | crates/entry-comparator/src/correlator.rs:148-203 | One record for a one-sided or complete state, seen by its key alone |
| `Correlator.EntryCorrelator.Handle` | crates/entry-comparator/src/correlator.rs:103-125 | An arrival does what the per-key machine says to its key, nothing to others; stored states stay one-sided |
| `Correlator.EntryCorrelator.SweepWith` | crates/entry-comparator/src/correlator.rs:127-146 | A sweep emits and removes exactly the expired states of every key |
| `Correlator.EntryCorrelator.RunLoop` | crates/entry-comparator/src/correlator.rs:60-101 | The whole loop and final flush follow the per-key machine for every key |
| `Finalizer.EverySentSignatureIsFinalizedOnce` | crates/tick-trigger-bench/src/writer.rs:64-156 | Every interleaving: a signature sent once and matched at most once ends with exactly one final record, OBSERVED with its match if that came before expiry and UNKNOWN_PENDING (and queued for fallback) otherwise; one never sent ends with none |
| `Finalizer.OutcomeIsTrueExactlyWhenInTime` | crates/tick-trigger-bench/src/writer.rs:64-156 | The record says OBSERVED iff the match stream holds the signature, exactly when no match came after its send had expired |
| `Finalizer.WriterFinalizer.HandleSend` | crates/tick-trigger-bench/src/writer.rs:94-115 | A send is joined with an early match or stored |
| `Finalizer.WriterFinalizer.HandleMatch` | crates/tick-trigger-bench/src/writer.rs:116-136 | A match finalises its stored send or is kept as early |
| `Finalizer.WriterFinalizer.SweepStale` | crates/tick-trigger-bench/src/writer.rs:139-150 | Exactly the expired sends are finalised as UNKNOWN_PENDING |
| `Finalizer.WriterFinalizer.FinalizeLoop` | crates/tick-trigger-bench/src/writer.rs:83-156 | The whole loop and exit flush follow the per-signature machine |
| `Recorder.EverySenderBalances` | crates/tick-trigger-fan-out-bench/src/recorder.rs:319-385 | Per sender, in every run before and after the flush: attempts = landed + send errors + unknown + live + registrations that replaced a live attempt |
| `Recorder.TheTotalBalances` | crates/tick-trigger-fan-out-bench/src/recorder.rs:319-385 | The same balance for the totals |
| `Recorder.TotalsAreSums` | crates/tick-trigger-fan-out-bench/src/recorder.rs:319-385 | In every run the totals are the per-sender sums, and landed triggers are attempted triggers |
| `Recorder.EveryRegistrationEndsOnce` | crates/tick-trigger-fan-out-bench/src/recorder.rs:461-621 | The records of a key, and then its live attempt, carry its registrations in order, each once, except those replaced while live |
| `Recorder.PairedThroughoutExactly` | crates/tick-trigger-fan-out-bench/src/recorder.rs:480-621 | sig_to_key and attempts are in bijection at every moment of a run if and only if no registration gives a live key another signature or a live signature another key |
| `Recorder.SignaturesStayPaired` | crates/tick-trigger-fan-out-bench/src/recorder.rs:461-621 | In such runs they are in bijection at the end and after the final flush too |
| `Recorder.RegisterPairedExactly` | crates/tick-trigger-fan-out-bench/src/recorder.rs:480-498 | One registration keeps the bijection iff it fits what is live |
| `Recorder.MatchesLandTheirOwnExactly` | crates/tick-trigger-fan-out-bench/src/recorder.rs:530-593 | In every run, each match that ends an attempt ends one that registered the matched signature, if and only if no match comes for an outstanding signature while the latest registration of the key that last registered it is live with another signature; outstanding and live are read off the registrations, failed sends, matches and sweeps |
| `Recorder.MatchLandsItsOwnAttempt` | crates/tick-trigger-fan-out-bench/src/recorder.rs:530-593 | In a run whose registrations all fit, a match lands the live attempt that registered its signature, and changes nothing if there is none |
| `Recorder.MappedIsOutstanding` | crates/tick-trigger-fan-out-bench/src/recorder.rs:480-593 | While matches land their own, sig_to_key holds exactly the signatures registered and since then neither matched nor given up with their attempt |
| `Recorder.AttemptsAreLive` | crates/tick-trigger-fan-out-bench/src/recorder.rs:480-621 | While matches land their own, attempts holds exactly the keys registered and since then neither matched, failed nor expired |
| `Recorder.RepeatedMatchIsHarmless` | crates/tick-trigger-fan-out-bench/src/recorder.rs:530-545 | A second match for an ended signature changes nothing, though its key is live again with another signature |
| `Recorder.ReusedKeyLandsTheWrongAttempt` | crates/tick-trigger-fan-out-bench/src/recorder.rs:480-593 | A run in which re-registering a live key makes a match for the old signature land the new attempt |
| `Recorder.FlushEndsEverything` | crates/tick-trigger-fan-out-bench/src/recorder.rs:461-478 | The final flush leaves nothing live |
| `Recorder.FanoutRecorder.HandleRegister` | crates/tick-trigger-fan-out-bench/src/recorder.rs:480-498 | Stores the attempt and signature and counts the attempt |
| `Recorder.FanoutRecorder.HandleSend` | crates/tick-trigger-fan-out-bench/src/recorder.rs:500-528 | Marks the attempt sent, or ends it as SendError |
| `Recorder.FanoutRecorder.HandleMatch` | crates/tick-trigger-fan-out-bench/src/recorder.rs:530-593 | Ends the attempt of the signature as Landed |
| `Recorder.FanoutRecorder.SweepDeadlines` | crates/tick-trigger-fan-out-bench/src/recorder.rs:595-621 | Ends the attempts past their deadline as UnknownPending |
| `Recorder.FanoutRecorder.FinalFlush` | crates/tick-trigger-fan-out-bench/src/recorder.rs:461-478 | Ends everything left as UnknownPending |
| `Recorder.FanoutRecorder.RunLoop` | crates/tick-trigger-fan-out-bench/src/recorder.rs:412-478 | Over any events the program ends in the state of Finish |
| `PohArithmetic.CountersAlwaysAgree` | crates/tick-trigger-bench/src/observer.rs:123-186 | In every reachable state and slot, cumulative hashes = 62500 * ticks + hashes since the tick, unless the u8 or u64 has saturated |
| `PohArithmetic.DistancesAgreeExactly` | crates/tick-trigger-bench/src/writer.rs:298-319 | tick_delta = hash_delta div 62500 if and only if the hashes since the tick are below one tick's worth (or below what the lead of the schedule allows), saturation to 0 included |
| `PohArithmetic.RecordedDistancesAgreeExactly` | crates/tick-trigger-bench/src/writer.rs:298-319 | The same for every match of every observer run |
| `PohArithmetic.TickDistanceIsTrueExactly` | crates/tick-trigger-bench/src/writer.rs:298-305 | tick_delta is the true tick distance if and only if 64 * slot_diff + tick fits 32 bits, and never too large |
| `PohArithmetic.TickDeltaWraps` | crates/tick-trigger-bench/src/writer.rs:298-319 | A concrete u32 wrap-around of tick_delta |
| `PohArithmetic.Observer.Track` | crates/tick-trigger-bench/src/observer.rs:123-186 | Updates the counters of a slot for one entry |
| `PohArithmetic.Observer.MatchSignatures` | crates/tick-trigger-bench/src/observer.rs:188-203 | One match per pending signature of the entry, carrying the slot position |
| `PohArithmetic.Observer.Handle` | crates/tick-trigger-bench/src/observer.rs:95-207 | One entry does what Observe says |
| `OrderingReport.ReportIsExact` | crates/tick-trigger-fan-out-bench/src/ordering.rs:116-250 | For every arrival sequence: entries_seen + |missing| = max_index + 1, missing is exactly the unseen indices ascending, out_of_order_count is the number of arrivals below an earlier one, max_backward_gap is the largest drop |
| `OrderingReport.FullyOrderedExactly` | crates/tick-trigger-fan-out-bench/src/ordering.rs:191-218 | A slot counts as fully ordered iff its indices never fall and cover 0..max |
| `OrderingReport.LastEntryFieldsExactly` | crates/tick-trigger-fan-out-bench/src/ordering.rs:127-250 | last_entry fields describe the highest-index entry iff that index is above 0 or the entry is a tick |
| `OrderingReport.LoneEntryIsCalledATick` | crates/tick-trigger-fan-out-bench/src/ordering.rs:127-250 | A slot whose only entry has a transaction is reported as ending on a tick |
| `OrderingReport.EveryArrivalIsReportedOnce` | crates/tick-trigger-fan-out-bench/src/ordering.rs:116-189 | Every run, every slot: its arrivals fall into consecutive pieces that are together all of them, and its reports are the reports of those pieces in order |
| `OrderingReport.SealedSlotIsReportedAgain` | crates/tick-trigger-fan-out-bench/src/ordering.rs:116-174 | An arrival for a sealed slot with a lower index than before is not counted out of order; it makes a second report |
| `OrderingReport.ReportsCountComebacks` | crates/tick-trigger-fan-out-bench/src/ordering.rs:147-174 | A slot is reported once, plus once per arrival after it was seen and left behind by the seal lag |
| `OrderingReport.OneReportExactly` | crates/tick-trigger-fan-out-bench/src/ordering.rs:147-189 | A slot has exactly one report, covering all its arrivals, if and only if it arrived and no arrival of it came after it was left behind |
| `OrderingReport.BuildReport` | crates/tick-trigger-fan-out-bench/src/ordering.rs:229-250 | The loop over 0..=last collects exactly the missing indices |
| `OrderingReport.OrderingTracker.UpdateCounters` | crates/tick-trigger-fan-out-bench/src/ordering.rs:191-218 | Counters follow one more report |
| `OrderingReport.OrderingTracker.SealSlots` | crates/tick-trigger-fan-out-bench/src/ordering.rs:160-172 | Removes and reports the given slots in order; the counters stay the tally of all reports |
| `OrderingReport.OrderingTracker.MaybeSeal` | crates/tick-trigger-fan-out-bench/src/ordering.rs:147-174 | Seals exactly the slots at or below high_water - lag, ascending, and none while high_water <= lag |
| `OrderingReport.OrderingTracker.Observe` | crates/tick-trigger-fan-out-bench/src/ordering.rs:116-145 | One arrival does what Observed says and returns the newly sealed reports |
| `OrderingReport.OrderingTracker.FlushAll` | crates/tick-trigger-fan-out-bench/src/ordering.rs:176-189 | Seals everything left |
| `FecTracker.ReleasedAtFirstCompletePacket` | crates/entry-sources/src/shredstream/fec_tracker.rs:50-104 | With the data shreds inside the range its terminators agree on, and as long as no eviction finds the set expired: a set is released at the first packet after which a terminator and every index of the range are present, as exactly that range in order, each shred the latest of its index |
| `FecTracker.DoneExactlyWhenComplete` | crates/entry-sources/src/shredstream/fec_tracker.rs:82-85 | Counting is enough: reaching the announced count is the same as holding every index |
| `FecTracker.CompletedIsRangeExactly` | crates/entry-sources/src/shredstream/fec_tracker.rs:67-104 | Whatever was received (but for a range of all 2^32 indices, whose size wraps to 0), a completed set is the whole range in order iff no data shred lies outside it |
| `FecTracker.StrayShredLeavesAHole` | crates/entry-sources/src/shredstream/fec_tracker.rs:67-104 | Every terminator at the second index followed by a data shred behind it releases a set with a hole |
| `FecTracker.EveryShredHasOneFate` | crates/entry-sources/src/shredstream/fec_tracker.rs:50-121 | In every run with evictions, the shreds of a key fall into consecutive sessions, each released or timed out, and one open; the releases are exactly the released sessions and the table holds exactly the open one |
| `FecTracker.SessionHoldsLatest` | crates/entry-sources/src/shredstream/fec_tracker.rs:61-80 | A set holds, for each index received, the latest data shred of that index |
| `FecTracker.Tracker.Ingest` | crates/entry-sources/src/shredstream/fec_tracker.rs:50-104 | One packet does what the run says: parse error, filed, or released |
| `FecTracker.Tracker.EvictOlderThan` | crates/entry-sources/src/shredstream/fec_tracker.rs:107-121 | Keeps exactly the younger sets; the returned count and the counter are the number dropped |
| `BradleyTerry.BuildWinCounts` | analysis/fanout/fanout_analysis/s3_pairwise.py:29-44 | win_counts[(i, j)] is the number of rows i wins for every j other than i, with no zero entries |
| `BradleyTerry.EverySenderIsRanked` | analysis/fanout/fanout_analysis/statutils.py:90-92 | With two senders and a winner, the items are all senders |
| `BradleyTerry.FillTables` | analysis/fanout/fanout_analysis/statutils.py:92-98 | w and M are the win totals and meeting counts, whatever order the dictionary is read in |
| `BradleyTerry.TablesOfSingleWinners` | analysis/fanout/fanout_analysis/statutils.py:92-98 | On every single-winner matrix w_i = (k-1) * L_i and M_ij = L_i + L_j |
| `BradleyTerry.Update` | analysis/fanout/fanout_analysis/statutils.py:101-104 | The loop computes one round of the update |
| `BradleyTerry.StationaryExactlyLandCounts` | analysis/fanout/fanout_analysis/statutils.py:99-106 | A strength vector comes out of a round multiplied by a common factor iff the factor is 1 and it is a positive multiple of the land counts, zero-win senders included |
| `BradleyTerry.StationaryRankingIsLandRanking` | analysis/fanout/fanout_analysis/statutils.py:99-113 | The ranking at a stationary point is the ranking by land count |
| `BradleyTerry.IterationStaysSane` | analysis/fanout/fanout_analysis/statutils.py:99-110 | In every iteration, however normalised, no round divides by zero, and exactly the senders that never landed have strength 0 after the first |
| `CochransQ.QIsPearson` | analysis/fanout/fanout_analysis/statutils.py:45-57 | On single-winner data Q is Pearson's chi-square of the land counts against equal shares |
| `CochransQ.QIsZeroExactlyWhenEqual` | analysis/fanout/fanout_analysis/statutils.py:45-57 | Q is never negative, and 0 iff all senders landed equally often |
| `PohSafety.RetentionExactly` | crates/tick-trigger-fan-out-bench/src/poh_supervisor.rs:467-469 | In every run a slot that arrived (other than slot 0) is in the table while the frontier is fewer than seal_lag + 10 slots past it, and a sweep that finds the frontier that far leaves it out |
| `PohAccounting.DropsAreCounted` | crates/tick-trigger-fan-out-bench/src/poh_supervisor.rs:247-293 | In every run, flush included: late_arrivals_after_seal, duplicates_dropped and pending_drops_capacity are the numbers of arrivals that found their slot sealed, their index passed, and the buffer full |
| `PohAccounting.PeakIsLargestBuffer` | crates/tick-trigger-fan-out-bench/src/poh_supervisor.rs:276-279 | In every run pending_peak_size is the size of the largest buffer there has been |
| `PohWaits.WaitsAreTrue` | crates/tick-trigger-fan-out-bench/src/poh_supervisor.rs:296-414 | What each step of a run sends: an in-order arrival without wait, every other entry marked reordered with the time since its arrival, every gap marker with the time since the arrival of a later entry, in microseconds up to 2^32 - 1 |
| `Merger.CountersNameTheirSource` | crates/tick-trigger-fan-out-bench/src/merger.rs:163-248 | In every run: each emission carries entry and source of the arrival that caused it, ss_first and ys_first are the emissions by source, ss_received and ys_received the arrivals by source |
| `Merger.DedupIsRemembered` | crates/tick-trigger-fan-out-bench/src/merger.rs:250-273 | The dedup map holds exactly the keys that have arrived and that no arrival since has left more than 200 slots behind a new frontier |
| `TriggerEngine.TriggersAreGenuine` | crates/tick-trigger-fan-out-bench/src/trigger_engine.rs:186-233 | Every trigger of every run was fired for a scheduled entry of the stream: its slot, tick and uncertainty, and the id (slot << 8) | tick |
| `TriggerEngine.EqualIdsAreOneTick` | crates/tick-trigger-fan-out-bench/src/trigger_engine.rs:38-46 | Below slot 2^56, two triggers of a run with equal ids are for the same slot and tick |
| `TriggerEngine.CountersCount` | crates/tick-trigger-fan-out-bench/src/trigger_engine.rs:186-233 | In every run: entries seen, one schedule hit per trigger, every scheduled entry a hit or suppressed, and the uncertain triggers |
| `TriggerEngine.WritesAreLastHashes` | crates/tick-trigger-fan-out-bench/src/trigger_engine.rs:170-197 | In every run the cache has been written, per slot, the last hash that an entry or terminal event of the slot carried; gap markers write nothing |
| `SlotHashCache.OldSlotsLeaveExactly` | crates/tick-trigger-fan-out-bench/src/nonce/local_compute.rs:52-67 | A slot is in the cache iff it has been written and no slot more than the window above it ever has |
| `Recorder.OutcomesAreCounted` | crates/tick-trigger-fan-out-bench/src/recorder.rs:352-385 | In every run, flush included: landed, send_error and unknown, per sender and in total, are the numbers of records with that outcome, and the landed triggers are those of the Landed records |
| `Recorder.AttemptsAreRegistrations` | crates/tick-trigger-fan-out-bench/src/recorder.rs:320-331 | In every run the attempts are the registrations, per sender and in total, and the attempted triggers those registered |
| `Recorder.OutcomeFollowsStep` | crates/tick-trigger-fan-out-bench/src/recorder.rs:500-621 | A match writes at most one record, which says Landed; a failed send one that says sent and SendError; a sweep and the flush only UnknownPending; a registration none |
| `Recorder.SentMarkIsReport` | crates/tick-trigger-fan-out-bench/src/recorder.rs:500-528 | A live attempt is marked sent iff its send has been reported since it was registered |
| `Recorder.RecordsKeepTheMark` | crates/tick-trigger-fan-out-bench/src/recorder.rs:530-621 | Matches, sweeps and the flush write records from the attempts as they stand, mark included |
| `Correlator.RecordsAreGenuine` | crates/entry-comparator/src/correlator.rs:148-203 | In every run: the ys fields of a record are those of one Yellowstone observation of the key that came, the ss fields those of one ShredStream observation, absent otherwise; index and hash count are Yellowstone's if present; sig_set_match is present iff both signature lists are nonempty and true iff one is a permutation of the other |
| `Correlator.FlushedRecordsAreGenuine` | crates/entry-comparator/src/correlator.rs:97-203 | The same of the records after the flush |
| `Correlator.WaitingIsLatest` | crates/entry-comparator/src/correlator.rs:103-125 | The sides of a waiting state are the latest observations of the key, source by source |
| `Correlator.RepeatKeepsTheClock` | crates/entry-comparator/src/correlator.rs:103-125 | A repeated observation replaces the waiting one and does not restart its clock |
| `Finalizer.FinalsAreTruthful` | crates/tick-trigger-bench/src/writer.rs:64-156 | In every run, however often a signature is sent or matched: every final record joins a send that came with a match that came, or says UNKNOWN_PENDING without one, and exactly the unknown ones are in the fallback queue |
| `Finalizer.RepeatsWhileWaiting` | crates/tick-trigger-bench/src/writer.rs:94-136 | Sending a signature again while it waits changes nothing; of several early matches the latest is joined |
| `PohArithmetic.PositionIsThatOfEntries` | crates/tick-trigger-bench/src/observer.rs:123-186 | In every run, for a slot other than the first and never dropped: tick number, hash count and total are those of its distinct entries, and its tick events are numbered 1, 2, 3, ... |
| `PohArithmetic.RegularTicksAreEmptyEntries` | crates/tick-trigger-bench/src/observer.rs:136-146 | Where every entry without transactions closes exactly 62500 hashes, the ticks are exactly these entries |
| `PohArithmetic.OtherEntriesAddNoTick` | crates/tick-trigger-bench/src/observer.rs:121-146 | In every run an entry that carries transactions, repeats a hash or belongs to the first slot adds no tick |
| `PohArithmetic.EntryMatches` | crates/tick-trigger-bench/src/observer.rs:152-203 | An entry adds one match per pending signature, with the slot position after the entry, and none if it is a tick numbered above 64 |
| `PohArithmetic.TrimsExactly` | crates/tick-trigger-bench/src/observer.rs:113-115 | Only when more than 4096 slots are held, those more than 200 slots behind the entry are dropped |
| `PohArithmetic.HashDistanceExactly` | crates/tick-trigger-bench/src/writer.rs:314-319 | The hash distance for all inputs, with saturation at 2^64 - 1 and at 0 |
| `OrderingReport.TallyIsExact` | crates/tick-trigger-fan-out-bench/src/ordering.rs:191-218 | Each counter is the number of reports it is named after, or their sum |
| `OrderingReport.InProgressExactly` | crates/tick-trigger-fan-out-bench/src/ordering.rs:147-174 | A slot is in progress iff it has arrived and the highest slot seen is not above the lag or fewer than lag slots ahead |
| `FecTracker.ReleasedCodingIsLatest` | crates/entry-sources/src/shredstream/fec_tracker.rs:76-104 | The coding shreds of a released set are, for every index received, the latest one |
| `FecTracker.CountersCount` | crates/entry-sources/src/shredstream/fec_tracker.rs:50-121 | Parse errors are the packets that did not parse, and each eviction adds one timeout per set it drops |
| `BradleyTerry.UpdateBalances` | analysis/fanout/fanout_analysis/statutils.py:101-104 | For all tables the new strength times the exposure to the old strengths is the number of wins; without exposure the strength is kept |
| `CochransQ.QIsMcNemar` | analysis/fanout/fanout_analysis/statutils.py:45-57 | With two senders and any 0/1 rows, Q is McNemar's statistic of the rows where they differ |

## Left out

- Output overflow: `try_send` is taken to succeed, so the `output_full` counters stay 0.
- Entry indices and per-slot counts are unbounded: u32 overflow of `next_expected_idx`, `total_emitted` and `missing_count` is not modelled.
- Statistics of time: reorder waits in the counters, confirmation latencies (so the merger's `first_seen_at` is kept but has no effect), RTT and observed-latency sums, and the `slots_with_missing` counter.
- The supervisor's `last_emit_at` is kept as the source keeps it; nothing reads it.
- `select!`, stop flags, threads, channels and core pinning: a run is any sequence of the steps they lead to.
- Trigger engine: the schedule is fixed during a run, and matching of pending signatures is not modelled.
- Observer: the schedule lookup, the transaction pool and send commands are not modelled; only slot state, tick detection and signature matches.
- PohArithmetic: the u32 arithmetic of the tick distance wraps as in a build without overflow checks; with them the program panics there instead.
- Finalizer: the shared set of pending signatures is not modelled.
- Recorder: the calls into the nonce manager, RTT and latency fields and the JSONL record are not modelled.
- Correlator: leader lookup, first-shred instants and nanosecond offsets of a record are not modelled.
- Slot-hash cache: deriving the nonce from the hash (SHA-256) is left to the caller of the lookup.
- FEC tracker: shred parsing is an input (a packet carries a shred or nothing), `completed_at` is dropped, coding shreds come as a set since their order is arbitrary, and the unsigned subtraction wraps as in a build without overflow checks.
- Bradley-Terry: convergence, the geometric mean itself (any positive normaliser is allowed), the 1e-12 offsets and logarithms; senders are columns rather than sorted names; floating point is modelled by reals.
- Cochran's Q: the p-value.
- Nonce manager and RPC fallback, senders, blockhash cache, transaction builders, wallets, configuration, schedule generation, leader map, Parquet and Markdown output, plots, bootstrap and McNemar tests: I/O, library calls or easy members.
