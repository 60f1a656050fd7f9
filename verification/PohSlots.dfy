/**
 One slot of the PoH supervisor (crates/tick-trigger-fan-out-bench/src/poh_supervisor.rs):
 the reorder buffer with its cursor, as functions on the value of a `PohSlot`.

 The three loops of the source that move the cursor (draining after an arrival, the gap
 timeout of the sweep, the flush of a seal) take the same steps and differ only in what
 they do at a gap, so `Advance` is parameterised by that choice.
 */
module PohSlots {
  import opened Entries
  import opened OrderedMaps

  const TICKS_PER_SLOT: nat := 64

  datatype PendingEntry = PendingEntry(merged: MergedEntry, bufferedAt: nat)

  datatype PohSlot = PohSlot(
    next: nat,
    pending: map<nat, PendingEntry>,
    cumulativeHashes: nat,
    hashesSinceLastTick: nat,
    tickIdx: nat,
    lastEntryHash: Option<Hash>,
    lastEntryIndex: nat,
    hasMissing: bool,
    missingCount: nat,
    totalEmitted: nat,
    lastEmitAt: Option<nat>,
    sealed: bool)

  const EMPTY_SLOT := PohSlot(0, map[], 0, 0, 0, None, 0, false, 0, 0, None, false)

  datatype OrderedEvent =
    | Entry(slot: nat, entryIndex: nat, tickIdx: nat, cumulativeHashes: nat,
            observation: EntryObservation, wasReordered: bool, waitUs: nat, tickUncertain: bool)
    | Missing(slot: nat, entryIndex: nat, waitedForUs: nat)
    | SlotComplete(slot: nat, totalEntries: nat, lastEntryHash: Hash, lastTick: nat, missingCount: nat)
    | SlotIncomplete(slot: nat, lastSeenIndex: nat, lastEntryHash: Hash, lastTick: nat, missingCount: nat)
  {
    predicate Terminal() {
      SlotComplete? || SlotIncomplete?
    }
  }

  /** A slot state together with what was sent on the output channel to reach it. */
  datatype Emission = Emission(st: PohSlot, events: seq<OrderedEvent>)

  /** Every buffered entry is filed under its own slot and index, at or ahead of the cursor. */
  predicate Ready(st: PohSlot, slot: nat) {
    && (forall k :: k in st.pending ==>
          && st.next <= k
          && st.pending[k].merged.observation.slot == slot
          && st.pending[k].merged.observation.entryIndex == k)
    && (st.sealed ==> st.pending == map[])
  }

  /** Between two steps of the supervisor, the entry under the cursor is never in the buffer. */
  predicate Resting(st: PohSlot, slot: nat) {
    Ready(st, slot) && st.next !in st.pending
  }

  /** A `Duration` in microseconds, clipped to `u32`. */
  function Waited(now: nat, since: nat): nat {
    Min(SatSub(now, since), U32_MAX)
  }

  function CountTick(st: PohSlot, obs: EntryObservation): nat {
    if obs.txCount == 0 && st.tickIdx < TICKS_PER_SLOT then st.tickIdx + 1 else st.tickIdx
  }

  /** The state update of `emit_entry`, and the `next_expected_idx += 1` that always follows it. */
  function AfterEntry(st: PohSlot, obs: EntryObservation, now: nat): PohSlot {
    st.(next := st.next + 1,
        cumulativeHashes := SatAdd64(st.cumulativeHashes, obs.numHashes),
        hashesSinceLastTick :=
          if obs.txCount == 0 && st.tickIdx < TICKS_PER_SLOT then 0
          else SatAdd64(st.hashesSinceLastTick, obs.numHashes),
        tickIdx := CountTick(st, obs),
        lastEntryHash := Some(obs.entryHash),
        lastEntryIndex := obs.entryIndex,
        lastEmitAt := Some(now),
        totalEmitted := st.totalEmitted + 1)
  }

  function EntryEvent(st: PohSlot, obs: EntryObservation, wasReordered: bool, waitUs: nat): OrderedEvent {
    Entry(obs.slot, obs.entryIndex, CountTick(st, obs), SatAdd64(st.cumulativeHashes, obs.numHashes),
          obs, wasReordered, waitUs, st.hasMissing)
  }

  function AfterMissing(st: PohSlot): PohSlot {
    st.(next := st.next + 1, missingCount := st.missingCount + 1, hasMissing := true)
  }

  datatype GapPolicy = StopAtGap | SkipStale(timeout: nat) | SkipAll

  predicate Skips(gaps: GapPolicy, now: nat, bufferedAt: nat) {
    match gaps
    case StopAtGap => false
    case SkipStale(timeout) => SatSub(now, bufferedAt) >= timeout
    case SkipAll => true
  }

  /** The loops go on while the first buffered entry is due, or the gap before it may be skipped. */
  predicate CanMove(st: PohSlot, now: nat, gaps: GapPolicy) {
    st.pending != map[]
    && var first := FirstKey(st.pending);
    first == st.next || Skips(gaps, now, st.pending[first].bufferedAt)
  }

  datatype Move = Move(st: PohSlot, event: OrderedEvent)

  /** How far the first buffered entry is from the cursor. */
  function GapWidth(st: PohSlot, slot: nat): nat
    requires Ready(st, slot)
  {
    if st.pending == map[] then 0 else FirstKey(st.pending) - st.next
  }

  /** One turn of the loops: emit the first buffered entry, or a marker for the index under the cursor. */
  function MoveOne(st: PohSlot, slot: nat, now: nat, gaps: GapPolicy): (m: Move)
    requires Ready(st, slot) && CanMove(st, now, gaps)
    ensures Ready(m.st, slot) && m.st.sealed == st.sealed && m.st.next == st.next + 1
    ensures |m.st.pending| < |st.pending| || (m.st.pending == st.pending && GapWidth(m.st, slot) < GapWidth(st, slot))
  {
    var first := FirstKey(st.pending);
    var p := st.pending[first];
    if first == st.next then
      var popped := st.(pending := st.pending - {first});
      Move(AfterEntry(popped, p.merged.observation, now),
           EntryEvent(popped, p.merged.observation, true, Waited(now, p.bufferedAt)))
    else
      Move(AfterMissing(st), Missing(slot, st.next, Waited(now, p.bufferedAt)))
  }

  /** Moves the cursor through the buffer until it is empty or a gap stops it. */
  function Advance(st: PohSlot, slot: nat, now: nat, gaps: GapPolicy): (r: Emission)
    requires Ready(st, slot)
    ensures Resting(r.st, slot) && r.st.sealed == st.sealed
    ensures r.st.next == st.next + |r.events|
    ensures !CanMove(r.st, now, gaps)
    decreases |st.pending|, GapWidth(st, slot)
  {
    if !CanMove(st, now, gaps) then Emission(st, [])
    else
      var m := MoveOne(st, slot, now, gaps);
      var rest := Advance(m.st, slot, now, gaps);
      Emission(rest.st, [m.event] + rest.events)
  }

  /** What `process` does with an arrival, by the branch it takes. */
  datatype Fate = AfterSeal | InOrder | Buffered | Overwrites | OverCapacity | BelowCursor

  function FateOf(st: PohSlot, idx: nat, maxPending: nat): Fate {
    if st.sealed then AfterSeal
    else if idx == st.next then InOrder
    else if idx < st.next then BelowCursor
    else if |st.pending| >= maxPending then OverCapacity
    else if idx in st.pending then Overwrites
    else Buffered
  }

  /** The clock of a slot starts with its first arrival. */
  function Seen(st: PohSlot, now: nat): PohSlot {
    if st.lastEmitAt.None? then st.(lastEmitAt := Some(now)) else st
  }

  /** `process`, on the state of the arrival's slot. */
  function Arrive(st: PohSlot, m: MergedEntry, now: nat, maxPending: nat): (r: Emission)
    requires Resting(st, m.observation.slot)
    ensures Resting(r.st, m.observation.slot)
  {
    var obs := m.observation;
    var seen := Seen(st, now);
    match FateOf(st, obs.entryIndex, maxPending)
    case AfterSeal => Emission(st, [])
    case InOrder =>
      var rest := Advance(AfterEntry(seen, obs, now), obs.slot, now, StopAtGap);
      Emission(rest.st, [EntryEvent(seen, obs, false, 0)] + rest.events)
    case Buffered => Emission(seen.(pending := st.pending[obs.entryIndex := PendingEntry(m, now)]), [])
    case Overwrites => Emission(seen.(pending := st.pending[obs.entryIndex := PendingEntry(m, now)]), [])
    case OverCapacity => Emission(seen, [])
    case BelowCursor => Emission(seen.(tickIdx := CountTick(seen, obs)), [])
  }

  /** The terminal event of `seal_slot`. */
  function TerminalEvent(st: PohSlot, slot: nat): OrderedEvent {
    var lastHash := if st.lastEntryHash.Some? then st.lastEntryHash.value else DEFAULT_HASH;
    if st.tickIdx >= TICKS_PER_SLOT
    then SlotComplete(slot, st.totalEmitted, lastHash, st.tickIdx, st.missingCount)
    else SlotIncomplete(slot, st.lastEntryIndex, lastHash, st.tickIdx, st.missingCount)
  }

  /** What `sweep` and `seal_slot` do to one slot; a sealed slot is skipped by both. */
  datatype SlotOp = TimeOutGaps(now: nat, timeout: nat) | Seal(now: nat)

  function Apply(op: SlotOp, st: PohSlot, slot: nat): (r: Emission)
    requires Resting(st, slot)
    ensures Resting(r.st, slot)
    ensures r.st.sealed == (st.sealed || op.Seal?)
  {
    if st.sealed then Emission(st, [])
    else
      match op
      case TimeOutGaps(now, timeout) => Advance(st, slot, now, SkipStale(timeout))
      case Seal(now) =>
        var flushed := Advance(st, slot, now, SkipAll);
        Emission(flushed.st.(sealed := true), flushed.events + [TerminalEvent(flushed.st, slot)])
  }
}
