/**
 The PoH supervisor as the source runs it: one object whose methods update the slot map,
 the output and the counters in place. Each method is proved to compute the transition of
 the same name in `PohRuns`, so the guarantees proved there are guarantees of this code.
 */
module PohSupervisor {
  import opened Entries
  import opened OrderedMaps
  import opened PohSlots
  import opened PohTraces
  import opened PohRuns

  predicate IsComplete(e: OrderedEvent) { e.SlotComplete? }
  predicate IsIncomplete(e: OrderedEvent) { e.SlotIncomplete? }

  datatype Tally = Tally(immediate: nat, reordered: nat, missing: nat, complete: nat, incomplete: nat)

  function Tick(t: Tally, e: OrderedEvent): Tally {
    match e
    case Entry(_, _, _, _, _, wasReordered, _, _) =>
      if wasReordered then t.(reordered := t.reordered + 1) else t.(immediate := t.immediate + 1)
    case Missing(_, _, _) => t.(missing := t.missing + 1)
    case SlotComplete(_, _, _, _, _) => t.(complete := t.complete + 1)
    case SlotIncomplete(_, _, _, _, _) => t.(incomplete := t.incomplete + 1)
  }

  function TallyOf(events: seq<OrderedEvent>): Tally {
    if events == [] then Tally(0, 0, 0, 0, 0) else Tick(TallyOf(events[..|events| - 1]), events[|events| - 1])
  }

  /** The emission counters are the numbers of events of each kind that were sent. */
  lemma {:induction false} TallyCounts(events: seq<OrderedEvent>)
    ensures TallyOf(events) ==
            Tally(Count(events, IsImmediate), Count(events, IsReordered), Count(events, IsMissing),
                  Count(events, IsComplete), Count(events, IsIncomplete))
  {
    if events != [] {
      TallyCounts(events[..|events| - 1]);
    }
  }

  lemma {:induction false} TallySnoc(events: seq<OrderedEvent>, e: OrderedEvent)
    ensures TallyOf(events + [e]) == Tick(TallyOf(events), e)
  {
    assert (events + [e])[..|events|] == events;
  }

  /** A cursor loop that has sent `sent` and stands at `st` will end at `goal`, having sent `full`. */
  predicate Leads(st: PohSlot, slot: nat, now: nat, gaps: GapPolicy, sent: seq<OrderedEvent>,
                  goal: PohSlot, full: seq<OrderedEvent>) {
    Ready(st, slot) && var r := Advance(st, slot, now, gaps); r.st == goal && sent + r.events == full
  }

  lemma LeadsOn(st: PohSlot, slot: nat, now: nat, gaps: GapPolicy, sent: seq<OrderedEvent>,
                goal: PohSlot, full: seq<OrderedEvent>)
    requires Leads(st, slot, now, gaps, sent, goal, full) && CanMove(st, now, gaps)
    ensures var m := MoveOne(st, slot, now, SkipAll); Leads(m.st, slot, now, gaps, sent + [m.event], goal, full)
  {
    var m := MoveOne(st, slot, now, SkipAll);
    assert m == MoveOne(st, slot, now, gaps);
    Associative(sent, [m.event], Advance(m.st, slot, now, gaps).events);
  }

  lemma LeadsTo(st: PohSlot, slot: nat, now: nat, gaps: GapPolicy, sent: seq<OrderedEvent>,
                goal: PohSlot, full: seq<OrderedEvent>)
    requires Leads(st, slot, now, gaps, sent, goal, full) && !CanMove(st, now, gaps)
    ensures st == goal && sent == full
  {
    assert sent + [] == sent;
  }

  lemma Overwrite<T>(m: map<nat, T>, k: nat, a: T, b: T)
    ensures m[k := a][k := b] == m[k := b]
  {
  }

  class Supervisor {
    const cfg: Config
    var slots: map<nat, PohSlot>
    var maxSlot: nat
    /** The output channel, as the sequence of events sent on it. */
    var out: seq<OrderedEvent>

    var entriesEmittedImmediate: nat
    var entriesEmittedReordered: nat
    var entriesMissingTimeout: nat
    var slotsComplete: nat
    var slotsIncomplete: nat
    var pendingPeakSize: nat
    var pendingDropsCapacity: nat
    var duplicatesDropped: nat
    var lateArrivalsAfterSeal: nat

    ghost function Value(): State
      reads this
    {
      State(slots, maxSlot, out, pendingDropsCapacity, duplicatesDropped, lateArrivalsAfterSeal, pendingPeakSize)
    }

    /** The emission counters say what has been sent. */
    ghost predicate Tallied()
      reads this
    {
      Tally(entriesEmittedImmediate, entriesEmittedReordered, entriesMissingTimeout, slotsComplete, slotsIncomplete)
      == TallyOf(out)
    }

    ghost predicate Valid()
      reads this
    {
      Steady(slots) && Tallied()
    }

    constructor (cfg: Config)
      ensures Valid() && Value() == INITIAL && this.cfg == cfg
    {
      this.cfg := cfg;
      slots, maxSlot, out := map[], 0, [];
      entriesEmittedImmediate, entriesEmittedReordered, entriesMissingTimeout := 0, 0, 0;
      slotsComplete, slotsIncomplete := 0, 0;
      pendingPeakSize, pendingDropsCapacity, duplicatesDropped, lateArrivalsAfterSeal := 0, 0, 0, 0;
    }

    /** Sends an event and bumps the counter of its kind. */
    method Send(e: OrderedEvent)
      requires Tallied()
      modifies `out, `entriesEmittedImmediate, `entriesEmittedReordered, `entriesMissingTimeout, `slotsComplete, `slotsIncomplete
      ensures Tallied() && out == old(out) + [e]
    {
      TallySnoc(out, e);
      match e {
        case Entry(_, _, _, _, _, wasReordered, _, _) =>
          if wasReordered {
            entriesEmittedReordered := entriesEmittedReordered + 1;
          } else {
            entriesEmittedImmediate := entriesEmittedImmediate + 1;
          }
        case Missing(_, _, _) => entriesMissingTimeout := entriesMissingTimeout + 1;
        case SlotComplete(_, _, _, _, _) => slotsComplete := slotsComplete + 1;
        case SlotIncomplete(_, _, _, _, _) => slotsIncomplete := slotsIncomplete + 1;
      }
      out := out + [e];
    }

    method EmitEntry(slot: nat, obs: EntryObservation, now: nat, wasReordered: bool, waitUs: nat)
      requires slot in slots && Tallied()
      modifies `slots, `out, `entriesEmittedImmediate, `entriesEmittedReordered, `entriesMissingTimeout, `slotsComplete, `slotsIncomplete
      ensures Tallied()
      ensures slots == old(slots)[slot := AfterEntry(old(slots[slot]), obs, now)]
      ensures out == old(out) + [EntryEvent(old(slots[slot]), obs, wasReordered, waitUs)]
    {
      var st := slots[slot];
      var cumulative := SatAdd64(st.cumulativeHashes, obs.numHashes);
      var sinceTick := SatAdd64(st.hashesSinceLastTick, obs.numHashes);
      var tick := st.tickIdx;
      if obs.txCount == 0 && tick < TICKS_PER_SLOT {
        tick := tick + 1;
        sinceTick := 0;
      }
      st := st.(cumulativeHashes := cumulative, hashesSinceLastTick := sinceTick, tickIdx := tick);
      st := st.(lastEntryHash := Some(obs.entryHash), lastEntryIndex := obs.entryIndex,
                lastEmitAt := Some(now), totalEmitted := st.totalEmitted + 1);
      var e := Entry(obs.slot, obs.entryIndex, tick, cumulative, obs, wasReordered, waitUs, st.hasMissing);
      Send(e);
      slots := slots[slot := st.(next := st.next + 1)];
    }

    /** `pop_first` and `emit_entry`, as the three cursor loops do it. */
    method EmitFirstPending(slot: nat, now: nat)
      requires slot in slots && Ready(slots[slot], slot) && slots[slot].pending != map[] && Tallied()
      requires FirstKey(slots[slot].pending) == slots[slot].next
      modifies `slots, `out, `entriesEmittedImmediate, `entriesEmittedReordered, `entriesMissingTimeout, `slotsComplete, `slotsIncomplete
      ensures Tallied()
      ensures var m := MoveOne(old(slots[slot]), slot, now, SkipAll);
              slots == old(slots)[slot := m.st] && out == old(out) + [m.event]
    {
      var st := slots[slot];
      var first := FirstKey(st.pending);
      var p := st.pending[first];
      slots := slots[slot := st.(pending := st.pending - {first})];
      EmitEntry(slot, p.merged.observation, now, true, Waited(now, p.bufferedAt));
    }

    method EmitMissing(slot: nat, now: nat)
      requires slot in slots && Ready(slots[slot], slot) && slots[slot].pending != map[] && Tallied()
      requires FirstKey(slots[slot].pending) != slots[slot].next
      modifies `slots, `out, `entriesEmittedImmediate, `entriesEmittedReordered, `entriesMissingTimeout, `slotsComplete, `slotsIncomplete
      ensures Tallied()
      ensures var m := MoveOne(old(slots[slot]), slot, now, SkipAll);
              slots == old(slots)[slot := m.st] && out == old(out) + [m.event]
    {
      var st := slots[slot];
      var waitedForUs := Waited(now, st.pending[FirstKey(st.pending)].bufferedAt);
      var e := Missing(slot, st.next, waitedForUs);
      Send(e);
      slots := slots[slot := st.(missingCount := st.missingCount + 1, hasMissing := true, next := st.next + 1)];
    }

    method DrainConsecutivePending(slot: nat, now: nat)
      requires slot in slots && Ready(slots[slot], slot) && Tallied()
      modifies `slots, `out, `entriesEmittedImmediate, `entriesEmittedReordered, `entriesMissingTimeout, `slotsComplete, `slotsIncomplete
      ensures Tallied()
      ensures var r := Advance(old(slots[slot]), slot, now, StopAtGap);
              slots == old(slots)[slot := r.st] && out == old(out) + r.events
    {
      ghost var r := Advance(slots[slot], slot, now, StopAtGap);
      while slots[slot].pending != map[]
        invariant Tallied() && slot in slots && slots == old(slots)[slot := slots[slot]]
        invariant Leads(slots[slot], slot, now, StopAtGap, out, r.st, old(out) + r.events)
        decreases |slots[slot].pending|
      {
        if FirstKey(slots[slot].pending) != slots[slot].next {
          break;
        }
        ghost var st := slots[slot];
        LeadsOn(st, slot, now, StopAtGap, out, r.st, old(out) + r.events);
        EmitFirstPending(slot, now);
        Overwrite(old(slots), slot, st, slots[slot]);
      }
      LeadsTo(slots[slot], slot, now, StopAtGap, out, r.st, old(out) + r.events);
    }

    /** One turn of the inner loop of Phase A of the sweep. */
    method TimeOutOnce(slot: nat, now: nat) returns (again: bool)
      requires slot in slots && Ready(slots[slot], slot) && Tallied()
      modifies `slots, `out, `entriesEmittedImmediate, `entriesEmittedReordered, `entriesMissingTimeout, `slotsComplete, `slotsIncomplete
      ensures Tallied()
      ensures again == CanMove(old(slots[slot]), now, SkipStale(cfg.entryTimeout))
      ensures if again then
                var m := MoveOne(old(slots[slot]), slot, now, SkipAll);
                slots == old(slots)[slot := m.st] && out == old(out) + [m.event]
              else slots == old(slots) && out == old(out)
    {
      if slots[slot].pending != map[] {
        var first := FirstKey(slots[slot].pending);
        if first == slots[slot].next {
          EmitFirstPending(slot, now);
          return true;
        }
        if SatSub(now, slots[slot].pending[first].bufferedAt) >= cfg.entryTimeout {
          EmitMissing(slot, now);
          return true;
        }
      }
      return false;
    }

    method TimeOutGaps(slot: nat, now: nat)
      requires slot in slots && Ready(slots[slot], slot) && Tallied()
      modifies `slots, `out, `entriesEmittedImmediate, `entriesEmittedReordered, `entriesMissingTimeout, `slotsComplete, `slotsIncomplete
      ensures Tallied()
      ensures var r := Advance(old(slots[slot]), slot, now, SkipStale(cfg.entryTimeout));
              slots == old(slots)[slot := r.st] && out == old(out) + r.events
    {
      ghost var r := Advance(slots[slot], slot, now, SkipStale(cfg.entryTimeout));
      var again := true;
      while again
        invariant Tallied() && slot in slots && slots == old(slots)[slot := slots[slot]]
        invariant Leads(slots[slot], slot, now, SkipStale(cfg.entryTimeout), out, r.st, old(out) + r.events)
        invariant !again ==> !CanMove(slots[slot], now, SkipStale(cfg.entryTimeout))
        decreases again, |slots[slot].pending|, GapWidth(slots[slot], slot)
      {
        ghost var st := slots[slot];
        if CanMove(st, now, SkipStale(cfg.entryTimeout)) {
          LeadsOn(st, slot, now, SkipStale(cfg.entryTimeout), out, r.st, old(out) + r.events);
        }
        again := TimeOutOnce(slot, now);
        Overwrite(old(slots), slot, st, slots[slot]);
      }
      LeadsTo(slots[slot], slot, now, SkipStale(cfg.entryTimeout), out, r.st, old(out) + r.events);
    }

    /** The flush of `seal_slot`: everything up to the last buffered index. */
    method FlushPending(slot: nat, now: nat)
      requires slot in slots && Ready(slots[slot], slot) && Tallied()
      modifies `slots, `out, `entriesEmittedImmediate, `entriesEmittedReordered, `entriesMissingTimeout, `slotsComplete, `slotsIncomplete
      ensures Tallied()
      ensures var r := Advance(old(slots[slot]), slot, now, SkipAll);
              slots == old(slots)[slot := r.st] && out == old(out) + r.events
    {
      ghost var r := Advance(slots[slot], slot, now, SkipAll);
      if slots[slot].pending != map[] {
        var maxIdx := LastKey(slots[slot].pending);
        while slots[slot].next <= maxIdx
          invariant Tallied() && slot in slots && slots == old(slots)[slot := slots[slot]]
          invariant Leads(slots[slot], slot, now, SkipAll, out, r.st, old(out) + r.events)
          invariant forall k :: k in slots[slot].pending ==> k <= maxIdx
          decreases maxIdx + 1 - slots[slot].next
        {
          if slots[slot].pending == map[] {
            break;
          }
          ghost var st := slots[slot];
          LeadsOn(st, slot, now, SkipAll, out, r.st, old(out) + r.events);
          if FirstKey(slots[slot].pending) == slots[slot].next {
            EmitFirstPending(slot, now);
          } else {
            EmitMissing(slot, now);
          }
          Overwrite(old(slots), slot, st, slots[slot]);
        }
        NothingPending(slots[slot], slot, maxIdx);
      }
      LeadsTo(slots[slot], slot, now, SkipAll, out, r.st, old(out) + r.events);
    }

    static lemma NothingPending(st: PohSlot, slot: nat, maxIdx: nat)
      requires Ready(st, slot) && (forall k :: k in st.pending ==> k <= maxIdx)
      requires st.next > maxIdx || st.pending == map[]
      ensures st.pending == map[]
    {
      assert st.next > maxIdx ==> st.pending.Keys == {};
    }

    method SendTerminal(slot: nat)
      requires slot in slots && Tallied()
      modifies `out, `entriesEmittedImmediate, `entriesEmittedReordered, `entriesMissingTimeout, `slotsComplete, `slotsIncomplete
      ensures Tallied() && out == old(out) + [TerminalEvent(slots[slot], slot)]
    {
      var st := slots[slot];
      var lastHash := if st.lastEntryHash.Some? then st.lastEntryHash.value else DEFAULT_HASH;
      if st.tickIdx >= TICKS_PER_SLOT {
        Send(SlotComplete(slot, st.totalEmitted, lastHash, st.tickIdx, st.missingCount));
      } else {
        Send(SlotIncomplete(slot, st.lastEntryIndex, lastHash, st.tickIdx, st.missingCount));
      }
    }

    method SealSlot(slot: nat, now: nat)
      requires slot in slots && Resting(slots[slot], slot) && Tallied()
      modifies `slots, `out, `entriesEmittedImmediate, `entriesEmittedReordered, `entriesMissingTimeout, `slotsComplete, `slotsIncomplete
      ensures Tallied()
      ensures var r := Apply(Seal(now), old(slots[slot]), slot);
              slots == old(slots)[slot := r.st] && out == old(out) + r.events
    {
      if slots[slot].sealed {
        assert out + [] == out;
        return;
      }
      ghost var flushed := Advance(slots[slot], slot, now, SkipAll);
      FlushPending(slot, now);
      SendTerminal(slot);
      slots := slots[slot := slots[slot].(sealed := true)];
      Associative(old(out), flushed.events, [TerminalEvent(flushed.st, slot)]);
    }

    method EmitInOrder(slot: nat, obs: EntryObservation, now: nat)
      requires slot == obs.slot && slot in slots && Resting(slots[slot], slot) && !slots[slot].sealed
      requires obs.entryIndex == slots[slot].next && Tallied()
      modifies `slots, `out, `entriesEmittedImmediate, `entriesEmittedReordered, `entriesMissingTimeout, `slotsComplete, `slotsIncomplete
      ensures Tallied()
      ensures var st := old(slots[slot]);
              var rest := Advance(AfterEntry(st, obs, now), slot, now, StopAtGap);
              && slots == old(slots)[slot := rest.st]
              && out == old(out) + ([EntryEvent(st, obs, false, 0)] + rest.events)
    {
      ghost var st := slots[slot];
      ghost var rest := Advance(AfterEntry(st, obs, now), slot, now, StopAtGap);
      EmitEntry(slot, obs, now, false, 0);
      DrainConsecutivePending(slot, now);
      Overwrite(old(slots), slot, AfterEntry(st, obs, now), rest.st);
      Associative(old(out), [EntryEvent(st, obs, false, 0)], rest.events);
    }

    /** The arrival of an entry ahead of the cursor. */
    method BufferEarly(m: MergedEntry, now: nat)
      requires var slot := m.observation.slot; slot in slots && m.observation.entryIndex > slots[slot].next
      modifies `slots, `pendingDropsCapacity, `pendingPeakSize
      ensures var slot, idx := m.observation.slot, m.observation.entryIndex;
              var st := old(slots[slot]);
              if |st.pending| >= cfg.maxPending then
                && slots == old(slots) && pendingPeakSize == old(pendingPeakSize)
                && pendingDropsCapacity == old(pendingDropsCapacity) + 1
              else
                && slots == old(slots)[slot := st.(pending := st.pending[idx := PendingEntry(m, now)])]
                && pendingPeakSize == Max(old(pendingPeakSize), |slots[slot].pending|)
                && pendingDropsCapacity == old(pendingDropsCapacity)
    {
      var slot, idx := m.observation.slot, m.observation.entryIndex;
      var st := slots[slot];
      if |st.pending| >= cfg.maxPending {
        pendingDropsCapacity := pendingDropsCapacity + 1;
        return;
      }
      slots := slots[slot := st.(pending := st.pending[idx := PendingEntry(m, now)])];
      pendingPeakSize := Max(pendingPeakSize, |slots[slot].pending|);
    }

    /** The arrival of an entry below the cursor: dropped, but its tick still counts. */
    method CountLate(obs: EntryObservation)
      requires obs.slot in slots
      modifies `slots, `duplicatesDropped
      ensures slots == old(slots)[obs.slot := old(slots[obs.slot]).(tickIdx := CountTick(old(slots[obs.slot]), obs))]
      ensures duplicatesDropped == old(duplicatesDropped) + 1
    {
      var st := slots[obs.slot];
      if obs.txCount == 0 && st.tickIdx < TICKS_PER_SLOT {
        slots := slots[obs.slot := st.(tickIdx := st.tickIdx + 1)];
      }
      duplicatesDropped := duplicatesDropped + 1;
    }

    /** The slot of the arrival exists and is open; `x` was the state before `process` touched it. */
    ghost predicate Looked(x: State, m: MergedEntry, now: nat)
      reads this
    {
      var slot := m.observation.slot;
      && Tallied() && Steady(x.slots) && !SlotAt(x.slots, slot).sealed
      && Value() == x.(slots := x.slots[slot := Seen(SlotAt(x.slots, slot), now)])
    }

    method ArriveInOrder(m: MergedEntry, now: nat, ghost x: State)
      requires Looked(x, m, now) && m.observation.entryIndex == SlotAt(x.slots, m.observation.slot).next
      modifies this
      ensures Tallied() && Value() == Receive(cfg, x, m, now).(maxSlot := x.maxSlot)
    {
      EmitInOrder(m.observation.slot, m.observation, now);
      ReceivedInOrder(cfg, x, m, now, slots, out);
    }

    method ArriveEarly(m: MergedEntry, now: nat, ghost x: State)
      requires Looked(x, m, now) && m.observation.entryIndex > SlotAt(x.slots, m.observation.slot).next
      modifies this
      ensures Tallied() && Value() == Receive(cfg, x, m, now).(maxSlot := x.maxSlot)
    {
      ReceiveEarly(cfg, x, m, now);
      BufferEarly(m, now);
      Overwrite(x.slots, m.observation.slot, old(slots[m.observation.slot]), slots[m.observation.slot]);
    }

    method ArriveLate(m: MergedEntry, now: nat, ghost x: State)
      requires Looked(x, m, now) && m.observation.entryIndex < SlotAt(x.slots, m.observation.slot).next
      modifies this
      ensures Tallied() && Value() == Receive(cfg, x, m, now).(maxSlot := x.maxSlot)
    {
      ReceiveLate(cfg, x, m, now);
      CountLate(m.observation);
      Overwrite(x.slots, m.observation.slot, old(slots[m.observation.slot]), slots[m.observation.slot]);
    }

    method Process(m: MergedEntry, now: nat)
      requires Valid()
      modifies this
      ensures Valid()
      ensures Value() == Receive(cfg, old(Value()), m, now).(maxSlot := old(maxSlot))
    {
      var slot, idx := m.observation.slot, m.observation.entryIndex;
      ghost var x := Value();
      if slot !in slots {
        slots := slots[slot := EMPTY_SLOT];
      }
      if slots[slot].sealed {
        ReceiveSealed(cfg, x, m, now);
        lateArrivalsAfterSeal := lateArrivalsAfterSeal + 1;
        return;
      }
      if slots[slot].lastEmitAt.None? {
        slots := slots[slot := slots[slot].(lastEmitAt := Some(now))];
      }
      assert slots == x.slots[slot := Seen(SlotAt(x.slots, slot), now)];
      if idx == slots[slot].next {
        ArriveInOrder(m, now, x);
      } else if idx > slots[slot].next {
        ArriveEarly(m, now, x);
      } else {
        ArriveLate(m, now, x);
      }
    }

    /** One slot of Phase A, of Phase B or of the final flush. */
    method ApplyTo(slot: nat, op: SlotOp)
      requires slot in slots && Resting(slots[slot], slot) && Tallied()
      requires op.TimeOutGaps? ==> op.timeout == cfg.entryTimeout
      modifies `slots, `out, `entriesEmittedImmediate, `entriesEmittedReordered, `entriesMissingTimeout, `slotsComplete, `slotsIncomplete
      ensures Tallied()
      ensures var r := Apply(op, old(slots[slot]), slot);
              slots == old(slots)[slot := r.st] && out == old(out) + r.events
    {
      match op
      case Seal(now) => SealSlot(slot, now);
      case TimeOutGaps(now, _) =>
        if slots[slot].sealed {
          assert out + [] == out;
        } else {
          TimeOutGaps(slot, now);
        }
    }

    /** The `for` loops of the sweep and of the final flush. */
    method ForEachSlot(keys: seq<nat>, op: SlotOp)
      requires Valid() && forall k :: k in keys ==> k in slots
      requires op.TimeOutGaps? ==> op.timeout == cfg.entryTimeout
      modifies `slots, `out, `entriesEmittedImmediate, `entriesEmittedReordered, `entriesMissingTimeout, `slotsComplete, `slotsIncomplete
      ensures Valid()
      ensures var b := ForEach(old(slots), keys, op); slots == b.slots && out == old(out) + b.events
    {
      ghost var b := ForEach(slots, keys, op);
      assert keys[0..] == keys;
      for i := 0 to |keys|
        invariant Tallied()
        invariant Heads(slots, keys[i..], op, out, b.slots, old(out) + b.events)
      {
        HeadsOn(slots, keys[i..], op, out, b.slots, old(out) + b.events);
        ApplyTo(keys[i], op);
        assert keys[i..][1..] == keys[i + 1..];
      }
      assert out + [] == out;
    }

    method Sweep(now: nat)
      requires Valid()
      modifies `slots, `out, `entriesEmittedImmediate, `entriesEmittedReordered, `entriesMissingTimeout, `slotsComplete, `slotsIncomplete
      ensures Valid()
      ensures Value() == SweepAll(cfg, old(Value()), now)
    {
      ghost var x := Value();
      var keys, op := Ascending(slots.Keys), SlotOp.TimeOutGaps(now, cfg.entryTimeout);
      ghost var a := ForEach(x.slots, keys, op);
      ForEachSlot(keys, op);
      var due := Due(cfg, slots, maxSlot);
      ghost var b := ForEach(a.slots, due, Seal(now));
      ForEachSlot(due, Seal(now));
      RetainIsSteady(cfg, slots, maxSlot);
      slots := Retain(cfg, slots, maxSlot);
      assert Value() == x.(slots := Retain(cfg, b.slots, x.maxSlot), out := x.out + a.events + b.events);
    }

    /** `run_loop`: the steps in the order in which they happen, and the final flush. */
    method RunLoop(steps: seq<Step>, now: nat)
      requires Valid() && Value() == INITIAL
      modifies this
      ensures Valid() && Value() == Finish(cfg, Run(cfg, steps), now)
      ensures entriesEmittedImmediate == Count(out, IsImmediate) && entriesEmittedReordered == Count(out, IsReordered)
      ensures entriesMissingTimeout == Count(out, IsMissing)
      ensures slotsComplete == Count(out, IsComplete) && slotsIncomplete == Count(out, IsIncomplete)
    {
      assert steps[..0] == [];
      for i := 0 to |steps|
        invariant Valid() && Value() == Run(cfg, steps[..i])
      {
        assert steps[..i + 1][..i] == steps[..i];
        match steps[i] {
          case Arrival(m, at) =>
            var s := m.observation.slot;
            ghost var x := Value();
            if s > maxSlot {
              maxSlot := s;
            }
            FrontierApart(cfg, x, m, at, maxSlot);
            Process(m, at);
          case Sweep(at) =>
            Sweep(at);
        }
      }
      assert steps[..|steps|] == steps;
      Sweep(now);
      ForEachSlot(Ascending(slots.Keys), Seal(now));
      TallyCounts(out);
    }
  }

  lemma RetainIsSteady(cfg: Config, slots: map<nat, PohSlot>, maxSlot: nat)
    requires Steady(slots)
    ensures Steady(Retain(cfg, slots, maxSlot))
  {
  }

  /** `process` does not look at the frontier. */
  lemma FrontierApart(cfg: Config, x: State, m: MergedEntry, now: nat, f: nat)
    requires Steady(x.slots) && f == Max(x.maxSlot, m.observation.slot)
    ensures Receive(cfg, x.(maxSlot := f), m, now).(maxSlot := f) == Receive(cfg, x, m, now)
  {
  }

  predicate Heads(slots: map<nat, PohSlot>, keys: seq<nat>, op: SlotOp, sent: seq<OrderedEvent>,
                  goal: map<nat, PohSlot>, full: seq<OrderedEvent>) {
    && Steady(slots) && (forall k :: k in keys ==> k in slots)
    && var b := ForEach(slots, keys, op); b.slots == goal && sent + b.events == full
  }

  lemma HeadsOn(slots: map<nat, PohSlot>, keys: seq<nat>, op: SlotOp, sent: seq<OrderedEvent>,
                goal: map<nat, PohSlot>, full: seq<OrderedEvent>)
    requires keys != [] && Heads(slots, keys, op, sent, goal, full)
    ensures var r := Apply(op, slots[keys[0]], keys[0]);
            Heads(slots[keys[0] := r.st], keys[1..], op, sent + r.events, goal, full)
  {
    var r := Apply(op, slots[keys[0]], keys[0]);
    Associative(sent, r.events, ForEach(slots[keys[0] := r.st], keys[1..], op).events);
  }

  // ---------- what `Receive` comes to, branch by branch ----------

  lemma ReceiveSealed(cfg: Config, x: State, m: MergedEntry, now: nat)
    requires Steady(x.slots) && SlotAt(x.slots, m.observation.slot).sealed
    ensures Receive(cfg, x, m, now) ==
            x.(maxSlot := Max(x.maxSlot, m.observation.slot), lateAfterSeal := x.lateAfterSeal + 1)
  {
    assert x.out + [] == x.out;
    assert x.slots[m.observation.slot := SlotAt(x.slots, m.observation.slot)] == x.slots;
  }

  lemma {:induction false} ReceiveInOrder(cfg: Config, x: State, m: MergedEntry, now: nat)
    requires var st := SlotAt(x.slots, m.observation.slot);
             Steady(x.slots) && !st.sealed && m.observation.entryIndex == st.next
    ensures var s, obs := m.observation.slot, m.observation;
            var seen := Seen(SlotAt(x.slots, s), now);
            Ready(AfterEntry(seen, obs, now), s)
            && var rest := Advance(AfterEntry(seen, obs, now), s, now, StopAtGap);
            Receive(cfg, x, m, now) ==
            x.(slots := x.slots[s := rest.st], maxSlot := Max(x.maxSlot, s),
               out := x.out + ([EntryEvent(seen, obs, false, 0)] + rest.events))
  {
  }

  /** The new slot map and output are those of `Receive`. */
  lemma ReceivedInOrder(cfg: Config, x: State, m: MergedEntry, now: nat, slots: map<nat, PohSlot>, out: seq<OrderedEvent>)
    requires var st := SlotAt(x.slots, m.observation.slot);
             Steady(x.slots) && !st.sealed && m.observation.entryIndex == st.next
    requires var s, obs := m.observation.slot, m.observation;
             var seen := Seen(SlotAt(x.slots, s), now);
             var rest := Advance(AfterEntry(seen, obs, now), s, now, StopAtGap);
             && slots == x.slots[s := seen][s := rest.st]
             && out == x.out + ([EntryEvent(seen, obs, false, 0)] + rest.events)
    ensures x.(slots := slots, out := out) == Receive(cfg, x, m, now).(maxSlot := x.maxSlot)
  {
    ReceiveInOrder(cfg, x, m, now);
    Overwrite(x.slots, m.observation.slot, Seen(SlotAt(x.slots, m.observation.slot), now), slots[m.observation.slot]);
  }

  lemma ReceiveEarly(cfg: Config, x: State, m: MergedEntry, now: nat)
    requires var st := SlotAt(x.slots, m.observation.slot);
             Steady(x.slots) && !st.sealed && m.observation.entryIndex > st.next
    ensures var s, idx := m.observation.slot, m.observation.entryIndex;
            var seen := Seen(SlotAt(x.slots, s), now);
            var buffered := seen.(pending := seen.pending[idx := PendingEntry(m, now)]);
            Receive(cfg, x, m, now) ==
            if |seen.pending| >= cfg.maxPending
            then x.(slots := x.slots[s := seen], maxSlot := Max(x.maxSlot, s), capacityDrops := x.capacityDrops + 1)
            else x.(slots := x.slots[s := buffered], maxSlot := Max(x.maxSlot, s),
                    pendingPeak := Max(x.pendingPeak, |buffered.pending|))
  {
    assert x.out + [] == x.out;
  }

  lemma ReceiveLate(cfg: Config, x: State, m: MergedEntry, now: nat)
    requires var st := SlotAt(x.slots, m.observation.slot);
             Steady(x.slots) && !st.sealed && m.observation.entryIndex < st.next
    ensures var s := m.observation.slot;
            var seen := Seen(SlotAt(x.slots, s), now);
            Receive(cfg, x, m, now) ==
            x.(slots := x.slots[s := seen.(tickIdx := CountTick(seen, m.observation))], maxSlot := Max(x.maxSlot, s),
               duplicatesDropped := x.duplicatesDropped + 1)
  {
    assert x.out + [] == x.out;
  }
}
