/**
 Where every arrival at the PoH supervisor goes: emitted at once, emitted from the reorder
 buffer, dropped for one of three counted reasons, still buffered, or overwritten in the
 buffer by a later arrival with the same index, which no counter of the source records.
 */
module PohAccounting {
  import opened Entries
  import opened OrderedMaps
  import opened PohSlots
  import opened PohTraces
  import opened PohRuns
  import opened PohSafety

  // ---------- how much is buffered ----------

  ghost function Buffered(slots: map<nat, PohSlot>): nat {
    if slots == map[] then 0
    else
      var k :| k in slots;
      |slots[k].pending| + Buffered(slots - {k})
  }

  lemma {:induction false} BufferedSplit(slots: map<nat, PohSlot>, k: nat)
    requires k in slots
    ensures Buffered(slots) == |slots[k].pending| + Buffered(slots - {k})
  {
    var c :| c in slots && Buffered(slots) == |slots[c].pending| + Buffered(slots - {c});
    if c != k {
      assert slots - {c} - {k} == slots - {k} - {c};
      BufferedSplit(slots - {c}, k);
      BufferedSplit(slots - {k}, c);
    }
  }

  lemma BufferedUpdate(slots: map<nat, PohSlot>, k: nat, st: PohSlot)
    ensures Buffered(slots[k := st]) + |SlotAt(slots, k).pending| == Buffered(slots) + |st.pending|
  {
    var after := slots[k := st];
    BufferedSplit(after, k);
    assert after - {k} == slots - {k};
    if k in slots {
      BufferedSplit(slots, k);
    } else {
      assert slots - {k} == slots;
    }
  }

  lemma {:induction false} BufferedFilter(slots: map<nat, PohSlot>, kept: map<nat, PohSlot>)
    requires forall s :: s in kept ==> s in slots && kept[s] == slots[s]
    requires forall s :: s in slots && s !in kept ==> slots[s].pending == map[]
    ensures Buffered(kept) == Buffered(slots)
    decreases |slots|
  {
    if slots == map[] {
      assert kept == map[];
    } else {
      var c :| c in slots;
      BufferedSplit(slots, c);
      if c in kept {
        BufferedSplit(kept, c);
        BufferedFilter(slots - {c}, kept - {c});
      } else {
        BufferedFilter(slots - {c}, kept);
      }
    }
  }

  // ---------- one slot ----------

  predicate Conserves(total: nat, st: PohSlot, events: seq<OrderedEvent>) {
    total == |st.pending| + Count(events, IsReordered) && Count(events, IsImmediate) == 0
  }

  lemma MoveConserves(total: nat, st: PohSlot, slot: nat, now: nat, gaps: GapPolicy, events: seq<OrderedEvent>)
    requires Ready(st, slot) && CanMove(st, now, gaps) && Conserves(total, st, events)
    ensures var m := MoveOne(st, slot, now, gaps); Conserves(total, m.st, events + [m.event])
  {
    var m := MoveOne(st, slot, now, gaps);
    CountSnoc(events, m.event, IsReordered);
    CountSnoc(events, m.event, IsImmediate);
    var first := FirstKey(st.pending);
    assert (st.pending - {first}).Keys == st.pending.Keys - {first};
  }

  /** What leaves the buffer is emitted, as an entry that was reordered. */
  lemma {:induction false} AdvanceConserves(st: PohSlot, slot: nat, now: nat, gaps: GapPolicy)
    requires Ready(st, slot)
    ensures var r := Advance(st, slot, now, gaps); Conserves(|st.pending|, r.st, r.events)
  {
    var total := |st.pending|;
    var P := (s: PohSlot, b: seq<OrderedEvent>) => Conserves(total, s, b);
    forall s, b | Ready(s, slot) && CanMove(s, now, gaps) && P(s, b)
      ensures var m := MoveOne(s, slot, now, gaps); P(m.st, b + [m.event])
    {
      MoveConserves(total, s, slot, now, gaps, b);
    }
    AdvanceKeeps(P, st, slot, now, gaps, []);
    assert [] + Advance(st, slot, now, gaps).events == Advance(st, slot, now, gaps).events;
  }

  lemma ApplyConserves(op: SlotOp, st: PohSlot, s: nat)
    requires Resting(st, s)
    ensures var r := Apply(op, st, s); Conserves(|st.pending|, r.st, r.events)
  {
    if !st.sealed {
      match op
      case TimeOutGaps(now, timeout) => AdvanceConserves(st, s, now, SkipStale(timeout));
      case Seal(now) =>
        var a := Advance(st, s, now, SkipAll);
        AdvanceConserves(st, s, now, SkipAll);
        CountSnoc(a.events, TerminalEvent(a.st, s), IsReordered);
        CountSnoc(a.events, TerminalEvent(a.st, s), IsImmediate);
    }
  }

  lemma InOrderConserves(st: PohSlot, m: MergedEntry, now: nat, maxPending: nat)
    requires Resting(st, m.observation.slot) && FateOf(st, m.observation.entryIndex, maxPending).InOrder?
    ensures var r := Arrive(st, m, now, maxPending);
            |st.pending| + 1 == |r.st.pending| + Count(r.events, IsReordered) + Count(r.events, IsImmediate)
  {
    var seen := Seen(st, now);
    var e, st1 := EntryEvent(seen, m.observation, false, 0), AfterEntry(seen, m.observation, now);
    var rest := Advance(st1, m.observation.slot, now, StopAtGap);
    AdvanceConserves(st1, m.observation.slot, now, StopAtGap);
    CountConcat([e], rest.events, IsReordered);
    CountConcat([e], rest.events, IsImmediate);
    CountSnoc([], e, IsReordered);
    CountSnoc([], e, IsImmediate);
    assert [] + [e] == [e];
  }

  lemma ArriveConserves(st: PohSlot, m: MergedEntry, now: nat, maxPending: nat)
    requires Resting(st, m.observation.slot)
    ensures var r, fate := Arrive(st, m, now, maxPending), FateOf(st, m.observation.entryIndex, maxPending);
            |st.pending| + 1 ==
            |r.st.pending| + Count(r.events, IsReordered) + Count(r.events, IsImmediate)
            + OneIf(fate.OverCapacity? || fate.BelowCursor? || fate.AfterSeal? || fate.Overwrites?)
  {
    var r := Arrive(st, m, now, maxPending);
    match FateOf(st, m.observation.entryIndex, maxPending)
    case InOrder => InOrderConserves(st, m, now, maxPending);
    case Overwrites =>
      assert r.st.pending.Keys == st.pending.Keys;
    case _ =>
  }

  // ---------- the whole supervisor ----------

  lemma {:induction false} ForEachConserves(slots: map<nat, PohSlot>, keys: seq<nat>, op: SlotOp)
    requires Steady(slots)
    requires forall k :: k in keys ==> k in slots
    ensures var b := ForEach(slots, keys, op);
            Buffered(slots) == Buffered(b.slots) + Count(b.events, IsReordered) && Count(b.events, IsImmediate) == 0
  {
    if keys != [] {
      var k := keys[0];
      var r := Apply(op, slots[k], k);
      var later := slots[k := r.st];
      ForEachConserves(later, keys[1..], op);
      ApplyConserves(op, slots[k], k);
      BufferedUpdate(slots, k, r.st);
      CountConcat(r.events, ForEach(later, keys[1..], op).events, IsReordered);
      CountConcat(r.events, ForEach(later, keys[1..], op).events, IsImmediate);
    }
  }

  lemma {:induction false} CountTriple(a: seq<OrderedEvent>, b: seq<OrderedEvent>, c: seq<OrderedEvent>, p: OrderedEvent -> bool)
    ensures Count(a + b + c, p) == Count(a, p) + Count(b, p) + Count(c, p)
  {
    CountConcat(a + b, c, p);
    CountConcat(a, b, p);
  }

  /** Arrivals that have left the supervisor or are buffered in it. */
  ghost function Accounted(x: State): nat {
    Count(x.out, IsImmediate) + Count(x.out, IsReordered)
    + x.capacityDrops + x.duplicatesDropped + x.lateAfterSeal + Buffered(x.slots)
  }

  lemma {:induction false} RetainKeepsBuffered(cfg: Config, slots: map<nat, PohSlot>, maxSlot: nat)
    requires Steady(slots)
    ensures Buffered(Retain(cfg, slots, maxSlot)) == Buffered(slots)
  {
    BufferedFilter(slots, Retain(cfg, slots, maxSlot));
  }

  lemma SweepConserves(cfg: Config, x: State, now: nat)
    requires Steady(x.slots)
    ensures Accounted(SweepAll(cfg, x, now)) == Accounted(x)
  {
    var op := TimeOutGaps(now, cfg.entryTimeout);
    var keys := Ascending(x.slots.Keys);
    var a := ForEach(x.slots, keys, op);
    var due := Due(cfg, a.slots, x.maxSlot);
    var b := ForEach(a.slots, due, Seal(now));
    assert Buffered(x.slots) == Buffered(a.slots) + Count(a.events, IsReordered) && Count(a.events, IsImmediate) == 0 by {
      ForEachConserves(x.slots, keys, op);
    }
    assert Buffered(a.slots) == Buffered(b.slots) + Count(b.events, IsReordered) && Count(b.events, IsImmediate) == 0 by {
      ForEachConserves(a.slots, due, Seal(now));
    }
    RetainKeepsBuffered(cfg, b.slots, x.maxSlot);
    CountTriple(x.out, a.events, b.events, IsImmediate);
    CountTriple(x.out, a.events, b.events, IsReordered);
  }

  predicate Overwriting(cfg: Config, x: State, step: Step) {
    step.Arrival?
    && FateOf(SlotAt(x.slots, step.m.observation.slot), step.m.observation.entryIndex, cfg.maxPending).Overwrites?
  }

  lemma ReceiveConserves(cfg: Config, x: State, m: MergedEntry, now: nat)
    requires Steady(x.slots)
    ensures Accounted(Receive(cfg, x, m, now)) + OneIf(Overwriting(cfg, x, Arrival(m, now))) == Accounted(x) + 1
  {
    var st := SlotAt(x.slots, m.observation.slot);
    var r := Arrive(st, m, now, cfg.maxPending);
    ArriveConserves(st, m, now, cfg.maxPending);
    BufferedUpdate(x.slots, m.observation.slot, r.st);
    CountConcat(x.out, r.events, IsImmediate);
    CountConcat(x.out, r.events, IsReordered);
  }

  function Arrivals(steps: seq<Step>): nat {
    if steps == [] then 0 else Arrivals(steps[..|steps| - 1]) + OneIf(steps[|steps| - 1].Arrival?)
  }

  /** Arrivals that replaced a buffered entry of the same slot and index. */
  function Overwritten(cfg: Config, steps: seq<Step>): nat {
    if steps == [] then 0
    else
      var init := steps[..|steps| - 1];
      Overwritten(cfg, init) + OneIf(Overwriting(cfg, Run(cfg, init), steps[|steps| - 1]))
  }

  /** No arrival is unaccounted for, in any run. */
  lemma {:induction false} EveryArrivalIsAccountedFor(cfg: Config, steps: seq<Step>)
    ensures Arrivals(steps) == Accounted(Run(cfg, steps)) + Overwritten(cfg, steps)
  {
    if steps != [] {
      var init, last := steps[..|steps| - 1], steps[|steps| - 1];
      EveryArrivalIsAccountedFor(cfg, init);
      match last
      case Arrival(m, at) => ReceiveConserves(cfg, Run(cfg, init), m, at);
      case Sweep(at) => SweepConserves(cfg, Run(cfg, init), at);
    }
  }

  lemma {:induction false} SealEmpties(slots: map<nat, PohSlot>)
    requires forall s :: s in slots ==> slots[s].pending == map[]
    ensures Buffered(slots) == 0
  {
    if slots != map[] {
      var c :| c in slots && Buffered(slots) == |slots[c].pending| + Buffered(slots - {c});
      SealEmpties(slots - {c});
    }
  }

  /** After the final flush nothing is buffered: the counters alone account for every arrival. */
  lemma {:induction false} FlushAccountsForEverything(cfg: Config, steps: seq<Step>, now: nat)
    ensures var y := Finish(cfg, Run(cfg, steps), now);
            Arrivals(steps) == Count(y.out, IsImmediate) + Count(y.out, IsReordered)
                               + y.capacityDrops + y.duplicatesDropped + y.lateAfterSeal
                               + Overwritten(cfg, steps)
  {
    var x := Run(cfg, steps);
    var swept := SweepAll(cfg, x, now);
    var keys := Ascending(swept.slots.Keys);
    var b := ForEach(swept.slots, keys, Seal(now));
    EveryArrivalIsAccountedFor(cfg, steps);
    SweepConserves(cfg, x, now);
    ForEachConserves(swept.slots, keys, Seal(now));
    CountConcat(swept.out, b.events, IsImmediate);
    CountConcat(swept.out, b.events, IsReordered);
    forall s | s in b.slots ensures b.slots[s].pending == map[] {
      ForEachAt(swept.slots, keys, Seal(now), s);
    }
    SealEmpties(b.slots);
  }

  // ---------- what each drop counter counts ----------

  /** The state that an arrival finds for its slot. */
  function FoundBy(cfg: Config, init: seq<Step>, m: MergedEntry): PohSlot {
    SlotAt(Run(cfg, init).slots, m.observation.slot)
  }

  /** Arrivals that find their slot sealed. */
  function AfterSealIn(cfg: Config, steps: seq<Step>): nat {
    if steps == [] then 0
    else
      var init, last := steps[..|steps| - 1], steps[|steps| - 1];
      AfterSealIn(cfg, init) + OneIf(last.Arrival? && FoundBy(cfg, init, last.m).sealed)
  }

  /** Arrivals whose index has already been passed. */
  function BelowCursorIn(cfg: Config, steps: seq<Step>): nat {
    if steps == [] then 0
    else
      var init, last := steps[..|steps| - 1], steps[|steps| - 1];
      BelowCursorIn(cfg, init) +
      OneIf(last.Arrival? && var st := FoundBy(cfg, init, last.m); !st.sealed && last.m.observation.entryIndex < st.next)
  }

  /** Early arrivals that find the buffer full. */
  function CrowdedOutIn(cfg: Config, steps: seq<Step>): nat {
    if steps == [] then 0
    else
      var init, last := steps[..|steps| - 1], steps[|steps| - 1];
      CrowdedOutIn(cfg, init) +
      OneIf(last.Arrival? && var st := FoundBy(cfg, init, last.m);
            !st.sealed && last.m.observation.entryIndex > st.next && |st.pending| >= cfg.maxPending)
  }

  lemma ReceiveDrops(cfg: Config, x: State, m: MergedEntry, at: nat)
    requires Steady(x.slots)
    ensures var y, st := Receive(cfg, x, m, at), SlotAt(x.slots, m.observation.slot);
            && y.lateAfterSeal == x.lateAfterSeal + OneIf(st.sealed)
            && y.duplicatesDropped == x.duplicatesDropped + OneIf(!st.sealed && m.observation.entryIndex < st.next)
            && y.capacityDrops == x.capacityDrops +
               OneIf(!st.sealed && m.observation.entryIndex > st.next && |st.pending| >= cfg.maxPending)
  {
  }

  lemma SweepDropsNothing(cfg: Config, x: State, now: nat)
    requires Steady(x.slots)
    ensures var y := SweepAll(cfg, x, now);
            y.lateAfterSeal == x.lateAfterSeal && y.duplicatesDropped == x.duplicatesDropped && y.capacityDrops == x.capacityDrops
    ensures var y := Finish(cfg, x, now);
            y.lateAfterSeal == x.lateAfterSeal && y.duplicatesDropped == x.duplicatesDropped && y.capacityDrops == x.capacityDrops
  {
  }

  /** The drop counters are these three numbers. */
  predicate Dropped(x: State, afterSeal: nat, belowCursor: nat, crowdedOut: nat) {
    x.lateAfterSeal == afterSeal && x.duplicatesDropped == belowCursor && x.capacityDrops == crowdedOut
  }

  lemma {:induction false} RunDrops(cfg: Config, steps: seq<Step>)
    ensures Dropped(Run(cfg, steps), AfterSealIn(cfg, steps), BelowCursorIn(cfg, steps), CrowdedOutIn(cfg, steps))
  {
    if steps != [] {
      var init, last := steps[..|steps| - 1], steps[|steps| - 1];
      RunDrops(cfg, init);
      if last.Arrival? {
        ReceiveDrops(cfg, Run(cfg, init), last.m, last.at);
      } else {
        SweepDropsNothing(cfg, Run(cfg, init), last.at);
      }
    }
  }

  /** The three drop counters of every run, before and after the final flush. */
  lemma {:induction false} DropsAreCounted(cfg: Config, steps: seq<Step>, now: nat)
    ensures Dropped(Run(cfg, steps), AfterSealIn(cfg, steps), BelowCursorIn(cfg, steps), CrowdedOutIn(cfg, steps))
    ensures Dropped(Finish(cfg, Run(cfg, steps), now), AfterSealIn(cfg, steps), BelowCursorIn(cfg, steps), CrowdedOutIn(cfg, steps))
  {
    RunDrops(cfg, steps);
    SweepDropsNothing(cfg, Run(cfg, steps), now);
  }

  // ---------- the peak of the buffers ----------

  predicate AllUpTo(slots: map<nat, PohSlot>, size: nat) {
    forall s :: s in slots ==> |slots[s].pending| <= size
  }

  predicate SomeOf(slots: map<nat, PohSlot>, size: nat) {
    exists s :: s in slots && |slots[s].pending| == size
  }

  /** No buffer has ever been larger. */
  predicate NeverLarger(cfg: Config, steps: seq<Step>, size: nat) {
    AllUpTo(Run(cfg, steps).slots, size) && (steps != [] ==> NeverLarger(cfg, steps[..|steps| - 1], size))
  }

  /** Some buffer was this large at some moment. */
  predicate OnceThatLarge(cfg: Config, steps: seq<Step>, size: nat) {
    SomeOf(Run(cfg, steps).slots, size) || (steps != [] && OnceThatLarge(cfg, steps[..|steps| - 1], size))
  }

  lemma {:induction false} LargerBoundHolds(cfg: Config, steps: seq<Step>, size: nat, more: nat)
    requires NeverLarger(cfg, steps, size) && size <= more
    ensures NeverLarger(cfg, steps, more)
  {
    if steps != [] {
      LargerBoundHolds(cfg, steps[..|steps| - 1], size, more);
    }
  }

  lemma {:induction false} ArrivalGrowsToPeak(cfg: Config, st: PohSlot, m: MergedEntry, at: nat, peak: nat)
    requires Resting(st, m.observation.slot) && |st.pending| <= peak
    ensures var r, fate := Arrive(st, m, at, cfg.maxPending), FateOf(st, m.observation.entryIndex, cfg.maxPending);
            |r.st.pending| <= if fate.Buffered? || fate.Overwrites? then Max(peak, |r.st.pending|) else peak
  {
    if FateOf(st, m.observation.entryIndex, cfg.maxPending).InOrder? {
      AdvanceShrinks(AfterEntry(Seen(st, at), m.observation, at), m.observation.slot, at, StopAtGap);
    }
  }

  lemma {:induction false} SweepShrinksAll(cfg: Config, x: State, at: nat, size: nat)
    requires Steady(x.slots) && AllUpTo(x.slots, size)
    ensures AllUpTo(SweepAll(cfg, x, at).slots, size)
  {
    var y := SweepAll(cfg, x, at);
    forall s | s in y.slots ensures |y.slots[s].pending| <= size {
      if s in x.slots {
        SweepAt(cfg, x, at, s);
        var a := Apply(TimeOutGaps(at, cfg.entryTimeout), x.slots[s], s);
        ApplyShrinks(TimeOutGaps(at, cfg.entryTimeout), x.slots[s], s);
        ApplyShrinks(Seal(at), a.st, s);
      } else {
        SweepElsewhere(cfg, x, at, s);
      }
    }
  }

  lemma {:induction false} ReceivePeaks(cfg: Config, x: State, m: MergedEntry, at: nat)
    requires Steady(x.slots) && AllUpTo(x.slots, x.pendingPeak)
    ensures var y := Receive(cfg, x, m, at);
            && AllUpTo(y.slots, y.pendingPeak) && x.pendingPeak <= y.pendingPeak
            && (y.pendingPeak > x.pendingPeak ==> SomeOf(y.slots, y.pendingPeak))
  {
    var y, s := Receive(cfg, x, m, at), m.observation.slot;
    ArrivalGrowsToPeak(cfg, SlotAt(x.slots, s), m, at, x.pendingPeak);
    if y.pendingPeak > x.pendingPeak {
      assert |y.slots[s].pending| == y.pendingPeak;
    }
  }

  /** The peak counter is the size of the largest buffer there has been. */
  lemma {:induction false} PeakIsLargestBuffer(cfg: Config, steps: seq<Step>)
    ensures var peak := Run(cfg, steps).pendingPeak;
            NeverLarger(cfg, steps, peak) && (peak > 0 ==> OnceThatLarge(cfg, steps, peak))
  {
    if steps != [] {
      var init, last := steps[..|steps| - 1], steps[|steps| - 1];
      PeakIsLargestBuffer(cfg, init);
      var x, y := Run(cfg, init), Run(cfg, steps);
      if last.Arrival? {
        ReceivePeaks(cfg, x, last.m, last.at);
      } else {
        SweepShrinksAll(cfg, x, last.at, x.pendingPeak);
      }
      LargerBoundHolds(cfg, init, x.pendingPeak, y.pendingPeak);
    }
  }
}
