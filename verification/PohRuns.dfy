/**
 The PoH supervisor as a state machine over whole runs
 (crates/tick-trigger-fan-out-bench/src/poh_supervisor.rs, `run_loop`): arrivals and
 sweeps in any order, and the final flush.
 */
module PohRuns {
  import opened Entries
  import opened OrderedMaps
  import opened PohSlots

  datatype Config = Config(entryTimeout: nat, sealLag: nat, maxPending: nat)

  datatype State = State(
    slots: map<nat, PohSlot>,
    maxSlot: nat,
    out: seq<OrderedEvent>,
    capacityDrops: nat,
    duplicatesDropped: nat,
    lateAfterSeal: nat,
    pendingPeak: nat)

  const INITIAL := State(map[], 0, [], 0, 0, 0, 0)

  datatype Step = Arrival(m: MergedEntry, at: nat) | Sweep(at: nat)

  predicate Steady(slots: map<nat, PohSlot>) {
    forall s :: s in slots ==> Resting(slots[s], s)
  }

  /** `slots.entry(slot).or_default()`. */
  function SlotAt(slots: map<nat, PohSlot>, s: nat): PohSlot {
    if s in slots then slots[s] else EMPTY_SLOT
  }

  function Receive(cfg: Config, x: State, m: MergedEntry, now: nat): (y: State)
    requires Steady(x.slots)
    ensures Steady(y.slots)
  {
    var s, idx := m.observation.slot, m.observation.entryIndex;
    var before := SlotAt(x.slots, s);
    var fate := FateOf(before, idx, cfg.maxPending);
    var r := Arrive(before, m, now, cfg.maxPending);
    State(
      x.slots[s := r.st],
      Max(x.maxSlot, s),
      x.out + r.events,
      x.capacityDrops + if fate == OverCapacity then 1 else 0,
      x.duplicatesDropped + if fate == BelowCursor then 1 else 0,
      x.lateAfterSeal + if fate == AfterSeal then 1 else 0,
      if fate.Buffered? || fate.Overwrites? then Max(x.pendingPeak, |r.st.pending|) else x.pendingPeak)
  }

  datatype Batch = Batch(slots: map<nat, PohSlot>, events: seq<OrderedEvent>)

  /** Applies an operation to the given slots, one after the other. */
  function ForEach(slots: map<nat, PohSlot>, keys: seq<nat>, op: SlotOp): (b: Batch)
    requires Steady(slots)
    requires forall k :: k in keys ==> k in slots
    ensures Steady(b.slots) && b.slots.Keys == slots.Keys
  {
    if keys == [] then Batch(slots, [])
    else
      var r := Apply(op, slots[keys[0]], keys[0]);
      var rest := ForEach(slots[keys[0] := r.st], keys[1..], op);
      Batch(rest.slots, r.events + rest.events)
  }

  /** The slots that Phase B of the sweep seals. */
  function Due(cfg: Config, slots: map<nat, PohSlot>, maxSlot: nat): (keys: seq<nat>)
    ensures forall k :: k in keys <==> k in slots && k + cfg.sealLag <= maxSlot
    ensures Increasing(keys)
  {
    Ascending(set k | k in slots && k + cfg.sealLag <= maxSlot)
  }

  function DropCutoff(cfg: Config, maxSlot: nat): nat {
    SatSub(maxSlot, cfg.sealLag + 10)
  }

  /** Phase C of the sweep. */
  function Retain(cfg: Config, slots: map<nat, PohSlot>, maxSlot: nat): map<nat, PohSlot> {
    map s | s in slots && (s > DropCutoff(cfg, maxSlot) || !slots[s].sealed) :: slots[s]
  }

  function SweepAll(cfg: Config, x: State, now: nat): (y: State)
    requires Steady(x.slots)
    ensures Steady(y.slots)
  {
    var a := ForEach(x.slots, Ascending(x.slots.Keys), TimeOutGaps(now, cfg.entryTimeout));
    var b := ForEach(a.slots, Due(cfg, a.slots, x.maxSlot), Seal(now));
    x.(slots := Retain(cfg, b.slots, x.maxSlot), out := x.out + a.events + b.events)
  }

  function Next(cfg: Config, x: State, step: Step): (y: State)
    requires Steady(x.slots)
    ensures Steady(y.slots)
  {
    match step
    case Arrival(m, at) => Receive(cfg, x, m, at)
    case Sweep(at) => SweepAll(cfg, x, at)
  }

  function Run(cfg: Config, steps: seq<Step>): (x: State)
    ensures Steady(x.slots)
  {
    if steps == [] then INITIAL
    else Next(cfg, Run(cfg, steps[..|steps| - 1]), steps[|steps| - 1])
  }

  /** The final flush: one more sweep, then every remaining slot is sealed. */
  function Finish(cfg: Config, x: State, now: nat): (y: State)
    requires Steady(x.slots)
    ensures Steady(y.slots)
  {
    var swept := SweepAll(cfg, x, now);
    var b := ForEach(swept.slots, Ascending(swept.slots.Keys), Seal(now));
    swept.(slots := b.slots, out := swept.out + b.events)
  }

  // ---------- one slot's share of the output ----------

  function Of(s: nat, events: seq<OrderedEvent>): seq<OrderedEvent> {
    if events == [] then []
    else
      var init, last := events[..|events| - 1], events[|events| - 1];
      if last.slot == s then Of(s, init) + [last] else Of(s, init)
  }

  lemma {:induction false} OfConcat(s: nat, a: seq<OrderedEvent>, b: seq<OrderedEvent>)
    ensures Of(s, a + b) == Of(s, a) + Of(s, b)
  {
    if b == [] {
      assert a + b == a;
    } else {
      var init, last := b[..|b| - 1], b[|b| - 1];
      OfConcat(s, a, init);
      assert (a + b)[..|a + b| - 1] == a + init;
    }
  }

  predicate AllOf(s: nat, events: seq<OrderedEvent>) {
    forall e :: e in events ==> e.slot == s
  }

  lemma {:induction false} OfOwn(s: nat, t: nat, events: seq<OrderedEvent>)
    requires AllOf(t, events)
    ensures Of(s, events) == if s == t then events else []
  {
    if events != [] {
      var init, last := events[..|events| - 1], events[|events| - 1];
      assert forall e :: e in init ==> e in events;
      assert last in events;
      OfOwn(s, t, init);
      assert init + [last] == events;
    }
  }

  lemma {:induction false} AdvanceIsOf(st: PohSlot, slot: nat, now: nat, gaps: GapPolicy)
    requires Ready(st, slot)
    ensures AllOf(slot, Advance(st, slot, now, gaps).events)
    decreases |st.pending|, GapWidth(st, slot)
  {
    if CanMove(st, now, gaps) {
      AdvanceIsOf(MoveOne(st, slot, now, gaps).st, slot, now, gaps);
    }
  }

  lemma ArriveIsOf(st: PohSlot, m: MergedEntry, now: nat, maxPending: nat)
    requires Resting(st, m.observation.slot)
    ensures AllOf(m.observation.slot, Arrive(st, m, now, maxPending).events)
  {
    if !st.sealed && m.observation.entryIndex == st.next {
      AdvanceIsOf(AfterEntry(Seen(st, now), m.observation, now), m.observation.slot, now, StopAtGap);
    }
  }

  lemma ApplyIsOf(op: SlotOp, st: PohSlot, slot: nat)
    requires Resting(st, slot)
    ensures AllOf(slot, Apply(op, st, slot).events)
  {
    if !st.sealed {
      match op
      case TimeOutGaps(now, timeout) => AdvanceIsOf(st, slot, now, SkipStale(timeout));
      case Seal(now) => AdvanceIsOf(st, slot, now, SkipAll);
    }
  }

  /** A pass over several slots treats each of them as if it were alone. */
  lemma {:induction false} ForEachAt(slots: map<nat, PohSlot>, keys: seq<nat>, op: SlotOp, s: nat)
    requires Steady(slots) && Increasing(keys)
    requires forall k :: k in keys ==> k in slots
    requires s in slots
    ensures var b := ForEach(slots, keys, op);
            var r := if s in keys then Apply(op, slots[s], s) else Emission(slots[s], []);
            b.slots[s] == r.st && Of(s, b.events) == r.events
  {
    if keys != [] {
      var k := keys[0];
      var r := Apply(op, slots[k], k);
      var later := slots[k := r.st];
      ForEachAt(later, keys[1..], op, s);
      ApplyIsOf(op, slots[k], k);
      OfOwn(s, k, r.events);
      OfConcat(s, r.events, ForEach(later, keys[1..], op).events);
      if s == k {
        assert s !in keys[1..];
      } else {
        assert s in keys <==> s in keys[1..];
      }
    }
  }

  lemma {:induction false} ForEachElsewhere(slots: map<nat, PohSlot>, keys: seq<nat>, op: SlotOp, s: nat)
    requires Steady(slots)
    requires forall k :: k in keys ==> k in slots
    requires s !in slots
    ensures Of(s, ForEach(slots, keys, op).events) == []
  {
    if keys != [] {
      var k := keys[0];
      var r := Apply(op, slots[k], k);
      ForEachElsewhere(slots[k := r.st], keys[1..], op, s);
      ApplyIsOf(op, slots[k], k);
      OfOwn(s, k, r.events);
      OfConcat(s, r.events, ForEach(slots[k := r.st], keys[1..], op).events);
    }
  }
}
