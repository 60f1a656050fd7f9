/**
 What the waiting times in the output of the PoH supervisor are: how long an entry stood in
 the reorder buffer before it was sent, and how long the entry behind a gap had.
 */
module PohWaits {
  import opened Entries
  import opened OrderedMaps
  import opened PohSlots
  import opened PohTraces
  import opened PohRuns
  import opened PohSafety

  /** A duration from `since` to `now`, in microseconds, at most 2^32 - 1. */
  function Microseconds(now: nat, since: nat): nat {
    Min(if now >= since then now - since else 0, 4_294_967_295)
  }

  /** The first index after `idx` in the buffer. */
  predicate FirstAfter(pending: map<nat, PendingEntry>, idx: nat, k: nat) {
    k in pending && idx < k && forall j :: j in pending && idx < j ==> k <= j
  }

  /** The event was sent at `now` out of this buffer. */
  predicate FromBuffer(e: OrderedEvent, pending: map<nat, PendingEntry>, now: nat) {
    && (e.Entry? ==>
          && e.wasReordered && e.entryIndex in pending
          && e.observation == pending[e.entryIndex].merged.observation
          && e.waitUs == Microseconds(now, pending[e.entryIndex].bufferedAt))
    && (e.Missing? ==>
          && e.entryIndex !in pending
          && exists k :: k in pending && FirstAfter(pending, e.entryIndex, k) && e.waitedForUs == Microseconds(now, pending[k].bufferedAt))
  }

  /** Moving the cursor takes from the buffer exactly what lies below the new cursor. */
  lemma {:induction false} AdvanceTakesBelow(st: PohSlot, slot: nat, now: nat, gaps: GapPolicy)
    requires Ready(st, slot)
    ensures var r := Advance(st, slot, now, gaps);
            && st.next <= r.st.next
            && r.st.pending == map k | k in st.pending && k >= r.st.next :: st.pending[k]
    decreases |st.pending|, GapWidth(st, slot)
  {
    if CanMove(st, now, gaps) {
      AdvanceTakesBelow(MoveOne(st, slot, now, gaps).st, slot, now, gaps);
    } else {
      assert st.pending == map k | k in st.pending && k >= st.next :: st.pending[k];
    }
  }

  /** What holds of a buffer without the indices below some cursor holds of the whole buffer. */
  lemma FromLargerBuffer(e: OrderedEvent, part: map<nat, PendingEntry>, whole: map<nat, PendingEntry>, from: nat, now: nat)
    requires part == map k | k in whole && k >= from :: whole[k]
    requires FromBuffer(e, part, now) && (e.Entry? || e.Missing? ==> e.entryIndex >= from)
    ensures FromBuffer(e, whole, now)
  {
    if e.Missing? {
      var k :| k in part && FirstAfter(part, e.entryIndex, k) && e.waitedForUs == Microseconds(now, part[k].bufferedAt);
      assert forall j :: j in whole && e.entryIndex < j ==> j in part;
      assert FirstAfter(whole, e.entryIndex, k);
    }
  }

  lemma {:induction false} MoveIsFromBuffer(st: PohSlot, slot: nat, now: nat, gaps: GapPolicy)
    requires Ready(st, slot) && CanMove(st, now, gaps)
    ensures FromBuffer(MoveOne(st, slot, now, gaps).event, st.pending, now)
  {
    var first := FirstKey(st.pending);
    if first != st.next {
      assert FirstAfter(st.pending, st.next, first);
    }
  }

  /** All events from here on have the cursor's index or a later one. */
  predicate AllFromBuffer(events: seq<OrderedEvent>, pending: map<nat, PendingEntry>, from: nat, now: nat) {
    forall e :: e in events ==> FromBuffer(e, pending, now) && (e.Entry? || e.Missing? ==> e.entryIndex >= from)
  }

  lemma {:induction false} AdvanceIsFromBuffer(st: PohSlot, slot: nat, now: nat, gaps: GapPolicy)
    requires Ready(st, slot)
    ensures AllFromBuffer(Advance(st, slot, now, gaps).events, st.pending, st.next, now)
    decreases |st.pending|, GapWidth(st, slot)
  {
    if CanMove(st, now, gaps) {
      var m := MoveOne(st, slot, now, gaps);
      MoveIsFromBuffer(st, slot, now, gaps);
      AdvanceIsFromBuffer(m.st, slot, now, gaps);
      assert m.st.pending == map k | k in st.pending && k >= m.st.next :: st.pending[k];
      var rest := Advance(m.st, slot, now, gaps).events;
      forall e | e in rest ensures FromBuffer(e, st.pending, now) && (e.Entry? || e.Missing? ==> e.entryIndex >= st.next) {
        FromLargerBuffer(e, m.st.pending, st.pending, m.st.next, now);
      }
    }
  }

  lemma {:induction false} SweepIsFromBuffer(cfg: Config, st: PohSlot, s: nat, maxSlot: nat, now: nat)
    requires Resting(st, s)
    ensures forall e :: e in SweepSlot(cfg, st, s, maxSlot, now).events ==> FromBuffer(e, st.pending, now)
  {
    if !st.sealed {
      var a := Advance(st, s, now, SkipStale(cfg.entryTimeout));
      AdvanceIsFromBuffer(st, s, now, SkipStale(cfg.entryTimeout));
      AdvanceTakesBelow(st, s, now, SkipStale(cfg.entryTimeout));
      SealIsFromBuffer(a.st, s, now);
      forall e | e in Apply(Seal(now), a.st, s).events ensures FromBuffer(e, st.pending, now) {
        FromLargerBuffer(e, a.st.pending, st.pending, a.st.next, now);
      }
    }
  }

  lemma {:induction false} SealIsFromBuffer(st: PohSlot, s: nat, now: nat)
    requires Resting(st, s)
    ensures AllFromBuffer(Apply(Seal(now), st, s).events, st.pending, st.next, now)
  {
    if !st.sealed {
      AdvanceIsFromBuffer(st, s, now, SkipAll);
    }
  }

  /** An in-order arrival is sent without waiting, and what it releases comes out of the buffer. */
  lemma {:induction false} ArrivalIsFromBuffer(st: PohSlot, m: MergedEntry, now: nat, maxPending: nat)
    requires Resting(st, m.observation.slot)
    ensures var events := Arrive(st, m, now, maxPending).events;
            events != [] ==>
              && events[0].Entry? && events[0].observation == m.observation && !events[0].wasReordered && events[0].waitUs == 0
              && forall e :: e in events[1..] ==> FromBuffer(e, st.pending, now)
  {
    if FateOf(st, m.observation.entryIndex, maxPending).InOrder? {
      AdvanceIsFromBuffer(AfterEntry(Seen(st, now), m.observation, now), m.observation.slot, now, StopAtGap);
    }
  }

  // ---------- over a run ----------

  /** Every buffered entry is an arrival of the run, with its instant. */
  predicate Came(steps: seq<Step>, p: PendingEntry) {
    exists i :: 0 <= i < |steps| && steps[i] == Arrival(p.merged, p.bufferedAt)
  }

  predicate AllCame(steps: seq<Step>, pending: map<nat, PendingEntry>) {
    forall k :: k in pending ==> Came(steps, pending[k])
  }

  lemma CameEarlier(steps: seq<Step>, step: Step, p: PendingEntry)
    requires Came(steps, p)
    ensures Came(steps + [step], p)
  {
    var i :| 0 <= i < |steps| && steps[i] == Arrival(p.merged, p.bufferedAt);
    assert (steps + [step])[i] == Arrival(p.merged, p.bufferedAt);
  }

  lemma {:induction false} ArriveAddsOnly(st: PohSlot, m: MergedEntry, now: nat, maxPending: nat)
    requires Resting(st, m.observation.slot)
    ensures var r := Arrive(st, m, now, maxPending);
            forall k :: k in r.st.pending ==>
              (k in st.pending && r.st.pending[k] == st.pending[k]) || r.st.pending[k] == PendingEntry(m, now)
  {
    if FateOf(st, m.observation.entryIndex, maxPending).InOrder? {
      AdvanceTakesBelow(AfterEntry(Seen(st, now), m.observation, now), m.observation.slot, now, StopAtGap);
    }
  }

  lemma {:induction false} SweepTakesOnly(cfg: Config, st: PohSlot, s: nat, maxSlot: nat, now: nat)
    requires Resting(st, s)
    ensures var r := SweepSlot(cfg, st, s, maxSlot, now);
            forall k :: k in r.st.pending ==> k in st.pending && r.st.pending[k] == st.pending[k]
  {
    if !st.sealed {
      var a := Advance(st, s, now, SkipStale(cfg.entryTimeout));
      AdvanceTakesBelow(st, s, now, SkipStale(cfg.entryTimeout));
      AdvanceTakesBelow(a.st, s, now, SkipAll);
    }
  }

  lemma {:induction false} StepKeepsCame(cfg: Config, steps: seq<Step>, step: Step, v: View, maxSlot: nat, s: nat)
    requires Proper(v, s) && AllCame(steps, v.st.pending)
    ensures AllCame(steps + [step], ViewNext(cfg, v, maxSlot, step, s).st.pending)
  {
    var w := ViewNext(cfg, v, maxSlot, step, s);
    if step.Sweep? {
      SweepTakesOnly(cfg, v.st, s, maxSlot, step.at);
    } else if step.m.observation.slot == s {
      ArriveAddsOnly(v.st, step.m, step.at, cfg.maxPending);
    }
    forall k | k in w.st.pending ensures Came(steps + [step], w.st.pending[k]) {
      if k in v.st.pending && w.st.pending[k] == v.st.pending[k] {
        CameEarlier(steps, step, v.st.pending[k]);
      } else {
        assert (steps + [step])[|steps|] == Arrival(w.st.pending[k].merged, w.st.pending[k].bufferedAt);
      }
    }
  }

  /** What is buffered for slot `s` after the run came during the run. */
  predicate BufferCame(cfg: Config, steps: seq<Step>, s: nat) {
    AllCame(steps, ViewOf(Run(cfg, steps), s).st.pending)
  }

  lemma {:induction false} NothingBuffered(cfg: Config, steps: seq<Step>, s: nat)
    requires steps == []
    ensures BufferCame(cfg, steps, s)
  {
    assert ViewOf(Run(cfg, steps), s).st.pending == map[];
  }

  lemma {:induction false} LastStepView(cfg: Config, steps: seq<Step>, s: nat)
    requires steps != []
    ensures var x := Run(cfg, steps[..|steps| - 1]);
            Proper(ViewOf(x, s), s)
            && ViewOf(Run(cfg, steps), s) == ViewNext(cfg, ViewOf(x, s), x.maxSlot, steps[|steps| - 1], s)
  {
    SlotsAreIndependent(cfg, Run(cfg, steps[..|steps| - 1]), steps[|steps| - 1], s);
  }

  lemma {:induction false} StepKeepsCameTo(cfg: Config, init: seq<Step>, steps: seq<Step>, v: View, w: View, maxSlot: nat, s: nat)
    requires steps != [] && init == steps[..|steps| - 1]
    requires Proper(v, s) && w == ViewNext(cfg, v, maxSlot, steps[|steps| - 1], s) && AllCame(init, v.st.pending)
    ensures AllCame(steps, w.st.pending)
  {
    StepKeepsCame(cfg, init, steps[|steps| - 1], v, maxSlot, s);
    assert init + [steps[|steps| - 1]] == steps;
  }

  lemma {:induction false} StepKeepsBufferCame(cfg: Config, steps: seq<Step>, s: nat)
    requires steps != [] && BufferCame(cfg, steps[..|steps| - 1], s)
    ensures BufferCame(cfg, steps, s)
  {
    LastStepView(cfg, steps, s);
    var x := Run(cfg, steps[..|steps| - 1]);
    StepKeepsCameTo(cfg, steps[..|steps| - 1], steps, ViewOf(x, s), ViewOf(Run(cfg, steps), s), x.maxSlot, s);
  }

  lemma {:induction false} BufferedCame(cfg: Config, steps: seq<Step>, s: nat)
    ensures BufferCame(cfg, steps, s)
  {
    if steps == [] {
      NothingBuffered(cfg, steps, s);
    } else {
      BufferedCame(cfg, steps[..|steps| - 1], s);
      StepKeepsBufferCame(cfg, steps, s);
    }
  }

  /**
   The event's waiting time is that of an arrival among `steps`, up to `now`: of its own
   entry, or for a gap marker of a later entry of the slot.
   */
  predicate WaitedSinceArrival(steps: seq<Step>, e: OrderedEvent, now: nat) {
    && (e.Entry? && e.wasReordered ==>
          exists i :: 0 <= i < |steps| && steps[i].Arrival? && steps[i].m.observation == e.observation
                      && e.waitUs == Microseconds(now, steps[i].at))
    && (e.Missing? ==>
          exists i :: 0 <= i < |steps| && steps[i].Arrival? && steps[i].m.observation.entryIndex > e.entryIndex
                      && e.waitedForUs == Microseconds(now, steps[i].at))
  }

  lemma {:induction false} BufferedWaited(steps: seq<Step>, e: OrderedEvent, st: PohSlot, s: nat, now: nat)
    requires Ready(st, s) && AllCame(steps, st.pending) && FromBuffer(e, st.pending, now)
    ensures WaitedSinceArrival(steps, e, now)
  {
    if e.Entry? {
      var p := st.pending[e.entryIndex];
      assert Came(steps, p);
      var i :| 0 <= i < |steps| && steps[i] == Arrival(p.merged, p.bufferedAt);
      assert steps[i].m.observation == e.observation;
    } else if e.Missing? {
      var k :| k in st.pending && FirstAfter(st.pending, e.entryIndex, k) && e.waitedForUs == Microseconds(now, st.pending[k].bufferedAt);
      assert Came(steps, st.pending[k]);
      var i :| 0 <= i < |steps| && steps[i] == Arrival(st.pending[k].merged, st.pending[k].bufferedAt);
      assert steps[i].m.observation.entryIndex == k;
    }
  }

  /**
   What each step of a run adds to the output of slot `s`: an arrival its own entry at once,
   with no wait, and then, like a sweep, events whose waits run from arrivals before the
   step to the step's own instant.
   */
  lemma {:induction false} WaitsAreTrue(cfg: Config, steps: seq<Step>, step: Step, s: nat) returns (added: seq<OrderedEvent>)
    ensures Of(s, Run(cfg, steps + [step]).out) == Of(s, Run(cfg, steps).out) + added
    ensures forall j: nat :: j < |added| ==>
              || (WaitedSinceArrival(steps, added[j], step.at) && (added[j].Entry? ==> added[j].wasReordered))
              || (j == 0 && step.Arrival? && added[j].Entry? && added[j].observation == step.m.observation
                  && !added[j].wasReordered && added[j].waitUs == 0)
  {
    var x := Run(cfg, steps);
    var v := ViewOf(x, s);
    assert (steps + [step])[..|steps|] == steps;
    BufferedCame(cfg, steps, s);
    RunMatchesWatch(cfg, steps, s);
    SlotsAreIndependent(cfg, x, step, s);
    added := AddedBy(cfg, v, x.maxSlot, step, s);
    AddedWaits(cfg, steps, v, x.maxSlot, step, s);
    assert v.sent + [] == v.sent;
  }

  /** What a step adds to the output of a slot. */
  function AddedBy(cfg: Config, v: View, maxSlot: nat, step: Step, s: nat): seq<OrderedEvent>
    requires Proper(v, s)
  {
    match step
    case Arrival(m, at) => if m.observation.slot == s then Arrive(v.st, m, at, cfg.maxPending).events else []
    case Sweep(at) => if v.known then SweepSlot(cfg, v.st, s, maxSlot, at).events else []
  }

  lemma {:induction false} AddedWaits(cfg: Config, steps: seq<Step>, v: View, maxSlot: nat, step: Step, s: nat)
    requires Proper(v, s) && AllCame(steps, v.st.pending)
    ensures var added := AddedBy(cfg, v, maxSlot, step, s);
            forall j: nat :: j < |added| ==>
              || (WaitedSinceArrival(steps, added[j], step.at) && (added[j].Entry? ==> added[j].wasReordered))
              || (j == 0 && step.Arrival? && added[j].Entry? && added[j].observation == step.m.observation
                  && !added[j].wasReordered && added[j].waitUs == 0)
  {
    var added := AddedBy(cfg, v, maxSlot, step, s);
    match step
    case Arrival(m, at) =>
      if m.observation.slot == s {
        ArrivalIsFromBuffer(v.st, m, at, cfg.maxPending);
        forall j: nat | 0 < j < |added| ensures WaitedSinceArrival(steps, added[j], at) && (added[j].Entry? ==> added[j].wasReordered) {
          assert added[1..][j - 1] == added[j];
          BufferedWaited(steps, added[j], v.st, s, at);
        }
      }
    case Sweep(at) =>
      if v.known {
        SweepIsFromBuffer(cfg, v.st, s, maxSlot, at);
        forall j: nat | j < |added| ensures WaitedSinceArrival(steps, added[j], at) && (added[j].Entry? ==> added[j].wasReordered) {
          BufferedWaited(steps, added[j], v.st, s, at);
        }
      }
  }
}
