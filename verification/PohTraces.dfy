/**
 What a consumer of the supervisor's output can rely on, stated on the events of one
 slot alone, and the proof that every operation on a slot keeps it.
 */
module PohTraces {
  import opened Entries
  import opened OrderedMaps
  import opened PohSlots

  predicate IsEntry(e: OrderedEvent) { e.Entry? }
  predicate IsMissing(e: OrderedEvent) { e.Missing? }
  predicate IsTick(e: OrderedEvent) { e.Entry? && e.observation.txCount == 0 }
  predicate IsImmediate(e: OrderedEvent) { e.Entry? && !e.wasReordered }
  predicate IsReordered(e: OrderedEvent) { e.Entry? && e.wasReordered }
  predicate IsTerminal(e: OrderedEvent) { e.Terminal() }

  function Count(events: seq<OrderedEvent>, p: OrderedEvent -> bool): nat {
    if events == [] then 0
    else Count(events[..|events| - 1], p) + if p(events[|events| - 1]) then 1 else 0
  }

  /**
   The late ticks of a slot: zero-transaction arrivals below the cursor, which are counted
   but not sent. `before[i]` had come when event `i` was sent, and `now` have come in all.
   */
  datatype Late = Late(before: seq<nat>, now: nat)
  {
    /** After `n` more events and then, if `tick`, one more late tick. */
    function Step(n: nat, tick: bool): Late {
      Late(before + seq(n, _ => now), now + OneIf(tick))
    }
  }

  const NONE_LATE := Late([], 0)

  lemma StepAdds(late: Late, m: nat, n: nat, tick: bool)
    ensures late.Step(m, false).Step(n, tick) == late.Step(m + n, tick)
    ensures late.Step(0, tick) == Late(late.before, late.now + OneIf(tick))
    ensures late.Step(1, tick) == Late(late.before + [late.now], late.now + OneIf(tick))
  {
  }

  /** The saturating sum of the hashes of the entries. */
  function HashSum(events: seq<OrderedEvent>): nat {
    if events == [] then 0
    else
      var last := events[|events| - 1];
      var before := HashSum(events[..|events| - 1]);
      if last.Entry? then SatAdd64(before, last.observation.numHashes) else before
  }

  predicate HasMissing(events: seq<OrderedEvent>) {
    exists e :: e in events && e.Missing?
  }

  lemma Associative(a: seq<OrderedEvent>, b: seq<OrderedEvent>, c: seq<OrderedEvent>)
    ensures a + b + c == a + (b + c)
  {
  }

  lemma {:induction false} CountSnoc(events: seq<OrderedEvent>, e: OrderedEvent, p: OrderedEvent -> bool)
    ensures Count(events + [e], p) == Count(events, p) + if p(e) then 1 else 0
  {
    assert (events + [e])[..|events|] == events;
  }

  lemma {:induction false} CountConcat(a: seq<OrderedEvent>, b: seq<OrderedEvent>, p: OrderedEvent -> bool)
    ensures Count(a + b, p) == Count(a, p) + Count(b, p)
  {
    if b == [] {
      assert a + b == a;
    } else {
      var init, last := b[..|b| - 1], b[|b| - 1];
      CountConcat(a, init, p);
      CountSnoc(a + init, last, p);
      assert a + init + [last] == a + b;
    }
  }

  /**
   The event that may follow `before` in the output of `slot`: index = position, the
   hash total exact, the uncertainty flag set just when an earlier event is `Missing`, and
   the tick number the count, up to 64, of the zero-transaction entries so far and the
   `late` ticks so far.
   */
  predicate Follows(before: seq<OrderedEvent>, e: OrderedEvent, slot: nat, late: nat) {
    var upTo := before + [e];
    match e
    case Entry(s, idx, tick, hashes, obs, _, _, uncertain) =>
      && s == obs.slot == slot
      && idx == obs.entryIndex == |before|
      && hashes == HashSum(upTo)
      && uncertain == HasMissing(before)
      && tick == Min(64, Count(upTo, IsTick) + late)
    case Missing(s, idx, _) => s == slot && idx == |before|
    case _ => false
  }

  /**
   Indices 0, 1, 2, ... each exactly once, as an entry or as a gap marker; `late[i]` late
   ticks had come when event `i` was sent.
   */
  predicate Ordered(body: seq<OrderedEvent>, slot: nat, late: seq<nat>) {
    && |late| == |body|
    && (body != [] ==>
          var n := |body| - 1;
          && Ordered(body[..n], slot, late[..n])
          && Follows(body[..n], body[n], slot, late[n])
          && (n > 0 ==> late[n - 1] <= late[n]))
  }

  lemma {:induction false} OrderedAt(body: seq<OrderedEvent>, slot: nat, late: seq<nat>, i: nat)
    requires Ordered(body, slot, late) && i < |body|
    ensures Follows(body[..i], body[i], slot, late[i])
  {
    if i < |body| - 1 {
      var n := |body| - 1;
      OrderedAt(body[..n], slot, late[..n], i);
      assert body[..n][..i] == body[..i];
    }
  }

  /** A slot that has said everything: its ordered body, and then its one terminal event. */
  predicate Finished(events: seq<OrderedEvent>, slot: nat, late: Late) {
    && events != [] && |late.before| == |events|
    && var body, end := events[..|events| - 1], events[|events| - 1];
    && Ordered(body, slot, late.before[..|body|])
    && (body != [] ==> late.before[|body| - 1] <= late.now) && late.before[|body|] == late.now
    && end.Terminal() && end.slot == slot
    && end.missingCount == Count(body, IsMissing)
    && end.lastTick == Min(64, Count(body, IsTick) + late.now)
    && (end.SlotComplete? <==> Count(body, IsTick) + late.now >= 64)
    && (end.SlotComplete? ==> end.totalEntries == Count(body, IsEntry))
  }

  /** The events of the slot end with an entry, whose hash and index the terminal event carries. */
  predicate EndsOnEntry(events: seq<OrderedEvent>) {
    && |events| >= 2
    && var last, end := events[|events| - 2], events[|events| - 1];
    && last.Entry?
    && end.Terminal()
    && end.lastEntryHash == last.observation.entryHash
    && (end.SlotIncomplete? ==> end.lastSeenIndex == last.entryIndex)
  }

  /** The hashes since the last entry that was counted as a tick; at 64 ticks the count stops. */
  function HashesSinceTick(body: seq<OrderedEvent>, late: seq<nat>): nat
    requires |late| == |body|
  {
    if body == [] then 0
    else
      var n := |body| - 1;
      var before := HashesSinceTick(body[..n], late[..n]);
      if !body[n].Entry? then before
      else if body[n].observation.txCount == 0 && Count(body[..n], IsTick) + late[n] < 64 then 0
      else SatAdd64(before, body[n].observation.numHashes)
  }

  lemma {:induction false} HashesSinceTickMore(body: seq<OrderedEvent>, e: OrderedEvent, late: Late)
    requires |late.before| == |body|
    ensures var more := late.Step(1, false);
            |more.before| == |body + [e]|
            && HashesSinceTick(body + [e], more.before) ==
               if !e.Entry? then HashesSinceTick(body, late.before)
               else if e.observation.txCount == 0 && Count(body, IsTick) + late.now < 64 then 0
               else SatAdd64(HashesSinceTick(body, late.before), e.observation.numHashes)
  {
    StepAdds(late, 0, 1, false);
    assert (body + [e])[..|body|] == body;
    assert (late.before + [late.now])[..|body|] == late.before;
  }

  /** The slot state is determined by the events sent so far. */
  predicate Tells(st: PohSlot, slot: nat, body: seq<OrderedEvent>, late: Late) {
    && st.next == |body|
    && Ordered(body, slot, late.before)
    && (body != [] ==> late.before[|body| - 1] <= late.now)
    && st.totalEmitted == Count(body, IsEntry)
    && st.missingCount == Count(body, IsMissing)
    && st.hasMissing == HasMissing(body)
    && st.cumulativeHashes == HashSum(body)
    && st.hashesSinceLastTick == HashesSinceTick(body, late.before)
    && st.tickIdx == Min(TICKS_PER_SLOT, Count(body, IsTick) + late.now)
  }

  /** The cursor never rests right after a gap marker. */
  predicate RestsOnEntry(st: PohSlot, body: seq<OrderedEvent>) {
    body != [] ==>
      var last := body[|body| - 1];
      && last.Entry?
      && st.lastEntryHash == Some(last.observation.entryHash)
      && st.lastEntryIndex == last.entryIndex
  }

  lemma {:induction false} OrderedSnoc(body: seq<OrderedEvent>, e: OrderedEvent, slot: nat, late: Late)
    requires Ordered(body, slot, late.before)
    requires body != [] ==> late.before[|body| - 1] <= late.now
    requires Follows(body, e, slot, late.now)
    ensures Ordered(body + [e], slot, late.Step(1, false).before)
  {
    StepAdds(late, 0, 1, false);
    assert (body + [e])[..|body|] == body;
    assert (late.before + [late.now])[..|body|] == late.before;
  }

  lemma EntryTells(st: PohSlot, slot: nat, body: seq<OrderedEvent>, late: Late,
                   obs: EntryObservation, now: nat, wasReordered: bool, waitUs: nat)
    requires Tells(st, slot, body, late)
    requires obs.slot == slot && obs.entryIndex == st.next
    ensures var e := EntryEvent(st, obs, wasReordered, waitUs);
            Tells(AfterEntry(st, obs, now), slot, body + [e], late.Step(1, false))
            && RestsOnEntry(AfterEntry(st, obs, now), body + [e])
  {
    var e := EntryEvent(st, obs, wasReordered, waitUs);
    CountSnoc(body, e, IsEntry);
    CountSnoc(body, e, IsMissing);
    CountSnoc(body, e, IsTick);
    assert (body + [e])[..|body|] == body;
    OrderedSnoc(body, e, slot, late);
    HashesSinceTickMore(body, e, late);
    StepAdds(late, 0, 1, false);
    assert HasMissing(body + [e]) == HasMissing(body) by {
      assert forall x :: x in body ==> x in body + [e];
    }
  }

  lemma MissingTells(st: PohSlot, slot: nat, body: seq<OrderedEvent>, late: Late, waitedUs: nat)
    requires Tells(st, slot, body, late)
    ensures Tells(AfterMissing(st), slot, body + [Missing(slot, st.next, waitedUs)], late.Step(1, false))
  {
    var e := Missing(slot, st.next, waitedUs);
    CountSnoc(body, e, IsEntry);
    CountSnoc(body, e, IsMissing);
    CountSnoc(body, e, IsTick);
    assert (body + [e])[..|body|] == body;
    OrderedSnoc(body, e, slot, late);
    HashesSinceTickMore(body, e, late);
    StepAdds(late, 0, 1, false);
    assert e in body + [e];
  }

  /** At rest, or on its way through a gap that the policy skips. */
  predicate OnTheWay(st: PohSlot, now: nat, gaps: GapPolicy, body: seq<OrderedEvent>) {
    RestsOnEntry(st, body) || CanMove(st, now, gaps)
  }

  lemma MoveTells(st: PohSlot, slot: nat, now: nat, gaps: GapPolicy, body: seq<OrderedEvent>, late: Late)
    requires Ready(st, slot) && CanMove(st, now, gaps)
    requires Tells(st, slot, body, late)
    ensures var m := MoveOne(st, slot, now, gaps); OnTheWay(m.st, now, gaps, body + [m.event])
    ensures var m := MoveOne(st, slot, now, gaps); Tells(m.st, slot, body + [m.event], late.Step(1, false))
  {
    var first := FirstKey(st.pending);
    var p := st.pending[first];
    if first == st.next {
      var popped := st.(pending := st.pending - {first});
      assert Tells(popped, slot, body, late);
      EntryTells(popped, slot, body, late, p.merged.observation, now, true, Waited(now, p.bufferedAt));
    } else {
      MissingTells(st, slot, body, late, Waited(now, p.bufferedAt));
    }
  }

  /** One turn of a cursor loop keeps a property of the slot state and of the events sent so far. */
  ghost predicate EveryMoveKeeps(P: (PohSlot, seq<OrderedEvent>) -> bool, slot: nat, now: nat, gaps: GapPolicy) {
    forall st, body :: Ready(st, slot) && CanMove(st, now, gaps) && P(st, body) ==>
      var m := MoveOne(st, slot, now, gaps);
      P(m.st, body + [m.event])
  }

  /** The induction principle of the cursor loops. */
  lemma {:induction false} AdvanceKeeps(P: (PohSlot, seq<OrderedEvent>) -> bool, st: PohSlot, slot: nat, now: nat,
                                        gaps: GapPolicy, body: seq<OrderedEvent>)
    requires EveryMoveKeeps(P, slot, now, gaps)
    requires Ready(st, slot) && P(st, body)
    ensures var r := Advance(st, slot, now, gaps); P(r.st, body + r.events)
    decreases |st.pending|, GapWidth(st, slot)
  {
    if CanMove(st, now, gaps) {
      var m := MoveOne(st, slot, now, gaps);
      AdvanceKeeps(P, m.st, slot, now, gaps, body + [m.event]);
      Associative(body, [m.event], Advance(m.st, slot, now, gaps).events);
    } else {
      assert body + [] == body;
    }
  }

  /** The output so far, of which the events from `start` on were sent on the way. */
  predicate TellsFrom(st: PohSlot, slot: nat, now: nat, gaps: GapPolicy, body: seq<OrderedEvent>, start: nat, late: Late) {
    && start <= |body|
    && Tells(st, slot, body, late.Step(|body| - start, false))
    && OnTheWay(st, now, gaps, body)
  }

  lemma MoveTellsFrom(st: PohSlot, slot: nat, now: nat, gaps: GapPolicy, body: seq<OrderedEvent>, start: nat, late: Late)
    requires Ready(st, slot) && CanMove(st, now, gaps)
    requires TellsFrom(st, slot, now, gaps, body, start, late)
    ensures var m := MoveOne(st, slot, now, gaps); TellsFrom(m.st, slot, now, gaps, body + [m.event], start, late)
  {
    MoveTells(st, slot, now, gaps, body, late.Step(|body| - start, false));
    StepAdds(late, |body| - start, 1, false);
  }

  /** Whatever the gap policy, moving the cursor keeps the output ordered and ends on an entry. */
  lemma {:induction false} AdvanceTells(st: PohSlot, slot: nat, now: nat, gaps: GapPolicy, body: seq<OrderedEvent>, late: Late)
    requires Ready(st, slot)
    requires Tells(st, slot, body, late) && OnTheWay(st, now, gaps, body)
    ensures var r := Advance(st, slot, now, gaps);
            Tells(r.st, slot, body + r.events, late.Step(|r.events|, false)) && RestsOnEntry(r.st, body + r.events)
  {
    var P := (s: PohSlot, b: seq<OrderedEvent>) => TellsFrom(s, slot, now, gaps, b, |body|, late);
    forall s, b | Ready(s, slot) && CanMove(s, now, gaps) && P(s, b)
      ensures var m := MoveOne(s, slot, now, gaps); P(m.st, b + [m.event])
    {
      MoveTellsFrom(s, slot, now, gaps, b, |body|, late);
    }
    assert P(st, body) by { StepAdds(late, 0, 0, false); }
    AdvanceKeeps(P, st, slot, now, gaps, body);
    TellsFromThere(Advance(st, slot, now, gaps).st, slot, now, gaps, body, Advance(st, slot, now, gaps).events, late);
  }

  lemma TellsFromThere(st: PohSlot, slot: nat, now: nat, gaps: GapPolicy, body: seq<OrderedEvent>,
                       events: seq<OrderedEvent>, late: Late)
    requires TellsFrom(st, slot, now, gaps, body + events, |body|, late) && !CanMove(st, now, gaps)
    ensures Tells(st, slot, body + events, late.Step(|events|, false)) && RestsOnEntry(st, body + events)
  {
    assert |body + events| - |body| == |events|;
  }

  /** A zero-transaction arrival below the cursor: it is not emitted, but it is counted. */
  predicate IsLateTick(st: PohSlot, obs: EntryObservation, maxPending: nat) {
    FateOf(st, obs.entryIndex, maxPending) == BelowCursor && obs.txCount == 0
  }

  /** The slot state as the steps of the supervisor leave it, for the events it has sent. */
  predicate Sound(st: PohSlot, slot: nat, body: seq<OrderedEvent>, late: Late) {
    Tells(st, slot, body, late) && RestsOnEntry(st, body)
  }

  lemma InOrderArrivalTells(st: PohSlot, m: MergedEntry, now: nat, body: seq<OrderedEvent>, late: Late)
    requires Resting(st, m.observation.slot) && !st.sealed
    requires Sound(st, m.observation.slot, body, late)
    requires m.observation.entryIndex == st.next
    ensures var r := Arrive(st, m, now, 0); Sound(r.st, m.observation.slot, body + r.events, late.Step(|r.events|, false)) && r.events != []
  {
    var obs, seen := m.observation, Seen(st, now);
    var e, st1 := EntryEvent(seen, obs, false, 0), AfterEntry(seen, obs, now);
    var rest := Advance(st1, obs.slot, now, StopAtGap);
    assert Tells(st1, obs.slot, body + [e], late.Step(1, false)) && RestsOnEntry(st1, body + [e]) by {
      SoundFrame(st, seen, obs.slot, body, late);
      EntryTells(seen, obs.slot, body, late, obs, now, false, 0);
    }
    EmittedThenDrained(st1, obs.slot, now, body, e, late);
    assert Arrive(st, m, now, 0) == Emission(rest.st, [e] + rest.events);
  }

  lemma EmittedThenDrained(st: PohSlot, slot: nat, now: nat, body: seq<OrderedEvent>, e: OrderedEvent, late: Late)
    requires Ready(st, slot) && Sound(st, slot, body + [e], late.Step(1, false))
    ensures var rest := Advance(st, slot, now, StopAtGap);
            Sound(rest.st, slot, body + ([e] + rest.events), late.Step(|[e] + rest.events|, false))
  {
    var rest := Advance(st, slot, now, StopAtGap);
    var later := late.Step(1, false).Step(|rest.events|, false);
    assert later == late.Step(|[e] + rest.events|, false) by { StepAdds(late, 1, |rest.events|, false); }
    assert body + ([e] + rest.events) == body + [e] + rest.events by { Associative(body, [e], rest.events); }
    AdvanceTells(st, slot, now, StopAtGap, body + [e], late.Step(1, false));
  }

  lemma LateTickTells(st: PohSlot, slot: nat, body: seq<OrderedEvent>, late: Late, obs: EntryObservation)
    requires Sound(st, slot, body, late) && obs.txCount == 0
    ensures Sound(st.(tickIdx := CountTick(st, obs)), slot, body, late.Step(0, true))
  {
    StepAdds(late, 0, 0, true);
  }

  /** Neither the buffer nor the clock of the last emission shows in the output. */
  lemma SoundFrame(st: PohSlot, st': PohSlot, slot: nat, body: seq<OrderedEvent>, late: Late)
    requires Sound(st, slot, body, late)
    requires st' == st.(pending := st'.pending, lastEmitAt := st'.lastEmitAt)
    ensures Sound(st', slot, body, late)
  {
  }

  lemma OtherArrivalTells(st: PohSlot, m: MergedEntry, now: nat, maxPending: nat, body: seq<OrderedEvent>, late: Late)
    requires Resting(st, m.observation.slot) && !st.sealed && m.observation.entryIndex != st.next
    requires Sound(st, m.observation.slot, body, late)
    ensures Sound(Arrive(st, m, now, maxPending).st, m.observation.slot, body,
                  late.Step(0, IsLateTick(st, m.observation, maxPending)))
  {
    var obs, st' := m.observation, Arrive(st, m, now, maxPending).st;
    if IsLateTick(st, obs, maxPending) {
      LateTickTells(st, obs.slot, body, late, obs);
      SoundFrame(st.(tickIdx := CountTick(st, obs)), st', obs.slot, body, late.Step(0, true));
    } else {
      assert late.Step(0, false) == late by { StepAdds(late, 0, 0, false); }
      assert st' == st.(pending := st'.pending, lastEmitAt := st'.lastEmitAt);
      SoundFrame(st, st', obs.slot, body, late);
    }
  }

  lemma ArriveTells(st: PohSlot, m: MergedEntry, now: nat, maxPending: nat, body: seq<OrderedEvent>, late: Late)
    requires Resting(st, m.observation.slot) && !st.sealed
    requires Sound(st, m.observation.slot, body, late)
    ensures var r := Arrive(st, m, now, maxPending);
            Sound(r.st, m.observation.slot, body + r.events,
                  late.Step(|r.events|, IsLateTick(st, m.observation, maxPending)))
  {
    if m.observation.entryIndex == st.next {
      InOrderArrivalTells(st, m, now, body, late);
      assert Arrive(st, m, now, maxPending) == Arrive(st, m, now, 0);
    } else {
      OtherArrivalTells(st, m, now, maxPending, body, late);
      assert body + [] == body;
    }
  }

  /** With room for one buffered entry, a slot that has been opened has something to say. */
  lemma ArriveStarts(st: PohSlot, m: MergedEntry, now: nat, maxPending: nat)
    requires Resting(st, m.observation.slot) && !st.sealed && maxPending > 0
    ensures var r := Arrive(st, m, now, maxPending); !r.st.sealed && (r.st.next > 0 || r.st.pending != map[])
  {
    var r := Arrive(st, m, now, maxPending);
    if FateOf(st, m.observation.entryIndex, maxPending) == OverCapacity {
      assert st.pending != map[];
    } else if m.observation.entryIndex > st.next {
      assert m.observation.entryIndex in r.st.pending;
    }
  }

  lemma SealedBody(st: PohSlot, slot: nat, body: seq<OrderedEvent>, late: Late)
    requires Sound(st, slot, body, late)
    ensures Finished(body + [TerminalEvent(st, slot)], slot, late.Step(1, false))
    ensures st.totalEmitted + st.missingCount == st.next
    ensures body != [] ==> EndsOnEntry(body + [TerminalEvent(st, slot)]) && st.next == st.lastEntryIndex + 1
  {
    var all := body + [TerminalEvent(st, slot)];
    assert all[..|body|] == body;
    StepAdds(late, 0, 1, false);
    assert late.Step(1, false).before[..|body|] == late.before;
    EveryEventCounted(body, slot, late.before);
    if body != [] {
      assert all[|all| - 2] == body[|body| - 1];
    }
  }

  /** Sealing turns an ordered body into a finished slot, flushing the whole buffer. */
  lemma SealFinishes(st: PohSlot, slot: nat, now: nat, body: seq<OrderedEvent>, late: Late)
    requires Resting(st, slot) && !st.sealed
    requires Sound(st, slot, body, late)
    ensures var r := Apply(Seal(now), st, slot);
            && Finished(body + r.events, slot, late.Step(|r.events|, false))
            && r.st.pending == map[]
            && r.st.totalEmitted + r.st.missingCount == r.st.next
            && (st.next > 0 || st.pending != map[] ==>
                  EndsOnEntry(body + r.events) && r.st.next == r.st.lastEntryIndex + 1)
  {
    var flushed := Advance(st, slot, now, SkipAll);
    AdvanceTells(st, slot, now, SkipAll, body, late);
    FlushedFinishes(flushed.st, slot, body, flushed.events, late);
    assert Apply(Seal(now), st, slot) ==
           Emission(flushed.st.(sealed := true), flushed.events + [TerminalEvent(flushed.st, slot)]);
    if st.pending != map[] {
      assert CanMove(st, now, SkipAll) && flushed.events != [];
    }
  }

  lemma FlushedFinishes(st: PohSlot, slot: nat, body: seq<OrderedEvent>, events: seq<OrderedEvent>, late: Late)
    requires Sound(st, slot, body + events, late.Step(|events|, false))
    ensures var all := events + [TerminalEvent(st, slot)];
            && Finished(body + all, slot, late.Step(|all|, false))
            && st.totalEmitted + st.missingCount == st.next
            && (body + events != [] ==> EndsOnEntry(body + all) && st.next == st.lastEntryIndex + 1)
  {
    SealedBody(st, slot, body + events, late.Step(|events|, false));
    StepAdds(late, |events|, 1, false);
    Associative(body, events, [TerminalEvent(st, slot)]);
  }

  lemma {:induction false} EveryEventCounted(body: seq<OrderedEvent>, slot: nat, late: seq<nat>)
    requires Ordered(body, slot, late)
    ensures Count(body, IsEntry) + Count(body, IsMissing) == |body|
  {
    if body != [] {
      var n := |body| - 1;
      EveryEventCounted(body[..n], slot, late[..n]);
    }
  }
}
