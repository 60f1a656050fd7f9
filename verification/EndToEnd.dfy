/**
 The supervisor composed with the trigger engine and the slot-hash cache: which entry a
 scheduled tick fires on, and why the terminal event of a slot adds nothing to the cache.
 */
module EndToEnd {
  import opened Entries
  import opened OrderedMaps
  import opened PohSlots
  import opened PohTraces
  import opened PohRuns
  import opened PohSafety
  import opened Reordering
  import opened SlotHashCache
  import Engine = TriggerEngine

  // ---------- from the whole stream to one slot and back ----------

  lemma {:induction false} EntryPosition(s: nat, events: seq<OrderedEvent>, i: nat) returns (p: nat)
    requires i < |EntriesIn(Of(s, events))|
    ensures p < |events|
    ensures events[p] == EntriesIn(Of(s, events))[i] && events[p].Entry? && events[p].slot == s
    ensures EntriesIn(Of(s, events[..p])) == EntriesIn(Of(s, events))[..i]
  {
    var init, last := events[..|events| - 1], events[|events| - 1];
    var before := EntriesIn(Of(s, init));
    if last.slot == s {
      assert (Of(s, init) + [last])[..|Of(s, init)|] == Of(s, init);
    }
    if i < |before| {
      p := EntryPosition(s, init, i);
      assert init[..p] == events[..p];
    } else {
      p := |events| - 1;
    }
  }

  predicate TickAmong(shown: seq<OrderedEvent>, t: nat) {
    exists j :: 0 <= j < |shown| && shown[j].Entry? && shown[j].tickIdx == t
  }

  /** Whether a key has been reached can be read off the entries of its slot. */
  lemma {:induction false} ReachedInSlot(events: seq<OrderedEvent>, s: nat, t: nat)
    ensures Engine.Reached(events, (s, t)) <==> TickAmong(EntriesIn(Of(s, events)), t)
  {
    if events != [] {
      var init, last := events[..|events| - 1], events[|events| - 1];
      ReachedInSlot(init, s, t);
      var before, shown := EntriesIn(Of(s, init)), EntriesIn(Of(s, events));
      if last.slot == s {
        assert (Of(s, init) + [last])[..|Of(s, init)|] == Of(s, init);
      }
      if last.slot == s && last.Entry? {
        assert shown == before + [last];
        assert shown[|before|] == last;
        assert TickAmong(before, t) ==> TickAmong(shown, t) by {
          if j :| 0 <= j < |before| && before[j].Entry? && before[j].tickIdx == t {
            assert shown[j] == before[j];
          }
        }
      } else {
        assert shown == before;
      }
    }
  }

  // ---------- the t-th tick of a slot ----------

  lemma {:induction false} TickCountGrows(es: seq<MergedEntry>, i: nat, j: nat)
    requires i <= j <= |es|
    ensures TickCount(es[..i]) <= TickCount(es[..j])
  {
    if i < j {
      TickCountGrows(es, i, j - 1);
      assert es[..j][..j - 1] == es[..j - 1];
    }
  }

  /** Entry `i` is the `t`-th zero-transaction entry. */
  predicate IsTick(es: seq<MergedEntry>, i: nat, t: nat) {
    i < |es| && es[i].observation.txCount == 0 && TickCount(es[..i + 1]) == t
  }

  lemma {:induction false} FindTick(es: seq<MergedEntry>, t: nat) returns (i: nat)
    requires 1 <= t <= TickCount(es)
    ensures IsTick(es, i, t) && TickCount(es[..i]) == t - 1
  {
    var init := es[..|es| - 1];
    if t <= TickCount(init) {
      i := FindTick(init, t);
      assert init[..i + 1] == es[..i + 1] && init[..i] == es[..i];
    } else {
      i := |es| - 1;
      assert es[..i + 1] == es;
    }
  }

  // ---------- firing ----------

  /** In a slot shown in order, tick `t` is not seen before the `t`-th zero-transaction entry. */
  lemma NoEarlierTick(shown: seq<OrderedEvent>, es: seq<MergedEntry>, i: nat, t: nat)
    requires ShownInOrder(shown, es) && i <= |shown| && TickCount(es[..i]) < t
    ensures !TickAmong(shown[..i], t)
  {
    forall j | 0 <= j < i ensures shown[j].tickIdx != t {
      assert Shows(shown[j], es, j);
      TickCountGrows(es, j + 1, i);
    }
  }

  /**
   End to end, over the whole output of the program. For every run that delivers slot `s`
   cleanly and completely, in any arrival order, and a scheduled tick `t` of the slot: if
   the slot has that many ticks (at most 64 count), the tick fires first on the entry that
   is the slot's `t`-th zero-transaction entry, and exactly once if and only if no entry of
   that slot and tick comes after a compaction has dropped it; staying within 256 slots of
   the front is enough for that. If the slot has fewer ticks it does not fire.
   */
  lemma {:induction false} ScheduledTickFiresExactlyOnce(cfg: Config, steps: seq<Step>, now: nat, s: nat, es: seq<MergedEntry>,
                                                         sched: set<Engine.Key>, t: nat)
      returns (p: nat, i: nat)
    requires Numbered(es, s)
    requires Clean(cfg, steps, s, es) && Arrived(steps, s) == Range(|es|)
    requires 0 < t < 256 && (s, t) in sched
    ensures var out := Finish(cfg, Run(cfg, steps), now).out;
            var fired := Engine.Fires(Engine.Run(sched, out).triggers, (s, t));
            if t <= Min(64, TickCount(es)) then
              && fired == 1 + Engine.Repeats(out, (s, t))
              && (Engine.NearFront(out, s) ==> fired == 1)
              && p < |out| && IsTick(es, i, t)
              && out[p].Entry? && out[p].observation == es[i].observation && !out[p].tickUncertain
              && Engine.Fires(Engine.Run(sched, out[..p]).triggers, (s, t)) == 0
              && Engine.Fires(Engine.Run(sched, out[..p + 1]).triggers, (s, t)) == 1
            else fired == 0
  {
    var out := Finish(cfg, Run(cfg, steps), now).out;
    FlushIsInvisible(cfg, steps, now, s, es);
    if t <= Min(64, TickCount(es)) {
      p, i := StreamFiresTick(out, s, es, sched, t);
      if Engine.NearFront(out, s) {
        Engine.NearFrontNeverRepeats(out, (s, t));
      }
    } else {
      p, i := 0, 0;
      StreamSkipsTick(out, s, es, sched, t);
    }
  }

  lemma {:induction false} StreamFiresTick(out: seq<OrderedEvent>, s: nat, es: seq<MergedEntry>, sched: set<Engine.Key>, t: nat)
      returns (p: nat, i: nat)
    requires (s, t) in sched
    requires var shown := EntriesIn(Of(s, out)); ShownInOrder(shown, es) && |shown| == |es|
    requires 0 < t <= Min(64, TickCount(es))
    ensures p < |out| && IsTick(es, i, t)
    ensures out[p].Entry? && out[p].observation == es[i].observation && !out[p].tickUncertain
    ensures Engine.Fires(Engine.Run(sched, out[..p]).triggers, (s, t)) == 0
    ensures Engine.Fires(Engine.Run(sched, out[..p + 1]).triggers, (s, t)) == 1
    ensures Engine.Fires(Engine.Run(sched, out).triggers, (s, t)) == 1 + Engine.Repeats(out, (s, t))
  {
    i := FindTick(es, t);
    p := EntryPosition(s, out, i);
    assert Shows(EntriesIn(Of(s, out))[i], es, i);
    NotReachedBeforeTick(out, s, es, t, p, i);
    FiresFirstAt(out, s, sched, t, p);
    Engine.FiresExactly(sched, out, (s, t));
    TickStaysShown(s, out, p, t);
    ReachedInSlot(out, s, t);
  }

  lemma {:induction false} NotReachedBeforeTick(out: seq<OrderedEvent>, s: nat, es: seq<MergedEntry>, t: nat, p: nat, i: nat)
    requires p <= |out| && i <= |EntriesIn(Of(s, out))|
    requires ShownInOrder(EntriesIn(Of(s, out)), es) && i <= |es| && TickCount(es[..i]) < t
    requires EntriesIn(Of(s, out[..p])) == EntriesIn(Of(s, out))[..i]
    ensures !Engine.Reached(out[..p], (s, t))
  {
    ReachedInSlot(out[..p], s, t);
    NoEarlierTick(EntriesIn(Of(s, out)), es, i, t);
  }

  /** A tick that comes first at position `p` fires there and not before. */
  lemma {:induction false} FiresFirstAt(out: seq<OrderedEvent>, s: nat, sched: set<Engine.Key>, t: nat, p: nat)
    requires 0 < t < 256 && (s, t) in sched && p < |out| && !Engine.Reached(out[..p], (s, t))
    requires out[p].Entry? && out[p].slot == s && out[p].tickIdx == t
    ensures Engine.Fires(Engine.Run(sched, out[..p]).triggers, (s, t)) == 0
    ensures Engine.Fires(Engine.Run(sched, out[..p + 1]).triggers, (s, t)) == 1
  {
    var key := (s, t);
    Engine.UnreachedNeverRepeats(out[..p], key);
    Engine.FiresExactly(sched, out[..p], key);
    assert out[..p + 1] == out[..p] + [out[p]];
    assert out[..p + 1][..p] == out[..p];
    Engine.FiresExactly(sched, out[..p + 1], key);
  }

  lemma {:induction false} TickStaysShown(s: nat, events: seq<OrderedEvent>, p: nat, t: nat)
    requires p < |events| && events[p].Entry? && events[p].slot == s && events[p].tickIdx == t
    ensures TickAmong(EntriesIn(Of(s, events)), t)
  {
    var init, last := events[..|events| - 1], events[|events| - 1];
    if last.slot == s {
      assert (Of(s, init) + [last])[..|Of(s, init)|] == Of(s, init);
    }
    if p < |init| {
      TickStaysShown(s, init, p, t);
      var before := EntriesIn(Of(s, init));
      var j :| 0 <= j < |before| && before[j].Entry? && before[j].tickIdx == t;
      assert EntriesIn(Of(s, events))[j] == before[j];
    } else {
      var shown := EntriesIn(Of(s, events));
      assert shown[|shown| - 1] == last;
    }
  }

  lemma {:induction false} StreamSkipsTick(out: seq<OrderedEvent>, s: nat, es: seq<MergedEntry>, sched: set<Engine.Key>, t: nat)
    requires 0 < t < 256 && ShownInOrder(EntriesIn(Of(s, out)), es)
    requires t > Min(64, TickCount(es))
    ensures Engine.Fires(Engine.Run(sched, out).triggers, (s, t)) == 0
  {
    var shown := EntriesIn(Of(s, out));
    forall j | 0 <= j < |shown| ensures shown[j].tickIdx != t {
      assert Shows(shown[j], es, j);
      TickCountGrows(es, j + 1, |es|);
      assert es[..|es|] == es;
    }
    ReachedInSlot(out, s, t);
    Engine.UnreachedNeverRepeats(out, (s, t));
    Engine.FiresExactly(sched, out, (s, t));
  }

  // ---------- a scheduled tick that fires twice ----------

  predicate Idle(slots: map<nat, PohSlot>) {
    forall s :: s in slots ==> slots[s].pending == map[]
  }

  predicate NoEntries(events: seq<OrderedEvent>) {
    forall e :: e in events ==> !e.Entry?
  }

  lemma {:induction false} IdleForEach(slots: map<nat, PohSlot>, keys: seq<nat>, op: SlotOp)
    requires Steady(slots) && Idle(slots) && forall k :: k in keys ==> k in slots
    ensures var b := ForEach(slots, keys, op); NoEntries(b.events) && Idle(b.slots)
  {
    if keys != [] {
      var r := Apply(op, slots[keys[0]], keys[0]);
      assert r.st.pending == map[] && NoEntries(r.events);
      IdleForEach(slots[keys[0] := r.st], keys[1..], op);
    }
  }

  /** With nothing buffered, a sweep sends terminal events only. */
  lemma {:induction false} IdleSweep(cfg: Config, x: State, now: nat) returns (sent: seq<OrderedEvent>)
    requires Steady(x.slots) && Idle(x.slots)
    ensures SweepAll(cfg, x, now).out == x.out + sent && NoEntries(sent)
  {
    var a := ForEach(x.slots, Ascending(x.slots.Keys), TimeOutGaps(now, cfg.entryTimeout));
    IdleForEach(x.slots, Ascending(x.slots.Keys), TimeOutGaps(now, cfg.entryTimeout));
    var due := Due(cfg, a.slots, x.maxSlot);
    IdleForEach(a.slots, due, Seal(now));
    sent := a.events + ForEach(a.slots, due, Seal(now)).events;
    Associative(x.out, a.events, ForEach(a.slots, due, Seal(now)).events);
  }

  /** The first entry of a slot without state is sent at once. */
  lemma {:induction false} FirstEntryGoesOut(cfg: Config, x: State, m: MergedEntry, at: nat)
    requires Steady(x.slots) && m.observation.slot !in x.slots && m.observation.entryIndex == 0
    ensures var y := Receive(cfg, x, m, at);
            && y.out == x.out + [EntryEvent(EMPTY_SLOT, m.observation, false, 0)]
            && y.slots.Keys == x.slots.Keys + {m.observation.slot}
            && y.slots[m.observation.slot].pending == map[]
            && forall s :: s in x.slots ==> y.slots[s] == x.slots[s]
  {
    var seen := Seen(EMPTY_SLOT, at);
    var first := AfterEntry(seen, m.observation, at);
    assert Advance(first, m.observation.slot, at, StopAtGap) == Emission(first, []);
    assert EntryEvent(seen, m.observation, false, 0) == EntryEvent(EMPTY_SLOT, m.observation, false, 0);
    assert [EntryEvent(seen, m.observation, false, 0)] + [] == [EntryEvent(seen, m.observation, false, 0)];
  }

  /** Slot 1 is forgotten by the sweep at frontier 300. */
  lemma {:induction false} SlotOneIsForgotten(cfg: Config, s2: seq<Step>, at: nat)
    requires cfg.sealLag <= 289 && Run(cfg, s2).maxSlot == 300
    ensures 1 !in Run(cfg, s2 + [Sweep(at)]).slots
  {
    RunMatchesWatch(cfg, s2, 1);
    WatchSnoc(cfg, s2, Sweep(at), 1);
    RunMatchesWatch(cfg, s2 + [Sweep(at)], 1);
  }

  lemma RunSnoc(cfg: Config, steps: seq<Step>, last: Step)
    ensures Run(cfg, steps + [last]) == Next(cfg, Run(cfg, steps), last)
  {
    assert (steps + [last])[..|steps|] == steps;
  }

  /** Slot 1 and then slot 300, both sent at once. */
  function UpToAhead(m: MergedEntry, ahead: MergedEntry): seq<Step> {
    [] + [Arrival(m, 0)] + [Arrival(ahead, 0)]
  }

  lemma {:induction false} FirstEntryStep(cfg: Config, steps: seq<Step>, m: MergedEntry, at: nat)
    requires Idle(Run(cfg, steps).slots) && m.observation.slot !in Run(cfg, steps).slots && m.observation.entryIndex == 0
    ensures var x, y := Run(cfg, steps), Run(cfg, steps + [Arrival(m, at)]);
            && y.out == x.out + [EntryEvent(EMPTY_SLOT, m.observation, false, 0)]
            && Idle(y.slots) && y.slots.Keys == x.slots.Keys + {m.observation.slot}
            && y.maxSlot == Max(x.maxSlot, m.observation.slot)
  {
    RunSnoc(cfg, steps, Arrival(m, at));
    FirstEntryGoesOut(cfg, Run(cfg, steps), m, at);
  }

  lemma {:induction false} AheadOfSlotOne(cfg: Config, m: MergedEntry, ahead: MergedEntry)
    requires m.observation.slot == 1 && m.observation.entryIndex == 0
    requires ahead.observation.slot == 300 && ahead.observation.entryIndex == 0
    ensures var x := Run(cfg, UpToAhead(m, ahead));
            && x.out == [] + [EntryEvent(EMPTY_SLOT, m.observation, false, 0)] + [EntryEvent(EMPTY_SLOT, ahead.observation, false, 0)]
            && Idle(x.slots) && x.maxSlot == 300
  {
    var none: seq<Step> := [];
    assert Run(cfg, none) == PohRuns.INITIAL;
    FirstEntryStep(cfg, none, m, 0);
    FirstEntryStep(cfg, none + [Arrival(m, 0)], ahead, 0);
  }

  /** After a sweep at frontier 300, an entry of slot 1 goes out as if it were the first. */
  lemma {:induction false} SlotOneComesBack(cfg: Config, steps: seq<Step>, m: MergedEntry) returns (between: seq<OrderedEvent>)
    requires m.observation.slot == 1 && m.observation.entryIndex == 0 && cfg.sealLag <= 289
    requires Run(cfg, steps).maxSlot == 300 && Idle(Run(cfg, steps).slots)
    ensures NoEntries(between)
    ensures Run(cfg, steps + [Sweep(1)] + [Arrival(m, 2)]).out ==
            Run(cfg, steps).out + between + [EntryEvent(EMPTY_SLOT, m.observation, false, 0)]
  {
    RunSnoc(cfg, steps, Sweep(1));
    between := IdleSweep(cfg, Run(cfg, steps), 1);
    SlotOneIsForgotten(cfg, steps, 1);
    RunSnoc(cfg, steps + [Sweep(1)], Arrival(m, 2));
    FirstEntryGoesOut(cfg, Run(cfg, steps + [Sweep(1)]), m, 2);
  }

  lemma {:induction false} ComebackStream(cfg: Config, m: MergedEntry, ahead: MergedEntry) returns (between: seq<OrderedEvent>)
    requires m.observation.slot == 1 && m.observation.entryIndex == 0
    requires ahead.observation.slot == 300 && ahead.observation.entryIndex == 0 && cfg.sealLag <= 289
    ensures NoEntries(between)
    ensures var a, b := EntryEvent(EMPTY_SLOT, m.observation, false, 0), EntryEvent(EMPTY_SLOT, ahead.observation, false, 0);
            Run(cfg, UpToAhead(m, ahead) + [Sweep(1)] + [Arrival(m, 2)]).out == [] + [a] + [b] + between + [a]
  {
    AheadOfSlotOne(cfg, m, ahead);
    between := SlotOneComesBack(cfg, UpToAhead(m, ahead), m);
  }

  /**
   A run of the supervisor on which the engine fires a scheduled tick twice: the first tick
   entry of slot 1, then slot 300, a sweep, and the same entry of slot 1 again.
   */
  lemma {:induction false} RunFiresTickTwice(cfg: Config, m: MergedEntry, ahead: MergedEntry, sched: set<Engine.Key>, steps: seq<Step>)
    requires m.observation.slot == 1 && m.observation.entryIndex == 0 && m.observation.txCount == 0
    requires ahead.observation.slot == 300 && ahead.observation.entryIndex == 0 && cfg.sealLag <= 289
    requires steps == UpToAhead(m, ahead) + [Sweep(1)] + [Arrival(m, 2)] && (1, 1) in sched
    ensures Engine.Fires(Engine.Run(sched, Run(cfg, steps).out).triggers, (1, 1)) == 2
  {
    var between := ComebackStream(cfg, m, ahead);
    var a, b := EntryEvent(EMPTY_SLOT, m.observation, false, 0), EntryEvent(EMPTY_SLOT, ahead.observation, false, 0);
    assert Engine.KeyOf(a) == (1, 1);
    Engine.ComebackFiresTwice(sched, a, b, between);
  }

  // ---------- the terminal event and the cache ----------

  /** The last write for a slot is the hash of its last entry, whatever other slots did in between. */
  lemma {:induction false} LastEntryIsLastWrite(events: seq<OrderedEvent>, s: nat)
    requires var own := Of(s, events); own != [] && own[|own| - 1].Entry?
    ensures var own := Of(s, events);
            var m := LastWrites(Engine.AllWrites(events));
            s in m && m[s] == own[|own| - 1].observation.entryHash
  {
    var init, last := events[..|events| - 1], events[|events| - 1];
    if last.slot != s {
      LastEntryIsLastWrite(init, s);
    }
    if !last.Missing? {
      var w := Engine.WritesOf(last)[0];
      assert Engine.WritesOf(last) == [w];
      Engine.LastWritesMore(Engine.AllWrites(init), w);
    } else {
      assert Engine.AllWrites(init) + [] == Engine.AllWrites(init);
    }
  }

  lemma {:induction false} OfPrefix(s: nat, events: seq<OrderedEvent>, p: nat)
    requires p < |events| && events[p].slot == s
    ensures Of(s, events) == Of(s, events[..p]) + [events[p]] + Of(s, events[p + 1..])
  {
    var upTo := events[..p + 1];
    assert upTo[..p] == events[..p];
    OfConcat(s, upTo, events[p + 1..]);
    assert upTo + events[p + 1..] == events;
  }

  /** In a finished slot nothing follows the terminal event, and an entry comes right before it. */
  lemma TerminalIsLast(own: seq<OrderedEvent>, before: seq<OrderedEvent>, end: OrderedEvent, after: seq<OrderedEvent>,
                       s: nat, late: Late)
    requires Finished(own, s, late) && EndsOnEntry(own)
    requires own == before + [end] + after && end.Terminal()
    ensures after == [] && before != []
    ensures var last := before[|before| - 1]; last.Entry? && last.observation.entryHash == end.lastEntryHash
  {
    var body := own[..|own| - 1];
    if after != [] {
      assert body[|before|] == end;
      OrderedAt(body, s, late.before[..|body|], |before|);
    }
  }

  /**
   The cache needs no terminal events: in every run, the write for the terminal event of a
   slot whose state was created once leaves the cache as the slot's last entry left it.
   */
  lemma {:induction false} TerminalWriteIsInvisible(cfg: Config, steps: seq<Step>, now: nat, sched: set<Engine.Key>, window: nat, p: nat)
    requires cfg.maxPending > 0
    requires var out := Finish(cfg, Run(cfg, steps), now).out;
             p < |out| && out[p].Terminal() && Watch(cfg, steps, out[p].slot).openings == 1
    ensures var out := Finish(cfg, Run(cfg, steps), now).out;
            CacheAfter(window, Engine.Run(sched, out[..p + 1]).writes) == CacheAfter(window, Engine.Run(sched, out[..p]).writes)
  {
    var out := Finish(cfg, Run(cfg, steps), now).out;
    EverySlotIsToldOnce(cfg, steps, out[p].slot, now);
    ToldTerminalRepeats(cfg, out, p, FinalLateTicks(cfg, steps, out[p].slot, now));
    RepeatedLastWrite(out, p, sched, window);
  }

  /** The terminal event of a slot told once repeats the hash of the slot's last entry. */
  lemma ToldTerminalRepeats(cfg: Config, out: seq<OrderedEvent>, p: nat, late: Late)
    requires cfg.maxPending > 0 && p < |out| && out[p].Terminal() && Done(cfg, Of(out[p].slot, out), out[p].slot, late)
    ensures var own := Of(out[p].slot, out[..p]);
            own != [] && own[|own| - 1].Entry? && own[|own| - 1].observation.entryHash == out[p].lastEntryHash
  {
    var s := out[p].slot;
    OfPrefix(s, out, p);
    TerminalIsLast(Of(s, out), Of(s, out[..p]), out[p], Of(s, out[p + 1..]), s, late);
  }

  lemma {:induction false} RepeatedLastWrite(out: seq<OrderedEvent>, p: nat, sched: set<Engine.Key>, window: nat)
    requires p < |out| && out[p].Terminal()
    requires var own := Of(out[p].slot, out[..p]);
             own != [] && own[|own| - 1].Entry? && own[|own| - 1].observation.entryHash == out[p].lastEntryHash
    ensures CacheAfter(window, Engine.Run(sched, out[..p + 1]).writes) == CacheAfter(window, Engine.Run(sched, out[..p]).writes)
  {
    Engine.RunWrites(sched, out[..p]);
    Engine.RunWrites(sched, out[..p + 1]);
    LastEntryIsLastWrite(out[..p], out[p].slot);
    assert out[..p + 1][..p] == out[..p];
    RepeatedWriteIsInvisible(window, Engine.AllWrites(out[..p]), Write(out[p].slot, out[p].lastEntryHash));
  }
}
