/**
 The trigger engine (crates/tick-trigger-fan-out-bench/src/trigger_engine.rs): fires each
 scheduled (slot, tick) at most once over the supervisor's ordered stream, with a set of
 fired keys that is compacted as slots age, and feeds the slot-hash cache.

 The reference never forgets: a scheduled key fires at its first occurrence in the stream.
 */
module TriggerEngine {
  import opened Entries
  import opened PohSlots
  import opened SlotHashCache

  const FIRED_WINDOW_SLOTS: nat := 256

  /** (slot, tick) */
  type Key = (nat, nat)

  /** `(slot << 8) | tick` on `u64`: the shift drops the top byte of the slot. */
  function TriggerId(slot: nat, tick: nat): nat
    requires tick < 256
  {
    (slot * 256) % 0x1_0000_0000_0000_0000 + tick
  }

  /** Two keys share an id exactly when the ticks agree and the slots agree in their low 56 bits. */
  lemma TriggerIdsCollideExactly(s: nat, t: nat, s': nat, t': nat)
    requires t < 256 && t' < 256
    ensures TriggerId(s, t) == TriggerId(s', t')
            <==> t == t' && s % 0x100_0000_0000_0000 == s' % 0x100_0000_0000_0000
  {
    ShiftedSlot(s);
    ShiftedSlot(s');
  }

  lemma ShiftedSlot(s: nat)
    ensures (s * 256) % 0x1_0000_0000_0000_0000 == (s % 0x100_0000_0000_0000) * 256
  {
    var q, r := s / 0x100_0000_0000_0000, s % 0x100_0000_0000_0000;
    assert s * 256 == q * 0x1_0000_0000_0000_0000 + r * 256;
  }

  datatype Trigger = Trigger(id: nat, slot: nat, tick: nat, tickUncertain: bool)

  datatype Fired = Fired(keys: set<Key>, lastCompact: nat)

  datatype State = State(
    fired: Fired,
    triggers: seq<Trigger>,
    writes: seq<Write>,
    entriesSeen: nat,
    scheduleHits: nat,
    duplicateSuppressed: nat,
    uncertainTriggers: nat)

  const INITIAL := State(Fired({}, 0), [], [], 0, 0, 0, 0)

  function KeyOf(e: OrderedEvent): Key
    requires e.Entry?
  {
    (e.slot, e.tickIdx)
  }

  /** An entry at a scheduled tick. */
  predicate Due(sched: set<Key>, e: OrderedEvent) {
    e.Entry? && 0 < e.tickIdx < 256 && KeyOf(e) in sched
  }

  function Fire(e: OrderedEvent): Trigger
    requires e.Entry? && e.tickIdx < 256
  {
    Trigger(TriggerId(e.slot, e.tickIdx), e.slot, e.tickIdx, e.tickUncertain)
  }

  /** The fired set after an event, and its periodic compaction. */
  function FiredNext(sched: set<Key>, f: Fired, e: OrderedEvent): Fired {
    if !e.Entry? then f
    else
      var keys := if Due(sched, e) then f.keys + {KeyOf(e)} else f.keys;
      if e.slot > f.lastCompact + FIRED_WINDOW_SLOTS
      then var cutoff := SatSub(e.slot, FIRED_WINDOW_SLOTS); Fired((set k | k in keys && k.0 >= cutoff), e.slot)
      else Fired(keys, f.lastCompact)
  }

  /** What an event records in the slot-hash cache. */
  function WritesOf(e: OrderedEvent): seq<Write> {
    match e
    case Entry(slot, _, _, _, obs, _, _, _) => [Write(slot, obs.entryHash)]
    case Missing(_, _, _) => []
    case SlotComplete(slot, _, hash, _, _) => [Write(slot, hash)]
    case SlotIncomplete(slot, _, hash, _, _) => [Write(slot, hash)]
  }

  function Consume(sched: set<Key>, x: State, e: OrderedEvent): State {
    var y := x.(fired := FiredNext(sched, x.fired, e), writes := x.writes + WritesOf(e));
    if !e.Entry? then y
    else
      var seen := y.(entriesSeen := x.entriesSeen + 1);
      if !Due(sched, e) then seen
      else if KeyOf(e) in x.fired.keys then seen.(duplicateSuppressed := x.duplicateSuppressed + 1)
      else
        seen.(scheduleHits := x.scheduleHits + 1,
              triggers := x.triggers + [Fire(e)],
              uncertainTriggers := x.uncertainTriggers + if e.tickUncertain then 1 else 0)
  }

  function Run(sched: set<Key>, events: seq<OrderedEvent>): State {
    if events == [] then INITIAL
    else Consume(sched, Run(sched, events[..|events| - 1]), events[|events| - 1])
  }

  // ---------- the reference ----------

  /** Some entry of the stream carried this slot and tick. */
  predicate Reached(events: seq<OrderedEvent>, key: Key) {
    events != [] &&
    var last := events[|events| - 1];
    (last.Entry? && KeyOf(last) == key) || Reached(events[..|events| - 1], key)
  }

  /** Each scheduled key fires on the first entry that carries it. */
  function Reference(sched: set<Key>, events: seq<OrderedEvent>): seq<Trigger> {
    if events == [] then []
    else
      var init, e := events[..|events| - 1], events[|events| - 1];
      var before := Reference(sched, init);
      if Due(sched, e) && !Reached(init, KeyOf(e)) then before + [Fire(e)] else before
  }

  function FiredAfter(sched: set<Key>, events: seq<OrderedEvent>): Fired {
    if events == [] then Fired({}, 0)
    else FiredNext(sched, FiredAfter(sched, events[..|events| - 1]), events[|events| - 1])
  }

  // ---------- compaction, from the slots of the stream alone ----------

  predicate Compacts(lastCompact: nat, e: OrderedEvent) {
    e.Entry? && e.slot > lastCompact + 256
  }

  /** The slot at which the stream last caused a compaction. */
  function LastCompact(events: seq<OrderedEvent>): nat {
    if events == [] then 0
    else
      var before, e := LastCompact(events[..|events| - 1]), events[|events| - 1];
      if Compacts(before, e) then e.slot else before
  }

  /** The key came, and no compaction after its last coming had a cutoff above its slot. */
  predicate Kept(events: seq<OrderedEvent>, key: Key) {
    events != [] &&
    var init, e := events[..|events| - 1], events[|events| - 1];
    || (e.Entry? && KeyOf(e) == key)
    || (Kept(init, key) && (Compacts(LastCompact(init), e) ==> e.slot <= key.0 + 256))
  }

  /** The entry repeats a scheduled key that a compaction since has dropped. */
  predicate Forgotten(sched: set<Key>, events: seq<OrderedEvent>, e: OrderedEvent) {
    Due(sched, e) && Reached(events, KeyOf(e)) && !Kept(events, KeyOf(e))
  }

  function ForgottenCount(sched: set<Key>, events: seq<OrderedEvent>): nat {
    if events == [] then 0
    else
      var init, e := events[..|events| - 1], events[|events| - 1];
      ForgottenCount(sched, init) + if Forgotten(sched, init, e) then 1 else 0
  }

  // ---------- refinement ----------

  lemma {:induction false} RunFires(sched: set<Key>, events: seq<OrderedEvent>)
    ensures Run(sched, events).fired == FiredAfter(sched, events)
  {
    if events != [] {
      RunFires(sched, events[..|events| - 1]);
    }
  }

  /** The fired set holds exactly the scheduled keys that came and were not dropped since. */
  lemma {:induction false} FiredIsKept(sched: set<Key>, events: seq<OrderedEvent>, key: Key)
    ensures FiredAfter(sched, events).lastCompact == LastCompact(events)
    ensures key in FiredAfter(sched, events).keys <==> key in sched && 0 < key.1 < 256 && Kept(events, key)
  {
    if events != [] {
      FiredIsKept(sched, events[..|events| - 1], key);
    }
  }

  lemma {:induction false} KeptWasReached(events: seq<OrderedEvent>, key: Key)
    requires Kept(events, key)
    ensures Reached(events, key)
  {
    var init, e := events[..|events| - 1], events[|events| - 1];
    if !(e.Entry? && KeyOf(e) == key) {
      KeptWasReached(init, key);
    }
  }

  /** In every run, the engine fires the reference's triggers and one more per forgotten entry. */
  lemma {:induction false} TriggersAreFirstsAndForgotten(sched: set<Key>, events: seq<OrderedEvent>)
    ensures |Run(sched, events).triggers| == |Reference(sched, events)| + ForgottenCount(sched, events)
    ensures ForgottenCount(sched, events) == 0 ==> Run(sched, events).triggers == Reference(sched, events)
  {
    if events != [] {
      var init, e := events[..|events| - 1], events[|events| - 1];
      TriggersAreFirstsAndForgotten(sched, init);
      RunFires(sched, init);
      if Due(sched, e) {
        FiredIsKept(sched, init, KeyOf(e));
        if Kept(init, KeyOf(e)) {
          KeptWasReached(init, KeyOf(e));
        }
      }
    }
  }

  /** Compaction is invisible if and only if no entry repeats a forgotten key. */
  lemma {:induction false} CompactionIsInvisibleExactly(sched: set<Key>, events: seq<OrderedEvent>)
    ensures Run(sched, events).triggers == Reference(sched, events) <==> ForgottenCount(sched, events) == 0
  {
    TriggersAreFirstsAndForgotten(sched, events);
  }

  function HighestSlot(events: seq<OrderedEvent>): nat {
    if events == [] then 0
    else
      var before, last := HighestSlot(events[..|events| - 1]), events[|events| - 1];
      if last.Entry? then Max(before, last.slot) else before
  }

  /** No entry is more than 256 slots behind the highest slot seen. */
  predicate NeverFarBehind(events: seq<OrderedEvent>) {
    events != [] ==>
      var init, e := events[..|events| - 1], events[|events| - 1];
      NeverFarBehind(init) && (e.Entry? ==> HighestSlot(init) <= e.slot + 256)
  }

  lemma {:induction false} OnlyOldKeysAreForgotten(events: seq<OrderedEvent>, key: Key)
    requires Reached(events, key) && !Kept(events, key)
    ensures key.0 + 256 < HighestSlot(events)
  {
    var init, e := events[..|events| - 1], events[|events| - 1];
    if Reached(init, key) && !Kept(init, key) {
      OnlyOldKeysAreForgotten(init, key);
    }
  }

  lemma {:induction false} WindowSuffices(sched: set<Key>, events: seq<OrderedEvent>)
    requires NeverFarBehind(events)
    ensures ForgottenCount(sched, events) == 0 && Run(sched, events).triggers == Reference(sched, events)
  {
    if events != [] {
      var init, e := events[..|events| - 1], events[|events| - 1];
      WindowSuffices(sched, init);
      if Forgotten(sched, init, e) {
        OnlyOldKeysAreForgotten(init, KeyOf(e));
      }
      TriggersAreFirstsAndForgotten(sched, events);
    }
  }

  /** How often a key was fired. */
  function Fires(triggers: seq<Trigger>, key: Key): nat {
    if triggers == [] then 0
    else
      var last := triggers[|triggers| - 1];
      Fires(triggers[..|triggers| - 1], key) + if (last.slot, last.tick) == key then 1 else 0
  }

  /** The reference fires a scheduled key once it is reached, and only once. */
  lemma {:induction false} ReferenceFiresOnce(sched: set<Key>, events: seq<OrderedEvent>, key: Key)
    requires 0 < key.1 < 256
    ensures Fires(Reference(sched, events), key) == if key in sched && Reached(events, key) then 1 else 0
  {
    if events != [] {
      var init, e := events[..|events| - 1], events[|events| - 1];
      ReferenceFiresOnce(sched, init, key);
      if Due(sched, e) && !Reached(init, KeyOf(e)) {
        var before := Reference(sched, init);
        assert (before + [Fire(e)])[..|before|] == before;
      }
    }
  }

  // ---------- how often a key fires ----------

  /** Entries that carry the key again after it came and a compaction since has dropped it. */
  function Repeats(events: seq<OrderedEvent>, key: Key): nat {
    if events == [] then 0
    else
      var init, e := events[..|events| - 1], events[|events| - 1];
      Repeats(init, key) + OneIf(e.Entry? && KeyOf(e) == key && Reached(init, key) && !Kept(init, key))
  }

  /** Every stream: a scheduled key fires when it first comes, and again at each repeat after it was dropped. */
  lemma {:induction false} FiresExactly(sched: set<Key>, events: seq<OrderedEvent>, key: Key)
    requires 0 < key.1 < 256
    ensures Fires(Run(sched, events).triggers, key) ==
            if key in sched then OneIf(Reached(events, key)) + Repeats(events, key) else 0
  {
    if events != [] {
      var init, e := events[..|events| - 1], events[|events| - 1];
      FiresExactly(sched, init, key);
      RunFires(sched, init);
      FiredIsKept(sched, init, key);
      FiresOnEvent(sched, Run(sched, init), e, key);
      if Kept(init, key) {
        KeptWasReached(init, key);
      }
    }
  }

  lemma {:induction false} UnreachedNeverRepeats(events: seq<OrderedEvent>, key: Key)
    requires !Reached(events, key)
    ensures Repeats(events, key) == 0
  {
    if events != [] {
      UnreachedNeverRepeats(events[..|events| - 1], key);
    }
  }

  /** No entry of slot `s` is more than 256 slots behind the highest slot seen. */
  predicate NearFront(events: seq<OrderedEvent>, s: nat) {
    events != [] ==>
      var init, e := events[..|events| - 1], events[|events| - 1];
      NearFront(init, s) && (e.Entry? && e.slot == s ==> HighestSlot(init) <= s + 256)
  }

  lemma {:induction false} NearFrontNeverRepeats(events: seq<OrderedEvent>, key: Key)
    requires NearFront(events, key.0)
    ensures Repeats(events, key) == 0
  {
    if events != [] {
      var init := events[..|events| - 1];
      NearFrontNeverRepeats(init, key);
      if Reached(init, key) && !Kept(init, key) {
        OnlyOldKeysAreForgotten(init, key);
      }
    }
  }

  lemma FiresMore(triggers: seq<Trigger>, last: Trigger, key: Key)
    ensures Fires(triggers + [last], key) == Fires(triggers, key) + OneIf((last.slot, last.tick) == key)
  {
    assert (triggers + [last])[..|triggers|] == triggers;
  }

  /** What one event adds to the firings of a key. */
  lemma FiresOnEvent(sched: set<Key>, x: State, e: OrderedEvent, key: Key)
    ensures Fires(Consume(sched, x, e).triggers, key) ==
            Fires(x.triggers, key) + OneIf(Due(sched, e) && KeyOf(e) == key && key !in x.fired.keys)
  {
    if Due(sched, e) {
      FiresMore(x.triggers, Fire(e), key);
    }
  }

  /** Gap markers and terminal events neither fire nor compact. */
  lemma {:induction false} OnlyEntriesCount(sched: set<Key>, events: seq<OrderedEvent>, more: seq<OrderedEvent>)
    requires forall e :: e in more ==> !e.Entry?
    ensures Run(sched, events + more).fired == Run(sched, events).fired
    ensures Run(sched, events + more).triggers == Run(sched, events).triggers
  {
    if more == [] {
      assert events + more == events;
    } else {
      var init, last := more[..|more| - 1], more[|more| - 1];
      assert (events + more)[..|events + more| - 1] == events + init;
      assert last in more && forall e :: e in init ==> e in more;
      OnlyEntriesCount(sched, events, init);
    }
  }

  lemma RunMore(sched: set<Key>, events: seq<OrderedEvent>, e: OrderedEvent)
    ensures Run(sched, events + [e]) == Consume(sched, Run(sched, events), e)
  {
    assert (events + [e])[..|events|] == events;
  }

  /**
   Outside the window a scheduled key fires twice: slot 1 comes back after slot 300, with
   events other than entries in between.
   */
  lemma {:induction false} ComebackFiresTwice(sched: set<Key>, a: OrderedEvent, b: OrderedEvent, between: seq<OrderedEvent>)
    requires a.Entry? && a.slot == 1 && 0 < a.tickIdx < 256 && KeyOf(a) in sched
    requires b.Entry? && b.slot == 300
    requires forall e :: e in between ==> !e.Entry?
    ensures Fires(Run(sched, [] + [a] + [b] + between + [a]).triggers, KeyOf(a)) == 2
  {
    var key, none: seq<OrderedEvent> := KeyOf(a), [];
    var s1 := none + [a];
    var s2 := s1 + [b];
    RunMore(sched, none, a);
    FiresOnEvent(sched, INITIAL, a, key);
    RunMore(sched, s1, b);
    FiresOnEvent(sched, Run(sched, s1), b, key);
    assert key !in Run(sched, s2).fired.keys;
    OnlyEntriesCount(sched, s2, between);
    RunMore(sched, s2 + between, a);
    FiresOnEvent(sched, Run(sched, s2 + between), a, key);
  }

  // ---------- what a trigger says, and what the counters count ----------

  /** The entry is at a scheduled tick between 1 and 255. */
  predicate Scheduled(sched: set<Key>, e: OrderedEvent) {
    e.Entry? && 1 <= e.tickIdx <= 255 && (e.slot, e.tickIdx) in sched
  }

  /** The trigger was fired for this entry: its slot, tick and uncertainty, and the id made of slot and tick. */
  predicate FiredFor(tr: Trigger, e: OrderedEvent) {
    && e.Entry? && tr.slot == e.slot && tr.tick == e.tickIdx && tr.tickUncertain == e.tickUncertain
    && tr.id == (e.slot * 256) % 0x1_0000_0000_0000_0000 + e.tickIdx
  }

  /** Every trigger of every run was fired for a scheduled entry of the stream. */
  lemma {:induction false} TriggersAreGenuine(sched: set<Key>, events: seq<OrderedEvent>, j: nat) returns (i: nat)
    requires j < |Run(sched, events).triggers|
    ensures i < |events| && Scheduled(sched, events[i]) && FiredFor(Run(sched, events).triggers[j], events[i])
  {
    var init := events[..|events| - 1];
    if j < |Run(sched, init).triggers| {
      i := TriggersAreGenuine(sched, init, j);
    } else {
      i := |events| - 1;
    }
  }

  /** Below slot 2^56, triggers with equal ids are for the same slot and tick. */
  lemma {:induction false} EqualIdsAreOneTick(sched: set<Key>, events: seq<OrderedEvent>, j: nat, k: nat)
    requires var trs := Run(sched, events).triggers;
             && j < |trs| && k < |trs| && trs[j].id == trs[k].id
             && trs[j].slot < 0x100_0000_0000_0000 && trs[k].slot < 0x100_0000_0000_0000
    ensures var trs := Run(sched, events).triggers; (trs[j].slot, trs[j].tick) == (trs[k].slot, trs[k].tick)
  {
    var trs := Run(sched, events).triggers;
    var a := TriggersAreGenuine(sched, events, j);
    var b := TriggersAreGenuine(sched, events, k);
    TriggerIdsCollideExactly(trs[j].slot, trs[j].tick, trs[k].slot, trs[k].tick);
  }

  function EntriesOf(events: seq<OrderedEvent>): nat {
    if events == [] then 0 else EntriesOf(events[..|events| - 1]) + OneIf(events[|events| - 1].Entry?)
  }

  function ScheduledIn(sched: set<Key>, events: seq<OrderedEvent>): nat {
    if events == [] then 0
    else ScheduledIn(sched, events[..|events| - 1]) + OneIf(Scheduled(sched, events[|events| - 1]))
  }

  function UncertainIn(triggers: seq<Trigger>): nat {
    if triggers == [] then 0
    else UncertainIn(triggers[..|triggers| - 1]) + OneIf(triggers[|triggers| - 1].tickUncertain)
  }

  /**
   The counters of every run: entries seen; one hit per trigger; every scheduled entry is a
   hit or suppressed; and the uncertain triggers.
   */
  lemma {:induction false} CountersCount(sched: set<Key>, events: seq<OrderedEvent>)
    ensures var x := Run(sched, events);
            && x.entriesSeen == EntriesOf(events)
            && x.scheduleHits == |x.triggers|
            && x.scheduleHits + x.duplicateSuppressed == ScheduledIn(sched, events)
            && x.uncertainTriggers == UncertainIn(x.triggers)
  {
    if events != [] {
      var init, e := events[..|events| - 1], events[|events| - 1];
      CountersCount(sched, init);
      var before := Run(sched, init).triggers;
      if Due(sched, e) {
        assert (before + [Fire(e)])[..|before|] == before;
      }
    }
  }

  /** The hash that the last event of the slot other than a gap marker carries. */
  function LastHash(events: seq<OrderedEvent>, s: nat): Option<Hash> {
    if events == [] then None
    else
      var e := events[|events| - 1];
      if e.slot != s || e.Missing? then LastHash(events[..|events| - 1], s)
      else if e.Entry? then Some(e.observation.entryHash)
      else Some(e.lastEntryHash)
  }

  /** The schedule check does not look at the cache. */
  lemma CacheApart(sched: set<Key>, x: State, ws: seq<Write>, e: OrderedEvent)
    ensures Consume(sched, x.(writes := ws), e).(writes := ws) == Consume(sched, x, e).(writes := ws)
    ensures Consume(sched, x, e).writes == x.writes + WritesOf(e)
  {
  }

  /** What a stream writes to the cache, whatever the schedule. */
  function AllWrites(events: seq<OrderedEvent>): seq<Write> {
    if events == [] then []
    else AllWrites(events[..|events| - 1]) + WritesOf(events[|events| - 1])
  }

  lemma {:induction false} RunWrites(sched: set<Key>, events: seq<OrderedEvent>)
    ensures Run(sched, events).writes == AllWrites(events)
  {
    if events != [] {
      var init := events[..|events| - 1];
      RunWrites(sched, init);
      CacheApart(sched, Run(sched, init), AllWrites(init), events[|events| - 1]);
    }
  }

  lemma {:induction false} LastWritesMore(ws: seq<Write>, w: Write)
    ensures LastWrites(ws + [w]) == LastWrites(ws)[w.slot := w.hash]
  {
    assert (ws + [w])[..|ws|] == ws;
  }

  lemma {:induction false} AllWritesAreLastHashes(events: seq<OrderedEvent>, s: nat)
    ensures var m := LastWrites(AllWrites(events)); LastHash(events, s) == if s in m then Some(m[s]) else None
  {
    if events != [] {
      var init, e := events[..|events| - 1], events[|events| - 1];
      AllWritesAreLastHashes(init, s);
      if e.Missing? {
        assert AllWrites(init) + [] == AllWrites(init);
      } else {
        var w := WritesOf(e)[0];
        assert WritesOf(e) == [w];
        LastWritesMore(AllWrites(init), w);
      }
    }
  }

  /** What the stream has written to the cache, in every run: per slot, the last hash it carried. */
  lemma {:induction false} WritesAreLastHashes(sched: set<Key>, events: seq<OrderedEvent>, s: nat)
    ensures var m := LastWrites(Run(sched, events).writes);
            LastHash(events, s) == if s in m then Some(m[s]) else None
  {
    RunWrites(sched, events);
    AllWritesAreLastHashes(events, s);
  }

  // ---------- the engine as the source runs it ----------

  class Engine {
    const schedule: set<Key>
    const cache: Cache
    var firedKeys: set<Key>
    var lastCompactSlot: nat
    var triggers: seq<Trigger>
    var entriesSeen: nat
    var scheduleHits: nat
    var duplicateSuppressed: nat
    var uncertainTriggers: nat
    /** What has been recorded in the cache so far. */
    ghost var writes: seq<Write>

    ghost predicate Valid()
      reads this, cache
    {
      cache.inner == CacheAfter(cache.window, writes)
    }

    ghost function Value(): State
      reads this
    {
      State(Fired(firedKeys, lastCompactSlot), triggers, writes,
            entriesSeen, scheduleHits, duplicateSuppressed, uncertainTriggers)
    }

    constructor (schedule: set<Key>, cache: Cache)
      requires cache.inner == map[]
      ensures Valid() && Value() == INITIAL && this.schedule == schedule && this.cache == cache
    {
      this.schedule, this.cache := schedule, cache;
      firedKeys, lastCompactSlot, triggers, writes := {}, 0, [], [];
      entriesSeen, scheduleHits, duplicateSuppressed, uncertainTriggers := 0, 0, 0, 0;
    }

    method RecordInCache(slot: nat, hash: Hash)
      requires Valid()
      modifies `writes, cache
      ensures Valid() && writes == old(writes) + [Write(slot, hash)]
    {
      cache.RecordEntry(slot, hash);
      assert (writes + [Write(slot, hash)])[..|writes|] == writes;
      writes := writes + [Write(slot, hash)];
    }

    /** The schedule check and the compaction. */
    method Check(e: OrderedEvent)
      requires e.Entry? && e.tickIdx < 256
      modifies this
      ensures Value() == Consume(schedule, old(Value()), e).(writes := old(writes))
    {
      entriesSeen := entriesSeen + 1;
      var key := (e.slot, e.tickIdx);
      if e.tickIdx > 0 && key in schedule {
        if key !in firedKeys {
          firedKeys := firedKeys + {key};
          scheduleHits := scheduleHits + 1;
          if e.tickUncertain {
            uncertainTriggers := uncertainTriggers + 1;
          }
          triggers := triggers + [Trigger(TriggerId(e.slot, e.tickIdx), e.slot, e.tickIdx, e.tickUncertain)];
        } else {
          duplicateSuppressed := duplicateSuppressed + 1;
        }
      }
      assert firedKeys == if Due(schedule, e) then old(firedKeys) + {key} else old(firedKeys);
      if e.slot > lastCompactSlot + FIRED_WINDOW_SLOTS {
        lastCompactSlot := e.slot;
        var cutoff := SatSub(e.slot, FIRED_WINDOW_SLOTS);
        firedKeys := set k | k in firedKeys && k.0 >= cutoff;
      }
    }

    method Handle(e: OrderedEvent)
      requires Valid() && (e.Entry? ==> e.tickIdx < 256)
      modifies this, cache
      ensures Valid() && Value() == Consume(schedule, old(Value()), e)
    {
      match e
      case Entry(slot, _, _, _, obs, _, _, _) =>
        ghost var x := Value();
        RecordInCache(slot, obs.entryHash);
        CacheApart(schedule, x, writes, e);
        Check(e);
      case Missing(_, _, _) =>
        assert writes + [] == writes;
      case SlotComplete(slot, _, hash, _, _) =>
        RecordInCache(slot, hash);
      case SlotIncomplete(slot, _, hash, _, _) =>
        RecordInCache(slot, hash);
    }

    method RunLoop(events: seq<OrderedEvent>)
      requires Valid() && Value() == INITIAL
      requires forall e :: e in events && e.Entry? ==> e.tickIdx < 256
      modifies this, cache
      ensures Valid() && Value() == Run(schedule, events)
    {
      assert events[..0] == [];
      for i := 0 to |events|
        invariant Valid() && Value() == Run(schedule, events[..i])
      {
        assert events[..i + 1][..i] == events[..i];
        Handle(events[i]);
      }
      assert events[..|events|] == events;
    }
  }
}
