/**
 PoH position arithmetic of the single-sender benchmark: the observer's per-slot tick and
 hash counters (crates/tick-trigger-bench/src/observer.rs) and the distances the Parquet
 writer derives from them (crates/tick-trigger-bench/src/writer.rs).
 */
module PohArithmetic {
  import opened Entries

  const HASHES_PER_TICK: nat := 62_500
  const HASHES_PER_SLOT: nat := 64 * 62_500
  const U8_MAX: nat := 255
  const RETAIN_ABOVE: nat := 4096
  const RETAIN_WINDOW: nat := 200

  // ---------- the observer ----------

  datatype SlotState = SlotState(tickIdx: nat, hashCount: nat, cumulativeHashes: nat, seen: set<Hash>)

  const EMPTY_SLOT := SlotState(0, 0, 0, {})

  datatype Match = Match(signature: Signature, slot: nat, entryIndex: nat, tick: Option<nat>, cumulativeHashes: Option<nat>)

  /** A detected tick: the slot and the tick number, which saturates at 255. */
  datatype TickEvent = TickEvent(slot: nat, tickIdx: nat)

  datatype State = State(slots: map<nat, SlotState>, firstSlot: Option<nat>, ticks: seq<TickEvent>, matches: seq<Match>)

  const INITIAL := State(map[], None, [], [])

  /** A zero-transaction entry that completes exactly one tick's worth of hashes. */
  predicate CompletesTick(st: SlotState, obs: EntryObservation) {
    obs.entryHash !in st.seen && obs.txCount == 0 && SatAdd64(st.hashCount, obs.numHashes) == HASHES_PER_TICK
  }

  /** What an entry does to the counters of its slot; a hash already seen does nothing. */
  function Absorb(st: SlotState, obs: EntryObservation): SlotState {
    if obs.entryHash in st.seen then st
    else
      SlotState(
        if CompletesTick(st, obs) then Min(st.tickIdx + 1, U8_MAX) else st.tickIdx,
        if CompletesTick(st, obs) then 0 else SatAdd64(st.hashCount, obs.numHashes),
        SatAdd64(st.cumulativeHashes, obs.numHashes),
        st.seen + {obs.entryHash})
  }

  function Trim(slots: map<nat, SlotState>, slot: nat): map<nat, SlotState> {
    if |slots| > RETAIN_ABOVE then map s | s in slots && s + RETAIN_WINDOW >= slot :: slots[s] else slots
  }

  /** The match events for the signatures of an entry that are still pending. */
  function MatchesFor(obs: EntryObservation, sigs: seq<Signature>, pending: set<Signature>, st: Option<SlotState>): seq<Match> {
    if sigs == [] then []
    else
      var before, sig := MatchesFor(obs, sigs[..|sigs| - 1], pending, st), sigs[|sigs| - 1];
      if sig in pending
      then before + [Match(sig, obs.slot, obs.entryIndex,
                           if st.Some? then Some(st.value.tickIdx) else None,
                           if st.Some? then Some(st.value.cumulativeHashes) else None)]
      else before
  }

  /** One entry; `pending` is the set of signatures waited for at that moment. The first slot seen is warm-up. */
  function Observe(x: State, obs: EntryObservation, pending: set<Signature>): State {
    var kept := Trim(x.slots, obs.slot);
    var first := if x.firstSlot.None? then Some(obs.slot) else x.firstSlot;
    if first == Some(obs.slot) then
      var st := if obs.slot in kept then Some(kept[obs.slot]) else None;
      State(kept, first, x.ticks, x.matches + MatchesFor(obs, obs.signatures, pending, st))
    else
      var before := if obs.slot in kept then kept[obs.slot] else EMPTY_SLOT;
      var after := Absorb(before, obs);
      var ticked := CompletesTick(before, obs);
      State(
        kept[obs.slot := after],
        first,
        if ticked then x.ticks + [TickEvent(obs.slot, after.tickIdx)] else x.ticks,
        // A tick number above 64 skips the rest of the iteration, signatures included.
        if ticked && after.tickIdx > 64 then x.matches
        else x.matches + MatchesFor(obs, obs.signatures, pending, Some(after)))
  }

  datatype Input = Input(obs: EntryObservation, pending: set<Signature>)

  function Run(inputs: seq<Input>): State {
    if inputs == [] then INITIAL
    else var last := inputs[|inputs| - 1]; Observe(Run(inputs[..|inputs| - 1]), last.obs, last.pending)
  }

  /** The two counters of a slot agree, unless one of them has saturated. */
  predicate Agree(tick: nat, hashCount: nat, cumulative: nat) {
    tick < 255 && cumulative < U64_MAX ==> cumulative == 62_500 * tick + hashCount
  }

  predicate Exact(x: State) {
    && (forall s :: s in x.slots ==> Agree(x.slots[s].tickIdx, x.slots[s].hashCount, x.slots[s].cumulativeHashes))
    && (forall i :: 0 <= i < |x.matches| ==> Located(x.matches[i]))
  }

  /** A match carries a position that no tick has overtaken. */
  predicate Located(m: Match) {
    && (m.tick.Some? <==> m.cumulativeHashes.Some?)
    && (m.tick.Some? && m.tick.value < U8_MAX && m.cumulativeHashes.value < U64_MAX ==>
          HASHES_PER_TICK * m.tick.value <= m.cumulativeHashes.value)
  }

  lemma AbsorbAgrees(st: SlotState, obs: EntryObservation)
    requires Agree(st.tickIdx, st.hashCount, st.cumulativeHashes)
    ensures var y := Absorb(st, obs); Agree(y.tickIdx, y.hashCount, y.cumulativeHashes)
  {
  }

  lemma {:induction false} MatchesAreLocated(obs: EntryObservation, sigs: seq<Signature>, pending: set<Signature>, st: Option<SlotState>)
    requires st.Some? ==> Agree(st.value.tickIdx, st.value.hashCount, st.value.cumulativeHashes)
    ensures forall m :: m in MatchesFor(obs, sigs, pending, st) ==> Located(m)
  {
    if sigs != [] {
      MatchesAreLocated(obs, sigs[..|sigs| - 1], pending, st);
    }
  }

  lemma ObserveIsExact(x: State, obs: EntryObservation, pending: set<Signature>)
    requires Exact(x)
    ensures Exact(Observe(x, obs, pending))
  {
    var kept := Trim(x.slots, obs.slot);
    var before := if obs.slot in kept then kept[obs.slot] else EMPTY_SLOT;
    AbsorbAgrees(before, obs);
    MatchesAreLocated(obs, obs.signatures, pending, Some(Absorb(before, obs)));
    MatchesAreLocated(obs, obs.signatures, pending, if obs.slot in kept then Some(kept[obs.slot]) else None);
  }

  /**
   In every reachable state, and for every slot, cumulative hashes = 62500 * ticks + hashes
   since the last tick, unless the u8 tick number or the u64 sum has saturated.
   */
  lemma {:induction false} CountersAlwaysAgree(inputs: seq<Input>)
    ensures Exact(Run(inputs))
  {
    if inputs != [] {
      var last := inputs[|inputs| - 1];
      CountersAlwaysAgree(inputs[..|inputs| - 1]);
      ObserveIsExact(Run(inputs[..|inputs| - 1]), last.obs, last.pending);
    }
  }

  // ---------- where the ticks are, from the entries alone ----------

  function HashesOf(es: seq<EntryObservation>): set<Hash> {
    if es == [] then {} else HashesOf(es[..|es| - 1]) + {es[|es| - 1].entryHash}
  }

  /** The entries of slot `s` in order of arrival, each hash once. */
  function NewEntries(inputs: seq<Input>, s: nat): seq<EntryObservation> {
    if inputs == [] then []
    else
      var before, obs := NewEntries(inputs[..|inputs| - 1], s), inputs[|inputs| - 1].obs;
      if obs.slot == s && obs.entryHash !in HashesOf(before) then before + [obs] else before
  }

  /** The hashes since the last tick; a tick is an entry without transactions that brings them to exactly 62500. */
  function HashesSince(es: seq<EntryObservation>): nat {
    if es == [] then 0
    else
      var e := es[|es| - 1];
      var hashes := SatAdd64(HashesSince(es[..|es| - 1]), e.numHashes);
      if e.txCount == 0 && hashes == 62_500 then 0 else hashes
  }

  predicate IsTick(before: seq<EntryObservation>, e: EntryObservation) {
    e.txCount == 0 && SatAdd64(HashesSince(before), e.numHashes) == 62_500
  }

  function TicksIn(es: seq<EntryObservation>): nat {
    if es == [] then 0
    else TicksIn(es[..|es| - 1]) + OneIf(IsTick(es[..|es| - 1], es[|es| - 1]))
  }

  function TotalHashes(es: seq<EntryObservation>): nat {
    if es == [] then 0 else SatAdd64(TotalHashes(es[..|es| - 1]), es[|es| - 1].numHashes)
  }

  /** The slot is never dropped to save memory. */
  predicate NeverTrimmed(inputs: seq<Input>, s: nat) {
    inputs != [] ==>
      var init := inputs[..|inputs| - 1];
      && NeverTrimmed(init, s)
      && (|Run(init).slots| > 4096 && s in Run(init).slots ==> inputs[|inputs| - 1].obs.slot <= s + 200)
  }

  /** The tick events of one slot. */
  function TicksOf(ticks: seq<TickEvent>, s: nat): seq<TickEvent> {
    if ticks == [] then []
    else
      var last := ticks[|ticks| - 1];
      TicksOf(ticks[..|ticks| - 1], s) + if last.slot == s then [last] else []
  }

  /** Ticks 1, 2, 3, ..., `n`, where a number above 255 shows as 255. */
  function Numbered(s: nat, n: nat): seq<TickEvent> {
    if n == 0 then [] else Numbered(s, n - 1) + [TickEvent(s, Min(255, n))]
  }

  /** What a slot whose new entries are `es` stands at. */
  function PositionOf(es: seq<EntryObservation>): SlotState {
    SlotState(Min(255, TicksIn(es)), HashesSince(es), TotalHashes(es), HashesOf(es))
  }

  /** The state of a slot is that of its new entries. */
  predicate StandsAt(x: State, s: nat, es: seq<EntryObservation>) {
    && (s in x.slots <==> es != [])
    && (s in x.slots ==> x.slots[s] == PositionOf(es))
    && TicksOf(x.ticks, s) == Numbered(s, TicksIn(es))
  }

  lemma TicksOfMore(ticks: seq<TickEvent>, last: TickEvent, s: nat)
    ensures TicksOf(ticks + [last], s) == TicksOf(ticks, s) + if last.slot == s then [last] else []
  {
    assert (ticks + [last])[..|ticks|] == ticks;
  }

  lemma {:induction false} NewEntryMoves(st: SlotState, es: seq<EntryObservation>, obs: EntryObservation)
    requires st == PositionOf(es) && obs.entryHash !in HashesOf(es)
    ensures Absorb(st, obs) == PositionOf(es + [obs])
    ensures CompletesTick(st, obs) <==> TicksIn(es + [obs]) == TicksIn(es) + 1
    ensures !CompletesTick(st, obs) ==> TicksIn(es + [obs]) == TicksIn(es)
  {
    assert (es + [obs])[..|es|] == es;
  }

  lemma {:induction false} OwnEntryStands(x: State, obs: EntryObservation, pending: set<Signature>, es: seq<EntryObservation>)
    requires StandsAt(x, obs.slot, es) && x.firstSlot.Some? && x.firstSlot != Some(obs.slot)
    ensures StandsAt(Observe(x, obs, pending), obs.slot, if obs.entryHash in HashesOf(es) then es else es + [obs])
  {
    var s := obs.slot;
    var before := if s in x.slots then x.slots[s] else EMPTY_SLOT;
    assert before == PositionOf(es);
    if obs.entryHash !in HashesOf(es) {
      NewEntryMoves(before, es, obs);
      TicksOfMore(x.ticks, TickEvent(s, Absorb(before, obs).tickIdx), s);
    }
  }

  lemma {:induction false} OtherEntryStands(x: State, obs: EntryObservation, pending: set<Signature>, s: nat, es: seq<EntryObservation>)
    requires StandsAt(x, s, es) && obs.slot != s
    requires |x.slots| > 4096 && s in x.slots ==> obs.slot <= s + 200
    ensures StandsAt(Observe(x, obs, pending), s, es)
  {
    var kept := Trim(x.slots, obs.slot);
    var before := if obs.slot in kept then kept[obs.slot] else EMPTY_SLOT;
    TicksOfMore(x.ticks, TickEvent(obs.slot, Absorb(before, obs).tickIdx), s);
    assert TicksOf(x.ticks, s) + [] == TicksOf(x.ticks, s);
  }

  lemma {:induction false} FirstSlotIsFirst(inputs: seq<Input>)
    ensures Run(inputs).firstSlot == if inputs == [] then None else Some(inputs[0].obs.slot)
  {
    if inputs != [] {
      FirstSlotIsFirst(inputs[..|inputs| - 1]);
    }
  }

  /**
   In every run, for every slot other than the first one seen and never dropped: the tick
   number is the ticks among its new entries (255 at most), the hash count is the hashes
   since the last of them, the total is that of all new entries, and the tick events of the
   slot are numbered 1, 2, 3, ...
   */
  lemma {:induction false} PositionIsThatOfEntries(inputs: seq<Input>, s: nat)
    requires NeverTrimmed(inputs, s) && (inputs != [] ==> inputs[0].obs.slot != s)
    ensures StandsAt(Run(inputs), s, NewEntries(inputs, s))
  {
    if inputs != [] {
      var init, last := inputs[..|inputs| - 1], inputs[|inputs| - 1];
      PositionIsThatOfEntries(init, s);
      FirstSlotIsFirst(init);
      if last.obs.slot != s {
        OtherEntryStands(Run(init), last.obs, last.pending, s, NewEntries(init, s));
      } else {
        OwnEntryStands(Run(init), last.obs, last.pending, NewEntries(init, s));
      }
    }
  }

  function EmptyEntries(es: seq<EntryObservation>): nat {
    if es == [] then 0 else EmptyEntries(es[..|es| - 1]) + OneIf(es[|es| - 1].txCount == 0)
  }

  /** The hashes after the last entry without transactions. */
  function HashesSinceEmpty(es: seq<EntryObservation>): nat {
    if es == [] then 0
    else if es[|es| - 1].txCount == 0 then 0
    else HashesSinceEmpty(es[..|es| - 1]) + es[|es| - 1].numHashes
  }

  /** As PoH promises: every entry without transactions closes exactly 62500 hashes. */
  predicate Regular(es: seq<EntryObservation>) {
    es != [] ==>
      var init, e := es[..|es| - 1], es[|es| - 1];
      && Regular(init)
      && HashesSinceEmpty(init) + e.numHashes <= U64_MAX
      && (e.txCount == 0 ==> HashesSinceEmpty(init) + e.numHashes == 62_500)
  }

  /** On a regular slot the ticks are exactly the entries without transactions. */
  lemma {:induction false} RegularTicksAreEmptyEntries(es: seq<EntryObservation>)
    requires Regular(es)
    ensures TicksIn(es) == EmptyEntries(es) && HashesSince(es) == HashesSinceEmpty(es)
  {
    if es != [] {
      RegularTicksAreEmptyEntries(es[..|es| - 1]);
    }
  }

  /** In every run: an entry that carries transactions, repeats a hash or belongs to the first slot adds no tick. */
  lemma {:induction false} OtherEntriesAddNoTick(inputs: seq<Input>, obs: EntryObservation, pending: set<Signature>)
    ensures var x, y := Run(inputs), Observe(Run(inputs), obs, pending);
            && (obs.txCount != 0 ==> y.ticks == x.ticks)
            && (obs.slot in x.slots && |x.slots| <= 4096 && obs.entryHash in x.slots[obs.slot].seen ==> y.ticks == x.ticks)
            && (inputs != [] && obs.slot == inputs[0].obs.slot ==> y.ticks == x.ticks)
            && (y.ticks != x.ticks ==> exists n :: 1 <= n <= 255 && y.ticks == x.ticks + [TickEvent(obs.slot, n)])
  {
    FirstSlotIsFirst(inputs);
  }

  /** Which slots an entry leaves in the table. */
  lemma TrimsExactly(x: State, obs: EntryObservation, pending: set<Signature>, s: nat)
    requires s != obs.slot
    ensures var y := Observe(x, obs, pending);
            && (s in y.slots <==> s in x.slots && (|x.slots| > 4096 ==> obs.slot <= s + 200))
            && (s in y.slots ==> y.slots[s] == x.slots[s])
  {
  }

  function PendingAmong(sigs: seq<Signature>, pending: set<Signature>): nat {
    if sigs == [] then 0
    else PendingAmong(sigs[..|sigs| - 1], pending) + OneIf(sigs[|sigs| - 1] in pending)
  }

  /** The match of a pending signature of the entry, with the position of its slot in `x`. */
  predicate MatchOf(m: Match, input: Input, x: State) {
    && m.signature in input.obs.signatures && m.signature in input.pending
    && m.slot == input.obs.slot && m.entryIndex == input.obs.entryIndex
    && m.tick == (if m.slot in x.slots then Some(x.slots[m.slot].tickIdx) else None)
    && m.cumulativeHashes == (if m.slot in x.slots then Some(x.slots[m.slot].cumulativeHashes) else None)
  }

  lemma {:induction false} MatchesForAre(obs: EntryObservation, sigs: seq<Signature>, pending: set<Signature>, st: Option<SlotState>)
    ensures |MatchesFor(obs, sigs, pending, st)| == PendingAmong(sigs, pending)
    ensures forall m :: m in MatchesFor(obs, sigs, pending, st) ==>
              && m.signature in sigs && m.signature in pending && m.slot == obs.slot && m.entryIndex == obs.entryIndex
              && m.tick == (if st.Some? then Some(st.value.tickIdx) else None)
              && m.cumulativeHashes == (if st.Some? then Some(st.value.cumulativeHashes) else None)
  {
    if sigs != [] {
      MatchesForAre(obs, sigs[..|sigs| - 1], pending, st);
    }
  }

  /**
   What an entry adds to the matches: one for each of its signatures that is pending, with
   the slot's position after the entry; none if the entry is a tick numbered above 64.
   */
  lemma {:induction false} EntryMatches(x: State, obs: EntryObservation, pending: set<Signature>)
    ensures var y := Observe(x, obs, pending);
            && |x.matches| <= |y.matches| && y.matches[..|x.matches|] == x.matches
            && (forall i :: |x.matches| <= i < |y.matches| ==> MatchOf(y.matches[i], Input(obs, pending), y))
            && |y.matches| - |x.matches| ==
               if |y.ticks| > |x.ticks| && y.ticks[|x.ticks|].tickIdx > 64 then 0 else PendingAmong(obs.signatures, pending)
  {
    var y := Observe(x, obs, pending);
    var st := if obs.slot in y.slots then Some(y.slots[obs.slot]) else None;
    MatchesForAre(obs, obs.signatures, pending, st);
    var added := MatchesFor(obs, obs.signatures, pending, st);
    assert forall i :: 0 <= i < |added| ==> added[i] in added;
  }

  // ---------- the writer's distances ----------

  const U32: nat := 0x1_0000_0000

  /** `u64::saturating_mul`. */
  function SatMul64(a: nat, b: nat): nat {
    if a * b <= U64_MAX then a * b else U64_MAX
  }

  /** `tick as u32 + slot_diff as u32 * 64`, in wrapping u32 arithmetic, minus the scheduled tick. */
  function TickDelta(slotDiff: nat, tick: nat, scheduleTick: nat): nat {
    SatSub((tick + ((slotDiff % U32) * 64) % U32) % U32, scheduleTick)
  }

  function HashDelta(slotDiff: nat, cumulative: nat, scheduleTick: nat): nat {
    SatSub(SatAdd64(SatMul64(slotDiff, HASHES_PER_SLOT), cumulative), scheduleTick * HASHES_PER_TICK)
  }

  /** The hash distance for all inputs: the observed position, at most 2^64 - 1, less the scheduled one, at least 0. */
  lemma HashDistanceExactly(slotDiff: nat, cumulative: nat, scheduleTick: nat)
    requires cumulative <= U64_MAX
    ensures HashDelta(slotDiff, cumulative, scheduleTick) ==
            Max(0, Min(0xFFFF_FFFF_FFFF_FFFF, 4_000_000 * slotDiff + cumulative) - 62_500 * scheduleTick)
  {
  }

  /** How far the scheduled tick is ahead of the observed one. */
  function Ahead(slotDiff: nat, tick: nat, scheduleTick: nat): nat {
    SatSub(scheduleTick, 64 * slotDiff + tick)
  }

  lemma DeltasWithoutWrap(slotDiff: nat, tick: nat, hashCount: nat, scheduleTick: nat)
    requires 64 * slotDiff + tick < U32 && HASHES_PER_TICK * (64 * slotDiff + tick) + hashCount <= U64_MAX
    ensures TickDelta(slotDiff, tick, scheduleTick) == SatSub(64 * slotDiff + tick, scheduleTick)
    ensures HashDelta(slotDiff, HASHES_PER_TICK * tick + hashCount, scheduleTick) ==
            SatSub(HASHES_PER_TICK * (64 * slotDiff + tick) + hashCount, HASHES_PER_TICK * scheduleTick)
  {
  }

  lemma DivideByTick(q: nat, r: nat)
    ensures (HASHES_PER_TICK * q + r) / HASHES_PER_TICK == q + r / HASHES_PER_TICK
  {
  }

  /**
   The two recorded distances agree (tick_delta = hash_delta div 62500) exactly when the
   hashes since the last tick are fewer than one tick's worth, or fewer than the scheduled
   tick is ahead allows; the cases where both saturate to 0 are included.
   */
  lemma DistancesAgreeExactly(slotDiff: nat, tick: nat, hashCount: nat, scheduleTick: nat)
    requires 64 * slotDiff + tick < U32 && HASHES_PER_TICK * (64 * slotDiff + tick) + hashCount <= U64_MAX
    ensures TickDelta(slotDiff, tick, scheduleTick)
            == HashDelta(slotDiff, HASHES_PER_TICK * tick + hashCount, scheduleTick) / HASHES_PER_TICK
            <==> hashCount < HASHES_PER_TICK * (1 + Ahead(slotDiff, tick, scheduleTick))
  {
    DeltasWithoutWrap(slotDiff, tick, hashCount, scheduleTick);
    var at := 64 * slotDiff + tick;
    if at >= scheduleTick {
      DivideByTick(at - scheduleTick, hashCount);
    } else {
      var ahead := scheduleTick - at;
      assert HASHES_PER_TICK * scheduleTick == HASHES_PER_TICK * at + HASHES_PER_TICK * ahead;
    }
  }

  /** The same for every match of every run, in terms of the position that the match carries. */
  lemma {:induction false} RecordedDistancesAgreeExactly(inputs: seq<Input>, i: nat, scheduleSlot: nat, scheduleTick: nat)
    requires i < |Run(inputs).matches|
    requires var m := Run(inputs).matches[i];
             && m.tick.Some? && m.cumulativeHashes.Some?
             && m.tick.value < U8_MAX && m.cumulativeHashes.value < U64_MAX
             && 64 * SatSub(m.slot, scheduleSlot) + m.tick.value < U32
             && HASHES_PER_SLOT * SatSub(m.slot, scheduleSlot) + m.cumulativeHashes.value <= U64_MAX
    ensures var m := Run(inputs).matches[i];
            var slotDiff := SatSub(m.slot, scheduleSlot);
            TickDelta(slotDiff, m.tick.value, scheduleTick)
            == HashDelta(slotDiff, m.cumulativeHashes.value, scheduleTick) / HASHES_PER_TICK
            <==> m.cumulativeHashes.value - HASHES_PER_TICK * m.tick.value
                 < HASHES_PER_TICK * (1 + Ahead(slotDiff, m.tick.value, scheduleTick))
  {
    CountersAlwaysAgree(inputs);
    var m := Run(inputs).matches[i];
    assert Located(m);
    DistancesAgreeExactly(SatSub(m.slot, scheduleSlot), m.tick.value,
                          m.cumulativeHashes.value - HASHES_PER_TICK * m.tick.value, scheduleTick);
  }

  lemma WholeTurns(k: nat, x: nat)
    ensures (U32 * k + x) % U32 == x % U32
  {
  }

  /** Reducing early or late is the same. */
  lemma WrappedTicks(slotDiff: nat, tick: nat)
    ensures (tick + ((slotDiff % U32) * 64) % U32) % U32 == (64 * slotDiff + tick) % U32
  {
    var q, r := slotDiff / U32, slotDiff % U32;
    WholeTurns(64 * q, 64 * r + tick);
    assert 64 * slotDiff + tick == U32 * (64 * q) + (64 * r + tick);
    WrappedSum(64 * r, tick);
  }

  lemma WrappedSum(a: nat, b: nat)
    ensures (b + a % U32) % U32 == (a + b) % U32
  {
    WholeTurns(a / U32, a % U32 + b);
    assert a + b == U32 * (a / U32) + (a % U32 + b);
  }

  /**
   The recorded tick distance is the true one exactly when the observed tick, counted from
   the start of the scheduled slot, fits 32 bits; beyond that the sum wraps and the recorded
   distance is too small. Ticks are `u8`.
   */
  lemma TickDistanceIsTrueExactly(slotDiff: nat, tick: nat, scheduleTick: nat)
    requires tick <= U8_MAX && scheduleTick <= U8_MAX
    ensures TickDelta(slotDiff, tick, scheduleTick) == SatSub(64 * slotDiff + tick, scheduleTick)
            <==> 64 * slotDiff + tick < U32
    ensures TickDelta(slotDiff, tick, scheduleTick) <= SatSub(64 * slotDiff + tick, scheduleTick)
  {
    WrappedTicks(slotDiff, tick);
    var at := 64 * slotDiff + tick;
    if at >= U32 {
      assert at % U32 <= at - U32;
    }
  }

  /** A match 2^26 slots later is recorded as distance 0. */
  lemma TickDeltaWraps()
    ensures TickDelta(0x400_0000, 0, 0) == 0
    ensures HashDelta(0x400_0000, 0, 0) / HASHES_PER_TICK == 0x1_0000_0000
  {
  }

  // ---------- the observer as the source runs it ----------

  class Observer {
    var slots: map<nat, SlotState>
    var firstSlot: Option<nat>
    var ticks: seq<TickEvent>
    var matches: seq<Match>

    ghost function Value(): State
      reads this
    {
      State(slots, firstSlot, ticks, matches)
    }

    constructor ()
      ensures Value() == INITIAL
    {
      slots, firstSlot, ticks, matches := map[], None, [], [];
    }

    /** The tick-detection part of the loop body; `skip` when the rest of the iteration is skipped. */
    method Track(obs: EntryObservation) returns (skip: bool)
      modifies `slots, `ticks
      ensures var before := if obs.slot in old(slots) then old(slots)[obs.slot] else EMPTY_SLOT;
              var after := Absorb(before, obs);
              && slots == old(slots)[obs.slot := after]
              && ticks == (if CompletesTick(before, obs) then old(ticks) + [TickEvent(obs.slot, after.tickIdx)] else old(ticks))
              && skip == (CompletesTick(before, obs) && after.tickIdx > 64)
    {
      skip := false;
      var st := if obs.slot in slots then slots[obs.slot] else EMPTY_SLOT;
      if obs.entryHash !in st.seen {
        st := st.(seen := st.seen + {obs.entryHash});
        st := st.(hashCount := SatAdd64(st.hashCount, obs.numHashes));
        st := st.(cumulativeHashes := SatAdd64(st.cumulativeHashes, obs.numHashes));
        if obs.txCount == 0 && st.hashCount == HASHES_PER_TICK {
          st := st.(tickIdx := Min(st.tickIdx + 1, U8_MAX), hashCount := 0);
          ticks := ticks + [TickEvent(obs.slot, st.tickIdx)];
          skip := st.tickIdx > 64;
        }
      }
      slots := slots[obs.slot := st];
    }

    method MatchSignatures(obs: EntryObservation, pending: set<Signature>)
      modifies `matches
      ensures matches == old(matches) +
                         MatchesFor(obs, obs.signatures, pending, if obs.slot in slots then Some(slots[obs.slot]) else None)
    {
      ghost var st := if obs.slot in slots then Some(slots[obs.slot]) else None;
      assert obs.signatures[..0] == [];
      for i := 0 to |obs.signatures|
        invariant matches == old(matches) + MatchesFor(obs, obs.signatures[..i], pending, st)
      {
        var sig := obs.signatures[i];
        assert obs.signatures[..i + 1][..i] == obs.signatures[..i];
        if sig in pending {
          matches := matches + [Match(sig, obs.slot, obs.entryIndex,
                                      if obs.slot in slots then Some(slots[obs.slot].tickIdx) else None,
                                      if obs.slot in slots then Some(slots[obs.slot].cumulativeHashes) else None)];
        }
      }
      assert obs.signatures[..|obs.signatures|] == obs.signatures;
    }

    method Handle(obs: EntryObservation, pending: set<Signature>)
      modifies this
      ensures Value() == Observe(old(Value()), obs, pending)
    {
      if |slots| > RETAIN_ABOVE {
        slots := map s | s in slots && s + RETAIN_WINDOW >= obs.slot :: slots[s];
      }
      if firstSlot.None? {
        firstSlot := Some(obs.slot);
      }
      if firstSlot != Some(obs.slot) {
        var skip := Track(obs);
        if skip {
          return;
        }
      }
      MatchSignatures(obs, pending);
    }
  }
}
