/**
 Reordering is invisible: a slot whose entries all arrive, each once, in any order and
 interleaved in any way with the arrivals of other slots, is shown to the consumer exactly
 as if they had arrived in order.
 */
module Reordering {
  import opened Entries
  import opened OrderedMaps
  import opened PohSlots
  import opened PohTraces
  import opened PohRuns
  import opened PohSafety

  // ---------- the in-order reference ----------

  /** The entries of slot `s` in PoH order. */
  predicate Numbered(es: seq<MergedEntry>, s: nat) {
    forall i :: 0 <= i < |es| ==> es[i].observation.slot == s && es[i].observation.entryIndex == i
  }

  function TickCount(es: seq<MergedEntry>): nat {
    if es == [] then 0
    else TickCount(es[..|es| - 1]) + if es[|es| - 1].observation.txCount == 0 then 1 else 0
  }

  function HashTotal(es: seq<MergedEntry>): nat {
    if es == [] then 0 else SatAdd64(HashTotal(es[..|es| - 1]), es[|es| - 1].observation.numHashes)
  }

  /** Event `e` shows entry `i` of the slot with its true position in the PoH chain. */
  predicate Shows(e: OrderedEvent, es: seq<MergedEntry>, i: nat)
    requires i < |es|
  {
    && e.Entry?
    && e.slot == es[i].observation.slot
    && e.entryIndex == i
    && e.observation == es[i].observation
    && e.tickIdx == Min(64, TickCount(es[..i + 1]))
    && e.cumulativeHashes == HashTotal(es[..i + 1])
    && !e.tickUncertain
  }

  predicate ShownInOrder(events: seq<OrderedEvent>, es: seq<MergedEntry>) {
    |events| <= |es| && forall i :: 0 <= i < |events| ==> Shows(events[i], es, i)
  }

  // ---------- the runs ----------

  function TimesNext(times: map<nat, nat>, step: Step, s: nat): map<nat, nat> {
    if step.Arrival? && step.m.observation.slot == s then times[step.m.observation.entryIndex := step.at] else times
  }

  /** When each index of slot `s` arrived, the latest time if it came more than once. */
  function ArrivedAt(steps: seq<Step>, s: nat): map<nat, nat> {
    if steps == [] then map[] else TimesNext(ArrivedAt(steps[..|steps| - 1], s), steps[|steps| - 1], s)
  }

  /** The indices of slot `s` that have arrived. */
  function Arrived(steps: seq<Step>, s: nat): set<nat> {
    ArrivedAt(steps, s).Keys
  }

  function Range(n: nat): (r: set<nat>)
    ensures forall i :: i in r <==> 0 <= i < n
  {
    if n == 0 then {} else Range(n - 1) + {n - 1}
  }

  /** The least index from `n` on that is not in `arrived`. */
  function CursorFrom(arrived: set<nat>, n: nat): (c: nat)
    ensures n <= c && c !in arrived && forall i :: n <= i < c ==> i in arrived
    decreases arrived - Range(n)
  {
    if n !in arrived then n
    else
      assert n in arrived - Range(n) && n !in arrived - Range(n + 1);
      CursorFrom(arrived, n + 1)
  }

  /** The index that the consumer is waiting for. */
  function Cursor(arrived: set<nat>): (c: nat)
    ensures c !in arrived && forall i :: 0 <= i < c ==> i in arrived
  {
    CursorFrom(arrived, 0)
  }

  /** The indices that arrived too early: those behind a gap. */
  function Early(arrived: set<nat>): set<nat> {
    set k | k in arrived && k > Cursor(arrived)
  }

  /** At `at`, the first early entry has not yet waited for `timeout`. */
  predicate InTime(times: map<nat, nat>, at: nat, timeout: nat) {
    var early := Early(times.Keys);
    early != {} ==> SatSub(at, times[Least(early)]) < timeout
  }

  /**
   A step that keeps the delivery of slot `s` clean, when the slot's arrivals so far are
   `times`: an arrival is the entry with its index, the index is new, and an early entry
   finds fewer than `maxPending` early entries before it; and while some entries have come
   and some are still missing no sweep seals the slot or finds the first early entry timed
   out.
   */
  predicate CleanStep(cfg: Config, times: map<nat, nat>, maxSlot: nat, step: Step, s: nat, es: seq<MergedEntry>) {
    match step
    case Arrival(m, _) =>
      var i := m.observation.entryIndex;
      m.observation.slot == s ==>
        && i < |es| && m == es[i] && i !in times
        && (i > Cursor(times.Keys) ==> |Early(times.Keys)| < cfg.maxPending)
    case Sweep(at) =>
      times != map[] && times.Keys != Range(|es|) ==>
        maxSlot < s + cfg.sealLag && InTime(times, at, cfg.entryTimeout)
  }

  /** Slot `s` is delivered cleanly. */
  predicate Clean(cfg: Config, steps: seq<Step>, s: nat, es: seq<MergedEntry>) {
    steps != [] ==>
      var init, last := steps[..|steps| - 1], steps[|steps| - 1];
      Clean(cfg, init, s, es) && CleanStep(cfg, ArrivedAt(init, s), Watch(cfg, init, s).maxSlot, last, s, es)
  }

  /** Slot `s` is delivered in order: each arrival is the next entry, and no sweep seals the slot before the last one. */
  predicate ComesInOrder(cfg: Config, steps: seq<Step>, s: nat, es: seq<MergedEntry>) {
    steps != [] ==>
      var init, last := steps[..|steps| - 1], steps[|steps| - 1];
      var n := |Arrived(init, s)|;
      && ComesInOrder(cfg, init, s, es)
      && match last
         case Arrival(m, _) => m.observation.slot == s ==> n < |es| && m == es[n]
         case Sweep(_) => 0 < n < |es| ==> Watch(cfg, init, s).maxSlot < s + cfg.sealLag
  }

  lemma CursorIs(arrived: set<nat>, n: nat)
    requires n !in arrived && forall i :: 0 <= i < n ==> i in arrived
    ensures Cursor(arrived) == n
  {
  }

  /** The first `n` indices and no others. */
  ghost predicate FirstOnes(arrived: set<nat>, n: nat) {
    |arrived| == n && forall k: nat :: k in arrived <==> k < n
  }

  lemma NothingIsEarly(arrived: set<nat>, n: nat)
    requires FirstOnes(arrived, n)
    ensures Cursor(arrived) == n && Early(arrived) == {}
  {
    CursorIs(arrived, n);
  }

  lemma OneMore(arrived: set<nat>, n: nat)
    requires FirstOnes(arrived, n)
    ensures n !in arrived && FirstOnes(arrived + {n}, n + 1) && arrived == Range(n)
  {
  }

  /** In-order delivery is clean however long it takes and however small the buffer. */
  lemma {:induction false} InOrderIsClean(cfg: Config, steps: seq<Step>, s: nat, es: seq<MergedEntry>)
    requires Numbered(es, s) && ComesInOrder(cfg, steps, s, es)
    ensures Clean(cfg, steps, s, es)
    ensures FirstOnes(Arrived(steps, s), |Arrived(steps, s)|) && |Arrived(steps, s)| <= |es|
  {
    if steps != [] {
      var init, last := steps[..|steps| - 1], steps[|steps| - 1];
      InOrderIsClean(cfg, init, s, es);
      var before := Arrived(init, s);
      var n := |before|;
      NothingIsEarly(before, n);
      OneMore(before, n);
      if last.Arrival? && last.m.observation.slot == s {
        assert last.m.observation.entryIndex == n;
        assert Arrived(steps, s) == before + {n};
      }
    }
  }

  // ---------- what the slot state is in such a run ----------

  predicate Matches(sent: seq<OrderedEvent>, es: seq<MergedEntry>) {
    |sent| <= |es| && forall i :: 0 <= i < |sent| ==> sent[i].Entry? && sent[i].observation == es[i].observation
  }

  /** What has arrived has been sent, up to the cursor, and the rest is buffered. */
  predicate Holds(st: PohSlot, sent: seq<OrderedEvent>, arrived: set<nat>, es: seq<MergedEntry>) {
    && |sent| == st.next
    && Matches(sent, es)
    && arrived <= Range(|es|)
    && Range(st.next) <= arrived
    && st.pending.Keys == (set k | k in arrived && k >= st.next)
    && (forall k :: k in st.pending ==> k < |es| && st.pending[k].merged == es[k])
  }

  lemma MoveHolds(st: PohSlot, slot: nat, now: nat, sent: seq<OrderedEvent>, arrived: set<nat>, es: seq<MergedEntry>)
    requires Ready(st, slot) && CanMove(st, now, StopAtGap) && Holds(st, sent, arrived, es)
    ensures var m := MoveOne(st, slot, now, StopAtGap); Holds(m.st, sent + [m.event], arrived, es)
  {
    assert st.next in st.pending;
    var popped := st.(pending := st.pending - {st.next});
    var obs := st.pending[st.next].merged.observation;
    HoldsNext(st, sent, arrived, es, AfterEntry(popped, obs, now), MoveOne(st, slot, now, StopAtGap).event);
  }

  /** Emitting the entry under the cursor keeps the correspondence. */
  lemma HoldsNext(st: PohSlot, sent: seq<OrderedEvent>, arrived: set<nat>, es: seq<MergedEntry>,
                  st': PohSlot, e: OrderedEvent)
    requires Holds(st, sent, arrived, es) && st.next in arrived
    requires st'.next == st.next + 1 && st'.pending == st.pending - {st.next}
    requires e.Entry? && e.observation == es[st.next].observation
    ensures Holds(st', sent + [e], arrived, es)
  {
    assert st'.pending.Keys == (set k | k in arrived && k >= st'.next) by {
      assert st'.pending.Keys == st.pending.Keys - {st.next};
    }
    assert Matches(sent + [e], es) by {
      assert st.next in Range(|es|);
    }
  }

  lemma {:induction false} AdvanceHolds(st: PohSlot, slot: nat, now: nat, sent: seq<OrderedEvent>, arrived: set<nat>, es: seq<MergedEntry>)
    requires Ready(st, slot) && Holds(st, sent, arrived, es)
    ensures var r := Advance(st, slot, now, StopAtGap); Holds(r.st, sent + r.events, arrived, es)
  {
    var P := (s: PohSlot, b: seq<OrderedEvent>) => Holds(s, b, arrived, es);
    forall s, b | Ready(s, slot) && CanMove(s, now, StopAtGap) && P(s, b)
      ensures var m := MoveOne(s, slot, now, StopAtGap); P(m.st, b + [m.event])
    {
      MoveHolds(s, slot, now, b, arrived, es);
    }
    AdvanceKeeps(P, st, slot, now, StopAtGap, sent);
  }

  /** The cursor and the buffer of the slot are those of the arrivals. */
  lemma {:induction false} BufferIsEarly(st: PohSlot, sent: seq<OrderedEvent>, arrived: set<nat>, es: seq<MergedEntry>)
    requires Holds(st, sent, arrived, es) && st.next !in st.pending
    ensures st.next == Cursor(arrived) && st.pending.Keys == Early(arrived)
  {
    assert st.next !in arrived;
    assert forall i :: 0 <= i < st.next ==> i in Range(st.next);
    CursorIs(arrived, st.next);
  }

  /** No late tick, for `n` events. */
  function NoLate(n: nat): Late {
    Late(seq(n, _ => 0), 0)
  }

  /** Mid-delivery: nothing sealed and nothing lost. */
  predicate Delivering(v: View, s: nat, arrived: set<nat>, es: seq<MergedEntry>) {
    && !v.st.sealed
    && (v.known <==> arrived != {})
    && Holds(v.st, v.sent, arrived, es)
    && Sound(v.st, s, v.sent, NoLate(|v.sent|))
  }

  /** Delivered and sealed: the entries, and then one terminal event. */
  predicate Sealed(v: View, s: nat, es: seq<MergedEntry>) {
    && (v.known ==> v.st.sealed)
    && |v.sent| == |es| + 1
    && var body := v.sent[..|es|];
    && Ordered(body, s, NoLate(|body|).before) && Matches(body, es)
    && v.sent[|es|].Terminal()
  }

  lemma CleanArrival(cfg: Config, v: View, m: MergedEntry, at: nat, arrived: set<nat>, es: seq<MergedEntry>)
    requires var s, i := m.observation.slot, m.observation.entryIndex;
             && Proper(v, s) && Delivering(v, s, arrived, es)
             && i < |es| && m == es[i] && i !in arrived
             && (i > Cursor(arrived) ==> |Early(arrived)| < cfg.maxPending)
    ensures var s, i := m.observation.slot, m.observation.entryIndex;
            Delivering(ViewNext(cfg, v, 0, Arrival(m, at), s), s, arrived + {i}, es)
  {
    var s, i, r := m.observation.slot, m.observation.entryIndex, Arrive(v.st, m, at, cfg.maxPending);
    ArrivalHolds(v.st, m, at, cfg.maxPending, v.sent, arrived, es);
    SoundWithoutLate(v.st, m, at, cfg.maxPending, v.sent);
    ArriveSendsNoTerminal(v.st, m, at, cfg.maxPending);
  }

  lemma SoundWithoutLate(st: PohSlot, m: MergedEntry, at: nat, maxPending: nat, sent: seq<OrderedEvent>)
    requires Resting(st, m.observation.slot) && !st.sealed && m.observation.entryIndex >= st.next
    requires Sound(st, m.observation.slot, sent, NoLate(|sent|))
    ensures var r := Arrive(st, m, at, maxPending);
            Sound(r.st, m.observation.slot, sent + r.events, NoLate(|sent + r.events|))
  {
    ArriveTells(st, m, at, maxPending, sent, NoLate(|sent|));
    NoneMore(sent, Arrive(st, m, at, maxPending).events);
    assert !IsLateTick(st, m.observation, maxPending);
  }

  lemma NoneMore(sent: seq<OrderedEvent>, events: seq<OrderedEvent>)
    ensures NoLate(|sent|).Step(|events|, false) == NoLate(|sent + events|)
  {
  }

  lemma {:induction false} ArrivalHolds(st: PohSlot, m: MergedEntry, at: nat, maxPending: nat, sent: seq<OrderedEvent>,
                                        arrived: set<nat>, es: seq<MergedEntry>)
    requires Resting(st, m.observation.slot) && !st.sealed && Holds(st, sent, arrived, es)
    requires var i := m.observation.entryIndex;
             && i < |es| && m == es[i] && i !in arrived
             && (i > Cursor(arrived) ==> |Early(arrived)| < maxPending)
    ensures var r := Arrive(st, m, at, maxPending);
            m.observation.entryIndex >= st.next
            && Holds(r.st, sent + r.events, arrived + {m.observation.entryIndex}, es)
  {
    var i := m.observation.entryIndex;
    NotBehind(st, sent, arrived, es, i);
    if i == st.next {
      InOrderHolds(st, m, at, maxPending, sent, arrived, es);
    } else {
      BufferIsEarly(st, sent, arrived, es);
      assert |st.pending| == |st.pending.Keys|;
      EarlyHolds(st, m, at, maxPending, sent, arrived, es);
    }
  }

  lemma NotBehind(st: PohSlot, sent: seq<OrderedEvent>, arrived: set<nat>, es: seq<MergedEntry>, i: nat)
    requires Holds(st, sent, arrived, es) && i !in arrived
    ensures i >= st.next
  {
    assert forall k :: k in Range(st.next) ==> k != i;
  }

  lemma EarlyHolds(st: PohSlot, m: MergedEntry, at: nat, maxPending: nat, sent: seq<OrderedEvent>,
                   arrived: set<nat>, es: seq<MergedEntry>)
    requires var s, i := m.observation.slot, m.observation.entryIndex;
             && Resting(st, s) && !st.sealed && Holds(st, sent, arrived, es)
             && st.next < i < |es| && |st.pending| < maxPending && m == es[i] && i !in arrived
    ensures var r := Arrive(st, m, at, maxPending);
            Holds(r.st, sent + r.events, arrived + {m.observation.entryIndex}, es)
  {
    var i, r := m.observation.entryIndex, Arrive(st, m, at, maxPending);
    assert sent + r.events == sent;
    assert r.st.pending == st.pending[i := PendingEntry(m, at)];
  }

  lemma InOrderHolds(st: PohSlot, m: MergedEntry, at: nat, maxPending: nat, sent: seq<OrderedEvent>,
                     arrived: set<nat>, es: seq<MergedEntry>)
    requires var s, i := m.observation.slot, m.observation.entryIndex;
             && Resting(st, s) && !st.sealed && Holds(st, sent, arrived, es)
             && i == st.next < |es| && m == es[i]
    ensures var r := Arrive(st, m, at, maxPending);
            Holds(r.st, sent + r.events, arrived + {m.observation.entryIndex}, es)
  {
    var obs, seen := m.observation, Seen(st, at);
    var e, st1 := EntryEvent(seen, obs, false, 0), AfterEntry(seen, obs, at);
    assert Holds(st1, sent + [e], arrived + {st.next}, es) by {
      var early := st.(pending := st.pending[st.next := PendingEntry(m, at)]);
      assert Holds(early, sent, arrived + {st.next}, es);
      assert early.pending - {st.next} == st.pending;
      HoldsNext(early, sent, arrived + {st.next}, es, st1, e);
    }
    AdvanceHolds(st1, obs.slot, at, sent + [e], arrived + {st.next}, es);
    Associative(sent, [e], Advance(st1, obs.slot, at, StopAtGap).events);
  }

  lemma {:induction false} DeliveredAll(st: PohSlot, sent: seq<OrderedEvent>, es: seq<MergedEntry>)
    requires Holds(st, sent, Range(|es|), es) && st.next !in st.pending
    ensures st.next == |es| && st.pending == map[]
  {
    var all := Range(|es|);
    assert st.next < |es| ==> st.next in all;
    assert st.pending.Keys == {};
  }

  /** A sweep of a fresh or complete slot emits no entry and no gap marker. */
  lemma CleanSweepSlot(cfg: Config, st: PohSlot, s: nat, maxSlot: nat, at: nat)
    requires Resting(st, s) && !st.sealed
    requires st.pending == map[]
             || (maxSlot < s + cfg.sealLag
                 && SatSub(at, st.pending[FirstKey(st.pending)].bufferedAt) < cfg.entryTimeout)
    ensures SweepSlot(cfg, st, s, maxSlot, at) ==
            if s + cfg.sealLag <= maxSlot then Emission(st.(sealed := true), [TerminalEvent(st, s)])
            else Emission(st, [])
  {
  }

  lemma {:induction false} CleanSweep(cfg: Config, v: View, maxSlot: nat, at: nat, s: nat, arrived: set<nat>, es: seq<MergedEntry>)
    requires Proper(v, s) && Delivering(v, s, arrived, es)
    requires arrived == Range(|es|) || arrived == {}
             || (maxSlot < s + cfg.sealLag
                 && (v.st.pending == map[]
                     || SatSub(at, v.st.pending[FirstKey(v.st.pending)].bufferedAt) < cfg.entryTimeout))
    ensures var w := ViewNext(cfg, v, maxSlot, Sweep(at), s);
            w == v || (w.st.pending == map[] && arrived == Range(|es|) && Sealed(w, s, es))
  {
    if v.known {
      if arrived == Range(|es|) {
        DeliveredAll(v.st, v.sent, es);
      }
      CleanSweepSlot(cfg, v.st, s, maxSlot, at);
      if s + cfg.sealLag <= maxSlot {
        SealedAfter(v.sent, TerminalEvent(v.st, s), s, es, ViewNext(cfg, v, maxSlot, Sweep(at), s));
      } else {
        assert v.sent + [] == v.sent;
      }
    }
  }

  /** Sending the terminal event after all the entries. */
  lemma SealedAfter(sent: seq<OrderedEvent>, end: OrderedEvent, s: nat, es: seq<MergedEntry>, w: View)
    requires |sent| == |es| && Matches(sent, es) && Ordered(sent, s, NoLate(|sent|).before) && end.Terminal()
    requires w.sent == sent + [end] && (w.known ==> w.st.sealed)
    ensures Sealed(w, s, es)
  {
    assert w.sent[..|es|] == sent;
  }

  lemma SealedSweep(cfg: Config, v: View, maxSlot: nat, at: nat, s: nat, es: seq<MergedEntry>)
    requires Proper(v, s) && Sealed(v, s, es)
    ensures var w := ViewNext(cfg, v, maxSlot, Sweep(at), s); Sealed(w, s, es) && w.st.pending == map[]
  {
    assert v.sent + [] == v.sent;
  }

  /** Every buffered entry was buffered when it arrived. */
  predicate Pends(st: PohSlot, times: map<nat, nat>) {
    forall k :: k in st.pending ==> k in times && st.pending[k].bufferedAt == times[k]
  }

  lemma MovePends(st: PohSlot, slot: nat, now: nat, times: map<nat, nat>)
    requires Ready(st, slot) && CanMove(st, now, StopAtGap) && Pends(st, times)
    ensures Pends(MoveOne(st, slot, now, StopAtGap).st, times)
  {
  }

  lemma {:induction false} ArriveBuffers(st: PohSlot, m: MergedEntry, at: nat, maxPending: nat, times: map<nat, nat>)
    requires Resting(st, m.observation.slot) && Pends(st, times) && m.observation.entryIndex !in times
    ensures Pends(Arrive(st, m, at, maxPending).st, times[m.observation.entryIndex := at])
  {
    var later := times[m.observation.entryIndex := at];
    if FateOf(st, m.observation.entryIndex, maxPending).InOrder? {
      var st1 := AfterEntry(Seen(st, at), m.observation, at);
      var P := (s: PohSlot, b: seq<OrderedEvent>) => Pends(s, later);
      forall s, b | Ready(s, m.observation.slot) && CanMove(s, at, StopAtGap) && P(s, b)
        ensures var next := MoveOne(s, m.observation.slot, at, StopAtGap); P(next.st, b + [next.event])
      {
        MovePends(s, m.observation.slot, at, later);
      }
      AdvanceKeeps(P, st1, m.observation.slot, at, StopAtGap, []);
    }
  }

  /** Where a clean run can be. */
  predicate CleanInvariant(v: View, s: nat, times: map<nat, nat>, es: seq<MergedEntry>) {
    && Pends(v.st, times)
    && (Delivering(v, s, times.Keys, es) || (times.Keys == Range(|es|) && Sealed(v, s, es)))
  }

  lemma {:induction false} CleanArrivalStep(cfg: Config, v: View, maxSlot: nat, m: MergedEntry, at: nat, s: nat,
                                            times: map<nat, nat>, es: seq<MergedEntry>)
    requires Proper(v, s) && CleanInvariant(v, s, times, es) && m.observation.slot == s
    requires var i := m.observation.entryIndex;
             && i < |es| && m == es[i] && i !in times
             && (i > Cursor(times.Keys) ==> |Early(times.Keys)| < cfg.maxPending)
    ensures CleanInvariant(ViewNext(cfg, v, maxSlot, Arrival(m, at), s), s, times[m.observation.entryIndex := at], es)
  {
    var i := m.observation.entryIndex;
    assert i in Range(|es|);
    var w := ViewNext(cfg, v, maxSlot, Arrival(m, at), s);
    assert Pends(w.st, times[i := at]) by { ArriveBuffers(v.st, m, at, cfg.maxPending, times); }
    assert times[i := at].Keys == times.Keys + {i};
    assert Delivering(w, s, times[i := at].Keys, es) by { CleanArrival(cfg, v, m, at, times.Keys, es); }
  }

  /** The first buffered entry is the first early one. */
  lemma {:induction false} FirstIsFirstEarly(st: PohSlot, sent: seq<OrderedEvent>, times: map<nat, nat>, es: seq<MergedEntry>)
    requires Holds(st, sent, times.Keys, es) && st.next !in st.pending && Pends(st, times) && st.pending != map[]
    ensures Early(times.Keys) != {} && st.pending[FirstKey(st.pending)].bufferedAt == times[Least(Early(times.Keys))]
  {
    BufferIsEarly(st, sent, times.Keys, es);
    assert FirstKey(st.pending) in Early(times.Keys);
    assert FirstKey(st.pending) == Least(Early(times.Keys));
  }

  lemma {:induction false} CleanSweepStep(cfg: Config, v: View, maxSlot: nat, at: nat, s: nat,
                                          times: map<nat, nat>, es: seq<MergedEntry>)
    requires Proper(v, s) && CleanInvariant(v, s, times, es)
    requires times != map[] && times.Keys != Range(|es|) ==>
               maxSlot < s + cfg.sealLag && InTime(times, at, cfg.entryTimeout)
    ensures CleanInvariant(ViewNext(cfg, v, maxSlot, Sweep(at), s), s, times, es)
  {
    if Delivering(v, s, times.Keys, es) {
      if v.st.pending != map[] {
        FirstIsFirstEarly(v.st, v.sent, times, es);
      }
      CleanSweep(cfg, v, maxSlot, at, s, times.Keys, es);
    } else {
      SealedSweep(cfg, v, maxSlot, at, s, es);
    }
  }

  lemma NothingArrivedHolds(st: PohSlot, sent: seq<OrderedEvent>, arrived: set<nat>, es: seq<MergedEntry>)
    requires st == EMPTY_SLOT && sent == [] && arrived == {}
    ensures Holds(st, sent, arrived, es)
  {
    assert st.pending.Keys == {};
  }

  lemma NoneYet(n: nat)
    requires n == 0
    ensures NoLate(n).before == [] && NoLate(n).now == 0
  {
  }

  lemma NothingIsClean(v: View, s: nat, times: map<nat, nat>, es: seq<MergedEntry>, late: Late)
    requires !v.st.sealed && !v.known && times == map[] && v.st.pending == map[]
    requires Holds(v.st, v.sent, times.Keys, es) && Sound(v.st, s, v.sent, late) && late == NoLate(|v.sent|)
    ensures CleanInvariant(v, s, times, es)
  {
  }

  lemma CleanStart(v: View, s: nat, times: map<nat, nat>, es: seq<MergedEntry>)
    requires !v.known && v.st == EMPTY_SLOT && v.sent == [] && times == map[]
    ensures CleanInvariant(v, s, times, es)
  {
    var late := NoLate(|v.sent|);
    NoneYet(|v.sent|);
    NothingSentTells(v.st, s, v.sent, late);
    NothingArrivedHolds(v.st, v.sent, times.Keys, es);
    NothingIsClean(v, s, times, es, late);
  }

  lemma CleanStepKeeps(cfg: Config, v: View, maxSlot: nat, step: Step, s: nat, times: map<nat, nat>, es: seq<MergedEntry>)
    requires Proper(v, s) && CleanInvariant(v, s, times, es) && CleanStep(cfg, times, maxSlot, step, s, es)
    ensures CleanInvariant(ViewNext(cfg, v, maxSlot, step, s), s, TimesNext(times, step, s), es)
  {
    match step
    case Arrival(m, at) =>
      if m.observation.slot == s {
        CleanArrivalStep(cfg, v, maxSlot, m, at, s, times, es);
      }
    case Sweep(at) => CleanSweepStep(cfg, v, maxSlot, at, s, times, es);
  }

  lemma {:induction false} CleanRunStep(cfg: Config, steps: seq<Step>, s: nat, es: seq<MergedEntry>)
    requires steps != [] && Clean(cfg, steps, s, es)
    requires CleanInvariant(ViewOf(Run(cfg, steps[..|steps| - 1]), s), s, ArrivedAt(steps[..|steps| - 1], s), es)
    ensures CleanInvariant(ViewOf(Run(cfg, steps), s), s, ArrivedAt(steps, s), es)
  {
    var init, last := steps[..|steps| - 1], steps[|steps| - 1];
    var x := Run(cfg, init);
    RunMatchesWatch(cfg, init, s);
    SlotsAreIndependent(cfg, x, last, s);
    CleanStepKeeps(cfg, ViewOf(x, s), x.maxSlot, last, s, ArrivedAt(init, s), es);
  }

  lemma {:induction false} CleanRunKeeps(cfg: Config, steps: seq<Step>, s: nat, es: seq<MergedEntry>)
    requires Clean(cfg, steps, s, es)
    ensures CleanInvariant(ViewOf(Run(cfg, steps), s), s, ArrivedAt(steps, s), es)
  {
    if steps == [] {
      CleanStart(ViewOf(Run(cfg, steps), s), s, ArrivedAt(steps, s), es);
    } else {
      CleanRunKeeps(cfg, steps[..|steps| - 1], s, es);
      CleanRunStep(cfg, steps, s, es);
    }
  }

  // ---------- what the consumer sees ----------

  lemma {:induction false} CountsAgree(sent: seq<OrderedEvent>, es: seq<MergedEntry>)
    requires Matches(sent, es)
    ensures Count(sent, IsTick) == TickCount(es[..|sent|])
    ensures HashSum(sent) == HashTotal(es[..|sent|])
    ensures !HasMissing(sent)
  {
    if sent != [] {
      var init := sent[..|sent| - 1];
      CountsAgree(init, es);
      assert es[..|sent|][..|init|] == es[..|init|];
    }
  }

  lemma {:induction false} OrderedMatchesIsShown(sent: seq<OrderedEvent>, s: nat, es: seq<MergedEntry>)
    requires Numbered(es, s) && Ordered(sent, s, NoLate(|sent|).before) && Matches(sent, es)
    ensures ShownInOrder(sent, es)
  {
    forall i | 0 <= i < |sent| ensures Shows(sent[i], es, i) {
      OrderedAt(sent, s, NoLate(|sent|).before, i);
      MatchShows(sent, s, es, i);
    }
  }

  lemma MatchShows(sent: seq<OrderedEvent>, s: nat, es: seq<MergedEntry>, i: nat)
    requires Numbered(es, s) && Matches(sent, es) && i < |sent| && Follows(sent[..i], sent[i], s, 0)
    ensures Shows(sent[i], es, i)
  {
    assert sent[..i + 1] == sent[..i] + [sent[i]];
    FollowsShows(sent[..i], sent[i], sent[..i + 1], s, es);
  }

  lemma FollowsShows(before: seq<OrderedEvent>, e: OrderedEvent, upTo: seq<OrderedEvent>, s: nat, es: seq<MergedEntry>)
    requires Numbered(es, s) && upTo == before + [e] && Matches(upTo, es) && Follows(before, e, s, 0)
    ensures Shows(e, es, |before|)
  {
    assert upTo[|before|] == e;
    assert Matches(before, es) by {
      assert forall i :: 0 <= i < |before| ==> upTo[i] == before[i];
    }
    CountsAgree(before, es);
    CountsAgree(upTo, es);
  }

  /** The entries among the events of a slot, without gap markers and the terminal event. */
  function EntriesIn(events: seq<OrderedEvent>): seq<OrderedEvent> {
    if events == [] then []
    else
      var init, last := EntriesIn(events[..|events| - 1]), events[|events| - 1];
      if last.Entry? then init + [last] else init
  }

  lemma {:induction false} AllEntries(events: seq<OrderedEvent>, es: seq<MergedEntry>)
    requires Matches(events, es)
    ensures EntriesIn(events) == events
  {
    if events != [] {
      var init := events[..|events| - 1];
      AllEntries(init, es);
      assert init + [events[|events| - 1]] == events;
    }
  }

  lemma {:induction false} CleanViewIsShown(v: View, s: nat, times: map<nat, nat>, es: seq<MergedEntry>)
    requires Numbered(es, s) && CleanInvariant(v, s, times, es)
    ensures ShownInOrder(EntriesIn(v.sent), es)
    ensures Proper(v, s) && times.Keys == Range(|es|) ==> |EntriesIn(v.sent)| == |es|
  {
    if Delivering(v, s, times.Keys, es) {
      OrderedMatchesIsShown(v.sent, s, es);
      AllEntries(v.sent, es);
      if Proper(v, s) && times.Keys == Range(|es|) {
        DeliveredAll(v.st, v.sent, es);
      }
    } else {
      var body := v.sent[..|es|];
      OrderedMatchesIsShown(body, s, es);
      AllEntries(body, es);
      assert EntriesIn(v.sent) == EntriesIn(body);
    }
  }

  /**
   Reordering is invisible. In every run that delivers slot `s` cleanly, whatever the
   arrival order, the entries shown so far are the first entries of the slot, in order,
   with their true tick numbers and hash totals and no uncertainty; once all of them have
   arrived, all of them have been shown.
   */
  lemma {:induction false} ReorderingIsInvisible(cfg: Config, steps: seq<Step>, s: nat, es: seq<MergedEntry>)
    requires Numbered(es, s) && Clean(cfg, steps, s, es)
    ensures var shown := EntriesIn(Of(s, Run(cfg, steps).out));
            ShownInOrder(shown, es) && (Arrived(steps, s) == Range(|es|) ==> |shown| == |es|)
  {
    CleanRunKeeps(cfg, steps, s, es);
    RunMatchesWatch(cfg, steps, s);
    CleanViewIsShown(ViewOf(Run(cfg, steps), s), s, ArrivedAt(steps, s), es);
  }

  /** The final flush shows nothing more of a slot that has been delivered, and nothing different. */
  lemma {:induction false} FlushIsInvisible(cfg: Config, steps: seq<Step>, now: nat, s: nat, es: seq<MergedEntry>)
    requires Numbered(es, s) && Clean(cfg, steps, s, es) && Arrived(steps, s) == Range(|es|)
    ensures var shown := EntriesIn(Of(s, Finish(cfg, Run(cfg, steps), now).out));
            ShownInOrder(shown, es) && |shown| == |es|
  {
    var x := Run(cfg, steps);
    CleanRunKeeps(cfg, steps, s, es);
    RunMatchesWatch(cfg, steps, s);
    DeliveredFlush(cfg, x, now, s, ArrivedAt(steps, s), es);
  }

  lemma {:induction false} DeliveredFlush(cfg: Config, x: State, now: nat, s: nat, times: map<nat, nat>, es: seq<MergedEntry>)
    requires Steady(x.slots) && Proper(ViewOf(x, s), s)
    requires Numbered(es, s) && CleanInvariant(ViewOf(x, s), s, times, es) && times.Keys == Range(|es|)
    ensures var shown := EntriesIn(Of(s, Finish(cfg, x, now).out));
            ShownInOrder(shown, es) && |shown| == |es|
  {
    var v, w := ViewOf(x, s), ViewOf(SweepAll(cfg, x, now), s);
    SlotsAreIndependent(cfg, x, Sweep(now), s);
    FinishAt(cfg, x, now, s);
    DeliveredSweepAndSeal(cfg, v, w, x.maxSlot, now, s, times, es);
  }

  lemma DeliveredSweepAndSeal(cfg: Config, v: View, w: View, maxSlot: nat, now: nat, s: nat,
                              times: map<nat, nat>, es: seq<MergedEntry>)
    requires Proper(v, s) && w == ViewNext(cfg, v, maxSlot, Sweep(now), s)
    requires Numbered(es, s) && CleanInvariant(v, s, times, es) && times.Keys == Range(|es|)
    ensures var shown := EntriesIn(w.sent + if w.known then Apply(Seal(now), w.st, s).events else []);
            ShownInOrder(shown, es) && |shown| == |es|
  {
    CleanStepKeeps(cfg, v, maxSlot, Sweep(now), s, times, es);
    CleanViewIsShown(w, s, times, es);
    DeliveredSeal(w, now, s, times, es);
  }

  /** Sealing a delivered slot sends at most the terminal event. */
  lemma DeliveredSeal(w: View, now: nat, s: nat, times: map<nat, nat>, es: seq<MergedEntry>)
    requires Proper(w, s) && CleanInvariant(w, s, times, es) && times.Keys == Range(|es|)
    ensures var events := if w.known then Apply(Seal(now), w.st, s).events else [];
            EntriesIn(w.sent + events) == EntriesIn(w.sent)
  {
    if w.known && !w.st.sealed {
      DeliveredAll(w.st, w.sent, es);
      assert Advance(w.st, s, now, SkipAll) == Emission(w.st, []);
      var end := TerminalEvent(w.st, s);
      assert [] + [end] == [end];
      assert (w.sent + [end])[..|w.sent|] == w.sent;
    } else {
      assert w.sent + [] == w.sent;
    }
  }

  /** Two clean deliveries of the same slot, in any two orders, look the same. */
  lemma {:induction false} AnyTwoOrdersLookTheSame(cfg: Config, a: seq<Step>, b: seq<Step>, s: nat, es: seq<MergedEntry>)
    requires Numbered(es, s)
    requires Clean(cfg, a, s, es) && Arrived(a, s) == Range(|es|)
    requires Clean(cfg, b, s, es) && Arrived(b, s) == Range(|es|)
    ensures var x, y := EntriesIn(Of(s, Run(cfg, a).out)), EntriesIn(Of(s, Run(cfg, b).out));
            && |x| == |y|
            && forall i :: 0 <= i < |x| ==>
                 && x[i].Entry? && y[i].Entry?
                 && y[i] == x[i].(wasReordered := y[i].wasReordered, waitUs := y[i].waitUs)
  {
    ReorderingIsInvisible(cfg, a, s, es);
    ReorderingIsInvisible(cfg, b, s, es);
    var x, y := EntriesIn(Of(s, Run(cfg, a).out)), EntriesIn(Of(s, Run(cfg, b).out));
    forall i | 0 <= i < |x|
      ensures x[i].Entry? && y[i].Entry? && y[i] == x[i].(wasReordered := y[i].wasReordered, waitUs := y[i].waitUs)
    {
      assert Shows(x[i], es, i) && Shows(y[i], es, i);
    }
  }
}
