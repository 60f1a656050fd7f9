/**
 Whole-run guarantees of the PoH supervisor: what the output of one slot looks like after
 any run of arrivals and sweeps followed by the final flush, exactly when it says
 everything once, how far a sweep gets, and where every arrival goes.
 */
module PohSafety {
  import opened Entries
  import opened OrderedMaps
  import opened PohSlots
  import opened PohTraces
  import opened PohRuns

  // ---------- a sweep, seen from one slot ----------

  /** What a sweep does to one slot. */
  function SweepSlot(cfg: Config, st: PohSlot, s: nat, maxSlot: nat, now: nat): (r: Emission)
    requires Resting(st, s)
    ensures Resting(r.st, s)
    ensures r.st.sealed == (st.sealed || s + cfg.sealLag <= maxSlot)
  {
    var a := Apply(TimeOutGaps(now, cfg.entryTimeout), st, s);
    var b := if s + cfg.sealLag <= maxSlot then Apply(Seal(now), a.st, s) else Emission(a.st, []);
    Emission(b.st, a.events + b.events)
  }

  lemma {:induction false} SweepPhasesAt(cfg: Config, x: State, now: nat, s: nat)
    requires Steady(x.slots) && s in x.slots
    ensures var a := ForEach(x.slots, Ascending(x.slots.Keys), TimeOutGaps(now, cfg.entryTimeout));
            var b := ForEach(a.slots, Due(cfg, a.slots, x.maxSlot), Seal(now));
            var r := SweepSlot(cfg, x.slots[s], s, x.maxSlot, now);
            b.slots[s] == r.st && Of(s, a.events) + Of(s, b.events) == r.events
  {
    var op := TimeOutGaps(now, cfg.entryTimeout);
    var a := ForEach(x.slots, Ascending(x.slots.Keys), op);
    ForEachAt(x.slots, Ascending(x.slots.Keys), op, s);
    ForEachAt(a.slots, Due(cfg, a.slots, x.maxSlot), Seal(now), s);
  }

  lemma {:induction false} SweepAt(cfg: Config, x: State, now: nat, s: nat)
    requires Steady(x.slots) && s in x.slots
    ensures var y := SweepAll(cfg, x, now);
            var r := SweepSlot(cfg, x.slots[s], s, x.maxSlot, now);
            && Of(s, y.out) == Of(s, x.out) + r.events
            && (s in y.slots <==> s > DropCutoff(cfg, x.maxSlot) || !r.st.sealed)
            && (s in y.slots ==> y.slots[s] == r.st)
  {
    var a := ForEach(x.slots, Ascending(x.slots.Keys), TimeOutGaps(now, cfg.entryTimeout));
    var b := ForEach(a.slots, Due(cfg, a.slots, x.maxSlot), Seal(now));
    SweepPhasesAt(cfg, x, now, s);
    OfConcat(s, x.out + a.events, b.events);
    OfConcat(s, x.out, a.events);
    Associative(Of(s, x.out), Of(s, a.events), Of(s, b.events));
  }

  lemma {:induction false} SweepElsewhere(cfg: Config, x: State, now: nat, s: nat)
    requires Steady(x.slots) && s !in x.slots
    ensures var y := SweepAll(cfg, x, now); Of(s, y.out) == Of(s, x.out) && s !in y.slots
  {
    var op := TimeOutGaps(now, cfg.entryTimeout);
    var a := ForEach(x.slots, Ascending(x.slots.Keys), op);
    ForEachElsewhere(x.slots, Ascending(x.slots.Keys), op, s);
    var due := Due(cfg, a.slots, x.maxSlot);
    ForEachElsewhere(a.slots, due, Seal(now), s);
    OfConcat(s, x.out + a.events, ForEach(a.slots, due, Seal(now)).events);
    OfConcat(s, x.out, a.events);
  }

  lemma {:induction false} FinishAt(cfg: Config, x: State, now: nat, s: nat)
    requires Steady(x.slots)
    ensures var swept := SweepAll(cfg, x, now);
            var events := if s in swept.slots then Apply(Seal(now), swept.slots[s], s).events else [];
            Of(s, Finish(cfg, x, now).out) == Of(s, swept.out) + events
  {
    var swept := SweepAll(cfg, x, now);
    var keys := Ascending(swept.slots.Keys);
    var b := ForEach(swept.slots, keys, Seal(now));
    OfConcat(s, swept.out, b.events);
    if s in swept.slots {
      ForEachAt(swept.slots, keys, Seal(now), s);
    } else {
      ForEachElsewhere(swept.slots, keys, Seal(now), s);
    }
  }

  lemma {:induction false} ReceiveAt(cfg: Config, x: State, m: MergedEntry, now: nat, s: nat)
    requires Steady(x.slots)
    ensures var r := Arrive(SlotAt(x.slots, m.observation.slot), m, now, cfg.maxPending);
            Of(s, Receive(cfg, x, m, now).out) ==
            Of(s, x.out) + if s == m.observation.slot then r.events else []
  {
    var t := m.observation.slot;
    var r := Arrive(SlotAt(x.slots, t), m, now, cfg.maxPending);
    OfConcat(s, x.out, r.events);
    ArriveIsOf(SlotAt(x.slots, t), m, now, cfg.maxPending);
    OfOwn(s, t, r.events);
  }

  /** Everything the run has done about one slot. */
  datatype View = View(known: bool, st: PohSlot, sent: seq<OrderedEvent>)

  function ViewOf(x: State, s: nat): View {
    View(s in x.slots, SlotAt(x.slots, s), Of(s, x.out))
  }

  predicate Proper(v: View, s: nat) {
    Resting(v.st, s) && (!v.known ==> v.st == EMPTY_SLOT)
  }

  function ViewNext(cfg: Config, v: View, maxSlot: nat, step: Step, s: nat): (w: View)
    requires Proper(v, s)
    ensures Proper(w, s)
  {
    match step
    case Arrival(m, at) =>
      if m.observation.slot != s then v
      else var r := Arrive(v.st, m, at, cfg.maxPending); View(true, r.st, v.sent + r.events)
    case Sweep(at) =>
      if !v.known then v
      else
        var r := SweepSlot(cfg, v.st, s, maxSlot, at);
        var kept := s > DropCutoff(cfg, maxSlot) || !r.st.sealed;
        View(kept, if kept then r.st else EMPTY_SLOT, v.sent + r.events)
  }

  lemma ArrivalIsIndependent(cfg: Config, x: State, m: MergedEntry, at: nat, s: nat)
    requires Steady(x.slots)
    ensures Proper(ViewOf(x, s), s)
    ensures ViewOf(Receive(cfg, x, m, at), s) == ViewNext(cfg, ViewOf(x, s), x.maxSlot, Arrival(m, at), s)
  {
    ReceiveAt(cfg, x, m, at, s);
    assert Of(s, x.out) + [] == Of(s, x.out);
  }

  lemma SweepIsIndependent(cfg: Config, x: State, at: nat, s: nat)
    requires Steady(x.slots)
    ensures Proper(ViewOf(x, s), s)
    ensures ViewOf(SweepAll(cfg, x, at), s) == ViewNext(cfg, ViewOf(x, s), x.maxSlot, Sweep(at), s)
  {
    if s in x.slots {
      KnownSweepIsIndependent(cfg, x, at, s);
    } else {
      SweepElsewhere(cfg, x, at, s);
    }
  }

  lemma {:induction false} KnownSweepIsIndependent(cfg: Config, x: State, at: nat, s: nat)
    requires Steady(x.slots) && s in x.slots
    ensures Proper(ViewOf(x, s), s)
    ensures ViewOf(SweepAll(cfg, x, at), s) == ViewNext(cfg, ViewOf(x, s), x.maxSlot, Sweep(at), s)
  {
    SweepAt(cfg, x, at, s);
    var y, r := SweepAll(cfg, x, at), SweepSlot(cfg, x.slots[s], s, x.maxSlot, at);
    var kept := s > DropCutoff(cfg, x.maxSlot) || !r.st.sealed;
    assert ViewOf(y, s) == View(kept, if kept then r.st else EMPTY_SLOT, Of(s, x.out) + r.events);
  }

  /** Slots do not interfere: a step changes each slot as if the others were not there. */
  lemma SlotsAreIndependent(cfg: Config, x: State, step: Step, s: nat)
    requires Steady(x.slots)
    ensures Proper(ViewOf(x, s), s)
    ensures ViewOf(Next(cfg, x, step), s) == ViewNext(cfg, ViewOf(x, s), x.maxSlot, step, s)
  {
    match step
    case Arrival(m, at) => ArrivalIsIndependent(cfg, x, m, at, s);
    case Sweep(at) => SweepIsIndependent(cfg, x, at, s);
  }

  // ---------- when a slot is forgotten, from the inputs alone ----------

  /** `known`: the slot has state. `openings`: how often an arrival created that state. */
  datatype Track = Track(known: bool, maxSlot: nat, openings: nat)

  /**
   A sweep at frontier `maxSlot` discards the state of slot `s`: the frontier is the lag and
   ten slots past it. Slot 0 goes as soon as it is sealed.
   */
  predicate Forgets(cfg: Config, maxSlot: nat, s: nat) {
    s + cfg.sealLag + (if s == 0 then 0 else 10) <= maxSlot
  }

  function TrackNext(cfg: Config, t: Track, step: Step, s: nat): Track {
    match step
    case Arrival(m, _) =>
      var maxSlot := Max(t.maxSlot, m.observation.slot);
      if m.observation.slot != s then t.(maxSlot := maxSlot)
      else Track(true, maxSlot, if t.known then t.openings else t.openings + 1)
    case Sweep(_) => if Forgets(cfg, t.maxSlot, s) then t.(known := false) else t
  }

  function Watch(cfg: Config, steps: seq<Step>, s: nat): Track {
    if steps == [] then Track(false, 0, 0)
    else TrackNext(cfg, Watch(cfg, steps[..|steps| - 1], s), steps[|steps| - 1], s)
  }

  /** A zero-transaction arrival of `s` whose index has already been passed, while the slot is open. */
  predicate CountsLate(sent: seq<OrderedEvent>, step: Step, s: nat) {
    && step.Arrival? && step.m.observation.slot == s && step.m.observation.txCount == 0
    && step.m.observation.entryIndex < |sent| && !sent[|sent| - 1].Terminal()
  }

  /** The late ticks after a step in which the slot's output grew from `before` to `after`. */
  function LateNext(late: Late, before: seq<OrderedEvent>, after: seq<OrderedEvent>, step: Step, s: nat): Late {
    late.Step(SatSub(|after|, |before|), CountsLate(before, step, s))
  }

  /** How many late ticks the slot had counted when each of its events was sent, and has counted by now. */
  function LateTicks(cfg: Config, steps: seq<Step>, s: nat): Late {
    if steps == [] then NONE_LATE
    else
      var init := steps[..|steps| - 1];
      LateNext(LateTicks(cfg, init, s), Of(s, Run(cfg, init).out), Of(s, Run(cfg, steps).out), steps[|steps| - 1], s)
  }

  /** The same after the final flush, which sends events and counts nothing. */
  function FinalLateTicks(cfg: Config, steps: seq<Step>, s: nat, now: nat): Late {
    var sent, all := Of(s, Run(cfg, steps).out), Of(s, Finish(cfg, Run(cfg, steps), now).out);
    LateTicks(cfg, steps, s).Step(SatSub(|all|, |sent|), false)
  }

  // ---------- safety ----------

  /** The slot is done: it said everything once. */
  predicate Done(cfg: Config, events: seq<OrderedEvent>, s: nat, late: Late) {
    Finished(events, s, late) && (cfg.maxPending > 0 ==> EndsOnEntry(events))
  }

  predicate Started(cfg: Config, st: PohSlot) {
    cfg.maxPending > 0 ==> st.next > 0 || st.pending != map[]
  }

  predicate Opened(cfg: Config, v: View, s: nat, late: Late) {
    if v.known && !v.st.sealed then Sound(v.st, s, v.sent, late) && Started(cfg, v.st)
    else Done(cfg, v.sent, s, late)
  }

  /** The inputs tell whether the slot has state; a slot is sealed only behind the frontier. */
  predicate Tracked(cfg: Config, v: View, t: Track, s: nat) {
    && v.known == t.known
    && (v.known && v.st.sealed ==> s + cfg.sealLag <= t.maxSlot)
  }

  predicate SlotInvariant(cfg: Config, v: View, t: Track, s: nat, late: Late) {
    && Tracked(cfg, v, t, s)
    && (t.known ==> t.openings > 0)
    && (t.openings == 0 ==> v.sent == [] && late == NONE_LATE)
    && (t.openings == 1 ==> Opened(cfg, v, s, late))
  }

  lemma NothingSentTells(st: PohSlot, s: nat, sent: seq<OrderedEvent>, late: Late)
    requires st == EMPTY_SLOT && sent == [] && late.before == [] && late.now == 0
    ensures Sound(st, s, sent, late)
  {
  }

  lemma ArrivalKeepsOpened(cfg: Config, v: View, m: MergedEntry, at: nat, late: Late)
    requires var s := m.observation.slot; Proper(v, s) && v.known && Opened(cfg, v, s, late)
    ensures var s := m.observation.slot;
            var w := ViewNext(cfg, v, 0, Arrival(m, at), s);
            Opened(cfg, w, s, LateNext(late, v.sent, w.sent, Arrival(m, at), s))
  {
    var s := m.observation.slot;
    if v.st.sealed {
      assert v.sent[|v.sent| - 1].Terminal();
      assert v.sent + [] == v.sent;
      StepAdds(late, 0, 0, false);
    } else {
      ArriveOpenSlot(cfg, v.st, m, at, v.sent, late);
    }
  }

  lemma ArriveOpenSlot(cfg: Config, st: PohSlot, m: MergedEntry, at: nat, sent: seq<OrderedEvent>, late: Late)
    requires var s := m.observation.slot;
             Resting(st, s) && !st.sealed && Sound(st, s, sent, late)
    ensures var s, r := m.observation.slot, Arrive(st, m, at, cfg.maxPending);
            !r.st.sealed && Started(cfg, r.st)
            && Sound(r.st, s, sent + r.events, LateNext(late, sent, sent + r.events, Arrival(m, at), s))
  {
    CountsLateTicks(cfg, st, m, at, sent, late);
    assert Started(cfg, Arrive(st, m, at, cfg.maxPending).st) by {
      if cfg.maxPending > 0 {
        ArriveStarts(st, m, at, cfg.maxPending);
      }
    }
    assert !Arrive(st, m, at, cfg.maxPending).st.sealed by {
      ArriveSendsNoTerminal(st, m, at, cfg.maxPending);
    }
    ArriveTells(st, m, at, cfg.maxPending, sent, late);
  }

  lemma CountsLateTicks(cfg: Config, st: PohSlot, m: MergedEntry, at: nat, sent: seq<OrderedEvent>, late: Late)
    requires !st.sealed && Sound(st, m.observation.slot, sent, late)
    ensures CountsLate(sent, Arrival(m, at), m.observation.slot) == IsLateTick(st, m.observation, cfg.maxPending)
  {
    SoundIsOpen(st, m.observation.slot, sent, late);
  }

  lemma SoundIsOpen(st: PohSlot, s: nat, body: seq<OrderedEvent>, late: Late)
    requires Sound(st, s, body, late)
    ensures st.next == |body| && (body != [] ==> !body[|body| - 1].Terminal())
  {
  }

  lemma SweepKeepsOpened(cfg: Config, v: View, maxSlot: nat, at: nat, s: nat, late: Late)
    requires Proper(v, s) && v.known && Opened(cfg, v, s, late)
    ensures var w := ViewNext(cfg, v, maxSlot, Sweep(at), s);
            Opened(cfg, w, s, LateNext(late, v.sent, w.sent, Sweep(at), s))
  {
    if v.st.sealed {
      SweepKeepsSealed(cfg, v, maxSlot, at, s, late);
    } else {
      SweepOpenSlot(cfg, v.st, s, maxSlot, at, v.sent, late);
      var r := SweepSlot(cfg, v.st, s, maxSlot, at);
      assert SatSub(|v.sent + r.events|, |v.sent|) == |r.events|;
    }
  }

  lemma SweepKeepsSealed(cfg: Config, v: View, maxSlot: nat, at: nat, s: nat, late: Late)
    requires Proper(v, s) && v.known && v.st.sealed && Opened(cfg, v, s, late)
    ensures var w := ViewNext(cfg, v, maxSlot, Sweep(at), s);
            Opened(cfg, w, s, LateNext(late, v.sent, w.sent, Sweep(at), s))
  {
    assert SweepSlot(cfg, v.st, s, maxSlot, at) == Emission(v.st, []) && v.sent + [] == v.sent;
    StepAdds(late, 0, 0, false);
  }

  lemma SweepOpenSlot(cfg: Config, st: PohSlot, s: nat, maxSlot: nat, at: nat, sent: seq<OrderedEvent>, late: Late)
    requires Resting(st, s) && !st.sealed && Sound(st, s, sent, late) && Started(cfg, st)
    ensures var r := SweepSlot(cfg, st, s, maxSlot, at);
            var later := late.Step(|r.events|, false);
            if r.st.sealed then Done(cfg, sent + r.events, s, later)
            else Sound(r.st, s, sent + r.events, later) && Started(cfg, r.st)
  {
    var a := Apply(TimeOutGaps(at, cfg.entryTimeout), st, s);
    AdvanceTells(st, s, at, SkipStale(cfg.entryTimeout), sent, late);
    assert Started(cfg, a.st) by {
      if a.events == [] { assert a.st == st; }
    }
    if s + cfg.sealLag <= maxSlot {
      SealAfterGaps(cfg, a.st, s, at, sent, a.events, late);
    } else {
      assert a.events + [] == a.events;
    }
  }

  lemma SealAfterGaps(cfg: Config, st: PohSlot, s: nat, at: nat, sent: seq<OrderedEvent>, events: seq<OrderedEvent>, late: Late)
    requires Resting(st, s) && !st.sealed && Started(cfg, st)
    requires Sound(st, s, sent + events, late.Step(|events|, false))
    ensures var all := events + Apply(Seal(at), st, s).events;
            Done(cfg, sent + all, s, late.Step(|all|, false))
  {
    var b := Apply(Seal(at), st, s);
    SealFinishes(st, s, at, sent + events, late.Step(|events|, false));
    StepAdds(late, |events|, |b.events|, false);
    Associative(sent, events, b.events);
  }

  lemma StepKeepsTracked(cfg: Config, v: View, t: Track, step: Step, s: nat)
    requires Proper(v, s) && Tracked(cfg, v, t, s)
    ensures Tracked(cfg, ViewNext(cfg, v, t.maxSlot, step, s), TrackNext(cfg, t, step, s), s)
  {
    if step.Arrival? && step.m.observation.slot == s {
      ArriveSendsNoTerminal(v.st, step.m, step.at, cfg.maxPending);
    }
  }

  lemma OwnArrivalKeepsInvariant(cfg: Config, v: View, t: Track, m: MergedEntry, at: nat, late: Late)
    requires var s := m.observation.slot; Proper(v, s) && SlotInvariant(cfg, v, t, s, late)
    ensures var s, step := m.observation.slot, Arrival(m, at);
            var w := ViewNext(cfg, v, t.maxSlot, step, s);
            SlotInvariant(cfg, w, TrackNext(cfg, t, step, s), s, LateNext(late, v.sent, w.sent, step, s))
  {
    var s, step := m.observation.slot, Arrival(m, at);
    StepKeepsTracked(cfg, v, t, step, s);
    if t.openings == 0 {
      NothingSentTells(v.st, s, v.sent, late);
      ArriveOpenSlot(cfg, v.st, m, at, v.sent, late);
    } else if t.known && t.openings == 1 {
      ArrivalKeepsOpened(cfg, v, m, at, late);
    }
  }

  lemma SweepKeepsInvariant(cfg: Config, v: View, t: Track, at: nat, s: nat, late: Late)
    requires Proper(v, s) && SlotInvariant(cfg, v, t, s, late)
    ensures var w := ViewNext(cfg, v, t.maxSlot, Sweep(at), s);
            SlotInvariant(cfg, w, TrackNext(cfg, t, Sweep(at), s), s, LateNext(late, v.sent, w.sent, Sweep(at), s))
  {
    StepKeepsTracked(cfg, v, t, Sweep(at), s);
    if t.known && t.openings == 1 {
      SweepKeepsOpened(cfg, v, t.maxSlot, at, s, late);
    } else {
      StepAdds(late, 0, 0, false);
    }
  }

  lemma {:induction false} RunMatchesWatch(cfg: Config, steps: seq<Step>, s: nat)
    ensures var x, t := Run(cfg, steps), Watch(cfg, steps, s);
            && x.maxSlot == t.maxSlot
            && Proper(ViewOf(x, s), s)
            && Tracked(cfg, ViewOf(x, s), t, s)
  {
    if steps != [] {
      var init, last := steps[..|steps| - 1], steps[|steps| - 1];
      RunMatchesWatch(cfg, init, s);
      var x := Run(cfg, init);
      SlotsAreIndependent(cfg, x, last, s);
      StepKeepsTracked(cfg, ViewOf(x, s), Watch(cfg, init, s), last, s);
    }
  }

  /** Every step keeps a property of what is known about one slot. */
  ghost predicate EveryStepKeeps(P: (View, Track, Late) -> bool, cfg: Config, s: nat) {
    forall v: View, t: Track, late: Late, step: Step :: Proper(v, s) && Tracked(cfg, v, t, s) && P(v, t, late) ==>
      var w := ViewNext(cfg, v, t.maxSlot, step, s);
      P(w, TrackNext(cfg, t, step, s), LateNext(late, v.sent, w.sent, step, s))
  }

  /** The induction principle of runs, seen from one slot. */
  lemma {:induction false} RunKeeps(P: (View, Track, Late) -> bool, cfg: Config, steps: seq<Step>, s: nat)
    requires P(View(false, EMPTY_SLOT, []), Track(false, 0, 0), NONE_LATE)
    requires EveryStepKeeps(P, cfg, s)
    ensures P(ViewOf(Run(cfg, steps), s), Watch(cfg, steps, s), LateTicks(cfg, steps, s))
  {
    if steps != [] {
      var init, last := steps[..|steps| - 1], steps[|steps| - 1];
      RunKeeps(P, cfg, init, s);
      RunMatchesWatch(cfg, init, s);
      SlotsAreIndependent(cfg, Run(cfg, init), last, s);
    }
  }

  lemma {:induction false} RunKeepsInvariant(cfg: Config, steps: seq<Step>, s: nat)
    ensures SlotInvariant(cfg, ViewOf(Run(cfg, steps), s), Watch(cfg, steps, s), s, LateTicks(cfg, steps, s))
  {
    var P := (v: View, t: Track, late: Late) => SlotInvariant(cfg, v, t, s, late);
    forall v: View, t: Track, late: Late, step: Step | Proper(v, s) && Tracked(cfg, v, t, s) && P(v, t, late)
      ensures var w := ViewNext(cfg, v, t.maxSlot, step, s);
              P(w, TrackNext(cfg, t, step, s), LateNext(late, v.sent, w.sent, step, s))
    {
      match step
      case Arrival(m, at) =>
        if m.observation.slot == s {
          OwnArrivalKeepsInvariant(cfg, v, t, m, at, late);
        } else {
          StepKeepsTracked(cfg, v, t, step, s);
          StepAdds(late, 0, 0, false);
        }
      case Sweep(at) => SweepKeepsInvariant(cfg, v, t, at, s, late);
    }
    RunKeeps(P, cfg, steps, s);
  }

  /** The final flush, seen from one slot: a sweep, and then the seal of what is left. */
  lemma {:induction false} FinishFinishes(cfg: Config, x: State, now: nat, s: nat, late: Late)
    requires Steady(x.slots) && Proper(ViewOf(x, s), s)
    requires Opened(cfg, ViewOf(x, s), s, late)
    ensures var sent, all := Of(s, x.out), Of(s, Finish(cfg, x, now).out);
            Done(cfg, all, s, late.Step(SatSub(|all|, |sent|), false))
  {
    var v, w := ViewOf(x, s), ViewOf(SweepAll(cfg, x, now), s);
    SlotsAreIndependent(cfg, x, Sweep(now), s);
    FinishAt(cfg, x, now, s);
    SweepThenSeal(cfg, v, w, x.maxSlot, now, s, late);
  }

  lemma SweepThenSeal(cfg: Config, v: View, w: View, maxSlot: nat, now: nat, s: nat, late: Late)
    requires Proper(v, s) && Opened(cfg, v, s, late) && w == ViewNext(cfg, v, maxSlot, Sweep(now), s)
    ensures var all := w.sent + if w.known then Apply(Seal(now), w.st, s).events else [];
            Done(cfg, all, s, late.Step(SatSub(|all|, |v.sent|), false))
  {
    SweptIsOpened(cfg, v, w, maxSlot, now, s, late);
    var between := late.Step(|w.sent| - |v.sent|, false);
    var events := if w.known then Apply(Seal(now), w.st, s).events else [];
    assert between.Step(|events|, false) == late.Step(SatSub(|w.sent + events|, |v.sent|), false) by {
      SentInTwoParts(late, |v.sent|, |w.sent|, events, w.sent);
    }
    SealFromView(cfg, w, now, s, between);
  }

  lemma SweptIsOpened(cfg: Config, v: View, w: View, maxSlot: nat, now: nat, s: nat, late: Late)
    requires Proper(v, s) && Opened(cfg, v, s, late) && w == ViewNext(cfg, v, maxSlot, Sweep(now), s)
    ensures |v.sent| <= |w.sent| && Opened(cfg, w, s, late.Step(|w.sent| - |v.sent|, false))
  {
    if v.known {
      SweepKeepsOpened(cfg, v, maxSlot, now, s, late);
    } else {
      StepAdds(late, 0, 0, false);
    }
  }

  lemma SentInTwoParts(late: Late, start: nat, middle: nat, events: seq<OrderedEvent>, sent: seq<OrderedEvent>)
    requires start <= middle == |sent|
    ensures late.Step(middle - start, false).Step(|events|, false) == late.Step(SatSub(|sent + events|, start), false)
  {
    StepAdds(late, middle - start, |events|, false);
  }

  lemma SealFromView(cfg: Config, w: View, now: nat, s: nat, late: Late)
    requires Proper(w, s) && Opened(cfg, w, s, late)
    ensures var events := if w.known then Apply(Seal(now), w.st, s).events else [];
            Done(cfg, w.sent + events, s, late.Step(|events|, false))
  {
    if w.known && !w.st.sealed {
      SealFinishes(w.st, s, now, w.sent, late);
    } else {
      assert w.sent + [] == w.sent;
      StepAdds(late, 0, 0, false);
    }
  }

  /**
   Whole-run safety. For every run in which the state of slot `s` was created once, the
   output of `s` after the final flush is 0, 1, 2, ... each exactly once as `Entry` or
   `Missing`, then exactly one terminal event, which is `SlotComplete` just when 64
   zero-transaction entries were counted; given room for one buffered entry, the last
   event before the terminal one is an `Entry` and the terminal event carries its hash.
   */
  lemma {:induction false} EverySlotIsToldOnce(cfg: Config, steps: seq<Step>, s: nat, now: nat)
    requires Watch(cfg, steps, s).openings == 1
    ensures Done(cfg, Of(s, Finish(cfg, Run(cfg, steps), now).out), s, FinalLateTicks(cfg, steps, s, now))
  {
    RunMatchesWatch(cfg, steps, s);
    RunKeepsInvariant(cfg, steps, s);
    FinishFinishes(cfg, Run(cfg, steps), now, s, LateTicks(cfg, steps, s));
  }

  /** At every moment of such a run, what has been sent is an ordered body or a finished slot. */
  lemma {:induction false} EveryPrefixIsOrdered(cfg: Config, steps: seq<Step>, s: nat)
    requires Watch(cfg, steps, s).openings <= 1
    ensures var sent, late := Of(s, Run(cfg, steps).out), LateTicks(cfg, steps, s);
            Ordered(sent, s, late.before) || Done(cfg, sent, s, late)
  {
    RunKeepsInvariant(cfg, steps, s);
  }

  // ---------- exactness: terminal events are openings ----------

  lemma {:induction false} NoTerminals(events: seq<OrderedEvent>)
    requires forall e :: e in events ==> !e.Terminal()
    ensures Count(events, IsTerminal) == 0
  {
    if events != [] {
      assert events[|events| - 1] in events;
      NoTerminals(events[..|events| - 1]);
    }
  }

  lemma {:induction false} AdvanceSendsNoTerminal(st: PohSlot, slot: nat, now: nat, gaps: GapPolicy)
    requires Ready(st, slot)
    ensures forall e :: e in Advance(st, slot, now, gaps).events ==> !e.Terminal()
    decreases |st.pending|, GapWidth(st, slot)
  {
    if CanMove(st, now, gaps) {
      AdvanceSendsNoTerminal(MoveOne(st, slot, now, gaps).st, slot, now, gaps);
    }
  }

  lemma ArriveSendsNoTerminal(st: PohSlot, m: MergedEntry, at: nat, maxPending: nat)
    requires Resting(st, m.observation.slot)
    ensures Count(Arrive(st, m, at, maxPending).events, IsTerminal) == 0
    ensures Arrive(st, m, at, maxPending).st.sealed == st.sealed
  {
    if FateOf(st, m.observation.entryIndex, maxPending) == InOrder {
      AdvanceSendsNoTerminal(AfterEntry(Seen(st, at), m.observation, at), m.observation.slot, at, StopAtGap);
      NoTerminals(Arrive(st, m, at, maxPending).events);
    }
  }

  lemma ApplyTerminals(op: SlotOp, st: PohSlot, s: nat)
    requires Resting(st, s)
    ensures Count(Apply(op, st, s).events, IsTerminal) == OneIf(op.Seal? && !st.sealed)
  {
    if !st.sealed {
      match op
      case TimeOutGaps(now, timeout) =>
        AdvanceSendsNoTerminal(st, s, now, SkipStale(timeout));
        NoTerminals(Apply(op, st, s).events);
      case Seal(now) =>
        var flushed := Advance(st, s, now, SkipAll);
        AdvanceSendsNoTerminal(st, s, now, SkipAll);
        NoTerminals(flushed.events);
        CountSnoc(flushed.events, TerminalEvent(flushed.st, s), IsTerminal);
    }
  }

  lemma SweepTerminals(cfg: Config, st: PohSlot, s: nat, maxSlot: nat, now: nat)
    requires Resting(st, s)
    ensures Count(SweepSlot(cfg, st, s, maxSlot, now).events, IsTerminal)
            == OneIf(s + cfg.sealLag <= maxSlot && !st.sealed)
  {
    var a := Apply(TimeOutGaps(now, cfg.entryTimeout), st, s);
    ApplyTerminals(TimeOutGaps(now, cfg.entryTimeout), st, s);
    if s + cfg.sealLag <= maxSlot {
      ApplyTerminals(Seal(now), a.st, s);
      CountConcat(a.events, Apply(Seal(now), a.st, s).events, IsTerminal);
    } else {
      assert a.events + [] == a.events;
    }
  }

  predicate TerminalsAreOpenings(v: View, t: Track) {
    Count(v.sent, IsTerminal) + OneIf(v.known && !v.st.sealed) == t.openings
  }

  lemma StepKeepsTerminals(cfg: Config, v: View, t: Track, step: Step, s: nat)
    requires Proper(v, s) && Tracked(cfg, v, t, s) && TerminalsAreOpenings(v, t)
    ensures TerminalsAreOpenings(ViewNext(cfg, v, t.maxSlot, step, s), TrackNext(cfg, t, step, s))
  {
    match step
    case Arrival(m, at) =>
      if m.observation.slot == s {
        ArriveSendsNoTerminal(v.st, m, at, cfg.maxPending);
        CountConcat(v.sent, Arrive(v.st, m, at, cfg.maxPending).events, IsTerminal);
      }
    case Sweep(at) =>
      if v.known {
        SweepTerminals(cfg, v.st, s, t.maxSlot, at);
        CountConcat(v.sent, SweepSlot(cfg, v.st, s, t.maxSlot, at).events, IsTerminal);
      }
  }

  lemma {:induction false} RunTerminals(cfg: Config, steps: seq<Step>, s: nat)
    ensures TerminalsAreOpenings(ViewOf(Run(cfg, steps), s), Watch(cfg, steps, s))
  {
    var P := (v: View, t: Track, late: Late) => TerminalsAreOpenings(v, t);
    forall v: View, t: Track, late: Late, step: Step | Proper(v, s) && Tracked(cfg, v, t, s) && P(v, t, late)
      ensures var w := ViewNext(cfg, v, t.maxSlot, step, s);
              P(w, TrackNext(cfg, t, step, s), LateNext(late, v.sent, w.sent, step, s))
    {
      StepKeepsTerminals(cfg, v, t, step, s);
    }
    RunKeeps(P, cfg, steps, s);
  }

  lemma SealTerminals(w: View, t: Track, s: nat, now: nat)
    requires Proper(w, s) && TerminalsAreOpenings(w, t)
    ensures Count(w.sent + if w.known then Apply(Seal(now), w.st, s).events else [], IsTerminal) == t.openings
  {
    if w.known {
      ApplyTerminals(Seal(now), w.st, s);
      CountConcat(w.sent, Apply(Seal(now), w.st, s).events, IsTerminal);
    } else {
      assert w.sent + [] == w.sent;
    }
  }

  lemma {:induction false} FinishTerminals(cfg: Config, x: State, t: Track, s: nat, now: nat)
    requires Steady(x.slots) && x.maxSlot == t.maxSlot
    requires Proper(ViewOf(x, s), s) && Tracked(cfg, ViewOf(x, s), t, s) && TerminalsAreOpenings(ViewOf(x, s), t)
    ensures Count(Of(s, Finish(cfg, x, now).out), IsTerminal) == t.openings
  {
    var w := ViewOf(SweepAll(cfg, x, now), s);
    assert Proper(w, s) && w == ViewNext(cfg, ViewOf(x, s), x.maxSlot, Sweep(now), s) by {
      SlotsAreIndependent(cfg, x, Sweep(now), s);
    }
    var after := TrackNext(cfg, t, Sweep(now), s);
    StepKeepsTerminals(cfg, ViewOf(x, s), t, Sweep(now), s);
    SealTerminals(w, after, s, now);
    FinishAt(cfg, x, now, s);
  }

  /** In every run, slot `s` gets as many terminal events as its state was created. */
  lemma {:induction false} TerminalsCountOpenings(cfg: Config, steps: seq<Step>, s: nat, now: nat)
    ensures Count(Of(s, Finish(cfg, Run(cfg, steps), now).out), IsTerminal) == Watch(cfg, steps, s).openings
  {
    RunTerminals(cfg, steps, s);
    RunMatchesWatch(cfg, steps, s);
    FinishTerminals(cfg, Run(cfg, steps), Watch(cfg, steps, s), s, now);
  }

  lemma {:induction false} OrderedHasNoTerminal(body: seq<OrderedEvent>, s: nat, late: seq<nat>)
    requires Ordered(body, s, late)
    ensures Count(body, IsTerminal) == 0
  {
    if body != [] {
      OrderedHasNoTerminal(body[..|body| - 1], s, late[..|body| - 1]);
    }
  }

  /** The documented guarantee holds for slot `s` if and only if its state was created exactly once. */
  lemma {:induction false} ToldOnceExactlyWhenOpenedOnce(cfg: Config, steps: seq<Step>, s: nat, now: nat)
    ensures (exists late :: Finished(Of(s, Finish(cfg, Run(cfg, steps), now).out), s, late))
            <==> Watch(cfg, steps, s).openings == 1
  {
    var events := Of(s, Finish(cfg, Run(cfg, steps), now).out);
    TerminalsCountOpenings(cfg, steps, s, now);
    if late :| Finished(events, s, late) {
      OrderedHasNoTerminal(events[..|events| - 1], s, late.before[..|events| - 1]);
    }
    if Watch(cfg, steps, s).openings == 1 {
      EverySlotIsToldOnce(cfg, steps, s, now);
    }
  }

  /** No arrival finds the frontier the lag and ten slots past its slot (slot 0: the lag). */
  predicate WithinRetention(cfg: Config, steps: seq<Step>) {
    steps != [] ==>
      var init, last := steps[..|steps| - 1], steps[|steps| - 1];
      && WithinRetention(cfg, init)
      && (last.Arrival? ==>
            var s := last.m.observation.slot;
            Watch(cfg, init, s).maxSlot < s + cfg.sealLag + (if s == 0 then 0 else 10))
  }

  lemma {:induction false} RetentionOpensOnce(cfg: Config, steps: seq<Step>, s: nat)
    requires WithinRetention(cfg, steps)
    ensures var t := Watch(cfg, steps, s);
            t.openings <= 1 && (!t.known && t.openings == 1 ==> Forgets(cfg, t.maxSlot, s))
  {
    if steps != [] {
      RetentionOpensOnce(cfg, steps[..|steps| - 1], s);
    }
  }

  /** While the frontier is not the lag and ten slots past it, a slot that arrived keeps its state. */
  lemma {:induction false} WatchKeepsRecent(cfg: Config, steps: seq<Step>, s: nat)
    ensures var t := Watch(cfg, steps, s);
            Arrives(steps, s) && s > 0 && t.maxSlot < s + cfg.sealLag + 10 ==> t.known
  {
    if steps != [] {
      WatchKeepsRecent(cfg, steps[..|steps| - 1], s);
    }
  }

  /**
   The retention window, on the table itself: in every run a slot that arrived is in it as
   long as the frontier is fewer than lag + 10 slots past it, and a sweep that finds the
   frontier that far leaves it out.
   */
  lemma {:induction false} RetentionExactly(cfg: Config, steps: seq<Step>, s: nat, now: nat)
    ensures var x := Run(cfg, steps);
            && (Arrives(steps, s) && s > 0 && x.maxSlot < s + cfg.sealLag + 10 ==> s in x.slots)
            && (s + cfg.sealLag + 10 <= x.maxSlot ==> s !in SweepAll(cfg, x, now).slots)
  {
    RunMatchesWatch(cfg, steps, s);
    WatchKeepsRecent(cfg, steps, s);
    var x := Run(cfg, steps);
    SlotsAreIndependent(cfg, x, Sweep(now), s);
    StepKeepsTracked(cfg, ViewOf(x, s), Watch(cfg, steps, s), Sweep(now), s);
  }

  /** Some entry of slot `s` arrived. */
  predicate Arrives(steps: seq<Step>, s: nat) {
    steps != [] &&
    var last := steps[|steps| - 1];
    (last.Arrival? && last.m.observation.slot == s) || Arrives(steps[..|steps| - 1], s)
  }

  /** A slot has been opened exactly when some entry of it arrived. */
  lemma {:induction false} ArrivedIsOpened(cfg: Config, steps: seq<Step>, s: nat)
    ensures var t := Watch(cfg, steps, s); (t.openings > 0 <==> Arrives(steps, s)) && (t.known ==> t.openings > 0)
  {
    if steps != [] {
      ArrivedIsOpened(cfg, steps[..|steps| - 1], s);
    }
  }

  /** Inside the retention window every slot that arrived is told once. */
  lemma {:induction false} RetainedSlotIsToldOnce(cfg: Config, steps: seq<Step>, s: nat, now: nat)
    requires WithinRetention(cfg, steps) && Arrives(steps, s)
    ensures Done(cfg, Of(s, Finish(cfg, Run(cfg, steps), now).out), s, FinalLateTicks(cfg, steps, s, now))
  {
    RetentionOpensOnce(cfg, steps, s);
    ArrivedIsOpened(cfg, steps, s);
    EverySlotIsToldOnce(cfg, steps, s, now);
  }

  lemma {:induction false} WatchComeback(cfg: Config, m: MergedEntry, ahead: MergedEntry, late: MergedEntry, steps: seq<Step>)
    requires m.observation.slot == late.observation.slot == 100 && ahead.observation.slot == 200 && cfg.sealLag <= 90
    requires steps == [Arrival(m, 0), Arrival(ahead, 0), Sweep(1), Arrival(late, 2)]
    ensures Watch(cfg, steps, 100).openings == 2
  {
    var s1, s2, s3 := steps[..1], steps[..2], steps[..3];
    assert s1[..0] == [];
    WatchSnoc(cfg, s1, steps[1], 100);
    assert s1 + [steps[1]] == s2;
    WatchSnoc(cfg, s2, steps[2], 100);
    assert s2 + [steps[2]] == s3;
  }

  /**
   Without the retention window the guarantee fails: another entry of slot 100 comes 100
   slots late. The merger, which suppresses repeats only, lets it pass.
   */
  lemma {:induction false} ForgottenSlotIsToldTwice(cfg: Config, m: MergedEntry, ahead: MergedEntry, late: MergedEntry,
                                                    steps: seq<Step>, now: nat)
    requires m.observation.slot == late.observation.slot == 100 && m.observation.entryHash != late.observation.entryHash
    requires ahead.observation.slot == 200 && cfg.sealLag <= 90
    requires steps == [Arrival(m, 0), Arrival(ahead, 0), Sweep(1), Arrival(late, 2)]
    ensures Count(Of(100, Finish(cfg, Run(cfg, steps), now).out), IsTerminal) == 2
  {
    WatchComeback(cfg, m, ahead, late, steps);
    TerminalsCountOpenings(cfg, steps, 100, now);
  }

  lemma {:induction false} WatchSnoc(cfg: Config, steps: seq<Step>, last: Step, s: nat)
    ensures Watch(cfg, steps + [last], s) == TrackNext(cfg, Watch(cfg, steps, s), last, s)
  {
    assert (steps + [last])[..|steps|] == steps;
  }

  // ---------- progress ----------

  /**
   After a sweep every open slot is waiting for a gap that is not stale yet, or for
   nothing, and no slot that far behind the frontier is still open.
   */
  lemma SweepLeavesNothingStale(cfg: Config, x: State, now: nat, s: nat)
    requires Steady(x.slots)
    ensures var y := SweepAll(cfg, x, now);
            s in y.slots && !y.slots[s].sealed ==>
              && x.maxSlot < s + cfg.sealLag
              && var st := y.slots[s];
              (st.pending == map[]
               || (st.next < FirstKey(st.pending)
                   && SatSub(now, st.pending[FirstKey(st.pending)].bufferedAt) < cfg.entryTimeout))
  {
    if s in x.slots {
      SweepAt(cfg, x, now, s);
    } else {
      SweepElsewhere(cfg, x, now, s);
    }
  }

  predicate Bounded(cfg: Config, slots: map<nat, PohSlot>) {
    forall s :: s in slots ==> |slots[s].pending| <= cfg.maxPending
  }

  lemma {:induction false} AdvanceShrinks(st: PohSlot, slot: nat, now: nat, gaps: GapPolicy)
    requires Ready(st, slot)
    ensures |Advance(st, slot, now, gaps).st.pending| <= |st.pending|
    decreases |st.pending|, GapWidth(st, slot)
  {
    if CanMove(st, now, gaps) {
      AdvanceShrinks(MoveOne(st, slot, now, gaps).st, slot, now, gaps);
    }
  }

  lemma ArriveStaysBounded(st: PohSlot, m: MergedEntry, now: nat, maxPending: nat)
    requires Resting(st, m.observation.slot) && |st.pending| <= maxPending
    ensures |Arrive(st, m, now, maxPending).st.pending| <= maxPending
  {
    if FateOf(st, m.observation.entryIndex, maxPending) == InOrder {
      AdvanceShrinks(AfterEntry(Seen(st, now), m.observation, now), m.observation.slot, now, StopAtGap);
    }
  }

  lemma ApplyShrinks(op: SlotOp, st: PohSlot, s: nat)
    requires Resting(st, s)
    ensures |Apply(op, st, s).st.pending| <= |st.pending|
  {
    if !st.sealed {
      AdvanceShrinks(st, s, op.now, if op.Seal? then SkipAll else SkipStale(op.timeout));
    }
  }

  /** The reorder buffer of a slot never exceeds its cap. */
  lemma {:induction false} BufferStaysBounded(cfg: Config, steps: seq<Step>)
    ensures Bounded(cfg, Run(cfg, steps).slots)
  {
    if steps != [] {
      var init, last := steps[..|steps| - 1], steps[|steps| - 1];
      BufferStaysBounded(cfg, init);
      var x, y := Run(cfg, init), Run(cfg, steps);
      forall s | s in y.slots ensures |y.slots[s].pending| <= cfg.maxPending {
        SlotsAreIndependent(cfg, x, last, s);
        var v := ViewOf(x, s);
        match last
        case Arrival(m, at) =>
          if m.observation.slot == s {
            ArriveStaysBounded(v.st, m, at, cfg.maxPending);
          }
        case Sweep(at) =>
          var a := Apply(TimeOutGaps(at, cfg.entryTimeout), v.st, s);
          ApplyShrinks(TimeOutGaps(at, cfg.entryTimeout), v.st, s);
          ApplyShrinks(Seal(at), a.st, s);
      }
    }
  }
}
