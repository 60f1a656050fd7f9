/**
 The finalizer of the single-sender benchmark (crates/tick-trigger-bench/src/writer.rs):
 joins what was sent with what was observed on chain, where either can come first.

 As in the correlator, the specification follows one signature, and the class is proved
 against it for every signature at once.
 */
module Finalizer {
  import opened Entries

  datatype SendEvent = SendEvent(signature: Signature, scheduleSlot: nat, scheduleTick: nat, sentAt: nat)

  datatype MatchEvent = MatchEvent(
    signature: Signature,
    observedAt: nat,
    observedSlot: nat,
    observedEntryIndex: nat,
    tickInSlot: Option<nat>,
    cumulativeHashes: Option<nat>)

  datatype Status = OBSERVED | UNKNOWN_PENDING

  datatype PendingRecord = PendingRecord(send: SendEvent, matched: Option<MatchEvent>, insertedAt: nat)

  datatype FinalRecord = FinalRecord(send: SendEvent, matched: Option<MatchEvent>, status: Status)

  datatype Step = Sent(send: SendEvent, at: nat) | Matched(ev: MatchEvent) | Sweep(now: nat)

  // ---------- one signature ----------

  datatype View = View(pending: Option<PendingRecord>, early: Option<MatchEvent>, finals: seq<FinalRecord>, fallbacks: nat)

  const NOTHING := View(None, None, [], 0)

  /** `emit_final`: the status follows the match, and an unknown signature goes to the fallback queue. */
  function EmitFinal(v: View, p: PendingRecord): View {
    var status := if p.matched.Some? then OBSERVED else UNKNOWN_PENDING;
    v.(pending := None,
       finals := v.finals + [FinalRecord(p.send, p.matched, status)],
       fallbacks := v.fallbacks + if status == UNKNOWN_PENDING then 1 else 0)
  }

  function Next(deadline: nat, v: View, step: Step, sig: Signature): View {
    match step
    case Sent(send, at) =>
      if send.signature != sig then v
      else
        var p := if v.pending.Some? then v.pending.value else PendingRecord(send, v.early, at);
        if v.early.Some? then View(None, None, v.finals + [FinalRecord(p.send, p.matched, OBSERVED)], v.fallbacks)
        else v.(pending := Some(p))
    case Matched(ev) =>
      if ev.signature != sig then v
      else if v.pending.Some?
      then v.(pending := None, finals := v.finals + [FinalRecord(v.pending.value.send, Some(ev), OBSERVED)])
      else v.(early := Some(ev))
    case Sweep(now) =>
      if v.pending.Some? && SatSub(now, v.pending.value.insertedAt) > deadline
      then EmitFinal(v, v.pending.value)
      else v
  }

  function Run(deadline: nat, steps: seq<Step>, sig: Signature): View {
    if steps == [] then NOTHING
    else Next(deadline, Run(deadline, steps[..|steps| - 1], sig), steps[|steps| - 1], sig)
  }

  /** The flush on exit. */
  function Flush(v: View): View {
    if v.pending.Some? then EmitFinal(v, v.pending.value) else v
  }

  // ---------- what happened to a signature ----------

  function SendOf(steps: seq<Step>, sig: Signature): Option<Step> {
    if steps == [] then None
    else
      var last := steps[|steps| - 1];
      if last.Sent? && last.send.signature == sig then Some(last) else SendOf(steps[..|steps| - 1], sig)
  }

  function MatchOf(steps: seq<Step>, sig: Signature): Option<MatchEvent> {
    if steps == [] then None
    else
      var last := steps[|steps| - 1];
      if last.Matched? && last.ev.signature == sig then Some(last.ev) else MatchOf(steps[..|steps| - 1], sig)
  }

  /** Sent at most once, matched at most once. */
  predicate Once(steps: seq<Step>, sig: Signature) {
    steps != [] ==>
      var init, last := steps[..|steps| - 1], steps[|steps| - 1];
      && Once(init, sig)
      && (last.Sent? && last.send.signature == sig ==> SendOf(init, sig).None?)
      && (last.Matched? && last.ev.signature == sig ==> MatchOf(init, sig).None?)
  }

  /** A sweep has found the send older than the deadline. */
  predicate Stale(deadline: nat, steps: seq<Step>, sig: Signature) {
    steps != [] &&
    var init, last := steps[..|steps| - 1], steps[|steps| - 1];
    Stale(deadline, init, sig)
    || (last.Sweep? && var s := SendOf(init, sig); s.Some? && s.value.Sent? && SatSub(last.now, s.value.at) > deadline)
  }

  /** The match, unless it came only after the send had expired. */
  function MatchInTime(deadline: nat, steps: seq<Step>, sig: Signature): Option<MatchEvent> {
    if steps == [] then None
    else
      var init, last := steps[..|steps| - 1], steps[|steps| - 1];
      if last.Matched? && last.ev.signature == sig
      then if Stale(deadline, init, sig) then None else Some(last.ev)
      else MatchInTime(deadline, init, sig)
  }

  /** The final record a sent signature should get. */
  function Expected(steps: seq<Step>, sig: Signature, matched: Option<MatchEvent>): seq<FinalRecord> {
    var s := SendOf(steps, sig);
    if s.Some? && s.value.Sent?
    then [FinalRecord(s.value.send, matched, if matched.Some? then OBSERVED else UNKNOWN_PENDING)]
    else []
  }

  // ---------- the join theorem ----------

  predicate Joining(deadline: nat, v: View, steps: seq<Step>, sig: Signature) {
    var s, m := SendOf(steps, sig), MatchInTime(deadline, steps, sig);
    && (s.Some? ==> s.value.Sent?)
    && (m.Some? ==> m == MatchOf(steps, sig))
    && (s.None? ==> !Stale(deadline, steps, sig) && v == View(None, m, [], 0) && m == MatchOf(steps, sig))
    && (s.Some? && m.None? && !Stale(deadline, steps, sig) ==>
          v == View(Some(PendingRecord(s.value.send, None, s.value.at)), None, [], 0) && MatchOf(steps, sig).None?)
    && (s.Some? && (m.Some? || Stale(deadline, steps, sig)) ==>
          && v.pending.None? && v.finals == Expected(steps, sig, m)
          && v.fallbacks == (if m.Some? then 0 else 1)
          && v.early == if m.Some? then None else MatchOf(steps, sig))
  }

  lemma {:induction false} RunJoins(deadline: nat, steps: seq<Step>, sig: Signature)
    requires Once(steps, sig)
    ensures Joining(deadline, Run(deadline, steps, sig), steps, sig)
  {
    if steps != [] {
      RunJoins(deadline, steps[..|steps| - 1], sig);
    }
  }

  /**
   The finalizer join, for every interleaving: a signature that is sent once and matched at
   most once ends with exactly one final record, OBSERVED with its match if the match came
   before the send expired and UNKNOWN_PENDING (and in the fallback queue) otherwise; one
   that was never sent ends with none.
   */
  lemma {:induction false} EverySentSignatureIsFinalizedOnce(deadline: nat, steps: seq<Step>, sig: Signature)
    requires Once(steps, sig)
    ensures var v, m := Flush(Run(deadline, steps, sig)), MatchInTime(deadline, steps, sig);
            && v.pending.None?
            && v.finals == Expected(steps, sig, m)
            && v.fallbacks == |v.finals| - (if v.finals != [] && m.Some? then 1 else 0)
  {
    RunJoins(deadline, steps, sig);
  }

  /** The record tells the truth about the match stream exactly when the match was not late. */
  lemma {:induction false} OutcomeIsTrueExactlyWhenInTime(deadline: nat, steps: seq<Step>, sig: Signature)
    requires Once(steps, sig) && SendOf(steps, sig).Some?
    ensures Flush(Run(deadline, steps, sig)).finals == Expected(steps, sig, MatchOf(steps, sig))
            <==> MatchInTime(deadline, steps, sig) == MatchOf(steps, sig)
  {
    RunJoins(deadline, steps, sig);
  }

  // ---------- every run, however often a signature is sent or matched ----------

  function CountUnknown(finals: seq<FinalRecord>): nat {
    if finals == [] then 0
    else CountUnknown(finals[..|finals| - 1]) + OneIf(finals[|finals| - 1].status == UNKNOWN_PENDING)
  }

  predicate WasSent(steps: seq<Step>, send: SendEvent) {
    exists i :: 0 <= i < |steps| && steps[i].Sent? && steps[i].send == send
  }

  predicate WasMatched(steps: seq<Step>, ev: MatchEvent) {
    exists i :: 0 <= i < |steps| && steps[i].Matched? && steps[i].ev == ev
  }

  /** A final record: a send of this signature that came, with a match of it that came, or none. */
  predicate Truthful(steps: seq<Step>, r: FinalRecord, sig: Signature) {
    && r.send.signature == sig && WasSent(steps, r.send)
    && (r.status == OBSERVED <==> r.matched.Some?)
    && (r.matched.Some? ==> r.matched.value.signature == sig && WasMatched(steps, r.matched.value))
  }

  /** What is waiting came, only one of the two waits, and the fallback queue holds the unknown ones. */
  predicate Sound(steps: seq<Step>, v: View, sig: Signature) {
    && (v.pending.None? || v.early.None?)
    && (v.pending.Some? ==>
          v.pending.value.send.signature == sig && WasSent(steps, v.pending.value.send) && v.pending.value.matched.None?)
    && (v.early.Some? ==> v.early.value.signature == sig && WasMatched(steps, v.early.value))
    && (forall r :: r in v.finals ==> Truthful(steps, r, sig))
    && v.fallbacks == CountUnknown(v.finals)
  }

  lemma SoundLater(steps: seq<Step>, step: Step, v: View, sig: Signature)
    requires Sound(steps, v, sig)
    ensures Sound(steps + [step], v, sig)
  {
    forall send | WasSent(steps, send) ensures WasSent(steps + [step], send) {
      var i :| 0 <= i < |steps| && steps[i].Sent? && steps[i].send == send;
      assert (steps + [step])[i] == steps[i];
    }
    forall ev | WasMatched(steps, ev) ensures WasMatched(steps + [step], ev) {
      var i :| 0 <= i < |steps| && steps[i].Matched? && steps[i].ev == ev;
      assert (steps + [step])[i] == steps[i];
    }
    forall r | r in v.finals ensures Truthful(steps + [step], r, sig) {
      assert Truthful(steps, r, sig);
    }
  }

  lemma MoreFinals(finals: seq<FinalRecord>, r: FinalRecord)
    ensures CountUnknown(finals + [r]) == CountUnknown(finals) + OneIf(r.status == UNKNOWN_PENDING)
  {
    assert (finals + [r])[..|finals|] == finals;
  }

  lemma {:induction false} StepIsSound(deadline: nat, steps: seq<Step>, v: View, sig: Signature)
    requires steps != [] && Sound(steps, v, sig)
    ensures Sound(steps, Next(deadline, v, steps[|steps| - 1], sig), sig)
  {
    var last := steps[|steps| - 1];
    assert last.Sent? ==> WasSent(steps, last.send);
    assert last.Matched? ==> WasMatched(steps, last.ev);
    var w := Next(deadline, v, last, sig);
    if |w.finals| > |v.finals| {
      MoreFinals(v.finals, w.finals[|v.finals|]);
    }
  }

  lemma {:induction false} FlushIsSound(steps: seq<Step>, v: View, sig: Signature)
    requires Sound(steps, v, sig)
    ensures Sound(steps, Flush(v), sig)
  {
    if v.pending.Some? {
      MoreFinals(v.finals, Flush(v).finals[|v.finals|]);
    }
  }

  /**
   In every run, the flush included, every final record joins a send of the signature that
   came with a match of it that came, or says UNKNOWN_PENDING without one, and exactly the
   unknown ones are in the fallback queue.
   */
  lemma {:induction false} FinalsAreTruthful(deadline: nat, steps: seq<Step>, sig: Signature)
    ensures Sound(steps, Run(deadline, steps, sig), sig) && Sound(steps, Flush(Run(deadline, steps, sig)), sig)
  {
    if steps != [] {
      var init, last := steps[..|steps| - 1], steps[|steps| - 1];
      FinalsAreTruthful(deadline, init, sig);
      SoundLater(init, last, Run(deadline, init, sig), sig);
      assert init + [last] == steps;
      StepIsSound(deadline, steps, Run(deadline, init, sig), sig);
    }
    FlushIsSound(steps, Run(deadline, steps, sig), sig);
  }

  /** Sending a signature again while it waits changes nothing, not even its clock; of early matches the latest is kept. */
  lemma {:induction false} RepeatsWhileWaiting(deadline: nat, steps: seq<Step>, sig: Signature, send: SendEvent, at: nat, ev: MatchEvent)
    requires send.signature == ev.signature == sig
    ensures var v := Run(deadline, steps, sig);
            && (v.pending.Some? ==> Next(deadline, v, Sent(send, at), sig) == v)
            && (v.pending.None? ==>
                  var w := Next(deadline, Next(deadline, v, Matched(ev), sig), Sent(send, at), sig);
                  w == View(None, None, v.finals + [FinalRecord(send, Some(ev), OBSERVED)], v.fallbacks))
  {
    FinalsAreTruthful(deadline, steps, sig);
  }

  // ---------- the finalizer as the source runs it ----------

  function Of(sig: Signature, finals: seq<FinalRecord>): seq<FinalRecord> {
    if finals == [] then []
    else
      var init, last := finals[..|finals| - 1], finals[|finals| - 1];
      if last.send.signature == sig then Of(sig, init) + [last] else Of(sig, init)
  }

  lemma {:induction false} OfSnoc(sig: Signature, finals: seq<FinalRecord>, r: FinalRecord)
    ensures Of(sig, finals + [r]) == if r.send.signature == sig then Of(sig, finals) + [r] else Of(sig, finals)
  {
    assert (finals + [r])[..|finals|] == finals;
  }

  ghost function ViewIn(table: map<Signature, PendingRecord>, early: map<Signature, MatchEvent>,
                        finals: seq<FinalRecord>, fallback: multiset<Signature>, sig: Signature): View {
    View(if sig in table then Some(table[sig]) else None,
         if sig in early then Some(early[sig]) else None,
         Of(sig, finals), fallback[sig])
  }

  class WriterFinalizer {
    const deadline: nat
    var table: map<Signature, PendingRecord>
    var earlyMatches: map<Signature, MatchEvent>
    var finals: seq<FinalRecord>
    /** The fallback queue; its order is not observed here. */
    var fallback: multiset<Signature>

    /** Pending records are filed under their own signature. */
    ghost predicate Valid()
      reads this
    {
      forall sig :: sig in table ==> table[sig].send.signature == sig
    }

    ghost function ViewOf(sig: Signature): View
      reads this
    {
      ViewIn(table, earlyMatches, finals, fallback, sig)
    }

    constructor (deadline: nat)
      ensures Valid() && this.deadline == deadline
      ensures forall sig :: ViewOf(sig) == NOTHING
    {
      this.deadline := deadline;
      table, earlyMatches, finals, fallback := map[], map[], [], multiset{};
    }

    method Send(r: FinalRecord)
      modifies `finals
      ensures finals == old(finals) + [r]
      ensures forall sig :: Of(sig, finals) ==
                            if r.send.signature == sig then Of(sig, old(finals)) + [r] else Of(sig, old(finals))
    {
      forall sig {
        OfSnoc(sig, finals, r);
      }
      finals := finals + [r];
    }

    method Emit(sig: Signature)
      requires Valid() && sig in table
      modifies this
      ensures Valid() && table == old(table) - {sig}
      ensures forall s :: ViewOf(s) ==
                          var v := ViewIn(old(table), old(earlyMatches), old(finals), old(fallback), s);
                          if s == sig then EmitFinal(v, old(table)[sig]) else v
    {
      var p := table[sig];
      table := table - {sig};
      var status := if p.matched.Some? then OBSERVED else UNKNOWN_PENDING;
      if status == UNKNOWN_PENDING {
        fallback := fallback + multiset{sig};
      }
      Send(FinalRecord(p.send, p.matched, status));
    }

    method HandleSend(send: SendEvent, at: nat)
      requires Valid()
      modifies this
      ensures Valid()
      ensures forall s :: ViewOf(s) ==
                          Next(deadline, ViewIn(old(table), old(earlyMatches), old(finals), old(fallback), s), Sent(send, at), s)
    {
      var sig := send.signature;
      var matched := if sig in earlyMatches then Some(earlyMatches[sig]) else None;
      earlyMatches := earlyMatches - {sig};
      if sig !in table {
        table := table[sig := PendingRecord(send, matched, at)];
      }
      if matched.Some? {
        var p := table[sig];
        table := table - {sig};
        Send(FinalRecord(p.send, p.matched, OBSERVED));
      }
    }

    method HandleMatch(ev: MatchEvent)
      requires Valid()
      modifies this
      ensures Valid()
      ensures forall s :: ViewOf(s) ==
                          Next(deadline, ViewIn(old(table), old(earlyMatches), old(finals), old(fallback), s), Matched(ev), s)
    {
      var sig := ev.signature;
      if sig in table {
        var p := table[sig];
        table := table - {sig};
        Send(FinalRecord(p.send, Some(ev), OBSERVED));
      } else {
        earlyMatches := earlyMatches[sig := ev];
      }
    }

    /** Emits the given pending records, in whatever order the hash map yields them. */
    method EmitAll(sigs: set<Signature>)
      requires Valid() && forall s :: s in sigs ==> s in table
      modifies this
      ensures Valid()
      ensures forall s :: ViewOf(s) ==
                          var v := ViewIn(old(table), old(earlyMatches), old(finals), old(fallback), s);
                          if s in sigs then EmitFinal(v, old(table)[s]) else v
    {
      var todo := sigs;
      while todo != {}
        invariant Valid() && todo <= sigs
        invariant forall s :: s in todo ==> s in table && table[s] == old(table)[s]
        invariant forall s :: ViewOf(s) ==
                              var v := ViewIn(old(table), old(earlyMatches), old(finals), old(fallback), s);
                              if s in sigs && s !in todo then EmitFinal(v, old(table)[s]) else v
        decreases |todo|
      {
        var sig :| sig in todo;
        todo := todo - {sig};
        Emit(sig);
      }
    }

    method SweepStale(now: nat)
      requires Valid()
      modifies this
      ensures Valid()
      ensures forall s :: ViewOf(s) ==
                          Next(deadline, ViewIn(old(table), old(earlyMatches), old(finals), old(fallback), s), Sweep(now), s)
    {
      EmitAll(set s | s in table && SatSub(now, table[s].insertedAt) > deadline);
    }

    /** `finalize_loop`: the two streams and the sweeps in any interleaving, and the flush on exit. */
    method FinalizeLoop(steps: seq<Step>)
      requires Valid() && forall sig :: ViewOf(sig) == NOTHING
      modifies this
      ensures Valid()
      ensures forall sig :: ViewOf(sig) == Flush(Run(deadline, steps, sig))
    {
      assert steps[..0] == [];
      for i := 0 to |steps|
        invariant Valid()
        invariant forall sig :: ViewOf(sig) == Run(deadline, steps[..i], sig)
      {
        assert steps[..i + 1][..i] == steps[..i];
        match steps[i] {
          case Sent(send, at) => HandleSend(send, at);
          case Matched(ev) => HandleMatch(ev);
          case Sweep(now) => SweepStale(now);
        }
      }
      assert steps[..|steps|] == steps;
      EmitAll(table.Keys);
    }
  }
}
