/**
 The fan-out recorder (crates/tick-trigger-fan-out-bench/src/recorder.rs): the lifecycle of
 every (trigger, sender) attempt from its registration to its one outcome, and the
 aggregates kept beside it.

 The order in which a hash map yields its keys is part of the step that iterates it.
 */
module Recorder {
  import opened Entries

  /** (trigger id, sender id) */
  type Key = (nat, nat)

  datatype RegisterEvent = RegisterEvent(triggerId: nat, senderId: nat, signature: Signature, observedAt: nat)
  {
    function Key(): Key {
      (triggerId, senderId)
    }
  }

  datatype Attempt = Attempt(register: RegisterEvent, sent: bool, deadlineAt: nat)

  datatype FinalOutcome = Landed | SendError | UnknownPending

  datatype TriggerRecord = TriggerRecord(register: RegisterEvent, sent: bool, outcome: FinalOutcome)

  datatype Stats = Stats(attempts: nat, landed: nat, sendError: nat, unknownPending: nat)
  {
    function Ended(): nat {
      landed + sendError + unknownPending
    }

    function Add(o: FinalOutcome): Stats {
      match o
      case Landed => this.(landed := landed + 1)
      case SendError => this.(sendError := sendError + 1)
      case UnknownPending => this.(unknownPending := unknownPending + 1)
    }
  }

  const NO_STATS := Stats(0, 0, 0, 0)

  datatype Aggregate = Aggregate(
    triggersAttempted: set<nat>,
    triggersLanded: set<nat>,
    perSender: map<nat, Stats>,
    total: Stats)

  function StatsAt(perSender: map<nat, Stats>, sender: nat): Stats {
    if sender in perSender then perSender[sender] else NO_STATS
  }

  function RecordRegister(agg: Aggregate, reg: RegisterEvent): Aggregate {
    var st := StatsAt(agg.perSender, reg.senderId);
    agg.(triggersAttempted := agg.triggersAttempted + {reg.triggerId},
         perSender := agg.perSender[reg.senderId := st.(attempts := st.attempts + 1)],
         total := agg.total.(attempts := agg.total.attempts + 1))
  }

  function RecordOutcome(agg: Aggregate, key: Key, o: FinalOutcome): Aggregate {
    agg.(triggersLanded := if o.Landed? then agg.triggersLanded + {key.0} else agg.triggersLanded,
         perSender := agg.perSender[key.1 := StatsAt(agg.perSender, key.1).Add(o)],
         total := agg.total.Add(o))
  }

  datatype State = State(
    attempts: map<Key, Attempt>,
    sigToKey: map<Signature, Key>,
    agg: Aggregate,
    records: seq<TriggerRecord>)

  const INITIAL := State(map[], map[], Aggregate({}, {}, map[], NO_STATS), [])

  datatype Step =
    | Register(reg: RegisterEvent)
    | SendDone(key: Key, failed: bool)
    | Match(sig: Signature)
    | Sweep(now: nat, order: seq<Key>)

  /** Removes a live attempt, and writes its record. */
  function Retire(x: State, key: Key, o: FinalOutcome): State
    requires key in x.attempts
  {
    var att := x.attempts[key];
    State(x.attempts - {key},
          x.sigToKey - {att.register.signature},
          RecordOutcome(x.agg, att.register.Key(), o),
          x.records + [TriggerRecord(att.register, att.sent, o)])
  }

  function MarkSent(x: State, key: Key): State
    requires key in x.attempts
  {
    x.(attempts := x.attempts[key := x.attempts[key].(sent := true)])
  }

  /** Retires, in this order, the attempts whose deadline has passed. */
  function RetireExpired(x: State, order: seq<Key>, now: nat): State {
    if order == [] then x
    else
      var before, key := RetireExpired(x, order[..|order| - 1], now), order[|order| - 1];
      if key in before.attempts && before.attempts[key].deadlineAt <= now then Retire(before, key, UnknownPending) else before
  }

  function Next(deadline: nat, x: State, step: Step): State {
    match step
    case Register(reg) =>
      State(x.attempts[reg.Key() := Attempt(reg, false, reg.observedAt + deadline)],
            x.sigToKey[reg.signature := reg.Key()],
            RecordRegister(x.agg, reg),
            x.records)
    case SendDone(key, failed) =>
      if key !in x.attempts then x
      else
        var y := MarkSent(x, key);
        if failed then Retire(y, key, SendError) else y
    case Match(sig) =>
      if sig !in x.sigToKey then x
      else
        var key := x.sigToKey[sig];
        if key in x.attempts then Retire(x, key, Landed) else x.(sigToKey := x.sigToKey - {sig})
    case Sweep(now, order) => RetireExpired(x, order, now)
  }

  function Run(deadline: nat, steps: seq<Step>): State {
    if steps == [] then INITIAL
    else Next(deadline, Run(deadline, steps[..|steps| - 1]), steps[|steps| - 1])
  }

  /** The final flush: everything still in flight, in the order the map yields it. */
  function Flush(x: State, order: seq<Key>): State {
    if order == [] then x
    else
      var before, key := Flush(x, order[..|order| - 1]), order[|order| - 1];
      if key in before.attempts then Retire(before, key, UnknownPending) else before
  }

  // ---------- the induction principle ----------

  /**
   Every step is made of four moves: a registration, the end of a live attempt, a mark that
   it was sent, and the removal of a signature that leads nowhere. `n` counts registrations
   with the weight `w`.
   */
  ghost predicate MovesKeep(deadline: nat, P: (State, nat) -> bool, w: (State, RegisterEvent) -> nat) {
    && (forall x: State, n: nat, reg: RegisterEvent :: P(x, n) ==> P(Next(deadline, x, Register(reg)), n + w(x, reg)))
    && EndsKeep(P)
  }

  /** The moves other than registrations. */
  ghost predicate EndsKeep(P: (State, nat) -> bool) {
    && (forall x: State, n: nat, key: Key, o: FinalOutcome :: key in x.attempts && P(x, n) ==> P(Retire(x, key, o), n))
    && (forall x: State, n: nat, key: Key :: key in x.attempts && P(x, n) ==> P(MarkSent(x, key), n))
    && (forall x: State, n: nat, sig: Signature :: sig in x.sigToKey && x.sigToKey[sig] !in x.attempts && P(x, n) ==>
          P(x.(sigToKey := x.sigToKey - {sig}), n))
  }

  function Tally(deadline: nat, steps: seq<Step>, w: (State, RegisterEvent) -> nat): nat {
    if steps == [] then 0
    else
      var init, last := steps[..|steps| - 1], steps[|steps| - 1];
      Tally(deadline, init, w) + if last.Register? then w(Run(deadline, init), last.reg) else 0
  }

  lemma {:induction false} ExpiryKeeps(P: (State, nat) -> bool, x: State, n: nat, order: seq<Key>, now: nat)
    requires EndsKeep(P) && P(x, n)
    ensures P(RetireExpired(x, order, now), n)
  {
    if order != [] {
      ExpiryKeeps(P, x, n, order[..|order| - 1], now);
    }
  }

  lemma {:induction false} FlushKeeps(P: (State, nat) -> bool, x: State, n: nat, order: seq<Key>)
    requires EndsKeep(P) && P(x, n)
    ensures P(Flush(x, order), n)
  {
    if order != [] {
      FlushKeeps(P, x, n, order[..|order| - 1]);
    }
  }

  lemma {:induction false} StepKeeps(deadline: nat, P: (State, nat) -> bool, x: State, n: nat, step: Step)
    requires EndsKeep(P) && P(x, n) && !step.Register?
    ensures P(Next(deadline, x, step), n)
  {
    match step
    case SendDone(key, failed) =>
      if key in x.attempts {
        assert P(MarkSent(x, key), n);
      }
    case Match(sig) =>
      if sig in x.sigToKey && x.sigToKey[sig] in x.attempts {
        assert P(Retire(x, x.sigToKey[sig], Landed), n);
      }
    case Sweep(now, order) => ExpiryKeeps(P, x, n, order, now);
  }

  lemma {:induction false} RunKeeps(deadline: nat, P: (State, nat) -> bool, w: (State, RegisterEvent) -> nat, steps: seq<Step>)
    requires MovesKeep(deadline, P, w) && P(INITIAL, 0)
    ensures P(Run(deadline, steps), Tally(deadline, steps, w))
  {
    if steps != [] {
      var init, last := steps[..|steps| - 1], steps[|steps| - 1];
      RunKeeps(deadline, P, w, init);
      if !last.Register? {
        StepKeeps(deadline, P, Run(deadline, init), Tally(deadline, init, w), last);
      }
    }
  }

  /** The recorder over a whole run: the steps, and the final flush. */
  function Finish(deadline: nat, steps: seq<Step>, order: seq<Key>): State {
    Flush(Run(deadline, steps), order)
  }

  lemma {:induction false} FinishKeeps(deadline: nat, P: (State, nat) -> bool, w: (State, RegisterEvent) -> nat, steps: seq<Step>, order: seq<Key>)
    requires MovesKeep(deadline, P, w) && P(INITIAL, 0)
    ensures P(Finish(deadline, steps, order), Tally(deadline, steps, w))
  {
    RunKeeps(deadline, P, w, steps);
    FlushKeeps(P, Run(deadline, steps), Tally(deadline, steps, w), order);
  }

  // ---------- conservation per sender ----------

  /** Attempts are filed under their own key. */
  predicate Filed(attempts: map<Key, Attempt>) {
    forall key :: key in attempts ==> attempts[key].register.Key() == key
  }

  function Live(attempts: map<Key, Attempt>, sender: nat): set<Key> {
    set k | k in attempts && k.1 == sender
  }

  /** What one sender's attempts came to. */
  predicate SenderBalances(x: State, sender: nat, replaced: nat) {
    var st := StatsAt(x.agg.perSender, sender);
    Filed(x.attempts) && st.attempts == st.Ended() + |Live(x.attempts, sender)| + replaced
  }

  /** Registrations of this sender that replace an attempt that is still live. */
  function ReplacesFor(sender: nat): (State, RegisterEvent) -> nat {
    (x: State, reg: RegisterEvent) => OneIf(reg.senderId == sender && reg.Key() in x.attempts)
  }

  lemma RetireBalances(x: State, key: Key, o: FinalOutcome, sender: nat, replaced: nat)
    requires key in x.attempts && SenderBalances(x, sender, replaced)
    ensures SenderBalances(Retire(x, key, o), sender, replaced)
  {
    var y := Retire(x, key, o);
    if key.1 == sender {
      assert Live(x.attempts, sender) == Live(y.attempts, sender) + {key};
    } else {
      assert Live(x.attempts, sender) == Live(y.attempts, sender);
    }
  }

  lemma LiveWith(attempts: map<Key, Attempt>, key: Key, att: Attempt, sender: nat)
    ensures |Live(attempts[key := att], sender)| == |Live(attempts, sender)| + OneIf(key.1 == sender && key !in attempts)
  {
    if key.1 == sender && key !in attempts {
      assert Live(attempts[key := att], sender) == Live(attempts, sender) + {key};
    } else {
      assert Live(attempts[key := att], sender) == Live(attempts, sender);
    }
  }

  lemma RegisterBalances(deadline: nat, x: State, reg: RegisterEvent, sender: nat, replaced: nat)
    requires SenderBalances(x, sender, replaced)
    ensures SenderBalances(Next(deadline, x, Register(reg)), sender, replaced + ReplacesFor(sender)(x, reg))
  {
    var y, key := Next(deadline, x, Register(reg)), reg.Key();
    var att := Attempt(reg, false, reg.observedAt + deadline);
    RegisterStats(x.agg, reg, sender);
    LiveWith(x.attempts, key, att, sender);
    assert Filed(x.attempts[key := att]);
    assert y.attempts == x.attempts[key := att] && y.agg == RecordRegister(x.agg, reg);
    assert ReplacesFor(sender)(x, reg) == OneIf(reg.senderId == sender && key in x.attempts);
  }

  lemma RegisterStats(agg: Aggregate, reg: RegisterEvent, sender: nat)
    ensures var a, b := StatsAt(agg.perSender, sender), StatsAt(RecordRegister(agg, reg).perSender, sender);
            b.attempts == a.attempts + OneIf(reg.senderId == sender) && b.Ended() == a.Ended()
  {
  }

  lemma MarkSentBalances(x: State, key: Key, sender: nat, replaced: nat)
    requires key in x.attempts && SenderBalances(x, sender, replaced)
    ensures SenderBalances(MarkSent(x, key), sender, replaced)
  {
    assert Live(MarkSent(x, key).attempts, sender) == Live(x.attempts, sender);
  }

  /**
   Conservation per sender, in every run and before or after the final flush: attempts =
   landed + send errors + unknown + still live + registrations that replaced a live
   attempt, which no counter of the source records.
   */
  lemma {:induction false} EverySenderBalances(deadline: nat, steps: seq<Step>, order: seq<Key>, sender: nat)
    ensures SenderBalances(Finish(deadline, steps, order), sender, Tally(deadline, steps, ReplacesFor(sender)))
  {
    var P := (x: State, n: nat) => SenderBalances(x, sender, n);
    forall x: State, n: nat, reg: RegisterEvent | P(x, n)
      ensures P(Next(deadline, x, Register(reg)), n + ReplacesFor(sender)(x, reg))
    {
      RegisterBalances(deadline, x, reg, sender, n);
    }
    forall x: State, n: nat, key: Key, o: FinalOutcome | key in x.attempts && P(x, n) ensures P(Retire(x, key, o), n) {
      RetireBalances(x, key, o, sender, n);
    }
    forall x: State, n: nat, key: Key | key in x.attempts && P(x, n) ensures P(MarkSent(x, key), n) {
      MarkSentBalances(x, key, sender, n);
    }
    assert Live(map[], sender) == {};
    FinishKeeps(deadline, P, ReplacesFor(sender), steps, order);
  }

  predicate TotalBalances(x: State, replaced: nat) {
    x.agg.total.attempts == x.agg.total.Ended() + |x.attempts| + replaced
  }

  function ReplacesAny(): (State, RegisterEvent) -> nat {
    (x: State, reg: RegisterEvent) => OneIf(reg.Key() in x.attempts)
  }

  lemma RetireTotal(x: State, key: Key, o: FinalOutcome, replaced: nat)
    requires key in x.attempts && TotalBalances(x, replaced)
    ensures TotalBalances(Retire(x, key, o), replaced)
  {
    assert (x.attempts - {key}).Keys == x.attempts.Keys - {key};
  }

  lemma UpdateTotal(m: map<Key, Attempt>, key: Key, att: Attempt)
    ensures |m[key := att]| == |m| + OneIf(key !in m)
  {
    assert m[key := att].Keys == m.Keys + {key};
  }

  /** The same conservation for the totals. */
  lemma {:induction false} TheTotalBalances(deadline: nat, steps: seq<Step>, order: seq<Key>)
    ensures TotalBalances(Finish(deadline, steps, order), Tally(deadline, steps, ReplacesAny()))
  {
    var P := (x: State, n: nat) => TotalBalances(x, n);
    forall x: State, n: nat, reg: RegisterEvent | P(x, n)
      ensures P(Next(deadline, x, Register(reg)), n + ReplacesAny()(x, reg))
    {
      UpdateTotal(x.attempts, reg.Key(), Attempt(reg, false, reg.observedAt + deadline));
    }
    forall x: State, n: nat, key: Key, o: FinalOutcome | key in x.attempts && P(x, n) ensures P(Retire(x, key, o), n) {
      RetireTotal(x, key, o, n);
    }
    forall x: State, n: nat, key: Key | key in x.attempts && P(x, n) ensures P(MarkSent(x, key), n) {
      UpdateTotal(x.attempts, key, x.attempts[key].(sent := true));
    }
    FinishKeeps(deadline, P, ReplacesAny(), steps, order);
  }

  // ---------- totals ----------

  function Plus(a: Stats, b: Stats): Stats {
    Stats(a.attempts + b.attempts, a.landed + b.landed, a.sendError + b.sendError, a.unknownPending + b.unknownPending)
  }

  ghost function Sum(perSender: map<nat, Stats>): Stats {
    if perSender == map[] then NO_STATS
    else var s :| s in perSender; Plus(perSender[s], Sum(perSender - {s}))
  }

  lemma {:induction false} SumSplit(m: map<nat, Stats>, s: nat)
    requires s in m
    ensures Sum(m) == Plus(m[s], Sum(m - {s}))
  {
    var c :| c in m && Sum(m) == Plus(m[c], Sum(m - {c}));
    if c != s {
      var rest := m - {c} - {s};
      assert rest == m - {s} - {c};
      SumSplit(m - {c}, s);
      SumSplit(m - {s}, c);
      assert Sum(m - {c}) == Plus(m[s], Sum(rest));
      assert Sum(m - {s}) == Plus(m[c], Sum(rest));
      assert Plus(m[c], Plus(m[s], Sum(rest))) == Plus(m[s], Plus(m[c], Sum(rest)));
    }
  }

  lemma SumGrows(m: map<nat, Stats>, s: nat, d: Stats)
    ensures Sum(m[s := Plus(StatsAt(m, s), d)]) == Plus(Sum(m), d)
  {
    var after := m[s := Plus(StatsAt(m, s), d)];
    SumSplit(after, s);
    assert after - {s} == m - {s};
    if s in m {
      SumSplit(m, s);
    } else {
      assert m - {s} == m;
    }
  }

  /** The totals are the sums over the senders, and only triggers that were attempted have landed. */
  predicate KnownTriggers(x: State) {
    && Filed(x.attempts)
    && (forall key :: key in x.attempts ==> key.0 in x.agg.triggersAttempted)
    && x.agg.triggersLanded <= x.agg.triggersAttempted
  }

  ghost predicate Consistent(x: State) {
    x.agg.total == Sum(x.agg.perSender) && KnownTriggers(x)
  }

  /** Adding the same to one sender and to the total keeps the total a sum. */
  lemma {:induction false} BothGrow(agg: Aggregate, sender: nat, d: Stats, perSender: map<nat, Stats>, total: Stats)
    requires agg.total == Sum(agg.perSender)
    requires perSender == agg.perSender[sender := Plus(StatsAt(agg.perSender, sender), d)]
    requires total == Plus(agg.total, d)
    ensures total == Sum(perSender)
  {
    SumGrows(agg.perSender, sender, d);
  }

  lemma AddIsPlus(st: Stats, o: FinalOutcome)
    ensures st.Add(o) == Plus(st, NO_STATS.Add(o))
  {
  }

  lemma {:induction false} OutcomeSums(agg: Aggregate, key: Key, o: FinalOutcome)
    requires agg.total == Sum(agg.perSender)
    ensures var after := RecordOutcome(agg, key, o); after.total == Sum(after.perSender)
  {
    var after := RecordOutcome(agg, key, o);
    AddIsPlus(StatsAt(agg.perSender, key.1), o);
    AddIsPlus(agg.total, o);
    BothGrow(agg, key.1, NO_STATS.Add(o), after.perSender, after.total);
  }

  function OneAttempt(): Stats {
    Stats(1, 0, 0, 0)
  }

  lemma {:induction false} RegisterSums(agg: Aggregate, reg: RegisterEvent)
    requires agg.total == Sum(agg.perSender)
    ensures var after := RecordRegister(agg, reg); after.total == Sum(after.perSender)
  {
    var after := RecordRegister(agg, reg);
    BothGrow(agg, reg.senderId, OneAttempt(), after.perSender, after.total);
  }

  lemma {:induction false} RegisterIsConsistent(deadline: nat, x: State, reg: RegisterEvent)
    requires Consistent(x)
    ensures Consistent(Next(deadline, x, Register(reg)))
  {
    RegisterSums(x.agg, reg);
  }

  lemma RetireKnown(x: State, key: Key, o: FinalOutcome)
    requires key in x.attempts && KnownTriggers(x)
    ensures KnownTriggers(Retire(x, key, o)) && Retire(x, key, o).agg == RecordOutcome(x.agg, key, o)
  {
  }

  lemma {:induction false} RetireIsConsistent(x: State, key: Key, o: FinalOutcome)
    requires key in x.attempts && Consistent(x)
    ensures Consistent(Retire(x, key, o))
  {
    RetireKnown(x, key, o);
    var agg := RecordOutcome(x.agg, key, o);
    assert agg.total == Sum(agg.perSender) by { OutcomeSums(x.agg, key, o); }
  }

  lemma {:induction false} MarkSentIsConsistent(x: State, key: Key)
    requires key in x.attempts && Consistent(x)
    ensures Consistent(MarkSent(x, key))
  {
  }

  /** In every run the totals are the per-sender sums, and the landed triggers are attempted ones. */
  lemma TotalsAreSums(deadline: nat, steps: seq<Step>, order: seq<Key>)
    ensures Consistent(Finish(deadline, steps, order))
  {
    var P := (x: State, n: nat) => Consistent(x);
    var w := (x: State, reg: RegisterEvent) => 0;
    forall x: State, n: nat, reg: RegisterEvent | P(x, n) ensures P(Next(deadline, x, Register(reg)), n + w(x, reg)) {
      RegisterIsConsistent(deadline, x, reg);
    }
    forall x: State, n: nat, key: Key, o: FinalOutcome | key in x.attempts && P(x, n) ensures P(Retire(x, key, o), n) {
      RetireIsConsistent(x, key, o);
    }
    forall x: State, n: nat, key: Key | key in x.attempts && P(x, n) ensures P(MarkSent(x, key), n) {
      MarkSentIsConsistent(x, key);
    }
    FinishKeeps(deadline, P, w, steps, order);
  }

  // ---------- what the outcome counters count ----------

  /** The records of a sender with an outcome. */
  function RecordsWith(records: seq<TriggerRecord>, sender: nat, o: FinalOutcome): nat {
    if records == [] then 0
    else
      var last := records[|records| - 1];
      RecordsWith(records[..|records| - 1], sender, o) + OneIf(last.register.senderId == sender && last.outcome == o)
  }

  function AllRecordsWith(records: seq<TriggerRecord>, o: FinalOutcome): nat {
    if records == [] then 0
    else AllRecordsWith(records[..|records| - 1], o) + OneIf(records[|records| - 1].outcome == o)
  }

  /** The triggers that some record says have landed. */
  function LandedTriggers(records: seq<TriggerRecord>): set<nat> {
    if records == [] then {}
    else
      var last := records[|records| - 1];
      LandedTriggers(records[..|records| - 1]) + if last.outcome == Landed then {last.register.triggerId} else {}
  }

  /** The outcome counters of one sender, and of all, are numbers of records. */
  predicate CountsRecords(x: State, sender: nat) {
    var st := StatsAt(x.agg.perSender, sender);
    && Filed(x.attempts)
    && st.landed == RecordsWith(x.records, sender, Landed)
    && st.sendError == RecordsWith(x.records, sender, SendError)
    && st.unknownPending == RecordsWith(x.records, sender, UnknownPending)
    && x.agg.total.landed == AllRecordsWith(x.records, Landed)
    && x.agg.total.sendError == AllRecordsWith(x.records, SendError)
    && x.agg.total.unknownPending == AllRecordsWith(x.records, UnknownPending)
    && x.agg.triggersLanded == LandedTriggers(x.records)
  }

  lemma RetireCountsRecords(x: State, key: Key, o: FinalOutcome, sender: nat)
    requires key in x.attempts && CountsRecords(x, sender)
    ensures CountsRecords(Retire(x, key, o), sender)
  {
    var att := x.attempts[key];
    var r := TriggerRecord(att.register, att.sent, o);
    assert (x.records + [r])[..|x.records|] == x.records;
    assert (att.register.triggerId, att.register.senderId) == key;
  }

  lemma RegisterCountsRecords(deadline: nat, x: State, reg: RegisterEvent, sender: nat)
    requires CountsRecords(x, sender)
    ensures CountsRecords(Next(deadline, x, Register(reg)), sender)
  {
  }

  /**
   In every run, flush included: landed, sendError and unknownPending, per sender and in
   total, are the numbers of records with that outcome, and the landed triggers are those
   of the Landed records.
   */
  lemma {:induction false} OutcomesAreCounted(deadline: nat, steps: seq<Step>, order: seq<Key>, sender: nat)
    ensures CountsRecords(Finish(deadline, steps, order), sender)
  {
    var P := (x: State, n: nat) => CountsRecords(x, sender);
    var w := (x: State, reg: RegisterEvent) => 0;
    forall x: State, n: nat, reg: RegisterEvent | P(x, n) ensures P(Next(deadline, x, Register(reg)), n + w(x, reg)) {
      RegisterCountsRecords(deadline, x, reg, sender);
    }
    forall x: State, n: nat, key: Key, o: FinalOutcome | key in x.attempts && P(x, n) ensures P(Retire(x, key, o), n) {
      RetireCountsRecords(x, key, o, sender);
    }
    FinishKeeps(deadline, P, w, steps, order);
  }

  function RegistrationsBy(steps: seq<Step>, sender: nat): nat {
    if steps == [] then 0
    else
      var last := steps[|steps| - 1];
      RegistrationsBy(steps[..|steps| - 1], sender) + OneIf(last.Register? && last.reg.senderId == sender)
  }

  function Registrations(steps: seq<Step>): nat {
    if steps == [] then 0 else Registrations(steps[..|steps| - 1]) + OneIf(steps[|steps| - 1].Register?)
  }

  function RegisteredTriggers(steps: seq<Step>): set<nat> {
    if steps == [] then {}
    else
      var last := steps[|steps| - 1];
      RegisteredTriggers(steps[..|steps| - 1]) + if last.Register? then {last.reg.triggerId} else {}
  }

  /** The attempts of a sender and in total, and the triggers attempted. */
  predicate CountsAttempts(x: State, sender: nat, own: nat, all: nat, triggers: set<nat>) {
    && StatsAt(x.agg.perSender, sender).attempts == own
    && x.agg.total.attempts == all
    && x.agg.triggersAttempted == triggers
  }

  lemma EndsCountAttempts(P: (State, nat) -> bool, sender: nat, own: nat, all: nat, triggers: set<nat>)
    requires forall x: State, n: nat :: P(x, n) <==> CountsAttempts(x, sender, own, all, triggers)
    ensures EndsKeep(P)
  {
  }

  lemma {:induction false} RunCountsAttempts(deadline: nat, steps: seq<Step>, sender: nat)
    ensures CountsAttempts(Run(deadline, steps), sender,
                           RegistrationsBy(steps, sender), Registrations(steps), RegisteredTriggers(steps))
  {
    if steps != [] {
      var init, last := steps[..|steps| - 1], steps[|steps| - 1];
      RunCountsAttempts(deadline, init, sender);
      if !last.Register? {
        var own, all, triggers := RegistrationsBy(init, sender), Registrations(init), RegisteredTriggers(init);
        var P := (x: State, n: nat) => CountsAttempts(x, sender, own, all, triggers);
        EndsCountAttempts(P, sender, own, all, triggers);
        StepKeeps(deadline, P, Run(deadline, init), 0, last);
      }
    }
  }

  /** In every run, flush included, the attempts are the registrations, per sender and in total. */
  lemma {:induction false} AttemptsAreRegistrations(deadline: nat, steps: seq<Step>, order: seq<Key>, sender: nat)
    ensures CountsAttempts(Finish(deadline, steps, order), sender,
                           RegistrationsBy(steps, sender), Registrations(steps), RegisteredTriggers(steps))
  {
    RunCountsAttempts(deadline, steps, sender);
    var own, all, triggers := RegistrationsBy(steps, sender), Registrations(steps), RegisteredTriggers(steps);
    var P := (x: State, n: nat) => CountsAttempts(x, sender, own, all, triggers);
    EndsCountAttempts(P, sender, own, all, triggers);
    FlushKeeps(P, Run(deadline, steps), 0, order);
  }

  // ---------- which outcome a record gets, and whether it says sent ----------

  /** From `x` to `y`, records are only added, and the added ones have this outcome. */
  predicate AddsOnly(x: State, y: State, o: FinalOutcome) {
    && |x.records| <= |y.records| && y.records[..|x.records|] == x.records
    && forall i :: |x.records| <= i < |y.records| ==> y.records[i].outcome == o
  }

  lemma {:induction false} ExpiryAddsUnknown(x: State, order: seq<Key>, now: nat)
    ensures AddsOnly(x, RetireExpired(x, order, now), UnknownPending)
  {
    if order != [] {
      ExpiryAddsUnknown(x, order[..|order| - 1], now);
    }
  }

  lemma {:induction false} FlushAddsUnknown(x: State, order: seq<Key>)
    ensures AddsOnly(x, Flush(x, order), UnknownPending)
  {
    if order != [] {
      FlushAddsUnknown(x, order[..|order| - 1]);
    }
  }

  /**
   What a step writes: a match at most one record, which says Landed; the report of a
   failed send exactly one for a live attempt, which says sent and SendError; a sweep
   records that say UnknownPending; a registration and the report of a good send none.
   */
  lemma {:induction false} OutcomeFollowsStep(deadline: nat, x: State, step: Step)
    ensures var y := Next(deadline, x, step);
            match step
            case Register(_) => y.records == x.records
            case SendDone(key, failed) =>
              y.records == x.records +
                if failed && key in x.attempts then [TriggerRecord(x.attempts[key].register, true, SendError)] else []
            case Match(_) => AddsOnly(x, y, Landed) && |y.records| <= |x.records| + 1
            case Sweep(_, _) => AddsOnly(x, y, UnknownPending)
  {
    if step.Sweep? {
      ExpiryAddsUnknown(x, step.order, step.now);
    }
  }

  /** The send of the key's latest registration has been reported. */
  predicate SendCame(steps: seq<Step>, key: Key) {
    steps != [] &&
    var last := steps[|steps| - 1];
    if last.Register? && last.reg.Key() == key then false
    else (last.SendDone? && last.key == key) || SendCame(steps[..|steps| - 1], key)
  }

  /** In every run a live attempt is marked as sent exactly when its send has been reported. */
  lemma {:induction false} SentMarkIsReport(deadline: nat, steps: seq<Step>, key: Key)
    ensures var x := Run(deadline, steps);
            key in x.attempts ==> (x.attempts[key].sent <==> SendCame(steps, key))
  {
    if steps != [] {
      var init, last := steps[..|steps| - 1], steps[|steps| - 1];
      SentMarkIsReport(deadline, init, key);
      if last.Sweep? {
        ExpiryAt(Run(deadline, init), last.order, last.now, key);
      }
    }
  }

  /** The record is written from an attempt of `x` as it stood: the same registration and the same mark. */
  predicate WrittenFrom(x: State, r: TriggerRecord) {
    exists k :: k in x.attempts && r.register == x.attempts[k].register && r.sent == x.attempts[k].sent
  }

  predicate AddsFrom(x: State, y: State) {
    |x.records| <= |y.records| && forall i :: |x.records| <= i < |y.records| ==> WrittenFrom(x, y.records[i])
  }

  lemma RetireAddsFrom(x: State, y: State, key: Key, o: FinalOutcome)
    requires AddsFrom(x, y) && key in y.attempts && key in x.attempts && y.attempts[key] == x.attempts[key]
    ensures AddsFrom(x, Retire(y, key, o))
  {
    var z := Retire(y, key, o);
    assert WrittenFrom(x, z.records[|y.records|]);
    assert forall i :: 0 <= i < |y.records| ==> z.records[i] == y.records[i];
  }

  lemma {:induction false} ExpiryAddsFrom(x: State, order: seq<Key>, now: nat)
    ensures AddsFrom(x, RetireExpired(x, order, now))
  {
    if order != [] {
      var init, key := order[..|order| - 1], order[|order| - 1];
      var before := RetireExpired(x, init, now);
      ExpiryAddsFrom(x, init, now);
      ExpiryAt(x, init, now, key);
      if key in before.attempts {
        RetireAddsFrom(x, before, key, UnknownPending);
      }
    }
  }

  lemma {:induction false} FlushAddsFrom(x: State, order: seq<Key>)
    ensures AddsFrom(x, Flush(x, order))
    ensures forall key :: key in Flush(x, order).attempts ==> key in x.attempts && Flush(x, order).attempts[key] == x.attempts[key]
  {
    if order != [] {
      var init, key := order[..|order| - 1], order[|order| - 1];
      FlushAddsFrom(x, init);
      if key in Flush(x, init).attempts {
        RetireAddsFrom(x, Flush(x, init), key, UnknownPending);
      }
    }
  }

  /** Matches, sweeps and the flush write records from the attempts as they stand. */
  lemma {:induction false} RecordsKeepTheMark(deadline: nat, x: State, step: Step, order: seq<Key>)
    ensures !step.SendDone? ==> AddsFrom(x, Next(deadline, x, step))
    ensures AddsFrom(x, Flush(x, order)) && AddsOnly(x, Flush(x, order), UnknownPending)
  {
    FlushAddsFrom(x, order);
    FlushAddsUnknown(x, order);
    match step
    case Register(_) =>
    case SendDone(_, _) =>
    case Match(sig) =>
      if sig in x.sigToKey && x.sigToKey[sig] in x.attempts {
        RetireAddsFrom(x, x, x.sigToKey[sig], Landed);
      }
    case Sweep(now, visited) => ExpiryAddsFrom(x, visited, now);
  }

  // ---------- every registration ends once ----------

  /** The records written for one key. */
  function RecordsOf(records: seq<TriggerRecord>, key: Key): nat {
    if records == [] then 0
    else RecordsOf(records[..|records| - 1], key) + OneIf(records[|records| - 1].register.Key() == key)
  }

  function Registers(key: Key): (State, RegisterEvent) -> nat {
    (x: State, reg: RegisterEvent) => OneIf(reg.Key() == key)
  }

  function Replaces(key: Key): (State, RegisterEvent) -> nat {
    (x: State, reg: RegisterEvent) => OneIf(reg.Key() == key && key in x.attempts)
  }

  /** Registrations of the key that found it not live. */
  function Opens(key: Key): (State, RegisterEvent) -> nat {
    (x: State, reg: RegisterEvent) => OneIf(reg.Key() == key && key !in x.attempts)
  }

  lemma {:induction false} OpensAreRegistersLessReplaces(deadline: nat, steps: seq<Step>, key: Key)
    ensures Tally(deadline, steps, Opens(key)) + Tally(deadline, steps, Replaces(key)) == Tally(deadline, steps, Registers(key))
  {
    if steps != [] {
      var init, last := steps[..|steps| - 1], steps[|steps| - 1];
      OpensAreRegistersLessReplaces(deadline, init, key);
      if last.Register? {
        var x := Run(deadline, init);
        assert Opens(key)(x, last.reg) + Replaces(key)(x, last.reg) == Registers(key)(x, last.reg);
      }
    }
  }

  predicate KeyBalances(x: State, key: Key, opens: nat) {
    Filed(x.attempts) && opens == RecordsOf(x.records, key) + OneIf(key in x.attempts)
  }

  lemma RetireKeyBalances(x: State, k: Key, o: FinalOutcome, key: Key, opens: nat)
    requires k in x.attempts && KeyBalances(x, key, opens)
    ensures KeyBalances(Retire(x, k, o), key, opens)
  {
    var att := x.attempts[k];
    assert (x.records + [TriggerRecord(att.register, att.sent, o)])[..|x.records|] == x.records;
  }

  lemma RegisterKeyBalances(deadline: nat, x: State, reg: RegisterEvent, key: Key, opens: nat)
    requires KeyBalances(x, key, opens)
    ensures KeyBalances(Next(deadline, x, Register(reg)), key, opens + Opens(key)(x, reg))
  {
  }

  /** The registrations that the records of one key carry, in order. */
  function RecordedRegs(records: seq<TriggerRecord>, key: Key): seq<RegisterEvent> {
    if records == [] then []
    else
      var last := records[|records| - 1].register;
      RecordedRegs(records[..|records| - 1], key) + if last.Key() == key then [last] else []
  }

  function LiveReg(x: State, key: Key): seq<RegisterEvent> {
    if key in x.attempts then [x.attempts[key].register] else []
  }

  /** The registrations of one key in order, without those that a later one replaced while they were live. */
  function Unreplaced(deadline: nat, steps: seq<Step>, key: Key): seq<RegisterEvent> {
    if steps == [] then []
    else
      var init, last := steps[..|steps| - 1], steps[|steps| - 1];
      var before := Unreplaced(deadline, init, key);
      if !last.Register? || last.reg.Key() != key then before
      else if key in Run(deadline, init).attempts && before != [] then before[..|before| - 1] + [last.reg]
      else before + [last.reg]
  }

  /** The records of the key and its live attempt carry the registrations `regs`. */
  predicate Carries(x: State, key: Key, regs: seq<RegisterEvent>) {
    Filed(x.attempts) && RecordedRegs(x.records, key) + LiveReg(x, key) == regs
  }

  lemma RetireCarries(x: State, k: Key, o: FinalOutcome, key: Key, regs: seq<RegisterEvent>)
    requires k in x.attempts && Carries(x, key, regs)
    ensures Carries(Retire(x, k, o), key, regs)
  {
    var att := x.attempts[k];
    assert (x.records + [TriggerRecord(att.register, att.sent, o)])[..|x.records|] == x.records;
  }

  lemma EndsCarry(P: (State, nat) -> bool, key: Key, regs: seq<RegisterEvent>)
    requires forall x: State, n: nat :: P(x, n) <==> Carries(x, key, regs)
    ensures EndsKeep(P)
  {
    forall x: State, n: nat, k: Key, o: FinalOutcome | k in x.attempts && P(x, n) ensures P(Retire(x, k, o), n) {
      RetireCarries(x, k, o, key, regs);
    }
  }

  lemma {:induction false} RunCarries(deadline: nat, steps: seq<Step>, key: Key)
    ensures Carries(Run(deadline, steps), key, Unreplaced(deadline, steps, key))
  {
    if steps != [] {
      var init, last := steps[..|steps| - 1], steps[|steps| - 1];
      RunCarries(deadline, init, key);
      if !last.Register? {
        var regs := Unreplaced(deadline, init, key);
        var P := (x: State, n: nat) => Carries(x, key, regs);
        EndsCarry(P, key, regs);
        StepKeeps(deadline, P, Run(deadline, init), 0, last);
      }
    }
  }

  /**
   Every registration of a key ends once: the records of the key and then its live attempt,
   if it has one, carry its registrations in order, each once, except those that a later
   one replaced while they were live; and none is lost from the count.
   */
  lemma {:induction false} EveryRegistrationEndsOnce(deadline: nat, steps: seq<Step>, order: seq<Key>, key: Key)
    ensures var x := Finish(deadline, steps, order);
            && RecordedRegs(x.records, key) + LiveReg(x, key) == Unreplaced(deadline, steps, key)
            && Tally(deadline, steps, Registers(key)) ==
               RecordsOf(x.records, key) + OneIf(key in x.attempts) + Tally(deadline, steps, Replaces(key))
  {
    EveryRegistrationIsCounted(deadline, steps, order, key);
    FinishCarries(deadline, steps, order, key);
  }

  lemma {:induction false} EveryRegistrationIsCounted(deadline: nat, steps: seq<Step>, order: seq<Key>, key: Key)
    ensures var x := Finish(deadline, steps, order);
            Tally(deadline, steps, Registers(key)) ==
            RecordsOf(x.records, key) + OneIf(key in x.attempts) + Tally(deadline, steps, Replaces(key))
  {
    var P := (x: State, n: nat) => KeyBalances(x, key, n);
    forall x: State, n: nat, k: Key, o: FinalOutcome | k in x.attempts && P(x, n) ensures P(Retire(x, k, o), n) {
      RetireKeyBalances(x, k, o, key, n);
    }
    forall x: State, n: nat, reg: RegisterEvent | P(x, n) ensures P(Next(deadline, x, Register(reg)), n + Opens(key)(x, reg)) {
      RegisterKeyBalances(deadline, x, reg, key, n);
    }
    FinishKeeps(deadline, P, Opens(key), steps, order);
    OpensAreRegistersLessReplaces(deadline, steps, key);
  }

  lemma {:induction false} FinishCarries(deadline: nat, steps: seq<Step>, order: seq<Key>, key: Key)
    ensures Carries(Finish(deadline, steps, order), key, Unreplaced(deadline, steps, key))
  {
    RunCarries(deadline, steps, key);
    var regs := Unreplaced(deadline, steps, key);
    var P := (x: State, n: nat) => Carries(x, key, regs);
    EndsCarry(P, key, regs);
    FlushKeeps(P, Run(deadline, steps), 0, order);
  }

  // ---------- signatures and attempts ----------

  /** `sig_to_key` and `attempts` are inverse to each other. */
  predicate Paired(x: State) {
    && Filed(x.attempts)
    && (forall key :: key in x.attempts ==>
          x.attempts[key].register.signature in x.sigToKey && x.sigToKey[x.attempts[key].register.signature] == key)
    && (forall sig :: sig in x.sigToKey ==>
          x.sigToKey[sig] in x.attempts && x.attempts[x.sigToKey[sig]].register.signature == sig)
  }

  /** The key is not live or has this signature, and the signature is not live or has this key. */
  predicate Fitting(x: State, reg: RegisterEvent) {
    && (reg.Key() in x.attempts ==> x.attempts[reg.Key()].register.signature == reg.signature)
    && (reg.signature in x.sigToKey ==> x.sigToKey[reg.signature] == reg.Key())
  }

  /** Registrations that give a live key another signature, or a live signature another key. */
  function Misfits(): (State, RegisterEvent) -> nat {
    (x: State, reg: RegisterEvent) => OneIf(!Fitting(x, reg))
  }

  lemma RetirePaired(x: State, key: Key, o: FinalOutcome)
    requires key in x.attempts && Paired(x)
    ensures Paired(Retire(x, key, o))
  {
  }

  /** A registration keeps the pairing exactly when it fits. */
  lemma RegisterPairedExactly(deadline: nat, x: State, reg: RegisterEvent)
    requires Paired(x)
    ensures Paired(Next(deadline, x, Register(reg))) <==> Fitting(x, reg)
  {
    var y := Next(deadline, x, Register(reg));
    if Paired(y) && reg.Key() in x.attempts {
      var before := x.attempts[reg.Key()].register.signature;
      assert before in x.sigToKey && before in y.sigToKey;
    }
    if Paired(y) && reg.signature in x.sigToKey {
      var before := x.sigToKey[reg.signature];
      assert before in x.attempts && before in y.attempts;
    }
  }

  /** What the two lemmas below need of every kind of step. */
  lemma MovesKeepPaired(deadline: nat, P: (State, nat) -> bool)
    requires forall x: State, n: nat :: P(x, n) <==> (n == 0 ==> Paired(x))
    ensures MovesKeep(deadline, P, Misfits())
  {
    forall x: State, n: nat, reg: RegisterEvent | P(x, n)
      ensures P(Next(deadline, x, Register(reg)), n + Misfits()(x, reg))
    {
      if n + Misfits()(x, reg) == 0 {
        RegisterPairedExactly(deadline, x, reg);
      }
    }
    forall x: State, n: nat, key: Key | key in x.attempts && P(x, n) ensures P(MarkSent(x, key), n) {
      if n == 0 {
        assert Paired(MarkSent(x, key));
      }
    }
    forall x: State, n: nat, key: Key, o: FinalOutcome | key in x.attempts && P(x, n) ensures P(Retire(x, key, o), n) {
      if n == 0 {
        RetirePaired(x, key, o);
      }
    }
  }

  /** As long as every registration fits, signatures and attempts stay in bijection, flush included. */
  lemma {:induction false} SignaturesStayPaired(deadline: nat, steps: seq<Step>, order: seq<Key>)
    requires Tally(deadline, steps, Misfits()) == 0
    ensures Paired(Run(deadline, steps)) && Paired(Finish(deadline, steps, order))
  {
    var P := (x: State, n: nat) => n == 0 ==> Paired(x);
    MovesKeepPaired(deadline, P);
    RunKeeps(deadline, P, Misfits(), steps);
    FinishKeeps(deadline, P, Misfits(), steps, order);
  }

  /** Paired at every moment of the run. */
  predicate PairedThroughout(deadline: nat, steps: seq<Step>) {
    Paired(Run(deadline, steps)) && (steps != [] ==> PairedThroughout(deadline, steps[..|steps| - 1]))
  }

  /** The bijection holds throughout a run exactly when every registration of the run fits. */
  lemma {:induction false} PairedThroughoutExactly(deadline: nat, steps: seq<Step>)
    ensures PairedThroughout(deadline, steps) <==> Tally(deadline, steps, Misfits()) == 0
  {
    if steps != [] {
      var init, last := steps[..|steps| - 1], steps[|steps| - 1];
      PairedThroughoutExactly(deadline, init);
      if PairedThroughout(deadline, steps) && last.Register? {
        RegisterPairedExactly(deadline, Run(deadline, init), last.reg);
      }
    }
    if Tally(deadline, steps, Misfits()) == 0 {
      SignaturesStayPaired(deadline, steps, []);
    }
  }

  /**
   In a run whose registrations all fit, a match lands the live attempt that registered its
   signature, and does nothing at all if there is none.
   */
  lemma {:induction false} MatchLandsItsOwnAttempt(deadline: nat, steps: seq<Step>, sig: Signature)
    requires Tally(deadline, steps, Misfits()) == 0
    ensures var x, y := Run(deadline, steps), Run(deadline, steps + [Match(sig)]);
            && (forall key :: key in x.attempts && x.attempts[key].register.signature == sig ==>
                  y == Retire(x, key, Landed))
            && ((forall key :: key in x.attempts ==> x.attempts[key].register.signature != sig) ==> y == x)
  {
    SignaturesStayPaired(deadline, steps, []);
    assert (steps + [Match(sig)])[..|steps|] == steps;
    var x := Run(deadline, steps);
    if sig in x.sigToKey {
      assert x.attempts[x.sigToKey[sig]].register.signature == sig;
    }
  }

  // ---------- which attempt a match lands ----------

  /** The latest registration of the key. */
  function LastReg(steps: seq<Step>, key: Key): Option<RegisterEvent> {
    if steps == [] then None
    else
      var last := steps[|steps| - 1];
      if last.Register? && last.reg.Key() == key then Some(last.reg) else LastReg(steps[..|steps| - 1], key)
  }

  /** The key that last registered the signature. */
  function LastKey(steps: seq<Step>, sig: Signature): Option<Key> {
    if steps == [] then None
    else
      var last := steps[|steps| - 1];
      if last.Register? && last.reg.signature == sig then Some(last.reg.Key()) else LastKey(steps[..|steps| - 1], sig)
  }

  /** The keys whose attempts a step may end other than by a match. */
  function Visited(step: Step): seq<Key> {
    match step
    case SendDone(key, failed) => if failed then [key] else []
    case Sweep(_, order) => order
    case _ => []
  }

  /** The step ends a live attempt of this registration: its send failed, or its deadline has passed. */
  predicate GivesUp(deadline: nat, step: Step, reg: RegisterEvent) {
    reg.Key() in Visited(step) && (step.Sweep? ==> reg.observedAt + deadline <= step.now)
  }

  /**
   From the inputs alone: the key is registered, and since its latest registration its send
   has not failed, no sweep has found it past its deadline, and its signature, while
   outstanding for this key, has not been matched.
   */
  predicate IsLive(deadline: nat, steps: seq<Step>, key: Key)
    decreases |steps|
  {
    steps != [] &&
    var init, last := steps[..|steps| - 1], steps[|steps| - 1];
    || (last.Register? && last.reg.Key() == key)
    || (IsLive(deadline, init, key)
        && var reg := LastReg(init, key);
        && reg.Some? && !GivesUp(deadline, last, reg.value)
        && !(last == Match(reg.value.signature)
             && Outstanding(deadline, init, reg.value.signature)
             && LastKey(init, reg.value.signature) == Some(key)))
  }

  /**
   From the inputs alone: the signature is registered, and since its latest registration it
   has not been matched and no live attempt registered with it has been given up.
   */
  predicate Outstanding(deadline: nat, steps: seq<Step>, sig: Signature)
    decreases |steps|
  {
    steps != [] &&
    var init, last := steps[..|steps| - 1], steps[|steps| - 1];
    || (last.Register? && last.reg.signature == sig)
    || (Outstanding(deadline, init, sig) && last != Match(sig)
        && forall k :: k in Visited(last) && IsLive(deadline, init, k) ==>
             var reg := LastReg(init, k);
             reg.Some? && reg.value.signature == sig ==> !GivesUp(deadline, last, reg.value))
  }

  /**
   A match of `sig` would go astray: `sig` is outstanding, and the latest registration of
   the key that last registered it is live and carries another signature.
   */
  predicate Strays(deadline: nat, steps: seq<Step>, sig: Signature) {
    && Outstanding(deadline, steps, sig)
    && var key := LastKey(steps, sig);
    && key.Some? && IsLive(deadline, steps, key.value)
    && var reg := LastReg(steps, key.value);
    && reg.Some? && reg.value.signature != sig
  }

  predicate NoMatchStrays(deadline: nat, steps: seq<Step>) {
    steps != [] ==>
      var init, last := steps[..|steps| - 1], steps[|steps| - 1];
      NoMatchStrays(deadline, init) && (last.Match? ==> !Strays(deadline, init, last.sig))
  }

  /** Every match that ends an attempt ends one that registered the matched signature. */
  predicate MatchesLandTheirOwn(deadline: nat, steps: seq<Step>) {
    steps != [] ==>
      var init, last := steps[..|steps| - 1], steps[|steps| - 1];
      var before, after := Run(deadline, init).records, Run(deadline, steps).records;
      && MatchesLandTheirOwn(deadline, init)
      && (last.Match? && |after| > |before| ==> after[|after| - 1].register.signature == last.sig)
  }

  lemma {:induction false} AttemptIsLastReg(deadline: nat, steps: seq<Step>, key: Key)
    ensures key in Run(deadline, steps).attempts ==>
              LastReg(steps, key) == Some(Run(deadline, steps).attempts[key].register)
  {
    if steps != [] {
      var init, last := steps[..|steps| - 1], steps[|steps| - 1];
      AttemptIsLastReg(deadline, init, key);
      if !last.Register? {
        var reg := LastReg(init, key);
        var P := (x: State, n: nat) => key in x.attempts ==> reg == Some(x.attempts[key].register);
        StepKeeps(deadline, P, Run(deadline, init), 0, last);
      }
    }
  }

  lemma {:induction false} MappedToLastKey(deadline: nat, steps: seq<Step>, sig: Signature)
    ensures sig in Run(deadline, steps).sigToKey ==>
              LastKey(steps, sig) == Some(Run(deadline, steps).sigToKey[sig])
  {
    if steps != [] {
      var init, last := steps[..|steps| - 1], steps[|steps| - 1];
      MappedToLastKey(deadline, init, sig);
      if !last.Register? {
        var key := LastKey(init, sig);
        var P := (x: State, n: nat) => sig in x.sigToKey ==> key == Some(x.sigToKey[sig]);
        StepKeeps(deadline, P, Run(deadline, init), 0, last);
      }
    }
  }

  lemma {:induction false} DeadlineIsSet(deadline: nat, steps: seq<Step>, key: Key)
    ensures var x := Run(deadline, steps);
            key in x.attempts ==>
              x.attempts[key].deadlineAt == x.attempts[key].register.observedAt + deadline
              && x.attempts[key].register.Key() == key
  {
    if steps != [] {
      var init, last := steps[..|steps| - 1], steps[|steps| - 1];
      DeadlineIsSet(deadline, init, key);
      if !last.Register? {
        var P := (x: State, n: nat) =>
          key in x.attempts ==>
            x.attempts[key].deadlineAt == x.attempts[key].register.observedAt + deadline
            && x.attempts[key].register.Key() == key;
        StepKeeps(deadline, P, Run(deadline, init), 0, last);
      }
    }
  }

  lemma {:induction false} ExpiryAt(x: State, order: seq<Key>, now: nat, key: Key)
    ensures var y := RetireExpired(x, order, now);
            && (key in y.attempts <==> key in x.attempts && !(key in order && x.attempts[key].deadlineAt <= now))
            && (key in y.attempts ==> y.attempts[key] == x.attempts[key])
  {
    if order != [] {
      ExpiryAt(x, order[..|order| - 1], now, key);
    }
  }

  /** The sweep finds a live attempt of this signature past its deadline. */
  predicate ExpiresWith(x: State, order: seq<Key>, now: nat, sig: Signature) {
    exists k :: k in order && k in x.attempts && x.attempts[k].deadlineAt <= now && x.attempts[k].register.signature == sig
  }

  lemma {:induction false} ExpiryUnmaps(x: State, order: seq<Key>, now: nat, sig: Signature)
    ensures sig in RetireExpired(x, order, now).sigToKey <==> sig in x.sigToKey && !ExpiresWith(x, order, now, sig)
  {
    if order != [] {
      var init, key := order[..|order| - 1], order[|order| - 1];
      ExpiryUnmaps(x, init, now, sig);
      ExpiryAt(x, init, now, key);
      assert forall k :: k in order <==> k in init || k == key;
    }
  }

  /** Nothing but a registration or a match of the signature and the given-up attempts touches its mapping. */
  predicate GivenUp(deadline: nat, x: State, step: Step, sig: Signature) {
    exists k :: k in Visited(step) && k in x.attempts && x.attempts[k].register.signature == sig
                && (step.Sweep? ==> x.attempts[k].deadlineAt <= step.now)
  }

  lemma {:induction false} StepUnmaps(deadline: nat, x: State, step: Step, sig: Signature)
    requires step.SendDone? || step.Sweep?
    ensures sig in Next(deadline, x, step).sigToKey <==> sig in x.sigToKey && !GivenUp(deadline, x, step, sig)
  {
    match step
    case SendDone(key, failed) =>
      if failed {
        assert key in Visited(step);
      }
    case Sweep(now, order) =>
      ExpiryUnmaps(x, order, now, sig);
  }

  lemma StepEnds(deadline: nat, x: State, step: Step, key: Key)
    requires step.SendDone? || step.Sweep?
    ensures key in Next(deadline, x, step).attempts <==>
            key in x.attempts
            && !(key in Visited(step) && (step.Sweep? ==> x.attempts[key].deadlineAt <= step.now))
  {
    match step
    case SendDone(_, _) =>
    case Sweep(now, order) => ExpiryAt(x, order, now, key);
  }

  /** A match that lands its own attempt ends that one and unmaps its own signature, and nothing else. */
  lemma MatchMoves(deadline: nat, x: State, matched: Signature, key: Key, sig: Signature)
    requires var y := Next(deadline, x, Match(matched));
             |y.records| > |x.records| ==> y.records[|y.records| - 1].register.signature == matched
    ensures var y := Next(deadline, x, Match(matched));
            && (sig in y.sigToKey <==> sig in x.sigToKey && sig != matched)
            && (key in y.attempts <==> key in x.attempts && !(matched in x.sigToKey && x.sigToKey[matched] == key))
  {
  }

  /** While every match has landed its own, the live attempts are those the inputs say are live. */
  lemma {:induction false} AttemptsAreLive(deadline: nat, steps: seq<Step>, key: Key)
    requires MatchesLandTheirOwn(deadline, steps)
    ensures key in Run(deadline, steps).attempts <==> IsLive(deadline, steps, key)
    decreases |steps|
  {
    if steps != [] {
      var init, last := steps[..|steps| - 1], steps[|steps| - 1];
      var x := Run(deadline, init);
      AttemptsAreLive(deadline, init, key);
      AttemptIsLastReg(deadline, init, key);
      DeadlineIsSet(deadline, init, key);
      match last
      case Register(_) =>
      case SendDone(_, _) => StepEnds(deadline, x, last, key);
      case Sweep(_, _) => StepEnds(deadline, x, last, key);
      case Match(matched) =>
        MappedIsOutstanding(deadline, init, matched);
        MappedToLastKey(deadline, init, matched);
        MatchMoves(deadline, x, matched, key, matched);
    }
  }

  /** While every match has landed its own, the mapped signatures are the outstanding ones. */
  lemma {:induction false} MappedIsOutstanding(deadline: nat, steps: seq<Step>, sig: Signature)
    requires MatchesLandTheirOwn(deadline, steps)
    ensures sig in Run(deadline, steps).sigToKey <==> Outstanding(deadline, steps, sig)
    decreases |steps|
  {
    if steps != [] {
      var init, last := steps[..|steps| - 1], steps[|steps| - 1];
      var x := Run(deadline, init);
      MappedIsOutstanding(deadline, init, sig);
      match last
      case Register(_) =>
      case Match(matched) => MatchMoves(deadline, x, matched, (0, 0), sig);
      case _ =>
        StepUnmaps(deadline, x, last, sig);
        forall k | k in Visited(last)
          ensures k in x.attempts <==> IsLive(deadline, init, k)
          ensures k in x.attempts ==>
                    && LastReg(init, k) == Some(x.attempts[k].register) && x.attempts[k].register.Key() == k
                    && x.attempts[k].deadlineAt == x.attempts[k].register.observedAt + deadline
        {
          AttemptsAreLive(deadline, init, k);
          AttemptIsLastReg(deadline, init, k);
          DeadlineIsSet(deadline, init, k);
        }
    }
  }

  /**
   In every run: each match that ends an attempt ends one that registered the matched
   signature, if and only if no match comes for an outstanding signature while the latest
   registration of the key that last registered it is live with another signature.
   */
  lemma {:induction false} MatchesLandTheirOwnExactly(deadline: nat, steps: seq<Step>)
    ensures MatchesLandTheirOwn(deadline, steps) <==> NoMatchStrays(deadline, steps)
  {
    if steps != [] {
      var init, last := steps[..|steps| - 1], steps[|steps| - 1];
      MatchesLandTheirOwnExactly(deadline, init);
      if MatchesLandTheirOwn(deadline, init) && last.Match? {
        MatchedOnceMore(deadline, init, last.sig);
      }
    }
  }

  lemma {:induction false} MatchedOnceMore(deadline: nat, steps: seq<Step>, sig: Signature)
    requires MatchesLandTheirOwn(deadline, steps)
    ensures var x := Run(deadline, steps);
            var y := Next(deadline, x, Match(sig));
            |y.records| > |x.records| && y.records[|y.records| - 1].register.signature != sig
            <==> Strays(deadline, steps, sig)
  {
    var x := Run(deadline, steps);
    MappedIsOutstanding(deadline, steps, sig);
    MappedToLastKey(deadline, steps, sig);
    if sig in x.sigToKey {
      AttemptsAreLive(deadline, steps, x.sigToKey[sig]);
      AttemptIsLastReg(deadline, steps, x.sigToKey[sig]);
    }
  }

  lemma RunMore(deadline: nat, steps: seq<Step>, step: Step)
    ensures Run(deadline, steps + [step]) == Next(deadline, Run(deadline, steps), step)
  {
    assert (steps + [step])[..|steps|] == steps;
  }

  /** Registering a live key with a new signature strands the old one: a match for it lands the new attempt. */
  lemma {:induction false} ReusedKeyLandsTheWrongAttempt(deadline: nat, old': RegisterEvent, new': RegisterEvent)
    requires old'.Key() == new'.Key() && old'.signature != new'.signature
    ensures Run(deadline, [] + [Register(old')] + [Register(new')] + [Match(old'.signature)]).records ==
            [TriggerRecord(new', false, Landed)]
  {
    var none: seq<Step> := [];
    RunMore(deadline, none, Register(old'));
    RunMore(deadline, none + [Register(old')], Register(new'));
    RunMore(deadline, none + [Register(old')] + [Register(new')], Match(old'.signature));
  }

  /** A match that comes again after the key has been registered anew, with the old signature ended, lands nothing. */
  lemma {:induction false} RepeatedMatchIsHarmless(deadline: nat, old': RegisterEvent, new': RegisterEvent)
    requires old'.Key() == new'.Key() && old'.signature != new'.signature
    ensures var steps := [] + [Register(old')] + [Match(old'.signature)] + [Register(new')];
            && Run(deadline, steps + [Match(old'.signature)]) == Run(deadline, steps)
            && new'.Key() in Run(deadline, steps).attempts
  {
    var none: seq<Step> := [];
    var s1 := none + [Register(old')];
    var s2 := s1 + [Match(old'.signature)];
    var s3 := s2 + [Register(new')];
    RunMore(deadline, none, Register(old'));
    RunMore(deadline, s1, Match(old'.signature));
    RunMore(deadline, s2, Register(new'));
    RunMore(deadline, s3, Match(old'.signature));
    assert old'.signature !in Run(deadline, s3).sigToKey;
  }

  // ---------- the end of a run ----------

  /** A flush that visits every key leaves nothing live. */
  lemma {:induction false} FlushEndsEverything(x: State, order: seq<Key>)
    ensures forall key :: key in Flush(x, order).attempts ==> key in x.attempts && key !in order
  {
    if order != [] {
      FlushEndsEverything(x, order[..|order| - 1]);
    }
  }

  // ---------- the recorder as the source runs it ----------

  /** What reaches the recorder; which keys a sweep visits first is up to the hash map. */
  datatype Event = Registered(reg: RegisterEvent) | SendReported(key: Key, failed: bool) | MatchSeen(sig: Signature) | Tick(now: nat)

  /** `step` handles `event`, in some order of iteration. */
  predicate Handles(step: Step, event: Event) {
    match event
    case Registered(reg) => step == Register(reg)
    case SendReported(key, failed) => step == SendDone(key, failed)
    case MatchSeen(sig) => step == Match(sig)
    case Tick(now) => step.Sweep? && step.now == now
  }

  lemma {:induction false} ExpirySnoc(x: State, order: seq<Key>, key: Key, now: nat)
    ensures var before := RetireExpired(x, order, now);
            RetireExpired(x, order + [key], now) ==
            if key in before.attempts && before.attempts[key].deadlineAt <= now then Retire(before, key, UnknownPending) else before
  {
    assert (order + [key])[..|order|] == order;
  }

  lemma {:induction false} FlushSnoc(x: State, order: seq<Key>, key: Key)
    ensures var before := Flush(x, order);
            Flush(x, order + [key]) == if key in before.attempts then Retire(before, key, UnknownPending) else before
  {
    assert (order + [key])[..|order|] == order;
  }

  class FanoutRecorder {
    const deadline: nat
    var attempts: map<Key, Attempt>
    var sigToKey: map<Signature, Key>
    var agg: Aggregate
    var records: seq<TriggerRecord>

    ghost function Value(): State
      reads this
    {
      State(attempts, sigToKey, agg, records)
    }

    constructor (deadline: nat)
      ensures Value() == INITIAL && this.deadline == deadline
    {
      this.deadline := deadline;
      attempts, sigToKey, agg, records := map[], map[], Aggregate({}, {}, map[], NO_STATS), [];
    }

    method HandleRegister(reg: RegisterEvent)
      modifies this
      ensures Value() == Next(deadline, old(Value()), Register(reg))
    {
      agg := RecordRegister(agg, reg);
      sigToKey := sigToKey[reg.signature := reg.Key()];
      attempts := attempts[reg.Key() := Attempt(reg, false, reg.observedAt + deadline)];
    }

    /** The common end of an attempt: out of both maps, one record, one outcome counted. */
    method Finalize(key: Key, o: FinalOutcome)
      requires key in attempts
      modifies this
      ensures Value() == Retire(old(Value()), key, o)
    {
      var att := attempts[key];
      attempts := attempts - {key};
      sigToKey := sigToKey - {att.register.signature};
      records := records + [TriggerRecord(att.register, att.sent, o)];
      agg := RecordOutcome(agg, att.register.Key(), o);
    }

    method HandleSend(key: Key, failed: bool)
      modifies this
      ensures Value() == Next(deadline, old(Value()), SendDone(key, failed))
    {
      if key !in attempts {
        return;
      }
      attempts := attempts[key := attempts[key].(sent := true)];
      if failed {
        Finalize(key, SendError);
      }
    }

    method HandleMatch(sig: Signature)
      modifies this
      ensures Value() == Next(deadline, old(Value()), Match(sig))
    {
      if sig !in sigToKey {
        return;
      }
      var key := sigToKey[sig];
      if key !in attempts {
        sigToKey := sigToKey - {sig};
        return;
      }
      Finalize(key, Landed);
    }

    method SweepDeadlines(now: nat) returns (ghost order: seq<Key>)
      modifies this
      ensures Value() == Next(deadline, old(Value()), Sweep(now, order))
      ensures forall k :: k in attempts <==> k in old(attempts) && old(attempts)[k].deadlineAt > now
    {
      order := [];
      ghost var x := Value();
      var expired := set k | k in attempts && attempts[k].deadlineAt <= now;
      while expired != {}
        invariant Value() == RetireExpired(x, order, now)
        invariant forall k :: k in expired ==> k in attempts && attempts[k].deadlineAt <= now
        invariant forall k :: k in expired ==> k in x.attempts && x.attempts[k].deadlineAt <= now
        invariant forall k :: k in attempts <==> k in x.attempts && (x.attempts[k].deadlineAt > now || k in expired)
        decreases |expired|
      {
        var key :| key in expired;
        expired := expired - {key};
        ExpirySnoc(x, order, key, now);
        Finalize(key, UnknownPending);
        order := order + [key];
      }
    }

    method FinalFlush() returns (ghost order: seq<Key>)
      modifies this
      ensures Value() == Flush(old(Value()), order) && attempts == map[]
    {
      order := [];
      ghost var x := Value();
      var keys := attempts.Keys;
      while keys != {}
        invariant Value() == Flush(x, order) && attempts.Keys == keys
        decreases |keys|
      {
        var key :| key in keys;
        keys := keys - {key};
        FlushSnoc(x, order, key);
        Finalize(key, UnknownPending);
        order := order + [key];
      }
    }

    /** `run_loop`: the three channels and the sweeps in any interleaving, and the final flush. */
    method RunLoop(events: seq<Event>) returns (ghost steps: seq<Step>, ghost order: seq<Key>)
      requires Value() == INITIAL
      modifies this
      ensures |steps| == |events| && forall i :: 0 <= i < |steps| ==> Handles(steps[i], events[i])
      ensures Value() == Finish(deadline, steps, order) && attempts == map[]
    {
      steps := [];
      for i := 0 to |events|
        invariant |steps| == i && forall j :: 0 <= j < i ==> Handles(steps[j], events[j])
        invariant Value() == Run(deadline, steps)
      {
        ghost var step: Step;
        match events[i] {
          case Registered(reg) =>
            step := Register(reg);
            HandleRegister(reg);
          case SendReported(key, failed) =>
            step := SendDone(key, failed);
            HandleSend(key, failed);
          case MatchSeen(sig) =>
            step := Match(sig);
            HandleMatch(sig);
          case Tick(now) =>
            ghost var visited := SweepDeadlines(now);
            step := Sweep(now, visited);
        }
        assert (steps + [step])[..i] == steps;
        steps := steps + [step];
      }
      order := FinalFlush();
    }
  }
}
