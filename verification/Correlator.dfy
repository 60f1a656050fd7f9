/**
 The entry correlator (crates/entry-comparator/src/correlator.rs): pairs what Yellowstone
 and ShredStream report about the same (slot, hash), in whatever order it arrives.

 Different keys never touch each other, so the specification follows one key: what is
 waiting for it and which records it has produced. The class is proved against that
 specification for every key at once, whatever order the hash map is swept in.
 */
module Correlator {
  import opened Entries

  type Key = (nat, Hash)

  function KeyOf(obs: EntryObservation): Key {
    (obs.slot, obs.entryHash)
  }

  datatype MatchState = MatchState(
    yellowstone: Option<EntryObservation>,
    shredstream: Option<EntryObservation>,
    insertedAt: nat)

  datatype Source = Both | YsOnly | SsOnly

  datatype DiffRecord = DiffRecord(
    slot: nat,
    entryIndex: nat,
    numHashes: nat,
    source: Source,
    ysObservedAt: Option<nat>,
    ssObservedAt: Option<nat>,
    ysHash: Option<Hash>,
    ssHash: Option<Hash>,
    ysTxCount: Option<nat>,
    ssTxCount: Option<nat>,
    hashMatch: bool,
    sigSetMatch: Option<bool>,
    ysSignatures: seq<Signature>,
    ssSignatures: seq<Signature>)

  /** Comparing two sorted vectors is comparing them as multisets. */
  function SigSetMatch(y: EntryObservation, s: EntryObservation): Option<bool> {
    if y.signatures != [] && s.signatures != [] then Some(multiset(y.signatures) == multiset(s.signatures)) else None
  }

  /** `emit`; the arm for a state with no side is unreachable. */
  function RecordOf(ys: Option<EntryObservation>, ss: Option<EntryObservation>): DiffRecord
    requires ys.Some? || ss.Some?
  {
    var any := if ys.Some? then ys.value else ss.value;
    DiffRecord(
      any.slot, any.entryIndex, any.numHashes,
      if ys.Some? && ss.Some? then Both else if ys.Some? then YsOnly else SsOnly,
      if ys.Some? then Some(ys.value.observedAt) else None,
      if ss.Some? then Some(ss.value.observedAt) else None,
      if ys.Some? then Some(ys.value.entryHash) else None,
      if ss.Some? then Some(ss.value.entryHash) else None,
      if ys.Some? then Some(ys.value.txCount) else None,
      if ss.Some? then Some(ss.value.txCount) else None,
      ys.Some? && ss.Some? && ys.value.entryHash == ss.value.entryHash,
      if ys.Some? && ss.Some? then SigSetMatch(ys.value, ss.value) else None,
      if ys.Some? then ys.value.signatures else [],
      if ss.Some? then ss.value.signatures else [])
  }

  datatype Step = Observe(obs: EntryObservation, at: nat) | Sweep(now: nat)

  // ---------- one key ----------

  datatype View = View(waiting: Option<MatchState>, records: seq<DiffRecord>)

  const NOTHING := View(None, [])

  /** A stored state has exactly one side, filed under its own key: `emit` never meets an empty one. */
  predicate OneSided(st: MatchState, key: Key) {
    && (st.yellowstone.Some? <==> st.shredstream.None?)
    && (st.yellowstone.Some? ==> KeyOf(st.yellowstone.value) == key)
    && (st.shredstream.Some? ==> KeyOf(st.shredstream.value) == key)
  }

  predicate Proper(v: View, key: Key) {
    v.waiting.Some? ==> OneSided(v.waiting.value, key)
  }

  function WithSide(st: MatchState, obs: EntryObservation): MatchState {
    match obs.source
    case Yellowstone => st.(yellowstone := Some(obs))
    case ShredStream => st.(shredstream := Some(obs))
  }

  predicate Expires(st: MatchState, now: nat, deadline: nat) {
    SatSub(now, st.insertedAt) >= deadline
  }

  function Next(deadline: nat, v: View, step: Step, key: Key): (w: View)
    requires Proper(v, key)
    ensures Proper(w, key)
  {
    match step
    case Observe(obs, at) =>
      if KeyOf(obs) != key then v
      else
        var st := WithSide(if v.waiting.Some? then v.waiting.value else MatchState(None, None, at), obs);
        if st.yellowstone.Some? && st.shredstream.Some?
        then View(None, v.records + [RecordOf(st.yellowstone, st.shredstream)])
        else v.(waiting := Some(st))
    case Sweep(now) =>
      if v.waiting.Some? && Expires(v.waiting.value, now, deadline)
      then View(None, v.records + [RecordOf(v.waiting.value.yellowstone, v.waiting.value.shredstream)])
      else v
  }

  function Run(deadline: nat, steps: seq<Step>, key: Key): (v: View)
    ensures Proper(v, key)
  {
    if steps == [] then NOTHING
    else Next(deadline, Run(deadline, steps[..|steps| - 1], key), steps[|steps| - 1], key)
  }

  /** The flush at shutdown is a sweep with deadline 0. */
  function Finish(deadline: nat, steps: seq<Step>, key: Key): seq<DiffRecord> {
    Next(0, Run(deadline, steps, key), Sweep(0), key).records
  }

  // ---------- what arrived ----------

  /** The observation of `key` by `source`. */
  function Seen(steps: seq<Step>, key: Key, source: SourceKind): Option<EntryObservation> {
    if steps == [] then None
    else
      var last := steps[|steps| - 1];
      if last.Observe? && KeyOf(last.obs) == key && last.obs.source == source then Some(last.obs)
      else Seen(steps[..|steps| - 1], key, source)
  }

  /** Each source reports the key at most once. */
  predicate Once(steps: seq<Step>, key: Key) {
    steps != [] ==>
      var init, last := steps[..|steps| - 1], steps[|steps| - 1];
      Once(init, key) && (last.Observe? && KeyOf(last.obs) == key ==> Seen(init, key, last.obs.source).None?)
  }

  /** When the first observation of the key came in. */
  function FirstAt(steps: seq<Step>, key: Key): Option<nat> {
    if steps == [] then None
    else
      var before, last := FirstAt(steps[..|steps| - 1], key), steps[|steps| - 1];
      if before.None? && last.Observe? && KeyOf(last.obs) == key then Some(last.at) else before
  }

  /** A sweep has found the first observation of the key older than the deadline. */
  predicate Stale(deadline: nat, steps: seq<Step>, key: Key) {
    steps != [] &&
    var init, last := steps[..|steps| - 1], steps[|steps| - 1];
    Stale(deadline, init, key)
    || (last.Sweep? && FirstAt(init, key).Some? && SatSub(last.now, FirstAt(init, key).value) >= deadline)
  }

  /** The partner of an observation never comes after the observation has expired. */
  predicate PartnersInTime(deadline: nat, steps: seq<Step>, key: Key) {
    steps != [] ==>
      var init, last := steps[..|steps| - 1], steps[|steps| - 1];
      PartnersInTime(deadline, init, key)
      && (last.Observe? && KeyOf(last.obs) == key && FirstAt(init, key).Some? ==> !Stale(deadline, init, key))
  }

  /** The join: one record per key that was reported at all, from what each source reported. */
  function Join(steps: seq<Step>, key: Key): seq<DiffRecord> {
    var ys, ss := Seen(steps, key, Yellowstone), Seen(steps, key, ShredStream);
    if ys.Some? || ss.Some? then [RecordOf(ys, ss)] else []
  }

  // ---------- the join theorem ----------

  predicate Joining(deadline: nat, v: View, steps: seq<Step>, key: Key) {
    var ys, ss := Seen(steps, key, Yellowstone), Seen(steps, key, ShredStream);
    && (FirstAt(steps, key).Some? <==> ys.Some? || ss.Some?)
    && if v.waiting.Some? then
         && v.records == [] && ys == v.waiting.value.yellowstone && ss == v.waiting.value.shredstream
         && FirstAt(steps, key) == Some(v.waiting.value.insertedAt)
         && !Stale(deadline, steps, key)
       else
         && v.records == Join(steps, key)
         && (ys.Some? || ss.Some? ==> (ys.Some? && ss.Some?) || Stale(deadline, steps, key))
  }

  lemma {:induction false} NotStaleUnseen(deadline: nat, steps: seq<Step>, key: Key)
    requires FirstAt(steps, key).None?
    ensures !Stale(deadline, steps, key)
  {
    if steps != [] {
      NotStaleUnseen(deadline, steps[..|steps| - 1], key);
    }
  }

  lemma {:induction false} RunJoins(deadline: nat, steps: seq<Step>, key: Key)
    requires Once(steps, key) && PartnersInTime(deadline, steps, key)
    ensures Joining(deadline, Run(deadline, steps, key), steps, key)
  {
    if steps != [] {
      var init, last := steps[..|steps| - 1], steps[|steps| - 1];
      RunJoins(deadline, init, key);
      if FirstAt(init, key).None? {
        NotStaleUnseen(deadline, init, key);
      }
    }
  }

  /**
   The correlator join: if each source reports the key at most once and nothing expires
   before its partner arrives, every interleaving of the two streams, with sweeps anywhere,
   ends with the same record: BOTH, YS_ONLY or SS_ONLY by who reported the key, or none.
   */
  lemma {:induction false} EveryInterleavingJoins(deadline: nat, steps: seq<Step>, key: Key)
    requires Once(steps, key) && PartnersInTime(deadline, steps, key)
    ensures Finish(deadline, steps, key) == Join(steps, key)
  {
    RunJoins(deadline, steps, key);
  }

  lemma {:induction false} LatePartnerSplits(deadline: nat, steps: seq<Step>, key: Key)
    requires Once(steps, key) && !PartnersInTime(deadline, steps, key)
    ensures var v := Run(deadline, steps, key); |v.records| + (if v.waiting.Some? then 1 else 0) == 2
    ensures Seen(steps, key, Yellowstone).Some? && Seen(steps, key, ShredStream).Some?
  {
    var init, last := steps[..|steps| - 1], steps[|steps| - 1];
    if PartnersInTime(deadline, init, key) {
      RunJoins(deadline, init, key);
    } else {
      LatePartnerSplits(deadline, init, key);
    }
  }

  /** The join is right exactly when partners come in time; otherwise the pair is split into two records. */
  lemma {:induction false} JoinsExactlyWhenInTime(deadline: nat, steps: seq<Step>, key: Key)
    requires Once(steps, key)
    ensures Finish(deadline, steps, key) == Join(steps, key) <==> PartnersInTime(deadline, steps, key)
    ensures !PartnersInTime(deadline, steps, key) ==> |Finish(deadline, steps, key)| == 2
  {
    if PartnersInTime(deadline, steps, key) {
      EveryInterleavingJoins(deadline, steps, key);
    } else {
      LatePartnerSplits(deadline, steps, key);
    }
  }

  /** What a record of this key says about its sides. */
  predicate Truthful(r: DiffRecord, key: Key) {
    && r.slot == key.0
    && (r.source.Both? <==> r.hashMatch)
    && (r.source.Both? ==> r.ysHash == r.ssHash == Some(key.1))
    && (r.source.YsOnly? ==> r.ysHash == Some(key.1) && r.ssHash.None?)
    && (r.source.SsOnly? ==> r.ssHash == Some(key.1) && r.ysHash.None?)
  }

  lemma NextIsTruthful(deadline: nat, v: View, step: Step, key: Key)
    requires Proper(v, key) && forall r :: r in v.records ==> Truthful(r, key)
    ensures forall r :: r in Next(deadline, v, step, key).records ==> Truthful(r, key)
  {
  }

  lemma {:induction false} RunIsTruthful(deadline: nat, steps: seq<Step>, key: Key)
    ensures forall r :: r in Run(deadline, steps, key).records ==> Truthful(r, key)
  {
    if steps != [] {
      RunIsTruthful(deadline, steps[..|steps| - 1], key);
      NextIsTruthful(deadline, Run(deadline, steps[..|steps| - 1], key), steps[|steps| - 1], key);
    }
  }

  /**
   In every run, flush included, every BOTH record pairs two observations of this key, so
   its hashes match, and every other record carries the one side it is named after.
   */
  lemma {:induction false} BothRecordsMatch(deadline: nat, steps: seq<Step>, key: Key)
    ensures forall r :: r in Run(deadline, steps, key).records ==> Truthful(r, key)
    ensures forall r :: r in Finish(deadline, steps, key) ==> Truthful(r, key)
  {
    RunIsTruthful(deadline, steps, key);
    NextIsTruthful(0, Run(deadline, steps, key), Sweep(0), key);
  }

  // ---------- what the fields of a record are ----------

  /** This source reported this observation of the key. */
  predicate Came(steps: seq<Step>, key: Key, source: SourceKind, obs: EntryObservation) {
    steps != [] &&
    var last := steps[|steps| - 1];
    || (last.Observe? && last.obs == obs && obs.slot == key.0 && obs.entryHash == key.1 && obs.source == source)
    || Came(steps[..|steps| - 1], key, source, obs)
  }

  function Occurrences(s: seq<Signature>, x: Signature): nat {
    if s == [] then 0 else Occurrences(s[..|s| - 1], x) + OneIf(s[|s| - 1] == x)
  }

  ghost predicate Permutation(a: seq<Signature>, b: seq<Signature>) {
    forall x :: Occurrences(a, x) == Occurrences(b, x)
  }

  lemma {:induction false} OccurrencesInMultiset(s: seq<Signature>, x: Signature)
    ensures multiset(s)[x] == Occurrences(s, x)
  {
    if s != [] {
      OccurrencesInMultiset(s[..|s| - 1], x);
      assert s == s[..|s| - 1] + [s[|s| - 1]];
    }
  }

  lemma PermutationExactly(a: seq<Signature>, b: seq<Signature>)
    ensures multiset(a) == multiset(b) <==> Permutation(a, b)
  {
    forall x ensures multiset(a)[x] == Occurrences(a, x) && multiset(b)[x] == Occurrences(b, x) {
      OccurrencesInMultiset(a, x);
      OccurrencesInMultiset(b, x);
    }
  }

  /** The fields that belong to one source are those of its observation, and absent without one. */
  predicate CarriesSide(side: Option<EntryObservation>, observedAt: Option<nat>, hash: Option<Hash>, txCount: Option<nat>,
                        signatures: seq<Signature>) {
    match side
    case Some(o) => observedAt == Some(o.observedAt) && hash == Some(o.entryHash) && txCount == Some(o.txCount) && signatures == o.signatures
    case None => observedAt == None && hash == None && txCount == None && signatures == []
  }

  /** The record of one Yellowstone observation, one ShredStream observation, or one of each. */
  ghost predicate Describes(r: DiffRecord, ys: Option<EntryObservation>, ss: Option<EntryObservation>) {
    && CarriesSide(ys, r.ysObservedAt, r.ysHash, r.ysTxCount, r.ysSignatures)
    && CarriesSide(ss, r.ssObservedAt, r.ssHash, r.ssTxCount, r.ssSignatures)
    && (r.source == YsOnly <==> ss.None?) && (r.source == SsOnly <==> ys.None?)
    && (ys.Some? ==> r.slot == ys.value.slot && r.entryIndex == ys.value.entryIndex && r.numHashes == ys.value.numHashes)
    && (ys.None? && ss.Some? ==>
          r.slot == ss.value.slot && r.entryIndex == ss.value.entryIndex && r.numHashes == ss.value.numHashes)
    && (r.sigSetMatch.Some? <==> r.ysSignatures != [] && r.ssSignatures != [])
    && (r.sigSetMatch.Some? ==> (r.sigSetMatch.value <==> Permutation(r.ysSignatures, r.ssSignatures)))
  }

  ghost predicate Genuine(steps: seq<Step>, key: Key, r: DiffRecord, ys: Option<EntryObservation>, ss: Option<EntryObservation>) {
    && (ys.Some? || ss.Some?) && Describes(r, ys, ss)
    && (ys.Some? ==> Came(steps, key, Yellowstone, ys.value))
    && (ss.Some? ==> Came(steps, key, ShredStream, ss.value))
  }

  lemma RecordDescribes(ys: Option<EntryObservation>, ss: Option<EntryObservation>)
    requires ys.Some? || ss.Some?
    ensures Describes(RecordOf(ys, ss), ys, ss)
  {
    if ys.Some? && ss.Some? {
      PermutationExactly(ys.value.signatures, ss.value.signatures);
    }
  }

  /** The sides of a waiting state are the latest observations of the key, source by source. */
  lemma {:induction false} WaitingIsLatest(deadline: nat, steps: seq<Step>, key: Key)
    ensures var w := Run(deadline, steps, key).waiting;
            w.Some? ==>
              && (w.value.yellowstone.Some? ==> w.value.yellowstone == Seen(steps, key, Yellowstone))
              && (w.value.shredstream.Some? ==> w.value.shredstream == Seen(steps, key, ShredStream))
  {
    if steps != [] {
      WaitingIsLatest(deadline, steps[..|steps| - 1], key);
    }
  }

  lemma {:induction false} SeenCame(steps: seq<Step>, key: Key, source: SourceKind)
    ensures Seen(steps, key, source).Some? ==> Came(steps, key, source, Seen(steps, key, source).value)
  {
    if steps != [] {
      SeenCame(steps[..|steps| - 1], key, source);
    }
  }

  /** The sides of the record that a step writes for the key, if it writes one. */
  lemma {:induction false} WrittenIsGenuine(deadline: nat, steps: seq<Step>, step: Step, key: Key)
      returns (ys: Option<EntryObservation>, ss: Option<EntryObservation>)
    ensures var v := Run(deadline, steps, key);
            forall limit :: var w := Next(limit, v, step, key);
              w.records == v.records
              || (|w.records| == |v.records| + 1 && w.records[..|v.records|] == v.records
                  && Genuine(steps + [step], key, w.records[|v.records|], ys, ss))
  {
    var v := Run(deadline, steps, key);
    var all := steps + [step];
    assert all[..|steps|] == steps;
    WaitingIsLatest(deadline, steps, key);
    SeenCame(steps, key, Yellowstone);
    SeenCame(steps, key, ShredStream);
    var st := if v.waiting.Some? then v.waiting.value else MatchState(None, None, 0);
    ys, ss := st.yellowstone, st.shredstream;
    if step.Observe? && KeyOf(step.obs) == key {
      if step.obs.source == Yellowstone { ys := Some(step.obs); } else { ss := Some(step.obs); }
    }
    if ys.Some? || ss.Some? {
      RecordDescribes(ys, ss);
    }
  }

  lemma {:induction false} CameEarlier(steps: seq<Step>, step: Step, key: Key, r: DiffRecord,
                                       ys: Option<EntryObservation>, ss: Option<EntryObservation>)
    requires Genuine(steps, key, r, ys, ss)
    ensures Genuine(steps + [step], key, r, ys, ss)
  {
    assert (steps + [step])[..|steps|] == steps;
  }

  /**
   In every run, every record of the key describes observations of this key that came: its
   ys fields are those of one Yellowstone observation, its ss fields those of one
   ShredStream observation, absent where there is none.
   */
  lemma {:induction false} RecordsAreGenuine(deadline: nat, steps: seq<Step>, key: Key, i: nat)
      returns (ys: Option<EntryObservation>, ss: Option<EntryObservation>)
    requires i < |Run(deadline, steps, key).records|
    ensures Genuine(steps, key, Run(deadline, steps, key).records[i], ys, ss)
  {
    var init, last := steps[..|steps| - 1], steps[|steps| - 1];
    assert steps == init + [last];
    var before := Run(deadline, init, key).records;
    ys, ss := WrittenIsGenuine(deadline, init, last, key);
    assert Run(deadline, steps, key) == Next(deadline, Run(deadline, init, key), last, key);
    if i < |before| {
      ys, ss := RecordsAreGenuine(deadline, init, key, i);
      CameEarlier(init, last, key, before[i], ys, ss);
    }
  }

  /** The same of the records after the flush. */
  lemma {:induction false} FlushedRecordsAreGenuine(deadline: nat, steps: seq<Step>, key: Key, i: nat)
      returns (ys: Option<EntryObservation>, ss: Option<EntryObservation>)
    requires i < |Finish(deadline, steps, key)|
    ensures Genuine(steps + [Sweep(0)], key, Finish(deadline, steps, key)[i], ys, ss)
  {
    var before := Run(deadline, steps, key).records;
    ys, ss := WrittenIsGenuine(deadline, steps, Sweep(0), key);
    if i < |before| {
      ys, ss := RecordsAreGenuine(deadline, steps, key, i);
      CameEarlier(steps, Sweep(0), key, before[i], ys, ss);
    }
  }

  /** A repeated observation of the side that is waiting replaces it and does not restart its clock. */
  lemma RepeatKeepsTheClock(deadline: nat, v: View, obs: EntryObservation, at: nat, key: Key)
    requires Proper(v, key) && v.waiting.Some? && KeyOf(obs) == key
    requires if obs.source == Yellowstone then v.waiting.value.shredstream.None? else v.waiting.value.yellowstone.None?
    ensures var w := Next(deadline, v, Observe(obs, at), key);
            && w.records == v.records && w.waiting.Some?
            && w.waiting.value.insertedAt == v.waiting.value.insertedAt
            && w.waiting.value.yellowstone == (if obs.source == Yellowstone then Some(obs) else None)
            && w.waiting.value.shredstream == (if obs.source == ShredStream then Some(obs) else None)
  {
  }

  // ---------- the correlator as the source runs it ----------

  /** The records of one key among all that were sent. */
  function Of(key: Key, out: seq<DiffRecord>): seq<DiffRecord> {
    if out == [] then []
    else
      var init, last := out[..|out| - 1], out[|out| - 1];
      if RecordKey(last) == Some(key) then Of(key, init) + [last] else Of(key, init)
  }

  function RecordKey(r: DiffRecord): Option<Key> {
    if r.ysHash.Some? then Some((r.slot, r.ysHash.value))
    else if r.ssHash.Some? then Some((r.slot, r.ssHash.value)) else None
  }

  lemma {:induction false} OfSnoc(key: Key, out: seq<DiffRecord>, r: DiffRecord)
    ensures Of(key, out + [r]) == if RecordKey(r) == Some(key) then Of(key, out) + [r] else Of(key, out)
  {
    assert (out + [r])[..|out|] == out;
  }

  ghost predicate Filed(table: map<Key, MatchState>) {
    forall key :: key in table ==> OneSided(table[key], key)
  }

  ghost function ViewIn(table: map<Key, MatchState>, out: seq<DiffRecord>, key: Key): View {
    View(if key in table then Some(table[key]) else None, Of(key, out))
  }

  /** Sending the record of a removed state is seen by its key alone. */
  lemma {:induction false} SendFor(table: map<Key, MatchState>, out: seq<DiffRecord>, k: Key, st: MatchState, key: Key)
    requires st.yellowstone.Some? || st.shredstream.Some?
    requires st.yellowstone.Some? ==> KeyOf(st.yellowstone.value) == k
    requires st.shredstream.Some? ==> KeyOf(st.shredstream.value) == k
    ensures var r := RecordOf(st.yellowstone, st.shredstream);
            ViewIn(table - {k}, out + [r], key) ==
            if key == k then View(None, Of(key, out) + [r]) else ViewIn(table, out, key)
  {
    OfSnoc(key, out, RecordOf(st.yellowstone, st.shredstream));
  }

  class EntryCorrelator {
    const deadline: nat
    var table: map<Key, MatchState>
    var out: seq<DiffRecord>

    ghost predicate Valid()
      reads this
    {
      Filed(table)
    }

    ghost function ViewOf(key: Key): View
      reads this
    {
      ViewIn(table, out, key)
    }

    constructor (deadline: nat)
      ensures Valid() && this.deadline == deadline
      ensures forall key :: ViewOf(key) == NOTHING
    {
      this.deadline := deadline;
      table, out := map[], [];
    }

    /** Removes a state from the table and sends its record. */
    method Emit(k: Key, st: MatchState)
      requires st.yellowstone.Some? || st.shredstream.Some?
      requires st.yellowstone.Some? ==> KeyOf(st.yellowstone.value) == k
      requires st.shredstream.Some? ==> KeyOf(st.shredstream.value) == k
      modifies this
      ensures table == old(table) - {k}
      ensures forall key :: ViewOf(key) ==
                            if key == k then View(None, ViewIn(old(table), old(out), key).records + [RecordOf(st.yellowstone, st.shredstream)])
                            else ViewIn(old(table), old(out), key)
    {
      forall key
        ensures ViewIn(table - {k}, out + [RecordOf(st.yellowstone, st.shredstream)], key) ==
                if key == k then View(None, ViewOf(key).records + [RecordOf(st.yellowstone, st.shredstream)]) else ViewOf(key)
      {
        SendFor(table, out, k, st, key);
      }
      table := table - {k};
      out := out + [RecordOf(st.yellowstone, st.shredstream)];
    }

    method Handle(obs: EntryObservation, at: nat)
      requires Valid()
      modifies this
      ensures Valid()
      ensures forall key :: Proper(ViewIn(old(table), old(out), key), key)
      ensures forall key :: ViewOf(key) == Next(deadline, ViewIn(old(table), old(out), key), Observe(obs, at), key)
    {
      var k := KeyOf(obs);
      var st := if k in table then table[k] else MatchState(None, None, at);
      match obs.source {
        case Yellowstone => st := st.(yellowstone := Some(obs));
        case ShredStream => st := st.(shredstream := Some(obs));
      }
      if st.yellowstone.Some? && st.shredstream.Some? {
        Emit(k, st);
      } else {
        table := table[k := st];
      }
    }

    /** Sweeps the expired states out, in whatever order the hash map yields them. */
    method SweepWith(now: nat, limit: nat)
      requires Valid()
      modifies this
      ensures Valid()
      ensures forall key :: Proper(ViewIn(old(table), old(out), key), key)
      ensures forall key :: ViewOf(key) == Next(limit, ViewIn(old(table), old(out), key), Sweep(now), key)
    {
      var scratch := set k | k in table && Expires(table[k], now, limit);
      while scratch != {}
        invariant Valid()
        invariant forall k :: k in scratch ==> k in table && Expires(table[k], now, limit)
        invariant forall key :: key in scratch ==> ViewOf(key) == ViewIn(old(table), old(out), key)
        invariant forall key :: key !in scratch ==> ViewOf(key) == Next(limit, ViewIn(old(table), old(out), key), Sweep(now), key)
        decreases |scratch|
      {
        var k :| k in scratch;
        scratch := scratch - {k};
        Emit(k, table[k]);
      }
    }

    /** `run_loop` over the observations of the two channels and the sweeps between them, and the flush. */
    method RunLoop(steps: seq<Step>)
      requires Valid() && forall key :: ViewOf(key) == NOTHING
      modifies this
      ensures forall key :: Of(key, out) == Finish(deadline, steps, key)
    {
      assert steps[..0] == [];
      for i := 0 to |steps|
        invariant Valid()
        invariant forall key :: ViewOf(key) == Run(deadline, steps[..i], key)
      {
        assert steps[..i + 1][..i] == steps[..i];
        match steps[i] {
          case Observe(obs, at) => Handle(obs, at);
          case Sweep(now) => SweepWith(now, deadline);
        }
      }
      assert steps[..|steps|] == steps;
      SweepWith(0, 0);
      assert forall key :: ViewOf(key).records == Of(key, out);
    }
  }
}
