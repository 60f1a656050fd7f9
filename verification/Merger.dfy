/**
 The two-source entry merger (crates/tick-trigger-fan-out-bench/src/merger.rs):
 first-seen-wins deduplication by (slot, hash) with a sliding window, and the per-slot
 index through which old keys are evicted.

 The reference is the history itself: which sources have reported a key so far.
 */
module Merger {
  import opened Entries
  import opened OrderedMaps

  const DEDUP_WINDOW_SLOTS: nat := 200

  type Key = (nat, Hash)

  datatype Arrival = Arrival(obs: EntryObservation, source: SourceKind)
  {
    function Key(): Key {
      (obs.slot, obs.entryHash)
    }
  }

  datatype DedupState = Primary(firstSource: SourceKind, firstSeenAt: nat) | Confirmed

  /** The output channel and the counters. */
  datatype Ledger = Ledger(
    out: seq<MergedEntry>,
    ssReceived: nat, ysReceived: nat,
    ssFirst: nat, ysFirst: nat,
    confirmedByBoth: nat, duplicates: nat)

  const EMPTY_LEDGER := Ledger([], 0, 0, 0, 0, 0, 0)

  datatype Verdict = First | Confirmation | Duplicate

  /** What an arrival adds to the output and the counters once it has been classified. */
  function Post(l: Ledger, a: Arrival, v: Verdict): Ledger {
    var got :=
      if a.source == ShredStream then l.(ssReceived := l.ssReceived + 1) else l.(ysReceived := l.ysReceived + 1);
    match v
    case First =>
      var sent := got.(out := got.out + [MergedEntry(a.obs, a.source)]);
      if a.source == ShredStream then sent.(ssFirst := sent.ssFirst + 1) else sent.(ysFirst := sent.ysFirst + 1)
    case Confirmation => got.(confirmedByBoth := got.confirmedByBoth + 1)
    case Duplicate => got.(duplicates := got.duplicates + 1)
  }

  // ---------- the windowed merger ----------

  datatype State = State(dedup: map<Key, DedupState>, maxSlot: nat, ledger: Ledger)

  const INITIAL := State(map[], 0, EMPTY_LEDGER)

  function Judge(dedup: map<Key, DedupState>, a: Arrival): Verdict {
    if a.Key() !in dedup then First
    else if dedup[a.Key()].Primary? && dedup[a.Key()].firstSource != a.source then Confirmation
    else Duplicate
  }

  function Remember(dedup: map<Key, DedupState>, a: Arrival): map<Key, DedupState> {
    match Judge(dedup, a)
    case First => dedup[a.Key() := Primary(a.source, a.obs.observedAt)]
    case Confirmation => dedup[a.Key() := Confirmed]
    case Duplicate => dedup
  }

  /** Eviction as the documentation states it: keys of slots below the cutoff go. */
  function KeepFrom<V>(m: map<Key, V>, cutoff: nat): map<Key, V> {
    map k | k in m && k.0 >= cutoff :: m[k]
  }

  /** The frontier moves, and the window with it, only when a higher slot arrives. */
  function Cutoff(maxSlot: nat, slot: nat): nat {
    if slot > maxSlot then SatSub(slot, DEDUP_WINDOW_SLOTS) else 0
  }

  function Accept(x: State, a: Arrival): State {
    State(
      KeepFrom(Remember(x.dedup, a), Cutoff(x.maxSlot, a.obs.slot)),
      Max(x.maxSlot, a.obs.slot),
      Post(x.ledger, a, Judge(x.dedup, a)))
  }

  function Run(hist: seq<Arrival>): State {
    if hist == [] then INITIAL else Accept(Run(hist[..|hist| - 1]), hist[|hist| - 1])
  }

  // ---------- the reference: unbounded history ----------

  /** The sources that have reported `key`. */
  function SeenBy(hist: seq<Arrival>, key: Key): set<SourceKind> {
    if hist == [] then {}
    else
      var before, last := SeenBy(hist[..|hist| - 1], key), hist[|hist| - 1];
      if last.Key() == key then before + {last.source} else before
  }

  function TrueVerdict(hist: seq<Arrival>, a: Arrival): Verdict {
    var seen := SeenBy(hist, a.Key());
    if seen == {} then First else if a.source !in seen then Confirmation else Duplicate
  }

  /** The arrivals from one source. */
  function ArrivalsFrom(hist: seq<Arrival>, source: SourceKind): nat {
    if hist == [] then 0
    else ArrivalsFrom(hist[..|hist| - 1], source) + OneIf(hist[|hist| - 1].source == source)
  }

  /** The first copy of every key, as it arrived. */
  function FirstCopies(hist: seq<Arrival>): seq<MergedEntry> {
    if hist == [] then []
    else
      var init, a := hist[..|hist| - 1], hist[|hist| - 1];
      FirstCopies(init) + if SeenBy(init, a.Key()) == {} then [MergedEntry(a.obs, a.source)] else []
  }

  /** The keys whose first copy came from one source. */
  function FirstsFrom(hist: seq<Arrival>, source: SourceKind): nat {
    if hist == [] then 0
    else
      var init, a := hist[..|hist| - 1], hist[|hist| - 1];
      FirstsFrom(init, source) + OneIf(SeenBy(init, a.Key()) == {} && a.source == source)
  }

  function KeysSeen(hist: seq<Arrival>): set<Key> {
    if hist == [] then {} else KeysSeen(hist[..|hist| - 1]) + {hist[|hist| - 1].Key()}
  }

  /** The keys that both sources have reported. */
  function SeenByBoth(hist: seq<Arrival>): set<Key> {
    set key | key in KeysSeen(hist) && SeenBy(hist, key) == {Yellowstone, ShredStream}
  }

  /** Arrivals that repeat what their source has already reported. */
  function RepeatsOf(hist: seq<Arrival>): nat {
    if hist == [] then 0
    else
      var init, a := hist[..|hist| - 1], hist[|hist| - 1];
      RepeatsOf(init) + OneIf(a.source in SeenBy(init, a.Key()))
  }

  /** What plain, unbounded first-seen-wins deduplication sends and counts. */
  function Reference(hist: seq<Arrival>): Ledger {
    Ledger(
      FirstCopies(hist),
      ArrivalsFrom(hist, ShredStream), ArrivalsFrom(hist, Yellowstone),
      FirstsFrom(hist, ShredStream), FirstsFrom(hist, Yellowstone),
      |SeenByBoth(hist)|, RepeatsOf(hist))
  }

  // ---------- the window, from the arrivals alone ----------

  /** The highest slot that has arrived. */
  function Frontier(hist: seq<Arrival>): nat {
    if hist == [] then 0 else Max(Frontier(hist[..|hist| - 1]), hist[|hist| - 1].obs.slot)
  }

  /** The key has arrived, and since then no arrival has moved the frontier more than 200 slots past it. */
  predicate Remembered(hist: seq<Arrival>, key: Key) {
    hist != [] &&
    var init, a := hist[..|hist| - 1], hist[|hist| - 1];
    || a.Key() == key
    || (Remembered(init, key) && !(a.obs.slot > Frontier(init) && a.obs.slot > key.0 + 200))
  }

  /** The last arrival repeats a key that has fallen out of the window. */
  predicate Forgotten(hist: seq<Arrival>, a: Arrival) {
    SeenBy(hist, a.Key()) != {} && !Remembered(hist, a.Key())
  }

  function ForgottenCount(hist: seq<Arrival>): nat {
    if hist == [] then 0
    else
      var init, last := hist[..|hist| - 1], hist[|hist| - 1];
      ForgottenCount(init) + if Forgotten(init, last) then 1 else 0
  }

  // ---------- refinement ----------

  /** The dedup map holds exactly the remembered keys. */
  lemma {:induction false} DedupIsRemembered(hist: seq<Arrival>, key: Key)
    ensures key in Run(hist).dedup <==> Remembered(hist, key)
    ensures Run(hist).maxSlot == Frontier(hist)
  {
    if hist != [] {
      DedupIsRemembered(hist[..|hist| - 1], key);
    }
  }

  lemma {:induction false} SeenIsInKeys(hist: seq<Arrival>, key: Key)
    ensures SeenBy(hist, key) != {} <==> key in KeysSeen(hist)
    ensures SeenBy(hist, key) <= {Yellowstone, ShredStream}
  {
    if hist != [] {
      var init, a := hist[..|hist| - 1], hist[|hist| - 1];
      SeenIsInKeys(init, key);
      if a.Key() == key {
        assert a.source in SeenBy(hist, key);
      }
      assert a.source == Yellowstone || a.source == ShredStream;
    }
  }

  /** A key joins those seen by both sources with the arrival that confirms it. */
  lemma {:induction false} BothGrowsByConfirmation(hist: seq<Arrival>)
    requires hist != []
    ensures var init, a := hist[..|hist| - 1], hist[|hist| - 1];
            |SeenByBoth(hist)| == |SeenByBoth(init)| + OneIf(SeenBy(init, a.Key()) != {} && a.source !in SeenBy(init, a.Key()))
  {
    var init, a := hist[..|hist| - 1], hist[|hist| - 1];
    var key := a.Key();
    SeenIsInKeys(init, key);
    SeenIsInKeys(hist, key);
    var confirms := SeenBy(init, key) != {} && a.source !in SeenBy(init, key);
    assert SeenBy(hist, key) == SeenBy(init, key) + {a.source};
    forall k ensures k in SeenByBoth(hist) <==> k in SeenByBoth(init) || (confirms && k == key) {
      if k == key {
        OtherSource(a.source, SeenBy(init, key));
      }
    }
    if confirms {
      assert key !in SeenByBoth(init) by {
        assert a.source in {Yellowstone, ShredStream};
      }
      assert SeenByBoth(hist) == SeenByBoth(init) + {key};
    } else {
      assert SeenByBoth(hist) == SeenByBoth(init);
    }
  }

  lemma OtherSource(s: SourceKind, seen: set<SourceKind>)
    requires seen <= {Yellowstone, ShredStream}
    ensures seen + {s} == {Yellowstone, ShredStream} <==>
            seen == {Yellowstone, ShredStream} || (seen != {} && s !in seen)
  {
    assert s == Yellowstone || s == ShredStream;
    if seen != {} {
      var x :| x in seen;
      assert x == Yellowstone || x == ShredStream;
      if s !in seen {
        assert seen + {s} == {Yellowstone, ShredStream};
      } else {
        assert seen + {s} == seen;
      }
    }
  }

  /** One arrival changes the reference as its true verdict says. */
  lemma {:induction false} ReferenceStep(hist: seq<Arrival>)
    requires hist != []
    ensures var init, a := hist[..|hist| - 1], hist[|hist| - 1];
            Reference(hist) == Post(Reference(init), a, TrueVerdict(init, a))
  {
    BothGrowsByConfirmation(hist);
    var a := hist[|hist| - 1];
    assert a.source == Yellowstone || a.source == ShredStream;
  }

  predicate Agrees(st: DedupState, seen: set<SourceKind>) {
    match st
    case Primary(source, _) => seen == {source}
    case Confirmed => seen == {Yellowstone, ShredStream}
  }

  lemma {:induction false} DedupAgrees(hist: seq<Arrival>, key: Key)
    requires ForgottenCount(hist) == 0
    requires key in Run(hist).dedup
    ensures Agrees(Run(hist).dedup[key], SeenBy(hist, key))
  {
    if hist != [] {
      var init, a := hist[..|hist| - 1], hist[|hist| - 1];
      if key in Run(init).dedup {
        DedupAgrees(init, key);
      }
      DedupIsRemembered(init, key);
    }
  }

  lemma {:induction false} VerdictsAgree(hist: seq<Arrival>, a: Arrival)
    requires ForgottenCount(hist) == 0 && !Forgotten(hist, a)
    ensures Judge(Run(hist).dedup, a) == TrueVerdict(hist, a)
  {
    DedupIsRemembered(hist, a.Key());
    if a.Key() in Run(hist).dedup {
      DedupAgrees(hist, a.Key());
      assert a.source == Yellowstone || a.source == ShredStream;
    }
  }

  lemma {:induction false} LedgersAgree(hist: seq<Arrival>)
    requires ForgottenCount(hist) == 0
    ensures Run(hist).ledger == Reference(hist)
  {
    if hist != [] {
      var init := hist[..|hist| - 1];
      LedgersAgree(init);
      ReferenceStep(hist);
      VerdictsAgree(init, hist[|hist| - 1]);
    }
  }

  lemma {:induction false} EveryKeySeen(hist: seq<Arrival>, key: Key)
    requires Remembered(hist, key)
    ensures SeenBy(hist, key) != {}
  {
    if hist != [] {
      var init, a := hist[..|hist| - 1], hist[|hist| - 1];
      if key == a.Key() {
        assert a.source in SeenBy(hist, key);
      } else {
        EveryKeySeen(init, key);
      }
    }
  }

  /** In every run, the merger emits once per distinct key and once more per forgotten arrival. */
  lemma {:induction false} EmissionsAreFirstsAndForgotten(hist: seq<Arrival>)
    ensures |Run(hist).ledger.out| == |Reference(hist).out| + ForgottenCount(hist)
  {
    if hist != [] {
      var init, a := hist[..|hist| - 1], hist[|hist| - 1];
      EmissionsAreFirstsAndForgotten(init);
      DedupIsRemembered(init, a.Key());
      if Remembered(init, a.Key()) {
        EveryKeySeen(init, a.Key());
      }
    }
  }

  /**
   Windowed deduplication is unbounded deduplication (same emissions, same counters) if
   and only if no arrival repeats a key that has left the window.
   */
  lemma {:induction false} WindowedIsUnboundedExactly(hist: seq<Arrival>)
    ensures Run(hist).ledger == Reference(hist) <==> ForgottenCount(hist) == 0
  {
    EmissionsAreFirstsAndForgotten(hist);
    if ForgottenCount(hist) == 0 {
      LedgersAgree(hist);
    }
  }

  /** No arrival is more than 200 slots behind the frontier. */
  predicate NeverFarBehind(hist: seq<Arrival>) {
    hist != [] ==>
      var init, a := hist[..|hist| - 1], hist[|hist| - 1];
      NeverFarBehind(init) && Frontier(init) <= a.obs.slot + 200
  }

  lemma {:induction false} OnlyOldKeysLeave(hist: seq<Arrival>, key: Key)
    requires SeenBy(hist, key) != {} && !Remembered(hist, key)
    ensures key.0 + 200 < Frontier(hist)
  {
    if hist != [] {
      var init := hist[..|hist| - 1];
      if SeenBy(init, key) != {} && !Remembered(init, key) {
        OnlyOldKeysLeave(init, key);
      }
    }
  }

  /** The documented guarantee, inside the window: each unique entry exactly once, the winner's copy. */
  lemma {:induction false} WindowSuffices(hist: seq<Arrival>)
    requires NeverFarBehind(hist)
    ensures ForgottenCount(hist) == 0 && Run(hist).ledger == Reference(hist)
  {
    if hist != [] {
      var init, a := hist[..|hist| - 1], hist[|hist| - 1];
      WindowSuffices(init);
      if Forgotten(init, a) {
        OnlyOldKeysLeave(init, a.Key());
      }
      LedgersAgree(hist);
    }
  }

  /** Outside it the guarantee fails: an entry of slot 1 that comes back after slot 300 is emitted twice. */
  lemma {:induction false} ComebackIsEmittedTwice(a: Arrival, b: Arrival, hist: seq<Arrival>)
    requires a.obs.slot == 1 && b.obs.slot == 300 && hist == [a, b, a]
    ensures Run(hist).ledger.out == [MergedEntry(a.obs, a.source), MergedEntry(b.obs, b.source), MergedEntry(a.obs, a.source)]
  {
    var h1, h2 := hist[..1], hist[..2];
    assert h1[..0] == [];
    assert h2[..1] == h1;
    assert Run(h1) == Accept(INITIAL, a);
    assert Run(h2) == Accept(Run(h1), b);
    assert a.Key() !in Run(h2).dedup;
  }

  /** What the merger sends in any run: the copies of keys that it does not remember. */
  function Sent(hist: seq<Arrival>): seq<MergedEntry> {
    if hist == [] then []
    else
      var init, a := hist[..|hist| - 1], hist[|hist| - 1];
      Sent(init) + if Remembered(init, a.Key()) then [] else [MergedEntry(a.obs, a.source)]
  }

  function SentFrom(out: seq<MergedEntry>, source: SourceKind): nat {
    if out == [] then 0
    else SentFrom(out[..|out| - 1], source) + OneIf(out[|out| - 1].firstSeenSource == source)
  }

  /**
   The output and the counters by source, in every run: each emission carries the entry and
   the source of the arrival that caused it, the first counters count emissions by source,
   and the received counters count arrivals by source.
   */
  lemma {:induction false} CountersNameTheirSource(hist: seq<Arrival>)
    ensures var l := Run(hist).ledger;
            && l.out == Sent(hist)
            && l.ssReceived == ArrivalsFrom(hist, ShredStream) && l.ysReceived == ArrivalsFrom(hist, Yellowstone)
            && l.ssFirst == SentFrom(l.out, ShredStream) && l.ysFirst == SentFrom(l.out, Yellowstone)
  {
    if hist != [] {
      var init, a := hist[..|hist| - 1], hist[|hist| - 1];
      CountersNameTheirSource(init);
      DedupIsRemembered(init, a.Key());
      var before := Run(init).ledger.out;
      assert (before + [MergedEntry(a.obs, a.source)])[..|before|] == before;
      assert before + [] == before;
    }
  }

  /** Where every arrival goes, in any run. */
  lemma {:induction false} EveryArrivalIsCounted(hist: seq<Arrival>)
    ensures var l := Run(hist).ledger;
            && l.ssReceived + l.ysReceived == |hist|
            && l.ssReceived + l.ysReceived == l.ssFirst + l.ysFirst + l.confirmedByBoth + l.duplicates
            && |l.out| == l.ssFirst + l.ysFirst
  {
    if hist != [] {
      EveryArrivalIsCounted(hist[..|hist| - 1]);
    }
  }

  function KeyOf(m: MergedEntry): Key {
    (m.observation.slot, m.observation.entryHash)
  }

  /** The reference emits every key that was ever reported, and none twice. */
  lemma {:induction false} ReferenceEmitsEachKeyOnce(hist: seq<Arrival>)
    ensures var out := Reference(hist).out;
            && (forall i, j :: 0 <= i < j < |out| ==> KeyOf(out[i]) != KeyOf(out[j]))
            && (forall i :: 0 <= i < |out| ==> SeenBy(hist, KeyOf(out[i])) != {})
            && (forall key :: SeenBy(hist, key) != {} ==> exists i :: 0 <= i < |out| && KeyOf(out[i]) == key)
  {
    if hist != [] {
      var init, a := hist[..|hist| - 1], hist[|hist| - 1];
      ReferenceEmitsEachKeyOnce(init);
      var before, out := Reference(init).out, Reference(hist).out;
      assert a.source in SeenBy(hist, a.Key());
      if SeenBy(init, a.Key()) == {} {
        assert out == before + [MergedEntry(a.obs, a.source)];
        assert KeyOf(out[|before|]) == a.Key();
      } else {
        assert out == before;
      }
      forall key | SeenBy(hist, key) != {} ensures exists i :: 0 <= i < |out| && KeyOf(out[i]) == key {
        if key != a.Key() || SeenBy(init, key) != {} {
          assert SeenBy(init, key) != {};
          var i :| 0 <= i < |before| && KeyOf(before[i]) == key;
          assert KeyOf(out[i]) == key;
        } else {
          assert KeyOf(out[|before|]) == key;
        }
      }
    }
  }

  // ---------- the merger as the source runs it ----------

  predicate Distinct(hashes: seq<Hash>) {
    forall i, j :: 0 <= i < j < |hashes| ==> hashes[i] != hashes[j]
  }

  /** The per-slot index lists exactly the keys of the dedup map, each hash once. */
  ghost predicate Indexed(dedup: map<Key, DedupState>, index: map<nat, seq<Hash>>) {
    && (forall s, h :: (s, h) in dedup ==> s in index && h in index[s])
    && (forall s :: s in index ==> Distinct(index[s]) && forall h :: h in index[s] ==> (s, h) in dedup)
  }

  lemma IndexedAfterFirst(dedup: map<Key, DedupState>, index: map<nat, seq<Hash>>, s: nat, h: Hash, st: DedupState)
    requires Indexed(dedup, index) && (s, h) !in dedup
    ensures Indexed(dedup[(s, h) := st], index[s := (if s in index then index[s] else []) + [h]])
  {
  }

  lemma IndexedAfterUpdate(dedup: map<Key, DedupState>, index: map<nat, seq<Hash>>, key: Key, st: DedupState)
    requires Indexed(dedup, index) && key in dedup
    ensures Indexed(dedup[key := st], index)
  {
    assert forall s, h :: (s, h) in dedup[key := st] ==> (s, h) in dedup;
  }

  class EntryMerger {
    var dedup: map<Key, DedupState>
    var slotIndex: map<nat, seq<Hash>>
    var maxSlot: nat
    var ledger: Ledger

    ghost predicate Valid()
      reads this
    {
      Indexed(dedup, slotIndex)
    }

    ghost function Value(): State
      reads this
    {
      State(dedup, maxSlot, ledger)
    }

    constructor ()
      ensures Valid() && Value() == INITIAL
    {
      dedup, slotIndex, maxSlot, ledger := map[], map[], 0, EMPTY_LEDGER;
    }

    /** Removes one expired slot through the index. */
    method DropSlot(s: nat)
      requires Valid() && s in slotIndex
      modifies `dedup, `slotIndex
      ensures Valid()
      ensures dedup == map k | k in old(dedup) && k.0 != s :: old(dedup)[k]
      ensures slotIndex == old(slotIndex) - {s}
    {
      var hashes := slotIndex[s];
      slotIndex := slotIndex - {s};
      for i := 0 to |hashes|
        invariant slotIndex == old(slotIndex) - {s}
        invariant dedup == map k | k in old(dedup) && !(k.0 == s && k.1 in hashes[..i]) :: old(dedup)[k]
      {
        dedup := dedup - {(s, hashes[i])};
      }
      assert hashes[..|hashes|] == hashes;
    }

    /** The keys below the cutoff, read off the ordered index up to the first that is not. */
    method ExpiredSlots(cutoff: nat) returns (expired: seq<nat>)
      ensures forall s :: s in expired <==> s in slotIndex && s < cutoff
      ensures Increasing(expired)
    {
      var keys := Ascending(slotIndex.Keys);
      var n := 0;
      while n < |keys| && keys[n] < cutoff
        invariant 0 <= n <= |keys|
        invariant forall i :: 0 <= i < n ==> keys[i] < cutoff
      {
        n := n + 1;
      }
      expired := keys[..n];
      forall s | s in slotIndex && s < cutoff ensures s in expired {
        assert s in keys;
        var j :| 0 <= j < |keys| && keys[j] == s;
        assert j < n;
        assert expired[j] == s;
      }
    }

    method DropSlots(expired: seq<nat>)
      requires Valid() && Increasing(expired) && forall s :: s in expired ==> s in slotIndex
      modifies `dedup, `slotIndex
      ensures Valid()
      ensures dedup == map k | k in old(dedup) && k.0 !in expired :: old(dedup)[k]
      ensures slotIndex.Keys == set s | s in old(slotIndex) && s !in expired
    {
      for i := 0 to |expired|
        invariant Valid()
        invariant dedup == map k | k in old(dedup) && k.0 !in expired[..i] :: old(dedup)[k]
        invariant slotIndex.Keys == set s | s in old(slotIndex) && s !in expired[..i]
      {
        assert expired[i] in expired && expired[i] !in expired[..i];
        DropSlot(expired[i]);
        assert expired[..i + 1] == expired[..i] + [expired[i]];
      }
      assert expired[..|expired|] == expired;
    }

    /** Prefix eviction through the index leaves what filtering the whole map would leave. */
    method EvictBelow(cutoff: nat)
      requires Valid()
      modifies `dedup, `slotIndex
      ensures Valid()
      ensures dedup == KeepFrom(old(dedup), cutoff)
      ensures slotIndex.Keys == set s | s in old(slotIndex) && s >= cutoff
    {
      var expired := ExpiredSlots(cutoff);
      assert forall k :: k in dedup ==> k == (k.0, k.1) && k.0 in slotIndex;
      DropSlots(expired);
    }

    /** The lookup: the verdict, the entry in the map and the index, and the counters. */
    method Classify(a: Arrival)
      requires Valid()
      modifies `dedup, `slotIndex, `ledger
      ensures Valid() && dedup == Remember(old(dedup), a)
      ensures ledger == Post(old(ledger), a, Judge(old(dedup), a))
    {
      var slot, hash := a.obs.slot, a.obs.entryHash;
      var key := (slot, hash);
      if key !in dedup {
        IndexedAfterFirst(dedup, slotIndex, slot, hash, Primary(a.source, a.obs.observedAt));
        dedup := dedup[key := Primary(a.source, a.obs.observedAt)];
        slotIndex := slotIndex[slot := (if slot in slotIndex then slotIndex[slot] else []) + [hash]];
        ledger := Post(ledger, a, First);
      } else if dedup[key].Primary? && dedup[key].firstSource != a.source {
        IndexedAfterUpdate(dedup, slotIndex, key, Confirmed);
        dedup := dedup[key := Confirmed];
        ledger := Post(ledger, a, Confirmation);
      } else {
        ledger := Post(ledger, a, Duplicate);
      }
    }

    method Process(a: Arrival)
      requires Valid()
      modifies this
      ensures Valid()
      ensures Value() == Accept(old(Value()), a)
    {
      Classify(a);
      var slot := a.obs.slot;
      if slot > maxSlot {
        maxSlot := slot;
        if maxSlot > DEDUP_WINDOW_SLOTS {
          EvictBelow(maxSlot - DEDUP_WINDOW_SLOTS);
        } else {
          assert KeepFrom(dedup, 0) == dedup;
        }
      } else {
        assert KeepFrom(dedup, 0) == dedup;
      }
    }

    /** `run_loop` over the arrivals that the two channels deliver. */
    method RunLoop(hist: seq<Arrival>)
      requires Valid() && Value() == INITIAL
      modifies this
      ensures Valid() && Value() == Run(hist)
    {
      assert hist[..0] == [];
      for i := 0 to |hist|
        invariant Valid() && Value() == Run(hist[..i])
      {
        assert hist[..i + 1][..i] == hist[..i];
        Process(hist[i]);
      }
      assert hist[..|hist|] == hist;
    }
  }
}
