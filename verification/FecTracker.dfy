/**
 FEC set completion (crates/entry-sources/src/shredstream/fec_tracker.rs): shreds are
 gathered per (slot, FEC set index) and a set is released once it holds as many data shreds
 as its terminator shred announces.

 The tracker only counts. That a released set is the whole contiguous range, and is
 released as soon as it can be, is a pigeonhole argument over the shreds received.
 */
module FecTracker {
  import opened Entries
  import opened OrderedMaps

  const TWO32: nat := 0x1_0000_0000

  type u32 = x: nat | x < TWO32

  datatype ShredType = Data | Code

  datatype Shred = Shred(
    slot: nat,
    fecSetIndex: u32,
    index: u32,
    shredType: ShredType,
    lastInSlot: bool,
    dataComplete: bool,
    payload: nat)

  /** A raw packet: `shred` is `None` when the bytes do not parse. */
  datatype Packet = Packet(receivedAt: nat, shred: Option<Shred>)

  type Key = (nat, nat)

  datatype FecSet = FecSet(
    firstShredAt: Option<nat>,
    data: map<nat, Shred>,
    coding: map<nat, Shred>,
    expectedDataCount: Option<nat>)

  /** A completed set. The coding shreds come in no particular order. */
  datatype FecSetReady = FecSetReady(
    slot: nat,
    fecSetIndex: nat,
    firstShredAt: nat,
    dataShreds: seq<Shred>,
    codingShreds: set<Shred>)

  const EMPTY_SET := FecSet(None, map[], map[], None)

  function KeyOf(x: Shred): Key {
    (x.slot, x.fecSetIndex)
  }

  predicate Terminates(x: Shred) {
    x.shredType.Data? && (x.lastInSlot || x.dataComplete)
  }

  /** The announced size, in wrapping 32-bit arithmetic. */
  function Announced(x: Shred): nat {
    (x.index - x.fecSetIndex + 1) % TWO32
  }

  /** A shred and the instant it was received. */
  datatype Receipt = Receipt(shred: Shred, at: nat)

  function Add(fs: FecSet, r: Receipt): FecSet {
    var x := r.shred;
    var opening := fs.(firstShredAt := if fs.firstShredAt.None? then Some(r.at) else fs.firstShredAt);
    match x.shredType
    case Data =>
      opening.(expectedDataCount := if x.lastInSlot || x.dataComplete then Some(Announced(x)) else fs.expectedDataCount,
               data := fs.data[x.index := x])
    case Code => opening.(coding := fs.coding[x.index := x])
  }

  predicate Done(fs: FecSet) {
    fs.expectedDataCount.Some? && |fs.data| % TWO32 >= fs.expectedDataCount.value
  }

  /** The shreds filed under the given indices, in that order. */
  function Pick(m: map<nat, Shred>, keys: seq<nat>): (shreds: seq<Shred>)
    requires forall k :: k in keys ==> k in m
    ensures |shreds| == |keys| && forall i :: 0 <= i < |keys| ==> shreds[i] == m[keys[i]]
  {
    if keys == [] then [] else [m[keys[0]]] + Pick(m, keys[1..])
  }

  function Ready(key: Key, fs: FecSet): FecSetReady {
    FecSetReady(
      key.0, key.1,
      if fs.firstShredAt.Some? then fs.firstShredAt.value else 0,
      Pick(fs.data, Ascending(fs.data.Keys)),
      fs.coding.Values)
  }

  // ---- one session: the shreds of one set, from its first shred on ----

  function SetOf(s: seq<Receipt>): FecSet {
    if s == [] then EMPTY_SET else Add(SetOf(s[..|s| - 1]), s[|s| - 1])
  }

  /** Data shred `x` was received in the session and not replaced later. */
  ghost predicate IsLatest(s: seq<Receipt>, x: Shred) {
    exists j :: IsLatestAt(s, x, j)
  }

  ghost predicate IsLatestAt(s: seq<Receipt>, x: Shred, j: int) {
    && 0 <= j < |s| && s[j].shred == x && x.shredType.Data?
    && forall l :: j < l < |s| ==> !(s[l].shred.shredType.Data? && s[l].shred.index == x.index)
  }

  function DataIndices(s: seq<Receipt>): set<nat> {
    set k | 0 <= k < |s| && s[k].shred.shredType.Data? :: s[k].shred.index
  }

  lemma DataIndicesMore(s: seq<Receipt>, r: Receipt)
    ensures DataIndices(s + [r]) ==
            DataIndices(s) + if r.shred.shredType.Data? then {r.shred.index as nat} else {}
  {
    var t := s + [r];
    assert t[|s|] == r;
    assert forall k :: 0 <= k < |s| ==> t[k] == s[k];
  }

  lemma LatestMore(s: seq<Receipt>, r: Receipt, x: Shred)
    requires IsLatest(s, x) && !(r.shred.shredType.Data? && r.shred.index == x.index)
    ensures IsLatest(s + [r], x)
  {
    var j :| IsLatestAt(s, x, j);
    assert IsLatestAt(s + [r], x, j);
  }

  lemma LatestIsNewest(s: seq<Receipt>, r: Receipt)
    requires r.shred.shredType.Data?
    ensures IsLatest(s + [r], r.shred)
  {
    assert IsLatestAt(s + [r], r.shred, |s|);
  }

  lemma {:induction false} SessionStart(s: seq<Receipt>)
    ensures SetOf(s).firstShredAt == if s == [] then None else Some(s[0].at)
  {
    if s != [] {
      SessionStart(s[..|s| - 1]);
    }
  }

  lemma {:induction false} SessionKeys(s: seq<Receipt>)
    ensures SetOf(s).data.Keys == DataIndices(s)
  {
    if s != [] {
      var init, r := s[..|s| - 1], s[|s| - 1];
      SessionKeys(init);
      assert s == init + [r];
      DataIndicesMore(init, r);
    }
  }

  /** What a set holds: for every index received, the latest data shred of that index. */
  lemma {:induction false} SessionHoldsLatest(s: seq<Receipt>, k: nat)
    requires k in SetOf(s).data
    ensures SetOf(s).data[k].index == k && IsLatest(s, SetOf(s).data[k])
  {
    if s != [] {
      var init, r := s[..|s| - 1], s[|s| - 1];
      assert s == init + [r];
      if r.shred.shredType.Data? && r.shred.index == k {
        LatestIsNewest(init, r);
      } else {
        SessionHoldsLatest(init, k);
        LatestMore(init, r, SetOf(init).data[k]);
      }
    }
  }

  /** The index of the latest terminator of a session. */
  function LastTerminator(s: seq<Receipt>): Option<nat> {
    if s == [] then None
    else
      var x := s[|s| - 1].shred;
      if Terminates(x) then Some(x.index) else LastTerminator(s[..|s| - 1])
  }

  ghost predicate OfSet(s: seq<Receipt>, key: Key) {
    forall k :: 0 <= k < |s| ==> s[k].shred.slot == key.0 && s[k].shred.fecSetIndex == key.1
  }

  lemma {:induction false} ExpectationIsAnnounced(s: seq<Receipt>, key: Key)
    requires OfSet(s, key)
    ensures SetOf(s).expectedDataCount ==
            match LastTerminator(s)
            case Some(t) => Some((t - key.1 + 1) % 0x1_0000_0000)
            case None => None
  {
    if s != [] {
      ExpectationIsAnnounced(s[..|s| - 1], key);
      assert KeyOf(s[|s| - 1].shred) == key;
    }
  }

  /** Coding shred `x` was received in the session and not replaced later. */
  ghost predicate IsLatestCoding(s: seq<Receipt>, x: Shred) {
    s != [] &&
    var init, last := s[..|s| - 1], s[|s| - 1].shred;
    || (last.shredType.Code? && last == x)
    || (IsLatestCoding(init, x) && !(last.shredType.Code? && last.index == x.index))
  }

  lemma {:induction false} CodingIsLatest(s: seq<Receipt>, x: Shred)
    ensures x.index in SetOf(s).coding && SetOf(s).coding[x.index] == x <==> IsLatestCoding(s, x)
    ensures forall k :: k in SetOf(s).coding ==> SetOf(s).coding[k].index == k
  {
    if s != [] {
      CodingIsLatest(s[..|s| - 1], x);
    }
  }

  /** The coding shreds of a released set: for every index received, the latest one. */
  lemma {:induction false} ReleasedCodingIsLatest(s: seq<Receipt>, key: Key, x: Shred)
    ensures x in Ready(key, SetOf(s)).codingShreds <==> IsLatestCoding(s, x)
  {
    CodingIsLatest(s, x);
  }

  // ---- pigeonhole ----

  /** The set holds every number from `a` up to but not including `z`, and no other. */
  ghost predicate Fills(keys: set<nat>, a: nat, z: nat) {
    forall k: nat :: k in keys <==> a <= k < z
  }

  /** A set inside a range is no larger than the range, and as large only if it fills it. */
  lemma {:induction false} InsideRange(keys: set<nat>, a: nat, z: nat)
    requires a <= z && forall k :: k in keys ==> a <= k < z
    ensures |keys| <= z - a && (|keys| == z - a <==> Fills(keys, a, z))
    decreases z
  {
    if a == z {
      assert keys == {};
    } else {
      var rest := keys - {z - 1};
      InsideRange(rest, a, z - 1);
      if z - 1 in keys {
        assert keys == rest + {z - 1};
      } else {
        assert keys == rest;
      }
    }
  }

  lemma {:induction false} AscendingRange(keys: set<nat>, a: nat, z: nat)
    requires a <= z && Fills(keys, a, z)
    ensures |Ascending(keys)| == z - a && forall i :: 0 <= i < z - a ==> Ascending(keys)[i] == a + i
    decreases z - a
  {
    if a == z {
      assert keys == {};
    } else {
      assert a in keys;
      assert Least(keys) == a;
      AscendingRange(keys - {a}, a + 1, z);
    }
  }

  /** Exactly the shreds of indices `a` to `b`, in order. */
  ghost predicate IsRange(shreds: seq<Shred>, a: nat, b: nat) {
    && |shreds| == b - a + 1
    && forall i: nat :: i < |shreds| ==> shreds[i].index == a + i
  }

  /** The size of the range fits 32 bits: all but the range of all 2^32 indices. */
  predicate Announceable(a: nat, b: nat) {
    b - a + 1 < 0x1_0000_0000
  }

  /** As many indices as the terminator at `b` announces, in 32-bit arithmetic. */
  ghost predicate Enough(keys: set<nat>, a: nat, b: nat) {
    |keys| % 0x1_0000_0000 >= (b - a + 1) % 0x1_0000_0000
  }

  ghost predicate Inside(keys: set<nat>, a: nat, b: nat) {
    forall k :: k in keys ==> a <= k <= b
  }

  /** Inside the range, reaching the announced count is the same as holding every index. */
  lemma Pigeonhole(keys: set<nat>, a: nat, b: nat)
    requires a <= b && Announceable(a, b) && Inside(keys, a, b)
    ensures Enough(keys, a, b) <==> Fills(keys, a, b + 1)
  {
    InsideRange(keys, a, b + 1);
  }

  /** The released data shreds carry the received indices, ascending. */
  lemma {:induction false} ReleasedIndices(s: seq<Receipt>, key: Key)
    ensures var keys, shreds := Ascending(DataIndices(s)), Ready(key, SetOf(s)).dataShreds;
            |shreds| == |keys| && forall i: nat :: i < |keys| ==> shreds[i].index == keys[i] && IsLatest(s, shreds[i])
  {
    SessionKeys(s);
    var data := SetOf(s).data;
    var keys := Ascending(data.Keys);
    forall i: nat | i < |keys|
      ensures keys[i] in data && data[keys[i]].index == keys[i] && IsLatest(s, data[keys[i]])
    {
      assert keys[i] in keys;
      SessionHoldsLatest(s, keys[i]);
    }
  }

  lemma FilledByCount(keys: set<nat>, a: nat, b: nat)
    requires a <= b && Announceable(a, b) && Enough(keys, a, b)
    ensures Fills(keys, a, b + 1) <==> Inside(keys, a, b)
  {
    if Inside(keys, a, b) {
      Pigeonhole(keys, a, b);
    }
  }

  lemma {:induction false} RangeExactlyWhenKeys(s: seq<Receipt>, key: Key, b: nat)
    requires key.1 <= b
    ensures IsRange(Ready(key, SetOf(s)).dataShreds, key.1, b) <==> Fills(DataIndices(s), key.1, b + 1)
  {
    ReleasedIndices(s, key);
    RangeExactlyWhenFilled(Ready(key, SetOf(s)).dataShreds, DataIndices(s), key.1, b);
  }

  lemma {:induction false} RangeExactlyWhenFilled(shreds: seq<Shred>, indices: set<nat>, a: nat, b: nat)
    requires a <= b && |shreds| == |Ascending(indices)|
    requires forall i: nat :: i < |shreds| ==> shreds[i].index == Ascending(indices)[i]
    ensures IsRange(shreds, a, b) <==> Fills(indices, a, b + 1)
  {
    var keys := Ascending(indices);
    if Fills(indices, a, b + 1) {
      AscendingRange(indices, a, b + 1);
    }
    if IsRange(shreds, a, b) {
      CountingUp(keys, a);
      assert forall k: nat :: k in indices <==> k in keys;
    }
  }

  lemma CountingUp(keys: seq<nat>, a: nat)
    requires forall i: nat :: i < |keys| ==> keys[i] == a + i
    ensures forall k: nat :: k in keys <==> a <= k < a + |keys|
  {
    forall k: nat | a <= k < a + |keys| ensures k in keys {
      assert keys[k - a] == k;
    }
  }

  /** Being done is a matter of counting the indices received. */
  lemma {:induction false} DoneByCount(s: seq<Receipt>, key: Key, b: nat)
    requires OfSet(s, key) && LastTerminator(s) == Some(b)
    ensures Done(SetOf(s)) <==> Enough(DataIndices(s), key.1, b)
  {
    ExpectationIsAnnounced(s, key);
    SessionKeys(s);
    assert |SetOf(s).data| == |SetOf(s).data.Keys|;
  }

  /**
   Whatever was received: a completed set is the whole range up to its terminator, in
   order, exactly when no data shred lies outside that range.
   */
  lemma {:induction false} CompletedIsRangeExactly(s: seq<Receipt>, key: Key, b: nat)
    requires OfSet(s, key) && LastTerminator(s) == Some(b) && Announceable(key.1, b)
    requires Done(SetOf(s))
    ensures IsRange(Ready(key, SetOf(s)).dataShreds, key.1, b) <==>
            Inside(DataIndices(s), key.1, b)
  {
    if key.1 <= b {
      RangeExactlyWhenKeys(s, key, b);
      DoneByCount(s, key, b);
      FilledByCount(DataIndices(s), key.1, b);
    } else {
      TerminatorCame(s);
      ReleasedIndices(s, key);
      assert b in Ascending(DataIndices(s));
    }
  }

  lemma {:induction false} TerminatorCame(s: seq<Receipt>)
    ensures LastTerminator(s).Some? ==> LastTerminator(s).value in DataIndices(s)
  {
    if s != [] {
      var init, r := s[..|s| - 1], s[|s| - 1];
      TerminatorCame(init);
      assert s == init + [r];
      DataIndicesMore(init, r);
    }
  }

  /** Every data shred lies in the range, and every terminator is at its end. */
  ghost predicate InRange(s: seq<Receipt>, key: Key, b: nat) {
    && (forall k :: 0 <= k < |s| && s[k].shred.shredType.Data? ==> key.1 <= s[k].shred.index <= b)
    && (forall k :: 0 <= k < |s| && Terminates(s[k].shred) ==> s[k].shred.index == b)
  }

  ghost predicate Fits(s: seq<Receipt>, key: Key, b: nat) {
    OfSet(s, key) && InRange(s, key, b)
  }

  /** A terminator and every index of the range have been received. */
  ghost predicate Complete(s: seq<Receipt>, key: Key, b: nat) {
    && (exists k :: 0 <= k < |s| && Terminates(s[k].shred))
    && (forall i: nat :: key.1 <= i <= b ==> i in DataIndices(s))
  }

  lemma {:induction false} TerminatorSeen(s: seq<Receipt>, key: Key, b: nat)
    requires Fits(s, key, b)
    ensures LastTerminator(s) ==
            if exists k :: 0 <= k < |s| && Terminates(s[k].shred) then Some(b) else None
  {
    if s != [] {
      var init := s[..|s| - 1];
      assert forall k :: 0 <= k < |init| ==> s[k] == init[k];
      TerminatorSeen(init, key, b);
      if exists k :: 0 <= k < |s| && Terminates(s[k].shred) {
        var k :| 0 <= k < |s| && Terminates(s[k].shred);
        if k < |init| {
          assert Terminates(init[k].shred);
        }
      }
    }
  }

  lemma FittingIsInside(s: seq<Receipt>, key: Key, b: nat)
    requires Fits(s, key, b)
    ensures Inside(DataIndices(s), key.1, b)
  {
  }

  /** Counting is enough: a set that fits its range is done exactly when it is complete. */
  lemma {:induction false} DoneExactlyWhenComplete(s: seq<Receipt>, key: Key, b: nat)
    requires Fits(s, key, b) && Announceable(key.1, b)
    ensures Done(SetOf(s)) <==> Complete(s, key, b)
  {
    TerminatorSeen(s, key, b);
    TerminatorCame(s);
    if LastTerminator(s).None? {
      ExpectationIsAnnounced(s, key);
    } else {
      FittingIsInside(s, key, b);
      DoneByCount(s, key, b);
      Pigeonhole(DataIndices(s), key.1, b);
      if forall i: nat :: key.1 <= i <= b ==> i in DataIndices(s) {
        assert Fills(DataIndices(s), key.1, b + 1);
      }
    }
  }

  // ---- the tracker ----

  datatype Step = Ingest(packet: Packet) | Evict(now: nat, maxAge: nat)

  datatype State = State(
    sets: map<Key, FecSet>,
    released: seq<FecSetReady>,
    parseErrors: nat,
    timeouts: nat)

  const START := State(map[], [], 0, 0)

  function SetAt(sets: map<Key, FecSet>, key: Key): FecSet {
    if key in sets then sets[key] else EMPTY_SET
  }

  /** `first_shred_at` is at least `maxAge` in the past. */
  predicate Expired(fs: FecSet, now: nat, maxAge: nat) {
    fs.firstShredAt.Some? && SatSub(now, fs.firstShredAt.value) >= maxAge
  }

  function Young(sets: map<Key, FecSet>, now: nat, maxAge: nat): map<Key, FecSet> {
    map key | key in sets && !Expired(sets[key], now, maxAge) :: sets[key]
  }

  function Take(st: State, r: Receipt): State {
    var key := KeyOf(r.shred);
    var fs := Add(SetAt(st.sets, key), r);
    if Done(fs) then st.(sets := st.sets - {key}, released := st.released + [Ready(key, fs)])
    else st.(sets := st.sets[key := fs])
  }

  function Next(st: State, step: Step): State {
    match step
    case Ingest(packet) =>
      if packet.shred.None? then st.(parseErrors := st.parseErrors + 1)
      else Take(st, Receipt(packet.shred.value, packet.receivedAt))
    case Evict(now, maxAge) =>
      var young := Young(st.sets, now, maxAge);
      st.(sets := young, timeouts := st.timeouts + (SatSub(|st.sets|, |young|)))
  }

  function Run(steps: seq<Step>): State {
    if steps == [] then START else Next(Run(steps[..|steps| - 1]), steps[|steps| - 1])
  }

  function Unparsed(steps: seq<Step>): nat {
    if steps == [] then 0
    else
      var last := steps[|steps| - 1];
      Unparsed(steps[..|steps| - 1]) + OneIf(last.Ingest? && last.packet.shred.None?)
  }

  /** A step moves the counters as documented: a packet that does not parse is one error, an evicted set one timeout. */
  lemma {:induction false} CountersCount(steps: seq<Step>)
    ensures Run(steps).parseErrors == Unparsed(steps)
    ensures steps != [] ==>
              var x, y := Run(steps[..|steps| - 1]), Run(steps);
              y.timeouts == x.timeouts +
                match steps[|steps| - 1]
                case Ingest(_) => 0
                case Evict(now, maxAge) => |set key | key in x.sets && Expired(x.sets[key], now, maxAge)|
  {
    if steps != [] {
      CountersCount(steps[..|steps| - 1]);
      if steps[|steps| - 1].Evict? {
        EvictedAndYoung(Run(steps[..|steps| - 1]).sets, steps[|steps| - 1].now, steps[|steps| - 1].maxAge);
      }
    }
  }

  lemma EvictedAndYoung(sets: map<Key, FecSet>, now: nat, maxAge: nat)
    ensures |sets| == |set key | key in sets && Expired(sets[key], now, maxAge)| + |Young(sets, now, maxAge)|
  {
    var expired := set key | key in sets && Expired(sets[key], now, maxAge);
    assert sets.Keys == expired + Young(sets, now, maxAge).Keys;
    assert |sets| == |sets.Keys|;
  }

  // ---- one set of a run, from its packets alone ----

  datatype Fate = Released | TimedOut

  /** The shreds of one key, cut into finished sessions and the one that is still open. */
  datatype Sessions = Sessions(past: seq<(Fate, seq<Receipt>)>, current: seq<Receipt>)

  function Follow(v: Sessions, key: Key, step: Step): Sessions {
    match step
    case Ingest(packet) =>
      if packet.shred.None? || KeyOf(packet.shred.value) != key then v
      else
        var s := v.current + [Receipt(packet.shred.value, packet.receivedAt)];
        if Done(SetOf(s)) then Sessions(v.past + [(Released, s)], []) else v.(current := s)
    case Evict(now, maxAge) =>
      if v.current != [] && SatSub(now, v.current[0].at) >= maxAge
      then Sessions(v.past + [(TimedOut, v.current)], [])
      else v
  }

  function SessionsOf(key: Key, steps: seq<Step>): Sessions {
    if steps == [] then Sessions([], [])
    else Follow(SessionsOf(key, steps[..|steps| - 1]), key, steps[|steps| - 1])
  }

  /** The sets released for one key. */
  function ReleasedFor(released: seq<FecSetReady>, key: Key): seq<FecSetReady> {
    if released == [] then []
    else
      var last := released[|released| - 1];
      ReleasedFor(released[..|released| - 1], key) +
      if (last.slot, last.fecSetIndex) == key then [last] else []
  }

  function ReadyEach(key: Key, past: seq<(Fate, seq<Receipt>)>): seq<FecSetReady> {
    if past == [] then []
    else
      var (fate, s) := past[|past| - 1];
      ReadyEach(key, past[..|past| - 1]) + if fate.Released? then [Ready(key, SetOf(s))] else []
  }

  ghost predicate Agrees(st: State, key: Key, v: Sessions) {
    && (key in st.sets <==> v.current != [])
    && (key in st.sets ==> st.sets[key] == SetOf(v.current))
    && ReleasedFor(st.released, key) == ReadyEach(key, v.past)
  }

  lemma {:induction false} ReadyEachMore(key: Key, past: seq<(Fate, seq<Receipt>)>, fate: Fate, s: seq<Receipt>)
    ensures ReadyEach(key, past + [(fate, s)]) ==
            ReadyEach(key, past) + if fate.Released? then [Ready(key, SetOf(s))] else []
  {
    assert (past + [(fate, s)])[..|past|] == past;
  }

  lemma {:induction false} ReleasedForMore(released: seq<FecSetReady>, key: Key, last: FecSetReady)
    ensures ReleasedFor(released + [last], key) ==
            ReleasedFor(released, key) + if (last.slot, last.fecSetIndex) == key then [last] else []
  {
    assert (released + [last])[..|released|] == released;
  }

  lemma TakeOwnAgrees(st: State, r: Receipt, v: Sessions)
    requires Agrees(st, KeyOf(r.shred), v)
    ensures Agrees(Take(st, r), KeyOf(r.shred), Follow(v, KeyOf(r.shred), Ingest(Packet(r.at, Some(r.shred)))))
  {
    var key, s := KeyOf(r.shred), v.current + [r];
    assert s[..|s| - 1] == v.current;
    assert Add(SetAt(st.sets, key), r) == SetOf(s);
    ReleasedForMore(st.released, key, Ready(key, SetOf(s)));
    ReadyEachMore(key, v.past, Released, s);
  }

  lemma TakeAgrees(st: State, r: Receipt, key: Key, v: Sessions)
    requires Agrees(st, key, v)
    ensures Agrees(Take(st, r), key, Follow(v, key, Ingest(Packet(r.at, Some(r.shred)))))
  {
    if KeyOf(r.shred) == key {
      TakeOwnAgrees(st, r, v);
    } else {
      var fs := Add(SetAt(st.sets, KeyOf(r.shred)), r);
      ReleasedForMore(st.released, key, Ready(KeyOf(r.shred), fs));
    }
  }

  lemma EvictAgrees(st: State, now: nat, maxAge: nat, key: Key, v: Sessions)
    requires Agrees(st, key, v)
    ensures Agrees(Next(st, Evict(now, maxAge)), key, Follow(v, key, Evict(now, maxAge)))
  {
    SessionStart(v.current);
    ReadyEachMore(key, v.past, TimedOut, v.current);
  }

  lemma {:induction false} RunAgrees(steps: seq<Step>, key: Key)
    ensures Agrees(Run(steps), key, SessionsOf(key, steps))
  {
    if steps != [] {
      var init, step := steps[..|steps| - 1], steps[|steps| - 1];
      RunAgrees(init, key);
      match step
      case Ingest(packet) =>
        if packet.shred.Some? {
          TakeAgrees(Run(init), Receipt(packet.shred.value, packet.receivedAt), key, SessionsOf(key, init));
        }
      case Evict(now, maxAge) => EvictAgrees(Run(init), now, maxAge, key, SessionsOf(key, init));
    }
  }

  /** The parsed shreds of one key, in order of arrival. */
  function ReceiptsOf(key: Key, steps: seq<Step>): seq<Receipt> {
    if steps == [] then []
    else
      ReceiptsOf(key, steps[..|steps| - 1]) +
      match steps[|steps| - 1]
      case Ingest(packet) =>
        if packet.shred.Some? && KeyOf(packet.shred.value) == key
        then [Receipt(packet.shred.value, packet.receivedAt)] else []
      case Evict(_, _) => []
  }

  function Concat(past: seq<(Fate, seq<Receipt>)>): seq<Receipt> {
    if past == [] then [] else Concat(past[..|past| - 1]) + past[|past| - 1].1
  }

  lemma {:induction false} ConcatMore(past: seq<(Fate, seq<Receipt>)>, fate: Fate, s: seq<Receipt>)
    ensures Concat(past + [(fate, s)]) == Concat(past) + s
  {
    assert (past + [(fate, s)])[..|past|] == past;
  }

  lemma {:induction false} SessionsLoseNothing(key: Key, steps: seq<Step>)
    ensures Concat(SessionsOf(key, steps).past) + SessionsOf(key, steps).current == ReceiptsOf(key, steps)
  {
    if steps != [] {
      var init, step := steps[..|steps| - 1], steps[|steps| - 1];
      SessionsLoseNothing(key, init);
      var v := SessionsOf(key, init);
      match step
      case Ingest(packet) =>
        if packet.shred.Some? && KeyOf(packet.shred.value) == key {
          var r := Receipt(packet.shred.value, packet.receivedAt);
          ConcatMore(v.past, Released, v.current + [r]);
          assert (Concat(v.past) + v.current) + [r] == Concat(v.past) + (v.current + [r]);
        }
      case Evict(now, maxAge) => ConcatMore(v.past, TimedOut, v.current);
    }
  }

  /**
   Every run, every key: its shreds fall into consecutive sessions, each released or timed
   out, and one open session; the releases of the key are the released sessions, in order,
   and the tracker holds exactly the open one.
   */
  lemma EveryShredHasOneFate(steps: seq<Step>, key: Key) returns (v: Sessions)
    ensures Concat(v.past) + v.current == ReceiptsOf(key, steps)
    ensures ReleasedFor(Run(steps).released, key) == ReadyEach(key, v.past)
    ensures key in Run(steps).sets <==> v.current != []
    ensures key in Run(steps).sets ==> Run(steps).sets[key] == SetOf(v.current)
    ensures v == SessionsOf(key, steps)
  {
    v := SessionsOf(key, steps);
    RunAgrees(steps, key);
    SessionsLoseNothing(key, steps);
  }

  /** No eviction finds the set begun, not yet complete, and its first shred `maxAge` old. */
  ghost predicate NeverExpires(key: Key, b: nat, steps: seq<Step>) {
    steps != [] ==>
      var init, last := steps[..|steps| - 1], steps[|steps| - 1];
      && NeverExpires(key, b, init)
      && (last.Evict? ==>
            var s := ReceiptsOf(key, init);
            s != [] && !Complete(s, key, b) ==> SatSub(last.now, s[0].at) < last.maxAge)
  }

  lemma FitsLess(s: seq<Receipt>, n: nat, key: Key, b: nat)
    requires Fits(s, key, b) && n <= |s|
    ensures Fits(s[..n], key, b)
  {
  }

  lemma {:induction false} ReceiptsAreOfKey(steps: seq<Step>, key: Key)
    ensures OfSet(ReceiptsOf(key, steps), key)
  {
    if steps != [] {
      ReceiptsAreOfKey(steps[..|steps| - 1], key);
    }
  }

  /** No strict prefix is complete. */
  ghost predicate JustNow(s: seq<Receipt>, key: Key, b: nat) {
    forall n: nat :: n < |s| ==> !Complete(s[..n], key, b)
  }

  lemma JustNowLess(s: seq<Receipt>, n: nat, key: Key, b: nat)
    requires JustNow(s, key, b) && n <= |s|
    ensures JustNow(s[..n], key, b)
  {
    forall m: nat | m < n ensures !Complete(s[..n][..m], key, b) {
      assert s[..n][..m] == s[..m];
    }
  }

  lemma {:induction false} OneOpenSession(steps: seq<Step>, key: Key, b: nat)
    requires NeverExpires(key, b, steps)
    requires Announceable(key.1, b)
    requires Fits(ReceiptsOf(key, steps), key, b) && JustNow(ReceiptsOf(key, steps), key, b)
    ensures SessionsOf(key, steps) ==
            var s := ReceiptsOf(key, steps);
            if Complete(s, key, b) then Sessions([(Released, s)], []) else Sessions([], s)
  {
    if steps != [] {
      var init := steps[..|steps| - 1];
      var s, before := ReceiptsOf(key, steps), ReceiptsOf(key, init);
      assert s[..|before|] == before;
      FitsLess(s, |before|, key, b);
      JustNowLess(s, |before|, key, b);
      OneOpenSession(init, key, b);
      match steps[|steps| - 1]
      case Ingest(packet) =>
        if packet.shred.Some? && KeyOf(packet.shred.value) == key {
          assert s == before + [Receipt(packet.shred.value, packet.receivedAt)];
          assert !Complete(s[..|before|], key, b);
          DoneExactlyWhenComplete(s, key, b);
        } else {
          assert s == before;
        }
      case Evict(_, _) =>
        assert s == before;
    }
  }

  /**
   With the shreds of a set inside the range its terminators agree on, and as long as no
   eviction finds the set expired: nothing is released before every index of the range and
   a terminator are present, and at the packet that makes it so the set is released, as
   that range in order, each shred the latest of its index.
   */
  lemma {:induction false} ReleasedAtFirstCompletePacket(steps: seq<Step>, key: Key, b: nat)
    requires NeverExpires(key, b, steps)
    requires Announceable(key.1, b)
    requires InRange(ReceiptsOf(key, steps), key, b) && JustNow(ReceiptsOf(key, steps), key, b)
    ensures var s := ReceiptsOf(key, steps);
            var out := ReleasedFor(Run(steps).released, key);
            if Complete(s, key, b) then
              && |out| == 1
              && IsRange(out[0].dataShreds, key.1, b)
              && (forall x :: x in out[0].dataShreds ==> IsLatest(s, x) && x.slot == key.0 && x.fecSetIndex == key.1)
              && out[0].firstShredAt == s[0].at && (out[0].slot, out[0].fecSetIndex) == key
              && key !in Run(steps).sets
            else out == []
  {
    var s := ReceiptsOf(key, steps);
    ReceiptsAreOfKey(steps, key);
    OneOpenSession(steps, key, b);
    RunAgrees(steps, key);
    var none: seq<(Fate, seq<Receipt>)> := [];
    assert ReadyEach(key, none) == [];
    if Complete(s, key, b) {
      ReadyEachMore(key, none, Released, s);
      assert none + [(Released, s)] == [(Released, s)];
      CompleteIsRange(s, key, b);
    }
  }

  lemma {:induction false} CompleteIsRange(s: seq<Receipt>, key: Key, b: nat)
    requires Fits(s, key, b) && Announceable(key.1, b) && Complete(s, key, b)
    ensures var out := Ready(key, SetOf(s));
            && IsRange(out.dataShreds, key.1, b)
            && (forall x :: x in out.dataShreds ==> IsLatest(s, x) && x.slot == key.0 && x.fecSetIndex == key.1)
            && out.firstShredAt == s[0].at
  {
    SessionStart(s);
    ReleasedIndices(s, key);
    var k :| 0 <= k < |s| && Terminates(s[k].shred);
    RangeExactlyWhenKeys(s, key, b);
    assert Fills(DataIndices(s), key.1, b + 1);
  }

  /** Two shreds: the terminator at the second index of the set, and a data shred behind it. */
  ghost predicate Stray(s: seq<Receipt>, key: Key, a: Receipt, b: Receipt) {
    && s == [a] + [b] && KeyOf(a.shred) == key && KeyOf(b.shred) == key
    && Terminates(a.shred) && a.shred.index == key.1 + 1
    && b.shred.shredType.Data? && !Terminates(b.shred) && b.shred.index == key.1 + 2
  }

  /** A data shred beyond the terminator fills the count: the set is released with a hole. */
  lemma {:induction false} StrayShredLeavesAHole(s: seq<Receipt>, key: Key, a: Receipt, b: Receipt)
    requires Stray(s, key, a, b)
    ensures Done(SetOf(s)) && LastTerminator(s) == Some(key.1 + 1) && key.1 !in DataIndices(s)
    ensures !IsRange(Ready(key, SetOf(s)).dataShreds, key.1, key.1 + 1)
  {
    StrayTerminator(s, key, a, b);
    StrayIndices(s, key, a, b);
    StrayCount(DataIndices(s), key.1);
    DoneByCount(s, key, key.1 + 1);
    RangeExactlyWhenKeys(s, key, key.1 + 1);
  }

  lemma {:induction false} StrayTerminator(s: seq<Receipt>, key: Key, a: Receipt, b: Receipt)
    requires Stray(s, key, a, b)
    ensures OfSet(s, key) && LastTerminator(s) == Some(key.1 + 1)
  {
    assert s[..1] == [a];
    assert LastTerminator([a]) == Some(key.1 + 1);
  }

  lemma StrayIndices(s: seq<Receipt>, key: Key, a: Receipt, b: Receipt)
    requires Stray(s, key, a, b)
    ensures DataIndices(s) == {key.1 + 1, key.1 + 2}
  {
    assert [] + [a] == [a];
    DataIndicesMore([], a);
    DataIndicesMore([a], b);
  }

  lemma StrayCount(keys: set<nat>, a: nat)
    requires keys == {a + 1, a + 2}
    ensures a !in keys && Enough(keys, a, a + 1) && !Fills(keys, a, a + 2)
  {
  }

  // ---- the program ----

  /** The part of `ingest` that files a shred in its set. */
  method File(set0: FecSet, shred: Shred) returns (fs: FecSet)
    requires set0.firstShredAt.Some?
    ensures forall at :: fs == Add(set0, Receipt(shred, at))
  {
    fs := set0;
    match shred.shredType {
      case Data =>
        if shred.lastInSlot || shred.dataComplete {
          fs := fs.(expectedDataCount := Some((shred.index - shred.fecSetIndex + 1) % TWO32));
        }
        fs := fs.(data := fs.data[shred.index := shred]);
      case Code =>
        fs := fs.(coding := fs.coding[shred.index := shred]);
    }
  }

  class Tracker {
    var sets: map<Key, FecSet>
    var parseErrors: nat
    var timeouts: nat
    ghost var released: seq<FecSetReady>

    ghost function Value(): State
      reads this
    {
      State(sets, released, parseErrors, timeouts)
    }

    constructor ()
      ensures Value() == START
    {
      sets := map[];
      parseErrors := 0;
      timeouts := 0;
      released := [];
    }

    /** `ingest`: files the shred, and returns its set if that completes it. */
    method Ingest(packet: Packet) returns (ready: Option<FecSetReady>)
      modifies this
      ensures Value() == Next(old(Value()), Step.Ingest(packet))
      ensures released == old(released) + if ready.Some? then [ready.value] else []
    {
      if packet.shred.None? {
        parseErrors := parseErrors + 1;
        return None;
      }
      var shred := packet.shred.value;
      var key := KeyOf(shred);
      var state := if key in sets then sets[key] else EMPTY_SET;
      if state.firstShredAt.None? {
        state := state.(firstShredAt := Some(packet.receivedAt));
      }
      state := File(state, shred);
      assert state == Add(SetAt(sets, key), Receipt(shred, packet.receivedAt));
      var dataComplete :=
        state.expectedDataCount.Some? && |state.data| % TWO32 >= state.expectedDataCount.value;
      if dataComplete {
        sets := sets - {key};
        ready := Some(Ready(key, state));
        released := released + [ready.value];
      } else {
        sets := sets[key := state];
        ready := None;
      }
    }

    /** `evict_older_than`: the retained sets, and how many were dropped. */
    method EvictOlderThan(now: nat, maxAge: nat) returns (evicted: nat)
      modifies this`sets, this`timeouts
      ensures Value() == Next(old(Value()), Evict(now, maxAge))
      ensures evicted == |old(sets)| - |sets| && timeouts == old(timeouts) + evicted
    {
      var before := |sets|;
      ghost var all := sets;
      var todo := sets.Keys;
      while todo != {}
        invariant todo <= all.Keys
        invariant forall key :: key in sets ==> key in all && sets[key] == all[key]
        invariant forall key :: key in all ==> (key in sets <==> key in todo || !Expired(all[key], now, maxAge))
        invariant |sets| + timeouts == before + old(timeouts) && timeouts >= old(timeouts)
      {
        var key :| key in todo;
        todo := todo - {key};
        var t := sets[key].firstShredAt;
        if t.Some? && SatSub(now, t.value) >= maxAge {
          timeouts := timeouts + 1;
          assert sets.Keys == (sets - {key}).Keys + {key};
          sets := sets - {key};
        }
      }
      assert sets == Young(all, now, maxAge);
      evicted := before - |sets|;
    }
  }
}
