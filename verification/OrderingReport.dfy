/**
 The per-slot ordering report (crates/tick-trigger-fan-out-bench/src/ordering.rs): how far
 out of order, and how incomplete, the entries of each slot arrived.

 A slot's record is kept in progress until the stream is `lag` slots further, then sealed
 into a report. The reference definitions below speak of the arrivals alone: displaced
 arrivals, drops, indices never seen.
 */
module OrderingReport {
  import opened Entries
  import opened OrderedMaps

  datatype SlotProgress = SlotProgress(
    seenIndices: set<nat>,
    maxIndexAtArrival: nat,
    outOfOrder: nat,
    maxBackwardGap: nat,
    lastEntry: Option<(nat, nat)>)

  datatype Report = Report(
    slot: nat,
    entriesSeen: nat,
    maxIndex: nat,
    outOfOrderCount: nat,
    maxBackwardGap: nat,
    missingIndices: seq<nat>,
    lastEntryWasTick: bool,
    lastEntryTxCount: nat)

  const FRESH := SlotProgress({}, 0, 0, 0, None)

  /** What one arrival does to its slot's record. */
  function Note(p: SlotProgress, obs: EntryObservation): SlotProgress {
    var idx := obs.entryIndex;
    var noted :=
      if idx < p.maxIndexAtArrival then
        p.(outOfOrder := p.outOfOrder + 1,
           maxBackwardGap := Max(p.maxBackwardGap, p.maxIndexAtArrival - idx))
      else if idx > p.maxIndexAtArrival then
        p.(maxIndexAtArrival := idx, lastEntry := Some((idx, obs.txCount)))
      else p;
    noted.(seenIndices := p.seenIndices + {idx})
  }

  function ProgressOf(s: seq<EntryObservation>): SlotProgress {
    if s == [] then FRESH else Note(ProgressOf(s[..|s| - 1]), s[|s| - 1])
  }

  /** The numbers below `n` that are not in `seen`, ascending. */
  function Missing(seen: set<nat>, n: nat): seq<nat> {
    if n == 0 then []
    else Missing(seen, n - 1) + if n - 1 in seen then [] else [n - 1]
  }

  function ReportOf(slot: nat, p: SlotProgress): Report {
    var (lastIdx, lastTx) := if p.lastEntry.Some? then p.lastEntry.value else (0, 0);
    Report(slot, |p.seenIndices|, lastIdx, p.outOfOrder, p.maxBackwardGap,
           if p.seenIndices == {} then [] else Missing(p.seenIndices, lastIdx + 1),
           lastTx == 0, lastTx)
  }

  function ReportFor(slot: nat, s: seq<EntryObservation>): Report {
    ReportOf(slot, ProgressOf(s))
  }

  // ---- the reference: what the numbers of a report should mean ----

  /** An earlier arrival carried a higher index. */
  ghost predicate Displaced(s: seq<EntryObservation>, k: nat) {
    k < |s| && exists j: nat :: j < k && s[j].entryIndex > s[k].entryIndex
  }

  ghost function DisplacedIn(s: seq<EntryObservation>): set<nat> {
    set k: nat | k < |s| && Displaced(s, k)
  }

  function Indices(s: seq<EntryObservation>): set<nat> {
    set k: nat | k < |s| :: s[k].entryIndex
  }

  ghost predicate IsTop(s: seq<EntryObservation>, top: nat) {
    && (forall k: nat :: k < |s| ==> s[k].entryIndex <= top)
    && (if s == [] then top == 0 else exists k: nat :: k < |s| && s[k].entryIndex == top)
  }

  /** `gap` is the largest drop from an arrival to a later one, and 0 if there is no drop. */
  ghost predicate IsLargestDrop(s: seq<EntryObservation>, gap: nat) {
    && (forall j: nat, k: nat :: j < k < |s| ==> s[j].entryIndex <= s[k].entryIndex + gap)
    && (gap > 0 ==> exists j: nat, k: nat :: j < k < |s| && s[j].entryIndex == s[k].entryIndex + gap)
  }

  ghost predicate NonDecreasing(s: seq<EntryObservation>) {
    forall j: nat, k: nat :: j < k < |s| ==> s[j].entryIndex <= s[k].entryIndex
  }

  /** `k` is the first arrival that carries the slot's highest index. */
  ghost predicate IsLastEntry(s: seq<EntryObservation>, k: nat) {
    && k < |s|
    && (forall j: nat :: j < |s| ==> s[j].entryIndex <= s[k].entryIndex)
    && (forall j: nat :: j < k ==> s[j].entryIndex < s[k].entryIndex)
  }

  // ---- the record says what the reference says ----

  lemma {:induction false} TopIsTracked(s: seq<EntryObservation>)
    ensures IsTop(s, ProgressOf(s).maxIndexAtArrival)
    ensures ProgressOf(s).seenIndices == Indices(s)
  {
    if s != [] {
      var init, last := s[..|s| - 1], s[|s| - 1];
      TopIsTracked(init);
      forall k: nat | k < |s| ensures k < |init| ==> s[k] == init[k] {
      }
      assert Indices(s) == Indices(init) + {last.entryIndex};
      if last.entryIndex > ProgressOf(init).maxIndexAtArrival || init == [] {
        assert s[|s| - 1].entryIndex == ProgressOf(s).maxIndexAtArrival;
      } else {
        var k: nat :| k < |init| && init[k].entryIndex == ProgressOf(init).maxIndexAtArrival;
        assert s[k].entryIndex == ProgressOf(s).maxIndexAtArrival;
      }
    }
  }

  lemma DisplacedMore(s: seq<EntryObservation>, obs: EntryObservation, top: nat)
    requires IsTop(s, top)
    ensures |DisplacedIn(s + [obs])| == |DisplacedIn(s)| + OneIf(obs.entryIndex < top)
  {
    var t := s + [obs];
    assert forall k: nat :: k < |s| ==> t[k] == s[k];
    forall k: nat | k < |s| ensures Displaced(t, k) == Displaced(s, k) {
    }
    if obs.entryIndex < top {
      var j: nat :| j < |s| && s[j].entryIndex == top;
      assert t[j].entryIndex > t[|s|].entryIndex;
      assert DisplacedIn(t) == DisplacedIn(s) + {|s|};
    } else {
      assert DisplacedIn(t) == DisplacedIn(s);
    }
  }

  lemma {:induction false} DisplacedAreCounted(s: seq<EntryObservation>)
    ensures ProgressOf(s).outOfOrder == |DisplacedIn(s)|
  {
    if s != [] {
      var init, last := s[..|s| - 1], s[|s| - 1];
      DisplacedAreCounted(init);
      TopIsTracked(init);
      DisplacedMore(init, last, ProgressOf(init).maxIndexAtArrival);
      assert s == init + [last];
    }
  }

  /** One arrival more: `top` and `gap` describe the arrivals before it. */
  ghost predicate Grows(s: seq<EntryObservation>, top: nat, gap: nat, more: nat) {
    && s != [] && IsTop(s[..|s| - 1], top) && IsLargestDrop(s[..|s| - 1], gap)
    && var idx := s[|s| - 1].entryIndex; more == if idx < top then Max(gap, top - idx) else gap
  }

  lemma DropBound(s: seq<EntryObservation>, top: nat, gap: nat, more: nat, j: nat, k: nat)
    requires Grows(s, top, gap, more) && j < k < |s|
    ensures s[j].entryIndex <= s[k].entryIndex + more
  {
    var init := s[..|s| - 1];
    assert s[j] == init[j];
    if k < |init| {
      assert s[k] == init[k];
    }
  }

  lemma DropAttained(s: seq<EntryObservation>, top: nat, gap: nat, more: nat) returns (j: nat, k: nat)
    requires Grows(s, top, gap, more) && more > 0
    ensures j < k < |s| && s[j].entryIndex == s[k].entryIndex + more
  {
    var init, n := s[..|s| - 1], |s| - 1;
    if more > gap {
      j, k :| j < n && k == n && init[j].entryIndex == top;
    } else {
      j, k :| j < k < n && init[j].entryIndex == init[k].entryIndex + gap;
      assert init[k] == s[k];
    }
    assert init[j] == s[j];
  }

  lemma DropMore(s: seq<EntryObservation>, top: nat, gap: nat, more: nat)
    requires Grows(s, top, gap, more)
    ensures IsLargestDrop(s, more)
  {
    forall j: nat, k: nat | j < k < |s| ensures s[j].entryIndex <= s[k].entryIndex + more {
      DropBound(s, top, gap, more, j, k);
    }
    if more > 0 {
      var j, k := DropAttained(s, top, gap, more);
    }
  }

  lemma {:induction false} LargestDropIsKept(s: seq<EntryObservation>)
    ensures IsLargestDrop(s, ProgressOf(s).maxBackwardGap)
  {
    if s != [] {
      var before := ProgressOf(s[..|s| - 1]);
      LargestDropIsKept(s[..|s| - 1]);
      TopIsTracked(s[..|s| - 1]);
      DropMore(s, before.maxIndexAtArrival, before.maxBackwardGap, ProgressOf(s).maxBackwardGap);
    }
  }

  /** The stored last entry is the first arrival of the highest index, unless that index is 0. */
  lemma {:induction false} LastEntryIsTracked(s: seq<EntryObservation>, k: nat)
    requires IsLastEntry(s, k)
    ensures ProgressOf(s).lastEntry ==
            if s[k].entryIndex == 0 then None else Some((s[k].entryIndex, s[k].txCount))
    decreases |s|
  {
    var init := s[..|s| - 1];
    TopIsTracked(init);
    if k < |init| {
      assert IsLastEntry(init, k) by {
        forall j: nat | j < |init| ensures init[j].entryIndex <= init[k].entryIndex {
          assert init[j] == s[j];
        }
      }
      LastEntryIsTracked(init, k);
      assert s[|s| - 1].entryIndex <= s[k].entryIndex;
      assert s[k].entryIndex <= ProgressOf(init).maxIndexAtArrival;
    } else {
      assert forall j: nat :: j < |init| ==> init[j].entryIndex < s[k].entryIndex;
    }
  }

  lemma {:induction false} SomeLastEntry(s: seq<EntryObservation>) returns (k: nat)
    requires s != []
    ensures IsLastEntry(s, k)
  {
    var init := s[..|s| - 1];
    if init == [] {
      k := 0;
    } else {
      k := SomeLastEntry(init);
      assert forall j: nat :: j < |init| ==> s[j] == init[j];
      if s[|s| - 1].entryIndex > s[k].entryIndex {
        k := |s| - 1;
      }
    }
  }

  // ---- the report ----

  lemma {:induction false} MissingIsTheRest(seen: set<nat>, n: nat)
    ensures forall i: nat :: i in Missing(seen, n) <==> i < n && i !in seen
    ensures Increasing(Missing(seen, n))
  {
    if n > 0 {
      MissingIsTheRest(seen, n - 1);
      var rest := Missing(seen, n - 1);
      assert forall k :: 0 <= k < |rest| ==> rest[k] in rest;
    }
  }

  /** Seen and missing indices together fill the range. */
  lemma {:induction false} MissingAndSeenFill(seen: set<nat>, n: nat)
    requires forall i :: i in seen ==> i < n
    ensures |seen| + |Missing(seen, n)| == n
  {
    if n == 0 {
      assert seen == {};
    } else {
      var below := seen - {n - 1};
      MissingAndSeenFill(below, n - 1);
      SameMissing(seen, below, n - 1);
      assert seen == below + if n - 1 in seen then {n - 1} else {};
    }
  }

  lemma {:induction false} SameMissing(a: set<nat>, b: set<nat>, n: nat)
    requires forall i: nat :: i < n ==> (i in a <==> i in b)
    ensures Missing(a, n) == Missing(b, n)
  {
    if n > 0 {
      SameMissing(a, b, n - 1);
    }
  }

  /** The numbers of a report, for every sequence of arrivals of the slot. */
  lemma ReportIsExact(slot: nat, s: seq<EntryObservation>)
    requires s != []
    ensures
      var r := ReportFor(slot, s);
      && IsTop(s, r.maxIndex)
      && r.entriesSeen == |Indices(s)|
      && r.entriesSeen + |r.missingIndices| == r.maxIndex + 1
      && Increasing(r.missingIndices)
      && (forall i: nat :: i in r.missingIndices <==> i <= r.maxIndex && i !in Indices(s))
      && r.outOfOrderCount == |DisplacedIn(s)|
      && IsLargestDrop(s, r.maxBackwardGap)
  {
    DisplacedAreCounted(s);
    LargestDropIsKept(s);
    TopIsReported(slot, s);
    MissingIsReported(slot, s);
  }

  lemma TopIsReported(slot: nat, s: seq<EntryObservation>)
    requires s != []
    ensures IsTop(s, ReportFor(slot, s).maxIndex)
    ensures ReportFor(slot, s).missingIndices == Missing(Indices(s), ReportFor(slot, s).maxIndex + 1)
    ensures ReportFor(slot, s).entriesSeen == |Indices(s)|
  {
    TopIsTracked(s);
    var k := SomeLastEntry(s);
    LastEntryIsTracked(s, k);
    assert s[k].entryIndex in Indices(s);
  }

  lemma MissingIsReported(slot: nat, s: seq<EntryObservation>)
    requires s != []
    ensures
      var r := ReportFor(slot, s);
      && r.entriesSeen + |r.missingIndices| == r.maxIndex + 1
      && Increasing(r.missingIndices)
      && (forall i: nat :: i in r.missingIndices <==> i <= r.maxIndex && i !in Indices(s))
  {
    TopIsReported(slot, s);
    var n := ReportFor(slot, s).maxIndex + 1;
    MissingAndSeenFill(Indices(s), n);
    MissingIsTheRest(Indices(s), n);
  }

  predicate FullyOrdered(r: Report) {
    r.outOfOrderCount == 0 && r.missingIndices == []
  }

  /** A slot counts as fully ordered exactly when its indices never fell and left nothing out. */
  lemma FullyOrderedExactly(slot: nat, s: seq<EntryObservation>)
    requires s != []
    ensures
      var r := ReportFor(slot, s);
      FullyOrdered(r) <==> NonDecreasing(s) && forall i: nat :: i <= r.maxIndex ==> i in Indices(s)
  {
    ReportIsExact(slot, s);
    var r := ReportFor(slot, s);
    assert r.outOfOrderCount == 0 <==> NonDecreasing(s) by {
      if NonDecreasing(s) {
        assert DisplacedIn(s) == {};
      }
      if r.outOfOrderCount == 0 {
        forall j: nat, k: nat | j < k < |s| ensures s[j].entryIndex <= s[k].entryIndex {
          assert s[j].entryIndex > s[k].entryIndex ==> Displaced(s, k);
          assert Displaced(s, k) ==> k in DisplacedIn(s);
        }
      }
    }
    if r.missingIndices != [] {
      assert r.missingIndices[0] in r.missingIndices;
    }
  }

  /**
   The last-entry fields describe the highest-index entry exactly when that index is above
   0 or the entry is a tick: a record never stores an entry of index 0.
   */
  lemma LastEntryFieldsExactly(slot: nat, s: seq<EntryObservation>, k: nat)
    requires IsLastEntry(s, k)
    ensures
      var r := ReportFor(slot, s);
      && (r.lastEntryTxCount == s[k].txCount <==> s[k].entryIndex > 0 || s[k].txCount == 0)
      && (r.lastEntryWasTick == (s[k].txCount == 0) <==> s[k].entryIndex > 0 || s[k].txCount == 0)
  {
    LastEntryIsTracked(s, k);
  }

  /** A slot whose only entry carries a transaction is reported as ending on a tick. */
  lemma LoneEntryIsCalledATick(slot: nat, obs: EntryObservation, s: seq<EntryObservation>)
    requires s == [obs] && obs.entryIndex == 0 && obs.txCount == 1
    ensures IsLastEntry(s, 0) && ReportFor(slot, s).lastEntryWasTick
  {
    assert IsLastEntry(s, 0);
    LastEntryIsTracked(s, 0);
  }

  // ---- the tracker: sealing and the whole run ----

  datatype Counters = Counters(
    slotsSealed: nat,
    slotsFullyOrdered: nat,
    slotsWithDisorder: nat,
    slotsWithGaps: nat,
    slotsEndingOnTick: nat,
    totalOutOfOrder: nat,
    totalMissingIndices: nat)

  function Counted(c: Counters, r: Report): Counters {
    Counters(
      c.slotsSealed + 1,
      c.slotsFullyOrdered + OneIf(FullyOrdered(r)),
      c.slotsWithDisorder + OneIf(r.outOfOrderCount > 0),
      c.slotsWithGaps + OneIf(r.missingIndices != []),
      c.slotsEndingOnTick + OneIf(r.lastEntryWasTick),
      c.totalOutOfOrder + r.outOfOrderCount,
      c.totalMissingIndices + |r.missingIndices|)
  }

  /** The counters that a list of reports amounts to. */
  function Tally(reports: seq<Report>): Counters {
    if reports == [] then Counters(0, 0, 0, 0, 0, 0, 0)
    else Counted(Tally(reports[..|reports| - 1]), reports[|reports| - 1])
  }

  function CountReports(reports: seq<Report>, p: Report -> bool): nat {
    if reports == [] then 0
    else CountReports(reports[..|reports| - 1], p) + OneIf(p(reports[|reports| - 1]))
  }

  function SumReports(reports: seq<Report>, f: Report -> nat): nat {
    if reports == [] then 0 else SumReports(reports[..|reports| - 1], f) + f(reports[|reports| - 1])
  }

  /** What each counter is the number or the sum of. */
  lemma {:induction false} TallyIsExact(reports: seq<Report>)
    ensures var c := Tally(reports);
            && c.slotsSealed == |reports|
            && c.slotsFullyOrdered == CountReports(reports, (r: Report) => r.outOfOrderCount == 0 && r.missingIndices == [])
            && c.slotsWithDisorder == CountReports(reports, (r: Report) => r.outOfOrderCount > 0)
            && c.slotsWithGaps == CountReports(reports, (r: Report) => r.missingIndices != [])
            && c.slotsEndingOnTick == CountReports(reports, (r: Report) => r.lastEntryWasTick)
            && c.totalOutOfOrder == SumReports(reports, (r: Report) => r.outOfOrderCount)
            && c.totalMissingIndices == SumReports(reports, (r: Report) => |r.missingIndices|)
  {
    if reports != [] {
      TallyIsExact(reports[..|reports| - 1]);
    }
  }

  lemma {:induction false} TallyMore(reports: seq<Report>, r: Report)
    ensures Tally(reports + [r]) == Counted(Tally(reports), r)
  {
    assert (reports + [r])[..|reports|] == reports;
  }

  datatype State = State(inProgress: map<nat, SlotProgress>, sealedReports: seq<Report>, highWater: nat)

  const START := State(map[], [], 0)

  function SealOne(st: State, s: nat): State {
    if s in st.inProgress
    then st.(inProgress := st.inProgress - {s},
             sealedReports := st.sealedReports + [ReportOf(s, st.inProgress[s])])
    else st
  }

  /** Seals the given slots in turn. */
  function Seal(st: State, slots: seq<nat>): State
    decreases |slots|
  {
    if slots == [] then st else Seal(SealOne(st, slots[0]), slots[1..])
  }

  /** The stream has moved at least `lag` slots past `slot`. */
  predicate Behind(highWater: nat, lag: nat, slot: nat) {
    highWater > lag && slot <= highWater - lag
  }

  function ToSeal(st: State, lag: nat): set<nat> {
    set s | s in st.inProgress && Behind(st.highWater, lag, s)
  }

  function Noted(st: State, obs: EntryObservation): State {
    var p := if obs.slot in st.inProgress then st.inProgress[obs.slot] else FRESH;
    st.(highWater := Max(st.highWater, obs.slot),
        inProgress := st.inProgress[obs.slot := Note(p, obs)])
  }

  function Observed(st: State, lag: nat, obs: EntryObservation): State {
    var noted := Noted(st, obs);
    Seal(noted, Ascending(ToSeal(noted, lag)))
  }

  function Run(lag: nat, hist: seq<EntryObservation>): State {
    if hist == [] then START
    else Observed(Run(lag, hist[..|hist| - 1]), lag, hist[|hist| - 1])
  }

  function Flush(st: State): State {
    Seal(st, Ascending(st.inProgress.Keys))
  }

  /** The reports of one slot. */
  function ReportsOf(reports: seq<Report>, slot: nat): seq<Report> {
    if reports == [] then []
    else
      ReportsOf(reports[..|reports| - 1], slot) +
      if reports[|reports| - 1].slot == slot then [reports[|reports| - 1]] else []
  }

  /** What sealing adds to the reports of `slot`, if it is among the sealed slots. */
  function SealedReport(st: State, slot: nat, among: bool): seq<Report> {
    if among && slot in st.inProgress then [ReportOf(slot, st.inProgress[slot])] else []
  }

  lemma {:induction false} ReportsOfMore(reports: seq<Report>, r: Report, slot: nat)
    ensures ReportsOf(reports + [r], slot) == ReportsOf(reports, slot) + if r.slot == slot then [r] else []
  {
    assert (reports + [r])[..|reports|] == reports;
  }

  lemma {:induction false} SealOneActs(st: State, s: nat, slot: nat)
    ensures ReportsOf(SealOne(st, s).sealedReports, slot) ==
            ReportsOf(st.sealedReports, slot) + SealedReport(st, slot, slot == s)
  {
    if s in st.inProgress {
      ReportsOfMore(st.sealedReports, ReportOf(s, st.inProgress[s]), slot);
    }
  }

  lemma {:induction false} SealReportsPerSlot(st: State, slots: seq<nat>, slot: nat)
    requires Increasing(slots)
    ensures ReportsOf(Seal(st, slots).sealedReports, slot) ==
            ReportsOf(st.sealedReports, slot) + SealedReport(st, slot, slot in slots)
    decreases |slots|
  {
    if slots != [] {
      var s, rest := slots[0], slots[1..];
      IncreasingTail(slots, slot);
      SealOneActs(st, s, slot);
      SealReportsPerSlot(SealOne(st, s), rest, slot);
      SealedSplit(st, s, slot, slot in rest);
    }
  }

  lemma IncreasingTail(slots: seq<nat>, slot: nat)
    requires Increasing(slots) && slots != []
    ensures Increasing(slots[1..]) && (slot in slots[1..] ==> slot != slots[0])
    ensures slot in slots <==> slot == slots[0] || slot in slots[1..]
  {
    assert slots == [slots[0]] + slots[1..];
  }

  lemma SealedSplit(st: State, s: nat, slot: nat, later: bool)
    requires later ==> slot != s
    ensures SealedReport(st, slot, slot == s) + SealedReport(SealOne(st, s), slot, later) ==
            SealedReport(st, slot, slot == s || later)
  {
  }

  lemma {:induction false} SealRemoves(st: State, slots: seq<nat>)
    ensures Seal(st, slots).highWater == st.highWater
    ensures Seal(st, slots).inProgress == map s | s in st.inProgress && s !in slots :: st.inProgress[s]
    decreases |slots|
  {
    if slots != [] {
      SealRemoves(SealOne(st, slots[0]), slots[1..]);
      assert slots == [slots[0]] + slots[1..];
    }
  }

  // ---- one slot of a run, from the arrivals alone ----

  /** The arrivals of a slot, cut where the tracker sealed it. */
  datatype Cuts = Cuts(highWater: nat, pieces: seq<seq<EntryObservation>>, current: seq<EntryObservation>)

  function Close(c: Cuts): Cuts {
    if c.current == [] then c else c.(pieces := c.pieces + [c.current], current := [])
  }

  function Extend(c: Cuts, slot: nat, obs: EntryObservation): Cuts {
    Cuts(Max(c.highWater, obs.slot), c.pieces, if obs.slot == slot then c.current + [obs] else c.current)
  }

  function Cut(c: Cuts, lag: nat, slot: nat, obs: EntryObservation): Cuts {
    var extended := Extend(c, slot, obs);
    if Behind(extended.highWater, lag, slot) then Close(extended) else extended
  }

  function CutsOf(lag: nat, slot: nat, hist: seq<EntryObservation>): Cuts {
    if hist == [] then Cuts(0, [], [])
    else Cut(CutsOf(lag, slot, hist[..|hist| - 1]), lag, slot, hist[|hist| - 1])
  }

  /** The reports that the pieces of a slot amount to. */
  function ReportEach(slot: nat, pieces: seq<seq<EntryObservation>>): seq<Report> {
    if pieces == [] then []
    else ReportEach(slot, pieces[..|pieces| - 1]) + [ReportFor(slot, pieces[|pieces| - 1])]
  }

  lemma {:induction false} ReportEachMore(slot: nat, pieces: seq<seq<EntryObservation>>, piece: seq<EntryObservation>)
    ensures ReportEach(slot, pieces + [piece]) == ReportEach(slot, pieces) + [ReportFor(slot, piece)]
  {
    assert (pieces + [piece])[..|pieces|] == pieces;
  }

  lemma {:induction false} ProgressOfMore(s: seq<EntryObservation>, obs: EntryObservation)
    ensures ProgressOf(s + [obs]) == Note(ProgressOf(s), obs)
  {
    assert (s + [obs])[..|s|] == s;
  }

  ghost predicate Agrees(st: State, slot: nat, c: Cuts) {
    && st.highWater == c.highWater
    && (slot in st.inProgress <==> c.current != [])
    && (slot in st.inProgress ==> st.inProgress[slot] == ProgressOf(c.current))
    && ReportsOf(st.sealedReports, slot) == ReportEach(slot, c.pieces)
  }

  lemma {:induction false} SealAgrees(st: State, slots: seq<nat>, slot: nat, c: Cuts)
    requires Agrees(st, slot, c) && Increasing(slots)
    ensures Agrees(Seal(st, slots), slot, if slot in slots then Close(c) else c)
  {
    SealRemoves(st, slots);
    SealReportsPerSlot(st, slots, slot);
    ReportEachMore(slot, c.pieces, c.current);
  }

  lemma NotedAgrees(st: State, obs: EntryObservation, slot: nat, c: Cuts)
    requires Agrees(st, slot, c)
    ensures Agrees(Noted(st, obs), slot, Extend(c, slot, obs))
  {
    ProgressOfMore(c.current, obs);
  }

  lemma ObserveAgrees(st: State, lag: nat, obs: EntryObservation, slot: nat, c: Cuts)
    requires Agrees(st, slot, c)
    ensures Agrees(Observed(st, lag, obs), slot, Cut(c, lag, slot, obs))
  {
    var noted, extended := Noted(st, obs), Extend(c, slot, obs);
    NotedAgrees(st, obs, slot, c);
    var slots := Ascending(ToSeal(noted, lag));
    assert slot in slots <==> slot in ToSeal(noted, lag);
    SealAgrees(noted, slots, slot, extended);
  }

  lemma {:induction false} RunAgrees(lag: nat, hist: seq<EntryObservation>, slot: nat)
    ensures Agrees(Run(lag, hist), slot, CutsOf(lag, slot, hist))
  {
    if hist != [] {
      RunAgrees(lag, hist[..|hist| - 1], slot);
      ObserveAgrees(Run(lag, hist[..|hist| - 1]), lag, hist[|hist| - 1], slot,
                    CutsOf(lag, slot, hist[..|hist| - 1]));
    }
  }

  function Concat(pieces: seq<seq<EntryObservation>>): seq<EntryObservation> {
    if pieces == [] then [] else Concat(pieces[..|pieces| - 1]) + pieces[|pieces| - 1]
  }

  /** The arrivals of one slot, in order. */
  function ArrivalsOf(hist: seq<EntryObservation>, slot: nat): seq<EntryObservation> {
    if hist == [] then []
    else
      ArrivalsOf(hist[..|hist| - 1], slot) +
      if hist[|hist| - 1].slot == slot then [hist[|hist| - 1]] else []
  }

  ghost predicate NoneEmpty(pieces: seq<seq<EntryObservation>>) {
    forall k :: 0 <= k < |pieces| ==> pieces[k] != []
  }

  lemma CloseKeeps(c: Cuts)
    requires NoneEmpty(c.pieces)
    ensures NoneEmpty(Close(c).pieces)
    ensures Concat(Close(c).pieces) + Close(c).current == Concat(c.pieces) + c.current
  {
    assert (c.pieces + [c.current])[..|c.pieces|] == c.pieces;
  }

  lemma {:induction false} CutsLoseNothing(lag: nat, slot: nat, hist: seq<EntryObservation>)
    ensures NoneEmpty(CutsOf(lag, slot, hist).pieces)
    ensures Concat(CutsOf(lag, slot, hist).pieces) + CutsOf(lag, slot, hist).current == ArrivalsOf(hist, slot)
  {
    if hist != [] {
      var init, obs := hist[..|hist| - 1], hist[|hist| - 1];
      CutsLoseNothing(lag, slot, init);
      var c := CutsOf(lag, slot, init);
      var extended := Extend(c, slot, obs);
      assert Concat(extended.pieces) + extended.current == ArrivalsOf(hist, slot);
      CloseKeeps(extended);
    }
  }

  /**
   Every run, every slot: the slot's arrivals fall into consecutive nonempty pieces that
   together are all of them, and the tracker's reports of the slot are the reports of these
   pieces, in order. No arrival is lost and none is reported twice.
   */
  lemma EveryArrivalIsReportedOnce(lag: nat, hist: seq<EntryObservation>, slot: nat)
    returns (pieces: seq<seq<EntryObservation>>)
    ensures NoneEmpty(pieces) && Concat(pieces) == ArrivalsOf(hist, slot)
    ensures ReportsOf(Flush(Run(lag, hist)).sealedReports, slot) == ReportEach(slot, pieces)
    ensures Flush(Run(lag, hist)).inProgress == map[]
    ensures pieces == Close(CutsOf(lag, slot, hist)).pieces
  {
    var st, c := Run(lag, hist), CutsOf(lag, slot, hist);
    RunAgrees(lag, hist, slot);
    CutsLoseNothing(lag, slot, hist);
    CloseKeeps(c);
    var keys := Ascending(st.inProgress.Keys);
    SealRemoves(st, keys);
    SealAgrees(st, keys, slot, c);
    pieces := Close(c).pieces;
    assert Agrees(Flush(st), slot, Close(c));
    assert Close(c).current == [];
  }

  // ---- how often a slot is reported ----

  function HighWaterOf(hist: seq<EntryObservation>): nat {
    if hist == [] then 0 else Max(HighWaterOf(hist[..|hist| - 1]), hist[|hist| - 1].slot)
  }

  /** Arrivals of the slot that come after it was seen and left behind. */
  function Comebacks(lag: nat, slot: nat, hist: seq<EntryObservation>): nat {
    if hist == [] then 0
    else
      var init := hist[..|hist| - 1];
      Comebacks(lag, slot, init) +
      OneIf(hist[|hist| - 1].slot == slot && ArrivalsOf(init, slot) != []
            && HighWaterOf(init) > lag && slot + lag <= HighWaterOf(init))
  }

  lemma {:induction false} PiecesCountComebacks(lag: nat, slot: nat, hist: seq<EntryObservation>)
    ensures var c := CutsOf(lag, slot, hist);
            && c.highWater == HighWaterOf(hist)
            && (Behind(c.highWater, lag, slot) ==> c.current == [])
            && (!Behind(c.highWater, lag, slot) ==> c.pieces == [])
            && (ArrivalsOf(hist, slot) == [] <==> c.pieces == [] && c.current == [])
            && |Close(c).pieces| == OneIf(ArrivalsOf(hist, slot) != []) + Comebacks(lag, slot, hist)
  {
    if hist != [] {
      PiecesCountComebacks(lag, slot, hist[..|hist| - 1]);
    }
  }

  /**
   A slot that arrived is reported once plus once for every arrival after it was left
   behind: such an arrival opens a record of its own instead of counting against the sealed
   one.
   */
  lemma {:induction false} ReportsCountComebacks(lag: nat, hist: seq<EntryObservation>, slot: nat)
    ensures |ReportsOf(Flush(Run(lag, hist)).sealedReports, slot)| ==
            OneIf(ArrivalsOf(hist, slot) != []) + Comebacks(lag, slot, hist)
  {
    var pieces := EveryArrivalIsReportedOnce(lag, hist, slot);
    PiecesCountComebacks(lag, slot, hist);
    ReportEachLength(slot, pieces);
  }

  lemma {:induction false} ReportEachLength(slot: nat, pieces: seq<seq<EntryObservation>>)
    ensures |ReportEach(slot, pieces)| == |pieces|
  {
    if pieces != [] {
      ReportEachLength(slot, pieces[..|pieces| - 1]);
    }
  }

  /** With no comeback, the one report of a slot is the report of all its arrivals. */
  lemma {:induction false} OneReportOfEverything(lag: nat, hist: seq<EntryObservation>, slot: nat)
    requires ArrivalsOf(hist, slot) != [] && Comebacks(lag, slot, hist) == 0
    ensures ReportsOf(Flush(Run(lag, hist)).sealedReports, slot) == [ReportFor(slot, ArrivalsOf(hist, slot))]
  {
    var pieces := EveryArrivalIsReportedOnce(lag, hist, slot);
    ReportsCountComebacks(lag, hist, slot);
    ReportEachLength(slot, pieces);
    OnlyPiece(slot, pieces);
  }

  /**
   A slot is in progress exactly when it has arrived and the highest slot seen is not above
   the lag, or is fewer than `lag` slots ahead of it.
   */
  lemma {:induction false} InProgressExactly(lag: nat, hist: seq<EntryObservation>, slot: nat)
    ensures Run(lag, hist).highWater == HighWaterOf(hist)
    ensures slot in Run(lag, hist).inProgress <==>
            ArrivalsOf(hist, slot) != [] && (HighWaterOf(hist) <= lag || HighWaterOf(hist) < slot + lag)
  {
    RunAgrees(lag, hist, slot);
    PiecesCountComebacks(lag, slot, hist);
  }

  /** A slot has one report, of everything, exactly when it arrived and none of its arrivals was a comeback. */
  lemma {:induction false} OneReportExactly(lag: nat, hist: seq<EntryObservation>, slot: nat)
    ensures ReportsOf(Flush(Run(lag, hist)).sealedReports, slot) == [ReportFor(slot, ArrivalsOf(hist, slot))]
            <==> ArrivalsOf(hist, slot) != [] && Comebacks(lag, slot, hist) == 0
  {
    ReportsCountComebacks(lag, hist, slot);
    PiecesCountComebacks(lag, slot, hist);
    if ArrivalsOf(hist, slot) != [] && Comebacks(lag, slot, hist) == 0 {
      OneReportOfEverything(lag, hist, slot);
    }
  }

  lemma {:induction false} OnlyPiece(slot: nat, pieces: seq<seq<EntryObservation>>)
    requires |pieces| == 1
    ensures Concat(pieces) == pieces[0] && ReportEach(slot, pieces) == [ReportFor(slot, pieces[0])]
  {
    var none: seq<seq<EntryObservation>> := pieces[..0];
    assert Concat(none) == [] && ReportEach(slot, none) == [];
  }

  lemma CutsOfMore(lag: nat, slot: nat, hist: seq<EntryObservation>, obs: EntryObservation)
    ensures CutsOf(lag, slot, hist + [obs]) == Cut(CutsOf(lag, slot, hist), lag, slot, obs)
  {
    assert (hist + [obs])[..|hist|] == hist;
  }

  lemma LeftBehind(lag: nat, s: nat, a: EntryObservation, ahead: EntryObservation, c: Cuts)
    requires a.slot == s < ahead.slot && Behind(ahead.slot, lag, s)
    requires c == Cut(Cut(Cuts(0, [], []), lag, s, a), lag, s, ahead)
    ensures c.highWater == ahead.slot && c.pieces == [[a]] && c.current == []
  {
    assert [] + [a] == [a] && [] + [[a]] == [[a]];
  }

  lemma CutOff(lag: nat, s: nat, c: Cuts, b: EntryObservation)
    requires b.slot == s <= c.highWater && Behind(c.highWater, lag, s) && c.current == []
    ensures Close(Cut(c, lag, s, b)).pieces == c.pieces + [[b]]
  {
    assert [] + [b] == [b];
  }

  /** An arrival of a slot that was left behind gets a piece of its own. */
  lemma {:induction false} LateArrivalIsCutOff(lag: nat, a: EntryObservation, ahead: EntryObservation, b: EntryObservation)
    requires a.slot == b.slot < ahead.slot && Behind(ahead.slot, lag, a.slot)
    ensures Close(CutsOf(lag, a.slot, [] + [a] + [ahead] + [b])).pieces == [[a], [b]]
  {
    var s, none: seq<EntryObservation> := a.slot, [];
    CutsOfMore(lag, s, none, a);
    CutsOfMore(lag, s, none + [a], ahead);
    CutsOfMore(lag, s, none + [a] + [ahead], b);
    LeftBehind(lag, s, a, ahead, CutsOf(lag, s, none + [a] + [ahead]));
    CutOff(lag, s, CutsOf(lag, s, none + [a] + [ahead]), b);
  }

  lemma {:induction false} LoneArrivalIsInOrder(slot: nat, obs: EntryObservation)
    ensures ReportFor(slot, [obs]).outOfOrderCount == 0
  {
    ProgressOfMore([], obs);
    assert [] + [obs] == [obs];
  }

  /**
   The broken promise, at an input (with lag 5: slot 1, slot 100, and slot 1 again with a
   lower index): the late entry is not counted out of order against the sealed record; its
   slot is reported a second time, as if nothing were out of order.
   */
  lemma {:induction false} SealedSlotIsReportedAgain(lag: nat, s: nat, a: EntryObservation, ahead: EntryObservation,
                                                     b: EntryObservation, hist: seq<EntryObservation>)
    requires lag == 5 && s == 1 && ahead.slot == 100
    requires a.slot == b.slot == s && b.entryIndex < a.entryIndex
    requires hist == [] + [a] + [ahead] + [b]
    ensures ReportsOf(Flush(Run(lag, hist)).sealedReports, s) == [ReportFor(s, [a]), ReportFor(s, [b])]
    ensures ReportFor(s, [b]).outOfOrderCount == 0 && Displaced([a] + [b], 1)
  {
    LateArrivalIsCutOff(lag, a, ahead, b);
    TwoReports(lag, s, hist, a, b);
    LoneArrivalIsInOrder(s, b);
    assert ([a] + [b])[0].entryIndex > ([a] + [b])[1].entryIndex;
  }

  lemma {:induction false} TwoReports(lag: nat, s: nat, hist: seq<EntryObservation>, a: EntryObservation, b: EntryObservation)
    requires Close(CutsOf(lag, s, hist)).pieces == [[a], [b]]
    ensures ReportsOf(Flush(Run(lag, hist)).sealedReports, s) == [ReportFor(s, [a]), ReportFor(s, [b])]
  {
    var pieces := EveryArrivalIsReportedOnce(lag, hist, s);
    ReportEachTwo(s, [a], [b]);
  }

  lemma {:induction false} ReportEachTwo(s: nat, x: seq<EntryObservation>, y: seq<EntryObservation>)
    ensures ReportEach(s, [x, y]) == [ReportFor(s, x), ReportFor(s, y)]
  {
    ReportEachMore(s, [x], y);
    OnlyPiece(s, [x]);
    assert [x] + [y] == [x, y];
  }

  /** `build_report`. */
  method BuildReport(slot: nat, prog: SlotProgress) returns (r: Report)
    ensures r == ReportOf(slot, prog)
  {
    var (lastIdx, lastTx) := if prog.lastEntry.Some? then prog.lastEntry.value else (0, 0);
    var missing := [];
    if prog.seenIndices != {} {
      for i := 0 to lastIdx + 1
        invariant missing == Missing(prog.seenIndices, i)
      {
        if i !in prog.seenIndices {
          missing := missing + [i];
        }
      }
    }
    r := Report(slot, |prog.seenIndices|, lastIdx, prog.outOfOrder, prog.maxBackwardGap,
                missing, lastTx == 0, lastTx);
  }

  class OrderingTracker {
    var counters: Counters
    var inProgress: map<nat, SlotProgress>
    var sealedReports: seq<Report>
    var highWater: nat
    const sealLag: nat

    /** The counters are those of the reports made so far. */
    ghost predicate Valid()
      reads this
    {
      counters == Tally(sealedReports)
    }

    ghost function Value(): State
      reads this
    {
      State(inProgress, sealedReports, highWater)
    }

    constructor (sealLag: nat)
      ensures Valid() && Value() == START && this.sealLag == sealLag
    {
      this.sealLag := sealLag;
      counters := Counters(0, 0, 0, 0, 0, 0, 0);
      inProgress := map[];
      sealedReports := [];
      highWater := 0;
    }

    method UpdateCounters(report: Report)
      modifies this`counters
      ensures counters == Counted(old(counters), report)
    {
      counters := counters.(slotsSealed := counters.slotsSealed + 1);
      if report.outOfOrderCount == 0 && report.missingIndices == [] {
        counters := counters.(slotsFullyOrdered := counters.slotsFullyOrdered + 1);
      }
      if report.outOfOrderCount > 0 {
        counters := counters.(slotsWithDisorder := counters.slotsWithDisorder + 1);
      }
      if report.missingIndices != [] {
        counters := counters.(slotsWithGaps := counters.slotsWithGaps + 1);
      }
      if report.lastEntryWasTick {
        counters := counters.(slotsEndingOnTick := counters.slotsEndingOnTick + 1);
      }
      counters := counters.(
        totalOutOfOrder := counters.totalOutOfOrder + report.outOfOrderCount,
        totalMissingIndices := counters.totalMissingIndices + |report.missingIndices|);
    }

    method FileReport(report: Report)
      requires Valid()
      modifies this`counters, this`sealedReports
      ensures Valid() && sealedReports == old(sealedReports) + [report]
    {
      TallyMore(sealedReports, report);
      UpdateCounters(report);
      sealedReports := sealedReports + [report];
    }

    /** One slot of the loop below. */
    method SealSlot(slot: nat) returns (reports: seq<Report>)
      requires Valid()
      modifies this
      ensures Valid() && Value() == SealOne(old(Value()), slot)
      ensures sealedReports == old(sealedReports) + reports
    {
      reports := [];
      if slot in inProgress {
        var report := BuildReport(slot, inProgress[slot]);
        inProgress := inProgress - {slot};
        FileReport(report);
        reports := [report];
      }
    }

    /** The common loop of `maybe_seal` and `flush_all`. */
    method SealSlots(slots: seq<nat>) returns (reports: seq<Report>)
      requires Valid()
      modifies this
      ensures Valid() && Value() == Seal(old(Value()), slots)
      ensures sealedReports == old(sealedReports) + reports
    {
      reports := [];
      for i := 0 to |slots|
        invariant Valid()
        invariant Seal(Value(), slots[i..]) == Seal(old(Value()), slots)
        invariant sealedReports == old(sealedReports) + reports
      {
        assert slots[i..][0] == slots[i] && slots[i..][1..] == slots[i + 1..];
        var more := SealSlot(slots[i]);
        reports := reports + more;
      }
    }

    method MaybeSeal() returns (reports: seq<Report>)
      requires Valid()
      modifies this
      ensures Valid()
      ensures Value() == Seal(old(Value()), Ascending(ToSeal(old(Value()), sealLag)))
      ensures sealedReports == old(sealedReports) + reports
    {
      ghost var before := Value();
      if highWater <= sealLag {
        assert ToSeal(before, sealLag) == {};
        return [];
      }
      var cutoff := highWater - sealLag;
      var toSeal := Ascending(set s | s in inProgress && s <= cutoff);
      assert (set s | s in inProgress && s <= cutoff) == ToSeal(before, sealLag);
      reports := SealSlots(toSeal);
    }

    /** `observe`: notes the arrival and returns the reports it sealed. */
    method Observe(obs: EntryObservation) returns (reports: seq<Report>)
      requires Valid()
      modifies this
      ensures Valid() && Value() == Observed(old(Value()), sealLag, obs)
      ensures sealedReports == old(sealedReports) + reports
    {
      ghost var before := Value();
      var idx := obs.entryIndex;
      if obs.slot > highWater {
        highWater := obs.slot;
      }
      var prog := if obs.slot in inProgress then inProgress[obs.slot] else FRESH;
      if idx < prog.maxIndexAtArrival {
        prog := prog.(outOfOrder := prog.outOfOrder + 1);
        var gap := prog.maxIndexAtArrival - idx;
        if gap > prog.maxBackwardGap {
          prog := prog.(maxBackwardGap := gap);
        }
      } else if idx > prog.maxIndexAtArrival {
        prog := prog.(maxIndexAtArrival := idx, lastEntry := Some((idx, obs.txCount)));
      }
      prog := prog.(seenIndices := prog.seenIndices + {idx});
      inProgress := inProgress[obs.slot := prog];
      assert Value() == Noted(before, obs);
      reports := MaybeSeal();
    }

    /** `flush_all`. */
    method FlushAll() returns (reports: seq<Report>)
      requires Valid()
      modifies this
      ensures Valid() && Value() == Flush(old(Value()))
      ensures sealedReports == old(sealedReports) + reports
    {
      reports := SealSlots(Ascending(inProgress.Keys));
    }
  }
}
