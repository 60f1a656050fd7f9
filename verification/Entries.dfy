/**
 Values shared by every stage of the entry pipeline
 (crates/entry-sources/src/observation.rs, crates/tick-trigger-fan-out-bench/src/merger.rs).

 Hashes and signatures are opaque identities: only their equality matters. Instants
 are microseconds since some epoch.
 */
module Entries {

  datatype Option<+T> = None | Some(value: T)

  datatype Hash = Hash(id: nat)

  datatype Signature = Signature(id: nat)

  datatype SourceKind = Yellowstone | ShredStream

  datatype EntryObservation = EntryObservation(
    source: SourceKind,
    observedAt: nat,
    slot: nat,
    entryIndex: nat,
    numHashes: nat,
    entryHash: Hash,
    txCount: nat,
    signatures: seq<Signature>)

  datatype MergedEntry = MergedEntry(observation: EntryObservation, firstSeenSource: SourceKind)

  const DEFAULT_HASH := Hash(0)
  const U32_MAX: nat := 0xFFFF_FFFF
  const U64_MAX: nat := 0xFFFF_FFFF_FFFF_FFFF

  function Min(a: int, b: int): int {
    if a <= b then a else b
  }

  function Max(a: int, b: int): int {
    if a >= b then a else b
  }

  function OneIf(b: bool): nat {
    if b then 1 else 0
  }

  /** `saturating_sub`, and `saturating_duration_since` on instants. */
  function SatSub(a: nat, b: nat): nat {
    if a <= b then 0 else a - b
  }

  /** `u64::saturating_add`. */
  function SatAdd64(a: nat, b: nat): nat {
    if a + b <= U64_MAX then a + b else U64_MAX
  }
}

/**
 The two facts about ordered maps (Rust's `BTreeMap`) that the pipeline uses: the first
 key, and iteration in ascending key order.
 */
module OrderedMaps {

  predicate IsLeast(k: nat, s: set<nat>) {
    k in s && forall j :: j in s ==> k <= j
  }

  lemma {:induction false} LeastElementExists(s: set<nat>)
    requires s != {}
    ensures exists k :: IsLeast(k, s)
  {
    var x :| x in s;
    var rest := s - {x};
    if rest == {} {
      assert s == {x};
      assert IsLeast(x, s);
    } else {
      LeastElementExists(rest);
      var k :| IsLeast(k, rest);
      assert forall j :: j in s ==> j == x || j in rest;
      assert IsLeast(if x <= k then x else k, s);
    }
  }

  function Least(s: set<nat>): (k: nat)
    requires s != {}
    ensures k in s && forall j :: j in s ==> k <= j
  {
    LeastElementExists(s);
    var k :| IsLeast(k, s);
    k
  }

  /** `BTreeMap::first_key_value`, the key part. */
  function FirstKey<T>(m: map<nat, T>): (k: nat)
    requires m != map[]
    ensures k in m && forall j :: j in m ==> k <= j
  {
    assert m.Keys != {};
    Least(m.Keys)
  }

  /** `BTreeMap::last_key_value`, the key part. */
  function LastKey<T>(m: map<nat, T>): (k: nat)
    requires m != map[]
    ensures k in m && forall j :: j in m ==> j <= k
    decreases |m|
  {
    var first := FirstKey(m);
    var rest := m - {first};
    if rest == map[] then
      assert m.Keys == {first} + rest.Keys;
      first
    else
      assert |m - {first}| < |m| by { assert m.Keys == rest.Keys + {first}; }
      assert forall j :: j in m ==> j == first || j in rest;
      LastKey(rest)
  }

  predicate Increasing(keys: seq<nat>) {
    forall i, j :: 0 <= i < j < |keys| ==> keys[i] < keys[j]
  }

  /** `BTreeMap::keys().copied().collect()`. */
  function Ascending(s: set<nat>): (keys: seq<nat>)
    ensures Increasing(keys)
    ensures forall k :: k in keys <==> k in s
  {
    if s == {} then []
    else
      var k := Least(s);
      [k] + Ascending(s - {k})
  }
}
