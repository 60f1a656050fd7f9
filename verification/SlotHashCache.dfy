/**
 The rolling slot-hash cache (crates/tick-trigger-fan-out-bench/src/nonce/local_compute.rs):
 the last entry hash of each recent slot, from which the next durable nonce is derived.

 The reference is the unbounded last-write-wins map of everything ever recorded.
 */
module SlotHashCache {
  import opened Entries
  import opened OrderedMaps

  datatype Write = Write(slot: nat, hash: Hash)

  /** Drops everything more than `window` slots below the highest key. */
  function Rolled(m: map<nat, Hash>, window: nat): map<nat, Hash> {
    if m == map[] then m
    else var newest := LastKey(m); map k | k in m && newest <= k + window :: m[k]
  }

  function Record(m: map<nat, Hash>, window: nat, w: Write): map<nat, Hash> {
    Rolled(m[w.slot := w.hash], window)
  }

  function CacheAfter(window: nat, writes: seq<Write>): map<nat, Hash> {
    if writes == [] then map[]
    else Record(CacheAfter(window, writes[..|writes| - 1]), window, writes[|writes| - 1])
  }

  /** Unbounded last-write-wins. */
  function LastWrites(writes: seq<Write>): map<nat, Hash> {
    if writes == [] then map[]
    else
      var last := writes[|writes| - 1];
      LastWrites(writes[..|writes| - 1])[last.slot := last.hash]
  }

  /** Rolling first and writing then is the same as writing first, as long as both are rolled. */
  lemma RolledTwice(m: map<nat, Hash>, window: nat, w: Write)
    ensures Rolled(Rolled(m, window)[w.slot := w.hash], window) == Rolled(m[w.slot := w.hash], window)
  {
    var all, part := m[w.slot := w.hash], Rolled(m, window)[w.slot := w.hash];
    assert w.slot in all && w.slot in part;
    if m != map[] {
      var newest := LastKey(m);
      assert newest in part && newest in all;
      assert LastKey(all) == LastKey(part) == Max(newest, w.slot);
    }
    assert Rolled(part, window).Keys == Rolled(all, window).Keys;
  }

  /** The cache is always the unbounded map restricted to the window below its highest slot. */
  lemma {:induction false} CacheIsWindowOfHistory(window: nat, writes: seq<Write>)
    ensures CacheAfter(window, writes) == Rolled(LastWrites(writes), window)
  {
    if writes != [] {
      var init, last := writes[..|writes| - 1], writes[|writes| - 1];
      CacheIsWindowOfHistory(window, init);
      RolledTwice(LastWrites(init), window, last);
    }
  }

  predicate Written(writes: seq<Write>, slot: nat) {
    exists i :: 0 <= i < |writes| && writes[i].slot == slot
  }

  lemma {:induction false} LastWritesHolds(writes: seq<Write>, slot: nat)
    ensures slot in LastWrites(writes) <==> Written(writes, slot)
  {
    if writes != [] {
      var init, last := writes[..|writes| - 1], writes[|writes| - 1];
      LastWritesHolds(init, slot);
      assert forall i :: 0 <= i < |init| ==> init[i] == writes[i];
      if last.slot == slot {
        assert writes[|writes| - 1].slot == slot;
      }
    }
  }

  /**
   A slot is in the cache exactly when it has been written and no slot more than `window`
   above it has ever been; its hash is the last one written.
   */
  lemma {:induction false} OldSlotsLeaveExactly(window: nat, writes: seq<Write>, slot: nat)
    ensures var c := CacheAfter(window, writes);
            && (slot in c <==> Written(writes, slot) && forall i :: 0 <= i < |writes| ==> writes[i].slot <= slot + window)
            && (slot in c ==> slot in LastWrites(writes) && c[slot] == LastWrites(writes)[slot])
  {
    CacheIsWindowOfHistory(window, writes);
    var m := LastWrites(writes);
    LastWritesHolds(writes, slot);
    if m != map[] {
      var newest := LastKey(m);
      LastWritesHolds(writes, newest);
      forall i | 0 <= i < |writes| ensures writes[i].slot <= newest {
        LastWritesHolds(writes, writes[i].slot);
      }
      var j :| 0 <= j < |writes| && writes[j].slot == newest;
    }
  }

  /** Repeating the latest write of a slot, however much later, changes nothing. */
  lemma {:induction false} RepeatedWriteIsInvisible(window: nat, writes: seq<Write>, w: Write)
    requires w.slot in LastWrites(writes) && LastWrites(writes)[w.slot] == w.hash
    ensures CacheAfter(window, writes + [w]) == CacheAfter(window, writes)
  {
    CacheIsWindowOfHistory(window, writes);
    CacheIsWindowOfHistory(window, writes + [w]);
    assert (writes + [w])[..|writes|] == writes;
    assert LastWrites(writes)[w.slot := w.hash] == LastWrites(writes);
  }

  /** The answer of the lookup, stated on the unbounded history. */
  predicate IsLatestBefore(m: map<nat, Hash>, landed: nat, lookback: nat, r: Option<Write>) {
    match r
    case Some(w) =>
      && w.slot < landed <= w.slot + lookback
      && w.slot in m && m[w.slot] == w.hash
      && forall t :: w.slot < t < landed ==> t !in m
    case None => forall t :: t in m ==> landed <= t || t + lookback < landed
  }

  class Cache {
    var inner: map<nat, Hash>
    const window: nat

    constructor (window: nat)
      ensures inner == map[] && this.window == window
    {
      this.window := window;
      inner := map[];
    }

    method RecordEntry(slot: nat, hash: Hash)
      modifies this
      ensures inner == Record(old(inner), window, Write(slot, hash))
    {
      inner := inner[slot := hash];
      ghost var all := inner;
      assert slot in inner;
      var maxSlot := LastKey(inner);
      if maxSlot > window {
        var cutoff := maxSlot - window;
        while inner != map[]
          invariant maxSlot in inner
          invariant forall k :: k in inner ==> k in all && inner[k] == all[k]
          invariant forall k :: k in all && k >= cutoff ==> k in inner
          decreases |inner|
        {
          var k := FirstKey(inner);
          if k >= cutoff {
            break;
          }
          assert (inner - {k}).Keys == inner.Keys - {k};
          inner := inner - {k};
        }
      }
      assert inner == Rolled(all, window);
    }

    /**
     The greatest recorded slot in [landed - lookback, landed - 1], with its hash; the
     nonce derived from that hash is left to the caller.
     */
    method LatestBefore(landed: nat, lookback: nat) returns (r: Option<Write>)
      ensures IsLatestBefore(inner, landed, lookback, r)
    {
      for back := 1 to lookback + 1
        invariant forall t :: t in inner ==> landed <= t || t + (back - 1) < landed
      {
        if landed < back {
          return None;
        }
        var s := landed - back;
        if s in inner {
          return Some(Write(s, inner[s]));
        }
      }
      return None;
    }
  }

  /**
   A lookup whose range lies inside the window answers as the unbounded history would;
   `r` is what the cache answers.
   */
  lemma {:induction false} LookupMissesNothing(window: nat, writes: seq<Write>, landed: nat, lookback: nat, r: Option<Write>)
    requires IsLatestBefore(CacheAfter(window, writes), landed, lookback, r)
    requires forall k :: k in LastWrites(writes) ==> k + lookback <= landed + window
    ensures IsLatestBefore(LastWrites(writes), landed, lookback, r)
  {
    CacheIsWindowOfHistory(window, writes);
    var m := LastWrites(writes);
    if m != map[] {
      var newest := LastKey(m);
      forall t | t in m && t < landed <= t + lookback
        ensures t in CacheAfter(window, writes)
      {
      }
    }
  }
}
