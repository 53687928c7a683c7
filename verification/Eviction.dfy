/** Oldest-first eviction, as the archive, the DNS cache and the GeoIP cache all do it. */
module Eviction {
  import opened Wrappers

  ghost predicate SortedBy<K>(keys: seq<K>, stamps: map<K, int>) {
    && (forall k :: k in keys ==> k in stamps)
    && (forall i, j :: 0 <= i < j < |keys| ==> stamps[keys[i]] <= stamps[keys[j]])
  }

  /** Going from `all` to `kept` removes `count` entries, none younger than one that stays. */
  ghost predicate EvictsOldest<K>(stamps: map<K, int>, kept: set<K>, count: nat) {
    && kept <= stamps.Keys
    && |kept| == |stamps| - count
    && forall gone, stays :: gone in stamps && gone !in kept && stays in kept ==> stamps[gone] <= stamps[stays]
  }

  /** Insertion behind equal keys: the sort built from it is stable. */
  function Insert<K>(keys: seq<K>, k: K, stamps: map<K, int>): seq<K>
    requires k in stamps && forall x :: x in keys ==> x in stamps
  {
    if keys == [] then [k]
    else
      var n := |keys| - 1;
      if stamps[keys[n]] <= stamps[k] then keys + [k] else Insert(keys[..n], k, stamps) + [keys[n]]
  }

  lemma {:induction false} InsertHolds<K>(keys: seq<K>, k: K, stamps: map<K, int>)
    requires k in stamps && forall x :: x in keys ==> x in stamps
    ensures |Insert(keys, k, stamps)| == |keys| + 1
    ensures forall x :: x in Insert(keys, k, stamps) <==> x == k || x in keys
  {
    if keys != [] {
      var n := |keys| - 1;
      InsertHolds(keys[..n], k, stamps);
      assert keys == keys[..n] + [keys[n]];
    }
  }

  lemma SortedExtends<K>(keys: seq<K>, k: K, stamps: map<K, int>)
    requires SortedBy(keys, stamps) && Distinct(keys) && k in stamps && k !in keys
    requires forall x :: x in keys ==> stamps[x] <= stamps[k]
    ensures SortedBy(keys + [k], stamps) && Distinct(keys + [k])
  {
  }

  lemma {:induction false} InsertSorts<K>(keys: seq<K>, k: K, stamps: map<K, int>)
    requires k in stamps && k !in keys && Distinct(keys) && SortedBy(keys, stamps)
    ensures Distinct(Insert(keys, k, stamps)) && SortedBy(Insert(keys, k, stamps), stamps)
  {
    if keys != [] {
      var n := |keys| - 1;
      var init, last := keys[..n], keys[n];
      assert keys == init + [last];
      LastIsYoungest(keys, stamps);
      if stamps[last] <= stamps[k] {
        SortedExtends(keys, k, stamps);
      } else {
        InsertSorts(init, k, stamps);
        InsertHolds(init, k, stamps);
        SortedExtends(Insert(init, k, stamps), last, stamps);
      }
    }
  }

  lemma LastIsYoungest<K>(keys: seq<K>, stamps: map<K, int>)
    requires keys != [] && Distinct(keys) && SortedBy(keys, stamps)
    ensures var n := |keys| - 1;
            && keys[n] in stamps && keys[n] !in keys[..n]
            && (forall x :: x in keys ==> x in stamps && stamps[x] <= stamps[keys[n]])
            && Distinct(keys[..n]) && SortedBy(keys[..n], stamps)
  {
  }

  /** All keys, oldest first; the order among equals is the order of iteration, which is open. */
  method SortedKeys<K(==, !new)>(stamps: map<K, int>) returns (keys: seq<K>)
    ensures Distinct(keys) && SortedBy(keys, stamps) && |keys| == |stamps|
    ensures forall k :: k in keys <==> k in stamps
  {
    keys := [];
    var rest := stamps.Keys;
    while rest != {}
      invariant rest <= stamps.Keys
      invariant Distinct(keys) && SortedBy(keys, stamps) && |keys| == |stamps.Keys| - |rest|
      invariant forall k :: k in keys <==> k in stamps && k !in rest
      decreases rest
    {
      var k :| k in rest;
      InsertHolds(keys, k, stamps);
      InsertSorts(keys, k, stamps);
      keys := Insert(keys, k, stamps);
      rest := rest - {k};
    }
  }

  /** The first `n` keys of the list. */
  function Oldest<K>(entries: seq<K>, n: nat): set<K>
    requires n <= |entries|
  {
    set k | k in entries[..n]
  }

  lemma OneMore<K>(entries: seq<K>, n: nat)
    requires n < |entries| && Distinct(entries)
    ensures Oldest(entries, n + 1) == Oldest(entries, n) + {entries[n]} && entries[n] !in Oldest(entries, n)
  {
    assert entries[..n + 1] == entries[..n] + [entries[n]];
  }

  lemma {:induction false} OldestSize<K>(entries: seq<K>, n: nat)
    requires n <= |entries| && Distinct(entries)
    ensures |Oldest(entries, n)| == n
  {
    if n > 0 {
      OldestSize(entries, n - 1);
      OneMore(entries, n - 1);
    }
  }

  /** Removes the `count` oldest entries of the table, whose age `stamps` gives. */
  method RemoveOldest<K(==, !new), V>(table: map<K, V>, stamps: map<K, int>, count: nat) returns (kept: map<K, V>)
    requires stamps.Keys == table.Keys && count <= |table|
    ensures EvictsOldest(stamps, kept.Keys, count)
    ensures forall k :: k in kept ==> k in table && kept[k] == table[k]
  {
    var entries := SortedKeys(stamps);
    assert |stamps| == |stamps.Keys| && |table| == |table.Keys|;
    kept := table;
    var i := 0;
    while i < count
      invariant 0 <= i <= count
      invariant kept == table - Oldest(entries, i)
    {
      OneMore(entries, i);
      kept, i := kept - {entries[i]}, i + 1;
    }
    PrefixIsOldest(entries, stamps, count, kept.Keys);
  }

  lemma PrefixIsOldest<K>(entries: seq<K>, stamps: map<K, int>, count: nat, kept: set<K>)
    requires count <= |entries| == |stamps| && Distinct(entries) && SortedBy(entries, stamps)
    requires forall k :: k in stamps ==> k in entries
    requires kept == stamps.Keys - Oldest(entries, count)
    ensures EvictsOldest(stamps, kept, count)
  {
    OldestSize(entries, count);
    assert Oldest(entries, count) <= stamps.Keys;
    assert |stamps.Keys| == |stamps|;
    forall gone, stays | gone in stamps && gone !in kept && stays in kept
      ensures stamps[gone] <= stamps[stays]
    {
      YoungerStays(entries, stamps, count, gone, stays);
    }
  }

  lemma YoungerStays<K>(entries: seq<K>, stamps: map<K, int>, count: nat, gone: K, stays: K)
    requires count <= |entries| && SortedBy(entries, stamps)
    requires gone in entries[..count] && stays in entries && stays !in entries[..count]
    ensures stamps[gone] <= stamps[stays]
  {
    var i :| 0 <= i < count && entries[i] == gone;
    var j :| 0 <= j < |entries| && entries[j] == stays;
    assert forall q :: 0 <= q < count ==> entries[q] in entries[..count];
  }
}
