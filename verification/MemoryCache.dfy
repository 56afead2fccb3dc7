/** The size-accounted least-recently-used caches: MemCacheUnit in quant_master/data/cache.py and
    the query cache of NumpyQuote in quant_master/backtest/high_performance_ds.py. */
module MemoryCache {
  import opened Common

  /** An ordered dictionary: keys from oldest to newest, each with a value. */
  datatype Ordered<K(==,!new), V> = Ordered(keys: seq<K>, vals: map<K, V>)

  ghost predicate WellFormed<K(!new), V>(od: Ordered<K, V>) {
    && (forall i, j :: 0 <= i < j < |od.keys| ==> od.keys[i] != od.keys[j])
    && (forall k :: k in od.keys <==> k in od.vals)
  }

  function Remove<K(==,!new)>(keys: seq<K>, k: K): (r: seq<K>)
    ensures forall x :: x in r ==> x in keys
  {
    if keys == [] then []
    else if keys[0] == k then keys[1..]
    else [keys[0]] + Remove(keys[1..], k)
  }

  lemma {:induction false} RemoveExact<K(!new)>(keys: seq<K>, k: K)
    requires forall i, j :: 0 <= i < j < |keys| ==> keys[i] != keys[j]
    ensures var r := Remove(keys, k);
            && (forall x :: x in r <==> x in keys && x != k)
            && (forall i, j :: 0 <= i < j < |r| ==> r[i] != r[j])
            && |r| == |keys| - if k in keys then 1 else 0
  {
    if keys != [] && keys[0] != k {
      RemoveExact(keys[1..], k);
      var rest := Remove(keys[1..], k);
      var r := Remove(keys, k);
      assert keys[0] !in keys[1..];
      assert keys[0] !in rest;
      assert forall i :: 0 <= i < |rest| ==> rest[i] in rest;
    }
  }

  /** Sum of the sizes of the values of some keys. */
  function Total<K(==,!new), V>(keys: seq<K>, vals: map<K, V>, sizeOf: V -> nat): nat
    requires forall x :: x in keys ==> x in vals
  {
    if keys == [] then 0 else sizeOf(vals[keys[0]]) + Total(keys[1..], vals, sizeOf)
  }

  lemma {:induction false} TotalFrame<K(!new), V>(keys: seq<K>, vals: map<K, V>, vals': map<K, V>, sizeOf: V -> nat)
    requires forall x :: x in keys ==> x in vals && x in vals' && vals[x] == vals'[x]
    ensures Total(keys, vals, sizeOf) == Total(keys, vals', sizeOf)
  {
    if keys != [] {
      TotalFrame(keys[1..], vals, vals', sizeOf);
    }
  }

  lemma {:induction false} TotalSnoc<K(!new), V>(keys: seq<K>, k: K, vals: map<K, V>, sizeOf: V -> nat)
    requires k in vals && forall x :: x in keys ==> x in vals
    ensures Total(keys + [k], vals, sizeOf) == Total(keys, vals, sizeOf) + sizeOf(vals[k])
  {
    if keys != [] {
      assert (keys + [k])[1..] == keys[1..] + [k];
      TotalSnoc(keys[1..], k, vals, sizeOf);
    }
  }

  lemma {:induction false} TotalRemove<K(!new), V>(keys: seq<K>, k: K, vals: map<K, V>, sizeOf: V -> nat)
    requires k in keys && forall x :: x in keys ==> x in vals
    ensures Total(Remove(keys, k), vals, sizeOf) == Total(keys, vals, sizeOf) - sizeOf(vals[k])
  {
    if keys[0] != k {
      TotalRemove(keys[1..], k, vals, sizeOf);
    }
  }

  // ----- the effect of each operation -----

  /** Store a value as the newest entry. */
  function Store<K(==,!new), V>(od: Ordered<K, V>, k: K, v: V): Ordered<K, V> {
    Ordered(Remove(od.keys, k) + [k], od.vals[k := v])
  }

  /** Look a stored key up: it becomes the newest entry. */
  function Touch<K(==,!new), V>(od: Ordered<K, V>, k: K): Ordered<K, V> {
    if k in od.vals then Ordered(Remove(od.keys, k) + [k], od.vals) else od
  }

  function Delete<K(==,!new), V>(od: Ordered<K, V>, k: K): Ordered<K, V> {
    Ordered(Remove(od.keys, k), map x | x in od.vals && x != k :: od.vals[x])
  }

  /** Forget the `n` oldest entries. */
  function DropOldest<K(==,!new), V>(od: Ordered<K, V>, n: nat): Ordered<K, V>
    requires n <= |od.keys|
  {
    Ordered(od.keys[n..], map x | x in od.vals && x in od.keys[n..] :: od.vals[x])
  }

  lemma {:induction false} StoreWellFormed<K(!new), V>(od: Ordered<K, V>, k: K, v: V)
    requires WellFormed(od)
    ensures WellFormed(Store(od, k, v))
    ensures |Store(od, k, v).keys| <= |od.keys| + 1
  {
    RemoveExact(od.keys, k);
  }

  lemma {:induction false} TouchWellFormed<K(!new), V>(od: Ordered<K, V>, k: K)
    requires WellFormed(od)
    ensures WellFormed(Touch(od, k))
  {
    RemoveExact(od.keys, k);
  }

  lemma {:induction false} DeleteWellFormed<K(!new), V>(od: Ordered<K, V>, k: K)
    requires WellFormed(od)
    ensures WellFormed(Delete(od, k))
  {
    RemoveExact(od.keys, k);
  }

  lemma {:induction false} DropOldestWellFormed<K(!new), V>(od: Ordered<K, V>, n: nat)
    requires WellFormed(od) && n <= |od.keys|
    ensures WellFormed(DropOldest(od, n))
  {
    assert forall x :: x in od.keys[n..] ==> x in od.keys;
  }

  lemma {:induction false} DropMore<K(!new), V>(od: Ordered<K, V>, n: nat)
    requires WellFormed(od) && n < |od.keys|
    ensures DropOldest(DropOldest(od, n), 1) == DropOldest(od, n + 1)
    ensures od.keys[n..][1..] == od.keys[n + 1..]
  {
    assert od.keys[n..][1..] == od.keys[n + 1..];
    assert forall x :: x in od.keys[n + 1..] ==> x in od.keys[n..];
  }

  // ----- eviction -----

  /** How many of the oldest entries must go before the rest fits. */
  function EvictCount<K(==,!new), V>(keys: seq<K>, vals: map<K, V>, sizeOf: V -> nat, limit: nat): (n: nat)
    requires forall x :: x in keys ==> x in vals
    ensures n <= |keys|
  {
    if Total(keys, vals, sizeOf) <= limit then 0 else 1 + EvictCount(keys[1..], vals, sizeOf, limit)
  }

  /** The evicted prefix is enough, and no shorter prefix is. */
  lemma {:induction false} EvictCountMinimal<K(!new), V>(keys: seq<K>, vals: map<K, V>, sizeOf: V -> nat, limit: nat)
    requires forall x :: x in keys ==> x in vals
    ensures var n := EvictCount(keys, vals, sizeOf, limit);
            && Total(keys[n..], vals, sizeOf) <= limit
            && forall m :: 0 <= m < n ==> Total(keys[m..], vals, sizeOf) > limit
  {
    if Total(keys, vals, sizeOf) <= limit {
      assert keys[0..] == keys;
    } else {
      EvictCountMinimal(keys[1..], vals, sizeOf, limit);
      var n := EvictCount(keys[1..], vals, sizeOf, limit);
      assert keys[1..][n..] == keys[n + 1..];
      forall m | 0 <= m < n + 1
        ensures Total(keys[m..], vals, sizeOf) > limit
      {
        if m == 0 {
          assert keys[0..] == keys;
        } else {
          assert keys[1..][m - 1..] == keys[m..];
        }
      }
    }
  }

  /** What an insertion does: store as newest, then, if there is a limit, evict oldest-first. */
  function Insert<K(==,!new), V>(od: Ordered<K, V>, k: K, v: V, sizeOf: V -> nat, limit: int): Ordered<K, V>
    requires forall x :: x in Store(od, k, v).keys ==> x in Store(od, k, v).vals
  {
    var stored := Store(od, k, v);
    if limit > 0 then DropOldest(stored, EvictCount(stored.keys, stored.vals, sizeOf, limit)) else stored
  }

  /** The keys but one, in their order. */
  function Others<K(==,!new)>(keys: seq<K>, k: K): seq<K> {
    if keys == [] then []
    else
      var n := |keys| - 1;
      Others(keys[..n], k) + if keys[n] == k then [] else [keys[n]]
  }

  lemma {:induction false} OthersConcat<K(!new)>(a: seq<K>, b: seq<K>, k: K)
    ensures Others(a + b, k) == Others(a, k) + Others(b, k)
    decreases |b|
  {
    if b == [] {
      assert a + b == a;
    } else {
      var n := |b| - 1;
      assert (a + b)[..|a| + n] == a + b[..n];
      OthersConcat(a, b[..n], k);
    }
  }

  /** Where keys do not repeat, removing one leaves exactly the others. */
  lemma {:induction false} RemoveIsOthers<K(!new)>(keys: seq<K>, k: K)
    requires forall i, j :: 0 <= i < j < |keys| ==> keys[i] != keys[j]
    ensures Remove(keys, k) == Others(keys, k)
  {
    if keys != [] {
      assert keys == [keys[0]] + keys[1..];
      OthersConcat([keys[0]], keys[1..], k);
      assert Others([keys[0]], k) == if keys[0] == k then [] else [keys[0]];
      RemoveIsOthers(keys[1..], k);
      if keys[0] == k {
        RemoveAbsent(keys[1..], k);
      }
    }
  }

  /** What may become of a cache when a pair is stored: the pair is the newest entry, all others keep their
      values and their order, the sizes fit the limit if there is one, and an entry is missing only if the
      sizes from it on to the newest exceed that limit. */
  ghost predicate KeepsWhatFits<K(!new), V>(
    before: Ordered<K, V>, after: Ordered<K, V>, k: K, v: V, sizeOf: V -> nat, limit: int)
    requires WellFormed(before)
  {
    OthersWithin(before.keys, k);
    var keys, vals := Others(before.keys, k) + [k], before.vals[k := v];
    exists n :: 0 <= n <= |keys| && KeepsFrom(keys, vals, n, after, sizeOf, limit)
  }

  ghost predicate KeepsFrom<K(!new), V>(
    keys: seq<K>, vals: map<K, V>, n: nat, after: Ordered<K, V>, sizeOf: V -> nat, limit: int)
    requires n <= |keys| && forall x :: x in keys ==> x in vals
  {
    && after.keys == keys[n..]
    && after.vals == (map x | x in vals && x in keys[n..] :: vals[x])
    && (limit > 0 ==> Total(keys[n..], vals, sizeOf) <= limit)
    && forall m :: 0 <= m < n ==> 0 < limit < Total(keys[m..], vals, sizeOf)
  }

  lemma {:induction false} OthersWithin<K(!new)>(keys: seq<K>, k: K)
    ensures forall x :: x in Others(keys, k) <==> x in keys && x != k
  {
    if keys != [] {
      var n := |keys| - 1;
      assert keys == keys[..n] + [keys[n]];
      OthersWithin(keys[..n], k);
    }
  }

  /** Nothing is forgotten without need. */
  lemma {:induction false} InsertKeepsWhatFits<K(!new), V>(
    od: Ordered<K, V>, k: K, v: V, sizeOf: V -> nat, limit: int)
    requires WellFormed(od)
    ensures WellFormed(Store(od, k, v)) && KeepsWhatFits(od, Insert(od, k, v, sizeOf, limit), k, v, sizeOf, limit)
  {
    StoreWellFormed(od, k, v);
    RemoveIsOthers(od.keys, k);
    OthersWithin(od.keys, k);
    var st := Store(od, k, v);
    var n := if limit > 0 then EvictCount(st.keys, st.vals, sizeOf, limit) else 0;
    if limit > 0 {
      EvictCountMinimal(st.keys, st.vals, sizeOf, limit);
    }
    assert KeepsFrom(st.keys, st.vals, n, Insert(od, k, v, sizeOf, limit), sizeOf, limit);
  }

  /** The cache unit. A size limit of zero or less means no limit. */
  class MemCacheUnit<K(==,!new), V> {
    const sizeOf: V -> nat
    var sizeLimit: int
    var size: int
    var od: Ordered<K, V>

    constructor (sizeOf: V -> nat, sizeLimit: int)
      ensures this.sizeOf == sizeOf && this.sizeLimit == sizeLimit
      ensures Valid() && od == Ordered([], map[])
    {
      this.sizeOf, this.sizeLimit := sizeOf, sizeLimit;
      size, od := 0, Ordered([], map[]);
    }

    ghost predicate Valid()
      reads `size, `od
    {
      WellFormed(od) && size == Total(od.keys, od.vals, sizeOf)
    }

    method SetItem(key: K, value: V)
      requires Valid()
      modifies `size, `od
      ensures Valid()
      ensures WellFormed(Store(old(od), key, value))
      ensures od == Insert(old(od), key, value, sizeOf, sizeLimit)
      ensures KeepsWhatFits(old(od), od, key, value, sizeOf, sizeLimit)
      ensures sizeLimit > 0 ==> size <= sizeLimit
    {
      InsertKeepsWhatFits(od, key, value, sizeOf, sizeLimit);
      AdjustSize(key, value);
      StoreWellFormed(od, key, value);
      od := Store(od, key, value);
      if sizeLimit > 0 {
        EvictOldest();
      }
    }

    /** Remove oldest entries until the rest fits. */
    method EvictOldest()
      requires Valid() && sizeLimit > 0
      modifies `size, `od
      ensures Valid() && size <= sizeLimit
      ensures od == DropOldest(old(od), EvictCount(old(od).keys, old(od).vals, sizeOf, sizeLimit))
    {
      ghost var start := od;
      ghost var n := 0;
      assert start.keys[0..] == start.keys;
      while size > sizeLimit
        invariant n <= |start.keys| && od.keys == start.keys[n..] && od == DropOldest(start, n) && Valid()
        invariant EvictCount(start.keys, start.vals, sizeOf, sizeLimit) ==
                  n + EvictCount(start.keys[n..], start.vals, sizeOf, sizeLimit)
        decreases |od.keys|
      {
        TotalFrame(od.keys, od.vals, start.vals, sizeOf);
        DropMore(start, n);
        var k, v := PopOldest();
        n := n + 1;
      }
      TotalFrame(od.keys, od.vals, start.vals, sizeOf);
    }

    /** Account for a value about to be stored. */
    method AdjustSize(key: K, value: V)
      requires Valid()
      modifies `size
      ensures WellFormed(Store(od, key, value))
      ensures size == Total(Store(od, key, value).keys, Store(od, key, value).vals, sizeOf)
    {
      RemoveExact(od.keys, key);
      StoreWellFormed(od, key, value);
      if key in od.vals {
        TotalRemove(od.keys, key, od.vals, sizeOf);
        size := size - sizeOf(od.vals[key]);
      } else {
        RemoveAbsent(od.keys, key);
      }
      size := size + sizeOf(value);
      var kept := Remove(od.keys, key);
      TotalFrame(kept, od.vals, od.vals[key := value], sizeOf);
      TotalSnoc(kept, key, od.vals[key := value], sizeOf);
    }

    /** Remove and return the oldest entry. */
    method PopOldest() returns (k: K, v: V)
      requires Valid() && od.keys != []
      modifies `size, `od
      ensures Valid() && od == DropOldest(old(od), 1)
      ensures k == old(od).keys[0] && v == old(od).vals[k] && size == old(size) - sizeOf(v)
    {
      DropOldestWellFormed(od, 1);
      k := od.keys[0];
      v := od.vals[k];
      ghost var before := od;
      od := DropOldest(od, 1);
      size := size - sizeOf(v);
      TotalFrame(od.keys, before.vals, od.vals, sizeOf);
    }

    /** Remove and return an entry; a missing key is an error. */
    method Pop(key: K) returns (v: Option<V>)
      requires Valid()
      modifies `size, `od
      ensures Valid() && od == Delete(old(od), key)
      ensures v == if key in old(od).vals then Some(old(od).vals[key]) else None
    {
      DeleteWellFormed(od, key);
      RemoveExact(od.keys, key);
      if key !in od.vals {
        RemoveAbsent(od.keys, key);
        return None;
      }
      v := Some(od.vals[key]);
      TotalRemove(od.keys, key, od.vals, sizeOf);
      ghost var before := od;
      od := Delete(od, key);
      size := size - sizeOf(v.value);
      TotalFrame(od.keys, before.vals, od.vals, sizeOf);
    }

    /** A lookup that also marks the entry as newest. */
    method Get(key: K) returns (v: Option<V>)
      requires Valid()
      modifies `od
      ensures Valid() && od == Touch(old(od), key)
      ensures v == if key in old(od).vals then Some(old(od).vals[key]) else None
    {
      TouchWellFormed(od, key);
      v := None;
      if key in od.vals {
        v := Some(od.vals[key]);
        RemoveExact(od.keys, key);
        TotalRemove(od.keys, key, od.vals, sizeOf);
        TotalSnoc(Remove(od.keys, key), key, od.vals, sizeOf);
        od := Touch(od, key);
      }
    }

    method Contains(key: K) returns (b: bool)
      requires Valid()
      ensures b <==> key in od.keys
    {
      b := key in od.vals;
    }

    method Clear()
      modifies `size, `od
      ensures Valid() && od == Ordered([], map[])
    {
      size, od := 0, Ordered([], map[]);
    }

    method SetLimitSize(limit: int)
      modifies `sizeLimit
      ensures sizeLimit == limit
    {
      sizeLimit := limit;
    }
  }

  lemma {:induction false} RemoveAbsent<K(!new)>(keys: seq<K>, k: K)
    requires k !in keys
    ensures Remove(keys, k) == keys
  {
    if keys != [] {
      RemoveAbsent(keys[1..], k);
    }
  }

  // ----- whole runs -----

  datatype Op<K(==,!new), V> = Put(key: K, value: V) | Lookup(key: K) | Discard(key: K) | Reset | Limit(limit: int)

  /** The cache together with the last value stored under each key and the keys in order of last use. */
  datatype Run<K(==,!new), V> = Run(od: Ordered<K, V>, limit: int, stored: map<K, V>, used: seq<K>)

  ghost function Step<K(!new), V>(r: Run<K, V>, op: Op<K, V>, sizeOf: V -> nat): Run<K, V>
    requires WellFormed(r.od)
  {
    match op
    case Put(k, v) =>
      StoreWellFormed(r.od, k, v);
      Run(Insert(r.od, k, v, sizeOf, r.limit), r.limit, r.stored[k := v], Remove(r.used, k) + [k])
    case Lookup(k) =>
      Run(Touch(r.od, k), r.limit, r.stored, if k in r.od.vals then Remove(r.used, k) + [k] else r.used)
    case Discard(k) =>
      Run(Delete(r.od, k), r.limit, map x | x in r.stored && x != k :: r.stored[x], Remove(r.used, k))
    case Reset => Run(Ordered([], map[]), r.limit, map[], [])
    case Limit(n) => r.(limit := n)
  }

  ghost function RunAll<K(!new), V>(r: Run<K, V>, ops: seq<Op<K, V>>, sizeOf: V -> nat): (r': Run<K, V>)
    requires WellFormed(r.od)
    ensures WellFormed(r'.od)
    decreases |ops|
  {
    if ops == [] then r
    else
      StepWellFormed(r, ops[0], sizeOf);
      RunAll(Step(r, ops[0], sizeOf), ops[1..], sizeOf)
  }

  lemma {:induction false} StepWellFormed<K(!new), V>(r: Run<K, V>, op: Op<K, V>, sizeOf: V -> nat)
    requires WellFormed(r.od)
    ensures WellFormed(Step(r, op, sizeOf).od)
  {
    match op
    case Put(k, v) =>
      StoreWellFormed(r.od, k, v);
      var st := Store(r.od, k, v);
      DropOldestWellFormed(st, if r.limit > 0 then EvictCount(st.keys, st.vals, sizeOf, r.limit) else 0);
    case Lookup(k) => TouchWellFormed(r.od, k);
    case Discard(k) => DeleteWellFormed(r.od, k);
    case Reset =>
    case Limit(n) =>
  }

  /** What the cache holds: only last stored values, and the most recently used keys of all. */
  ghost predicate Faithful<K(!new), V>(r: Run<K, V>) {
    && WellFormed(r.od)
    && (forall k :: k in r.od.vals ==> k in r.stored && r.od.vals[k] == r.stored[k])
    && (forall i, j :: 0 <= i < j < |r.used| ==> r.used[i] != r.used[j])
    && |r.od.keys| <= |r.used|
    && r.od.keys == r.used[|r.used| - |r.od.keys|..]
  }

  lemma {:induction false} RemoveFromSuffix<K(!new)>(older: seq<K>, keys: seq<K>, k: K)
    requires forall i, j :: 0 <= i < j < |older + keys| ==> (older + keys)[i] != (older + keys)[j]
    ensures Remove(older + keys, k) == Remove(older, k) + Remove(keys, k)
  {
    if older == [] {
      assert older + keys == keys;
    } else if older[0] == k {
      assert k !in keys by {
        assert forall j :: 0 <= j < |keys| ==> keys[j] == (older + keys)[|older| + j] && (older + keys)[0] == k;
      }
      RemoveAbsent(keys, k);
      assert (older + keys)[1..] == older[1..] + keys;
    } else {
      assert (older + keys)[1..] == older[1..] + keys;
      RemoveFromSuffix(older[1..], keys, k);
    }
  }

  /** Removing one key from both lists keeps the one a suffix of the other. */
  lemma {:induction false} SuffixAfterRemove<K(!new)>(used: seq<K>, keys: seq<K>, k: K)
    requires |keys| <= |used| && keys == used[|used| - |keys|..]
    requires forall i, j :: 0 <= i < j < |used| ==> used[i] != used[j]
    ensures var used', keys' := Remove(used, k), Remove(keys, k);
            |keys'| <= |used'| && keys' == used'[|used'| - |keys'|..]
  {
    var older := used[..|used| - |keys|];
    assert used == older + keys;
    RemoveFromSuffix(older, keys, k);
  }

  lemma {:induction false} UseKeepsSuffix<K(!new)>(used: seq<K>, keys: seq<K>, k: K)
    requires |keys| <= |used| && keys == used[|used| - |keys|..]
    requires forall i, j :: 0 <= i < j < |used| ==> used[i] != used[j]
    ensures var used', keys' := Remove(used, k) + [k], Remove(keys, k) + [k];
            && |keys'| <= |used'| && keys' == used'[|used'| - |keys'|..]
            && forall i, j :: 0 <= i < j < |used'| ==> used'[i] != used'[j]
  {
    SuffixAfterRemove(used, keys, k);
    RemoveExact(used, k);
    assert forall i :: 0 <= i < |Remove(used, k)| ==> Remove(used, k)[i] in Remove(used, k);
  }

  lemma {:induction false} StoreFaithful<K(!new), V>(r: Run<K, V>, k: K, v: V)
    requires Faithful(r)
    ensures Faithful(Run(Store(r.od, k, v), r.limit, r.stored[k := v], Remove(r.used, k) + [k]))
  {
    StoreWellFormed(r.od, k, v);
    UseKeepsSuffix(r.used, r.od.keys, k);
  }

  lemma {:induction false} DropFaithful<K(!new), V>(r: Run<K, V>, n: nat)
    requires Faithful(r) && n <= |r.od.keys|
    ensures Faithful(r.(od := DropOldest(r.od, n)))
  {
    DropOldestWellFormed(r.od, n);
    assert r.od.keys[n..] == r.used[|r.used| - (|r.od.keys| - n)..];
  }

  lemma {:induction false} PutFaithful<K(!new), V>(r: Run<K, V>, k: K, v: V, sizeOf: V -> nat)
    requires Faithful(r)
    ensures Faithful(Step(r, Put(k, v), sizeOf))
  {
    hide Faithful, Remove, DropOldest;
    StoreFaithful(r, k, v);
    assert WellFormed(r.od) by {
      FaithfulIsWellFormed(r);
    }
    StoreWellFormed(r.od, k, v);
    var st := Store(r.od, k, v);
    if r.limit > 0 {
      DropFaithful(Run(st, r.limit, r.stored[k := v], Remove(r.used, k) + [k]),
                   EvictCount(st.keys, st.vals, sizeOf, r.limit));
    }
  }

  lemma {:induction false} FaithfulIsWellFormed<K(!new), V>(r: Run<K, V>)
    requires Faithful(r)
    ensures WellFormed(r.od)
  {
  }

  lemma {:induction false} LookupFaithful<K(!new), V>(r: Run<K, V>, k: K, sizeOf: V -> nat)
    requires Faithful(r)
    ensures Faithful(Step(r, Lookup(k), sizeOf))
  {
    hide Remove;
    StepWellFormed(r, Lookup(k), sizeOf);
    if k in r.od.vals {
      UseKeepsSuffix(r.used, r.od.keys, k);
    }
  }

  lemma {:induction false} DiscardFaithful<K(!new), V>(r: Run<K, V>, k: K, sizeOf: V -> nat)
    requires Faithful(r)
    ensures Faithful(Step(r, Discard(k), sizeOf))
  {
    hide Remove;
    StepWellFormed(r, Discard(k), sizeOf);
    SuffixAfterRemove(r.used, r.od.keys, k);
    RemoveExact(r.used, k);
  }

  lemma {:induction false} StepFaithful<K(!new), V>(r: Run<K, V>, op: Op<K, V>, sizeOf: V -> nat)
    requires Faithful(r)
    ensures Faithful(Step(r, op, sizeOf))
  {
    match op
    case Put(k, v) => PutFaithful(r, k, v, sizeOf);
    case Lookup(k) => LookupFaithful(r, k, sizeOf);
    case Discard(k) => DiscardFaithful(r, k, sizeOf);
    case Reset =>
    case Limit(n) =>
  }

  lemma {:induction false} RunKeepsFaithful<K(!new), V>(r: Run<K, V>, ops: seq<Op<K, V>>, sizeOf: V -> nat)
    requires Faithful(r)
    ensures Faithful(RunAll(r, ops, sizeOf))
    decreases |ops|
  {
    if ops != [] {
      StepWellFormed(r, ops[0], sizeOf);
      StepFaithful(r, ops[0], sizeOf);
      RunKeepsFaithful(Step(r, ops[0], sizeOf), ops[1..], sizeOf);
    }
  }

  /** A new cache, with nothing stored yet. */
  function Fresh<K(!new), V>(limit: int): Run<K, V> {
    Run(Ordered([], map[]), limit, map[], [])
  }

  /** Over any run from an empty cache, a lookup gives the last stored value or nothing, and what
      is kept are the most recently used of all keys ever stored. */
  lemma {:induction false} RunFaithful<K(!new), V>(limit: int, ops: seq<Op<K, V>>, sizeOf: V -> nat)
    ensures WellFormed(Fresh<K, V>(limit).od) && Faithful(RunAll(Fresh(limit), ops, sizeOf))
  {
    RunKeepsFaithful(Fresh(limit), ops, sizeOf);
  }

  /** No limit is in force at any time of the run. */
  predicate Unlimited<K(!new), V>(limit: int, ops: seq<Op<K, V>>) {
    limit <= 0 && forall i :: 0 <= i < |ops| && ops[i].Limit? ==> ops[i].limit <= 0
  }

  /** Over any run without a limit the cache forgets nothing: it holds the last value stored under each key,
      and all keys in the order of their last use. */
  lemma {:induction false} UnlimitedForgetsNothing<K(!new), V>(limit: int, ops: seq<Op<K, V>>, sizeOf: V -> nat)
    requires Unlimited(limit, ops)
    ensures WellFormed(Fresh<K, V>(limit).od)
    ensures var r := RunAll(Fresh(limit), ops, sizeOf);
            r.od.vals == r.stored && r.od.keys == r.used
  {
    UnlimitedRun(Fresh(limit), ops, sizeOf);
  }

  lemma {:induction false} UnlimitedRun<K(!new), V>(r: Run<K, V>, ops: seq<Op<K, V>>, sizeOf: V -> nat)
    requires WellFormed(r.od) && Unlimited(r.limit, ops) && r.od.vals == r.stored && r.od.keys == r.used
    ensures var r' := RunAll(r, ops, sizeOf);
            r'.od.vals == r'.stored && r'.od.keys == r'.used
    decreases |ops|
  {
    if ops != [] {
      StepWellFormed(r, ops[0], sizeOf);
      assert forall i :: 0 <= i < |ops| - 1 ==> ops[1..][i] == ops[i + 1];
      UnlimitedRun(Step(r, ops[0], sizeOf), ops[1..], sizeOf);
    }
  }

  /** Right after an insertion under a limit the stored sizes fit it, and the entries that went are
      the shortest oldest-first prefix that makes them fit. */
  lemma {:induction false} InsertEvictsMinimalPrefix<K(!new), V>(
    od: Ordered<K, V>, k: K, v: V, sizeOf: V -> nat, limit: int)
    requires WellFormed(od) && WellFormed(Store(od, k, v)) && limit > 0
    requires WellFormed(Insert(od, k, v, sizeOf, limit))
    ensures var st, after := Store(od, k, v), Insert(od, k, v, sizeOf, limit);
            && Total(after.keys, after.vals, sizeOf) <= limit
            && exists n :: 0 <= n <= |st.keys| && after.keys == st.keys[n..]
                 && forall m :: 0 <= m < n ==> Total(st.keys[m..], st.vals, sizeOf) > limit
  {
    var st, after := Store(od, k, v), Insert(od, k, v, sizeOf, limit);
    EvictCountMinimal(st.keys, st.vals, sizeOf, limit);
    var n := EvictCount(st.keys, st.vals, sizeOf, limit);
    TotalFrame(after.keys, after.vals, st.vals, sizeOf);
    assert after.keys == st.keys[n..];
  }

  /** A value larger than the limit empties the cache, itself included. */
  lemma {:induction false} OversizedValueEvictsAll<K(!new), V>(
    od: Ordered<K, V>, k: K, v: V, sizeOf: V -> nat, limit: int)
    requires WellFormed(od) && WellFormed(Store(od, k, v)) && 0 < limit < sizeOf(v)
    ensures Insert(od, k, v, sizeOf, limit).keys == []
  {
    var st := Store(od, k, v);
    EvictCountMinimal(st.keys, st.vals, sizeOf, limit);
    var n := EvictCount(st.keys, st.vals, sizeOf, limit);
    if n < |st.keys| {
      TotalCoversLast(st.keys[n..], st.vals, sizeOf);
    }
  }

  lemma {:induction false} TotalCoversLast<K(!new), V>(keys: seq<K>, vals: map<K, V>, sizeOf: V -> nat)
    requires keys != [] && forall x :: x in keys ==> x in vals
    ensures Total(keys, vals, sizeOf) >= sizeOf(vals[keys[|keys| - 1]])
  {
    if |keys| > 1 {
      TotalCoversLast(keys[1..], vals, sizeOf);
    }
  }

  // ----- a cache in front of a pure query -----

  class NumpyQuote<K(==,!new), V> {
    const query: K -> V
    const maxSize: nat
    var cache: Ordered<K, V>

    constructor (query: K -> V, maxSize: nat)
      ensures this.query == query && this.maxSize == maxSize && Valid() && cache.keys == []
    {
      this.query, this.maxSize, cache := query, maxSize, Ordered([], map[]);
    }

    ghost predicate Valid()
      reads `cache
    {
      && WellFormed(cache) && |cache.keys| <= maxSize
      && forall k :: k in cache.vals ==> cache.vals[k] == query(k)
    }

    /** The cached query always gives the query's own answer, keeps the newest entries and bounds their number. */
    method GetData(key: K) returns (result: V)
      requires Valid()
      modifies `cache
      ensures Valid() && result == query(key)
      ensures cache == if key in old(cache).vals then Touch(old(cache), key)
                       else var st := Store(old(cache), key, query(key));
                            DropOldest(st, if |st.keys| > maxSize then 1 else 0)
      ensures var keys := Others(old(cache).keys, key) + [key];
              cache.keys == if |keys| <= maxSize then keys else keys[1..]
    {
      RemoveIsOthers(cache.keys, key);
      RemoveExact(cache.keys, key);
      TouchWellFormed(cache, key);
      StoreWellFormed(cache, key, query(key));
      if key in cache.vals {
        cache := Touch(cache, key);
        return cache.vals[key];
      }
      result := query(key);
      cache := Store(cache, key, result);
      DropOldestWellFormed(cache, if |cache.keys| > maxSize then 1 else 0);
      if |cache.keys| > maxSize {
        cache := DropOldest(cache, 1);
      } else {
        assert cache == DropOldest(cache, 0);
      }
    }
  }
}
