/** The TTL + LRU cache of packages/collection/src/index.ts.

    Class Cache keeps the source's three structures: the store, the access order and the position index.
    State is their abstraction, a store plus an order; Step is the cache as a function on it. Clock readings
    are arguments and may go backwards. */
module LruCache {
  import opened Common

  datatype Entry<+V> = Entry(value: V, expiresAt: int, lastAccessed: int)

  datatype State<K, +V> = State(store: map<K, Entry<V>>, order: seq<K>)

  // ---------------------------------------------------------------- the cache as a function

  ghost predicate WellFormed<K, V>(st: State<K, V>) {
    && NoDuplicates(st.order)
    && (forall k :: k in st.order ==> k in st.store)
    && (forall k :: k in st.store ==> k in st.order)
  }

  function Remove<K, V>(st: State<K, V>, gone: set<K>): State<K, V> {
    State(st.store - gone, Drop(st.order, gone))
  }

  /** Stores the entry and makes its key the most recently used. */
  function Put<K, V>(st: State<K, V>, key: K, entry: Entry<V>): State<K, V> {
    State(st.store[key := entry], Drop(st.order, {key}) + [key])
  }

  /** Capacity None is Infinity. */
  function Full(cap: Option<int>, size: nat): bool {
    cap.Some? && size >= cap.value
  }

  function Evict<K, V>(st: State<K, V>): State<K, V> {
    if st.order == [] then st else Remove(st, {st.order[0]})
  }

  function MakeRoom<K, V>(st: State<K, V>, cap: Option<int>, key: K): State<K, V> {
    if key !in st.store && Full(cap, |st.store|) then Evict(st) else st
  }

  function Expired<K, V>(st: State<K, V>, now: int): set<K> {
    set k | k in st.store && now > st.store[k].expiresAt
  }

  function ExpireKey<K, V>(st: State<K, V>, key: K, now: int): State<K, V> {
    if key in Expired(st, now) then Remove(st, {key}) else st
  }

  datatype Op<+K, +V> =
    | Get(key: K)
    | Set(key: K, value: V, ttl: Option<int>)
    | Delete(key: K)
    | Has(key: K)
    | Size
    | Clear

  datatype Answer<+V> = Found(value: V) | Missing | Done | Yes | No | Counted(size: nat)

  datatype Limits = Limits(cap: Option<int>, defaultTTL: int)

  function SetKey<K, V>(cap: Option<int>, st: State<K, V>, key: K, entry: Entry<V>): State<K, V> {
    Put(MakeRoom(st, cap, key), key, entry)
  }

  function ExpiryOf(limits: Limits, ttl: Option<int>, now: int): int {
    now + if ttl.Some? then ttl.value else limits.defaultTTL
  }

  /** The state an operation leaves. */
  function Next<K, V>(limits: Limits, st: State<K, V>, op: Op<K, V>, now: int): State<K, V> {
    match op
    case Get(key) => GetKey(ExpireKey(st, key, now), key, now)
    case Set(key, value, ttl) => SetKey(limits.cap, st, key, Entry(value, ExpiryOf(limits, ttl, now), now))
    case Delete(key) => Remove(st, {key})
    case Has(key) => ExpireKey(st, key, now)
    case Size => Remove(st, Expired(st, now))
    case Clear => State(map[], [])
  }

  /** What an operation answers. */
  function Reply<K(==), V>(st: State<K, V>, op: Op<K, V>, now: int): Answer<V> {
    match op
    case Get(key) => if key in st.store && now <= st.store[key].expiresAt then Found(st.store[key].value) else Missing
    case Set(key, value, ttl) => Done
    case Delete(key) => if key in st.store then Yes else No
    case Has(key) => if key in st.store && now <= st.store[key].expiresAt then Yes else No
    case Size => Counted(|st.store.Keys - Expired(st, now)|)
    case Clear => Done
  }

  function GetKey<K, V>(st: State<K, V>, key: K, now: int): State<K, V> {
    if key in st.store then Put(st, key, st.store[key].(lastAccessed := now)) else st
  }

  // ---------------------------------------------------------------- the class

  /** index is the inverse of order. */
  ghost predicate Inverse<K>(index: map<K, nat>, order: seq<K>) {
    && (forall k :: k in index ==> k in order)
    && (forall i :: 0 <= i < |order| ==> order[i] in index && index[order[i]] == i)
  }

  class Cache<K(==), V> {
    const maxEntries: Option<int>
    const defaultTTL: int
    var store: map<K, Entry<V>>
    var accessOrder: seq<K>
    var accessIndex: map<K, nat>

    ghost predicate Indexed()
      reads this
    {
      NoDuplicates(accessOrder) && Inverse(accessIndex, accessOrder)
    }

    /** The three structures agree, and the entries fit. */
    ghost predicate Valid()
      reads this
    {
      Indexed() && WellFormed(Abs()) && Fits(maxEntries, Abs())
    }

    ghost function Abs(): State<K, V>
      reads this
    {
      State(store, accessOrder)
    }

    ghost function Limit(): Limits {
      Limits(maxEntries, defaultTTL)
    }

    constructor (maxEntries: Option<int>, ttl: Option<int>)
      ensures this.maxEntries == maxEntries && defaultTTL == (if ttl.Some? then ttl.value else 300_000)
      ensures Valid() && Abs() == State(map[], [])
    {
      this.maxEntries := maxEntries;
      defaultTTL := if ttl.Some? then ttl.value else 300_000;
      store, accessOrder, accessIndex := map[], [], map[];
    }

    method Get(key: K, now: int) returns (r: Option<V>)
      requires Valid()
      modifies this
      ensures Valid() && Abs() == Next(Limit(), old(Abs()), Op.Get(key), now)
      ensures (if r.Some? then Found(r.value) else Missing) == Reply(old(Abs()), Op.Get(key), now)
      ensures r == if key in old(store) && now <= old(store)[key].expiresAt then Some(old(store)[key].value) else None
      ensures r.Some? ==> store == old(store)[key := old(store)[key].(lastAccessed := now)]
    {
      StepKeeps(Limit(), Abs(), Op.Get(key), now);
      if key !in store {
        return None;
      }
      var entry := store[key];
      if now > entry.expiresAt {
        var _ := Delete(key);
        return None;
      }
      store := store[key := entry.(lastAccessed := now)];
      TouchKey(key);
      return Some(entry.value);
    }

    method Set(key: K, value: V, ttl: Option<int>, now: int)
      requires Valid()
      modifies this
      ensures Valid() && Abs() == Next(Limit(), old(Abs()), Op.Set(key, value, ttl), now)
      ensures key in store && store[key].value == value && store[key].lastAccessed == now
      ensures store[key].expiresAt == now + if ttl.Some? then ttl.value else defaultTTL
    {
      var entry := Entry(value, now + if ttl.Some? then ttl.value else defaultTTL, now);
      ghost var st := Abs();
      ghost var room, after := MakeRoom(st, maxEntries, key), SetKey(maxEntries, st, key, entry);
      SetKeeps(maxEntries, st, key, entry);
      assert after == Next(Limit(), st, Op.Set(key, value, ttl), now);
      if key in store {
        store := store[key := entry];
        TouchKey(key);
        assert Abs() == after;
        return;
      }
      MakeRoomKeeps(st, maxEntries, key);
      PutNew(room, key, entry);
      if Full(maxEntries, |store|) {
        EvictLRU();
      }
      assert Abs() == room;
      store := store[key := entry];
      AddToAccessOrder(key);
      assert Abs() == after;
    }

    method Delete(key: K) returns (existed: bool)
      requires Valid()
      modifies this
      ensures Valid() && Abs() == Next(Limit(), old(Abs()), Op.Delete(key), 0)
      ensures (if existed then Yes else No) == Reply(old(Abs()), Op.Delete(key), 0)
      ensures (existed <==> key in old(store)) && store == old(store) - {key}
    {
      RemoveKeeps(Abs(), {key});
      existed := key in store;
      store := store - {key};
      if existed {
        RemoveFromAccessOrder(key);
      } else {
        DropNone(accessOrder, {key});
      }
    }

    method Has(key: K, now: int) returns (present: bool)
      requires Valid()
      modifies this
      ensures Valid() && Abs() == Next(Limit(), old(Abs()), Op.Has(key), now)
      ensures (if present then Yes else No) == Reply(old(Abs()), Op.Has(key), now)
      ensures present <==> key in old(store) && now <= old(store)[key].expiresAt
    {
      StepKeeps(Limit(), Abs(), Op.Has(key), now);
      if key !in store {
        return false;
      }
      if now > store[key].expiresAt {
        var _ := Delete(key);
        return false;
      }
      return true;
    }

    method Clear()
      modifies this
      ensures Valid() && Abs() == State(map[], [])
    {
      store, accessOrder, accessIndex := map[], [], map[];
    }

    method Size(now: int) returns (n: nat)
      requires Valid()
      modifies this
      ensures Valid() && Abs() == Next(Limit(), old(Abs()), Op.Size, now)
      ensures Counted(n) == Reply(old(Abs()), Op.Size, now)
      ensures n == |store| && forall k :: k in store <==> k in old(store) && now <= old(store)[k].expiresAt
    {
      StepKeeps(Limit(), Abs(), Op.Size, now);
      EvictExpired(now);
      n := |store|;
    }

    // ------------------------------------------------------------ private methods

    method RebuildIndex()
      requires NoDuplicates(accessOrder)
      modifies this`accessIndex
      ensures Indexed()
    {
      accessIndex := map[];
      for i := 0 to |accessOrder|
        invariant forall k :: k in accessIndex <==> k in accessOrder[..i]
        invariant forall j :: 0 <= j < i ==> accessOrder[j] in accessIndex && accessIndex[accessOrder[j]] == j
      {
        accessIndex := accessIndex[accessOrder[i] := i];
      }
    }

    method TouchKey(key: K)
      requires Indexed() && key in accessOrder
      modifies this`accessOrder, this`accessIndex
      ensures Indexed() && accessOrder == Drop(old(accessOrder), {key}) + [key]
    {
      var idx := accessIndex[key];
      DropAt(accessOrder, idx);
      DropDistinct(accessOrder, {key});
      DropMembers(accessOrder, {key});
      accessOrder := accessOrder[..idx] + accessOrder[idx + 1..];
      accessOrder := accessOrder + [key];
      accessIndex := accessIndex[key := |accessOrder| - 1];
      RebuildIndex();
    }

    method AddToAccessOrder(key: K)
      requires Indexed() && key !in accessOrder
      modifies this`accessOrder, this`accessIndex
      ensures Indexed() && accessOrder == old(accessOrder) + [key]
    {
      accessOrder := accessOrder + [key];
      accessIndex := accessIndex[key := |accessOrder| - 1];
    }

    method RemoveFromAccessOrder(key: K)
      requires Indexed()
      modifies this`accessOrder, this`accessIndex
      ensures Indexed() && accessOrder == Drop(old(accessOrder), {key})
    {
      DropDistinct(accessOrder, {key});
      DropMembers(accessOrder, {key});
      if key in accessIndex {
        var idx := accessIndex[key];
        DropAt(accessOrder, idx);
        accessOrder := accessOrder[..idx] + accessOrder[idx + 1..];
        accessIndex := accessIndex - {key};
        RebuildIndex();
      } else {
        DropNone(accessOrder, {key});
      }
    }

    /** Visits the store's keys in any order. */
    method EvictExpired(now: int)
      requires Indexed()
      modifies this`store, this`accessOrder, this`accessIndex
      ensures Indexed() && Abs() == Remove(old(Abs()), Expired(old(Abs()), now))
    {
      var pending := store.Keys;
      ghost var s0 := Abs();
      ghost var all := Expired(s0, now);
      RemoveNothing(s0, all - pending);
      while pending != {}
        invariant pending <= store.Keys && Indexed()
        invariant Abs() == Remove(s0, all - pending)
        decreases pending
      {
        var key :| key in pending;
        RemoveMore(s0, all, pending, key);
        pending := pending - {key};
        if now > store[key].expiresAt {
          store := store - {key};
          RemoveFromAccessOrder(key);
        }
      }
      assert all - pending == all;
    }

    method EvictLRU()
      requires Valid()
      modifies this
      ensures Valid() && Abs() == Evict(old(Abs()))
    {
      for i := 0 to |accessOrder|
        invariant unchanged(this) && i == 0
      {
        assert accessOrder[i] in accessOrder;
        if accessOrder[i] in store {
          var _ := Delete(accessOrder[i]);
          return;
        }
      }
    }
  }

  // ---------------------------------------------------------------- every reachable state

  /** The capacity the cache keeps to: a capacity of 0 or less still admits one entry. */
  function Capacity(cap: Option<int>): Option<nat> {
    match cap
    case None => None
    case Some(n) => Some(if n < 1 then 1 else n)
  }

  ghost predicate Fits<K, V>(cap: Option<int>, st: State<K, V>) {
    cap.Some? ==> |st.store| <= Capacity(cap).value
  }

  ghost predicate Sound<K, V>(cap: Option<int>, st: State<K, V>) {
    WellFormed(st) && Fits(cap, st)
  }

  lemma RemoveKeeps<K, V>(st: State<K, V>, gone: set<K>)
    requires WellFormed(st)
    ensures WellFormed(Remove(st, gone)) && |Remove(st, gone).store| <= |st.store|
  {
    DropDistinct(st.order, gone);
    DropMembers(st.order, gone);
    assert Remove(st, gone).store.Keys <= st.store.Keys;
  }

  lemma RemoveNothing<K, V>(st: State<K, V>, gone: set<K>)
    requires gone == {}
    ensures Remove(st, gone) == st
  {
    DropNone(st.order, gone);
    assert st.store - gone == st.store;
  }

  /** Taking key off the pending keys removes it exactly if it is in all. */
  lemma RemoveMore<K, V>(st: State<K, V>, all: set<K>, pending: set<K>, key: K)
    requires key in pending && key in st.store
    ensures var before := Remove(st, all - pending);
      && key in before.store && before.store[key] == st.store[key]
      && Remove(st, all - (pending - {key})) == if key in all then Remove(before, {key}) else before
  {
    DropDrop(st.order, all - pending, {key});
    if key in all {
      assert all - (pending - {key}) == (all - pending) + {key};
      assert st.store - (all - pending) - {key} == st.store - ((all - pending) + {key});
    } else {
      assert all - (pending - {key}) == all - pending;
    }
  }

  lemma PutKeeps<K, V>(st: State<K, V>, key: K, entry: Entry<V>)
    requires WellFormed(st)
    ensures WellFormed(Put(st, key, entry))
    ensures |Put(st, key, entry).store| == |st.store| + if key in st.store then 0 else 1
  {
    DropDistinct(st.order, {key});
    DropMembers(st.order, {key});
    assert Put(st, key, entry).store.Keys == st.store.Keys + {key};
  }

  lemma PutNew<K, V>(st: State<K, V>, key: K, entry: Entry<V>)
    requires WellFormed(st) && key !in st.store
    ensures key !in st.order && Put(st, key, entry) == State(st.store[key := entry], st.order + [key])
  {
    DropNone(st.order, {key});
  }

  lemma MakeRoomKeeps<K, V>(st: State<K, V>, cap: Option<int>, key: K)
    requires WellFormed(st) && Fits(cap, st)
    ensures WellFormed(MakeRoom(st, cap, key)) && Fits(cap, MakeRoom(st, cap, key))
    ensures cap.Some? && key !in st.store ==> |MakeRoom(st, cap, key).store| < Capacity(cap).value
    ensures key in MakeRoom(st, cap, key).store <==> key in st.store
  {
    if key !in st.store && Full(cap, |st.store|) {
      if st.order == [] {
        assert st.store.Keys == {};
      } else {
        RemoveKeeps(st, {st.order[0]});
        assert st.store.Keys == Evict(st).store.Keys + {st.order[0]};
        assert |st.store.Keys| == |Evict(st).store.Keys| + 1;
      }
    }
  }

  lemma SetKeeps<K, V>(cap: Option<int>, st: State<K, V>, key: K, entry: Entry<V>)
    requires WellFormed(st) && Fits(cap, st)
    ensures WellFormed(SetKey(cap, st, key, entry)) && Fits(cap, SetKey(cap, st, key, entry))
  {
    MakeRoomKeeps(st, cap, key);
    PutKeeps(MakeRoom(st, cap, key), key, entry);
  }

  /** Every operation keeps the order a duplicate-free listing of the store's keys, and the capacity. */
  lemma StepKeeps<K, V>(limits: Limits, st: State<K, V>, op: Op<K, V>, now: int)
    requires WellFormed(st) && Fits(limits.cap, st)
    ensures WellFormed(Next(limits, st, op, now)) && Fits(limits.cap, Next(limits, st, op, now))
  {
    match op
    case Get(key) =>
      RemoveKeeps(st, {key});
      var live := ExpireKey(st, key, now);
      if key in live.store { PutKeeps(live, key, live.store[key].(lastAccessed := now)); }
    case Set(key, value, ttl) =>
      SetKeeps(limits.cap, st, key, Entry(value, ExpiryOf(limits, ttl, now), now));
    case Delete(key) => RemoveKeeps(st, {key});
    case Has(key) => RemoveKeeps(st, {key});
    case Size => RemoveKeeps(st, Expired(st, now));
    case Clear =>
  }

  // ---------------------------------------------------------------- runs

  datatype Event<K, V> = Event(op: Op<K, V>, now: int)

  /** The cache after the first n events, from empty. */
  function Run<K(==), V>(limits: Limits, trace: seq<Event<K, V>>, n: nat): State<K, V>
    requires n <= |trace|
  {
    if n == 0 then State(map[], [])
    else Next(limits, Run(limits, trace, n - 1), trace[n - 1].op, trace[n - 1].now)
  }

  /** What event number n is answered. */
  function AnswerAt<K(==), V>(limits: Limits, trace: seq<Event<K, V>>, n: nat): Answer<V>
    requires n < |trace|
  {
    Reply(Run(limits, trace, n), trace[n].op, trace[n].now)
  }

  /** So every run, from empty, keeps the order a duplicate-free listing of the keys, and the capacity. */
  lemma {:induction false} RunKeeps<K, V>(limits: Limits, trace: seq<Event<K, V>>, n: nat)
    requires n <= |trace|
    ensures Sound(limits.cap, Run(limits, trace, n))
  {
    if n == 0 {
    } else {
      RunKeeps(limits, trace, n - 1);
      NextKeeps(limits, Run(limits, trace, n - 1), trace[n - 1].op, trace[n - 1].now);
    }
  }

  lemma NextKeeps<K, V>(limits: Limits, st: State<K, V>, op: Op<K, V>, now: int)
    requires Sound(limits.cap, st)
    ensures Sound(limits.cap, Next(limits, st, op, now))
  {
    StepKeeps(limits, st, op, now);
  }

  /** A cache with maxEntries m stays within m entries in every run if and only if m is at least 1. */
  lemma WithinMaxIff<K, V>(m: int, ttl: int, key: K, value: V)
    ensures (forall trace: seq<Event<K, V>>, n: nat :: n <= |trace| ==>
              |Run(Limits(Some(m), ttl), trace, n).store| <= m)
        <==> m >= 1
  {
    if m >= 1 {
      forall trace: seq<Event<K, V>>, n: nat | n <= |trace| ensures |Run(Limits(Some(m), ttl), trace, n).store| <= m {
        RunKeeps(Limits(Some(m), ttl), trace, n);
      }
    } else {
      var trace: seq<Event<K, V>> := [Event(Set(key, value, None), 0)];
      assert key in Run(Limits(Some(m), ttl), trace, 1).store;
      assert |Run(Limits(Some(m), ttl), trace, 1).store| > 0;
    }
  }

  // ---------------------------------------------------------------- what a key holds, from the events alone

  /** Event i is the last of the first n that sets key. */
  ghost predicate LastSet<K, V>(trace: seq<Event<K, V>>, n: nat, key: K, i: nat)
    requires n <= |trace|
  {
    && i < n && trace[i].op.Set? && trace[i].op.key == key
    && forall j :: i < j < n ==> !(trace[j].op.Set? && trace[j].op.key == key)
  }

  /** Event e deletes an entry of key that lives until deadline, or finds it expired. */
  predicate Ends<K(==), V>(e: Event<K, V>, key: K, deadline: int) {
    || e.op.Clear?
    || (e.op.Delete? && e.op.key == key)
    || (e.op.Size? && e.now > deadline)
    || ((e.op.Get? || e.op.Has?) && e.op.key == key && e.now > deadline)
  }

  /** What an operation does to the entry of one key. */
  lemma NextEntry<K, V>(limits: Limits, st: State<K, V>, e: Event<K, V>, key: K)
    ensures var st' := Next(limits, st, e.op, e.now);
      if e.op.Set? && e.op.key == key
      then && key in st'.store && st'.store[key].value == e.op.value
           && st'.store[key].expiresAt == e.now + if e.op.ttl.Some? then e.op.ttl.value else limits.defaultTTL
      else && (key in st'.store ==>
                 && key in st.store && st'.store[key].value == st.store[key].value
                 && st'.store[key].expiresAt == st.store[key].expiresAt && !Ends(e, key, st.store[key].expiresAt))
           && (limits.cap.None? && key in st.store && !Ends(e, key, st.store[key].expiresAt) ==> key in st'.store)
  {
  }

  /** A stored key holds the value of the last set of it, and lives until that set's time plus its ttl. */
  lemma {:induction false} StoredIsLastSet<K, V>(limits: Limits, trace: seq<Event<K, V>>, n: nat, key: K)
      returns (i: nat)
    requires n <= |trace| && key in Run(limits, trace, n).store
    ensures LastSet(trace, n, key, i)
    ensures var e := Run(limits, trace, n).store[key];
      && e.value == trace[i].op.value
      && e.expiresAt == trace[i].now + if trace[i].op.ttl.Some? then trace[i].op.ttl.value else limits.defaultTTL
  {
    NextEntry(limits, Run(limits, trace, n - 1), trace[n - 1], key);
    if trace[n - 1].op.Set? && trace[n - 1].op.key == key {
      i := n - 1;
    } else {
      i := StoredIsLastSet(limits, trace, n - 1, key);
    }
  }

  /** A get answers v if and only if the key is still stored and v was what the last set of it stored, not longer ago
      than the ttl of that set. */
  lemma HitIff<K, V>(limits: Limits, trace: seq<Event<K, V>>, n: nat, key: K, v: V)
    requires n < |trace| && trace[n].op == Get(key)
    ensures AnswerAt(limits, trace, n) == Found(v)
        <==> && key in Run(limits, trace, n).store
             && exists i: nat :: LastSet(trace, n, key, i) && trace[i].op.value == v &&
                  trace[n].now - trace[i].now
                  <= if trace[i].op.ttl.Some? then trace[i].op.ttl.value else limits.defaultTTL
  {
    if key in Run(limits, trace, n).store {
      var i := StoredIsLastSet(limits, trace, n, key);
      assert forall j: nat :: LastSet(trace, n, key, j) ==> j == i;
    }
  }

  lemma {:induction false} UnboundedKeeps<K, V>(ttl: int, trace: seq<Event<K, V>>, n: nat, key: K, i: nat)
    requires n <= |trace| && LastSet(trace, n, key, i)
    requires forall j :: i < j < n ==>
      !Ends(trace[j], key, trace[i].now + if trace[i].op.ttl.Some? then trace[i].op.ttl.value else ttl)
    ensures var store := Run(Limits(None, ttl), trace, n).store;
      && key in store
      && store[key].expiresAt == trace[i].now + if trace[i].op.ttl.Some? then trace[i].op.ttl.value else ttl
  {
    NextEntry(Limits(None, ttl), Run(Limits(None, ttl), trace, n - 1), trace[n - 1], key);
    if i == n - 1 {
    } else {
      UnboundedKeeps(ttl, trace, n - 1, key, i);
    }
  }

  lemma {:induction false} StoredUnended<K, V>(limits: Limits, trace: seq<Event<K, V>>, n: nat, key: K, i: nat, j: nat)
    requires n <= |trace| && key in Run(limits, trace, n).store && LastSet(trace, n, key, i) && i < j < n
    ensures !Ends(trace[j], key,
              trace[i].now + if trace[i].op.ttl.Some? then trace[i].op.ttl.value else limits.defaultTTL)
  {
    NextEntry(limits, Run(limits, trace, n - 1), trace[n - 1], key);
    if j == n - 1 {
      var i' := StoredIsLastSet(limits, trace, n - 1, key);
    } else {
      StoredUnended(limits, trace, n - 1, key, i, j);
    }
  }

  /** Without a capacity a key is stored if and only if it was set and since then was neither deleted, cleared nor found
      expired: no get or has of it, and no size, came after its time. */
  lemma StoredIff<K, V>(ttl: int, trace: seq<Event<K, V>>, n: nat, key: K)
    requires n <= |trace|
    ensures key in Run(Limits(None, ttl), trace, n).store
        <==> exists i: nat :: LastSet(trace, n, key, i) && forall j :: i < j < n ==>
               !Ends(trace[j], key, trace[i].now + if trace[i].op.ttl.Some? then trace[i].op.ttl.value else ttl)
  {
    if key in Run(Limits(None, ttl), trace, n).store {
      var i := StoredIsLastSet(Limits(None, ttl), trace, n, key);
      forall j | i < j < n
        ensures !Ends(trace[j], key, trace[i].now + if trace[i].op.ttl.Some? then trace[i].op.ttl.value else ttl) {
        StoredUnended(Limits(None, ttl), trace, n, key, i, j);
      }
    } else if i: nat :| LastSet(trace, n, key, i) && forall j :: i < j < n ==>
        !Ends(trace[j], key, trace[i].now + if trace[i].op.ttl.Some? then trace[i].op.ttl.value else ttl) {
      UnboundedKeeps(ttl, trace, n, key, i);
    }
  }

  // ---------------------------------------------------------------- the order is by last use

  /** The number of the last event before n that set key or hit it with a get; -1 if there is none. */
  function LastUse<K(==), V>(limits: Limits, trace: seq<Event<K, V>>, n: nat, key: K): int
    requires n <= |trace|
  {
    if n == 0 then -1
    else if (trace[n - 1].op.Set? || (trace[n - 1].op.Get? && AnswerAt(limits, trace, n - 1).Found?))
      && trace[n - 1].op.key == key
    then n - 1
    else LastUse(limits, trace, n - 1, key)
  }

  lemma {:induction false} LastUseBefore<K, V>(limits: Limits, trace: seq<Event<K, V>>, n: nat, key: K)
    requires n <= |trace|
    ensures LastUse(limits, trace, n, key) < n
  {
    if n == 0 {
    } else {
      LastUseBefore(limits, trace, n - 1, key);
    }
  }

  ghost predicate ByLastUse<K, V>(limits: Limits, trace: seq<Event<K, V>>, n: nat, order: seq<K>)
    requires n <= |trace|
  {
    forall i, j :: 0 <= i < j < |order| ==> LastUse(limits, trace, n, order[i]) < LastUse(limits, trace, n, order[j])
  }

  lemma {:induction false} DropByLastUse<K, V>(
      limits: Limits, trace: seq<Event<K, V>>, n: nat, order: seq<K>, gone: set<K>)
    requires n <= |trace| && ByLastUse(limits, trace, n, order)
    ensures ByLastUse(limits, trace, n, Drop(order, gone))
  {
    if order == [] {
    } else {
      var front := order[..|order| - 1];
      DropByLastUse(limits, trace, n, front, gone);
      var rest := Drop(front, gone);
      DropMembers(front, gone);
      forall i | 0 <= i < |rest|
        ensures LastUse(limits, trace, n, rest[i]) < LastUse(limits, trace, n, order[|order| - 1]) {
        assert rest[i] in front;
      }
    }
  }

  /** Appending the key used by event n, after removing it, keeps the order by last use. */
  lemma TouchByLastUse<K, V>(limits: Limits, trace: seq<Event<K, V>>, n: nat, order: seq<K>, key: K)
    requires n < |trace| && ByLastUse(limits, trace, n, order)
    requires LastUse(limits, trace, n + 1, key) == n
    requires trace[n].op.Set? || trace[n].op.Get? ==> trace[n].op.key == key
    ensures ByLastUse(limits, trace, n + 1, Drop(order, {key}) + [key])
  {
    DropByLastUse(limits, trace, n, order, {key});
    var rest := Drop(order, {key});
    DropMembers(order, {key});
    forall i | 0 <= i < |rest|
      ensures LastUse(limits, trace, n + 1, rest[i]) == LastUse(limits, trace, n, rest[i]) < n
    {
      assert rest[i] in rest;
      LastUseBefore(limits, trace, n, rest[i]);
    }
  }

  lemma GetByLastUse<K, V>(limits: Limits, trace: seq<Event<K, V>>, n: nat, key: K)
    requires n < |trace| && ByLastUse(limits, trace, n, Run(limits, trace, n).order)
    requires trace[n].op == Get(key)
    ensures ByLastUse(limits, trace, n + 1, Run(limits, trace, n + 1).order)
  {
    var st := Run(limits, trace, n);
    DropByLastUse(limits, trace, n, st.order, {key});
    var live := ExpireKey(st, key, trace[n].now);
    if key in live.store {
      TouchByLastUse(limits, trace, n, live.order, key);
    }
  }

  lemma SetByLastUse<K, V>(limits: Limits, trace: seq<Event<K, V>>, n: nat)
    requires n < |trace| && ByLastUse(limits, trace, n, Run(limits, trace, n).order)
    requires trace[n].op.Set?
    ensures ByLastUse(limits, trace, n + 1, Run(limits, trace, n + 1).order)
  {
    var st, key := Run(limits, trace, n), trace[n].op.key;
    if st.order != [] {
      DropByLastUse(limits, trace, n, st.order, {st.order[0]});
    }
    TouchByLastUse(limits, trace, n, MakeRoom(st, limits.cap, key).order, key);
  }

  lemma OtherByLastUse<K, V>(limits: Limits, trace: seq<Event<K, V>>, n: nat)
    requires n < |trace| && ByLastUse(limits, trace, n, Run(limits, trace, n).order)
    requires !trace[n].op.Set? && !trace[n].op.Get?
    ensures ByLastUse(limits, trace, n + 1, Run(limits, trace, n + 1).order)
  {
    var st, op := Run(limits, trace, n), trace[n].op;
    if !op.Clear? {
      DropByLastUse(limits, trace, n, st.order, if op.Size? then Expired(st, trace[n].now) else {op.key});
    }
  }

  lemma EventByLastUse<K, V>(limits: Limits, trace: seq<Event<K, V>>, n: nat)
    requires n < |trace| && ByLastUse(limits, trace, n, Run(limits, trace, n).order)
    ensures ByLastUse(limits, trace, n + 1, Run(limits, trace, n + 1).order)
  {
    if trace[n].op.Get? {
      GetByLastUse(limits, trace, n, trace[n].op.key);
    } else if trace[n].op.Set? {
      SetByLastUse(limits, trace, n);
    } else {
      OtherByLastUse(limits, trace, n);
    }
  }

  /** In every reachable state the access order lists the keys by their last set or hit, earliest first. */
  lemma {:induction false} OrderIsByLastUse<K, V>(limits: Limits, trace: seq<Event<K, V>>, n: nat)
    requires n <= |trace|
    ensures ByLastUse(limits, trace, n, Run(limits, trace, n).order)
  {
    if n == 0 {
    } else {
      var p := n - 1;
      OrderIsByLastUse(limits, trace, p);
      EventByLastUse(limits, trace, p);
    }
  }

  /** Eviction removes exactly the head of the order, and nothing in the store has an earlier last use. */
  lemma HeadIsLeastRecentlyUsed<K, V>(limits: Limits, trace: seq<Event<K, V>>, n: nat, key: K)
    requires n <= |trace|
    requires var st := Run(limits, trace, n); key in st.store
    ensures var st := Run(limits, trace, n);
      && st.order != [] && st.order[0] in st.store
      && (key != st.order[0] ==> LastUse(limits, trace, n, st.order[0]) < LastUse(limits, trace, n, key))
  {
    RunKeeps(limits, trace, n);
    OrderIsByLastUse(limits, trace, n);
    var order := Run(limits, trace, n).order;
    assert key in order && order[0] in order;
    var i :| 0 <= i < |order| && order[i] == key;
  }

  /** An entry's lastAccessed is the time of the last set or hit of its key. */
  lemma {:induction false} LastAccessedIs<K, V>(limits: Limits, trace: seq<Event<K, V>>, n: nat, key: K)
    requires n <= |trace| && key in Run(limits, trace, n).store
    ensures var i := LastUse(limits, trace, n, key);
      0 <= i < n && Run(limits, trace, n).store[key].lastAccessed == trace[i].now
  {
    var st, e := Run(limits, trace, n - 1), trace[n - 1];
    if (e.op.Set? || e.op.Get?) && e.op.key == key {
    } else {
      OtherEntry(limits, st, e, key);
      LastAccessedIs(limits, trace, n - 1, key);
    }
  }

  lemma OtherEntry<K, V>(limits: Limits, st: State<K, V>, e: Event<K, V>, key: K)
    requires !((e.op.Set? || e.op.Get?) && e.op.key == key)
    ensures var st' := Next(limits, st, e.op, e.now);
      key in st'.store ==> key in st.store && st'.store[key] == st.store[key]
  {
  }

  lemma EvictHead<K, V>(st: State<K, V>)
    requires WellFormed(st) && st.order != []
    ensures Evict(st) == State(st.store - {st.order[0]}, st.order[1..])
  {
    DropAt(st.order, 0);
    assert Drop(st.order, {st.order[0]}) == st.order[1..];
  }

  /** A set of a new key into a cache that holds maxEntries or more, and at least one, removes the head of the order and
      nothing else. */
  lemma SetEvictsHead<K, V>(limits: Limits, st: State<K, V>, op: Op<K, V>, now: int)
    requires WellFormed(st) && op.Set? && op.key !in st.store
    requires limits.cap.Some? && |st.store| >= limits.cap.value && st.store != map[]
    ensures var st' := Next(limits, st, op, now);
      && st.order != [] && st'.order == st.order[1..] + [op.key]
      && op.key in st'.store && st'.store == (st.store - {st.order[0]})[op.key := st'.store[op.key]]
  {
    assert st.order == [] ==> st.store.Keys == {};
    EvictHead(st);
    PutNew(Evict(st), op.key, Entry(op.value, ExpiryOf(limits, op.ttl, now), now));
  }

  /** Any other set removes nothing. */
  lemma SetEvictsNothing<K, V>(limits: Limits, st: State<K, V>, op: Op<K, V>, now: int)
    requires WellFormed(st) && op.Set?
    requires op.key in st.store || limits.cap.None? || |st.store| < limits.cap.value || st.store == map[]
    ensures var st' := Next(limits, st, op, now);
      && st'.order == Drop(st.order, {op.key}) + [op.key]
      && op.key in st'.store && st'.store == st.store[op.key := st'.store[op.key]]
  {
  }

  // ---------------------------------------------------------------- inclusion between capacities

  lemma RemoveRemove<K, V>(st: State<K, V>, a: set<K>, b: set<K>)
    ensures Remove(Remove(st, a), b) == Remove(st, a + b)
  {
    DropDrop(st.order, a, b);
    assert st.store - a - b == st.store - (a + b);
  }

  lemma RemoveAbsent<K, V>(st: State<K, V>, gone: set<K>)
    requires WellFormed(st) && gone !! st.store.Keys
    ensures Remove(st, gone) == st
  {
    DropNone(st.order, gone);
    assert st.store - gone == st.store;
  }

  lemma RemovePut<K, V>(st: State<K, V>, key: K, entry: Entry<V>, gone: set<K>)
    ensures Remove(Put(st, key, entry), gone)
      == if key in gone then Remove(st, gone) else Put(Remove(st, gone), key, entry)
  {
    DropAppend(Drop(st.order, {key}), [key], gone);
    assert [key][..0] == [];
    DropDrop(st.order, {key}, gone);
    DropDrop(st.order, gone, {key});
    assert {key} + gone == gone + {key};
    if key in gone {
      assert gone + {key} == gone;
      assert st.store[key := entry] - gone == st.store - gone;
    } else {
      assert st.store[key := entry] - gone == (st.store - gone)[key := entry];
    }
  }

  ghost function Extra<K, V>(small: State<K, V>, large: State<K, V>): set<K> {
    large.store.Keys - small.store.Keys
  }

  /** small holds a subset of large's keys, with the same entries and in the same relative order. */
  ghost predicate Core<K, V>(small: State<K, V>, large: State<K, V>) {
    small.store.Keys <= large.store.Keys && small == Remove(large, Extra(small, large))
  }

  lemma ExtraRemove<K, V>(small: State<K, V>, large: State<K, V>, gone: set<K>)
    ensures Extra(Remove(small, gone), Remove(large, gone)) == Extra(small, large) - gone
  {
  }

  lemma RemoveBoth<K, V>(small: State<K, V>, large: State<K, V>, gone: set<K>)
    requires Core(small, large)
    ensures Core(Remove(small, gone), Remove(large, gone))
    ensures |Extra(Remove(small, gone), Remove(large, gone))| <= |Extra(small, large)|
  {
    var d := Extra(small, large);
    ExtraRemove(small, large, gone);
    RemoveEither(large, d, gone);
    assert Remove(small, gone).store.Keys <= Remove(large, gone).store.Keys;
  }

  lemma RemoveEither<K, V>(st: State<K, V>, a: set<K>, b: set<K>)
    ensures Remove(Remove(st, a), b) == Remove(Remove(st, b), a - b)
  {
    RemoveRemove(st, a, b);
    RemoveRemove(st, b, a - b);
    assert a + b == b + (a - b);
  }

  lemma RemoveSmall<K, V>(small: State<K, V>, large: State<K, V>, gone: set<K>)
    requires Core(small, large) && gone <= small.store.Keys
    ensures Core(Remove(small, gone), large)
  {
    RemoveRemove(large, Extra(small, large), gone);
    assert Extra(Remove(small, gone), large) == Extra(small, large) + gone;
  }

  lemma RemoveLarge<K, V>(small: State<K, V>, large: State<K, V>, gone: set<K>)
    requires WellFormed(small) && Core(small, large) && gone !! small.store.Keys
    ensures Core(small, Remove(large, gone))
  {
    RemoveBoth(small, large, gone);
    RemoveAbsent(small, gone);
  }

  lemma PutBoth<K, V>(small: State<K, V>, large: State<K, V>, key: K, entry: Entry<V>)
    requires Core(small, large)
    ensures Core(Put(small, key, entry), Put(large, key, entry))
    ensures Extra(Put(small, key, entry), Put(large, key, entry)) == Extra(small, large) - {key}
  {
    var d := Extra(small, large);
    assert Extra(Put(small, key, entry), Put(large, key, entry)) == d - {key};
    RemovePut(large, key, entry, d - {key});
    PutRemoved(large, key, entry, d);
  }

  /** Whether key itself was removed before does not show after it is put back. */
  lemma PutRemoved<K, V>(st: State<K, V>, key: K, entry: Entry<V>, gone: set<K>)
    ensures Put(Remove(st, gone - {key}), key, entry) == Put(Remove(st, gone), key, entry)
  {
    DropDrop(st.order, gone - {key}, {key});
    DropDrop(st.order, gone, {key});
    assert gone - {key} + {key} == gone + {key};
    assert (st.store - (gone - {key}))[key := entry] == (st.store - gone)[key := entry];
  }

  lemma HitLarge<K, V>(small: State<K, V>, large: State<K, V>, key: K, entry: Entry<V>)
    requires Core(small, large) && key in large.store && key !in small.store
    ensures Core(small, Put(large, key, entry)) && Extra(small, Put(large, key, entry)) == Extra(small, large)
  {
    RemovePut(large, key, entry, Extra(small, large));
    assert Extra(small, Put(large, key, entry)) == Extra(small, large);
  }

  /** A capacity no greater than another, None being Infinity. */
  ghost predicate AtMost(n: Option<int>, m: Option<int>) {
    m.None? || (n.Some? && Capacity(n).value <= Capacity(m).value)
  }

  /** The inclusion relation: Core, and the larger cache ahead by no more than the difference in capacity. */
  ghost predicate Included<K, V>(n: Option<int>, m: Option<int>, small: State<K, V>, large: State<K, V>) {
    && Core(small, large)
    && (m.Some? && n.Some? ==> |Extra(small, large)| <= Capacity(m).value - Capacity(n).value)
  }

  /** If the larger cache is full then so is the smaller, and if the smaller holds the evicted key, it evicts it too. */
  lemma RoomCore<K, V>(n: Option<int>, m: Option<int>, small: State<K, V>, large: State<K, V>, key: K)
    requires Sound(n, small) && Sound(m, large) && AtMost(n, m) && Included(n, m, small, large)
    ensures Core(MakeRoom(small, n, key), MakeRoom(large, m, key))
  {
    NonEmpty(small);
    NonEmpty(large);
    var room := MakeRoom(small, n, key);
    if room != small {
      assert small.order[0] in small.order;
      RemoveSmall(small, large, {small.order[0]});
    }
    if MakeRoom(large, m, key) != large {
      var victim := large.order[0];
      assert victim in large.order;
      if victim in small.store {
        DropHead(large.order, Extra(small, large));
      }
      MakeRoomKeeps(small, n, key);
      DropMembers(large.order, Extra(small, large));
      RemoveLarge(room, large, {victim});
    }
  }

  lemma NonEmpty<K, V>(st: State<K, V>)
    requires WellFormed(st)
    ensures |st.store| == 0 <==> st.order == []
    ensures st.order != [] ==> st.order[0] in st.store && |Evict(st).store| == |st.store| - 1
  {
    if st.order != [] {
      assert st.order[0] in st.order;
      assert st.store.Keys == Evict(st).store.Keys + {st.order[0]};
    } else {
      assert st.store.Keys == {};
    }
  }

  lemma SetIncluded<K, V>(
      n: Option<int>, m: Option<int>, small: State<K, V>, large: State<K, V>, key: K, entry: Entry<V>)
    requires Sound(n, small) && Sound(m, large) && AtMost(n, m) && Included(n, m, small, large)
    ensures Included(n, m, SetKey(n, small, key, entry), SetKey(m, large, key, entry))
  {
    var s, l := MakeRoom(small, n, key), MakeRoom(large, m, key);
    RoomCore(n, m, small, large, key);
    PutBoth(s, l, key, entry);
    SetSize(n, small, key, entry);
    SetSize(m, large, key, entry);
  }

  lemma SetSize<K, V>(cap: Option<int>, st: State<K, V>, key: K, entry: Entry<V>)
    requires Sound(cap, st)
    ensures |SetKey(cap, st, key, entry).store|
            == if key in st.store then |st.store|
               else if Full(cap, |st.store|) then Capacity(cap).value
               else |st.store| + 1
  {
    MakeRoomKeeps(st, cap, key);
    PutKeeps(MakeRoom(st, cap, key), key, entry);
    NonEmpty(st);
  }

  /** A hit in the smaller cache is the same hit in the larger. */
  ghost predicate SameHit<V>(small: Answer<V>, large: Answer<V>) {
    (small.Found? ==> large == small) && (small.Yes? ==> large == small)
  }

  lemma EmptyIncluded<K, V>()
    ensures var st: State<K, V> := State(map[], []); Core(st, st) && Extra(st, st) == {}
  {
  }

  /** Removing keys the state does not hold makes no difference. */
  lemma RemoveHeld<K, V>(st: State<K, V>, gone: set<K>)
    requires WellFormed(st)
    ensures Remove(st, gone) == Remove(st, gone * st.store.Keys)
  {
    var rest := gone - st.store.Keys;
    RemoveAbsent(st, rest);
    RemoveRemove(st, rest, gone * st.store.Keys);
    assert rest + gone * st.store.Keys == gone;
  }

  lemma SizeIncluded<K, V>(small: State<K, V>, large: State<K, V>, now: int)
    requires WellFormed(small) && Core(small, large)
    ensures Remove(small, Expired(small, now)) == Remove(small, Expired(large, now))
  {
    RemoveHeld(small, Expired(large, now));
    assert Expired(large, now) * small.store.Keys == Expired(small, now);
  }

  lemma ExpireIncluded<K, V>(small: State<K, V>, large: State<K, V>, key: K, now: int)
    requires WellFormed(small) && Core(small, large)
    ensures var s, l := ExpireKey(small, key, now), ExpireKey(large, key, now);
      && Core(s, l) && |Extra(s, l)| <= |Extra(small, large)|
      && (key in s.store ==> key in l.store && s.store[key] == l.store[key])
  {
    SameEntry(small, large, key);
    if key in Expired(large, now) {
      RemoveBoth(small, large, {key});
      if key !in small.store {
        RemoveAbsent(small, {key});
      }
    } else {
      assert key !in Expired(small, now);
    }
    SameEntry(ExpireKey(small, key, now), ExpireKey(large, key, now), key);
  }

  /** What both caches hold, they hold alike. */
  lemma SameEntry<K, V>(small: State<K, V>, large: State<K, V>, key: K)
    requires Core(small, large)
    ensures key in small.store ==> key in large.store && small.store[key] == large.store[key]
  {
  }

  lemma GetIncluded<K, V>(limitsS: Limits, limitsL: Limits, small: State<K, V>, large: State<K, V>, key: K, now: int)
    requires WellFormed(small) && Core(small, large)
    ensures Follows(limitsS, limitsL, small, large, Op.Get(key), now)
  {
    ExpireIncluded(small, large, key, now);
    var s, l := ExpireKey(small, key, now), ExpireKey(large, key, now);
    if key in s.store {
      PutBoth(s, l, key, s.store[key].(lastAccessed := now));
    } else if key in l.store {
      HitLarge(s, l, key, l.store[key].(lastAccessed := now));
    }
  }

  /** Core survives the operation, the larger cache gets no further ahead, and hits agree. */
  ghost predicate Follows<K, V>(
      limitsS: Limits, limitsL: Limits, small: State<K, V>, large: State<K, V>, op: Op<K, V>, now: int) {
    var s, l := Next(limitsS, small, op, now), Next(limitsL, large, op, now);
    Core(s, l) && |Extra(s, l)| <= |Extra(small, large)| && SameHit(Reply(small, op, now), Reply(large, op, now))
  }

  lemma DeleteIncluded<K, V>(limitsS: Limits, limitsL: Limits, small: State<K, V>, large: State<K, V>, key: K, now: int)
    requires Core(small, large)
    ensures Follows(limitsS, limitsL, small, large, Op.Delete(key), now)
  {
    RemoveBoth(small, large, {key});
    var s, l := Remove(small, {key}), Remove(large, {key});
    assert Core(s, l) && |Extra(s, l)| <= |Extra(small, large)|;
  }

  lemma HasIncluded<K, V>(limitsS: Limits, limitsL: Limits, small: State<K, V>, large: State<K, V>, key: K, now: int)
    requires WellFormed(small) && Core(small, large)
    ensures Follows(limitsS, limitsL, small, large, Op.Has(key), now)
  {
    ExpireIncluded(small, large, key, now);
  }

  lemma SizeFollows<K, V>(limitsS: Limits, limitsL: Limits, small: State<K, V>, large: State<K, V>, now: int)
    requires WellFormed(small) && Core(small, large)
    ensures Follows(limitsS, limitsL, small, large, Op.Size, now)
  {
    RemoveBoth(small, large, Expired(large, now));
    SizeIncluded(small, large, now);
    var s, l := Remove(small, Expired(small, now)), Remove(large, Expired(large, now));
    assert Core(s, l) && |Extra(s, l)| <= |Extra(small, large)|;
  }

  lemma QuietFollows<K, V>(
      limitsS: Limits, limitsL: Limits, small: State<K, V>, large: State<K, V>, op: Op<K, V>, now: int)
    requires WellFormed(small) && Core(small, large) && !op.Set?
    ensures Follows(limitsS, limitsL, small, large, op, now)
  {
    match op
    case Get(key) => GetIncluded(limitsS, limitsL, small, large, key, now);
    case Delete(key) => DeleteIncluded(limitsS, limitsL, small, large, key, now);
    case Has(key) => HasIncluded(limitsS, limitsL, small, large, key, now);
    case Size => SizeFollows(limitsS, limitsL, small, large, now);
    case Clear => EmptyIncluded<K, V>();
  }

  lemma SetFollows<K, V>(
      n: Option<int>, m: Option<int>, ttl: int, small: State<K, V>, large: State<K, V>, op: Op<K, V>, now: int)
    requires Sound(n, small) && Sound(m, large) && AtMost(n, m) && Included(n, m, small, large) && op.Set?
    ensures Included(n, m, Next(Limits(n, ttl), small, op, now), Next(Limits(m, ttl), large, op, now))
  {
    var entry := Entry(op.value, ExpiryOf(Limits(n, ttl), op.ttl, now), now);
    assert ExpiryOf(Limits(n, ttl), op.ttl, now) == ExpiryOf(Limits(m, ttl), op.ttl, now);
    assert Next(Limits(n, ttl), small, op, now) == SetKey(n, small, op.key, entry);
    assert Next(Limits(m, ttl), large, op, now) == SetKey(m, large, op.key, entry);
    SetIncluded(n, m, small, large, op.key, entry);
  }

  /** Inclusion: fed the same events and clock readings, a cache holds, entry for entry and in the same relative
      order, everything a cache of smaller capacity holds. */
  lemma {:induction false} Inclusion<K, V>(n: Option<int>, m: Option<int>, ttl: int, trace: seq<Event<K, V>>, t: nat)
    requires AtMost(n, m) && t <= |trace|
    ensures Included(n, m, Run(Limits(n, ttl), trace, t), Run(Limits(m, ttl), trace, t))
  {
    if t == 0 {
    } else {
      var p := t - 1;
      Inclusion(n, m, ttl, trace, p);
      EventIncluded(n, m, ttl, trace, p);
    }
  }

  /** Every hit of the smaller cache is the same hit in the larger one. */
  lemma HitsIncluded<K, V>(n: Option<int>, m: Option<int>, ttl: int, trace: seq<Event<K, V>>, t: nat)
    requires AtMost(n, m) && t < |trace|
    ensures SameHit(AnswerAt(Limits(n, ttl), trace, t), AnswerAt(Limits(m, ttl), trace, t))
  {
    Inclusion(n, m, ttl, trace, t);
    EventIncluded(n, m, ttl, trace, t);
  }

  lemma EventIncluded<K, V>(n: Option<int>, m: Option<int>, ttl: int, trace: seq<Event<K, V>>, t: nat)
    requires AtMost(n, m) && t < |trace|
    requires Included(n, m, Run(Limits(n, ttl), trace, t), Run(Limits(m, ttl), trace, t))
    ensures Included(n, m, Run(Limits(n, ttl), trace, t + 1), Run(Limits(m, ttl), trace, t + 1))
    ensures SameHit(AnswerAt(Limits(n, ttl), trace, t), AnswerAt(Limits(m, ttl), trace, t))
  {
    RunKeeps(Limits(n, ttl), trace, t);
    RunKeeps(Limits(m, ttl), trace, t);
    var small, large := Run(Limits(n, ttl), trace, t), Run(Limits(m, ttl), trace, t);
    if trace[t].op.Set? {
      SetFollows(n, m, ttl, small, large, trace[t].op, trace[t].now);
    } else {
      QuietFollows(Limits(n, ttl), Limits(m, ttl), small, large, trace[t].op, trace[t].now);
    }
  }
}
