/**
 The analysis cache (analysis/cache.go): a map with expiry and access times, evicting the entry
 with the oldest access time, refines a list of slots ordered from least to most recently used.
 Clock readings, strictly increasing, and the order of iteration over the map are parameters.
 */
module AnalysisCache {
  import opened Collections
  import opened Wrappers

  // ----- the abstract cache: slots from least to most recently used

  datatype Slot<V> = Slot(key: string, value: V, expiresAt: int)

  function Find<V>(list: seq<Slot<V>>, key: string): Option<Slot<V>> {
    if list == [] then None else if list[0].key == key then Some(list[0]) else Find(list[1..], key)
  }

  function Without<V>(list: seq<Slot<V>>, key: string): seq<Slot<V>> {
    if list == [] then []
    else (if list[0].key == key then [] else [list[0]]) + Without(list[1..], key)
  }

  function Unexpired<V>(list: seq<Slot<V>>, now: int): seq<Slot<V>> {
    if list == [] then []
    else (if now > list[0].expiresAt then [] else [list[0]]) + Unexpired(list[1..], now)
  }

  datatype Op<V> =
    | Get(key: string, now: int)
    | Set(key: string, value: V, expiresAt: int, order: seq<string>)
    | Delete(key: string)
    | Clear
    | Cleanup(now: int)

  function Hit<V>(list: seq<Slot<V>>, key: string, now: int): Option<V> {
    match Find(list, key)
    case Some(slot) => if now > slot.expiresAt then None else Some(slot.value)
    case None => None
  }

  /** The keys met behind the empty one. */
  function Behind(order: seq<string>): (r: seq<string>)
    ensures "" !in r
  {
    if order == [] || order[|order| - 1] == "" then []
    else Behind(order[..|order| - 1]) + [order[|order| - 1]]
  }

  /** The least recently used of some keys. */
  function FirstAmong<V>(list: seq<Slot<V>>, keys: seq<string>): Option<string> {
    if list == [] then None
    else if list[0].key in keys then Some(list[0].key)
    else FirstAmong(list[1..], keys)
  }

  /**
   The minimum search takes the empty key for "none yet": if that is the least recently used one, the search
   starts anew behind it, and nothing is evicted if it comes last.
   */
  function Evict<V>(list: seq<Slot<V>>, order: seq<string>): seq<Slot<V>> {
    if list == [] then []
    else if list[0].key != "" then list[1..]
    else
      match FirstAmong(list, Behind(order))
      case Some(victim) => Without(list, victim)
      case None => list
  }

  /** Before an entry is set, a full cache evicts a slot. */
  function Trimmed<V>(list: seq<Slot<V>>, order: seq<string>, maxSize: nat): seq<Slot<V>> {
    if |list| >= maxSize then Evict(list, order) else list
  }

  function Apply<V>(list: seq<Slot<V>>, op: Op<V>, maxSize: nat): seq<Slot<V>> {
    match op
    case Get(key, now) =>
      if Hit(list, key, now).Some? then Without(list, key) + [Find(list, key).value] else
        if Find(list, key).Some? then Without(list, key) else list
    case Set(key, value, expiresAt, order) =>
      Without(Trimmed(list, order, maxSize), key) + [Slot(key, value, expiresAt)]
    case Delete(key) => Without(list, key)
    case Clear => []
    case Cleanup(now) => Unexpired(list, now)
  }

  predicate DistinctKeys<V>(list: seq<Slot<V>>) {
    forall i, j :: 0 <= i < j < |list| ==> list[i].key != list[j].key
  }

  lemma {:induction false} WithoutEffect<V(!new)>(list: seq<Slot<V>>, key: string)
    requires DistinctKeys(list)
    ensures DistinctKeys(Without(list, key))
    ensures forall s :: s in Without(list, key) <==> s in list && s.key != key
    ensures |Without(list, key)| == |list| - if Find(list, key).Some? then 1 else 0
    ensures Find(list, key).Some? <==> exists s :: s in list && s.key == key
    ensures Find(list, key).Some? ==> Find(list, key).value in list && Find(list, key).value.key == key
  {
    if list != [] {
      WithoutEffect(list[1..], key);
      assert forall s :: s in list <==> s == list[0] || s in list[1..];
      if list[0].key == key {
        assert forall s :: s in list[1..] ==> s.key != key;
      }
    }
  }

  lemma WithoutHead<V(!new)>(list: seq<Slot<V>>)
    requires DistinctKeys(list) && list != []
    ensures Without(list, list[0].key) == list[1..]
  {
    WithoutAbsent(list[1..], list[0].key);
  }

  lemma {:induction false} WithoutAbsent<V(!new)>(list: seq<Slot<V>>, key: string)
    requires forall s :: s in list ==> s.key != key
    ensures Without(list, key) == list
  {
    if list != [] {
      assert list[0] in list;
      WithoutAbsent(list[1..], key);
      assert list == [list[0]] + list[1..];
    }
  }

  /** Removing keeps the order of the remaining slots. */
  lemma {:induction false} WithoutOrder<V(!new)>(list: seq<Slot<V>>, key: string, rank: map<string, int>)
    requires Ranked(list, rank)
    ensures Ranked(Without(list, key), rank)
  {
    if list != [] {
      forall s | s in list[1..]
        ensures s.key in rank && rank[list[0].key] < rank[s.key]
      {
        var i :| 0 <= i < |list| - 1 && list[1..][i] == s;
        assert list[i + 1] == s && s in list;
      }
      assert list[0] in list;
      WithoutOrder(list[1..], key, rank);
      WithoutMembers(list[1..], key);
      RankedFirst(list[0], Without(list[1..], key), rank);
    }
  }

  lemma RankedFirst<V(!new)>(first: Slot<V>, rest: seq<Slot<V>>, rank: map<string, int>)
    requires Ranked(rest, rank) && first.key in rank && forall s :: s in rest ==> rank[first.key] < rank[s.key]
    ensures Ranked([first] + rest, rank)
  {
    assert forall i :: 0 <= i < |rest| ==> rest[i] in rest;
  }

  lemma {:induction false} WithoutMembers<V(!new)>(list: seq<Slot<V>>, key: string)
    ensures forall s :: s in Without(list, key) ==> s in list
  {
    if list != [] {
      WithoutMembers(list[1..], key);
    }
  }

  /** The ranks of the slots' keys increase along the list. */
  ghost predicate Ranked<V>(list: seq<Slot<V>>, rank: map<string, int>) {
    && (forall s :: s in list ==> s.key in rank)
    && forall i, j :: 0 <= i < j < |list| ==> rank[list[i].key] < rank[list[j].key]
  }

  // ----- the code

  datatype Item<V> = Item(value: V, expiresAt: int, accessedAt: int)

  ghost function AccessTimes<V>(items: map<string, Item<V>>): map<string, int> {
    map k | k in items :: items[k].accessedAt
  }

  /** The map holds exactly the slots, with access times in list order and not later than the clock. */
  ghost predicate Represents<V(!new)>(items: map<string, Item<V>>, list: seq<Slot<V>>, clock: int) {
    && |items| == |list| && DistinctKeys(list)
    && (forall s :: s in list ==>
          s.key in items && items[s.key].value == s.value && items[s.key].expiresAt == s.expiresAt)
    && (forall k :: k in items ==> items[k].accessedAt <= clock && Find(list, k).Some?)
    && Ranked(list, AccessTimes(items))
  }

  lemma RankedBy<V>(list: seq<Slot<V>>, a: map<string, int>, b: map<string, int>)
    requires Ranked(list, a) && forall s :: s in list ==> s.key in b && b[s.key] == a[s.key]
    ensures Ranked(list, b)
  {
  }

  lemma RemoveRepresents<V(!new)>(items: map<string, Item<V>>, list: seq<Slot<V>>, clock: int, key: string)
    requires Represents(items, list, clock)
    ensures Represents(items - {key}, Without(list, key), clock)
    ensures key in items <==> Find(list, key).Some?
  {
    WithoutEffect(list, key);
    WithoutOrder(list, key, AccessTimes(items));
    RankedBy(Without(list, key), AccessTimes(items), AccessTimes(items - {key}));
    forall k | k in items && k != key
      ensures Find(Without(list, key), k).Some?
    {
      WithoutEffect(list, k);
      WithoutEffect(Without(list, key), k);
    }
  }

  lemma AddRepresents<V(!new)>(items: map<string, Item<V>>, list: seq<Slot<V>>, clock: int, slot: Slot<V>, now: int)
    requires Represents(items, list, clock) && slot.key !in items && clock < now
    ensures Represents(items[slot.key := Item(slot.value, slot.expiresAt, now)], list + [slot], now)
  {
    var more := items[slot.key := Item(slot.value, slot.expiresAt, now)];
    forall k | k in more
      ensures Find(list + [slot], k).Some?
    {
      FindAppend(list, slot, k);
    }
    RankedBy(list, AccessTimes(items), AccessTimes(more));
  }

  /** The entry for a key is replaced, or moved, to the most recent place. */
  lemma PutRepresents<V(!new)>(items: map<string, Item<V>>, list: seq<Slot<V>>, clock: int, slot: Slot<V>, now: int)
    requires Represents(items, list, clock) && clock < now
    ensures Represents(items[slot.key := Item(slot.value, slot.expiresAt, now)], Without(list, slot.key) + [slot], now)
    ensures slot.key in items ==> |items[slot.key := Item(slot.value, slot.expiresAt, now)]| == |items|
  {
    var item := Item(slot.value, slot.expiresAt, now);
    RemoveRepresents(items, list, clock, slot.key);
    AddRepresents(items - {slot.key}, Without(list, slot.key), clock, slot, now);
    assert (items - {slot.key})[slot.key := item] == items[slot.key := item];
  }

  lemma FoundSlot<V(!new)>(items: map<string, Item<V>>, list: seq<Slot<V>>, clock: int, key: string)
    requires Represents(items, list, clock)
    ensures key in items <==> Find(list, key).Some?
    ensures key in items ==> Find(list, key) == Some(Slot(key, items[key].value, items[key].expiresAt))
  {
    RemoveRepresents(items, list, clock, key);
    WithoutEffect(list, key);
  }

  lemma {:induction false} FindAppend<V>(list: seq<Slot<V>>, slot: Slot<V>, key: string)
    ensures Find(list + [slot], key) == if Find(list, key).Some? || slot.key != key then Find(list, key) else Some(slot)
  {
    if list == [] {
      assert list + [slot] == [slot];
      assert [slot][1..] == [];
    } else {
      assert (list + [slot])[1..] == list[1..] + [slot];
      FindAppend(list[1..], slot, key);
    }
  }

  lemma FirstIsOldest<V(!new)>(items: map<string, Item<V>>, list: seq<Slot<V>>, clock: int, k: string)
    requires Represents(items, list, clock) && k in items
    ensures list != [] && list[0].key in items && items[list[0].key].accessedAt <= items[k].accessedAt
    ensures items[list[0].key].accessedAt == items[k].accessedAt ==> list[0].key == k
  {
    WithoutEffect(list, k);
    var s := Find(list, k).value;
    var i :| 0 <= i < |list| && list[i] == s;
  }

  lemma {:induction false} UnexpiredEffect<V(!new)>(list: seq<Slot<V>>, now: int, rank: map<string, int>)
    requires Ranked(list, rank) && DistinctKeys(list)
    ensures Ranked(Unexpired(list, now), rank) && DistinctKeys(Unexpired(list, now))
    ensures forall s :: s in Unexpired(list, now) <==> s in list && now <= s.expiresAt
  {
    if list != [] {
      forall s | s in list[1..]
        ensures s.key in rank && rank[list[0].key] < rank[s.key] && s.key != list[0].key
      {
        var i :| 0 <= i < |list| - 1 && list[1..][i] == s;
        assert list[i + 1] == s && s in list;
      }
      assert list[0] in list;
      UnexpiredEffect(list[1..], now, rank);
      RankedFirst(list[0], Unexpired(list[1..], now), rank);
      assert forall s :: s in list <==> s == list[0] || s in list[1..];
    }
  }

  ghost function KeysOf<V(!new)>(list: seq<Slot<V>>): set<string> {
    set s | s in list :: s.key
  }

  lemma {:induction false} KeyCount<V(!new)>(list: seq<Slot<V>>)
    requires DistinctKeys(list)
    ensures |KeysOf(list)| == |list|
  {
    if list != [] {
      var init, last := list[..|list| - 1], list[|list| - 1];
      KeyCount(init);
      assert last.key !in KeysOf(init);
      assert forall s :: s in list <==> s in init || s == last;
      assert KeysOf(list) == KeysOf(init) + {last.key};
    }
  }

  ghost function KeptItems<V>(items: map<string, Item<V>>, now: int): map<string, Item<V>> {
    map k | k in items && now <= items[k].expiresAt :: items[k]
  }

  lemma KeptIsFound<V(!new)>(items: map<string, Item<V>>, list: seq<Slot<V>>, clock: int, now: int, k: string)
    requires Represents(items, list, clock)
    ensures k in KeptItems(items, now) <==> k in KeysOf(Unexpired(list, now))
    ensures k in KeptItems(items, now) <==> Find(Unexpired(list, now), k).Some?
  {
    var rest := Unexpired(list, now);
    UnexpiredEffect(list, now, AccessTimes(items));
    FoundSlot(items, list, clock, k);
    WithoutEffect(list, k);
    WithoutEffect(rest, k);
    if k in KeptItems(items, now) {
      assert Find(list, k).value in rest;
    }
  }

  lemma KeptCount<V(!new)>(items: map<string, Item<V>>, list: seq<Slot<V>>, clock: int, now: int)
    requires Represents(items, list, clock)
    ensures |KeptItems(items, now)| == |Unexpired(list, now)|
    ensures |KeptItems(items, now)| <= |items|
  {
    var kept, rest := KeptItems(items, now), Unexpired(list, now);
    UnexpiredEffect(list, now, AccessTimes(items));
    forall k
      ensures k in kept <==> k in KeysOf(rest)
    {
      KeptIsFound(items, list, clock, now, k);
    }
    KeyCount(rest);
    assert kept.Keys == KeysOf(rest);
    SubsetSize(kept.Keys, items.Keys);
  }

  lemma UnexpiredRepresents<V(!new)>(items: map<string, Item<V>>, list: seq<Slot<V>>, clock: int, now: int)
    requires Represents(items, list, clock) && clock < now
    ensures Represents(KeptItems(items, now), Unexpired(list, now), now)
    ensures |KeptItems(items, now)| <= |items|
  {
    var kept, rest := KeptItems(items, now), Unexpired(list, now);
    UnexpiredEffect(list, now, AccessTimes(items));
    RankedBy(rest, AccessTimes(items), AccessTimes(kept));
    KeptCount(items, list, clock, now);
    forall k | k in kept
      ensures Find(rest, k).Some?
    {
      KeptIsFound(items, list, clock, now, k);
    }
  }

  // ----- eviction

  /** Each key is met once. */
  ghost predicate Iterates(order: seq<string>, keys: set<string>) {
    && (forall i, j :: 0 <= i < j < |order| ==> order[i] != order[j])
    && forall k :: k in order <==> k in keys
  }

  lemma {:induction false} FirstAmongIs<V(!new)>(list: seq<Slot<V>>, keys: seq<string>)
    ensures FirstAmong(list, keys).None? <==> forall s :: s in list ==> s.key !in keys
    ensures FirstAmong(list, keys).Some? ==>
      FirstAmong(list, keys).value in keys && exists s :: s in list && s.key == FirstAmong(list, keys).value
  {
    if list != [] {
      FirstAmongIs(list[1..], keys);
      assert forall s :: s in list <==> s == list[0] || s in list[1..];
    }
  }

  /** The first slot of the list among some keys is the one with the oldest access. */
  lemma {:induction false} OldestIsFirstAmong<V(!new)>(list: seq<Slot<V>>, rank: map<string, int>, keys: seq<string>,
                                                       k: string)
    requires Ranked(list, rank) && k in keys && exists s :: s in list && s.key == k
    requires forall s :: s in list && s.key in keys ==> rank[k] <= rank[s.key]
    ensures FirstAmong(list, keys) == Some(k)
  {
    assert list[0] in list;
    var s :| s in list && s.key == k;
    if list[0].key != k {
      var i :| 0 <= i < |list| && list[i] == s;
      assert list[1..][i - 1] == s;
      assert forall t :: t in list[1..] ==> t in list;
      OldestIsFirstAmong(list[1..], rank, keys, k);
    }
  }

  /** What eviction can do: it drops one slot, or none where the empty key is the least recently used and met last. */
  lemma EvictEffect<V(!new)>(list: seq<Slot<V>>, order: seq<string>)
    requires DistinctKeys(list) && list != []
    ensures Evict(list, order) == list || exists k :: Find(list, k).Some? && Evict(list, order) == Without(list, k)
    ensures Iterates(order, KeysOf(list)) ==>
      (Evict(list, order) == list <==> list[0].key == "" && order != [] && order[|order| - 1] == "")
  {
    WithoutEffect(list, list[0].key);
    WithoutHead(list);
    if list[0].key == "" {
      FirstAmongIs(list, Behind(order));
      if FirstAmong(list, Behind(order)).Some? {
        WithoutEffect(list, FirstAmong(list, Behind(order)).value);
      }
      if Iterates(order, KeysOf(list)) {
        assert list[0].key in KeysOf(list);
        BehindIsMet(order);
      }
    }
  }

  lemma {:induction false} BehindIsMet(order: seq<string>)
    ensures forall k :: k in Behind(order) ==> k in order
    ensures order != [] && order[|order| - 1] != "" ==> order[|order| - 1] in Behind(order)
  {
    if order != [] && order[|order| - 1] != "" {
      BehindIsMet(order[..|order| - 1]);
    }
  }

  /** The slot that was used longest ago goes exactly when its key is not empty. */
  lemma EvictionIsRight<V(!new)>(list: seq<Slot<V>>, order: seq<string>)
    requires DistinctKeys(list) && list != []
    ensures list[0] !in Evict(list, order) <==> list[0].key != ""
  {
    if list[0].key == "" {
      FirstAmongIs(list, Behind(order));
      if FirstAmong(list, Behind(order)).Some? {
        WithoutEffect(list, FirstAmong(list, Behind(order)).value);
      }
    }
  }

  /** The key remembered once the empty one has been met: the one accessed first of those behind it, if any. */
  ghost predicate OldestBehind<V(!new)>(items: map<string, Item<V>>, met: seq<string>, oldest: string) {
    if Behind(met) == [] then oldest == ""
    else oldest in Behind(met) && oldest in items
         && forall k :: k in Behind(met) ==> k in items && items[oldest].accessedAt <= items[k].accessedAt
  }

  /** Where the search stands when some keys have been met. */
  ghost predicate Searched<V(!new)>(items: map<string, Item<V>>, list: seq<Slot<V>>, met: seq<string>, oldest: string) {
    && (oldest != "" ==> oldest in items)
    && (list != [] && list[0].key in met ==>
          if list[0].key != "" then oldest == list[0].key else OldestBehind(items, met, oldest))
  }

  lemma SearchStep<V(!new)>(items: map<string, Item<V>>, list: seq<Slot<V>>, clock: int, met: seq<string>,
                            key: string, oldest: string)
    requires Represents(items, list, clock) && key in items && Searched(items, list, met, oldest)
    ensures Searched(items, list, met + [key],
                     if oldest == "" || items[key].accessedAt < items[oldest].accessedAt then key else oldest)
  {
    FirstIsOldest(items, list, clock, key);
    if oldest != "" {
      FirstIsOldest(items, list, clock, oldest);
    }
    assert (met + [key])[..|met|] == met;
  }

  /** What has been found when all keys have been met. */
  lemma SearchFinds<V(!new)>(items: map<string, Item<V>>, list: seq<Slot<V>>, clock: int, order: seq<string>,
                             oldest: string)
    requires Represents(items, list, clock) && Iterates(order, items.Keys)
    requires Searched(items, list, order, oldest)
    ensures Evict(list, order) == if oldest == "" then list else Without(list, oldest)
  {
    if list != [] {
      assert list[0] in list;
      if list[0].key != "" {
        WithoutHead(list);
      } else {
        FirstAmongIs(list, Behind(order));
        BehindIsMet(order);
        if oldest != "" {
          FoundSlot(items, list, clock, oldest);
          WithoutEffect(list, oldest);
          OldestIsFirstAmong(list, AccessTimes(items), Behind(order), oldest);
        }
      }
    }
  }

  class InMemoryCache<V(!new)> {
    const maxSize: int
    const ttl: int
    var items: map<string, Item<V>>
    var hits: nat
    var misses: nat
    var size: nat
    ghost var clock: int
    ghost var recency: seq<Slot<V>>
    ghost var gets: nat
    ghost var history: seq<Op<V>>   // the operations so far

    ghost predicate Valid()
      reads this
    {
      Represents(items, recency, clock) && size == |items| && hits + misses == gets && recency == Run(history, Bound())
    }

    /** maxSize, except that the last entry set always stays. */
    function Bound(): nat {
      if maxSize < 1 then 1 else maxSize
    }

    constructor (maxSize: int, ttl: int, now: int)
      ensures Valid() && history == [] && gets == 0 && clock == now && this.maxSize == maxSize && this.ttl == ttl
    {
      this.maxSize, this.ttl := maxSize, ttl;
      items, hits, misses, size := map[], 0, 0, 0;
      clock, recency, gets, history := now, [], 0, [];
    }

    /** The entry becomes the most recently used one. */
    method Put(slot: Slot<V>, now: int)
      requires Represents(items, recency, clock) && clock < now
      modifies this`items, this`recency, this`clock
      ensures Represents(items, recency, clock) && clock == now
      ensures slot.key in old(items) ==> |items| == |old(items)|
      ensures recency == Without(old(recency), slot.key) + [slot]
    {
      PutRepresents(items, recency, clock, slot, now);
      items := items[slot.key := Item(slot.value, slot.expiresAt, now)];
      recency := Without(recency, slot.key) + [slot];
      clock := now;
    }

    method DeleteItem(key: string)
      requires Represents(items, recency, clock)
      modifies this`items, this`recency
      ensures Represents(items, recency, clock) && recency == Without(old(recency), key)
    {
      RemoveRepresents(items, recency, clock, key);
      items := items - {key};
      recency := Without(recency, key);
    }

    /** `now` is read for the expiry test and `later` for the access time. */
    method Lookup(key: string, now: int, later: int) returns (r: Option<V>)
      requires Valid() && clock < now < later
      modifies this
      ensures Valid() && clock == later && gets == old(gets) + 1
      ensures r == Hit(old(recency), key, now)
      ensures recency == Apply(old(recency), Get(key, now), Bound())
      ensures if r.Some? then hits == old(hits) + 1 else misses == old(misses) + 1
      ensures history == old(history) + [Get(key, now)]
      ensures MustHit(old(history), Bound(), key, now) ==> r == Some(LastSet(old(history), key).value.0)
      ensures r.Some? ==>
        var last := LastSet(old(history), key); last.Some? && r == Some(last.value.0) && now <= last.value.1
    {
      FoundSlot(items, recency, clock, key);
      LookupTells(history, Bound(), key, now);
      gets := gets + 1;
      history := Recorded(history, Get(key, now), Bound());
      if key !in items {
        clock := later;
        misses := misses + 1;
        return None;
      }
      var item := items[key];
      if now > item.expiresAt {
        DeleteItem(key);
        clock := later;
        size := |items|;
        misses := misses + 1;
        return None;
      }
      Put(Slot(key, item.value, item.expiresAt), later);
      hits := hits + 1;
      r := Some(item.value);
    }

    /** The minimum search over the entries in the order in which they are met. */
    method OldestKey(order: seq<string>) returns (oldestKey: string)
      requires Represents(items, recency, clock) && Iterates(order, items.Keys)
      ensures Evict(recency, order) == if oldestKey == "" then recency else Without(recency, oldestKey)
    {
      oldestKey := "";
      var oldestTime := 0;
      var i := 0;
      while i < |order|
        invariant 0 <= i <= |order|
        invariant oldestKey != "" ==> oldestKey in items && oldestTime == items[oldestKey].accessedAt
        invariant Searched(items, recency, order[..i], oldestKey)
      {
        var key := order[i];
        SearchStep(items, recency, clock, order[..i], key, oldestKey);
        assert order[..i + 1] == order[..i] + [key];
        if oldestKey == "" || items[key].accessedAt < oldestTime {
          oldestKey, oldestTime := key, items[key].accessedAt;
        }
        i := i + 1;
      }
      assert order[..i] == order;
      SearchFinds(items, recency, clock, order, oldestKey);
    }

    method EvictLRU(order: seq<string>)
      requires Represents(items, recency, clock) && Iterates(order, items.Keys)
      modifies this`items, this`recency
      ensures Represents(items, recency, clock)
      ensures recency == Evict(old(recency), order)
    {
      var oldestKey := OldestKey(order);
      if oldestKey != "" {
        DeleteItem(oldestKey);
      }
    }

    /**
     `now` dates the expiry and `later` the access; `order` is the one in which an eviction meets the keys.
     Every key is accepted, the empty one included.
     */
    method Store(key: string, value: V, ttl: int, now: int, later: int, order: seq<string>)
      requires Valid() && clock < now < later && Iterates(order, items.Keys)
      modifies this
      ensures Valid() && clock == later && gets == old(gets)
      ensures var op := Set(key, value, now + if ttl == 0 then this.ttl else ttl, order);
        recency == Apply(old(recency), op, Bound()) && history == old(history) + [op]
    {
      var lifetime := if ttl == 0 then this.ttl else ttl;
      var slot := Slot(key, value, now + lifetime);
      ghost var after := Recorded(history, Set(key, value, now + lifetime, order), Bound());
      Insert(slot, later, order);
      assert recency == Run(after, Bound());
      history, size := after, |items|;
    }

    /** Eviction if the cache is full, then the new entry. */
    method Insert(slot: Slot<V>, now: int, order: seq<string>)
      requires Represents(items, recency, clock) && clock < now && Iterates(order, items.Keys)
      modifies this`items, this`recency, this`clock
      ensures Represents(items, recency, clock) && clock == now
      ensures recency == Apply(old(recency), Set(slot.key, slot.value, slot.expiresAt, order), Bound())
    {
      if |items| >= maxSize {
        EvictLRU(order);
      }
      Put(slot, now);
    }

    method DropExpired(now: int)
      modifies this`items
      ensures items == KeptItems(old(items), now)
    {
      var before := items;
      var remaining := items.Keys;
      while remaining != {}
        invariant remaining <= before.Keys
        invariant items == map k | k in before && (k in remaining || now <= before[k].expiresAt) :: before[k]
      {
        var key :| key in remaining;
        remaining := remaining - {key};
        if now > before[key].expiresAt {
          items := items - {key};
        }
      }
    }

    /** One pass of the cleanup loop. */
    method CleanupPass(now: int)
      requires Valid() && clock < now
      modifies this
      ensures Valid() && clock == now && gets == old(gets)
      ensures recency == Apply(old(recency), Cleanup(now), Bound()) && history == old(history) + [Cleanup(now)]
    {
      history := Recorded(history, Cleanup(now), Bound());
      Expire(now);
      size := |items|;
    }

    method Expire(now: int)
      requires Represents(items, recency, clock) && clock < now
      modifies this`items, this`recency, this`clock
      ensures Represents(items, recency, clock) && clock == now && recency == Unexpired(old(recency), now)
    {
      UnexpiredRepresents(items, recency, clock, now);
      DropExpired(now);
      recency := Unexpired(recency, now);
      clock := now;
    }

    method Remove(key: string)
      requires Valid()
      modifies this
      ensures Valid() && clock == old(clock) && gets == old(gets)
      ensures recency == Apply(old(recency), Delete(key), Bound()) && history == old(history) + [Delete(key)]
    {
      history := Recorded(history, Delete(key), Bound());
      DeleteItem(key);
      size := |items|;
    }

    method Reset()
      requires Valid()
      modifies this
      ensures Valid() && clock == old(clock) && gets == old(gets)
      ensures recency == Apply(old(recency), Clear, Bound()) && history == old(history) + [Clear]
    {
      history := Recorded(history, Clear, Bound());
      items := map[];
      recency := [];
      size := 0;
    }
  }

  // ----- what every run of operations guarantees

  /** One operation more. */
  ghost function Recorded<V(!new)>(ops: seq<Op<V>>, op: Op<V>, maxSize: nat): (r: seq<Op<V>>)
    ensures r == ops + [op] && Run(r, maxSize) == Apply(Run(ops, maxSize), op, maxSize)
  {
    assert (ops + [op])[..|ops|] == ops;
    ops + [op]
  }

  /** What the operations so far say about a lookup. */
  lemma LookupTells<V(!new)>(ops: seq<Op<V>>, maxSize: nat, key: string, now: int)
    requires maxSize >= 1
    ensures var r := Hit(Run(ops, maxSize), key, now);
      && (MustHit(ops, maxSize, key, now) ==> r == Some(LastSet(ops, key).value.0))
      && (r.Some? ==>
            var last := LastSet(ops, key); last.Some? && r == Some(last.value.0) && now <= last.value.1)
  {
    if MustHit(ops, maxSize, key, now) {
      IsHeld(ops, maxSize, key, now);
    }
    if Hit(Run(ops, maxSize), key, now).Some? {
      HitIsLastSet(ops, maxSize, key, now, Hit(Run(ops, maxSize), key, now).value);
    }
  }

  function Run<V>(ops: seq<Op<V>>, maxSize: nat): seq<Slot<V>> {
    if ops == [] then [] else Apply(Run(ops[..|ops| - 1], maxSize), ops[|ops| - 1], maxSize)
  }

  /** The last value set for a key and its expiry, unless the key was deleted or everything cleared since. */
  function LastSet<V>(ops: seq<Op<V>>, key: string): Option<(V, int)> {
    if ops == [] then None
    else
      match ops[|ops| - 1]
      case Set(k, value, expiresAt, _) => if k == key then Some((value, expiresAt)) else LastSet(ops[..|ops| - 1], key)
      case Delete(k) => if k == key then None else LastSet(ops[..|ops| - 1], key)
      case Clear => None
      case _ => LastSet(ops[..|ops| - 1], key)
  }

  /** Number of the last operation that set the key or asked for it. */
  function LastUse<V>(ops: seq<Op<V>>, key: string): nat {
    if ops == [] then 0
    else if (ops[|ops| - 1].Set? || ops[|ops| - 1].Get?) && ops[|ops| - 1].key == key then |ops|
    else LastUse(ops[..|ops| - 1], key)
  }

  ghost function Uses<V(!new)>(ops: seq<Op<V>>, list: seq<Slot<V>>): map<string, int> {
    map k | k in KeysOf(list) :: LastUse(ops, k)
  }

  /** The slots are what was set last, and they stand in the order of their last use. */
  ghost predicate Faithful<V(!new)>(ops: seq<Op<V>>, list: seq<Slot<V>>) {
    && DistinctKeys(list)
    && (forall s :: s in list ==> LastSet(ops, s.key) == Some((s.value, s.expiresAt)))
    && Ranked(list, Uses(ops, list))
  }

  predicate Touches<V>(op: Op<V>, key: string) {
    (op.Get? || op.Set? || op.Delete?) && op.key == key
  }

  lemma {:induction false} LastUseBound<V(!new)>(ops: seq<Op<V>>, key: string)
    ensures LastUse(ops, key) <= |ops|
  {
    if ops != [] {
      LastUseBound(ops[..|ops| - 1], key);
    }
  }

  /** An operation leaves the history of the keys it does not touch alone. */
  lemma HistoryStays<V(!new)>(ops: seq<Op<V>>, op: Op<V>, key: string)
    requires !Touches(op, key) && !op.Clear?
    ensures LastSet(ops + [op], key) == LastSet(ops, key) && LastUse(ops + [op], key) == LastUse(ops, key)
  {
    assert (ops + [op])[..|ops|] == ops;
  }

  lemma SublistFaithful<V(!new)>(ops: seq<Op<V>>, op: Op<V>, list: seq<Slot<V>>, sub: seq<Slot<V>>)
    requires Faithful(ops, list) && DistinctKeys(sub) && Ranked(sub, Uses(ops, list)) && !op.Clear?
    requires forall s :: s in sub ==> s in list && !Touches(op, s.key)
    ensures Faithful(ops + [op], sub)
  {
    forall s | s in sub
      ensures LastSet(ops + [op], s.key) == LastSet(ops, s.key) && LastUse(ops + [op], s.key) == LastUse(ops, s.key)
    {
      HistoryStays(ops, op, s.key);
    }
    RankedBy(sub, Uses(ops, list), Uses(ops + [op], sub));
  }

  lemma TouchedLast<V(!new)>(ops: seq<Op<V>>, op: Op<V>, sub: seq<Slot<V>>, slot: Slot<V>)
    requires Faithful(ops + [op], sub) && Touches(op, slot.key) && !op.Delete?
    requires forall s :: s in sub ==> s.key != slot.key
    requires LastSet(ops + [op], slot.key) == Some((slot.value, slot.expiresAt))
    ensures Faithful(ops + [op], sub + [slot])
  {
    var longer := sub + [slot];
    forall s | s in sub
      ensures s.key in KeysOf(longer) && LastUse(ops + [op], s.key) <= |ops|
    {
      HistoryStays(ops, op, s.key);
      LastUseBound(ops, s.key);
      assert s in longer;
    }
    assert slot in longer;
    RankedBy(sub, Uses(ops + [op], sub), Uses(ops + [op], longer));
    RankedLast(sub, slot, Uses(ops + [op], longer));
  }

  lemma RankedLast<V(!new)>(list: seq<Slot<V>>, last: Slot<V>, rank: map<string, int>)
    requires Ranked(list, rank) && last.key in rank && forall s :: s in list ==> rank[s.key] < rank[last.key]
    ensures Ranked(list + [last], rank)
  {
    assert forall i :: 0 <= i < |list| ==> list[i] in list;
  }

  lemma WithoutFaithful<V(!new)>(ops: seq<Op<V>>, op: Op<V>, list: seq<Slot<V>>)
    requires Faithful(ops, list) && (op.Get? || op.Set? || op.Delete?)
    ensures Faithful(ops + [op], Without(list, op.key))
  {
    WithoutEffect(list, op.key);
    WithoutOrder(list, op.key, Uses(ops, list));
    SublistFaithful(ops, op, list, Without(list, op.key));
  }

  lemma DroppedFaithful<V(!new)>(ops: seq<Op<V>>, list: seq<Slot<V>>, key: string)
    requires Faithful(ops, list)
    ensures Faithful(ops, Without(list, key))
  {
    var rest := Without(list, key);
    WithoutEffect(list, key);
    WithoutOrder(list, key, Uses(ops, list));
    RankedBy(rest, Uses(ops, list), Uses(ops, rest));
  }

  lemma EvictFaithful<V(!new)>(ops: seq<Op<V>>, list: seq<Slot<V>>, order: seq<string>)
    requires Faithful(ops, list)
    ensures Faithful(ops, Evict(list, order))
  {
    if list != [] {
      EvictEffect(list, order);
      if Evict(list, order) != list {
        var k :| Find(list, k).Some? && Evict(list, order) == Without(list, k);
        DroppedFaithful(ops, list, k);
      }
    }
  }

  lemma ApplyFaithful<V(!new)>(ops: seq<Op<V>>, op: Op<V>, list: seq<Slot<V>>, maxSize: nat)
    requires Faithful(ops, list)
    ensures Faithful(ops + [op], Apply(list, op, maxSize))
  {
    assert (ops + [op])[..|ops|] == ops;
    match op
    case Get(key, now) =>
      WithoutFaithful(ops, op, list);
      WithoutEffect(list, key);
      if Hit(list, key, now).Some? {
        TouchedLast(ops, op, Without(list, key), Find(list, key).value);
      } else if Find(list, key) == None {
        WithoutAbsent(list, key);
      }
    case Set(key, value, expiresAt, order) =>
      var kept := Trimmed(list, order, maxSize);
      EvictFaithful(ops, list, order);
      WithoutFaithful(ops, op, kept);
      WithoutEffect(kept, key);
      TouchedLast(ops, op, Without(kept, key), Slot(key, value, expiresAt));
    case Delete(key) => WithoutFaithful(ops, op, list);
    case Clear =>
    case Cleanup(now) =>
      UnexpiredEffect(list, now, Uses(ops, list));
      SublistFaithful(ops, op, list, Unexpired(list, now));
  }

  lemma {:induction false} RunFaithful<V(!new)>(ops: seq<Op<V>>, maxSize: nat)
    ensures Faithful(ops, Run(ops, maxSize))
  {
    if ops != [] {
      var init := ops[..|ops| - 1];
      RunFaithful(init, maxSize);
      ApplyFaithful(init, ops[|ops| - 1], Run(init, maxSize), maxSize);
      assert init + [ops[|ops| - 1]] == ops;
    }
  }

  /** A hit returns the value set last for that key, neither deleted nor cleared since nor expired. */
  lemma HitIsLastSet<V(!new)>(ops: seq<Op<V>>, maxSize: nat, key: string, now: int, value: V)
    requires Hit(Run(ops, maxSize), key, now) == Some(value)
    ensures LastSet(ops, key).Some? && LastSet(ops, key).value.0 == value && now <= LastSet(ops, key).value.1
  {
    RunFaithful(ops, maxSize);
    WithoutEffect(Run(ops, maxSize), key);
  }

  // ----- when a lookup must hit

  /** The other keys that were set or asked for since the last use of this one. */
  function UsedSince<V>(ops: seq<Op<V>>, key: string): set<string> {
    if ops == [] then {}
    else
      var last := ops[|ops| - 1];
      if !(last.Set? || last.Get?) then UsedSince(ops[..|ops| - 1], key)
      else if last.key == key then {}
      else UsedSince(ops[..|ops| - 1], key) + {last.key}
  }

  /** The number of the last operation that set the key. */
  function LastSetAt<V>(ops: seq<Op<V>>, key: string): (n: nat)
    ensures n <= |ops|
  {
    if ops == [] then 0
    else if ops[|ops| - 1].Set? && ops[|ops| - 1].key == key then |ops|
    else LastSetAt(ops[..|ops| - 1], key)
  }

  /** Whenever another key was set since, there were still fewer than maxSize - 1 others used since the last use. */
  predicate Roomy<V>(ops: seq<Op<V>>, maxSize: nat, key: string) {
    forall i :: LastSetAt(ops, key) <= i < |ops| && ops[i].Set? ==> |UsedSince(ops[..i], key)| + 1 < maxSize
  }

  ghost predicate NonEmptyKeys<V(!new)>(ops: seq<Op<V>>) {
    forall op :: op in ops && op.Set? ==> op.key != ""
  }

  /** No reading of the clock lies behind `now`. */
  ghost predicate ReadBefore<V(!new)>(ops: seq<Op<V>>, now: int) {
    forall op :: op in ops && (op.Get? || op.Cleanup?) ==> op.now <= now
  }

  /** The key was set, not deleted or cleared since, does not expire before `now` and cannot have been evicted. */
  ghost predicate MustHit<V(!new)>(ops: seq<Op<V>>, maxSize: nat, key: string, now: int) {
    && LastSet(ops, key).Some? && now <= LastSet(ops, key).value.1
    && NonEmptyKeys(ops) && ReadBefore(ops, now) && Roomy(ops, maxSize, key)
  }

  lemma {:induction false} UsedLater<V(!new)>(ops: seq<Op<V>>, key: string, other: string)
    requires LastUse(ops, key) < LastUse(ops, other)
    ensures other in UsedSince(ops, key)
  {
    var init, last := ops[..|ops| - 1], ops[|ops| - 1];
    if !((last.Set? || last.Get?) && last.key == other) {
      LastUseBound(init, other);
      UsedLater(init, key, other);
    }
  }

  /** The slots behind the first one have all been used since its last use. */
  lemma LaterSlots<V(!new)>(ops: seq<Op<V>>, maxSize: nat)
    requires Run(ops, maxSize) != []
    ensures |Run(ops, maxSize)| <= |UsedSince(ops, Run(ops, maxSize)[0].key)| + 1
  {
    var list := Run(ops, maxSize);
    var first, used := list[0].key, UsedSince(ops, list[0].key);
    RunFaithful(ops, maxSize);
    KeyCount(list);
    forall k | k in KeysOf(list)
      ensures k in used + {first}
    {
      var s :| s in list && s.key == k;
      FirstIsLeastRecentlyUsed(ops, maxSize, s);
      if s != list[0] {
        UsedLater(ops, first, k);
      }
    }
    SubsetSize(KeysOf(list), used + {first});
  }

  lemma MustHitInFront<V(!new)>(ops: seq<Op<V>>, maxSize: nat, key: string, now: int)
    requires ops != [] && MustHit(ops, maxSize, key, now)
    requires !(ops[|ops| - 1].Set? && ops[|ops| - 1].key == key)
    ensures MustHit(ops[..|ops| - 1], maxSize, key, now)
  {
    var init := ops[..|ops| - 1];
    assert forall op :: op in init ==> op in ops;
    forall i | LastSetAt(init, key) <= i < |init| && init[i].Set?
      ensures |UsedSince(init[..i], key)| + 1 < maxSize
    {
      assert init[..i] == ops[..i] && init[i] == ops[i];
    }
  }

  /** A key that is set while this one is held does not push it out. */
  lemma SetSpares<V(!new)>(ops: seq<Op<V>>, maxSize: nat, key: string, order: seq<string>)
    requires NonEmptyKeys(ops) && |UsedSince(ops, key)| + 1 < maxSize && Find(Run(ops, maxSize), key).Some?
    ensures Find(Trimmed(Run(ops, maxSize), order, maxSize), key) == Find(Run(ops, maxSize), key)
  {
    var list := Run(ops, maxSize);
    if |list| >= maxSize {
      RunFaithful(ops, maxSize);
      LaterSlots(ops, maxSize);
      NoEmptyKey(ops, maxSize);
      assert list[0].key != key;
    }
  }

  lemma {:induction false} FindWithout<V(!new)>(list: seq<Slot<V>>, key: string, other: string)
    requires key != other
    ensures Find(Without(list, other), key) == Find(list, key)
  {
    if list != [] {
      var rest := Without(list[1..], other);
      FindWithout(list[1..], key, other);
      assert ([list[0]] + rest)[1..] == rest && [] + rest == rest;
    }
  }

  lemma {:induction false} FindUnexpired<V(!new)>(list: seq<Slot<V>>, key: string, now: int)
    requires Find(list, key).Some? && now <= Find(list, key).value.expiresAt
    ensures Find(Unexpired(list, now), key) == Find(list, key)
  {
    var rest := Unexpired(list[1..], now);
    assert ([list[0]] + rest)[1..] == rest && [] + rest == rest;
    if list[0].key != key {
      FindUnexpired(list[1..], key, now);
    }
  }

  /** Over every run, without any look at the cache: such a key is held with the value set last. */
  lemma {:induction false} IsHeld<V(!new)>(ops: seq<Op<V>>, maxSize: nat, key: string, now: int)
    requires maxSize >= 1 && MustHit(ops, maxSize, key, now)
    ensures Find(Run(ops, maxSize), key)
         == Some(Slot(key, LastSet(ops, key).value.0, LastSet(ops, key).value.1))
  {
    var n := |ops| - 1;
    var init, op := ops[..n], ops[n];
    var list := Run(init, maxSize);
    if op.Set? && op.key == key {
      FindAppended(Without(Trimmed(list, op.order, maxSize), key), Slot(key, op.value, op.expiresAt));
    } else {
      MustHitInFront(ops, maxSize, key, now);
      IsHeld(init, maxSize, key, now);
      assert op in ops;
      match op
      case Get(k, at) => GetSpares(list, key, k, at);
      case Set(k, value, expiresAt, order) =>
        SetSpares(init, maxSize, key, order);
        FindWithout(Trimmed(list, order, maxSize), key, k);
        FindAppend(Without(Trimmed(list, order, maxSize), k), Slot(k, value, expiresAt), key);
      case Delete(k) => FindWithout(list, key, k);
      case Clear =>
      case Cleanup(at) => FindUnexpired(list, key, at);
    }
  }

  lemma {:induction false} NotFound<V(!new)>(list: seq<Slot<V>>, key: string)
    ensures Find(Without(list, key), key) == None
  {
    if list != [] {
      var rest := Without(list[1..], key);
      NotFound(list[1..], key);
      assert ([list[0]] + rest)[1..] == rest && [] + rest == rest;
    }
  }

  lemma FindAppended<V(!new)>(list: seq<Slot<V>>, slot: Slot<V>)
    requires exists before :: list == Without(before, slot.key)
    ensures Find(list + [slot], slot.key) == Some(slot)
  {
    var before :| list == Without(before, slot.key);
    NotFound(before, slot.key);
    FindAppend(list, slot, slot.key);
  }

  lemma {:induction false} FindKey<V(!new)>(list: seq<Slot<V>>, key: string)
    ensures Find(list, key).Some? ==> Find(list, key).value.key == key
  {
    if list != [] {
      FindKey(list[1..], key);
    }
  }

  lemma GetSpares<V(!new)>(list: seq<Slot<V>>, key: string, k: string, at: int)
    requires Find(list, key).Some? && at <= Find(list, key).value.expiresAt
    ensures Find(Apply(list, Get(k, at), 1), key) == Find(list, key)
  {
    FindKey(list, k);
    if k == key {
      FindAppended(Without(list, key), Find(list, key).value);
    } else {
      FindWithout(list, key, k);
      if Find(list, k).Some? {
        FindAppend(Without(list, k), Find(list, k).value, key);
      }
    }
  }

  /** The first slot is the only one whose last use lies furthest back. */
  lemma FirstIsLeastRecentlyUsed<V(!new)>(ops: seq<Op<V>>, maxSize: nat, s: Slot<V>)
    requires s in Run(ops, maxSize)
    ensures var first := Run(ops, maxSize)[0];
      s == first || LastUse(ops, first.key) < LastUse(ops, s.key)
  {
    RunFaithful(ops, maxSize);
    var list := Run(ops, maxSize);
    var i :| 0 <= i < |list| && list[i] == s;
    assert list[0] in list;
  }

  ghost predicate LeastRecentlyUsed<V(!new)>(ops: seq<Op<V>>, list: seq<Slot<V>>, s: Slot<V>) {
    s in list && forall t :: t in list ==> LastUse(ops, s.key) <= LastUse(ops, t.key)
  }

  /** After any run an eviction drops the slot whose last use lies furthest back exactly when its key is not empty. */
  lemma VictimIsLeastRecentlyUsed<V(!new)>(ops: seq<Op<V>>, maxSize: nat, order: seq<string>)
    requires Run(ops, maxSize) != []
    ensures var list := Run(ops, maxSize);
      && LeastRecentlyUsed(ops, list, list[0])
      && (forall s :: LeastRecentlyUsed(ops, list, s) ==> s == list[0])
      && (list[0] !in Evict(list, order) <==> list[0].key != "")
  {
    var list := Run(ops, maxSize);
    RunFaithful(ops, maxSize);
    EvictionIsRight(list, order);
    assert list[0] in list;
    forall s | s in list
      ensures s == list[0] || LastUse(ops, list[0].key) < LastUse(ops, s.key)
    {
      FirstIsLeastRecentlyUsed(ops, maxSize, s);
    }
  }

  // ----- the size

  /** A new key is set in a full cache whose least recently used key is empty and met last by the eviction. */
  predicate Overflows<V>(list: seq<Slot<V>>, op: Op<V>, maxSize: nat) {
    && op.Set? && |list| == maxSize && Find(list, op.key).None?
    && list != [] && list[0].key == "" && op.order != [] && op.order[|op.order| - 1] == ""
  }

  ghost predicate CanMeet<V(!new)>(list: seq<Slot<V>>, op: Op<V>) {
    op.Set? ==> Iterates(op.order, KeysOf(list))
  }

  lemma SetSize<V(!new)>(list: seq<Slot<V>>, op: Op<V>, maxSize: nat)
    requires DistinctKeys(list) && |list| <= maxSize && maxSize >= 1 && op.Set? && CanMeet(list, op)
    ensures |Apply(list, op, maxSize)| > maxSize <==> Overflows(list, op, maxSize)
  {
    var kept := Trimmed(list, op.order, maxSize);
    WithoutEffect(list, op.key);
    if |list| == maxSize {
      EvictEffect(list, op.order);
      if kept != list {
        var k :| Find(list, k).Some? && kept == Without(list, k);
        WithoutEffect(list, k);
        WithoutEffect(kept, op.key);
      }
    }
  }

  /** One operation leaves a cache above its bound exactly when it overflows it. */
  lemma OverflowsExactly<V(!new)>(list: seq<Slot<V>>, op: Op<V>, maxSize: nat)
    requires DistinctKeys(list) && |list| <= maxSize && maxSize >= 1 && CanMeet(list, op)
    ensures |Apply(list, op, maxSize)| > maxSize <==> Overflows(list, op, maxSize)
  {
    match op
    case Get(key, now) => WithoutEffect(list, key);
    case Set(key, value, expiresAt, order) => SetSize(list, op, maxSize);
    case Delete(key) => WithoutEffect(list, key);
    case Clear =>
    case Cleanup(now) => UnexpiredIsShorter(list, now);
  }

  /** The operations of a run, each with the list it is applied to, meet exactly the keys that are there. */
  ghost predicate Possible<V(!new)>(ops: seq<Op<V>>, maxSize: nat) {
    forall n :: 0 <= n < |ops| ==> CanMeet(Run(ops[..n], maxSize), ops[n])
  }

  function SizeAt<V>(ops: seq<Op<V>>, maxSize: nat, n: nat): nat
    requires n <= |ops|
  {
    |Run(ops[..n], maxSize)|
  }

  predicate OverflowsAt<V>(ops: seq<Op<V>>, maxSize: nat, n: nat)
    requires n < |ops|
  {
    Overflows(Run(ops[..n], maxSize), ops[n], maxSize)
  }

  lemma OverflowStep<V(!new)>(ops: seq<Op<V>>, maxSize: nat, n: nat)
    requires maxSize >= 1 && Possible(ops, maxSize) && n < |ops| && SizeAt(ops, maxSize, n) <= maxSize
    ensures SizeAt(ops, maxSize, n + 1) > maxSize <==> OverflowsAt(ops, maxSize, n)
  {
    var init := ops[..n];
    assert ops[..n + 1][..n] == init;
    RunFaithful(init, maxSize);
    OverflowsExactly(Run(init, maxSize), ops[n], maxSize);
  }

  lemma {:induction false} StaysBounded<V(!new)>(ops: seq<Op<V>>, maxSize: nat, n: nat)
    requires maxSize >= 1 && Possible(ops, maxSize) && n <= |ops|
    requires forall m :: 0 <= m < n ==> !OverflowsAt(ops, maxSize, m)
    ensures SizeAt(ops, maxSize, n) <= maxSize
  {
    if n > 0 {
      StaysBounded(ops, maxSize, n - 1);
      OverflowStep(ops, maxSize, n - 1);
    }
  }

  /** Over a run the size stays within the bound exactly when no operation overflows it. */
  lemma RunIsBoundedExactly<V(!new)>(ops: seq<Op<V>>, maxSize: nat)
    requires maxSize >= 1 && Possible(ops, maxSize)
    ensures (forall n :: 0 <= n <= |ops| ==> SizeAt(ops, maxSize, n) <= maxSize)
       <==> forall n :: 0 <= n < |ops| ==> !OverflowsAt(ops, maxSize, n)
  {
    if n :| 0 <= n < |ops| && OverflowsAt(ops, maxSize, n) {
      if SizeAt(ops, maxSize, n) <= maxSize {
        OverflowStep(ops, maxSize, n);
      }
    } else {
      forall n | 0 <= n <= |ops|
        ensures SizeAt(ops, maxSize, n) <= maxSize
      {
        StaysBounded(ops, maxSize, n);
      }
    }
  }

  lemma {:induction false} KeysBackwards<V(!new)>(list: seq<Slot<V>>) returns (order: seq<string>)
    requires DistinctKeys(list)
    ensures Iterates(order, KeysOf(list))
    ensures list != [] ==> order != [] && order[|order| - 1] == list[0].key
  {
    order := [];
    if list != [] {
      var rest := KeysBackwards(list[1..]);
      order := rest + [list[0].key];
      assert forall s :: s in list <==> s == list[0] || s in list[1..];
      assert list[0].key !in KeysOf(list[1..]);
      assert KeysOf(list) == {list[0].key} + KeysOf(list[1..]);
    }
  }

  /** At every size: with the empty key the least recently used, some order of iteration makes a full cache overflow. */
  lemma EmptyKeyOverflows<V(!new)>(list: seq<Slot<V>>, key: string, value: V, expiresAt: int)
      returns (order: seq<string>)
    requires DistinctKeys(list) && list != [] && list[0].key == "" && Find(list, key).None?
    ensures Iterates(order, KeysOf(list))
    ensures |Apply(list, Set(key, value, expiresAt, order), |list|)| == |list| + 1
  {
    order := KeysBackwards(list);
    EvictEffect(list, order);
    WithoutEffect(list, key);
  }

  /** Keys that are not empty, such as those of the analyzer, which contain a colon, never let this happen. */
  lemma RunIsBounded<V(!new)>(ops: seq<Op<V>>, maxSize: nat)
    requires maxSize >= 1 && Possible(ops, maxSize)
    requires forall op :: op in ops && op.Set? ==> op.key != ""
    ensures |Run(ops, maxSize)| <= maxSize
  {
    forall n | 0 <= n < |ops|
      ensures !OverflowsAt(ops, maxSize, n)
    {
      NoEmptyKey(ops[..n], maxSize);
    }
    StaysBounded(ops, maxSize, |ops|);
    assert ops[..|ops|] == ops;
  }

  lemma NoEmptyKey<V(!new)>(ops: seq<Op<V>>, maxSize: nat)
    requires forall op :: op in ops && op.Set? ==> op.key != ""
    ensures Run(ops, maxSize) != [] ==> Run(ops, maxSize)[0].key != ""
  {
    RunFaithful(ops, maxSize);
    var list := Run(ops, maxSize);
    if list != [] {
      assert list[0] in list;
      LastSetIsSet(ops, list[0].key);
    }
  }

  lemma {:induction false} LastSetIsSet<V(!new)>(ops: seq<Op<V>>, key: string)
    requires LastSet(ops, key).Some?
    ensures exists op :: op in ops && op.Set? && op.key == key
  {
    var init, last := ops[..|ops| - 1], ops[|ops| - 1];
    if !(last.Set? && last.key == key) {
      LastSetIsSet(init, key);
      assert forall op :: op in init ==> op in ops;
    }
  }

  lemma {:induction false} UnexpiredIsShorter<V(!new)>(list: seq<Slot<V>>, now: int)
    ensures |Unexpired(list, now)| <= |list|
  {
    if list != [] {
      UnexpiredIsShorter(list[1..], now);
    }
  }

  /**
   Setting a key that a full cache already holds evicts an entry all the same: the cache shrinks exactly when
   it is full, something is evicted and the key is held by another slot.
   */
  lemma UpdateMayShrink<V(!new)>(list: seq<Slot<V>>, maxSize: nat, op: Op<V>)
    requires DistinctKeys(list) && 1 <= |list| <= maxSize && op.Set?
    ensures |Apply(list, op, maxSize)| < |list|
       <==> |list| == maxSize && Evict(list, op.order) != list && Find(Evict(list, op.order), op.key).Some?
  {
    WithoutEffect(list, op.key);
    EvictEffect(list, op.order);
    if Evict(list, op.order) != list {
      var k :| Find(list, k).Some? && Evict(list, op.order) == Without(list, k);
      WithoutEffect(list, k);
      WithoutEffect(Without(list, k), op.key);
    }
  }
}
