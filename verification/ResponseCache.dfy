/** The bounded, least-recently-used cache of validated live responses. */
module ResponseCache {
  import opened Wire
  import opened DnsNames
  import opened DnsMessages
  import opened Leases

  type Key = (string, nat)

  datatype Cached = Cached(response: Packet, addresses: seq<Address>, expires: Time)

  /** Entries with their keys ordered from least to most recently used. */
  datatype Cache = Cache(order: seq<Key>, entries: map<Key, Cached>)

  const CACHE_LIMIT: nat := 4096

  predicate NoRepeats(s: seq<Key>) { forall i, j :: 0 <= i < j < |s| ==> s[i] != s[j] }

  ghost predicate WellOrdered(c: Cache) {
    NoRepeats(c.order) && forall k :: k in c.order <==> k in c.entries
  }

  function Without(order: seq<Key>, key: Key): seq<Key> {
    if order == [] then []
    else
      var before, last := Without(order[..|order| - 1], key), order[|order| - 1];
      if last == key then before else before + [last]
  }

  function RemoveKey(c: Cache, key: Key): Cache { Cache(Without(c.order, key), c.entries - {key}) }

  /** `key` as the most recently used entry. */
  function PutLast(c: Cache, key: Key, value: Cached): Cache {
    Cache(Without(c.order, key) + [key], c.entries[key := value])
  }

  function RemoveAll(c: Cache, keys: seq<Key>): Cache {
    if keys == [] then c else RemoveKey(RemoveAll(c, keys[..|keys| - 1]), keys[|keys| - 1])
  }

  function ExpiredKeys(order: seq<Key>, entries: map<Key, Cached>, now: Time): seq<Key> {
    if order == [] then []
    else
      var before, last := ExpiredKeys(order[..|order| - 1], entries, now), order[|order| - 1];
      if last in entries && entries[last].expires <= now then before + [last] else before
  }

  function PurgeExpired(c: Cache, now: Time): Cache { RemoveAll(c, ExpiredKeys(c.order, c.entries, now)) }

  /** Drops least recently used entries down to the limit. */
  function Evict(c: Cache, limit: nat): Cache
    decreases |c.order|
  {
    if |c.order| <= limit then c
    else Evict(Cache(c.order[1..], c.entries - {c.order[0]}), limit)
  }

  function Lookup(c: Cache, key: Key, now: Time): (Cache, Option<Cached>) {
    var p := PurgeExpired(c, now);
    if key in p.entries then (PutLast(p, key, p.entries[key]), Some(p.entries[key])) else (p, None)
  }

  function Store(c: Cache, key: Key, value: Cached, now: Time, limit: nat): Cache {
    Evict(PutLast(PurgeExpired(c, now), key, value), limit)
  }

  /** The cache as the gateway updates it. */
  class LiveCache {
    var order: seq<Key>
    var entries: map<Key, Cached>

    function Contents(): Cache
      reads this
    {
      Cache(order, entries)
    }

    constructor ()
      ensures Contents() == Cache([], map[])
    {
      order, entries := [], map[];
    }

    method Pop(key: Key)
      modifies this
      ensures Contents() == RemoveKey(old(Contents()), key)
    {
      var kept: seq<Key> := [];
      for i := 0 to |order|
        invariant kept == Without(order[..i], key) && Contents() == old(Contents())
      {
        assert order[..i + 1][..i] == order[..i];
        if order[i] != key {
          kept := kept + [order[i]];
        }
      }
      assert order[..|order|] == order;
      order := kept;
      entries := entries - {key};
    }

    method PurgeResponses(now: Time)
      modifies this
      ensures Contents() == PurgeExpired(old(Contents()), now)
    {
      var expired: seq<Key> := [];
      for i := 0 to |order|
        invariant expired == ExpiredKeys(order[..i], entries, now) && Contents() == old(Contents())
      {
        assert order[..i + 1][..i] == order[..i];
        if order[i] in entries && entries[order[i]].expires <= now {
          expired := expired + [order[i]];
        }
      }
      assert order[..|order|] == order;
      for i := 0 to |expired|
        invariant Contents() == RemoveAll(old(Contents()), expired[..i])
      {
        assert expired[..i + 1][..i] == expired[..i];
        Pop(expired[i]);
      }
      assert expired[..|expired|] == expired;
    }

    method CachedResponse(name: string, qtype: nat, now: Time) returns (r: Option<Cached>)
      modifies this
      ensures (Contents(), r) == Lookup(old(Contents()), (name, qtype), now)
    {
      PurgeResponses(now);
      var key := (name, qtype);
      if key !in entries {
        return None;
      }
      var cached := entries[key];
      Pop(key);
      order, entries := order + [key], entries[key := cached];
      assert Contents().entries == PurgeExpired(old(Contents()), now).entries[key := cached];
      return Some(cached);
    }

    /** Remembers a live answer that grants addresses.  `now` is read before the lock, `locked` inside it. */
    method CacheResponse(name: string, qtype: nat, response: Packet, addresses: seq<Address>, ttl: int,
                         maxTtl: int, grace: int, now: Time, locked: Time)
      modifies this
      ensures Contents() ==
              if addresses == [] || ttl <= 0 then old(Contents())
              else Store(old(Contents()), (name, qtype), Cached(response, addresses, LiveExpiry(now, ttl, maxTtl, grace)), locked, CACHE_LIMIT)
    {
      if addresses == [] || ttl <= 0 {
        return;
      }
      var expiry := now + Min(ttl, maxTtl) as real + grace as real;
      PurgeResponses(locked);
      var key, value := (name, qtype), Cached(response, addresses, expiry);
      ghost var purged := Contents();
      Pop(key);
      order, entries := order + [key], entries[key := value];
      assert Contents().entries == purged.entries[key := value];
      ghost var whole := Evict(Contents(), CACHE_LIMIT);
      while |order| > CACHE_LIMIT
        invariant Evict(Contents(), CACHE_LIMIT) == whole
      {
        order, entries := order[1..], entries - {order[0]};
      }
    }
  }

  // ---- shape lemmas ----

  lemma {:induction false} WithoutExact(order: seq<Key>, key: Key)
    ensures forall k :: k in Without(order, key) <==> k in order && k != key
    ensures |Without(order, key)| <= |order|
    ensures NoRepeats(order) ==> NoRepeats(Without(order, key))
  {
    if order != [] {
      var front, last := order[..|order| - 1], order[|order| - 1];
      WithoutExact(front, key);
      assert order == front + [last];
      if NoRepeats(order) {
        assert NoRepeats(front) by { assert forall i :: 0 <= i < |front| ==> front[i] == order[i]; }
        assert last !in front;
      }
    }
  }

  lemma {:induction false} ExpiredExact(order: seq<Key>, entries: map<Key, Cached>, now: Time)
    ensures forall k :: k in ExpiredKeys(order, entries, now) <==> k in order && k in entries && entries[k].expires <= now
  {
    if order != [] {
      ExpiredExact(order[..|order| - 1], entries, now);
      assert order == order[..|order| - 1] + [order[|order| - 1]];
    }
  }

  lemma {:induction false} RemoveAllExact(c: Cache, keys: seq<Key>)
    requires WellOrdered(c)
    ensures WellOrdered(RemoveAll(c, keys))
    ensures forall k :: k in RemoveAll(c, keys).entries <==> k in c.entries && k !in keys
    ensures forall k :: k in RemoveAll(c, keys).entries ==> RemoveAll(c, keys).entries[k] == c.entries[k]
  {
    if keys != [] {
      var front, last := keys[..|keys| - 1], keys[|keys| - 1];
      RemoveAllExact(c, front);
      WithoutExact(RemoveAll(c, front).order, last);
      assert keys == front + [last];
    }
  }

  /** Purging keeps exactly the unexpired entries. */
  lemma PurgeExact(c: Cache, now: Time)
    requires WellOrdered(c)
    ensures WellOrdered(PurgeExpired(c, now))
    ensures forall k :: k in PurgeExpired(c, now).entries <==> k in c.entries && c.entries[k].expires > now
    ensures forall k :: k in PurgeExpired(c, now).entries ==> PurgeExpired(c, now).entries[k] == c.entries[k]
  {
    ExpiredExact(c.order, c.entries, now);
    RemoveAllExact(c, ExpiredKeys(c.order, c.entries, now));
  }

  // ---- the cache against the map of latest answers ----

  datatype Op = StoreOp(key: Key, value: Cached, now: Time) | LookupOp(key: Key, now: Time)

  /** A cache together with what has happened to it: the latest value stored
      under each key, when each key was last stored or hit, and the last clock reading. */
  datatype Traced = Traced(cache: Cache, latest: map<Key, Cached>, used: map<Key, nat>, tick: nat, now: Time)

  function Do(t: Traced, op: Op, limit: nat): Traced {
    match op
    case StoreOp(key, value, now) =>
      Traced(Store(t.cache, key, value, now, limit), t.latest[key := value], t.used[key := t.tick], t.tick + 1, now)
    case LookupOp(key, now) =>
      var (cache, hit) := Lookup(t.cache, key, now);
      Traced(cache, t.latest, if hit.Some? then t.used[key := t.tick] else t.used, t.tick + 1, now)
  }

  /** Keys stored or hit since `key` last was. */
  ghost function UsedSince(used: map<Key, nat>, key: Key): set<Key> {
    set k | k in used && key in used && used[k] > used[key]
  }

  /** Keys are ordered by their last use. */
  ghost predicate ByUse(order: seq<Key>, used: map<Key, nat>) {
    (forall i :: 0 <= i < |order| ==> order[i] in used)
    && forall i, j :: 0 <= i < j < |order| ==> used[order[i]] < used[order[j]]
  }

  ghost predicate Faithful(t: Traced, limit: nat) {
    && WellOrdered(t.cache)
    && ByUse(t.cache.order, t.used)
    && (forall k :: k in t.used ==> t.used[k] < t.tick)
    && (forall k :: k in t.latest ==> k in t.used)
    && (forall k :: k in t.cache.entries ==> k in t.latest && t.cache.entries[k] == t.latest[k])
    && (forall k :: k in t.latest && t.latest[k].expires > t.now && k !in t.cache.entries ==> |UsedSince(t.used, k)| >= limit)
  }

  lemma {:induction false} ByUseWithout(order: seq<Key>, used: map<Key, nat>, key: Key)
    requires ByUse(order, used)
    ensures ByUse(Without(order, key), used)
  {
    if order != [] {
      var front := order[..|order| - 1];
      assert ByUse(front, used) by { assert forall i :: 0 <= i < |front| ==> front[i] == order[i]; }
      ByUseWithout(front, used, key);
      WithoutExact(front, key);
      forall k | k in front ensures used[k] < used[order[|order| - 1]] {
        var i :| 0 <= i < |front| && front[i] == k;
        assert order[i] == k;
      }
    }
  }

  lemma {:induction false} ByUseRemoveAll(c: Cache, keys: seq<Key>, used: map<Key, nat>)
    requires ByUse(c.order, used)
    ensures ByUse(RemoveAll(c, keys).order, used)
  {
    if keys != [] {
      ByUseRemoveAll(c, keys[..|keys| - 1], used);
      ByUseWithout(RemoveAll(c, keys[..|keys| - 1]).order, used, keys[|keys| - 1]);
    }
  }

  /** Using a key at a new tick makes it last and keeps the order by use. */
  lemma PutLastByUse(c: Cache, key: Key, value: Cached, used: map<Key, nat>, tick: nat)
    requires WellOrdered(c) && ByUse(c.order, used) && forall k :: k in used ==> used[k] < tick
    ensures WellOrdered(PutLast(c, key, value)) && ByUse(PutLast(c, key, value).order, used[key := tick])
    ensures forall k :: k in PutLast(c, key, value).entries <==> k == key || k in c.entries
  {
    WithoutExact(c.order, key);
    ByUseWithout(c.order, used, key);
    var rest := Without(c.order, key);
    assert forall i :: 0 <= i < |rest| ==> rest[i] in rest;
  }

  lemma PutLastOrdered(c: Cache, key: Key, value: Cached)
    requires WellOrdered(c)
    ensures WellOrdered(PutLast(c, key, value))
  {
    WithoutExact(c.order, key);
    var rest := Without(c.order, key);
    assert forall i :: 0 <= i < |rest| ==> rest[i] in rest;
  }

  lemma {:induction false} KeysOf(s: seq<Key>) returns (all: set<Key>)
    requires NoRepeats(s)
    ensures |all| == |s| && forall k :: k in all <==> k in s
  {
    if s == [] {
      all := {};
    } else {
      var front := s[..|s| - 1];
      assert forall i :: 0 <= i < |front| ==> front[i] == s[i];
      var before := KeysOf(front);
      assert s[|s| - 1] !in front;
      all := before + {s[|s| - 1]};
      assert s == front + [s[|s| - 1]];
    }
  }

  lemma SubsetSize(a: set<Key>, b: set<Key>)
    requires a <= b
    ensures |a| <= |b|
  {
    if a != {} {
      var x :| x in a;
      SubsetSize(a - {x}, b - {x});
    }
  }

  /** Everything behind the least recently used key was used after it. */
  lemma VictimOvertaken(order: seq<Key>, used: map<Key, nat>, limit: nat)
    requires NoRepeats(order) && ByUse(order, used) && |order| > limit
    ensures |UsedSince(used, order[0])| >= limit
  {
    var rest := order[1..];
    assert forall i :: 0 <= i < |rest| ==> rest[i] == order[i + 1];
    var newer := KeysOf(rest);
    forall k | k in newer ensures k in UsedSince(used, order[0]) {
      var i :| 0 <= i < |rest| && rest[i] == k;
      assert order[i + 1] == k;
    }
    SubsetSize(newer, UsedSince(used, order[0]));
  }

  lemma DropFirst(c: Cache, used: map<Key, nat>)
    requires WellOrdered(c) && ByUse(c.order, used) && c.order != []
    ensures var d := Cache(c.order[1..], c.entries - {c.order[0]}); WellOrdered(d) && ByUse(d.order, used)
  {
    var rest := c.order[1..];
    assert c.order == [c.order[0]] + rest;
    assert forall i :: 0 <= i < |rest| ==> rest[i] == c.order[i + 1];
    assert c.order[0] !in rest;
  }

  /** Eviction keeps the last key, reaches the limit, and drops a key only when
      at least `limit` others were used after it. */
  lemma {:induction false} EvictExact(c: Cache, limit: nat, used: map<Key, nat>)
    requires WellOrdered(c) && ByUse(c.order, used) && limit >= 1
    ensures var e := Evict(c, limit);
            && WellOrdered(e) && ByUse(e.order, used) && |e.order| <= limit
            && (forall k :: k in e.entries ==> k in c.entries && e.entries[k] == c.entries[k])
            && (c.order != [] ==> c.order[|c.order| - 1] in e.entries)
            && (forall k :: k in c.entries && k !in e.entries ==> |UsedSince(used, k)| >= limit)
    decreases |c.order|
  {
    hide NoRepeats, ByUse, UsedSince;
    if |c.order| > limit {
      DropFirst(c, used);
      VictimOvertaken(c.order, used, limit);
      EvictExact(Cache(c.order[1..], c.entries - {c.order[0]}), limit, used);
      assert c.order[1..][|c.order| - 2] == c.order[|c.order| - 1];
    } else if c.order != [] {
      assert c.order[|c.order| - 1] in c.order;
    }
  }

  lemma DropFirstOrdered(c: Cache)
    requires WellOrdered(c) && c.order != []
    ensures WellOrdered(Cache(c.order[1..], c.entries - {c.order[0]}))
  {
    var rest := c.order[1..];
    assert c.order == [c.order[0]] + rest;
    assert forall i :: 0 <= i < |rest| ==> rest[i] == c.order[i + 1];
  }

  lemma {:induction false} EvictKeeps(c: Cache, limit: nat)
    requires WellOrdered(c)
    ensures WellOrdered(Evict(c, limit))
    ensures forall k :: k in Evict(c, limit).entries ==> k in c.entries && Evict(c, limit).entries[k] == c.entries[k]
    decreases |c.order|
  {
    hide WellOrdered;
    if |c.order| > limit {
      DropFirstOrdered(c);
      EvictKeeps(Cache(c.order[1..], c.entries - {c.order[0]}), limit);
    }
  }

  /** Later use of other keys only adds to what was used since. */
  lemma UsedSinceGrows(t: Traced, u: Traced, key: Key)
    requires key in t.used && key in u.used && u.used[key] == t.used[key]
    requires forall k :: k in t.used ==> k in u.used && u.used[k] >= t.used[k]
    ensures |UsedSince(u.used, key)| >= |UsedSince(t.used, key)|
  {
    SubsetSize(UsedSince(t.used, key), UsedSince(u.used, key));
  }

  lemma StoreFaithful(t: Traced, key: Key, value: Cached, now: Time, limit: nat)
    requires Faithful(t, limit) && limit >= 1 && now >= t.now
    ensures Faithful(Do(t, StoreOp(key, value, now), limit), limit)
  {
    hide PurgeExpired, PutLast, Evict, ByUse, NoRepeats, UsedSince, Without;
    var u := Do(t, StoreOp(key, value, now), limit);
    var p := PurgeExpired(t.cache, now);
    PurgeExact(t.cache, now);
    PurgeByUse(t.cache, now, t.used);
    var c := PutLast(p, key, value);
    PutLastByUse(p, key, value, t.used, t.tick);
    PutLastLast(p, key, value);
    EvictExact(c, limit, u.used);
    forall k | k in u.latest && u.latest[k].expires > u.now && k !in u.cache.entries
      ensures |UsedSince(u.used, k)| >= limit
    {
      if k !in c.entries {
        UsedSinceGrows(t, u, k);
      }
    }
  }

  lemma LookupFaithful(t: Traced, key: Key, now: Time, limit: nat)
    requires Faithful(t, limit) && limit >= 1 && now >= t.now
    ensures Faithful(Do(t, LookupOp(key, now), limit), limit)
  {
    hide PurgeExpired, PutLast, ByUse, NoRepeats, UsedSince;
    var u := Do(t, LookupOp(key, now), limit);
    var p := PurgeExpired(t.cache, now);
    PurgeExact(t.cache, now);
    PurgeByUse(t.cache, now, t.used);
    if key in p.entries {
      PutLastByUse(p, key, p.entries[key], t.used, t.tick);
      PutLastLast(p, key, p.entries[key]);
    }
    forall k | k in u.latest && u.latest[k].expires > u.now && k !in u.cache.entries
      ensures |UsedSince(u.used, k)| >= limit
    {
      UsedSinceGrows(t, u, k);
    }
  }

  /** Every operation at a non-decreasing clock keeps the cache faithful. */
  lemma DoFaithful(t: Traced, op: Op, limit: nat)
    requires Faithful(t, limit) && limit >= 1 && op.now >= t.now
    ensures Faithful(Do(t, op, limit), limit)
  {
    match op {
      case StoreOp(key, value, now) => StoreFaithful(t, key, value, now, limit);
      case LookupOp(key, now) => LookupFaithful(t, key, now, limit);
    }
  }

  lemma PurgeByUse(c: Cache, now: Time, used: map<Key, nat>)
    requires ByUse(c.order, used)
    ensures ByUse(PurgeExpired(c, now).order, used)
  {
    ByUseRemoveAll(c, ExpiredKeys(c.order, c.entries, now), used);
  }

  lemma PutLastLast(c: Cache, key: Key, value: Cached)
    ensures var d := PutLast(c, key, value);
            && d.order != [] && d.order[|d.order| - 1] == key
            && key in d.entries && d.entries[key] == value
            && forall k :: k in d.entries && k != key ==> k in c.entries && d.entries[k] == c.entries[k]
  {
  }

  function DoAll(t: Traced, ops: seq<Op>, limit: nat): Traced {
    if ops == [] then t else Do(DoAll(t, ops[..|ops| - 1], limit), ops[|ops| - 1], limit)
  }

  predicate ClockRuns(start: Time, ops: seq<Op>) {
    (ops != [] ==> start <= ops[0].now) && forall i :: 0 < i < |ops| ==> ops[i - 1].now <= ops[i].now
  }

  const EMPTY: Traced := Traced(Cache([], map[]), map[], map[], 0, 0.0)

  lemma {:induction false} RunFaithful(ops: seq<Op>, limit: nat)
    requires limit >= 1 && ClockRuns(0.0, ops)
    ensures Faithful(DoAll(EMPTY, ops, limit), limit)
    ensures ops != [] ==> DoAll(EMPTY, ops, limit).now == ops[|ops| - 1].now
    ensures ops == [] ==> DoAll(EMPTY, ops, limit).now == 0.0
  {
    if ops != [] {
      RunFaithful(ops[..|ops| - 1], limit);
      DoFaithful(DoAll(EMPTY, ops[..|ops| - 1], limit), ops[|ops| - 1], limit);
    }
  }

  /** A hit is the latest value stored under its key and is unexpired; a miss
      means the key was never stored, its latest value has expired, or at least
      `limit` other keys were stored or hit since it was. */
  lemma LookupAgrees(t: Traced, limit: nat, key: Key, now: Time)
    requires Faithful(t, limit) && t.now <= now
    ensures var hit := Lookup(t.cache, key, now).1;
            && (hit.Some? ==> key in t.latest && hit.value == t.latest[key] && hit.value.expires > now)
            && (hit.None? ==> key !in t.latest || t.latest[key].expires <= now || |UsedSince(t.used, key)| >= limit)
  {
    hide PurgeExpired, NoRepeats, ByUse, UsedSince;
    PurgeExact(t.cache, now);
  }

  /** A store leaves at most `limit` entries, the new one among them. */
  lemma StoreFits(t: Traced, limit: nat, key: Key, value: Cached, now: Time)
    requires Faithful(t, limit) && limit >= 1
    ensures var stored := Store(t.cache, key, value, now, limit);
            |stored.entries| <= limit && key in stored.entries && stored.entries[key] == value
  {
    hide PurgeExpired, PutLast, Evict, NoRepeats, ByUse, UsedSince;
    PurgeExact(t.cache, now);
    PurgeByUse(t.cache, now, t.used);
    var p := PurgeExpired(t.cache, now);
    PutLastByUse(p, key, value, t.used, t.tick);
    PutLastLast(p, key, value);
    EvictExact(PutLast(p, key, value), limit, t.used[key := t.tick]);
    EntryCount(Store(t.cache, key, value, now, limit));
  }

  function LastReading(ops: seq<Op>): Time { if ops == [] then 0.0 else ops[|ops| - 1].now }

  /** After any run with a non-decreasing clock the cache agrees with the map of latest live answers. */
  lemma CacheIsLatestAnswers(ops: seq<Op>, limit: nat, key: Key, value: Cached, now: Time)
    requires limit >= 1 && ClockRuns(0.0, ops) && LastReading(ops) <= now
    ensures var t := DoAll(EMPTY, ops, limit);
            var hit, stored := Lookup(t.cache, key, now).1, Store(t.cache, key, value, now, limit);
            && (hit.Some? ==> key in t.latest && hit.value == t.latest[key] && hit.value.expires > now)
            && (hit.None? ==> key !in t.latest || t.latest[key].expires <= now || |UsedSince(t.used, key)| >= limit)
            && |stored.entries| <= limit && key in stored.entries && stored.entries[key] == value
  {
    hide Lookup, Store, DoAll, Faithful, UsedSince;
    RunFaithful(ops, limit);
    var t := DoAll(EMPTY, ops, limit);
    LookupAgrees(t, limit, key, now);
    StoreFits(t, limit, key, value, now);
  }

  lemma EntryCount(c: Cache)
    requires WellOrdered(c)
    ensures |c.entries| == |c.order|
  {
    var all := KeysOf(c.order);
    assert all == c.entries.Keys;
  }
}
