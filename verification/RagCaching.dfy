/** The bounded cache with time-to-live (ragCache.ts) against the plain map of what was last written. */
module RagCaching {
  import opened Strings

  datatype Entry<T> = Entry(data: T, timestamp: int, ttlMs: int)

  /** `order` lists the keys as the JavaScript Map iterates them. */
  datatype Cache<T> = Cache(maxSize: int, defaultTtlMs: int, entries: map<string, Entry<T>>, order: seq<string>,
                            hits: nat, misses: nat, evictions: nat)

  predicate Fits<T>(c: Cache<T>) {
    forall k <- c.order :: k in c.entries
  }

  function Remaining(ks: seq<string>, k: string): (r: seq<string>)
    ensures forall j :: j in r <==> j in ks && j != k
  {
    if ks == [] then [] else if ks[0] == k then Remaining(ks[1..], k) else [ks[0]] + Remaining(ks[1..], k)
  }

  /** The first of the keys with the smallest timestamp. */
  function Oldest<T>(entries: map<string, Entry<T>>, ks: seq<string>): (k: string)
    requires ks != [] && forall j <- ks :: j in entries
    ensures k in ks && forall j <- ks :: entries[k].timestamp <= entries[j].timestamp
  {
    if |ks| == 1 then ks[0]
    else
      var rest, last := ks[..|ks| - 1], ks[|ks| - 1];
      assert ks == rest + [last];
      var o := Oldest(entries, rest);
      if entries[last].timestamp < entries[o].timestamp then last else o
  }

  function OldestOfFirst<T>(entries: map<string, Entry<T>>, ks: seq<string>, n: nat): (k: string)
    requires 1 <= n <= |ks| && forall j <- ks :: j in entries
    ensures k in entries
  {
    Oldest(entries, ks[..n])
  }

  lemma {:induction false} OldestEnds<T>(entries: map<string, Entry<T>>, ks: seq<string>)
    requires ks != [] && forall j <- ks :: j in entries
    ensures OldestOfFirst(entries, ks, 1) == ks[0] && OldestOfFirst(entries, ks, |ks|) == Oldest(entries, ks)
  {
    assert ks[..1] == [ks[0]] && ks[..|ks|] == ks;
  }

  lemma OldestStep<T>(entries: map<string, Entry<T>>, ks: seq<string>, i: nat)
    requires 1 <= i < |ks| && forall j <- ks :: j in entries
    ensures var o := OldestOfFirst(entries, ks, i);
      OldestOfFirst(entries, ks, i + 1) == if entries[ks[i]].timestamp < entries[o].timestamp then ks[i] else o
  {
    assert ks[..i + 1][..i] == ks[..i];
  }

  function Delete<T>(c: Cache<T>, k: string): (d: Cache<T>)
    ensures Fits(c) ==> Fits(d)
  {
    c.(entries := c.entries - {k}, order := Remaining(c.order, k))
  }

  function Stored<T>(c: Cache<T>, key: string, e: Entry<T>): (d: Cache<T>)
    ensures Fits(c) ==> Fits(d)
    ensures d.order != []
  {
    c.(entries := c.entries[key := e], order := if key in c.order then c.order else c.order + [key])
  }

  predicate Evictable<T>(c: Cache<T>) {
    Fits(c) && c.order != []
  }

  function Evicted<T>(c: Cache<T>): (d: Cache<T>)
    requires Evictable(c)
    ensures Fits(d)
  {
    Delete(c, Oldest(c.entries, c.order)).(evictions := c.evictions + 1)
  }

  function SetIn<T>(c: Cache<T>, key: string, data: T, ttlMs: Option<int>, now: int): (d: Cache<T>)
    requires Fits(c)
    ensures Fits(d)
  {
    var s := Stored(c, key, Entry(data, now, if ttlMs.Some? then ttlMs.value else c.defaultTtlMs));
    if |s.entries| > s.maxSize then Evicted(s) else s
  }

  lemma SetSteps<T>(c: Cache<T>, key: string, data: T, ttlMs: Option<int>, now: int)
    requires Fits(c)
    ensures var ttl := if ttlMs.Some? then ttlMs.value else c.defaultTtlMs;
      var s := c.(entries := c.entries[key := Entry(data, now, ttl)],
                  order := if key in c.order then c.order else c.order + [key]);
      Evictable(s) && SetIn(c, key, data, ttlMs, now) == if |s.entries| > s.maxSize then Evicted(s) else s
  {
    hide Oldest, Remaining, Evicted;
  }

  predicate Hits<T>(c: Cache<T>, key: string, now: int) {
    key in c.entries && now - c.entries[key].timestamp <= c.entries[key].ttlMs
  }

  function GetFrom<T>(c: Cache<T>, key: string, now: int): (d: Cache<T>)
    ensures Fits(c) ==> Fits(d)
  {
    if Hits(c, key, now) then c.(hits := c.hits + 1)
    else (if key in c.entries then Delete(c, key) else c).(misses := c.misses + 1)
  }

  function Cleared<T>(c: Cache<T>): (d: Cache<T>)
    ensures Fits(d)
  {
    c.(entries := map[], order := [], hits := 0, misses := 0, evictions := 0)
  }

  class RagCache<T> {
    const maxSize: int
    const defaultTtlMs: int
    var entries: map<string, Entry<T>>
    var order: seq<string>
    var hits: nat
    var misses: nat
    var evictions: nat

    function Value(): Cache<T>
      reads this
    {
      Cache(maxSize, defaultTtlMs, entries, order, hits, misses, evictions)
    }

    constructor (maxSize: int, defaultTtlMs: int)
      ensures Value() == Cache(maxSize, defaultTtlMs, map[], [], 0, 0, 0)
    {
      this.maxSize, this.defaultTtlMs, entries, order := maxSize, defaultTtlMs, map[], [];
      hits, misses, evictions := 0, 0, 0;
    }

    method Set(key: string, data: T, ttlMs: Option<int>, now: int)
      requires Fits(Value())
      modifies this
      ensures Value() == SetIn(old(Value()), key, data, ttlMs, now)
    {
      hide SetIn, Evictable, Evicted, Fits, Oldest, Remaining;
      SetSteps(Value(), key, data, ttlMs, now);
      var ttl := if ttlMs.Some? then ttlMs.value else defaultTtlMs;
      entries := entries[key := Entry(data, now, ttl)];
      if key !in order {
        order := order + [key];
      }
      if |entries| > maxSize {
        EvictOldest();
      }
    }

    method EvictOldest()
      requires Evictable(Value())
      modifies this
      ensures Value() == Evicted(old(Value()))
    {
      hide Oldest, Remaining;
      var oldest := FindOldest();
      entries := entries - {oldest};
      order := Remaining(order, oldest);
      evictions := evictions + 1;
    }

    method FindOldest() returns (oldest: string)
      requires order != [] && forall j <- order :: j in entries
      ensures oldest == Oldest(entries, order)
    {
      var es, ks := entries, order;
      OldestEnds(es, ks);
      hide *;
      oldest := ks[0];
      var i := 1;
      while i < |ks|
        invariant 1 <= i <= |ks|
        invariant oldest == OldestOfFirst(es, ks, i)
      {
        OldestStep(es, ks, i);
        if es[ks[i]].timestamp < es[oldest].timestamp {
          oldest := ks[i];
        }
        i := i + 1;
      }
    }

    method Get(key: string, now: int) returns (data: Option<T>)
      modifies this
      ensures Value() == GetFrom(old(Value()), key, now)
      ensures data == if Hits(old(Value()), key, now) then Some(old(entries)[key].data) else None
    {
      if key !in entries {
        misses := misses + 1;
        return None;
      }
      var entry := entries[key];
      var age := now - entry.timestamp;
      if age > entry.ttlMs {
        entries := entries - {key};
        order := Remaining(order, key);
        misses := misses + 1;
        return None;
      }
      hits := hits + 1;
      return Some(entry.data);
    }

    method Clear()
      modifies this
      ensures Value() == Cleared(old(Value()))
    {
      entries, order := map[], [];
      hits, misses, evictions := 0, 0, 0;
    }
  }

  // ----- runs ------------------------------------------------------------

  datatype Event<T> = Set(key: string, data: T, ttlMs: Option<int>, at: int) | Get(key: string, at: int) | Clear

  /** The cache, the plain map of last writes since the last clear, and the clock. */
  datatype System<T> = System(cache: Cache<T>, written: map<string, Entry<T>>, clock: int)

  /** The clock does not go back. */
  predicate InTime<T>(s: System<T>, e: Event<T>) {
    e.Clear? || s.clock <= e.at
  }

  function Next<T>(s: System<T>, e: Event<T>): (t: System<T>)
    requires Fits(s.cache)
    ensures Fits(t.cache)
  {
    var c := s.cache;
    match e
    case Set(key, data, ttlMs, at) =>
      System(SetIn(c, key, data, ttlMs, at),
             s.written[key := Entry(data, at, if ttlMs.Some? then ttlMs.value else c.defaultTtlMs)], at)
    case Get(key, at) => System(GetFrom(c, key, at), s.written, at)
    case Clear => System(Cleared(c), map[], s.clock)
  }

  predicate Legal<T>(s: System<T>, es: seq<Event<T>>)
    requires Fits(s.cache)
    decreases |es|
  {
    es == [] || (InTime(s, es[0]) && Legal(Next(s, es[0]), es[1..]))
  }

  function After<T>(s: System<T>, es: seq<Event<T>>): (t: System<T>)
    requires Fits(s.cache)
    ensures Fits(t.cache)
    decreases |es|
  {
    if es == [] then s else After(Next(s, es[0]), es[1..])
  }

  /** The other keys whose last write is not older. */
  ghost function NotOlder<T>(written: map<string, Entry<T>>, key: string): set<string>
    requires key in written
  {
    set j | j in written && j != key && written[key].timestamp <= written[j].timestamp
  }

  ghost predicate Expired<T>(e: Entry<T>, now: int) {
    now - e.timestamp > e.ttlMs
  }

  /** Why a written key may be missing. */
  ghost predicate Excused<T>(s: System<T>, key: string)
    requires key in s.written
  {
    Expired(s.written[key], s.clock) || |NotOlder(s.written, key)| >= s.cache.maxSize
  }

  ghost predicate Keys<T>(c: Cache<T>) {
    (forall k :: k in c.order <==> k in c.entries) && |c.entries| <= c.maxSize
  }

  ghost predicate Mirrors<T>(s: System<T>) {
    && (forall k <- s.cache.entries :: k in s.written && s.written[k] == s.cache.entries[k])
    && (forall k <- s.written :: s.written[k].timestamp <= s.clock)
  }

  ghost predicate Inv<T>(s: System<T>) {
    && Keys(s.cache) && Mirrors(s)
    && (forall k <- s.written :: k !in s.cache.entries ==> Excused(s, k))
  }

  lemma Subset<T>(a: set<T>, b: set<T>)
    requires a <= b
    ensures |a| <= |b|
  {
    assert b == a + (b - a);
  }

  lemma StoredKeys<T>(c: Cache<T>, key: string, e: Entry<T>)
    requires Keys(c)
    ensures var d := Stored(c, key, e);
      && (forall k :: k in d.order <==> k in d.entries) && |d.entries| <= c.maxSize + 1
      && d.maxSize == c.maxSize && d.entries == c.entries[key := e]
  {
  }

  /** A write only adds keys that are not older, and never makes a last write older. */
  lemma WritesOnlyNewer<T>(written: map<string, Entry<T>>, key: string, e: Entry<T>, k: string)
    requires k in written && k != key && (forall j <- written :: written[j].timestamp <= e.timestamp)
    ensures |NotOlder(written, k)| <= |NotOlder(written[key := e], k)|
  {
    Subset(NotOlder(written, k), NotOlder(written[key := e], k));
  }

  /** Whoever is evicted leaves maxSize keys behind that are not older. */
  lemma EvictedIsOldest<T>(entries: map<string, Entry<T>>, order: seq<string>, written: map<string, Entry<T>>)
    requires order != [] && (forall k :: k in order <==> k in entries)
    requires forall k <- entries :: k in written && written[k] == entries[k]
    ensures var k := Oldest(entries, order); k in written && |NotOlder(written, k)| >= |entries| - 1
  {
    var k := Oldest(entries, order);
    Subset(entries.Keys - {k}, NotOlder(written, k));
  }

  lemma DeleteKeys<T>(c: Cache<T>, key: string)
    requires (forall k :: k in c.order <==> k in c.entries) && key in c.entries
    ensures var d := Delete(c, key);
      && (forall k :: k in d.order <==> k in d.entries) && |d.entries| == |c.entries| - 1
      && (forall k :: k in d.entries <==> k in c.entries && k != key)
      && (forall k <- d.entries :: d.entries[k] == c.entries[k])
      && d.maxSize == c.maxSize
  {
    assert (c.entries - {key}).Keys == c.entries.Keys - {key};
  }

  /** Like the invariant, except that the cache may be one entry too large. */
  ghost predicate AlmostInv<T>(s: System<T>) {
    && (forall k :: k in s.cache.order <==> k in s.cache.entries) && |s.cache.entries| <= s.cache.maxSize + 1
    && Mirrors(s)
    && (forall k <- s.written :: k !in s.cache.entries ==> Excused(s, k))
  }

  lemma StoreKeeps<T>(s: System<T>, key: string, e: Entry<T>)
    requires Inv(s) && s.clock <= e.timestamp
    ensures AlmostInv(System(Stored(s.cache, key, e), s.written[key := e], e.timestamp))
  {
    var t := System(Stored(s.cache, key, e), s.written[key := e], e.timestamp);
    StoredKeys(s.cache, key, e);
    forall k <- t.written | k !in t.cache.entries ensures Excused(t, k) {
      assert k != key && Excused(s, k);
      WritesOnlyNewer(s.written, key, e, k);
    }
    hide NotOlder, Stored;
  }

  lemma EvictionKeeps<T>(s: System<T>)
    requires AlmostInv(s) && Fits(s.cache) && s.cache.order != [] && |s.cache.entries| == s.cache.maxSize + 1
    ensures Inv(s.(cache := Evicted(s.cache))) && Evicted(s.cache).maxSize == s.cache.maxSize
  {
    EvictedIsOldest(s.cache.entries, s.cache.order, s.written);
    DeleteKeys(s.cache, Oldest(s.cache.entries, s.cache.order));
    hide NotOlder, Oldest, Remaining, Delete;
  }

  function EntryOf<T>(c: Cache<T>, e: Event<T>): Entry<T>
    requires e.Set?
  {
    Entry(e.data, e.at, if e.ttlMs.Some? then e.ttlMs.value else c.defaultTtlMs)
  }

  function WithStored<T>(s: System<T>, e: Event<T>): (d: System<T>)
    requires e.Set?
    ensures d.cache.order != [] && d.cache.maxSize == s.cache.maxSize && (Fits(s.cache) ==> Fits(d.cache))
  {
    var entry := EntryOf(s.cache, e);
    System(Stored(s.cache, e.key, entry), s.written[e.key := entry], e.at)
  }

  lemma NextSet<T>(s: System<T>, e: Event<T>)
    requires Fits(s.cache) && e.Set?
    ensures var d := WithStored(s, e);
      && (Fits(s.cache) ==> Evictable(d.cache))
      && Next(s, e) == if |d.cache.entries| <= d.cache.maxSize then d else d.(cache := Evicted(d.cache))
    ensures InTime(s, e) ==> s.clock <= EntryOf(s.cache, e).timestamp
    ensures WithStored(s, e)
      == System(Stored(s.cache, e.key, EntryOf(s.cache, e)), s.written[e.key := EntryOf(s.cache, e)],
                                       EntryOf(s.cache, e).timestamp)
  {
    hide Oldest, Remaining, Stored, Delete, Fits;
  }

  lemma {:induction false} SetKeeps<T>(s: System<T>, e: Event<T>)
    requires Inv(s) && Fits(s.cache) && s.cache.maxSize >= 0 && e.Set? && InTime(s, e)
    ensures Inv(Next(s, e)) && Next(s, e).cache.maxSize == s.cache.maxSize
  {
    hide Oldest, Remaining, Stored, Delete, Inv, AlmostInv, SetIn, WithStored, Next, EntryOf, InTime;
    var d := WithStored(s, e);
    NextSet(s, e);
    StoreKeeps(s, e.key, EntryOf(s.cache, e));
    AlmostSize(d);
    if |d.cache.entries| > d.cache.maxSize {
      EvictionKeeps(d);
    }
  }

  lemma AlmostSize<T>(s: System<T>)
    requires AlmostInv(s)
    ensures |s.cache.entries| <= s.cache.maxSize + 1
    ensures |s.cache.entries| <= s.cache.maxSize ==> Inv(s)
  {
    hide NotOlder;
  }

  lemma GetKeeps<T>(s: System<T>, e: Event<T>)
    requires Inv(s) && Fits(s.cache) && e.Get? && InTime(s, e)
    ensures Inv(Next(s, e)) && Next(s, e).cache.maxSize == s.cache.maxSize
  {
    if e.key in s.cache.entries {
      DeleteKeys(s.cache, e.key);
    }
    hide Remaining, NotOlder, Delete;
  }

  /** The invariant in every run: the cache is a part of the plain map and never larger than maxSize; a written key
      that is missing has expired, or maxSize other keys have been written since. */
  lemma {:induction false} RunKeeps<T>(s: System<T>, es: seq<Event<T>>)
    requires Inv(s) && Fits(s.cache) && s.cache.maxSize >= 0 && Legal(s, es)
    ensures Inv(After(s, es)) && After(s, es).cache.maxSize == s.cache.maxSize
    decreases |es|
  {
    if es != [] {
      if es[0].Set? {
        SetKeeps(s, es[0]);
      } else if es[0].Get? {
        GetKeeps(s, es[0]);
      }
      RunKeeps(Next(s, es[0]), es[1..]);
      hide SetIn, GetFrom;
    }
  }

  function Start<T>(maxSize: int, defaultTtlMs: int, clock: int): (s: System<T>)
    ensures Fits(s.cache)
  {
    System(Cache(maxSize, defaultTtlMs, map[], [], 0, 0, 0), map[], clock)
  }

  /** In every reachable state a hit returns the last value written, within its time to live; an unexpired written key
      misses only when maxSize other keys have a last write that is not older; and the size bound holds. */
  lemma {:induction false} LookupsAreExplained<T>(maxSize: int, defaultTtlMs: int, clock: int, es: seq<Event<T>>,
                                                  key: string, now: int)
    requires maxSize >= 0 && Legal(Start(maxSize, defaultTtlMs, clock), es)
    requires After(Start(maxSize, defaultTtlMs, clock), es).clock <= now
    ensures var s := After(Start(maxSize, defaultTtlMs, clock), es);
      && |s.cache.entries| <= maxSize
      && (Hits(s.cache, key, now) ==>
          key in s.written && s.cache.entries[key].data == s.written[key].data && !Expired(s.written[key], now))
      && (!Hits(s.cache, key, now) && key in s.written && !Expired(s.written[key], now) ==>
          |NotOlder(s.written, key)| >= maxSize)
  {
    RunKeeps(Start(maxSize, defaultTtlMs, clock), es);
  }

  // ----- the statistics ---------------------------------------------------

  /** What happened since the last clear: lookups, lookups that found an entry within its time to live, entries found
      too old, and keys written that were not in the cache. */
  datatype Tally = Tally(lookups: nat, answered: nat, expired: nat, added: nat)

  function Counted<T>(s: System<T>, t: Tally, e: Event<T>): Tally {
    var entries := s.cache.entries;
    match e
    case Set(key, _, _, _) => if key in entries then t else t.(added := t.added + 1)
    case Get(key, at) =>
      var read := t.(lookups := t.lookups + 1);
      if key !in entries then read
      else if at - entries[key].timestamp > entries[key].ttlMs then read.(expired := t.expired + 1)
      else read.(answered := t.answered + 1)
    case Clear => Tally(0, 0, 0, 0)
  }

  function TallyAfter<T>(s: System<T>, t: Tally, es: seq<Event<T>>): Tally
    requires Fits(s.cache)
    decreases |es|
  {
    if es == [] then t else TallyAfter(Next(s, es[0]), Counted(s, t, es[0]), es[1..])
  }

  /** Every lookup is a hit or a miss, and every entry added is still there, evicted or found too old. */
  ghost predicate Counts<T>(c: Cache<T>, t: Tally) {
    && c.hits == t.answered && c.misses == t.lookups - t.answered
    && t.added == |c.entries| + c.evictions + t.expired
  }

  lemma EvictedShrinks<T>(c: Cache<T>)
    requires Evictable(c)
    ensures var d := Evicted(c);
      |d.entries| == |c.entries| - 1 && d.evictions == c.evictions + 1 && d.hits == c.hits && d.misses == c.misses
  {
    var key := Oldest(c.entries, c.order);
    assert (c.entries - {key}).Keys == c.entries.Keys - {key};
    hide Oldest, Remaining;
  }

  lemma StoredSizes<T>(c: Cache<T>, key: string, e: Entry<T>)
    ensures var d := Stored(c, key, e);
      && |d.entries| == |c.entries| + (if key in c.entries then 0 else 1)
      && d.maxSize == c.maxSize && d.evictions == c.evictions && d.hits == c.hits && d.misses == c.misses
  {
    assert c.entries[key := e].Keys == c.entries.Keys + {key};
  }

  /** A write grows the cache by a new key, unless that is one too many: then one entry goes. */
  lemma SetSizes<T>(c: Cache<T>, key: string, data: T, ttlMs: Option<int>, now: int)
    requires Fits(c)
    ensures var d, n := SetIn(c, key, data, ttlMs, now), |c.entries| + (if key in c.entries then 0 else 1);
      && |d.entries| == n - (if n > c.maxSize then 1 else 0)
      && d.evictions == c.evictions + (if n > c.maxSize then 1 else 0) && d.hits == c.hits && d.misses == c.misses
  {
    var s := Stored(c, key, Entry(data, now, if ttlMs.Some? then ttlMs.value else c.defaultTtlMs));
    StoredSizes(c, key, Entry(data, now, if ttlMs.Some? then ttlMs.value else c.defaultTtlMs));
    EvictedShrinks(s);
    hide Stored, Evicted, Fits;
  }

  lemma SetCounts<T>(s: System<T>, t: Tally, e: Event<T>)
    requires Fits(s.cache) && Counts(s.cache, t) && e.Set?
    ensures Counts(Next(s, e).cache, Counted(s, t, e))
  {
    SetSizes(s.cache, e.key, e.data, e.ttlMs, e.at);
    hide SetIn, Fits;
  }

  lemma GetCounts<T>(s: System<T>, t: Tally, e: Event<T>)
    requires Fits(s.cache) && Counts(s.cache, t) && e.Get?
    ensures Counts(Next(s, e).cache, Counted(s, t, e))
  {
    var c := s.cache;
    if e.key in c.entries {
      assert (c.entries - {e.key}).Keys == c.entries.Keys - {e.key};
    }
    hide Remaining, Fits;
  }

  /** In every run the statistics are the history since the last clear. */
  lemma {:induction false} StatisticsAreHistory<T>(s: System<T>, t: Tally, es: seq<Event<T>>)
    requires Fits(s.cache) && Counts(s.cache, t)
    ensures Counts(After(s, es).cache, TallyAfter(s, t, es))
    decreases |es|
  {
    if es != [] {
      match es[0] {
        case Set(_, _, _, _) => SetCounts(s, t, es[0]);
        case Get(_, _) => GetCounts(s, t, es[0]);
        case Clear =>
      }
      StatisticsAreHistory(Next(s, es[0]), Counted(s, t, es[0]), es[1..]);
      hide Next, Counted;
    }
  }

  /** A write evicts exactly when it adds a key to a full cache, and only the key it evicts goes. */
  lemma EvictsWhenFull<T>(c: Cache<T>, key: string, data: T, ttlMs: Option<int>, now: int)
    requires Fits(c) && Keys(c) && c.maxSize >= 0
    ensures var d, full := SetIn(c, key, data, ttlMs, now), key !in c.entries && |c.entries| == c.maxSize;
      && d.evictions == c.evictions + (if full then 1 else 0)
      && |d.entries| == |c.entries| + (if key in c.entries || full then 0 else 1)
  {
    SetSizes(c, key, data, ttlMs, now);
    hide SetIn, Fits;
  }

  // ----- eviction and last use -------------------------------------------

  /** When each key was last used, that is written or read with a hit, and when it was last read with a hit since it
      was last written, if it was. */
  datatype Uses = Uses(used: map<string, int>, hit: map<string, int>)

  function UsesNext<T>(c: Cache<T>, u: Uses, e: Event<T>): Uses {
    match e
    case Set(key, _, _, at) => Uses(u.used[key := at], u.hit - {key})
    case Get(key, at) => if Hits(c, key, at) then Uses(u.used[key := at], u.hit[key := at]) else u
    case Clear => Uses(map[], map[])
  }

  function UsesAfter<T>(s: System<T>, u: Uses, es: seq<Event<T>>): Uses
    requires Fits(s.cache)
    decreases |es|
  {
    if es == [] then u else UsesAfter(Next(s, es[0]), UsesNext(s.cache, u, es[0]), es[1..])
  }

  function LastHit(u: Uses, key: string): Option<int> {
    if key in u.hit then Some(u.hit[key]) else None
  }

  /** A cached key was last used when it was last hit, or else when it was written, and no earlier than that. */
  ghost predicate UsesFit<T>(entries: map<string, Entry<T>>, u: Uses) {
    forall k <- entries ::
      && k in u.used && u.used[k] == LastHit(u, k).GetOr(entries[k].timestamp)
      && entries[k].timestamp <= u.used[k]
  }

  lemma SetUses<T>(s: System<T>, u: Uses, e: Event<T>)
    requires Fits(s.cache) && e.Set? && UsesFit(s.cache.entries, u)
    ensures UsesFit(WithStored(s, e).cache.entries, UsesNext(s.cache, u, e))
    ensures UsesFit(Next(s, e).cache.entries, UsesNext(s.cache, u, e))
  {
    hide Oldest, Remaining, Stored, WithStored, Evicted, SetIn, Next, Fits, Evictable, UsesFit;
    NextSet(s, e);
    StoredEntries(s, e);
    EvictionShrinks(WithStored(s, e).cache);
    WriteUses(s.cache, u, e);
    PartFits(Next(s, e).cache.entries, WithStored(s, e).cache.entries, UsesNext(s.cache, u, e));
  }

  lemma WriteUses<T>(c: Cache<T>, u: Uses, e: Event<T>)
    requires e.Set? && UsesFit(c.entries, u)
    ensures UsesFit(c.entries[e.key := EntryOf(c, e)], UsesNext(c, u, e))
  {
  }

  lemma PartFits<T>(a: map<string, Entry<T>>, b: map<string, Entry<T>>, u: Uses)
    requires UsesFit(b, u) && PartOf(a, b)
    ensures UsesFit(a, u)
  {
  }

  lemma ReadUses<T>(s: System<T>, u: Uses, e: Event<T>)
    requires Fits(s.cache) && e.Get? && InTime(s, e) && Mirrors(s) && UsesFit(s.cache.entries, u)
    ensures UsesFit(Next(s, e).cache.entries, UsesNext(s.cache, u, e))
  {
    hide Remaining, GetFrom, Fits;
    ReadShrinks(s.cache, e.key, e.at);
  }

  lemma NextUses<T>(s: System<T>, u: Uses, e: Event<T>)
    requires Inv(s) && Fits(s.cache) && InTime(s, e) && UsesFit(s.cache.entries, u)
    ensures UsesFit(Next(s, e).cache.entries, UsesNext(s.cache, u, e))
  {
    if e.Set? {
      SetUses(s, u, e);
    } else if e.Get? {
      ReadUses(s, u, e);
    }
    hide NotOlder, SetIn, GetFrom, UsesNext, Excused;
  }

  ghost predicate PartOf<T>(a: map<string, Entry<T>>, b: map<string, Entry<T>>) {
    forall k <- a :: k in b && a[k] == b[k]
  }

  lemma EvictionShrinks<T>(c: Cache<T>)
    ensures Evictable(c) ==> PartOf(Evicted(c).entries, c.entries)
  {
    hide Oldest, Remaining;
  }

  lemma ReadShrinks<T>(c: Cache<T>, key: string, now: int)
    ensures PartOf(GetFrom(c, key, now).entries, c.entries)
  {
    hide Remaining;
  }

  lemma StoredEntries<T>(s: System<T>, e: Event<T>)
    requires e.Set?
    ensures WithStored(s, e).cache.entries == s.cache.entries[e.key := EntryOf(s.cache, e)]
  {
  }

  lemma {:induction false} RunUses<T>(s: System<T>, u: Uses, es: seq<Event<T>>)
    requires Inv(s) && Fits(s.cache) && s.cache.maxSize >= 0 && Legal(s, es) && UsesFit(s.cache.entries, u)
    ensures UsesFit(After(s, es).cache.entries, UsesAfter(s, u, es))
    decreases |es|
  {
    if es != [] {
      if es[0].Set? {
        SetKeeps(s, es[0]);
      } else if es[0].Get? {
        GetKeeps(s, es[0]);
      }
      NextUses(s, u, es[0]);
      RunUses(Next(s, es[0]), UsesNext(s.cache, u, es[0]), es[1..]);
      hide SetIn, GetFrom, UsesNext, UsesFit;
    }
  }

  ghost predicate LeastRecentlyUsed<T>(entries: map<string, Entry<T>>, u: Uses, key: string)
    requires (forall j <- entries :: j in u.used) && key in u.used
  {
    forall j <- entries :: u.used[key] <= u.used[j]
  }

  /** Every cached key was written, or hit since its last write, no earlier than at time `t`. */
  ghost predicate AllSince<T>(entries: map<string, Entry<T>>, u: Uses, t: int) {
    forall j <- entries :: entries[j].timestamp >= t || (j in u.hit && u.hit[j] >= t)
  }

  /** In every reachable state, the key that a write evicts is a least recently used one exactly when it was not hit
      since its last write, or every other key was written or hit since that hit. */
  lemma {:induction false} EvictionIsLru<T>(maxSize: int, defaultTtlMs: int, clock: int, es: seq<Event<T>>, e: Event<T>)
    requires maxSize >= 0 && Legal(Start(maxSize, defaultTtlMs, clock), es) && e.Set?
    requires InTime(After(Start(maxSize, defaultTtlMs, clock), es), e)
    requires |WithStored(After(Start(maxSize, defaultTtlMs, clock), es), e).cache.entries| > maxSize
    ensures var start := Start(maxSize, defaultTtlMs, clock);
      var s := After(start, es);
      var c, u := WithStored(s, e).cache, UsesNext(s.cache, UsesAfter(start, Uses(map[], map[]), es), e);
      var evicted := Oldest(c.entries, c.order);
      && Next(s, e).cache.entries == c.entries - {evicted}
      && evicted in c.entries && (forall j <- c.entries :: j in u.used)
      && (LeastRecentlyUsed(c.entries, u, evicted) <==> (evicted in u.hit ==> AllSince(c.entries, u, u.hit[evicted])))
  {
    var start: System<T>, none := Start(maxSize, defaultTtlMs, clock), Uses(map[], map[]);
    var s := After(start, es);
    RunKeeps(start, es);
    RunUses(start, none, es);
    SetUses(s, UsesAfter(start, none, es), e);
    NextSet(s, e);
    WrittenKeys(s, e);
    hide *;
    VictimUsed(WithStored(s, e).cache, UsesNext(s.cache, UsesAfter(start, none, es), e));
  }

  lemma WrittenKeys<T>(s: System<T>, e: Event<T>)
    requires Inv(s) && e.Set?
    ensures var c := WithStored(s, e).cache; forall k :: k in c.order <==> k in c.entries
  {
    StoredKeys(s.cache, e.key, EntryOf(s.cache, e));
    hide Stored, NotOlder, Mirrors;
  }

  lemma VictimUsed<T>(c: Cache<T>, u: Uses)
    requires Evictable(c) && UsesFit(c.entries, u) && forall k :: k in c.order <==> k in c.entries
    ensures var evicted := Oldest(c.entries, c.order);
      && Evicted(c).entries == c.entries - {evicted} && evicted in c.entries && (forall j <- c.entries :: j in u.used)
      && (LeastRecentlyUsed(c.entries, u, evicted) <==> (evicted in u.hit ==> AllSince(c.entries, u, u.hit[evicted])))
  {
    hide Oldest, Remaining;
  }

  lemma OldestOfThree<T>(entries: map<string, Entry<T>>)
    requires entries.Keys == {"a", "b", "c"}
    requires entries["a"].timestamp < entries["b"].timestamp < entries["c"].timestamp
    ensures forall k :: k in ["a", "b", "c"] ==> k in entries
    ensures Oldest(entries, ["a", "b", "c"]) == "a"
  {
    assert entries["a"].timestamp <= entries[Oldest(entries, ["a", "b", "c"])].timestamp;
  }

  lemma OneStep<T>(s: System<T>, e: Event<T>, es: seq<Event<T>>)
    requires Fits(s.cache)
    ensures Legal(s, [e] + es) <==> InTime(s, e) && Legal(Next(s, e), es)
    ensures After(s, [e] + es) == After(Next(s, e), es)
    ensures After(s, []) == s && Legal(s, [])
  {
    assert ([e] + es)[1..] == es;
    hide Next;
  }

  /** "a" and "b" are written and "a" is read. */
  lemma TwoWritten()
    returns (s: System<int>)
    ensures var es := [Set("a", 0, None, 1)] + ([Set("b", 0, None, 2)] + ([Get("a", 3)] + []));
      Legal(Start<int>(2, 10, 0), es) && s == After(Start<int>(2, 10, 0), es)
    ensures s.cache.order == ["a", "b"] && s.cache.entries == map["a" := Entry(0, 1, 10), "b" := Entry(0, 2, 10)]
    ensures s.cache.maxSize == 2 && s.cache.defaultTtlMs == 10 && s.cache.hits == 1 && s.clock == 3
  {
    var s0 := Start<int>(2, 10, 0);
    var a, b := Entry(0, 1, 10), Entry(0, 2, 10);
    var s1 := System(Cache(2, 10, map["a" := a], ["a"], 0, 0, 0), map["a" := a], 1);
    var s2 := System(Cache(2, 10, map["a" := a, "b" := b], ["a", "b"], 0, 0, 0), map["a" := a, "b" := b], 2);
    s := System(s2.cache.(hits := 1), s2.written, 3);
    assert Next(s0, Set("a", 0, None, 1)) == s1;
    assert Next(s1, Set("b", 0, None, 2)) == s2;
    assert Next(s2, Get("a", 3)) == s;
    hide Next, Oldest, Remaining;
    OneStep(s2, Get("a", 3), []);
    OneStep(s1, Set("b", 0, None, 2), [Get("a", 3)] + []);
    OneStep(s0, Set("a", 0, None, 1), [Set("b", 0, None, 2)] + ([Get("a", 3)] + []));
    OneStep(s, Clear, []);
    hide After, Legal;
  }

  /** A cache of two keys evicts the one that was just read: after the run a write of "c" removes "a". */
  lemma RecentlyUsedMayGo()
    ensures var es := [Set("a", 0, None, 1), Set("b", 0, None, 2), Get("a", 3)];
      Legal(Start<int>(2, 10, 0), es)
      && var s := After(Start<int>(2, 10, 0), es);
         s.cache.hits == 1 && Next(s, Set("c", 0, None, 4)).cache.entries.Keys == {"b", "c"}
  {
    var s := TwoWritten();
    assert [Set("a", 0, None, 1), Set("b", 0, None, 2), Get("a", 3)]
        == [Set("a", 0, None, 1)] + ([Set("b", 0, None, 2)] + ([Get("a", 3)] + []));
    hide *;
    ThirdWritten(s);
  }

  lemma ThirdWritten(s: System<int>)
    requires s.cache.order == ["a", "b"] && s.cache.entries == map["a" := Entry(0, 1, 10), "b" := Entry(0, 2, 10)]
    requires s.cache.maxSize == 2 && s.cache.defaultTtlMs == 10 && Fits(s.cache)
    ensures Next(s, Set("c", 0, None, 4)).cache.entries.Keys == {"b", "c"}
  {
    hide Oldest, Remaining, Evicted, Next, SetIn;
    var e := Set("c", 0, None, 4);
    var d := WithStored(s, e).cache;
    assert d.order == ["a", "b", "c"] && d.entries.Keys == {"a", "b", "c"} && d.maxSize == 2;
    OldestOfThree(d.entries);
    NextSet(s, e);
    hide *;
    EvictedKeys(d);
  }

  lemma EvictedKeys<T>(c: Cache<T>)
    requires Evictable(c)
    ensures Evicted(c).entries.Keys == c.entries.Keys - {Oldest(c.entries, c.order)}
  {
    hide Oldest, Remaining;
  }
}
