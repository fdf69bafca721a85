/**
 The in-memory TTL cache: an insertion-ordered map with absolute expiry, a
 sweep of expired entries and a trim of the oldest ones, behind a read path
 that re-validates every hit.

 `After` gives the contents after one operation; the class computes it in
 place; the theorems compare any run of operations with a plain last-write map.
 */
module TtlCache {
  import opened Common
  import opened OrderedMaps

  datatype Expiry = Never | At(time: real)

  datatype Entry<V> = Entry(value: V, expiresAt: Expiry)

  predicate Expired<V>(e: Entry<V>, now: real) {
    e.expiresAt.At? && e.expiresAt.time <= now
  }

  type Contents<K, V> = OrderedMap<K, Entry<V>>

  /** `maxEntries` zero means unbounded. */
  datatype Config<!V> = Config(defaultTtlMs: Option<real>, maxEntries: nat, valid: V -> bool)

  // ---------------------------------------------------------------------
  // One operation
  // ---------------------------------------------------------------------

  function Without<K(==), V>(m: Contents<K, V>, key: K): Contents<K, V> {
    Filter(m, (e: (K, Entry<V>)) => e.0 != key)
  }

  function Swept<K, V>(m: Contents<K, V>, now: real): Contents<K, V> {
    Filter(m, (e: (K, Entry<V>)) => !Expired(e.1, now))
  }

  function Trimmed<K, V>(m: Contents<K, V>, maxEntries: nat): Contents<K, V> {
    if maxEntries == 0 || |m| <= maxEntries then m else m[|m| - maxEntries..]
  }

  /** Time to live of a write: the call's own or the default. */
  function TtlOf<V>(cfg: Config<V>, ttl: Option<real>): Option<real> {
    if ttl.Some? then ttl else cfg.defaultTtlMs
  }

  /** A write with a non-positive time to live throws and changes nothing. */
  predicate Accepted<V>(cfg: Config<V>, ttl: Option<real>) {
    TtlOf(cfg, ttl).Some? ==> TtlOf(cfg, ttl).value > 0.0
  }

  function EntryFor<V>(cfg: Config<V>, value: V, ttl: Option<real>, now: real): Entry<V> {
    Entry(value, if TtlOf(cfg, ttl).Some? then At(now + TtlOf(cfg, ttl).value) else Never)
  }

  function Bounded<K, V>(cfg: Config<V>, m: Contents<K, V>, now: real): Contents<K, V> {
    if cfg.maxEntries > 0 && |m| > cfg.maxEntries then Trimmed(Swept(m, now), cfg.maxEntries) else m
  }

  function AfterSet<K(==), V>(cfg: Config<V>, m: Contents<K, V>, key: K, e: Entry<V>, now: real): Contents<K, V> {
    Bounded(cfg, Without(m, key) + [(key, e)], now)
  }

  /** What a validated read answers. */
  function Answer<K(==), V>(cfg: Config<V>, m: Contents<K, V>, key: K, now: real): Option<V> {
    var e := Lookup(m, key);
    if e.None? || Expired(e.value, now) || !cfg.valid(e.value.value) then None else Some(e.value.value)
  }

  /** A read drops an expired or invalid entry. */
  function AfterGet<K(==), V>(cfg: Config<V>, m: Contents<K, V>, key: K, now: real): Contents<K, V> {
    if Has(m, key) && Answer(cfg, m, key, now).None? then Without(m, key) else m
  }

  /** Keys are distinct and the bound, if any, is kept. */
  ghost predicate WellFormed<K, V>(cfg: Config<V>, m: Contents<K, V>) {
    Distinct(m) && (cfg.maxEntries > 0 ==> |m| <= cfg.maxEntries)
  }

  lemma {:induction false} FilterShorter<T>(s: seq<T>, p: T -> bool)
    ensures |Filter(s, p)| <= |s|
  {
    if s != [] { FilterShorter(s[..|s| - 1], p); }
  }

  lemma FilterDistinct<K(!new), V(!new)>(m: Contents<K, V>, p: ((K, Entry<V>)) -> bool)
    requires Distinct(m)
    ensures Distinct(Filter(m, p))
  {
    FilterPairwise(m, p, (a: (K, Entry<V>), b: (K, Entry<V>)) => a.0 != b.0);
  }

  lemma WithoutKeeps<K(!new), V(!new)>(cfg: Config<V>, m: Contents<K, V>, key: K)
    requires WellFormed(cfg, m)
    ensures WellFormed(cfg, Without(m, key))
    ensures forall e :: e in Without(m, key) <==> e in m && e.0 != key
    ensures !Has(Without(m, key), key)
  {
    var p := (e: (K, Entry<V>)) => e.0 != key;
    FilterShorter(m, p);
    FilterDistinct(m, p);
    forall e ensures e in Without(m, key) <==> e in m && e.0 != key {
      FilterMember(m, p, e);
    }
    forall i | 0 <= i < |Without(m, key)| ensures Without(m, key)[i].0 != key {
      assert Without(m, key)[i] in Without(m, key);
    }
  }

  /** Every write leaves the cache within its bound and with distinct keys. */
  lemma AfterSetKeeps<K(!new), V(!new)>(cfg: Config<V>, m: Contents<K, V>, key: K, e: Entry<V>, now: real)
    requires WellFormed(cfg, m)
    ensures WellFormed(cfg, AfterSet(cfg, m, key, e, now))
  {
    WithoutKeeps(cfg, m, key);
    var longer := Without(m, key) + [(key, e)];
    forall i | 0 <= i < |Without(m, key)| ensures longer[i].0 != key {
      assert longer[i] == Without(m, key)[i];
    }
    FilterDistinct(longer, (e: (K, Entry<V>)) => !Expired(e.1, now));
    FilterShorter(longer, (e: (K, Entry<V>)) => !Expired(e.1, now));
  }

  /** What a write stores is answered until it expires, if it is valid. */
  lemma SetThenGet<K(!new), V(!new)>(cfg: Config<V>, m: Contents<K, V>, key: K, value: V, ttl: Option<real>, now: real, sweep: real, later: real)
    requires cfg.valid(value)
    requires ttl.Some? ==> sweep < now + ttl.value && later < now + ttl.value
    requires ttl.None? && cfg.defaultTtlMs.Some? ==> sweep < now + cfg.defaultTtlMs.value && later < now + cfg.defaultTtlMs.value
    ensures Answer(cfg, AfterSet(cfg, m, key, EntryFor(cfg, value, ttl, now), sweep), key, later) == Some(value)
  {
    var e := (key, EntryFor(cfg, value, ttl, now));
    var longer := Without(m, key) + [e];
    assert longer[|longer| - 1] == e;
    var swept := Swept(longer, sweep);
    assert swept[|swept| - 1] == e;
    var kept := Bounded(cfg, longer, sweep);
    assert kept[|kept| - 1] == e;
  }

  lemma FilterLess<T>(s: seq<T>, p: T -> bool)
    ensures forall x :: x in Filter(s, p) ==> x in s
  {
    forall x ensures x in Filter(s, p) ==> x in s { FilterMember(s, p, x); }
  }

  /** A read keeps only what was there. */
  lemma GetKeeps<K(!new), V(!new)>(cfg: Config<V>, m: Contents<K, V>, key: K, now: real)
    ensures forall e :: e in AfterGet(cfg, m, key, now) ==> e in m
  {
    FilterLess(m, (e: (K, Entry<V>)) => e.0 != key);
  }

  /** A write keeps only what was there and its own entry. */
  lemma SetAddsOne<K(!new), V(!new)>(cfg: Config<V>, m: Contents<K, V>, key: K, e: Entry<V>, now: real)
    ensures forall x :: x in AfterSet(cfg, m, key, e, now) ==> x in m || x == (key, e)
  {
    var longer := Without(m, key) + [(key, e)];
    FilterLess(m, (x: (K, Entry<V>)) => x.0 != key);
    FilterLess(longer, (x: (K, Entry<V>)) => !Expired(x.1, now));
    assert forall x :: x in Trimmed(Swept(longer, now), cfg.maxEntries) ==> x in Swept(longer, now);
    assert forall x :: x in longer ==> x in Without(m, key) || x == (key, e);
  }

  // ---------------------------------------------------------------------
  // The class
  // ---------------------------------------------------------------------

  lemma {:induction false} DropAt<T>(s: seq<T>, p: T -> bool, i: nat)
    requires i < |s| && !p(s[i])
    ensures Filter(s, p) == Filter(s[..i] + s[i + 1..], p)
  {
    var n := |s| - 1;
    if i == n {
      assert s[..i] + s[i + 1..] == s[..n];
    } else {
      DropAt(s[..n], p, i);
      var short := s[..i] + s[i + 1..];
      assert short[..|short| - 1] == s[..n][..i] + s[..n][i + 1..];
      assert short[|short| - 1] == s[n];
    }
  }

  class InMemoryCache<K(==,!new), V(!new)> {
    const cfg: Config<V>
    var entries: Contents<K, V>

    ghost predicate Valid()
      reads this
    {
      WellFormed(cfg, entries)
    }

    constructor (cfg: Config<V>)
      ensures this.cfg == cfg && entries == []
    {
      this.cfg := cfg;
      entries := [];
    }

    /** The factory: None when the options are rejected. */
    static method Create(cfg: Config<V>) returns (cache: InMemoryCache?<K, V>)
      ensures cache != null <==> (cfg.defaultTtlMs.Some? ==> cfg.defaultTtlMs.value > 0.0)
      ensures cache != null ==> fresh(cache) && cache.cfg == cfg && cache.entries == [] && cache.Valid()
    {
      if cfg.defaultTtlMs.Some? && cfg.defaultTtlMs.value <= 0.0 {
        return null;
      }
      cache := new InMemoryCache<K, V>(cfg);
    }

    method RawGet(key: K, now: real) returns (raw: Option<V>)
      modifies this
      ensures var e := Lookup(old(entries), key);
              && raw == (if e.None? || Expired(e.value, now) then None else Some(e.value.value))
              && entries == (if e.Some? && Expired(e.value, now) then Without(old(entries), key) else old(entries))
      ensures old(Valid()) ==> Valid()
    {
      var entry := Lookup(entries, key);
      if entry.None? { return None; }
      if Expired(entry.value, now) {
        Delete(key);
        return None;
      }
      raw := Some(entry.value.value);
    }

    method Get(key: K, now: real) returns (answer: Option<V>)
      requires Valid()
      modifies this
      ensures Valid()
      ensures answer == Answer(cfg, old(entries), key, now)
      ensures entries == AfterGet(cfg, old(entries), key, now)
    {
      var raw := RawGet(key, now);
      if raw.None? { return None; }
      if !cfg.valid(raw.value) {
        Delete(key);
        return None;
      }
      answer := raw;
    }

    method Set(key: K, value: V, ttlMs: Option<real>, now: real, sweepNow: real) returns (ok: bool)
      requires Valid()
      modifies this
      ensures Valid()
      ensures ok == Accepted(cfg, ttlMs)
      ensures entries == if ok then AfterSet(cfg, old(entries), key, EntryFor(cfg, value, ttlMs, now), sweepNow) else old(entries)
    {
      var ttl := if ttlMs.Some? then ttlMs else cfg.defaultTtlMs;
      if ttl.Some? && ttl.value <= 0.0 { return false; }
      AfterSetKeeps(cfg, entries, key, EntryFor(cfg, value, ttlMs, now), sweepNow);
      var expiresAt := if ttl.None? then Never else At(now + ttl.value);
      Delete(key);
      entries := entries + [(key, Entry(value, expiresAt))];
      if cfg.maxEntries > 0 && |entries| > cfg.maxEntries {
        SweepExpired(sweepNow);
        TrimToBound();
      }
      ok := true;
    }

    method Delete(key: K)
      modifies this
      ensures entries == Without(old(entries), key)
      ensures old(Valid()) ==> Valid()
    {
      if WellFormed(cfg, entries) { WithoutKeeps(cfg, entries, key); }
      entries := Without(entries, key);
    }

    method SweepExpired(now: real)
      modifies this
      ensures entries == Swept(old(entries), now)
    {
      var i := 0;
      while i < |entries|
        invariant 0 <= i <= |entries|
        invariant Swept(entries, now) == Swept(old(entries), now)
        invariant forall k :: 0 <= k < i ==> !Expired(entries[k].1, now)
        decreases |entries| - i
      {
        if Expired(entries[i].1, now) {
          DropAt(entries, (e: (K, Entry<V>)) => !Expired(e.1, now), i);
          entries := entries[..i] + entries[i + 1..];
        } else {
          i := i + 1;
        }
      }
      FilterAll(entries, (e: (K, Entry<V>)) => !Expired(e.1, now));
    }

    method TrimToBound()
      modifies this
      ensures entries == Trimmed(old(entries), cfg.maxEntries)
    {
      if cfg.maxEntries == 0 || |entries| <= cfg.maxEntries { return; }
      var overflow := |entries| - cfg.maxEntries;
      var removed := 0;
      while removed < overflow
        invariant 0 <= removed <= overflow
        invariant overflow == |old(entries)| - cfg.maxEntries
        invariant entries == old(entries)[removed..]
      {
        entries := entries[1..];
        removed := removed + 1;
      }
    }
  }
}
