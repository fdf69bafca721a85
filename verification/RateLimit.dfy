/**
 The fixed-window rate limiter over the in-memory store: an atomic
 check-and-increment per key with lazy sweeping of closed windows.
 */
module RateLimit {
  import opened Common

  /** `resetUnixSeconds` is where the window ends, exclusive. */
  datatype State = State(count: nat, resetUnixSeconds: int)

  datatype Decision = Decision(allowed: bool, count: nat, resetUnixSeconds: int)

  datatype Limits = Limits(limit: nat, windowSeconds: real) {
    predicate Valid() {
      limit > 0 && windowSeconds > 0.0
    }

    /** Whole seconds a window lasts. */
    function Width(): int {
      Ceil(windowSeconds)
    }
  }

  function Ceil(x: real): int {
    -((-x).Floor)
  }

  lemma CeilShift(n: int, x: real)
    ensures Ceil(n as real + x) == n + Ceil(x)
  {}

  /** The decision on one request at second `now`, and the state to store, if any. */
  function Consume(prev: Option<State>, cfg: Limits, now: int): (Decision, Option<State>) {
    if prev.None? || prev.value.resetUnixSeconds <= now then
      var reset := Ceil(now as real + cfg.windowSeconds);
      (Decision(true, 1, reset), Some(State(1, reset)))
    else if prev.value.count >= cfg.limit then
      (Decision(false, prev.value.count, prev.value.resetUnixSeconds), None)
    else
      (Decision(true, prev.value.count + 1, prev.value.resetUnixSeconds),
       Some(State(prev.value.count + 1, prev.value.resetUnixSeconds)))
  }

  function Next(prev: Option<State>, cfg: Limits, now: int): Option<State> {
    var write := Consume(prev, cfg, now).1;
    if write.Some? then write else prev
  }

  // ---------------------------------------------------------------------
  // The store
  // ---------------------------------------------------------------------

  const SWEEP_PERIOD: nat := 256

  datatype Store<!K> = Store(entries: map<K, State>, writes: nat) {
    function Get(key: K): Option<State> {
      if key in entries then Some(entries[key]) else None
    }

    function Counted(now: int): Store<K> {
      if (writes + 1) % SWEEP_PERIOD == 0 then Store(SweptEntries(entries, now), writes + 1) else Store(entries, writes + 1)
    }

    function Written(key: K, state: State, now: int): Store<K> {
      Store(entries[key := state], writes).Counted(now)
    }

    function Consumed(key: K, cfg: Limits, now: int): Store<K> {
      var write := Consume(Get(key), cfg, now).1;
      if write.Some? then Written(key, write.value, now) else this
    }
  }

  /** Windows that are still open. */
  function SweptEntries<K>(entries: map<K, State>, now: int): map<K, State> {
    map k | k in entries && entries[k].resetUnixSeconds > now :: entries[k]
  }

  /** A write stores the state, and every 256th one then drops exactly the windows that
      have closed. */
  lemma WriteSweeps<K>(store: Store<K>, key: K, state: State, now: int)
    ensures var after, longer := store.Written(key, state, now), store.entries[key := state];
            && after.writes == store.writes + 1
            && (after.writes % 256 != 0 ==> after.entries == longer)
            && (after.writes % 256 == 0 ==>
                  forall k :: (k in after.entries <==> k in longer && longer[k].resetUnixSeconds > now) &&
                              (k in after.entries ==> after.entries[k] == longer[k]))
  {}

  /** An atomic check-and-increment writes exactly when it admits, and touches no other key. */
  lemma ConsumeWrites<K>(store: Store<K>, cfg: Limits, key: K, now: int)
    ensures var prev, after := store.Get(key), store.Consumed(key, cfg, now);
            var d := Consume(prev, cfg, now).0;
            if d.allowed then after == store.Written(key, State(d.count, d.resetUnixSeconds), now) else after == store
  {}

  class InMemoryStore<K(==)> {
    var entries: map<K, State>
    var writes: nat

    function View(): Store<K>
      reads this
    {
      Store(entries, writes)
    }

    constructor ()
      ensures View() == Store(map[], 0)
    {
      entries, writes := map[], 0;
    }

    method Sweep(now: int)
      modifies `entries
      ensures entries == SweptEntries(old(entries), now)
    {
      var keys := entries.Keys;
      while keys != {}
        invariant keys <= old(entries).Keys
        invariant entries == map k | k in old(entries) && (k in keys || old(entries)[k].resetUnixSeconds > now) :: old(entries)[k]
        decreases keys
      {
        var key :| key in keys;
        keys := keys - {key};
        if entries[key].resetUnixSeconds <= now {
          entries := entries - {key};
        }
      }
    }

    method CountWrite(now: int)
      modifies this
      ensures View() == old(View()).Counted(now)
    {
      writes := writes + 1;
      if writes % SWEEP_PERIOD == 0 {
        Sweep(now);
      }
    }

    method Read(key: K, now: int) returns (entry: Option<State>)
      modifies `entries
      ensures var before := old(View()).Get(key);
              if before.Some? && before.value.resetUnixSeconds > now then
                entry == before && entries == old(entries)
              else
                entry == None && entries == old(entries) - {key}
    {
      if key !in entries {
        assert entries - {key} == entries;
        return None;
      }
      if entries[key].resetUnixSeconds <= now {
        entries := entries - {key};
        return None;
      }
      entry := Some(entries[key]);
    }

    method Write(key: K, state: State, now: int)
      modifies this
      ensures View() == old(View()).Written(key, state, now)
    {
      entries := entries[key := state];
      CountWrite(now);
    }

    method ConsumeKey(key: K, cfg: Limits, now: int) returns (decision: Decision)
      modifies this
      ensures decision == Consume(old(View()).Get(key), cfg, now).0
      ensures View() == old(View()).Consumed(key, cfg, now)
    {
      var previous := if key in entries then Some(entries[key]) else None;
      if previous.None? || previous.value.resetUnixSeconds <= now {
        var state := State(1, Ceil(now as real + cfg.windowSeconds));
        entries := entries[key := state];
        CountWrite(now);
        return Decision(true, state.count, state.resetUnixSeconds);
      }
      if previous.value.count >= cfg.limit {
        return Decision(false, previous.value.count, previous.value.resetUnixSeconds);
      }
      var state := State(previous.value.count + 1, previous.value.resetUnixSeconds);
      entries := entries[key := state];
      CountWrite(now);
      decision := Decision(true, state.count, state.resetUnixSeconds);
    }
  }

  // ---------------------------------------------------------------------
  // Runs of one key
  // ---------------------------------------------------------------------

  /** A clock that never runs backwards. */
  ghost predicate Ordered(times: seq<int>) {
    forall i, j :: 0 <= i < j < |times| ==> times[i] <= times[j]
  }

  /** The decisions on requests for one key. */
  function KeyRun(prev: Option<State>, cfg: Limits, times: seq<int>): (ds: seq<Decision>)
    ensures |ds| == |times|
    decreases |times|
  {
    if times == [] then []
    else [Consume(prev, cfg, times[0]).0] + KeyRun(Next(prev, cfg, times[0]), cfg, times[1..])
  }

  /** Requests admitted at seconds lo..hi. */
  function AdmittedWithin(times: seq<int>, ds: seq<Decision>, lo: int, hi: int): nat
    requires |times| == |ds|
  {
    if times == [] then 0
    else (if ds[0].allowed && lo <= times[0] <= hi then 1 else 0) + AdmittedWithin(times[1..], ds[1..], lo, hi)
  }

  /** Requests made at seconds lo..hi. */
  function MadeWithin(times: seq<int>, lo: int, hi: int): nat {
    if times == [] then 0
    else (if lo <= times[0] <= hi then 1 else 0) + MadeWithin(times[1..], lo, hi)
  }

  function Admissions(prev: Option<State>, cfg: Limits, times: seq<int>, lo: int, hi: int): nat {
    AdmittedWithin(times, KeyRun(prev, cfg, times), lo, hi)
  }

  lemma AdmissionsStep(prev: Option<State>, cfg: Limits, times: seq<int>, lo: int, hi: int)
    requires times != []
    ensures Admissions(prev, cfg, times, lo, hi) ==
            (if Consume(prev, cfg, times[0]).0.allowed && lo <= times[0] <= hi then 1 else 0) +
            Admissions(Next(prev, cfg, times[0]), cfg, times[1..], lo, hi)
  {}

  lemma {:induction false} NoneAfter(prev: Option<State>, cfg: Limits, times: seq<int>, lo: int, hi: int)
    requires Ordered(times) && (times != [] ==> times[0] > hi)
    ensures Admissions(prev, cfg, times, lo, hi) == 0 && MadeWithin(times, lo, hi) == 0
    decreases |times|
  {
    if times != [] {
      AdmissionsStep(prev, cfg, times, lo, hi);
      NoneAfter(Next(prev, cfg, times[0]), cfg, times[1..], lo, hi);
    }
  }

  /** Inside an open window exactly the remaining budget is admitted. */
  lemma {:induction false} OpenWindowAdmits(prev: Option<State>, cfg: Limits, times: seq<int>, lo: int, hi: int)
    requires cfg.Valid() && Ordered(times)
    requires prev.Some? && hi < prev.value.resetUnixSeconds
    requires forall i :: 0 <= i < |times| ==> lo <= times[i]
    ensures Admissions(prev, cfg, times, lo, hi) ==
            Min(MadeWithin(times, lo, hi), Max(0, cfg.limit - prev.value.count))
    decreases |times|
  {
    if times != [] {
      if times[0] > hi {
        NoneAfter(prev, cfg, times, lo, hi);
      } else {
        AdmissionsStep(prev, cfg, times, lo, hi);
        OpenWindowAdmits(Next(prev, cfg, times[0]), cfg, times[1..], lo, hi);
      }
    }
  }

  /** `hi` is the last whole second before `windowSeconds` have passed since `lo`. */
  ghost predicate LastSecond(cfg: Limits, lo: int, hi: int) {
    (hi - lo) as real < cfg.windowSeconds <= (hi - lo + 1) as real
  }

  lemma LastSecondIs(cfg: Limits, lo: int, hi: int)
    requires LastSecond(cfg, lo, hi)
    ensures hi == lo + cfg.Width() - 1
  {}

  /** A new window admits its first `limit` requests and no others. */
  lemma WindowAdmitsLimit(prev: Option<State>, cfg: Limits, times: seq<int>, hi: int)
    requires cfg.limit > 0 && cfg.windowSeconds > 0.0 && Ordered(times) && times != []
    requires prev.None? || prev.value.resetUnixSeconds <= times[0]
    requires LastSecond(cfg, times[0], hi)
    ensures Admissions(prev, cfg, times, times[0], hi) == Min(MadeWithin(times, times[0], hi), cfg.limit)
  {
    var lo := times[0];
    LastSecondIs(cfg, lo, hi);
    CeilShift(lo, cfg.windowSeconds);
    AdmissionsStep(prev, cfg, times, lo, hi);
    OpenWindowAdmits(Next(prev, cfg, lo), cfg, times[1..], lo, hi);
  }

  /** With an open window that ends at r, at most the rest of its budget and one
      more window fit before r + width. */
  lemma {:induction false} TwoWindows(prev: Option<State>, cfg: Limits, times: seq<int>, lo: int, hi: int)
    requires cfg.Valid() && Ordered(times)
    requires prev.Some? && hi < prev.value.resetUnixSeconds + cfg.Width()
    requires forall i :: 0 <= i < |times| ==> lo <= times[i]
    ensures Admissions(prev, cfg, times, lo, hi) <= cfg.limit + Max(0, cfg.limit - prev.value.count)
    decreases |times|
  {
    if times != [] {
      if times[0] > hi {
        NoneAfter(prev, cfg, times, lo, hi);
      } else {
        AdmissionsStep(prev, cfg, times, lo, hi);
        if prev.value.resetUnixSeconds <= times[0] {
          CeilShift(times[0], cfg.windowSeconds);
          OpenWindowAdmits(Next(prev, cfg, times[0]), cfg, times[1..], lo, hi);
        } else {
          TwoWindows(Next(prev, cfg, times[0]), cfg, times[1..], lo, hi);
        }
      }
    }
  }

  lemma {:induction false} InWideSpan(prev: Option<State>, cfg: Limits, times: seq<int>, a: int)
    requires cfg.Valid() && Ordered(times)
    ensures Admissions(prev, cfg, times, a, a + cfg.Width()) <= 2 * cfg.limit
    decreases |times|
  {
    if times != [] {
      var hi := a + cfg.Width();
      AdmissionsStep(prev, cfg, times, a, hi);
      CeilShift(times[0], cfg.windowSeconds);
      WidthPositive(cfg);
      if times[0] < a {
        InWideSpan(Next(prev, cfg, times[0]), cfg, times[1..], a);
      } else if prev.Some? && prev.value.resetUnixSeconds > times[0] {
        TwoWindows(prev, cfg, times, a, hi);
      } else {
        TwoWindows(Next(prev, cfg, times[0]), cfg, times[1..], a, hi);
      }
    }
  }

  lemma {:induction false} InSharpSpan(prev: Option<State>, cfg: Limits, times: seq<int>, a: int)
    requires cfg.Valid() && Ordered(times)
    requires prev.Some? ==> prev.value.count >= 1
    ensures Admissions(prev, cfg, times, a, a + cfg.Width() - 1) <= 2 * cfg.limit - 1
    decreases |times|
  {
    if times != [] {
      var hi := a + cfg.Width() - 1;
      AdmissionsStep(prev, cfg, times, a, hi);
      CeilShift(times[0], cfg.windowSeconds);
      if times[0] < a {
        InSharpSpan(Next(prev, cfg, times[0]), cfg, times[1..], a);
      } else if prev.Some? && prev.value.resetUnixSeconds > times[0] {
        TwoWindows(prev, cfg, times, a, hi);
      } else {
        OpenWindowAdmits(Next(prev, cfg, times[0]), cfg, times[1..], a, hi);
      }
    }
  }

  /** At most 2 * limit requests are admitted in any span of windowSeconds, rounded
      up to whole seconds, for any earlier history. */
  lemma SpanBound(prev: Option<State>, cfg: Limits, times: seq<int>, a: int, hi: int)
    requires cfg.limit > 0 && cfg.windowSeconds > 0.0 && Ordered(times)
    requires LastSecond(cfg, a, hi - 1)
    ensures Admissions(prev, cfg, times, a, hi) <= 2 * cfg.limit
  {
    LastSecondIs(cfg, a, hi - 1);
    InWideSpan(prev, cfg, times, a);
  }

  /** In windowSeconds consecutive seconds the bound is one less: the request that
      opens a window starts it. */
  lemma SharpSpanBound(prev: Option<State>, cfg: Limits, times: seq<int>, a: int, hi: int)
    requires cfg.limit > 0 && cfg.windowSeconds > 0.0 && Ordered(times)
    requires prev.Some? ==> prev.value.count >= 1
    requires LastSecond(cfg, a, hi)
    ensures Admissions(prev, cfg, times, a, hi) <= 2 * cfg.limit - 1
  {
    LastSecondIs(cfg, a, hi);
    InSharpSpan(prev, cfg, times, a);
  }

  /** The sharp bound is attained: three admissions in ten seconds for two per ten. */
  lemma SharpBoundAttained()
    ensures var cfg, times := Limits(2, 10.0), [0, 9, 10, 10];
            Ordered(times) && LastSecond(cfg, 9, 18) && Admissions(None, cfg, times, 9, 18) == 3
  {}

  lemma WidthPositive(cfg: Limits)
    requires cfg.Valid()
    ensures cfg.Width() >= 1
  {}

  // ---------------------------------------------------------------------
  // Runs of the whole store
  // ---------------------------------------------------------------------

  datatype Hit<K> = Hit(key: K, now: int)

  function StoreRun<K(==)>(store: Store<K>, cfg: Limits, hits: seq<Hit<K>>): (ds: seq<Decision>)
    ensures |ds| == |hits|
    decreases |hits|
  {
    if hits == [] then []
    else [Consume(store.Get(hits[0].key), cfg, hits[0].now).0] + StoreRun(store.Consumed(hits[0].key, cfg, hits[0].now), cfg, hits[1..])
  }

  function TimesOf<K(==)>(hits: seq<Hit<K>>, key: K): seq<int> {
    if hits == [] then []
    else (if hits[0].key == key then [hits[0].now] else []) + TimesOf(hits[1..], key)
  }

  function DecisionsOf<K(==)>(hits: seq<Hit<K>>, ds: seq<Decision>, key: K): seq<Decision>
    requires |hits| == |ds|
  {
    if hits == [] then []
    else (if hits[0].key == key then [ds[0]] else []) + DecisionsOf(hits[1..], ds[1..], key)
  }

  ghost predicate OrderedHits<K>(hits: seq<Hit<K>>) {
    forall i, j :: 0 <= i < j < |hits| ==> hits[i].now <= hits[j].now
  }

  /** The part of a state that can still matter at `now`. */
  function Live(s: Option<State>, now: int): Option<State> {
    if s.Some? && s.value.resetUnixSeconds > now then s else None
  }

  lemma OnlyLiveMatters(s: Option<State>, t: Option<State>, cfg: Limits, times: seq<int>, now: int)
    requires Live(s, now) == Live(t, now)
    requires forall i :: 0 <= i < |times| ==> now <= times[i]
    requires Ordered(times)
    ensures KeyRun(s, cfg, times) == KeyRun(t, cfg, times)
    decreases |times|
  {}

  /** One request touches only its own key, up to closed windows. */
  lemma ConsumedLeavesLive<K>(store: Store<K>, cfg: Limits, hit: Hit<K>, key: K)
    requires cfg.Valid()
    ensures var after := store.Consumed(hit.key, cfg, hit.now);
            Live(after.Get(key), hit.now) ==
            Live(if key == hit.key then Next(store.Get(key), cfg, hit.now) else store.Get(key), hit.now)
  {}

  lemma {:induction false} TimesFollow<K>(hits: seq<Hit<K>>, key: K)
    requires OrderedHits(hits)
    ensures Ordered(TimesOf(hits, key))
    ensures hits != [] ==> forall i :: 0 <= i < |TimesOf(hits, key)| ==> hits[0].now <= TimesOf(hits, key)[i]
  {
    if hits != [] {
      TimesFollow(hits[1..], key);
      var rest := TimesOf(hits[1..], key);
      if |hits| > 1 {
        assert forall i :: 0 <= i < |rest| ==> hits[1].now <= rest[i];
      } else {
        assert rest == [];
      }
    }
  }

  lemma RunStep<K>(store: Store<K>, cfg: Limits, hits: seq<Hit<K>>, key: K)
    requires hits != []
    ensures var after := store.Consumed(hits[0].key, cfg, hits[0].now);
            var rest := DecisionsOf(hits[1..], StoreRun(after, cfg, hits[1..]), key);
            DecisionsOf(hits, StoreRun(store, cfg, hits), key) ==
            if hits[0].key == key then [Consume(store.Get(key), cfg, hits[0].now).0] + rest else rest
    ensures TimesOf(hits, key) == if hits[0].key == key then [hits[0].now] + TimesOf(hits[1..], key) else TimesOf(hits[1..], key)
  {}

  /** Keys are isolated and sweeping never shows: in any run of the store, with
      whatever interleaving of keys, the decisions of each key are those of a
      single-key run. */
  lemma {:induction false} KeysAreIsolated<K>(store: Store<K>, cfg: Limits, hits: seq<Hit<K>>, key: K)
    requires cfg.limit > 0 && cfg.windowSeconds > 0.0 && OrderedHits(hits)
    ensures DecisionsOf(hits, StoreRun(store, cfg, hits), key) == KeyRun(store.Get(key), cfg, TimesOf(hits, key))
    decreases |hits|
  {
    hide KeyRun, StoreRun, DecisionsOf, TimesOf;
    if hits == [] {
      NoRun(store, cfg, key);
    } else {
      var hit := hits[0];
      var after := store.Consumed(hit.key, cfg, hit.now);
      var rest := TimesOf(hits[1..], key);
      RunStep(store, cfg, hits, key);
      RestFollows(hits, key);
      TimesFollow(hits[1..], key);
      ConsumedLeavesLive(store, cfg, hit, key);
      KeysAreIsolated(after, cfg, hits[1..], key);
      if key == hit.key {
        OnlyLiveMatters(after.Get(key), Next(store.Get(key), cfg, hit.now), cfg, rest, hit.now);
        KeyRunStep(store.Get(key), cfg, hit.now, rest);
      } else {
        OnlyLiveMatters(after.Get(key), store.Get(key), cfg, rest, hit.now);
      }
    }
  }

  lemma NoRun<K>(store: Store<K>, cfg: Limits, key: K)
    ensures DecisionsOf([], StoreRun(store, cfg, []), key) == KeyRun(store.Get(key), cfg, TimesOf([], key))
  {}

  lemma KeyRunStep(prev: Option<State>, cfg: Limits, now: int, rest: seq<int>)
    ensures KeyRun(prev, cfg, [now] + rest) == [Consume(prev, cfg, now).0] + KeyRun(Next(prev, cfg, now), cfg, rest)
  {}

  lemma RestFollows<K>(hits: seq<Hit<K>>, key: K)
    requires hits != [] && OrderedHits(hits)
    ensures forall i :: 0 <= i < |TimesOf(hits[1..], key)| ==> hits[0].now <= TimesOf(hits[1..], key)[i]
  {
    TimesFollow(hits[1..], key);
    if |hits| > 1 { assert hits[1..][0] == hits[1]; }
  }

  /** In any run of the store no key is admitted more than 2 * limit times in a span. */
  lemma StoreSpanBound<K>(store: Store<K>, cfg: Limits, hits: seq<Hit<K>>, key: K, a: int, hi: int)
    requires cfg.limit > 0 && cfg.windowSeconds > 0.0 && OrderedHits(hits)
    requires LastSecond(cfg, a, hi - 1)
    ensures |DecisionsOf(hits, StoreRun(store, cfg, hits), key)| == |TimesOf(hits, key)|
    ensures AdmittedWithin(TimesOf(hits, key), DecisionsOf(hits, StoreRun(store, cfg, hits), key), a, hi) <= 2 * cfg.limit
  {
    KeysAreIsolated(store, cfg, hits, key);
    TimesFollow(hits, key);
    SpanBound(store.Get(key), cfg, TimesOf(hits, key), a, hi);
  }

  // ---------------------------------------------------------------------
  // What the caller is told
  // ---------------------------------------------------------------------

  datatype Answer = Window(limit: nat, remaining: nat, resetUnixSeconds: int) | RateLimited(retryAfterSeconds: int)

  /** `reset` may be fractional for a custom store; the answer is in whole seconds. */
  function RetryAfter(reset: real, now: int): int {
    Max(1, Ceil(reset - now as real))
  }

  function Respond(cfg: Limits, d: Decision, now: int): Answer {
    if !d.allowed then RateLimited(RetryAfter(d.resetUnixSeconds as real, now))
    else Window(cfg.limit, Max(0, cfg.limit - d.count), d.resetUnixSeconds)
  }

  /** The limiter over the bundled store, whose `consume` is atomic. */
  class RateLimiter<K(==)> {
    const cfg: Limits
    const store: InMemoryStore<K>

    constructor (cfg: Limits, store: InMemoryStore<K>)
      ensures this.cfg == cfg && this.store == store
    {
      this.cfg := cfg;
      this.store := store;
    }

    /** The factory: null when the options are rejected. */
    static method Create(cfg: Limits) returns (limiter: RateLimiter?<K>)
      ensures limiter != null <==> cfg.limit > 0 && cfg.windowSeconds > 0.0
      ensures limiter != null ==> fresh(limiter) && fresh(limiter.store) && limiter.cfg == cfg && limiter.store.View() == Store(map[], 0)
    {
      if cfg.limit <= 0 || cfg.windowSeconds <= 0.0 {
        return null;
      }
      var store := new InMemoryStore<K>();
      limiter := new RateLimiter<K>(cfg, store);
    }

    /** `later` is the clock read after the decision. */
    method Account(key: K, now: int, later: int) returns (answer: Answer)
      modifies store
      ensures answer == Respond(cfg, Consume(old(store.View()).Get(key), cfg, now).0, later)
      ensures store.View() == old(store.View()).Consumed(key, cfg, now)
    {
      var decision := store.ConsumeKey(key, cfg, now);
      if !decision.allowed {
        return RateLimited(Max(1, Ceil(decision.resetUnixSeconds as real - later as real)));
      }
      answer := Window(cfg.limit, Max(0, cfg.limit - decision.count), decision.resetUnixSeconds);
    }
  }

  /** An admitted caller is told the limit, what is left of it, and when the window ends;
      a refused one only how long to wait. */
  lemma AnswersTheCaller(prev: Option<State>, cfg: Limits, decided: int, now: int)
    ensures var d := Consume(prev, cfg, decided).0;
            Respond(cfg, d, now) ==
            if d.allowed then Window(cfg.limit, if d.count < cfg.limit then cfg.limit - d.count else 0, d.resetUnixSeconds)
            else RateLimited(RetryAfter(d.resetUnixSeconds as real, now))
  {}

  /** A refused request leaves an open, full window as it is; an admitted one counts
      itself in the open window, or opens one that lasts `windowSeconds`, rounded up. */
  lemma WindowIsKept(prev: Option<State>, cfg: Limits, now: int)
    requires cfg.limit > 0 && cfg.windowSeconds > 0.0
    ensures var d := Consume(prev, cfg, now).0;
            && (!d.allowed ==> prev == Some(State(d.count, d.resetUnixSeconds)) && d.count >= cfg.limit && now < d.resetUnixSeconds)
            && (d.allowed && d.count > 1 ==> prev == Some(State(d.count - 1, d.resetUnixSeconds)) && now < d.resetUnixSeconds)
            && (d.allowed ==> 1 <= d.count <= cfg.limit)
            && ((prev.None? || prev.value.resetUnixSeconds <= now) ==>
                  d.allowed && d.count == 1 && LastSecond(cfg, now, d.resetUnixSeconds - 1))
  {
    CeilShift(now, cfg.windowSeconds);
  }

  /** A refused caller is told a whole number of seconds, at least one, after which
      the window has closed; no shorter wait of a second or more would do. */
  lemma RetryAfterIsExact(reset: real, now: int)
    ensures RetryAfter(reset, now) >= 1
    ensures (now + RetryAfter(reset, now)) as real >= reset
    ensures RetryAfter(reset, now) > 1 ==> (now + RetryAfter(reset, now) - 1) as real < reset
  {}

  /** Waiting as told leads to admission, even when the clock was read after the decision. */
  lemma WaitingIsAdmitted(prev: Option<State>, cfg: Limits, decided: int, now: int)
    requires !Consume(prev, cfg, decided).0.allowed && decided <= now
    ensures var answer := Respond(cfg, Consume(prev, cfg, decided).0, now);
            Consume(prev, cfg, now + answer.retryAfterSeconds).0.allowed
  {}

  /** The remaining count is what the rest of the window will admit. */
  lemma RemainingIsTruthful(prev: Option<State>, cfg: Limits, now: int, times: seq<int>, hi: int)
    requires cfg.limit > 0 && cfg.windowSeconds > 0.0 && Consume(prev, cfg, now).0.allowed
    requires Ordered(times) && forall i :: 0 <= i < |times| ==> now <= times[i]
    requires hi < Consume(prev, cfg, now).0.resetUnixSeconds
    ensures var answer := Respond(cfg, Consume(prev, cfg, now).0, now);
            Admissions(Next(prev, cfg, now), cfg, times, now, hi) == Min(MadeWithin(times, now, hi), answer.remaining)
  {
    OpenWindowAdmits(Next(prev, cfg, now), cfg, times, now, hi);
  }
}
