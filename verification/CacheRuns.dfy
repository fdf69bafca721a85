/**
 Runs of the in-memory cache, compared with a plain last-write map.
 */
module CacheRuns {
  import opened Common
  import opened OrderedMaps
  import opened TtlCache

  datatype Op<K, V> =
    | GetOp(key: K, now: real)
    | SetOp(key: K, value: V, ttl: Option<real>, now: real, sweepNow: real)
    | DeleteOp(key: K, now: real)
  {
    function Start(): real { now }
    function End(): real { if SetOp? then sweepNow else now }
  }

  function After<K(==,!new), V(!new)>(cfg: Config<V>, m: Contents<K, V>, op: Op<K, V>): Contents<K, V> {
    match op
    case GetOp(key, now) => AfterGet(cfg, m, key, now)
    case SetOp(key, value, ttl, now, sweepNow) =>
      if Accepted(cfg, ttl) then AfterSet(cfg, m, key, EntryFor(cfg, value, ttl, now), sweepNow) else m
    case DeleteOp(key, _) => Without(m, key)
  }

  /** The contents after a run from an empty cache. */
  function Run<K(==,!new), V(!new)>(cfg: Config<V>, ops: seq<Op<K, V>>): Contents<K, V> {
    if ops == [] then [] else After(cfg, Run(cfg, ops[..|ops| - 1]), ops[|ops| - 1])
  }

  /** The last write of each key that was neither deleted nor purged as invalid. */
  function LastWrites<K(==,!new), V(!new)>(cfg: Config<V>, ops: seq<Op<K, V>>): map<K, Entry<V>> {
    if ops == [] then map[]
    else
      var before := LastWrites(cfg, ops[..|ops| - 1]);
      match ops[|ops| - 1]
      case GetOp(key, now) =>
        if key in before && !Expired(before[key], now) && !cfg.valid(before[key].value) then before - {key} else before
      case SetOp(key, value, ttl, now, _) =>
        if Accepted(cfg, ttl) then before[key := EntryFor(cfg, value, ttl, now)] else before
      case DeleteOp(key, _) => before - {key}
  }

  /** The other keys written since the last write of `key`. */
  function WrittenSince<K(==,!new), V(!new)>(cfg: Config<V>, ops: seq<Op<K, V>>, key: K): set<K> {
    if ops == [] then {}
    else
      var before := WrittenSince(cfg, ops[..|ops| - 1], key);
      var op := ops[|ops| - 1];
      if op.SetOp? && Accepted(cfg, op.ttl) then if op.key == key then {} else before + {op.key}
      else before
  }

  /** The clock never runs backwards, within or between operations. */
  ghost predicate Chronological<K, V>(ops: seq<Op<K, V>>) {
    (forall i :: 0 <= i < |ops| ==> ops[i].Start() <= ops[i].End()) &&
    (forall i, j :: 0 <= i < j < |ops| ==> ops[i].End() <= ops[j].Start())
  }

  /** Entry `b` was written after entry `a`, and under another key. */
  function NewerThan<K(==,!new), V(!new)>(cfg: Config<V>, ops: seq<Op<K, V>>): ((K, Entry<V>), (K, Entry<V>)) -> bool {
    (a: (K, Entry<V>), b: (K, Entry<V>)) => a.0 != b.0 && b.0 in WrittenSince(cfg, ops, a.0)
  }

  lemma Membership<K(!new), V(!new)>(m: Contents<K, V>, key: K)
    ensures Has(m, key) <==> exists e :: e in m && e.0 == key
  {}

  /** A write never brings back an older entry. */
  lemma AfterSetMembers<K(!new), V(!new)>(cfg: Config<V>, m: Contents<K, V>, key: K, e: Entry<V>, now: real)
    requires WellFormed(cfg, m)
    ensures forall x :: x in AfterSet(cfg, m, key, e, now) ==> x == (key, e) || (x in m && x.0 != key)
  {
    WithoutKeeps(cfg, m, key);
    var longer := Without(m, key) + [(key, e)];
    forall x | x in AfterSet(cfg, m, key, e, now) ensures x == (key, e) || (x in m && x.0 != key) {
      FilterMember(longer, (e: (K, Entry<V>)) => !Expired(e.1, now), x);
    }
  }

  /** In every run the contents stay well-formed, so no write exceeds the bound,
      and hold only last writes that were neither deleted nor purged. */
  lemma {:induction false} RunHoldsLastWrites<K(!new), V(!new)>(cfg: Config<V>, ops: seq<Op<K, V>>)
    ensures WellFormed(cfg, Run(cfg, ops))
    ensures cfg.maxEntries > 0 ==> |Run(cfg, ops)| <= cfg.maxEntries
    ensures forall i, j :: 0 <= i < j < |Run(cfg, ops)| ==> Run(cfg, ops)[i].0 != Run(cfg, ops)[j].0
    ensures forall e :: e in Run(cfg, ops) ==> e.0 in LastWrites(cfg, ops) && LastWrites(cfg, ops)[e.0] == e.1
  {
    if ops != [] {
      var n := |ops| - 1;
      RunHoldsLastWrites(cfg, ops[..n]);
      var m := Run(cfg, ops[..n]);
      match ops[n] {
        case GetOp(key, now) =>
          WithoutKeeps(cfg, m, key);
          var before := LastWrites(cfg, ops[..n]);
          if key in before && !Expired(before[key], now) && !cfg.valid(before[key].value) {
            ReadPurges(cfg, m, before, key, now);
          }
        case SetOp(key, value, ttl, now, sweepNow) =>
          AfterSetKeeps(cfg, m, key, EntryFor(cfg, value, ttl, now), sweepNow);
          AfterSetMembers(cfg, m, key, EntryFor(cfg, value, ttl, now), sweepNow);
        case DeleteOp(key, _) =>
          WithoutKeeps(cfg, m, key);
      }
    }
  }

  lemma ReadPurges<K(!new), V(!new)>(cfg: Config<V>, m: Contents<K, V>, writes: map<K, Entry<V>>, key: K, now: real)
    requires WellFormed(cfg, m)
    requires forall e :: e in m ==> e.0 in writes && writes[e.0] == e.1
    requires key in writes && !Expired(writes[key], now) && !cfg.valid(writes[key].value)
    ensures forall e :: e in AfterGet(cfg, m, key, now) ==> e.0 != key
  {
    Membership(m, key);
    WithoutKeeps(cfg, m, key);
    if Has(m, key) {
      var e := Lookup(m, key).value;
      var i :| 0 <= i < |m| && m[i] == (key, e);
      assert m[i] in m;
    }
  }

  /** The write at `op` is carried out: its own time to live, or else the default,
      is positive or absent. */
  ghost predicate Writes<K, V>(cfg: Config<V>, op: Op<K, V>) {
    op.SetOp? &&
    (op.ttl.Some? ==> op.ttl.value > 0.0) &&
    (op.ttl.None? && cfg.defaultTtlMs.Some? ==> cfg.defaultTtlMs.value > 0.0)
  }

  /** What `op` wrote has not expired at `now`. */
  ghost predicate LiveAt<K, V>(cfg: Config<V>, op: Op<K, V>, now: real) {
    op.SetOp? &&
    (op.ttl.Some? ==> now < op.now + op.ttl.value) &&
    (op.ttl.None? && cfg.defaultTtlMs.Some? ==> now < op.now + cfg.defaultTtlMs.value)
  }

  /** `i` is the last write of `key`, which no later operation deletes. */
  ghost predicate LastWriteAt<K(!new), V(!new)>(cfg: Config<V>, ops: seq<Op<K, V>>, i: nat, key: K) {
    i < |ops| && Writes(cfg, ops[i]) && ops[i].key == key &&
    forall j :: i < j < |ops| && ops[j].key == key ==> !Writes(cfg, ops[j]) && !ops[j].DeleteOp?
  }

  ghost predicate Records<K, V>(cfg: Config<V>, op: Op<K, V>, e: Entry<V>) {
    op.SetOp? && e.value == op.value && forall t: real :: Expired(e, t) <==> !LiveAt(cfg, op, t)
  }

  lemma {:induction false} LastWritesAreLast<K(!new), V(!new)>(cfg: Config<V>, ops: seq<Op<K, V>>, key: K)
    requires key in LastWrites(cfg, ops)
    ensures exists i: nat :: LastWriteAt(cfg, ops, i, key) && Records(cfg, ops[i], LastWrites(cfg, ops)[key])
  {
    var n := |ops| - 1;
    if Writes(cfg, ops[n]) && ops[n].key == key {
      assert LastWriteAt(cfg, ops, n, key);
    } else {
      LastWritesAreLast(cfg, ops[..n], key);
      var i: nat :| LastWriteAt(cfg, ops[..n], i, key) && Records(cfg, ops[i], LastWrites(cfg, ops[..n])[key]);
      assert LastWriteAt(cfg, ops, i, key);
    }
  }

  /** A valid last write is never purged before it expires. */
  lemma {:induction false} LastIsRecorded<K(!new), V(!new)>(cfg: Config<V>, ops: seq<Op<K, V>>, i: nat, key: K)
    requires LastWriteAt(cfg, ops, i, key) && cfg.valid(ops[i].value)
    ensures key in LastWrites(cfg, ops) && Records(cfg, ops[i], LastWrites(cfg, ops)[key])
    ensures WrittenSince(cfg, ops, key) == OthersSince(cfg, ops, i)
  {
    var n := |ops| - 1;
    if i < n {
      LastIsRecorded(cfg, ops[..n], i, key);
    }
  }

  /** The keys written after operation `i`. */
  ghost function OthersSince<K(!new), V(!new)>(cfg: Config<V>, ops: seq<Op<K, V>>, i: nat): set<K> {
    set j | i < j < |ops| && Writes(cfg, ops[j]) :: ops[j].key
  }

  /** A read never answers anything but the last value written under its key,
      still valid, unexpired and undeleted. */
  lemma GetAnswersLastWrite<K(!new), V(!new)>(cfg: Config<V>, ops: seq<Op<K, V>>, key: K, now: real)
    requires Answer(cfg, Run(cfg, ops), key, now).Some?
    ensures exists i: nat :: LastWriteAt(cfg, ops, i, key) && LiveAt(cfg, ops[i], now) && cfg.valid(ops[i].value) &&
                             Answer(cfg, Run(cfg, ops), key, now) == Some(ops[i].value)
  {
    RunHoldsLastWrites(cfg, ops);
    var m := Run(cfg, ops);
    var e := Lookup(m, key).value;
    var i :| 0 <= i < |m| && m[i] == (key, e);
    assert m[i] in m;
    LastWritesAreLast(cfg, ops, key);
  }

  // ---------------------------------------------------------------------
  // What may be missing
  // ---------------------------------------------------------------------

  /** What a write holds before the bound is applied. */
  function Unbounded<K(==,!new), V(!new)>(cfg: Config<V>, m: Contents<K, V>, op: Op<K, V>): Contents<K, V>
    requires op.SetOp?
  {
    Without(m, op.key) + [(op.key, EntryFor(cfg, op.value, op.ttl, op.now))]
  }

  lemma WriteIsOrdered<K(!new), V(!new)>(cfg: Config<V>, pre: seq<Op<K, V>>, op: Op<K, V>)
    requires Pairwise(Run(cfg, pre), NewerThan(cfg, pre))
    requires op.SetOp? && Accepted(cfg, op.ttl)
    ensures Pairwise(Unbounded(cfg, Run(cfg, pre), op), NewerThan(cfg, pre + [op]))
    ensures Pairwise(Swept(Unbounded(cfg, Run(cfg, pre), op), op.sweepNow), NewerThan(cfg, pre + [op]))
  {
    var m, longer := Run(cfg, pre), Unbounded(cfg, Run(cfg, pre), op);
    var before, after := NewerThan<K, V>(cfg, pre), NewerThan<K, V>(cfg, pre + [op]);
    assert (pre + [op])[..|pre + [op]| - 1] == pre;
    RunHoldsLastWrites(cfg, pre);
    FilterPairwise(m, (e: (K, Entry<V>)) => e.0 != op.key, before);
    var kept := Without(m, op.key);
    WithoutKeeps(cfg, m, op.key);
    forall i, j | 0 <= i < j < |longer| ensures after(longer[i], longer[j]) {
      assert longer[i] == kept[i] && kept[i] in kept;
      if j < |kept| { assert longer[j] == kept[j] && before(kept[i], kept[j]); }
    }
    FilterPairwise(longer, (e: (K, Entry<V>)) => !Expired(e.1, op.sweepNow), after);
  }

  /** Entries stand in the order of their last writes. */
  lemma {:induction false} RunIsOrdered<K(!new), V(!new)>(cfg: Config<V>, ops: seq<Op<K, V>>)
    ensures Pairwise(Run(cfg, ops), NewerThan(cfg, ops))
  {
    if ops != [] {
      var n := |ops| - 1;
      RunIsOrdered(cfg, ops[..n]);
      var m, op := Run(cfg, ops[..n]), ops[n];
      assert ops[..n] + [op] == ops;
      if op.SetOp? && Accepted(cfg, op.ttl) {
        WriteIsOrdered(cfg, ops[..n], op);
      } else {
        FilterPairwise(m, (e: (K, Entry<V>)) => e.0 != op.key, NewerThan(cfg, ops[..n]));
        var before, after := NewerThan<K, V>(cfg, ops[..n]), NewerThan<K, V>(cfg, ops);
        assert forall a, b :: before(a, b) ==> after(a, b);
      }
    }
  }

  lemma {:induction false} DistinctSuffix<K(!new), V(!new)>(m: Contents<K, V>, i: nat, keys: set<K>)
    requires Distinct(m) && i <= |m|
    requires forall j :: i <= j < |m| ==> m[j].0 in keys
    ensures |keys| >= |m| - i
    decreases |m| - i
  {
    if i < |m| {
      DistinctSuffix(m, i + 1, keys - {m[i].0});
    }
  }

  /** The key is gone for a reason: its last write has expired by `now`, or at
      least `maxEntries` other keys were written since. */
  ghost predicate Excused<K(!new), V(!new)>(cfg: Config<V>, ops: seq<Op<K, V>>, key: K, now: real) {
    key in LastWrites(cfg, ops) ==>
      || Has(Run(cfg, ops), key)
      || Expired(LastWrites(cfg, ops)[key], now)
      || (cfg.maxEntries > 0 && |WrittenSince(cfg, ops, key)| >= cfg.maxEntries)
  }

  /** An entry a write pushes out has `maxEntries` newer ones. */
  lemma DroppedByWrite<K(!new), V(!new)>(cfg: Config<V>, pre: seq<Op<K, V>>, op: Op<K, V>, e: (K, Entry<V>))
    requires op.SetOp? && Accepted(cfg, op.ttl)
    requires e in Run(cfg, pre) && e.0 != op.key && !Expired(e.1, op.sweepNow)
    requires e !in Run(cfg, pre + [op])
    ensures cfg.maxEntries > 0 && |WrittenSince(cfg, pre + [op], e.0)| >= cfg.maxEntries
  {
    var m, longer := Run(cfg, pre), Unbounded(cfg, Run(cfg, pre), op);
    var swept := Swept(longer, op.sweepNow);
    assert (pre + [op])[..|pre + [op]| - 1] == pre;
    RunHoldsLastWrites(cfg, pre);
    RunIsOrdered(cfg, pre);
    WriteIsOrdered(cfg, pre, op);
    WithoutKeeps(cfg, m, op.key);
    assert e in longer;
    FilterMember(longer, (x: (K, Entry<V>)) => !Expired(x.1, op.sweepNow), e);
    assert e in swept;
    var i :| 0 <= i < |swept| && swept[i] == e;
    assert Run(cfg, pre + [op]) == Bounded(cfg, longer, op.sweepNow);
    NewerEntries(cfg, pre + [op], swept, i);
    if cfg.maxEntries == 0 || i + cfg.maxEntries >= |swept| {
      StaysInBound(swept, cfg.maxEntries, i);
    }
  }

  lemma StaysInBound<K(!new), V(!new)>(m: Contents<K, V>, maxEntries: nat, i: nat)
    requires i < |m| && (maxEntries == 0 || i + maxEntries >= |m|)
    ensures m[i] in Trimmed(m, maxEntries)
  {}

  lemma NewerEntries<K(!new), V(!new)>(cfg: Config<V>, ops: seq<Op<K, V>>, m: Contents<K, V>, i: nat)
    requires Pairwise(m, NewerThan(cfg, ops)) && i < |m|
    ensures |WrittenSince(cfg, ops, m[i].0)| >= |m| - i - 1
  {
    var rel := NewerThan<K, V>(cfg, ops);
    forall j | i < j < |m| ensures m[j].0 in WrittenSince(cfg, ops, m[i].0) {
      assert rel(m[i], m[j]);
    }
    forall a, b | 0 <= a < b < |m| ensures m[a].0 != m[b].0 {
      assert rel(m[a], m[b]);
    }
    DistinctSuffix(m, i + 1, WrittenSince(cfg, ops, m[i].0));
  }

  lemma MoreWritten<K(!new), V(!new)>(cfg: Config<V>, pre: seq<Op<K, V>>, op: Op<K, V>, key: K)
    requires !(op.SetOp? && Accepted(cfg, op.ttl) && op.key == key)
    ensures |WrittenSince(cfg, pre, key)| <= |WrittenSince(cfg, pre + [op], key)|
  {
    assert (pre + [op])[..|pre + [op]| - 1] == pre;
    var before := WrittenSince(cfg, pre, key);
    if op.key in before { assert before + {op.key} == before; }
  }

  lemma WriteIsPresent<K(!new), V(!new)>(cfg: Config<V>, pre: seq<Op<K, V>>, op: Op<K, V>)
    requires op.SetOp? && Accepted(cfg, op.ttl)
    ensures Excused(cfg, pre + [op], op.key, op.sweepNow)
  {
    var m, longer := Run(cfg, pre), Unbounded(cfg, Run(cfg, pre), op);
    var e := (op.key, EntryFor(cfg, op.value, op.ttl, op.now));
    assert (pre + [op])[..|pre + [op]| - 1] == pre;
    assert longer[|longer| - 1] == e;
    if !Expired(e.1, op.sweepNow) {
      var swept := Swept(longer, op.sweepNow);
      assert swept[|swept| - 1] == e;
      var kept := Bounded(cfg, longer, op.sweepNow);
      assert kept[|kept| - 1] == e;
    }
  }

  /** A live key is missing only if at least `maxEntries` other distinct keys were
      written after its own last write; the clock must not run backwards. */
  lemma {:induction false} MissingIsExcused<K(!new), V(!new)>(cfg: Config<V>, ops: seq<Op<K, V>>, key: K, now: real)
    requires Chronological(ops)
    requires forall i :: 0 <= i < |ops| ==> ops[i].End() <= now
    ensures Excused(cfg, ops, key, now)
  {
    if ops != [] {
      var n := |ops| - 1;
      var pre, op := ops[..n], ops[n];
      assert pre + [op] == ops;
      assert Chronological(pre);
      MissingIsExcused(cfg, pre, key, op.Start());
      StepIsExcused(cfg, pre, op, key);
    }
  }

  lemma StepIsExcused<K(!new), V(!new)>(cfg: Config<V>, pre: seq<Op<K, V>>, op: Op<K, V>, key: K)
    requires Excused(cfg, pre, key, op.Start()) && op.Start() <= op.End()
    ensures Excused(cfg, pre + [op], key, op.End())
  {
    var ops, m := pre + [op], Run(cfg, pre);
    assert ops[..|ops| - 1] == pre;
    RunHoldsLastWrites(cfg, pre);
    Membership(m, key);
    Membership(Run(cfg, ops), key);
    WithoutKeeps(cfg, m, op.key);
    if op.SetOp? && Accepted(cfg, op.ttl) && op.key == key {
      WriteIsPresent(cfg, pre, op);
    } else {
      MoreWritten(cfg, pre, op, key);
      if key in LastWrites(cfg, ops) && Has(m, key) && !Has(Run(cfg, ops), key) {
        var e :| e in m && e.0 == key;
        DropIsExcused(cfg, pre, op, e);
      }
    }
  }

  /** An entry that one operation removes had expired, or was pushed out. */
  lemma DropIsExcused<K(!new), V(!new)>(cfg: Config<V>, pre: seq<Op<K, V>>, op: Op<K, V>, e: (K, Entry<V>))
    requires op.Start() <= op.End()
    requires !(op.SetOp? && Accepted(cfg, op.ttl) && op.key == e.0)
    requires e in Run(cfg, pre) && e.0 in LastWrites(cfg, pre + [op]) && !Has(Run(cfg, pre + [op]), e.0)
    ensures Excused(cfg, pre + [op], e.0, op.End())
  {
    var ops, m := pre + [op], Run(cfg, pre);
    assert ops[..|ops| - 1] == pre;
    RunHoldsLastWrites(cfg, pre);
    Membership(Run(cfg, ops), e.0);
    WithoutKeeps(cfg, m, op.key);
    if op.SetOp? && Accepted(cfg, op.ttl) {
      if !Expired(e.1, op.sweepNow) { DroppedByWrite(cfg, pre, op, e); }
    } else if op.GetOp? && e.0 == op.key {
      var i :| 0 <= i < |m| && m[i] == (op.key, Lookup(m, op.key).value);
      assert m[i] in m;
      SameKeySameEntry(m, m[i], e);
    }
  }

  lemma SameKeySameEntry<K(!new), V(!new)>(m: Contents<K, V>, a: (K, Entry<V>), b: (K, Entry<V>))
    requires Distinct(m) && a in m && b in m && a.0 == b.0
    ensures a == b
  {}

  /** The last valid write of a key is answered until it expires, unless at least
      `maxEntries` other keys were written after it. */
  lemma LiveKeyIsAnswered<K(!new), V(!new)>(cfg: Config<V>, ops: seq<Op<K, V>>, i: nat, key: K, now: real)
    requires Chronological(ops)
    requires forall j :: 0 <= j < |ops| ==> ops[j].End() <= now
    requires LastWriteAt(cfg, ops, i, key) && LiveAt(cfg, ops[i], now) && cfg.valid(ops[i].value)
    requires cfg.maxEntries == 0 || |OthersSince(cfg, ops, i)| < cfg.maxEntries
    ensures Answer(cfg, Run(cfg, ops), key, now) == Some(ops[i].value)
  {
    LastIsRecorded(cfg, ops, i, key);
    MissingIsExcused(cfg, ops, key, now);
    RunHoldsLastWrites(cfg, ops);
    var m := Run(cfg, ops);
    var e := Lookup(m, key).value;
    var k :| 0 <= k < |m| && m[k] == (key, e);
    assert m[k] in m;
  }

  /** A read drops its entry exactly when that has expired or is invalid. */
  lemma ReadDropsDead<K(!new), V(!new)>(cfg: Config<V>, m: Contents<K, V>, key: K, now: real, e: (K, Entry<V>))
    requires WellFormed(cfg, m)
    ensures e in AfterGet(cfg, m, key, now) <==>
            e in m && (e.0 == key ==> (e.1.expiresAt.At? ==> now < e.1.expiresAt.time) && cfg.valid(e.1.value))
  {
    WithoutKeeps(cfg, m, key);
    Membership(m, key);
    if Has(m, key) {
      var i :| 0 <= i < |m| && m[i] == (key, Lookup(m, key).value);
      assert m[i] in m;
      if e in m && e.0 == key { SameKeySameEntry(m, m[i], e); }
    }
  }

  /** A write over the bound sweeps: nothing expired is left. */
  lemma OverfullWriteSweeps<K(!new), V(!new)>(cfg: Config<V>, m: Contents<K, V>, key: K, e: Entry<V>, now: real)
    requires WellFormed(cfg, m) && !Has(m, key) && cfg.maxEntries > 0 && |m| == cfg.maxEntries
    ensures forall x :: x in AfterSet(cfg, m, key, e, now) && x.1.expiresAt.At? ==> now < x.1.expiresAt.time
  {
    Membership(m, key);
    FilterAll(m, (x: (K, Entry<V>)) => x.0 != key);
    var longer := m + [(key, e)];
    forall x | x in AfterSet(cfg, m, key, e, now) ensures !Expired(x.1, now) {
      FilterMember(longer, (x: (K, Entry<V>)) => !Expired(x.1, now), x);
    }
  }

  /** A write that stays within the bound removes nothing but the old entry of its key,
      expired entries included. */
  lemma RoomyWriteKeepsAll<K(!new), V(!new)>(cfg: Config<V>, m: Contents<K, V>, key: K, e: Entry<V>, now: real)
    requires WellFormed(cfg, m)
    requires cfg.maxEntries == 0 || |m| < cfg.maxEntries || Has(m, key)
    ensures forall x :: x in AfterSet(cfg, m, key, e, now) <==> x == (key, e) || (x in m && x.0 != key)
  {
    WithoutKeeps(cfg, m, key);
    var rest := Without(m, key);
    FilterShorter(m, (x: (K, Entry<V>)) => x.0 != key);
    if Has(m, key) {
      var i :| 0 <= i < |m| && m[i] == (key, Lookup(m, key).value);
      DropAt(m, (x: (K, Entry<V>)) => x.0 != key, i);
      FilterShorter(m[..i] + m[i + 1..], (x: (K, Entry<V>)) => x.0 != key);
    }
    assert cfg.maxEntries > 0 ==> |rest| < cfg.maxEntries;
    assert AfterSet(cfg, m, key, e, now) == rest + [(key, e)];
  }
}
