/**
 The read/write fallback of the rate limiter as an interleaved system: requests
 queue on a promise chain per key, each task reads and writes the store in two
 steps, and aborts, store failures, expiring windows and other keys interleave
 freely.

 The theorems say that a run refines the atomic `Consume` exactly unless a read
 misses a window that was still open when its task took the lock.
 */
module RateLimitQueue {
  import opened Common
  import opened RateLimit

  const MAX_PENDING_PER_KEY: nat := 64

  type Key = string

  /** A task is queued, awaits the store's read, awaits its write, or has settled. */
  datatype Phase =
    | Queued
    | Reading(now: int)
    | Writing(now: int, readAt: int, seen: Option<State>, state: State, decision: Decision)
    | Settled

  datatype Task = Task(id: nat, aborted: bool, phase: Phase)

  /** One promise chain: the tasks not yet released, oldest first. */
  datatype Chain = Chain(key: Key, pending: nat, queue: seq<Task>)

  /** A decision that took effect, in the order of the effects: the task took the
      lock at second `now`, and at `readAt` its read answered `seen`. A write that
      took effect but was reported as failed charges the key without admitting. */
  datatype Effect = Effect(key: Key, task: nat, now: int, readAt: int, seen: Option<State>, decision: Decision, reported: bool)

  datatype System = System(
    store: map<Key, State>,
    clock: int,
    chainOf: map<Key, nat>,
    chains: map<nat, Chain>,
    nextTask: nat,
    nextChain: nat,
    history: seq<Effect>)
  {
    function Get(key: Key): Option<State> {
      if key in store then Some(store[key]) else None
    }

    predicate Active(c: nat) {
      c in chains && chains[c].queue != []
    }

    function Head(c: nat): Task
      requires Active(c)
    {
      chains[c].queue[0]
    }

    function WithHead(c: nat, phase: Phase): System
      requires Active(c)
    {
      var chain := chains[c];
      this.(chains := chains[c := chain.(queue := chain.queue[0 := Head(c).(phase := phase)])])
    }
  }

  datatype Event =
    | Tick(seconds: nat)
    | Expire(key: Key)
    | Arrive(key: Key)
    | Abort(chain: nat, index: nat)
    | Start(chain: nat)
    | ReadReturns(chain: nat)
    | ReadFails(chain: nat)
    | WriteReturns(chain: nat)
    | WriteFails(chain: nat, effective: bool)
    | Release(chain: nat)

  // ---------------------------------------------------------------------
  // Steps
  // ---------------------------------------------------------------------

  /** The store drops a window that has closed by its own clock: on a read, in a
      sweep, or by a time to live. */
  function DropClosed(s: System, key: Key): System {
    if key in s.store && s.store[key].resetUnixSeconds <= s.clock then s.(store := s.store - {key}) else s
  }

  /** A caller joins the chain of its key; a full backlog rejects it. */
  function Enqueue(s: System, key: Key): System {
    var c := if key in s.chainOf then s.chainOf[key] else s.nextChain;
    var chain := if c in s.chains then s.chains[c] else Chain(key, 0, []);
    if chain.pending >= MAX_PENDING_PER_KEY then s
    else
      s.(chainOf := s.chainOf[key := c],
         chains := s.chains[c := Chain(chain.key, chain.pending + 1, chain.queue + [Task(s.nextTask, false, Queued)])],
         nextTask := s.nextTask + 1,
         nextChain := if key in s.chainOf then s.nextChain else s.nextChain + 1)
  }

  function AbortTask(s: System, c: nat, i: nat): System {
    if c in s.chains && i < |s.chains[c].queue| then
      var chain := s.chains[c];
      s.(chains := s.chains[c := chain.(queue := chain.queue[i := chain.queue[i].(aborted := true)])])
    else s
  }

  /** The head acquires the lock: dropped if aborted, else it reads the clock. */
  function StartHead(s: System, c: nat): System {
    if s.Active(c) && s.Head(c).phase.Queued? then
      s.WithHead(c, if s.Head(c).aborted then Settled else Reading(s.clock))
    else s
  }

  function FinishRead(cfg: Limits, s: System, c: nat): System {
    if s.Active(c) && s.Head(c).phase.Reading? then
      var key, now := s.chains[c].key, s.Head(c).phase.now;
      var (decision, write) := Consume(s.Get(key), cfg, now);
      if write.None? then
        s.WithHead(c, Settled).(
          history := s.history + [Effect(key, s.Head(c).id, now, s.clock, s.Get(key), decision, true)])
      else
        s.WithHead(c, Writing(now, s.clock, s.Get(key), write.value, decision))
    else s
  }

  function FailRead(s: System, c: nat): System {
    if s.Active(c) && s.Head(c).phase.Reading? then s.WithHead(c, Settled) else s
  }

  function FinishWrite(s: System, c: nat, reported: bool): System {
    if s.Active(c) && s.Head(c).phase.Writing? then
      var key, phase := s.chains[c].key, s.Head(c).phase;
      s.WithHead(c, Settled).(
        store := s.store[key := phase.state],
        history := s.history + [Effect(key, s.Head(c).id, phase.now, phase.readAt, phase.seen, phase.decision, reported)])
    else s
  }

  function LoseWrite(s: System, c: nat): System {
    if s.Active(c) && s.Head(c).phase.Writing? then s.WithHead(c, Settled) else s
  }

  /** A settled head leaves; an idle chain is dropped if it is still the key's own. */
  function ReleaseHead(s: System, c: nat): System {
    if s.Active(c) && s.Head(c).phase.Settled? && s.chains[c].pending > 0 then
      var chain := s.chains[c];
      var shorter := Chain(chain.key, chain.pending - 1, chain.queue[1..]);
      var idle := shorter.pending == 0 && chain.key in s.chainOf && s.chainOf[chain.key] == c;
      s.(chains := s.chains[c := shorter], chainOf := if idle then s.chainOf - {chain.key} else s.chainOf)
    else s
  }

  /** One step; an event that is not enabled changes nothing. */
  function Step(cfg: Limits, s: System, e: Event): System {
    match e
    case Tick(seconds) => s.(clock := s.clock + seconds)
    case Expire(key) => DropClosed(s, key)
    case Arrive(key) => Enqueue(s, key)
    case Abort(c, i) => AbortTask(s, c, i)
    case Start(c) => StartHead(s, c)
    case ReadReturns(c) => FinishRead(cfg, s, c)
    case ReadFails(c) => FailRead(s, c)
    case WriteReturns(c) => FinishWrite(s, c, true)
    case WriteFails(c, effective) => if effective then FinishWrite(s, c, false) else LoseWrite(s, c)
    case Release(c) => ReleaseHead(s, c)
  }

  function Initial(store: map<Key, State>, clock: int): System {
    System(store, clock, map[], map[], 0, 0, [])
  }

  function Exec(cfg: Limits, s: System, events: seq<Event>): System {
    if events == [] then s else Step(cfg, Exec(cfg, s, events[..|events| - 1]), events[|events| - 1])
  }

  // ---------------------------------------------------------------------
  // The refinement invariant
  // ---------------------------------------------------------------------

  function EffectsOf(history: seq<Effect>, key: Key): seq<Effect> {
    Filter(history, (e: Effect) => e.key == key)
  }

  function InitialState(init: map<Key, State>, key: Key): Option<State> {
    if key in init then Some(init[key]) else None
  }

  /** The state of the key that was written last. */
  function Kept(prev: Option<State>, cfg: Limits, effects: seq<Effect>): Option<State> {
    if effects == [] then prev
    else
      var e := effects[|effects| - 1];
      Next(e.seen, cfg, e.now)
  }

  /** What a read at second `at` may answer if `kept` was written last: that, or
      nothing once its window has closed. */
  predicate Shows(kept: Option<State>, seen: Option<State>, at: int) {
    seen == kept || (seen.None? && kept.Some? && kept.value.resetUnixSeconds <= at)
  }

  /** Every effect is the decision on what its own read showed. */
  ghost predicate Decided(prev: Option<State>, cfg: Limits, effects: seq<Effect>) {
    forall i :: 0 <= i < |effects| ==>
      && effects[i].now <= effects[i].readAt
      && Shows(Kept(prev, cfg, effects[..i]), effects[i].seen, effects[i].readAt)
      && effects[i].decision == Consume(effects[i].seen, cfg, effects[i].now).0
  }

  /** Effects follow the queue order: a task takes the lock after the reads before it. */
  ghost predicate InOrder(effects: seq<Effect>) {
    forall i, j :: 0 <= i < j < |effects| ==> effects[i].task < effects[j].task && effects[i].readAt <= effects[j].now
  }

  /** No effect was read after `now` or belongs to a task from `task` on. */
  ghost predicate Before(effects: seq<Effect>, task: nat, now: int) {
    forall i :: 0 <= i < |effects| ==> effects[i].task < task && effects[i].readAt <= now
  }

  /** What holds of the effects of one key. */
  ghost predicate KeyInv(cfg: Limits, init: map<Key, State>, s: System, key: Key) {
    var effects := EffectsOf(s.history, key);
    var prev := InitialState(init, key);
    && Shows(Kept(prev, cfg, effects), s.Get(key), s.clock)
    && Decided(prev, cfg, effects)
    && InOrder(effects)
    && Before(effects, s.nextTask, s.clock)
  }

  /** A task between its read and its write holds a decision on what it read. */
  ghost predicate HeadInv(cfg: Limits, init: map<Key, State>, s: System, key: Key, head: Task) {
    var effects := EffectsOf(s.history, key);
    match head.phase
    case Queued => Before(effects, head.id, s.clock)
    case Reading(now) => now <= s.clock && Before(effects, head.id, now)
    case Writing(now, readAt, seen, state, decision) =>
      && now <= readAt <= s.clock
      && Before(effects, head.id, now)
      && Shows(Kept(InitialState(init, key), cfg, effects), seen, readAt)
      && Consume(seen, cfg, now) == (decision, Some(state))
    case Settled => Before(effects, head.id + 1, s.clock)
  }

  /** Only the head has left the queue, and tasks stand in the order of their numbers. */
  ghost predicate Lined(queue: seq<Task>, nextTask: nat) {
    && (forall i :: 0 < i < |queue| ==> queue[i].phase.Queued?)
    && (forall i, j :: 0 <= i < j < |queue| ==> queue[i].id < queue[j].id)
    && (forall i :: 0 <= i < |queue| ==> queue[i].id < nextTask)
  }

  /** What holds of one chain. */
  ghost predicate ChainInv(cfg: Limits, init: map<Key, State>, s: System, c: nat) {
    c in s.chains ==>
      var chain := s.chains[c];
      && c < s.nextChain
      && chain.pending == |chain.queue| <= MAX_PENDING_PER_KEY
      && (chain.queue != [] ==> chain.key in s.chainOf && s.chainOf[chain.key] == c)
      && Lined(chain.queue, s.nextTask)
      && (chain.queue != [] ==> HeadInv(cfg, init, s, chain.key, chain.queue[0]))
  }

  /** A key is mapped to a busy chain of its own. */
  ghost predicate MapInv(s: System, key: Key) {
    key in s.chainOf ==> s.Active(s.chainOf[key]) && s.chains[s.chainOf[key]].key == key
  }

  ghost predicate Inv(cfg: Limits, init: map<Key, State>, s: System) {
    && (forall c: nat :: ChainInv(cfg, init, s, c))
    && (forall key: Key :: MapInv(s, key))
    && (forall key: Key :: KeyInv(cfg, init, s, key))
  }

  lemma EffectsAppend(history: seq<Effect>, e: Effect, key: Key)
    ensures EffectsOf(history + [e], key) ==
            if e.key == key then EffectsOf(history, key) + [e] else EffectsOf(history, key)
  {}

  lemma DecidedAppend(prev: Option<State>, cfg: Limits, effects: seq<Effect>, e: Effect)
    requires Decided(prev, cfg, effects)
    requires e.now <= e.readAt && Shows(Kept(prev, cfg, effects), e.seen, e.readAt)
    requires e.decision == Consume(e.seen, cfg, e.now).0
    ensures Decided(prev, cfg, effects + [e])
    ensures Kept(prev, cfg, effects + [e]) == Next(e.seen, cfg, e.now)
  {
    hide Consume, Next, Shows, Kept;
    var more := effects + [e];
    forall i | 0 <= i < |more|
      ensures more[i].now <= more[i].readAt
      ensures Shows(Kept(prev, cfg, more[..i]), more[i].seen, more[i].readAt)
      ensures more[i].decision == Consume(more[i].seen, cfg, more[i].now).0
    {
      assert more[..i] == effects[..i];
      if i == |effects| { assert effects[..i] == effects; }
    }
    KeptLast(prev, cfg, more);
  }

  lemma KeptLast(prev: Option<State>, cfg: Limits, effects: seq<Effect>)
    requires effects != []
    ensures Kept(prev, cfg, effects) == Next(effects[|effects| - 1].seen, cfg, effects[|effects| - 1].now)
  {}

  lemma LinedAppend(queue: seq<Task>, nextTask: nat)
    requires Lined(queue, nextTask)
    ensures Lined(queue + [Task(nextTask, false, Queued)], nextTask + 1) && Lined(queue, nextTask + 1)
  {}

  lemma LinedFirst(nextTask: nat)
    ensures Lined([Task(nextTask, false, Queued)], nextTask + 1)
  {}

  lemma LinedRest(queue: seq<Task>, nextTask: nat)
    requires Lined(queue, nextTask) && queue != []
    ensures Lined(queue[1..], nextTask) && queue[0].id < nextTask
    ensures queue[1..] != [] ==> queue[1..][0].phase.Queued? && queue[0].id < queue[1..][0].id
  {}

  lemma LinedMark(queue: seq<Task>, nextTask: nat, i: nat, t: Task)
    requires Lined(queue, nextTask) && i < |queue|
    requires t.id == queue[i].id && (i > 0 ==> t.phase == queue[i].phase)
    ensures Lined(queue[i := t], nextTask)
  {}

  lemma SameHead(cfg: Limits, init: map<Key, State>, s: System, after: System, key: Key, head: Task)
    requires EffectsOf(after.history, key) == EffectsOf(s.history, key) && after.clock == s.clock
    ensures HeadInv(cfg, init, after, key, head) <==> HeadInv(cfg, init, s, key, head)
  {}

  lemma BeforeLater(effects: seq<Effect>, task: nat, later: nat, now: int)
    requires Before(effects, task, now) && task <= later
    ensures Before(effects, later, now)
  {}

  // ---------------------------------------------------------------------
  // Every step keeps it
  // ---------------------------------------------------------------------

  lemma TickKeeps(cfg: Limits, init: map<Key, State>, s: System, seconds: nat)
    requires Inv(cfg, init, s)
    ensures Inv(cfg, init, s.(clock := s.clock + seconds))
  {
    hide EffectsOf, Kept, Decided, InOrder;
    var after := s.(clock := s.clock + seconds);
    forall c: nat ensures ChainInv(cfg, init, after, c) { assert ChainInv(cfg, init, s, c); }
    forall key: Key ensures MapInv(after, key) { assert MapInv(s, key); }
    forall key: Key ensures KeyInv(cfg, init, after, key) { assert KeyInv(cfg, init, s, key); }
  }

  lemma DropKeeps(cfg: Limits, init: map<Key, State>, s: System, key: Key)
    requires Inv(cfg, init, s)
    ensures Inv(cfg, init, DropClosed(s, key))
  {
    hide EffectsOf, Kept, Decided, InOrder, Before;
    var after := DropClosed(s, key);
    forall d: nat ensures ChainInv(cfg, init, after, d) { assert ChainInv(cfg, init, s, d); }
    forall k: Key ensures MapInv(after, k) { assert MapInv(s, k); }
    forall k: Key ensures KeyInv(cfg, init, after, k) { assert KeyInv(cfg, init, s, k); }
  }

  /** A head that changes phase without an effect. */
  lemma PhaseKeeps(cfg: Limits, init: map<Key, State>, s: System, c: nat, phase: Phase)
    requires Inv(cfg, init, s) && s.Active(c)
    requires HeadInv(cfg, init, s, s.chains[c].key, s.Head(c).(phase := phase))
    ensures Inv(cfg, init, s.WithHead(c, phase))
  {
    hide EffectsOf, KeyInv, HeadInv, Lined;
    var after := s.WithHead(c, phase);
    assert ChainInv(cfg, init, s, c);
    LinedMark(s.chains[c].queue, s.nextTask, 0, s.Head(c).(phase := phase));
    forall d: nat ensures ChainInv(cfg, init, after, d) {
      assert ChainInv(cfg, init, s, d);
      if s.Active(d) { SameHead(cfg, init, s, after, after.chains[d].key, after.Head(d)); }
    }
    forall key: Key ensures MapInv(after, key) { assert MapInv(s, key); }
    forall key: Key ensures KeyInv(cfg, init, after, key) { SameEffects(cfg, init, s, after, key); }
  }

  lemma SameEffects(cfg: Limits, init: map<Key, State>, s: System, after: System, key: Key)
    requires KeyInv(cfg, init, s, key)
    requires after.history == s.history && after.store == s.store && after.clock == s.clock && after.nextTask >= s.nextTask
    ensures KeyInv(cfg, init, after, key)
  {
    hide EffectsOf, Kept, Decided, InOrder;
  }

  /** An abort only marks a task. */
  lemma AbortKeeps(cfg: Limits, init: map<Key, State>, s: System, c: nat, i: nat)
    requires Inv(cfg, init, s)
    ensures Inv(cfg, init, AbortTask(s, c, i))
  {
    hide EffectsOf, KeyInv, HeadInv, Lined;
    var after := AbortTask(s, c, i);
    if after != s {
      var queue := s.chains[c].queue;
      assert ChainInv(cfg, init, s, c);
      LinedMark(queue, s.nextTask, i, queue[i].(aborted := true));
      forall d: nat ensures ChainInv(cfg, init, after, d) {
        assert ChainInv(cfg, init, s, d);
        if s.Active(d) {
          SameHead(cfg, init, s, after, s.chains[d].key, s.Head(d));
          AbortedHead(cfg, init, after, s.chains[d].key, s.Head(d));
        }
      }
      forall key: Key ensures MapInv(after, key) { assert MapInv(s, key); }
      forall key: Key ensures KeyInv(cfg, init, after, key) { SameEffects(cfg, init, s, after, key); }
    }
  }

  lemma AbortedHead(cfg: Limits, init: map<Key, State>, s: System, key: Key, head: Task)
    requires HeadInv(cfg, init, s, key, head)
    ensures HeadInv(cfg, init, s, key, head.(aborted := true))
  {}

  /** The head of the key's own chain takes effect. */
  lemma EffectKeeps(cfg: Limits, init: map<Key, State>, s: System, c: nat, e: Effect, store: map<Key, State>)
    requires Inv(cfg, init, s) && s.Active(c)
    requires e.key == s.chains[c].key && e.task == s.Head(c).id && e.now <= e.readAt <= s.clock
    requires Before(EffectsOf(s.history, e.key), e.task, e.now)
    requires Shows(Kept(InitialState(init, e.key), cfg, EffectsOf(s.history, e.key)), e.seen, e.readAt)
    requires e.decision == Consume(e.seen, cfg, e.now).0
    requires InitialState(store, e.key) == Next(e.seen, cfg, e.now)
    requires forall k :: k != e.key ==> InitialState(store, k) == s.Get(k)
    ensures Inv(cfg, init, s.WithHead(c, Settled).(store := store, history := s.history + [e]))
  {
    hide EffectsOf, Consume, Next, Kept, Shows, KeyInv, HeadInv, Lined, Before;
    var after := s.WithHead(c, Settled).(store := store, history := s.history + [e]);
    assert ChainInv(cfg, init, s, c);
    LinedHead(s.chains[c].queue, s.nextTask);
    forall key: Key ensures KeyInv(cfg, init, after, key) {
      assert KeyInv(cfg, init, s, key);
      if key == e.key {
        EffectOnKey(cfg, init, s, e, after);
      } else {
        EffectOnOther(cfg, init, s, e, after, key);
      }
    }
    forall d: nat ensures ChainInv(cfg, init, after, d) {
      assert ChainInv(cfg, init, s, d);
      EffectOnChain(cfg, init, s, c, e, after, d);
    }
    forall key: Key ensures MapInv(after, key) { assert MapInv(s, key); }
  }

  lemma LinedHead(queue: seq<Task>, nextTask: nat)
    requires Lined(queue, nextTask) && queue != []
    ensures queue[0].id < nextTask
  {}

  lemma EffectOnOther(cfg: Limits, init: map<Key, State>, s: System, e: Effect, after: System, key: Key)
    requires KeyInv(cfg, init, s, key) && key != e.key
    requires after.Get(key) == s.Get(key) && after.history == s.history + [e]
    requires after.clock == s.clock && after.nextTask == s.nextTask
    ensures KeyInv(cfg, init, after, key)
  {
    hide EffectsOf, Consume, Next, Kept, Shows;
    EffectsAppend(s.history, e, key);
  }

  lemma OrderAppend(effects: seq<Effect>, e: Effect, task: nat, now: int)
    requires InOrder(effects) && Before(effects, e.task, e.now)
    requires e.task < task && e.now <= e.readAt <= now
    ensures InOrder(effects + [e]) && Before(effects + [e], task, now)
  {}

  lemma EffectOnKey(cfg: Limits, init: map<Key, State>, s: System, e: Effect, after: System)
    requires KeyInv(cfg, init, s, e.key) && e.now <= e.readAt <= s.clock && e.task < s.nextTask
    requires Before(EffectsOf(s.history, e.key), e.task, e.now)
    requires Shows(Kept(InitialState(init, e.key), cfg, EffectsOf(s.history, e.key)), e.seen, e.readAt)
    requires e.decision == Consume(e.seen, cfg, e.now).0
    requires after.Get(e.key) == Next(e.seen, cfg, e.now)
    requires after.history == s.history + [e] && after.clock == s.clock && after.nextTask == s.nextTask
    ensures KeyInv(cfg, init, after, e.key)
  {
    hide Consume, Next, Kept, Decided, InOrder, Before, EffectsOf;
    EffectsAppend(s.history, e, e.key);
    OrderAppend(EffectsOf(s.history, e.key), e, s.nextTask, s.clock);
    DecidedAppend(InitialState(init, e.key), cfg, EffectsOf(s.history, e.key), e);
  }

  lemma EffectOnChain(cfg: Limits, init: map<Key, State>, s: System, c: nat, e: Effect, after: System, d: nat)
    requires ChainInv(cfg, init, s, c) && ChainInv(cfg, init, s, d) && s.Active(c)
    requires e.key == s.chains[c].key && e.task == s.Head(c).id && e.now <= e.readAt <= s.clock
    requires Before(EffectsOf(s.history, e.key), e.task, e.now)
    requires after == s.WithHead(c, Settled).(store := after.store, history := s.history + [e])
    ensures ChainInv(cfg, init, after, d)
  {
    hide EffectsOf, HeadInv, Lined;
    LinedMark(s.chains[c].queue, s.nextTask, 0, s.Head(c).(phase := Settled));
    if s.Active(d) {
      EffectsAppend(s.history, e, s.chains[d].key);
      if d == c {
        SettledHead(cfg, init, s, e, after, s.Head(c));
      } else {
        SameHead(cfg, init, s, after, s.chains[d].key, s.Head(d));
      }
    }
  }

  lemma SettledHead(cfg: Limits, init: map<Key, State>, s: System, e: Effect, after: System, head: Task)
    requires EffectsOf(after.history, e.key) == EffectsOf(s.history, e.key) + [e] && after.clock == s.clock
    requires e.task == head.id && e.now <= e.readAt <= s.clock
    requires Before(EffectsOf(s.history, e.key), e.task, e.now)
    ensures HeadInv(cfg, init, after, e.key, head.(phase := Settled))
  {
    hide EffectsOf, Consume, Kept, Shows;
  }

  lemma EnqueueKeeps(cfg: Limits, init: map<Key, State>, s: System, key: Key)
    requires Inv(cfg, init, s)
    ensures Inv(cfg, init, Enqueue(s, key))
  {
    hide EffectsOf, KeyInv, HeadInv, Lined;
    var after := Enqueue(s, key);
    assert MapInv(s, key) && KeyInv(cfg, init, s, key) && ChainInv(cfg, init, s, s.nextChain);
    if key in s.chainOf { assert ChainInv(cfg, init, s, s.chainOf[key]); }
    forall d: nat ensures ChainInv(cfg, init, after, d) {
      assert ChainInv(cfg, init, s, d);
      EnqueueOnChain(cfg, init, s, key, d);
    }
    forall k: Key ensures MapInv(after, k) { assert MapInv(s, k); }
    forall k: Key ensures KeyInv(cfg, init, after, k) { SameEffects(cfg, init, s, after, k); }
  }

  lemma EnqueueOnChain(cfg: Limits, init: map<Key, State>, s: System, key: Key, d: nat)
    requires ChainInv(cfg, init, s, d) && ChainInv(cfg, init, s, s.nextChain) && MapInv(s, key) && KeyInv(cfg, init, s, key)
    ensures ChainInv(cfg, init, Enqueue(s, key), d)
  {
    hide EffectsOf, KeyInv, HeadInv, Lined;
    if key in s.chainOf && s.chainOf[key] == d {
      JoinOnChain(cfg, init, s, key);
    } else if key !in s.chainOf && s.nextChain == d {
      OpenOnChain(cfg, init, s, key);
    } else if d in s.chains {
      LinedAppend(s.chains[d].queue, s.nextTask);
      if s.Active(d) { SameHead(cfg, init, s, Enqueue(s, key), s.chains[d].key, s.Head(d)); }
    }
  }

  lemma JoinOnChain(cfg: Limits, init: map<Key, State>, s: System, key: Key)
    requires MapInv(s, key) && key in s.chainOf && ChainInv(cfg, init, s, s.chainOf[key])
    ensures ChainInv(cfg, init, Enqueue(s, key), s.chainOf[key])
  {
    hide EffectsOf, HeadInv, Lined;
    var d := s.chainOf[key];
    LinedAppend(s.chains[d].queue, s.nextTask);
    SameHead(cfg, init, s, Enqueue(s, key), key, s.Head(d));
  }

  lemma OpenOnChain(cfg: Limits, init: map<Key, State>, s: System, key: Key)
    requires key !in s.chainOf && ChainInv(cfg, init, s, s.nextChain) && KeyInv(cfg, init, s, key)
    ensures ChainInv(cfg, init, Enqueue(s, key), s.nextChain)
  {
    hide EffectsOf, KeyInv, HeadInv, Lined;
    LinedFirst(s.nextTask);
    assert [] + [Task(s.nextTask, false, Queued)] == [Task(s.nextTask, false, Queued)];
    FirstHead(cfg, init, s, Enqueue(s, key), key);
  }

  lemma FirstHead(cfg: Limits, init: map<Key, State>, s: System, after: System, key: Key)
    requires KeyInv(cfg, init, s, key) && after.history == s.history && after.clock == s.clock
    ensures HeadInv(cfg, init, after, key, Task(s.nextTask, false, Queued))
  {
    hide EffectsOf, Kept, Decided, InOrder, Before;
  }

  lemma ReleaseKeeps(cfg: Limits, init: map<Key, State>, s: System, c: nat)
    requires Inv(cfg, init, s)
    ensures Inv(cfg, init, ReleaseHead(s, c))
  {
    hide EffectsOf, KeyInv, HeadInv, Lined;
    var after := ReleaseHead(s, c);
    assert ChainInv(cfg, init, s, c);
    forall d: nat ensures ChainInv(cfg, init, after, d) {
      assert ChainInv(cfg, init, s, d);
      ReleaseOnChain(cfg, init, s, c, d);
    }
    forall k: Key ensures MapInv(after, k) { assert MapInv(s, k); }
    forall k: Key ensures KeyInv(cfg, init, after, k) { SameEffects(cfg, init, s, after, k); }
  }

  lemma ReleaseOnChain(cfg: Limits, init: map<Key, State>, s: System, c: nat, d: nat)
    requires ChainInv(cfg, init, s, c) && ChainInv(cfg, init, s, d)
    ensures ChainInv(cfg, init, ReleaseHead(s, c), d)
  {
    hide EffectsOf, HeadInv, Lined;
    var after := ReleaseHead(s, c);
    if s.Active(d) {
      SameHead(cfg, init, s, after, s.chains[d].key, s.Head(d));
      LinedRest(s.chains[d].queue, s.nextTask);
      var rest := s.chains[d].queue[1..];
      if d == c && s.Head(c).phase.Settled? && rest != [] {
        NextHead(cfg, init, after, s.chains[c].key, s.Head(c), rest[0]);
      }
    }
  }

  lemma NextHead(cfg: Limits, init: map<Key, State>, s: System, key: Key, head: Task, next: Task)
    requires HeadInv(cfg, init, s, key, head) && head.phase.Settled?
    requires next.phase.Queued? && head.id < next.id
    ensures HeadInv(cfg, init, s, key, next)
  {
    hide EffectsOf, Kept, Before;
    BeforeLater(EffectsOf(s.history, key), head.id + 1, next.id, s.clock);
  }

  lemma FinishReadKeeps(cfg: Limits, init: map<Key, State>, s: System, c: nat)
    requires Inv(cfg, init, s)
    ensures Inv(cfg, init, FinishRead(cfg, s, c))
  {
    hide EffectsOf, Kept, Decided, InOrder;
    if s.Active(c) && s.Head(c).phase.Reading? {
      var key, now := s.chains[c].key, s.Head(c).phase.now;
      assert ChainInv(cfg, init, s, c) && KeyInv(cfg, init, s, key);
      var (decision, write) := Consume(s.Get(key), cfg, now);
      if write.None? {
        EffectKeeps(cfg, init, s, c, Effect(key, s.Head(c).id, now, s.clock, s.Get(key), decision, true), s.store);
      } else {
        PhaseKeeps(cfg, init, s, c, Writing(now, s.clock, s.Get(key), write.value, decision));
      }
    }
  }

  lemma FinishWriteKeeps(cfg: Limits, init: map<Key, State>, s: System, c: nat, reported: bool)
    requires Inv(cfg, init, s)
    ensures Inv(cfg, init, FinishWrite(s, c, reported))
  {
    hide EffectsOf, Kept, Decided, InOrder;
    if s.Active(c) && s.Head(c).phase.Writing? {
      assert ChainInv(cfg, init, s, c);
      var key, phase := s.chains[c].key, s.Head(c).phase;
      EffectKeeps(cfg, init, s, c, Effect(key, s.Head(c).id, phase.now, phase.readAt, phase.seen, phase.decision, reported),
                  s.store[key := phase.state]);
    }
  }

  lemma SettleKeeps(cfg: Limits, init: map<Key, State>, s: System, c: nat)
    requires Inv(cfg, init, s) && s.Active(c)
    requires s.Head(c).phase.Queued? || s.Head(c).phase.Reading? || s.Head(c).phase.Writing?
    ensures Inv(cfg, init, s.WithHead(c, Settled))
  {
    hide EffectsOf, Consume;
    assert ChainInv(cfg, init, s, c);
    PhaseKeeps(cfg, init, s, c, Settled);
  }

  lemma StepKeeps(cfg: Limits, init: map<Key, State>, s: System, e: Event)
    requires Inv(cfg, init, s)
    ensures Inv(cfg, init, Step(cfg, s, e))
  {
    hide Inv, EffectsOf, Consume;
    match e {
      case Tick(seconds) => TickKeeps(cfg, init, s, seconds);
      case Expire(key) => DropKeeps(cfg, init, s, key);
      case Arrive(key) => EnqueueKeeps(cfg, init, s, key);
      case Abort(c, i) => AbortKeeps(cfg, init, s, c, i);
      case Start(c) => StartKeeps(cfg, init, s, c);
      case ReadReturns(c) => FinishReadKeeps(cfg, init, s, c);
      case ReadFails(c) => if s.Active(c) && s.Head(c).phase.Reading? { SettleKeeps(cfg, init, s, c); }
      case WriteReturns(c) => FinishWriteKeeps(cfg, init, s, c, true);
      case WriteFails(c, effective) =>
        if effective {
          FinishWriteKeeps(cfg, init, s, c, false);
        } else if s.Active(c) && s.Head(c).phase.Writing? {
          SettleKeeps(cfg, init, s, c);
        }
      case Release(c) => ReleaseKeeps(cfg, init, s, c);
    }
  }

  lemma StartKeeps(cfg: Limits, init: map<Key, State>, s: System, c: nat)
    requires Inv(cfg, init, s)
    ensures Inv(cfg, init, StartHead(s, c))
  {
    hide EffectsOf, Consume;
    if s.Active(c) && s.Head(c).phase.Queued? {
      assert ChainInv(cfg, init, s, c);
      if s.Head(c).aborted {
        SettleKeeps(cfg, init, s, c);
      } else {
        PhaseKeeps(cfg, init, s, c, Reading(s.clock));
      }
    }
  }

  /** The invariant holds after every run, for any interleaving. */
  lemma {:induction false} RunKeeps(cfg: Limits, init: map<Key, State>, clock: int, events: seq<Event>)
    ensures Inv(cfg, init, Exec(cfg, Initial(init, clock), events))
  {
    if events == [] {
    } else {
      hide Inv, Step;
      RunKeeps(cfg, init, clock, events[..|events| - 1]);
      StepKeeps(cfg, init, Exec(cfg, Initial(init, clock), events[..|events| - 1]), events[|events| - 1]);
    }
  }

  // ---------------------------------------------------------------------
  // Main results
  // ---------------------------------------------------------------------

  function TimesOfEffects(effects: seq<Effect>): seq<int> {
    seq(|effects|, i requires 0 <= i < |effects| => effects[i].now)
  }

  function DecisionsOfEffects(effects: seq<Effect>): seq<Decision> {
    seq(|effects|, i requires 0 <= i < |effects| => effects[i].decision)
  }

  lemma {:induction false} RunAppend(prev: Option<State>, cfg: Limits, times: seq<int>, now: int, last: Option<State>)
    requires last == FoldNext(prev, cfg, times)
    ensures KeyRun(prev, cfg, times + [now]) == KeyRun(prev, cfg, times) + [Consume(last, cfg, now).0]
    decreases |times|
  {
    hide Consume, Next;
    if times == [] {
      assert [] + [now] == [now];
      assert KeyRun(prev, cfg, [now]) == [Consume(prev, cfg, now).0] + KeyRun(Next(prev, cfg, now), cfg, []);
    } else {
      assert (times + [now])[1..] == times[1..] + [now];
      RunAppend(Next(prev, cfg, times[0]), cfg, times[1..], now, last);
    }
  }

  function FoldNext(prev: Option<State>, cfg: Limits, times: seq<int>): Option<State>
    decreases |times|
  {
    if times == [] then prev else FoldNext(Next(prev, cfg, times[0]), cfg, times[1..])
  }

  lemma {:induction false} FoldAppend(prev: Option<State>, cfg: Limits, times: seq<int>, now: int)
    ensures FoldNext(prev, cfg, times + [now]) == Next(FoldNext(prev, cfg, times), cfg, now)
    decreases |times|
  {
    hide Next;
    if times == [] {
      assert [] + [now] == [now];
      assert FoldNext(prev, cfg, [now]) == FoldNext(Next(prev, cfg, now), cfg, []);
    } else {
      assert (times + [now])[1..] == times[1..] + [now];
      FoldAppend(Next(prev, cfg, times[0]), cfg, times[1..], now);
    }
  }

  /** The read of `e` missed a window that was still open when the task took the lock. */
  predicate Missed(kept: Option<State>, e: Effect) {
    e.seen.None? && kept.Some? && e.now < kept.value.resetUnixSeconds <= e.readAt
  }

  /** No read missed a window that was still open when its task took the lock. */
  ghost predicate Timely(prev: Option<State>, cfg: Limits, effects: seq<Effect>) {
    forall i :: 0 <= i < |effects| ==> !Missed(Kept(prev, cfg, effects[..i]), effects[i])
  }

  /** A stored window has counted at least one request. */
  predicate Counted(kept: Option<State>) {
    kept.Some? ==> kept.value.count >= 1
  }

  lemma KeptIsCounted(prev: Option<State>, cfg: Limits, effects: seq<Effect>)
    requires cfg.Valid() && Counted(prev)
    ensures Counted(Kept(prev, cfg, effects))
  {}

  /** A decision is the one atomic `Consume` makes exactly unless its read missed an open window. */
  lemma DecisionIsAtomicIff(kept: Option<State>, cfg: Limits, e: Effect)
    requires Counted(kept) && Shows(kept, e.seen, e.readAt)
    requires e.decision == Consume(e.seen, cfg, e.now).0
    ensures e.decision == Consume(kept, cfg, e.now).0 <==> !Missed(kept, e)
    ensures !Missed(kept, e) ==> Next(e.seen, cfg, e.now) == Next(kept, cfg, e.now)
  {}

  lemma DecidedPrefix(prev: Option<State>, cfg: Limits, effects: seq<Effect>, n: nat)
    requires Decided(prev, cfg, effects) && n <= |effects|
    ensures Decided(prev, cfg, effects[..n])
  {
    hide Kept, Shows, Consume;
    var before := effects[..n];
    forall i | 0 <= i < n
      ensures before[i].now <= before[i].readAt
      ensures Shows(Kept(prev, cfg, before[..i]), before[i].seen, before[i].readAt)
      ensures before[i].decision == Consume(before[i].seen, cfg, before[i].now).0
    {
      assert before[..i] == effects[..i];
    }
  }

  lemma TimelySplit(prev: Option<State>, cfg: Limits, effects: seq<Effect>)
    requires effects != []
    ensures var n := |effects| - 1;
            Timely(prev, cfg, effects) <==>
            Timely(prev, cfg, effects[..n]) && !Missed(Kept(prev, cfg, effects[..n]), effects[n])
  {
    hide Kept, Missed;
    var n := |effects| - 1;
    assert forall i :: 0 <= i < n ==> effects[..n][..i] == effects[..i] && effects[..n][i] == effects[i];
  }

  /** Decisions on what the reads showed are a run of atomic `Consume` exactly when
      no read missed an open window. */
  lemma {:induction false} RunIffTimely(prev: Option<State>, cfg: Limits, effects: seq<Effect>)
    requires cfg.Valid() && Counted(prev) && Decided(prev, cfg, effects)
    ensures DecisionsOfEffects(effects) == KeyRun(prev, cfg, TimesOfEffects(effects)) <==> Timely(prev, cfg, effects)
    ensures Timely(prev, cfg, effects) ==> Kept(prev, cfg, effects) == FoldNext(prev, cfg, TimesOfEffects(effects))
  {
    hide Consume, Next, KeyRun, FoldNext, Timely, Kept, Missed, Shows;
    if effects == [] {
      NoEffects(prev, cfg);
    } else {
      var n := |effects| - 1;
      var before, e := effects[..n], effects[n];
      DecidedPrefix(prev, cfg, effects, n);
      RunIffTimely(prev, cfg, before);
      TimelySplit(prev, cfg, effects);
      EffectsSplit(effects);
      KeptIsCounted(prev, cfg, before);
      DecisionIsAtomicIff(Kept(prev, cfg, before), cfg, e);
      KeptLast(prev, cfg, effects);
      RunAppend(prev, cfg, TimesOfEffects(before), e.now, FoldNext(prev, cfg, TimesOfEffects(before)));
      FoldAppend(prev, cfg, TimesOfEffects(before), e.now);
      SameLast(DecisionsOfEffects(before), KeyRun(prev, cfg, TimesOfEffects(before)), e.decision,
               Consume(FoldNext(prev, cfg, TimesOfEffects(before)), cfg, e.now).0);
    }
  }

  lemma SameLast(a: seq<Decision>, b: seq<Decision>, x: Decision, y: Decision)
    requires |a| == |b|
    ensures a + [x] == b + [y] <==> a == b && x == y
  {
    if a + [x] == b + [y] {
      assert a == (a + [x])[..|a|] && b == (b + [y])[..|b|];
      assert (a + [x])[|a|] == x && (b + [y])[|b|] == y;
    }
  }

  lemma NoEffects(prev: Option<State>, cfg: Limits)
    ensures DecisionsOfEffects([]) == KeyRun(prev, cfg, TimesOfEffects([]))
    ensures prev == Kept(prev, cfg, []) == FoldNext(prev, cfg, TimesOfEffects([]))
    ensures Timely(prev, cfg, [])
  {}

  lemma EffectsSplit(effects: seq<Effect>)
    requires effects != []
    ensures var n := |effects| - 1;
            TimesOfEffects(effects) == TimesOfEffects(effects[..n]) + [effects[n].now] &&
            DecisionsOfEffects(effects) == DecisionsOfEffects(effects[..n]) + [effects[n].decision]
  {}

  /** After any run, for every key: each decision is the one atomic `Consume` makes
      on the state written last, at the second the lock was taken, exactly unless
      the read missed a window that was open then; the decisions are those of a
      run of atomic `Consume` in queue order exactly when no read did; the store
      then holds the state that run leaves, or has dropped it closed; and the
      seconds never run backwards. */
  lemma FallbackRefinesConsume(cfg: Limits, init: map<Key, State>, clock: int, events: seq<Event>, key: Key)
    requires cfg.limit > 0 && cfg.windowSeconds > 0.0 && Counted(InitialState(init, key))
    ensures var s := Exec(cfg, Initial(init, clock), events);
            var prev, effects := InitialState(init, key), EffectsOf(s.history, key);
            && (forall i :: 0 <= i < |effects| ==>
                  var kept := Kept(prev, cfg, effects[..i]);
                  effects[i].decision == Consume(kept, cfg, effects[i].now).0 <==> !Missed(kept, effects[i]))
            && (DecisionsOfEffects(effects) == KeyRun(prev, cfg, TimesOfEffects(effects)) <==> Timely(prev, cfg, effects))
            && (Timely(prev, cfg, effects) ==> Shows(FoldNext(prev, cfg, TimesOfEffects(effects)), s.Get(key), s.clock))
            && Ordered(TimesOfEffects(effects))
            && forall i, j :: 0 <= i < j < |effects| ==> effects[i].task < effects[j].task
  {
    hide EffectsOf, Exec, FoldNext, KeyRun, Kept, Consume, Missed, Timely, Counted;
    RunKeeps(cfg, init, clock, events);
    var s := Exec(cfg, Initial(init, clock), events);
    var prev, effects := InitialState(init, key), EffectsOf(s.history, key);
    assert KeyInv(cfg, init, s, key);
    RunIffTimely(prev, cfg, effects);
    forall i | 0 <= i < |effects|
      ensures var kept := Kept(prev, cfg, effects[..i]);
              effects[i].decision == Consume(kept, cfg, effects[i].now).0 <==> !Missed(kept, effects[i])
    {
      KeptIsCounted(prev, cfg, effects[..i]);
      DecisionIsAtomicIff(Kept(prev, cfg, effects[..i]), cfg, effects[i]);
    }
  }

  /** Callers waiting for a key, the one being served included. */
  function Backlog(s: System, key: Key): nat {
    if key in s.chainOf && s.chainOf[key] in s.chains then s.chains[s.chainOf[key]].pending else 0
  }

  /** At any moment of a run a caller joins the end of its key's queue exactly if fewer
      than 64 are waiting; otherwise nothing changes. */
  lemma ArrivalJoinsIff(cfg: Limits, init: map<Key, State>, clock: int, events: seq<Event>, key: Key)
    ensures var s := Exec(cfg, Initial(init, clock), events);
            var after := Step(cfg, s, Arrive(key));
            if Backlog(s, key) >= 64 then after == s
            else
              && key in after.chainOf && after.chainOf[key] in after.chains
              && Backlog(after, key) == Backlog(s, key) + 1
              && var queue := after.chains[after.chainOf[key]].queue;
                 queue == (if key in s.chainOf && s.chainOf[key] in s.chains then s.chains[s.chainOf[key]].queue else []) +
                          [Task(s.nextTask, false, Queued)]
  {
    hide Exec, HeadInv, KeyInv, Lined;
    RunKeeps(cfg, init, clock, events);
    var s := Exec(cfg, Initial(init, clock), events);
    assert MapInv(s, key) && ChainInv(cfg, init, s, s.nextChain);
  }

  /** A task holds the lock of its key between its read and its write. */
  predicate InCriticalSection(s: System, c: nat, i: nat) {
    c in s.chains && i < |s.chains[c].queue| && (s.chains[c].queue[i].phase.Reading? || s.chains[c].queue[i].phase.Writing?)
  }

  /** At most one task per key is between its read and its write. */
  ghost predicate Exclusive(s: System) {
    forall c: nat, i: nat, d: nat, j: nat :: InCriticalSection(s, c, i) && InCriticalSection(s, d, j) ==>
      s.chains[c].key == s.chains[d].key ==> c == d && i == j
  }

  /** After any run at most one task per key is between its read and its write,
      no chain exceeds the pending cap, and a key has a chain iff it is busy. */
  lemma MutualExclusion(cfg: Limits, init: map<Key, State>, clock: int, events: seq<Event>)
    ensures var s := Exec(cfg, Initial(init, clock), events);
            && Exclusive(s)
            && (forall c :: c in s.chains ==> s.chains[c].pending == |s.chains[c].queue| <= 64)
            && (forall key :: key in s.chainOf <==> exists c :: s.Active(c) && s.chains[c].key == key)
  {
    hide Exec, HeadInv, KeyInv;
    RunKeeps(cfg, init, clock, events);
    var s := Exec(cfg, Initial(init, clock), events);
    forall c: nat, i: nat, d: nat, j: nat | InCriticalSection(s, c, i) && InCriticalSection(s, d, j) && s.chains[c].key == s.chains[d].key
      ensures c == d && i == j
    {
      assert ChainInv(cfg, init, s, c) && ChainInv(cfg, init, s, d);
    }
    forall c | c in s.chains ensures s.chains[c].pending == |s.chains[c].queue| <= MAX_PENDING_PER_KEY {
      assert ChainInv(cfg, init, s, c);
    }
    forall key: Key ensures key in s.chainOf <==> exists c :: s.Active(c) && s.chains[c].key == key {
      assert MapInv(s, key);
      if c :| s.Active(c) && s.chains[c].key == key { assert ChainInv(cfg, init, s, c); }
    }
  }

  /** The task waits in some queue as aborted, or has left or settled, and it has
      had no effect. */
  ghost predicate Abandoned(s: System, task: nat) {
    && task < s.nextTask
    && (forall i :: 0 <= i < |s.history| ==> s.history[i].task != task)
    && (forall c, i :: c in s.chains && 0 <= i < |s.chains[c].queue| && s.chains[c].queue[i].id == task ==>
          var t := s.chains[c].queue[i];
          t.phase.Settled? || (t.phase.Queued? && t.aborted))
  }

  /** A step that touches no task but a head that is not abandoned. */
  lemma HeadAbandons(s: System, c: nat, phase: Phase, task: nat)
    requires Abandoned(s, task) && s.Active(c)
    requires s.Head(c).id == task ==> phase.Settled?
    ensures Abandoned(s.WithHead(c, phase), task)
  {}

  lemma StepAbandons(cfg: Limits, s: System, e: Event, task: nat)
    requires Abandoned(s, task)
    ensures Abandoned(Step(cfg, s, e), task)
  {
    hide Consume;
    match e {
      case Start(c) => if s.Active(c) && s.Head(c).phase.Queued? {
        HeadAbandons(s, c, if s.Head(c).aborted then Settled else Reading(s.clock), task);
      }
      case ReadFails(c) => if s.Active(c) { HeadAbandons(s, c, Settled, task); }
      case ReadReturns(c) => ReadAbandons(cfg, s, c, task);
      case WriteReturns(c) => WriteAbandons(s, c, true, task);
      case WriteFails(c, effective) =>
        WriteAbandons(s, c, false, task);
        if s.Active(c) { HeadAbandons(s, c, Settled, task); }
      case Release(c) => ReleaseAbandons(s, c, task);
      case Arrive(key) => EnqueueAbandons(s, key, task);
      case Tick(_) =>
      case Expire(_) =>
      case Abort(_, _) =>
    }
  }

  lemma ReadAbandons(cfg: Limits, s: System, c: nat, task: nat)
    requires Abandoned(s, task)
    ensures Abandoned(FinishRead(cfg, s, c), task)
  {
    hide Consume;
  }

  lemma WriteAbandons(s: System, c: nat, reported: bool, task: nat)
    requires Abandoned(s, task)
    ensures Abandoned(FinishWrite(s, c, reported), task)
  {}

  lemma ReleaseAbandons(s: System, c: nat, task: nat)
    requires Abandoned(s, task)
    ensures Abandoned(ReleaseHead(s, c), task)
  {}

  lemma EnqueueAbandons(s: System, key: Key, task: nat)
    requires Abandoned(s, task)
    ensures Abandoned(Enqueue(s, key), task)
  {}

  lemma {:induction false} StaysAbandoned(cfg: Limits, s: System, events: seq<Event>, task: nat)
    requires Abandoned(s, task)
    ensures Abandoned(Exec(cfg, s, events), task)
  {
    hide Step, Abandoned;
    if events != [] {
      StaysAbandoned(cfg, s, events[..|events| - 1], task);
      StepAbandons(cfg, Exec(cfg, s, events[..|events| - 1]), events[|events| - 1], task);
    }
  }

  function TaskAt(s: System, c: nat, i: nat): Option<Task> {
    if c in s.chains && i < |s.chains[c].queue| then Some(s.chains[c].queue[i]) else None
  }

  /** Task numbers are used once; a task with an effect has settled. */
  ghost predicate UniqueTasks(s: System) {
    && (forall c: nat, i: nat :: TaskAt(s, c, i).Some? ==> TaskAt(s, c, i).value.id < s.nextTask)
    && (forall k :: 0 <= k < |s.history| ==> s.history[k].task < s.nextTask)
    && (forall c: nat, i: nat, d: nat, j: nat :: TaskAt(s, c, i).Some? && TaskAt(s, d, j).Some? ==>
          TaskAt(s, c, i).value.id == TaskAt(s, d, j).value.id ==> c == d && i == j)
    && (forall c: nat, i: nat, k :: TaskAt(s, c, i).Some? && 0 <= k < |s.history| ==>
          s.history[k].task == TaskAt(s, c, i).value.id ==> TaskAt(s, c, i).value.phase.Settled?)
  }

  /** The tasks of `after` are those of `s` up to marks and phases that stay or settle. */
  lemma SameTasksUnique(s: System, after: System)
    requires UniqueTasks(s)
    requires after.nextTask == s.nextTask && after.history == s.history
    requires forall c: nat, i: nat :: TaskAt(after, c, i).Some? ==>
               && TaskAt(s, c, i).Some?
               && TaskAt(after, c, i).value.id == TaskAt(s, c, i).value.id
               && (TaskAt(s, c, i).value.phase.Settled? ==> TaskAt(after, c, i).value.phase.Settled?)
    ensures UniqueTasks(after)
  {}

  lemma EffectUnique(s: System, c: nat, store: map<Key, State>, e: Effect)
    requires UniqueTasks(s) && s.Active(c) && e.task == s.Head(c).id
    ensures UniqueTasks(s.WithHead(c, Settled).(store := store, history := s.history + [e]))
  {
    var settled := s.WithHead(c, Settled);
    assert TaskAt(s, c, 0).Some?;
    SameTasksUnique(s, settled);
    var after := settled.(store := store, history := s.history + [e]);
    assert forall d: nat, j: nat :: TaskAt(after, d, j) == TaskAt(settled, d, j);
  }

  lemma EnqueueUnique(s: System, key: Key)
    requires UniqueTasks(s)
    ensures UniqueTasks(Enqueue(s, key))
  {
    var after := Enqueue(s, key);
    if after != s {
      var c := after.chainOf[key];
      assert forall d: nat, j: nat :: TaskAt(after, d, j).Some? ==>
          TaskAt(after, d, j) == TaskAt(s, d, j) || (d == c && j == |after.chains[c].queue| - 1 && TaskAt(after, d, j).value.id == s.nextTask);
    }
  }

  function Shifted(c: nat, d: nat, j: nat): nat {
    if d == c then j + 1 else j
  }

  lemma ShiftUnique(s: System, after: System, c: nat)
    requires UniqueTasks(s)
    requires after.nextTask == s.nextTask && after.history == s.history
    requires forall d: nat, j: nat :: TaskAt(after, d, j) == TaskAt(s, d, Shifted(c, d, j))
    ensures UniqueTasks(after)
  {}

  lemma ReleaseUnique(s: System, c: nat)
    requires UniqueTasks(s)
    ensures UniqueTasks(ReleaseHead(s, c))
  {
    hide UniqueTasks;
    var after := ReleaseHead(s, c);
    if after != s {
      var queue := s.chains[c].queue;
      forall d: nat, j: nat ensures TaskAt(after, d, j) == TaskAt(s, d, Shifted(c, d, j)) {
        if d == c && j < |queue| - 1 { assert queue[1..][j] == queue[j + 1]; }
      }
      ShiftUnique(s, after, c);
    }
  }

  lemma StepUnique(cfg: Limits, s: System, e: Event)
    requires UniqueTasks(s)
    ensures UniqueTasks(Step(cfg, s, e))
  {
    hide UniqueTasks, Consume;
    match e {
      case Tick(_) => SameTasksUnique(s, Step(cfg, s, e));
      case Expire(_) => SameTasksUnique(s, Step(cfg, s, e));
      case Arrive(key) => EnqueueUnique(s, key);
      case Abort(c, i) => SameTasksUnique(s, Step(cfg, s, e));
      case Start(c) => SameTasksUnique(s, Step(cfg, s, e));
      case ReadReturns(c) => FinishReadUnique(cfg, s, c);
      case ReadFails(c) => SameTasksUnique(s, Step(cfg, s, e));
      case WriteReturns(c) => FinishWriteUnique(s, c, true);
      case WriteFails(c, effective) => if effective { FinishWriteUnique(s, c, false); } else { SameTasksUnique(s, Step(cfg, s, e)); }
      case Release(c) => ReleaseUnique(s, c);
    }
  }

  lemma FinishReadUnique(cfg: Limits, s: System, c: nat)
    requires UniqueTasks(s)
    ensures UniqueTasks(FinishRead(cfg, s, c))
  {
    hide UniqueTasks, Consume;
    if s.Active(c) && s.Head(c).phase.Reading? && Consume(s.Get(s.chains[c].key), cfg, s.Head(c).phase.now).1.None? {
      var decision := Consume(s.Get(s.chains[c].key), cfg, s.Head(c).phase.now).0;
      EffectUnique(s, c, s.store,
                   Effect(s.chains[c].key, s.Head(c).id, s.Head(c).phase.now, s.clock, s.Get(s.chains[c].key), decision, true));
    } else {
      SameTasksUnique(s, FinishRead(cfg, s, c));
    }
  }

  lemma FinishWriteUnique(s: System, c: nat, reported: bool)
    requires UniqueTasks(s)
    ensures UniqueTasks(FinishWrite(s, c, reported))
  {
    hide UniqueTasks;
    if s.Active(c) && s.Head(c).phase.Writing? {
      var key, phase := s.chains[c].key, s.Head(c).phase;
      EffectUnique(s, c, s.store[key := phase.state],
                   Effect(key, s.Head(c).id, phase.now, phase.readAt, phase.seen, phase.decision, reported));
    }
  }

  lemma {:induction false} RunUnique(cfg: Limits, init: map<Key, State>, clock: int, events: seq<Event>)
    ensures UniqueTasks(Exec(cfg, Initial(init, clock), events))
  {
    if events != [] {
      hide UniqueTasks, Step;
      RunUnique(cfg, init, clock, events[..|events| - 1]);
      StepUnique(cfg, Exec(cfg, Initial(init, clock), events[..|events| - 1]), events[|events| - 1]);
    }
  }

  /** A task aborted while it waits in the queue, at any point of any run, never
      touches the store, whatever happens next. */
  lemma AbortedHasNoEffect(cfg: Limits, init: map<Key, State>, clock: int, events: seq<Event>, later: seq<Event>, c: nat, i: nat)
    requires var t := TaskAt(Exec(cfg, Initial(init, clock), events), c, i);
             t.Some? && t.value.aborted && t.value.phase.Queued?
    ensures var s := Exec(cfg, Initial(init, clock), events);
            var after := Exec(cfg, s, later);
            forall k :: 0 <= k < |after.history| ==> after.history[k].task != TaskAt(s, c, i).value.id
  {
    hide Exec;
    var s := Exec(cfg, Initial(init, clock), events);
    RunUnique(cfg, init, clock, events);
    var task := TaskAt(s, c, i).value.id;
    assert Abandoned(s, task) by {
      forall d: nat, j: nat | TaskAt(s, d, j).Some? && TaskAt(s, d, j).value.id == task ensures d == c && j == i {}
      assert forall d, j :: d in s.chains && 0 <= j < |s.chains[d].queue| ==> TaskAt(s, d, j) == Some(s.chains[d].queue[j]);
    }
    StaysAbandoned(cfg, s, later, task);
  }

  /** Admissions among the effects at lock seconds lo..hi. */
  function AdmittedIn(effects: seq<Effect>, lo: int, hi: int): nat {
    AdmittedWithin(TimesOfEffects(effects), DecisionsOfEffects(effects), lo, hi)
  }

  /** Reads of tasks at lock seconds lo..hi that missed an open window. */
  function MissesIn(kept: Option<State>, cfg: Limits, effects: seq<Effect>, lo: int, hi: int): nat
    decreases |effects|
  {
    if effects == [] then 0
    else
      (if Missed(kept, effects[0]) && lo <= effects[0].now <= hi then 1 else 0) +
      MissesIn(Next(effects[0].seen, cfg, effects[0].now), cfg, effects[1..], lo, hi)
  }

  /** The rest of decided effects is decided from the state their first one leaves. */
  lemma DecidedRest(kept: Option<State>, cfg: Limits, effects: seq<Effect>)
    requires effects != [] && Decided(kept, cfg, effects) && InOrder(effects)
    ensures Decided(Next(effects[0].seen, cfg, effects[0].now), cfg, effects[1..]) && InOrder(effects[1..])
    ensures effects[0].now <= effects[0].readAt && Shows(kept, effects[0].seen, effects[0].readAt)
    ensures effects[0].decision == Consume(effects[0].seen, cfg, effects[0].now).0
    ensures forall i :: 0 <= i < |effects| - 1 ==> effects[0].now <= effects[1..][i].now
  {
    hide Consume, Next, Shows;
    var rest, next := effects[1..], Next(effects[0].seen, cfg, effects[0].now);
    assert effects[..0] == [];
    forall i | 0 <= i < |rest|
      ensures Kept(next, cfg, rest[..i]) == Kept(kept, cfg, effects[..i + 1])
    {
      if i > 0 { assert effects[..i + 1][i] == rest[..i][i - 1]; }
    }
  }

  lemma AdmittedStep(effects: seq<Effect>, lo: int, hi: int)
    requires effects != []
    ensures AdmittedIn(effects, lo, hi) ==
            (if effects[0].decision.allowed && lo <= effects[0].now <= hi then 1 else 0) + AdmittedIn(effects[1..], lo, hi)
  {
    assert TimesOfEffects(effects)[1..] == TimesOfEffects(effects[1..]);
    assert DecisionsOfEffects(effects)[1..] == DecisionsOfEffects(effects[1..]);
  }

  lemma {:induction false} NoneAdmittedAfter(effects: seq<Effect>, lo: int, hi: int)
    requires forall i :: 0 <= i < |effects| ==> effects[i].now > hi
    ensures AdmittedIn(effects, lo, hi) == 0
    decreases |effects|
  {
    if effects != [] {
      AdmittedStep(effects, lo, hi);
      NoneAdmittedAfter(effects[1..], lo, hi);
    }
  }

  /** The budget that misses add, one effect at a time. */
  lemma MissesStep(kept: Option<State>, cfg: Limits, effects: seq<Effect>, lo: int, hi: int)
    requires effects != [] && lo <= effects[0].now <= hi
    ensures MissesIn(kept, cfg, effects, lo, hi) * cfg.limit ==
            (if Missed(kept, effects[0]) then cfg.limit else 0) +
            MissesIn(Next(effects[0].seen, cfg, effects[0].now), cfg, effects[1..], lo, hi) * cfg.limit
  {
    hide Next, Missed;
  }

  /** What one effect does to an open window: it spends the budget, finds it spent,
      or, if its read missed the window, opens another. */
  lemma EffectInOpenWindow(kept: Option<State>, cfg: Limits, e: Effect)
    requires cfg.Valid() && Shows(kept, e.seen, e.readAt) && e.decision == Consume(e.seen, cfg, e.now).0
    requires kept.Some? && e.now < kept.value.resetUnixSeconds
    ensures var next := Next(e.seen, cfg, e.now);
            && next.Some?
            && if Missed(kept, e) then e.decision.allowed && next == Some(State(1, e.now + cfg.Width()))
               else
                 && next.value.resetUnixSeconds == kept.value.resetUnixSeconds
                 && (e.decision.allowed <==> kept.value.count < cfg.limit)
                 && next.value.count == kept.value.count + if e.decision.allowed then 1 else 0
  {
    CeilShift(e.now, cfg.windowSeconds);
  }

  /** Inside an open window at most the rest of its budget is admitted, and `limit`
      more for every read that misses a window. */
  lemma {:induction false} OpenWindowWithMisses(kept: Option<State>, cfg: Limits, effects: seq<Effect>, lo: int, hi: int)
    requires cfg.Valid() && Decided(kept, cfg, effects) && InOrder(effects)
    requires forall i :: 0 <= i < |effects| ==> lo <= effects[i].now
    requires kept.Some? && hi < kept.value.resetUnixSeconds && hi < lo + cfg.Width()
    ensures AdmittedIn(effects, lo, hi) <=
            Max(0, cfg.limit - kept.value.count) + MissesIn(kept, cfg, effects, lo, hi) * cfg.limit
    decreases |effects|
  {
    hide Decided, InOrder, AdmittedIn, MissesIn, Next, Missed, Consume, Shows;
    if effects == [] {
      NoneAdmittedAfter(effects, lo, hi);
    } else {
      var e := effects[0];
      DecidedRest(kept, cfg, effects);
      AdmittedStep(effects, lo, hi);
      if e.now > hi {
        NoneAdmittedAfter(effects[1..], lo, hi);
      } else {
        MissesStep(kept, cfg, effects, lo, hi);
        EffectInOpenWindow(kept, cfg, e);
        OpenWindowWithMisses(Next(e.seen, cfg, e.now), cfg, effects[1..], lo, hi);
      }
    }
  }

  /** As above, and one more window, when the span reaches past the open one. */
  lemma {:induction false} TwoWindowsWithMisses(kept: Option<State>, cfg: Limits, effects: seq<Effect>, lo: int, hi: int)
    requires cfg.Valid() && Decided(kept, cfg, effects) && InOrder(effects)
    requires forall i :: 0 <= i < |effects| ==> lo <= effects[i].now
    requires kept.Some? && hi < kept.value.resetUnixSeconds + cfg.Width() && hi <= lo + cfg.Width()
    ensures AdmittedIn(effects, lo, hi) <=
            cfg.limit + Max(0, cfg.limit - kept.value.count) + MissesIn(kept, cfg, effects, lo, hi) * cfg.limit
    decreases |effects|
  {
    hide Decided, InOrder, AdmittedIn, MissesIn;
    if effects == [] {
      NoneAdmittedAfter(effects, lo, hi);
    } else {
      var e := effects[0];
      DecidedRest(kept, cfg, effects);
      AdmittedStep(effects, lo, hi);
      WidthPositive(cfg);
      if e.now > hi {
        NoneAdmittedAfter(effects[1..], lo, hi);
      } else {
        MissesStep(kept, cfg, effects, lo, hi);
        if kept.value.resetUnixSeconds <= e.now {
          CeilShift(e.now, cfg.windowSeconds);
          OpenWindowWithMisses(Next(e.seen, cfg, e.now), cfg, effects[1..], e.now, hi);
          LaterStart(Next(e.seen, cfg, e.now), cfg, effects[1..], lo, e.now, hi);
        } else {
          EffectInOpenWindow(kept, cfg, e);
          TwoWindowsWithMisses(Next(e.seen, cfg, e.now), cfg, effects[1..], lo, hi);
        }
      }
    }
  }

  /** Where a span starts does not matter to effects after its start. */
  lemma {:induction false} LaterStart(kept: Option<State>, cfg: Limits, effects: seq<Effect>, lo: int, start: int, hi: int)
    requires lo <= start && forall i :: 0 <= i < |effects| ==> start <= effects[i].now
    ensures MissesIn(kept, cfg, effects, lo, hi) == MissesIn(kept, cfg, effects, start, hi)
    ensures AdmittedIn(effects, lo, hi) == AdmittedIn(effects, start, hi)
    decreases |effects|
  {
    if effects == [] {
      NoneAdmittedAfter(effects, lo, hi);
      NoneAdmittedAfter(effects, start, hi);
    } else {
      hide AdmittedIn, Next;
      AdmittedStep(effects, lo, hi);
      AdmittedStep(effects, start, hi);
      LaterStart(Next(effects[0].seen, cfg, effects[0].now), cfg, effects[1..], lo, start, hi);
    }
  }

  lemma {:induction false} SpanWithMisses(kept: Option<State>, cfg: Limits, effects: seq<Effect>, a: int)
    requires cfg.Valid() && Decided(kept, cfg, effects) && InOrder(effects)
    ensures AdmittedIn(effects, a, a + cfg.Width()) <=
            2 * cfg.limit + MissesIn(kept, cfg, effects, a, a + cfg.Width()) * cfg.limit
    decreases |effects|
  {
    hide Decided, InOrder, AdmittedIn;
    var hi := a + cfg.Width();
    if effects == [] {
      NoneAdmittedAfter(effects, a, hi);
    } else {
      var e := effects[0];
      var next := Next(e.seen, cfg, e.now);
      DecidedRest(kept, cfg, effects);
      AdmittedStep(effects, a, hi);
      CeilShift(e.now, cfg.windowSeconds);
      WidthPositive(cfg);
      if e.now < a {
        SpanWithMisses(next, cfg, effects[1..], a);
      } else if kept.Some? && kept.value.resetUnixSeconds > e.now {
        TwoWindowsWithMisses(kept, cfg, effects, a, hi);
      } else {
        TwoWindowsWithMisses(next, cfg, effects[1..], a, hi);
      }
    }
  }

  /** In any span of the window's width, for every run, at most 2 * limit effects of a
      key are admissions, and `limit` more for every read in the span that missed an
      open window; writes that failed after taking effect are counted. */
  lemma FallbackSpanBound(cfg: Limits, init: map<Key, State>, clock: int, events: seq<Event>, key: Key, a: int, hi: int)
    requires cfg.limit > 0 && cfg.windowSeconds > 0.0 && LastSecond(cfg, a, hi - 1)
    ensures var effects := EffectsOf(Exec(cfg, Initial(init, clock), events).history, key);
            AdmittedIn(effects, a, hi) <= (2 + MissesIn(InitialState(init, key), cfg, effects, a, hi)) * cfg.limit
  {
    hide EffectsOf, Exec, Kept, Decided, InOrder, AdmittedIn, MissesIn;
    RunKeeps(cfg, init, clock, events);
    LastSecondIs(cfg, a, hi - 1);
    var s := Exec(cfg, Initial(init, clock), events);
    assert KeyInv(cfg, init, s, key);
    SpanWithMisses(InitialState(init, key), cfg, EffectsOf(s.history, key), a);
  }

  // ---------------------------------------------------------------------
  // Undisturbed tasks
  // ---------------------------------------------------------------------

  /** An undisturbed head gets exactly the atomic decision at this second: the state
      is stored iff it is admitted, and its chain loses it and nothing else. */
  lemma HeadIsServed(cfg: Limits, s: System, c: nat)
    requires s.Active(c) && s.chains[c].pending > 0 && s.Head(c).phase.Queued? && !s.Head(c).aborted
    ensures var chain, after := s.chains[c], Exec(cfg, s, [Start(c), ReadReturns(c), WriteReturns(c), Release(c)]);
            var seen := s.Get(chain.key);
            var d := Consume(seen, cfg, s.clock).0;
            && after.history == s.history + [Effect(chain.key, s.Head(c).id, s.clock, s.clock, seen, d, true)]
            && after.store == (if d.allowed then s.store[chain.key := State(d.count, d.resetUnixSeconds)] else s.store)
            && after.chains == s.chains[c := Chain(chain.key, chain.pending - 1, chain.queue[1..])]
  {
    hide Consume, Exec, FinishRead, FinishWrite;
    ExecFour(cfg, s, [Start(c), ReadReturns(c), WriteReturns(c), Release(c)]);
    HeadReads(cfg, s.WithHead(c, Reading(s.clock)), c);
  }

  /** A head that reads now and writes at once settles with its decision. */
  lemma HeadReads(cfg: Limits, s: System, c: nat)
    requires s.Active(c) && s.Head(c).phase.Reading?
    ensures var key, now := s.chains[c].key, s.Head(c).phase.now;
            var d := Consume(s.Get(key), cfg, now).0;
            FinishWrite(FinishRead(cfg, s, c), c, true) ==
            s.WithHead(c, Settled).(
              store := if d.allowed then s.store[key := State(d.count, d.resetUnixSeconds)] else s.store,
              history := s.history + [Effect(key, s.Head(c).id, now, s.clock, s.Get(key), d, true)])
  {
    hide Consume;
    WriteIsState(s.Get(s.chains[c].key), cfg, s.Head(c).phase.now);
    var write := Consume(s.Get(s.chains[c].key), cfg, s.Head(c).phase.now).1;
    if write.Some? {
      var d := Consume(s.Get(s.chains[c].key), cfg, s.Head(c).phase.now).0;
      HeadTwice(s, c, Writing(s.Head(c).phase.now, s.clock, s.Get(s.chains[c].key), write.value, d), Settled);
    }
  }

  lemma HeadTwice(s: System, c: nat, first: Phase, second: Phase)
    requires s.Active(c)
    ensures s.WithHead(c, first).Active(c) && s.WithHead(c, first).WithHead(c, second) == s.WithHead(c, second)
  {
    var a, b := s.WithHead(c, first).WithHead(c, second), s.WithHead(c, second);
    assert a.chains[c].queue == b.chains[c].queue;
    assert a.chains == b.chains;
  }

  lemma ExecFour(cfg: Limits, s: System, events: seq<Event>)
    requires |events| == 4
    ensures Exec(cfg, s, events) == Step(cfg, Step(cfg, Step(cfg, Step(cfg, s, events[0]), events[1]), events[2]), events[3])
  {
    hide Step;
    assert events[..3][..2] == events[..2] && events[..2][..1] == events[..1] && events[..1][..0] == [];
    assert Exec(cfg, s, events[..1]) == Step(cfg, s, events[0]);
    assert Exec(cfg, s, events[..2]) == Step(cfg, Exec(cfg, s, events[..1]), events[1]);
    assert Exec(cfg, s, events[..3]) == Step(cfg, Exec(cfg, s, events[..2]), events[2]);
  }

  lemma WriteIsState(seen: Option<State>, cfg: Limits, now: int)
    ensures var (d, write) := Consume(seen, cfg, now);
            write == if d.allowed then Some(State(d.count, d.resetUnixSeconds)) else None
  {}

  /** An abort marks its task and nothing else. */
  lemma AbortMarks(cfg: Limits, s: System, c: nat, i: nat, d: nat, j: nat)
    requires TaskAt(s, c, i).Some?
    ensures var after := Step(cfg, s, Abort(c, i));
            && TaskAt(after, c, i) == Some(TaskAt(s, c, i).value.(aborted := true))
            && ((d, j) != (c, i) ==> TaskAt(after, d, j) == TaskAt(s, d, j))
            && after.store == s.store && after.history == s.history && after.chainOf == s.chainOf
  {}

  /** A write that fails leaves the store as it was, or took effect and charges the key
      without a report; either way its chain goes on. */
  lemma WriteIsDropped(cfg: Limits, s: System, c: nat, effective: bool)
    requires s.Active(c) && s.chains[c].pending > 0 && s.Head(c).phase.Writing?
    ensures var chain, head, after := s.chains[c], s.Head(c), Exec(cfg, s, [WriteFails(c, effective), Release(c)]);
            && after.chains == s.chains[c := Chain(chain.key, chain.pending - 1, chain.queue[1..])]
            && if effective then
                 && after.store == s.store[chain.key := head.phase.state]
                 && after.history == s.history + [Effect(chain.key, head.id, head.phase.now, head.phase.readAt, head.phase.seen,
                                                         head.phase.decision, false)]
               else after.store == s.store && after.history == s.history
  {
    var events := [WriteFails(c, effective), Release(c)];
    assert events[..1][..0] == [] && events[..2] == events;
    assert Exec(cfg, s, events[..1]) == Step(cfg, s, events[0]);
  }

  /** A head whose read fails, or that was aborted before it started, leaves the store
      and the history as they were. */
  lemma HeadIsDropped(cfg: Limits, s: System, c: nat)
    requires s.Active(c) && s.chains[c].pending > 0 && s.Head(c).phase.Queued?
    ensures var chain, after := s.chains[c], Exec(cfg, s, [Start(c), ReadFails(c), Release(c)]);
            && after.history == s.history && after.store == s.store
            && after.chains == s.chains[c := Chain(chain.key, chain.pending - 1, chain.queue[1..])]
    ensures s.Head(c).aborted ==> Exec(cfg, s, [Start(c), Release(c)]) == Exec(cfg, s, [Start(c), ReadFails(c), Release(c)])
  {
    var events, short := [Start(c), ReadFails(c), Release(c)], [Start(c), Release(c)];
    assert events[..2][..1] == events[..1] == short[..1] && events[..1][..0] == [] && events[..3] == events;
    var s1 := StartHead(s, c);
    assert Exec(cfg, s, events[..1]) == s1;
    var s2 := FailRead(s1, c);
    assert Exec(cfg, s, events[..2]) == s2;
  }
}
