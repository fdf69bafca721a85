/**
 The stored count of the read/write fallback against the admissions it reported:
 exactly when the count of a window covers them at every moment of a run.
 */
module RateLimitCounts {
  import opened Common
  import opened RateLimit
  import opened RateLimitQueue

  // ---------------------------------------------------------------------
  // One effect
  // ---------------------------------------------------------------------

  /** Requests admitted and reported as such, for one window. */
  function ReportedIn(effects: seq<Effect>, reset: int): nat {
    if effects == [] then 0
    else
      var e := effects[|effects| - 1];
      ReportedIn(effects[..|effects| - 1], reset) +
      (if e.reported && e.decision.allowed && e.decision.resetUnixSeconds == reset then 1 else 0)
  }

  /** The count of a window covers the admissions that were reported for it. */
  predicate Covers(kept: Option<State>, effects: seq<Effect>) {
    kept.Some? ==> ReportedIn(effects, kept.value.resetUnixSeconds) <= kept.value.count
  }

  /** The window ends within one width of `now`, as every window opened by then does. */
  predicate Near(cfg: Limits, kept: Option<State>, now: int) {
    kept.Some? ==> kept.value.resetUnixSeconds <= now + cfg.Width()
  }

  /** No admission belongs to a later window than the kept one. */
  ghost predicate Newest(kept: Option<State>, effects: seq<Effect>) {
    forall i :: 0 <= i < |effects| && effects[i].decision.allowed ==>
      kept.Some? && effects[i].decision.resetUnixSeconds <= kept.value.resetUnixSeconds
  }

  /** The read of `e` missed an open window, and the window opened instead ends at the
      same second. */
  predicate Reopens(kept: Option<State>, cfg: Limits, e: Effect) {
    Missed(kept, e) && kept.value.resetUnixSeconds == e.now + cfg.Width()
  }

  /** `e` starts the count of a reported window again, at one. */
  predicate Forgets(kept: Option<State>, cfg: Limits, before: seq<Effect>, e: Effect) {
    Reopens(kept, cfg, e) &&
    ReportedIn(before, kept.value.resetUnixSeconds) + (if e.reported then 1 else 0) > 1
  }

  ghost predicate NoneForgets(prev: Option<State>, cfg: Limits, effects: seq<Effect>) {
    forall i :: 0 <= i < |effects| ==> !Forgets(Kept(prev, cfg, effects[..i]), cfg, effects[..i], effects[i])
  }

  lemma ForgetsSplit(prev: Option<State>, cfg: Limits, effects: seq<Effect>)
    requires effects != []
    ensures var n := |effects| - 1;
            NoneForgets(prev, cfg, effects) <==>
            NoneForgets(prev, cfg, effects[..n]) && !Forgets(Kept(prev, cfg, effects[..n]), cfg, effects[..n], effects[n])
  {
    hide Kept, Forgets;
    var n := |effects| - 1;
    assert forall i :: 0 <= i < n ==> effects[..n][..i] == effects[..i] && effects[..n][i] == effects[i];
  }

  lemma ReportedAppend(before: seq<Effect>, e: Effect, reset: int)
    ensures ReportedIn(before + [e], reset) ==
            ReportedIn(before, reset) + (if e.reported && e.decision.allowed && e.decision.resetUnixSeconds == reset then 1 else 0)
  {
    assert (before + [e])[..|before|] == before;
  }

  lemma {:induction false} NoneReported(effects: seq<Effect>, reset: int)
    requires forall i :: 0 <= i < |effects| && effects[i].decision.allowed ==> effects[i].decision.resetUnixSeconds < reset
    ensures ReportedIn(effects, reset) == 0
  {
    if effects != [] { NoneReported(effects[..|effects| - 1], reset); }
  }

  /** What one effect leaves: the window it found open, with one more request if it was
      admitted, or a new one. */
  lemma EffectLeaves(kept: Option<State>, cfg: Limits, e: Effect)
    requires cfg.Valid() && Shows(kept, e.seen, e.readAt) && e.decision == Consume(e.seen, cfg, e.now).0
    ensures var next := Next(e.seen, cfg, e.now);
            && next.Some?
            && (e.decision.allowed ==> e.decision.resetUnixSeconds == next.value.resetUnixSeconds)
            && if kept.Some? && kept.value.resetUnixSeconds > e.now && !Missed(kept, e) then
                 && next.value.resetUnixSeconds == kept.value.resetUnixSeconds
                 && next.value.count == kept.value.count + if e.decision.allowed then 1 else 0
               else e.decision.allowed && next == Some(State(1, e.now + cfg.Width()))
  {
    CeilShift(e.now, cfg.windowSeconds);
  }

  /** An effect leaves a count that covers its window exactly if it does not forget. */
  lemma CoversStep(kept: Option<State>, cfg: Limits, before: seq<Effect>, e: Effect)
    requires cfg.Valid() && Shows(kept, e.seen, e.readAt) && e.decision == Consume(e.seen, cfg, e.now).0
    requires Newest(kept, before) && Near(cfg, kept, e.now)
    ensures Newest(Next(e.seen, cfg, e.now), before + [e]) && Near(cfg, Next(e.seen, cfg, e.now), e.now)
    ensures Covers(kept, before) ==> (Covers(Next(e.seen, cfg, e.now), before + [e]) <==> !Forgets(kept, cfg, before, e))
  {
    hide Consume, Next, ReportedIn;
    EffectLeaves(kept, cfg, e);
    WidthPositive(cfg);
    var reset := Next(e.seen, cfg, e.now).value.resetUnixSeconds;
    ReportedAppend(before, e, reset);
    if kept.None? || kept.value.resetUnixSeconds < reset { NoneReported(before, reset); }
  }

  /** In the effects of a key no admission belongs to a later window than the kept one,
      which ends within one width of any second from the last lock on. */
  lemma {:induction false} KeptIsNewest(prev: Option<State>, cfg: Limits, effects: seq<Effect>, start: int, now: int)
    requires cfg.Valid() && Decided(prev, cfg, effects) && Near(cfg, prev, start) && start <= now
    requires InOrder(effects) && forall i :: 0 <= i < |effects| ==> start <= effects[i].now <= now
    ensures Newest(Kept(prev, cfg, effects), effects) && Near(cfg, Kept(prev, cfg, effects), now)
  {
    hide Consume, Next, Kept, Shows;
    if effects == [] {
      NoEffects(prev, cfg);
    } else {
      var n := |effects| - 1;
      var before, e := effects[..n], effects[n];
      DecidedPrefix(prev, cfg, effects, n);
      KeptIsNewest(prev, cfg, before, start, e.now);
      KeptLast(prev, cfg, effects);
      CoversStep(Kept(prev, cfg, before), cfg, before, e);
      assert effects == before + [e];
    }
  }

  // ---------------------------------------------------------------------
  // No lock is older than the run
  // ---------------------------------------------------------------------

  /** The second a task took the lock, if it has. */
  function LockOf(t: Task): Option<int> {
    match t.phase
    case Reading(now) => Some(now)
    case Writing(now, _, _, _, _) => Some(now)
    case _ => None
  }

  ghost predicate Since(s: System, start: int) {
    && start <= s.clock
    && (forall k :: 0 <= k < |s.history| ==> start <= s.history[k].now)
    && (forall c, i :: c in s.chains && 0 <= i < |s.chains[c].queue| && LockOf(s.chains[c].queue[i]).Some? ==>
          start <= LockOf(s.chains[c].queue[i]).value)
  }

  lemma HeadSince(s: System, c: nat, phase: Phase, start: int)
    requires Since(s, start) && s.Active(c)
    requires LockOf(s.Head(c).(phase := phase)).Some? ==> start <= LockOf(s.Head(c).(phase := phase)).value
    ensures Since(s.WithHead(c, phase), start)
  {}

  lemma StepSince(cfg: Limits, s: System, e: Event, start: int)
    requires Since(s, start)
    ensures Since(Step(cfg, s, e), start)
  {
    hide Consume;
    match e {
      case Start(c) => if s.Active(c) && s.Head(c).phase.Queued? {
        HeadSince(s, c, if s.Head(c).aborted then Settled else Reading(s.clock), start);
      }
      case ReadFails(c) => if s.Active(c) { HeadSince(s, c, Settled, start); }
      case ReadReturns(c) => ReadSince(cfg, s, c, start);
      case WriteReturns(c) => WriteSince(s, c, true, start);
      case WriteFails(c, effective) =>
        WriteSince(s, c, false, start);
        if s.Active(c) { HeadSince(s, c, Settled, start); }
      case Release(c) => ReleaseSince(s, c, start);
      case Arrive(key) => EnqueueSince(s, key, start);
      case Tick(_) =>
      case Expire(_) =>
      case Abort(_, _) =>
    }
  }

  lemma ReadSince(cfg: Limits, s: System, c: nat, start: int)
    requires Since(s, start)
    ensures Since(FinishRead(cfg, s, c), start)
  {
    hide Consume;
  }

  lemma WriteSince(s: System, c: nat, reported: bool, start: int)
    requires Since(s, start)
    ensures Since(FinishWrite(s, c, reported), start)
  {}

  lemma ReleaseSince(s: System, c: nat, start: int)
    requires Since(s, start)
    ensures Since(ReleaseHead(s, c), start)
  {}

  lemma EnqueueSince(s: System, key: Key, start: int)
    requires Since(s, start)
    ensures Since(Enqueue(s, key), start)
  {}

  lemma {:induction false} RunSince(cfg: Limits, init: map<Key, State>, clock: int, events: seq<Event>)
    ensures Since(Exec(cfg, Initial(init, clock), events), clock)
  {
    if events != [] {
      hide Since, Step;
      RunSince(cfg, init, clock, events[..|events| - 1]);
      StepSince(cfg, Exec(cfg, Initial(init, clock), events[..|events| - 1]), events[|events| - 1], clock);
    }
  }

  // ---------------------------------------------------------------------
  // The stored count at every moment of a run
  // ---------------------------------------------------------------------

  lemma EffectsSince(s: System, key: Key, start: int)
    requires Since(s, start)
    ensures forall i :: 0 <= i < |EffectsOf(s.history, key)| ==> start <= EffectsOf(s.history, key)[i].now
  {
    var effects := EffectsOf(s.history, key);
    forall i | 0 <= i < |effects| ensures start <= effects[i].now {
      assert effects[i] in effects;
      FilterMember(s.history, (e: Effect) => e.key == key, effects[i]);
    }
  }

  /** A step leaves the effects of a key and at most drops its window, or adds one effect
      and the store then holds the state written last. */
  lemma StepOnKey(cfg: Limits, init: map<Key, State>, s: System, e: Event, key: Key)
    requires Inv(cfg, init, s)
    ensures var after := Step(cfg, s, e);
            var effects, effects' := EffectsOf(s.history, key), EffectsOf(after.history, key);
            || (effects' == effects && (after.Get(key) == s.Get(key) || after.Get(key) == None))
            || (|effects'| == |effects| + 1 && effects'[..|effects|] == effects &&
                after.Get(key) == Kept(InitialState(init, key), cfg, effects'))
  {
    hide EffectsOf, Consume, Kept, KeyInv, Lined, Before;
    match e {
      case ReadReturns(c) =>
        if s.Active(c) && s.Head(c).phase.Reading? { ReadOnKey(cfg, init, s, c, key); }
      case WriteReturns(c) => WriteOnKey(cfg, init, s, c, true, key);
      case WriteFails(c, effective) => if effective { WriteOnKey(cfg, init, s, c, false, key); }
      case _ =>
    }
  }

  lemma ReadOnKey(cfg: Limits, init: map<Key, State>, s: System, c: nat, key: Key)
    requires s.Active(c) && s.Head(c).phase.Reading?
    ensures var after := FinishRead(cfg, s, c);
            var effects, effects' := EffectsOf(s.history, key), EffectsOf(after.history, key);
            after.Get(key) == s.Get(key) &&
            (effects' == effects ||
             (|effects'| == |effects| + 1 && effects'[..|effects|] == effects &&
              after.Get(key) == Kept(InitialState(init, key), cfg, effects')))
  {
    hide EffectsOf;
    var own, now := s.chains[c].key, s.Head(c).phase.now;
    var (decision, write) := Consume(s.Get(own), cfg, now);
    if write.None? {
      EffectsAppend(s.history, Effect(own, s.Head(c).id, now, s.clock, s.Get(own), decision, true), key);
    }
  }

  lemma WriteOnKey(cfg: Limits, init: map<Key, State>, s: System, c: nat, reported: bool, key: Key)
    requires Inv(cfg, init, s)
    ensures var after := FinishWrite(s, c, reported);
            var effects, effects' := EffectsOf(s.history, key), EffectsOf(after.history, key);
            || (effects' == effects && after.Get(key) == s.Get(key))
            || (|effects'| == |effects| + 1 && effects'[..|effects|] == effects &&
                after.Get(key) == Kept(InitialState(init, key), cfg, effects'))
  {
    hide EffectsOf, KeyInv, Lined, Before;
    if s.Active(c) && s.Head(c).phase.Writing? {
      assert ChainInv(cfg, init, s, c);
      var own, phase := s.chains[c].key, s.Head(c).phase;
      EffectsAppend(s.history, Effect(own, s.Head(c).id, phase.now, phase.readAt, phase.seen, phase.decision, reported), key);
    }
  }

  /** The stored count of a key covers the admissions reported for the stored window. */
  predicate StoreCovers(s: System, key: Key) {
    Covers(s.Get(key), EffectsOf(s.history, key))
  }

  ghost predicate AlwaysCovers(cfg: Limits, s: System, events: seq<Event>, key: Key) {
    forall n :: 0 <= n <= |events| ==> StoreCovers(Exec(cfg, s, events[..n]), key)
  }

  lemma AlwaysSplit(cfg: Limits, s: System, events: seq<Event>, key: Key)
    requires events != []
    ensures AlwaysCovers(cfg, s, events, key) <==>
            AlwaysCovers(cfg, s, events[..|events| - 1], key) && StoreCovers(Exec(cfg, s, events), key)
  {
    hide Exec, StoreCovers;
    var n := |events| - 1;
    assert forall i :: 0 <= i <= n ==> events[..n][..i] == events[..i];
    assert events[..n + 1] == events;
  }

  lemma NeverMoved(cfg: Limits, s: System, key: Key)
    requires EffectsOf(s.history, key) == []
    ensures AlwaysCovers(cfg, s, [], key) && NoneForgets(s.Get(key), cfg, []) && Covers(s.Get(key), [])
  {
    assert forall events: seq<Event> :: |events| == 0 ==> Exec(cfg, s, events) == s;
  }

  /** At every moment of a run the stored count of a key covers the admissions reported
      for the stored window, even if writes fail after taking effect, exactly if no
      effect forgets: none re-opens, at its own second of reset, a window that has
      been reported for. A window stored before the run ends within one width of its start. */
  lemma {:induction false} AdmittedNeverExceedStored(cfg: Limits, init: map<Key, State>, clock: int, events: seq<Event>, key: Key)
    requires cfg.limit > 0 && cfg.windowSeconds > 0.0 && Near(cfg, InitialState(init, key), clock)
    ensures var prev, effects := InitialState(init, key), EffectsOf(Exec(cfg, Initial(init, clock), events).history, key);
            && (AlwaysCovers(cfg, Initial(init, clock), events, key) <==> NoneForgets(prev, cfg, effects))
            && (NoneForgets(prev, cfg, effects) ==> Covers(Kept(prev, cfg, effects), effects))
  {
    if events == [] {
      NeverMoved(cfg, Initial(init, clock), key);
    } else {
      hide *;
      var start, n, prev := Initial(init, clock), |events| - 1, InitialState(init, key);
      AdmittedNeverExceedStored(cfg, init, clock, events[..n], key);
      AlwaysSplit(cfg, start, events, key);
      AlwaysLast(cfg, start, events[..n], key);
      RunStep(cfg, init, clock, events, key);
      var before := EffectsOf(Exec(cfg, start, events[..n]).history, key);
      var effects := EffectsOf(Exec(cfg, start, events).history, key);
      if effects != before {
        LastEffect(cfg, init, clock, events, key);
        assert effects[..|effects| - 1] == before;
      }
    }
  }

  /** What the last event of a run does to a key. */
  lemma RunStep(cfg: Limits, init: map<Key, State>, clock: int, events: seq<Event>, key: Key)
    requires events != []
    ensures var s, after := Exec(cfg, Initial(init, clock), events[..|events| - 1]), Exec(cfg, Initial(init, clock), events);
            var effects, effects' := EffectsOf(s.history, key), EffectsOf(after.history, key);
            if effects' == effects then StoreCovers(s, key) ==> StoreCovers(after, key)
            else
              && |effects'| == |effects| + 1 && effects'[..|effects|] == effects
              && (StoreCovers(after, key) <==> Covers(Kept(InitialState(init, key), cfg, effects'), effects'))
  {
    hide EffectsOf, Kept, Step, Inv, ReportedIn;
    var n := |events| - 1;
    RunKeeps(cfg, init, clock, events[..n]);
    StepOnKey(cfg, init, Exec(cfg, Initial(init, clock), events[..n]), events[n], key);
  }

  lemma AlwaysLast(cfg: Limits, s: System, events: seq<Event>, key: Key)
    ensures AlwaysCovers(cfg, s, events, key) ==> StoreCovers(Exec(cfg, s, events), key)
  {
    assert events[..|events|] == events;
  }

  /** The effect a run added last, against the state written before it. */
  lemma LastEffect(cfg: Limits, init: map<Key, State>, clock: int, events: seq<Event>, key: Key)
    requires cfg.Valid() && Near(cfg, InitialState(init, key), clock)
    requires EffectsOf(Exec(cfg, Initial(init, clock), events).history, key) != []
    ensures var prev, effects := InitialState(init, key), EffectsOf(Exec(cfg, Initial(init, clock), events).history, key);
            var n := |effects| - 1;
            && (NoneForgets(prev, cfg, effects) <==>
                NoneForgets(prev, cfg, effects[..n]) && !Forgets(Kept(prev, cfg, effects[..n]), cfg, effects[..n], effects[n]))
            && (Covers(Kept(prev, cfg, effects[..n]), effects[..n]) ==>
                  (Covers(Kept(prev, cfg, effects), effects) <==>
                   !Forgets(Kept(prev, cfg, effects[..n]), cfg, effects[..n], effects[n])))
  {
    hide EffectsOf, Exec, Kept, Since, NoneForgets, Covers, Near, Forgets, Next, Consume, Newest, Shows;
    var prev, s := InitialState(init, key), Exec(cfg, Initial(init, clock), events);
    var effects := EffectsOf(s.history, key);
    var n := |effects| - 1;
    RunKeeps(cfg, init, clock, events);
    assert KeyInv(cfg, init, s, key);
    RunSince(cfg, init, clock, events);
    EffectsSince(s, key, clock);
    ForgetsSplit(prev, cfg, effects);
    DecidedPrefix(prev, cfg, effects, n);
    KeptIsNewest(prev, cfg, effects[..n], clock, effects[n].now);
    KeptLast(prev, cfg, effects);
    CoversStep(Kept(prev, cfg, effects[..n]), cfg, effects[..n], effects[n]);
    assert effects == effects[..n] + [effects[n]];
  }
}
