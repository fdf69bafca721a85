/**
 A run of the read/write fallback in which a read misses an open window, so that
 the decisions are not those of the atomic `Consume`.
 */
module RateLimitMisses {
  import opened Common
  import opened RateLimit
  import opened RateLimitQueue
  import opened RateLimitCounts

  lemma {:induction false} ExecAppend(cfg: Limits, s: System, first: seq<Event>, more: seq<Event>)
    ensures Exec(cfg, s, first + more) == Exec(cfg, Exec(cfg, s, first), more)
  {
    hide Step;
    if more == [] {
      assert first + more == first;
    } else {
      var n := |more| - 1;
      assert (first + more)[..|first + more| - 1] == first + more[..n];
      ExecAppend(cfg, s, first, more[..n]);
    }
  }

  lemma ExecNext(cfg: Limits, s: System, events: seq<Event>)
    requires events != []
    ensures Exec(cfg, s, events) == Exec(cfg, Step(cfg, s, events[0]), events[1..])
  {
    hide Step;
    assert events == [events[0]] + events[1..];
    ExecAppend(cfg, s, [events[0]], events[1..]);
    assert [events[0]][..0] == [];
  }

  /** The head task of chain 0 takes the lock, and its read is answered `wait` seconds
      later, when the store has dropped a window that closed meanwhile. */
  function Served(wait: nat): seq<Event> {
    [Start(0), Tick(wait), Expire("k"), ReadReturns(0), WriteReturns(0), Release(0)]
  }

  function Waiting(first: nat, queued: nat): seq<Task> {
    seq(queued, i requires 0 <= i < queued => Task(first + i, false, Queued))
  }

  function StoreOf(window: Option<State>): map<Key, State> {
    if window.Some? then map["k" := window.value] else map[]
  }

  /** A system with one key and one chain, with its head task in some phase. */
  function OneKey(window: Option<State>, clock: int, first: nat, queued: nat, phase: Phase, history: seq<Effect>): System
    requires queued > 0
  {
    System(StoreOf(window), clock, map["k" := 0],
           map[0 := Chain("k", queued, [Task(first, false, phase)] + Waiting(first + 1, queued - 1))],
           first + queued, 1, history)
  }

  lemma HeadMoves(window: Option<State>, clock: int, first: nat, queued: nat, phase: Phase, history: seq<Effect>, next: Phase)
    requires queued > 0
    ensures OneKey(window, clock, first, queued, phase, history).WithHead(0, next) ==
            OneKey(window, clock, first, queued, next, history)
  {
    var rest := Waiting(first + 1, queued - 1);
    assert ([Task(first, false, phase)] + rest)[0 := Task(first, false, next)] == [Task(first, false, next)] + rest;
    var chains := OneKey(window, clock, first, queued, phase, history).WithHead(0, next).chains;
    assert chains == OneKey(window, clock, first, queued, next, history).chains;
  }

  lemma ReadsAfter(cfg: Limits, window: Option<State>, clock: int, first: nat, queued: nat, history: seq<Effect>, wait: nat)
    requires queued > 0
    ensures var s := OneKey(window, clock, first, queued, Queued, history);
            Step(cfg, Step(cfg, Step(cfg, s, Start(0)), Tick(wait)), Expire("k")) ==
            OneKey(Live(window, clock + wait), clock + wait, first, queued, Reading(clock), history)
  {
    var s := OneKey(window, clock, first, queued, Queued, history);
    HeadMoves(window, clock, first, queued, Queued, history, Reading(clock));
    assert StoreOf(window) - {"k"} == StoreOf(None);
  }

  lemma WritesBack(cfg: Limits, seen: Option<State>, lock: int, clock: int, first: nat, queued: nat, history: seq<Effect>)
    requires queued > 0 && Consume(seen, cfg, lock).1.Some?
    ensures var (decision, write) := Consume(seen, cfg, lock);
            Step(cfg, Step(cfg, OneKey(seen, clock, first, queued, Reading(lock), history), ReadReturns(0)), WriteReturns(0)) ==
            OneKey(write, clock, first, queued, Settled, history + [Effect("k", first, lock, clock, seen, decision, true)])
  {
    hide Consume;
    var (decision, write) := Consume(seen, cfg, lock);
    var s := OneKey(seen, clock, first, queued, Reading(lock), history);
    assert s.Get("k") == seen;
    var writing := Writing(lock, clock, seen, write.value, decision);
    HeadMoves(seen, clock, first, queued, Reading(lock), history, writing);
    HeadMoves(seen, clock, first, queued, writing, history, Settled);
    assert StoreOf(seen)["k" := write.value] == StoreOf(write);
  }

  lemma Leaves(cfg: Limits, window: Option<State>, clock: int, first: nat, queued: nat, history: seq<Effect>)
    requires queued > 1
    ensures Step(cfg, OneKey(window, clock, first, queued, Settled, history), Release(0)) ==
            OneKey(window, clock, first + 1, queued - 1, Queued, history)
  {
    var s := OneKey(window, clock, first, queued, Settled, history);
    assert s.chains[0].queue[1..] == [Task(first + 1, false, Queued)] + Waiting(first + 2, queued - 2);
    assert Step(cfg, s, Release(0)).chains == OneKey(window, clock, first + 1, queued - 1, Queued, history).chains;
  }

  lemma ServedOnce(cfg: Limits, window: Option<State>, clock: int, first: nat, queued: nat, history: seq<Effect>, wait: nat)
    requires queued > 1
    requires Consume(Live(window, clock + wait), cfg, clock).1.Some?
    ensures var seen := Live(window, clock + wait);
            var (decision, write) := Consume(seen, cfg, clock);
            Exec(cfg, OneKey(window, clock, first, queued, Queued, history), Served(wait)) ==
            OneKey(write, clock + wait, first + 1, queued - 1, Queued,
                   history + [Effect("k", first, clock, clock + wait, seen, decision, true)])
  {
    hide Consume, Step, OneKey, Live;
    var s := OneKey(window, clock, first, queued, Queued, history);
    var events := Served(wait);
    var seen := Live(window, clock + wait);
    ReadsAfter(cfg, window, clock, first, queued, history, wait);
    WritesBack(cfg, seen, clock, clock + wait, first, queued, history);
    Leaves(cfg, Consume(seen, cfg, clock).1, clock + wait, first, queued,
           history + [Effect("k", first, clock, clock + wait, seen, Consume(seen, cfg, clock).0, true)]);
    ExecSix(cfg, s, events);
  }

  lemma ExecSix(cfg: Limits, s: System, events: seq<Event>)
    requires |events| == 6
    ensures Exec(cfg, s, events) ==
            Step(cfg, Step(cfg, Step(cfg, Step(cfg, Step(cfg, Step(cfg, s, events[0]), events[1]), events[2]), events[3]), events[4]), events[5])
  {
    hide Step;
    ExecNext(cfg, s, events);
    var s1 := Step(cfg, s, events[0]);
    ExecNext(cfg, s1, events[1..]);
    var s2 := Step(cfg, s1, events[1]);
    ExecNext(cfg, s2, events[2..]);
    var s3 := Step(cfg, s2, events[2]);
    ExecNext(cfg, s3, events[3..]);
    var s4 := Step(cfg, s3, events[3]);
    ExecNext(cfg, s4, events[4..]);
    var s5 := Step(cfg, s4, events[4]);
    ExecNext(cfg, s5, events[5..]);
  }

  lemma Joins(cfg: Limits, window: Option<State>, clock: int, first: nat, queued: nat, history: seq<Effect>)
    requires 0 < queued < MAX_PENDING_PER_KEY
    ensures Step(cfg, OneKey(window, clock, first, queued, Queued, history), Arrive("k")) ==
            OneKey(window, clock, first, queued + 1, Queued, history)
  {
    assert Waiting(first + 1, queued - 1) + [Task(first + queued, false, Queued)] == Waiting(first + 1, queued);
    var s, after := OneKey(window, clock, first, queued, Queued, history), OneKey(window, clock, first, queued + 1, Queued, history);
    assert s.chains[0].queue + [Task(first + queued, false, Queued)] == after.chains[0].queue;
    assert Step(cfg, s, Arrive("k")).chains == after.chains;
    assert Step(cfg, s, Arrive("k")).chainOf == after.chainOf;
  }

  lemma JoinsFirst(cfg: Limits, clock: int)
    ensures Step(cfg, Initial(map[], clock), Arrive("k")) == OneKey(None, clock, 0, 1, Queued, [])
  {
    assert [] + [Task(0, false, Queued)] == [Task(0, false, Queued)] + Waiting(1, 0);
  }

  lemma {:induction false} Arrivals(cfg: Limits, clock: int, queued: nat)
    requires 0 < queued <= MAX_PENDING_PER_KEY
    ensures Exec(cfg, Initial(map[], clock), seq(queued, _ => Arrive("k"))) == OneKey(None, clock, 0, queued, Queued, [])
  {
    hide Step, OneKey, Initial;
    var events: seq<Event> := seq(queued, _ => Arrive("k"));
    if queued == 1 {
      ExecNext(cfg, Initial(map[], clock), events);
      JoinsFirst(cfg, clock);
    } else {
      Arrivals(cfg, clock, queued - 1);
      assert events[..queued - 1] == seq(queued - 1, _ => Arrive("k"));
      Joins(cfg, None, clock, 0, queued - 1, []);
    }
  }

  lemma Passes(cfg: Limits, window: Option<State>, clock: int, first: nat, queued: nat, history: seq<Effect>, seconds: nat)
    requires queued > 0
    ensures Exec(cfg, OneKey(window, clock, first, queued, Queued, history), [Tick(seconds)]) ==
            OneKey(window, clock + seconds, first, queued, Queued, history)
  {
    ExecNext(cfg, OneKey(window, clock, first, queued, Queued, history), [Tick(seconds)]);
  }

  // ---------------------------------------------------------------------
  // The run
  // ---------------------------------------------------------------------

  const ONE_PER_TEN := Limits(1, 10.0)
  const E0 := Effect("k", 0, 0, 0, None, Decision(true, 1, 10), true)
  const E1 := Effect("k", 1, 10, 10, None, Decision(true, 1, 20), true)
  const E2 := Effect("k", 2, 10, 20, None, Decision(true, 1, 20), true)

  /** Serving the next task when the store shows no window. */
  lemma ServedAnew(window: Option<State>, clock: nat, first: nat, queued: nat, history: seq<Effect>, wait: nat)
    requires queued > 1 && Live(window, clock + wait) == None
    ensures Exec(ONE_PER_TEN, OneKey(window, clock, first, queued, Queued, history), Served(wait)) ==
            OneKey(Some(State(1, clock + 10)), clock + wait, first + 1, queued - 1, Queued,
                   history + [Effect("k", first, clock, clock + wait, None, Decision(true, 1, clock + 10), true)])
  {
    hide OneKey, Exec, Live;
    CeilShift(clock, 10.0);
    ServedOnce(ONE_PER_TEN, window, clock, first, queued, history, wait);
  }

  lemma MissedRun() returns (events: seq<Event>)
    ensures Exec(ONE_PER_TEN, Initial(map[], 0), events) == OneKey(Some(State(1, 20)), 20, 3, 1, Queued, [E0, E1, E2])
  {
    hide Step, OneKey, Exec, Served, Initial;
    var s := Initial(map[], 0);
    Arrivals(ONE_PER_TEN, 0, 4);
    events := seq(4, _ => Arrive("k"));
    ExecAppend(ONE_PER_TEN, s, events, Served(0));
    ServedAnew(None, 0, 0, 4, [], 0);
    assert [] + [E0] == [E0];
    events := events + Served(0);
    ExecAppend(ONE_PER_TEN, s, events, [Tick(10)]);
    Passes(ONE_PER_TEN, Some(State(1, 10)), 0, 1, 3, [E0], 10);
    events := events + [Tick(10)];
    ExecAppend(ONE_PER_TEN, s, events, Served(0));
    ServedAnew(Some(State(1, 10)), 10, 1, 3, [E0], 0);
    assert [E0] + [E1] == [E0, E1];
    events := events + Served(0);
    ExecAppend(ONE_PER_TEN, s, events, Served(10));
    ServedAnew(Some(State(1, 20)), 10, 2, 2, [E0, E1], 10);
    assert [E0, E1] + [E2] == [E0, E1, E2];
    events := events + Served(10);
  }

  lemma MissedEffects()
    ensures EffectsOf([E0, E1, E2], "k") == [E0, E1, E2]
  {
    assert EffectsOf([], "k") == [];
    hide EffectsOf;
    EffectsAppend([], E0, "k");
    EffectsAppend([E0], E1, "k");
    EffectsAppend([E0, E1], E2, "k");
    assert [] + [E0] == [E0] && [E0] + [E1] == [E0, E1] && [E0, E1] + [E2] == [E0, E1, E2];
  }

  lemma MissedAdmissions()
    ensures AdmittedIn([E0, E1, E2], 0, 10) == 3
  {
    hide AdmittedIn;
    var effects := [E0, E1, E2];
    assert effects[1..] == [E1, E2] && [E1, E2][1..] == [E2] && [E2][1..] == [];
    AdmittedStep(effects, 0, 10);
    AdmittedStep([E1, E2], 0, 10);
    AdmittedStep([E2], 0, 10);
    NoneAdmittedAfter([], 0, 10);
  }

  lemma MissedOnce()
    ensures MissesIn(None, ONE_PER_TEN, [E0, E1, E2], 0, 10) == 1
  {
    var effects := [E0, E1, E2];
    assert effects[1..] == [E1, E2] && [E1, E2][1..] == [E2] && [E2][1..] == [];
    CeilShift(0, 10.0);
    CeilShift(10, 10.0);
    assert Next(None, ONE_PER_TEN, 0) == Some(State(1, 10)) && Next(None, ONE_PER_TEN, 10) == Some(State(1, 20));
    assert MissesIn(Some(State(1, 20)), ONE_PER_TEN, [E2], 0, 10) == 1;
    assert MissesIn(Some(State(1, 10)), ONE_PER_TEN, [E1, E2], 0, 10) == 1;
  }

  lemma MissedReports()
    ensures ReportedIn([E0, E1, E2], 20) == 2
  {
    var effects := [E0, E1, E2];
    assert effects[..2] == [E0, E1] && [E0, E1][..1] == [E0] && [E0][..0] == [];
    assert ReportedIn([], 20) == 0;
    assert ReportedIn([E0], 20) == 0;
    assert ReportedIn([E0, E1], 20) == 1;
  }

  /** Misses are real: with one request per ten seconds, a task that takes the lock at
      second 10 and whose read is answered at second 20 misses the window it should
      have found spent. Seconds 0 to 10 then admit three requests, where two windows
      admit two, as many as one miss allows; and the effect forgets an admission: the
      stored count covers one of the two reported for its window. */
  lemma MissedWindowOverAdmits() returns (events: seq<Event>)
    ensures var s := Exec(ONE_PER_TEN, Initial(map[], 0), events);
            var effects := EffectsOf(s.history, "k");
            && !Timely(None, ONE_PER_TEN, effects)
            && DecisionsOfEffects(effects) != KeyRun(None, ONE_PER_TEN, TimesOfEffects(effects))
            && MissesIn(None, ONE_PER_TEN, effects, 0, 10) == 1 && AdmittedIn(effects, 0, 10) == 3
            && s.Get("k") == Some(State(1, 20)) && ReportedIn(effects, 20) == 2
            && !NoneForgets(None, ONE_PER_TEN, effects)
            && !AlwaysCovers(ONE_PER_TEN, Initial(map[], 0), events, "k")
  {
    events := MissedRun();
    MissedEffects();
    MissedAdmissions();
    MissedReports();
    MissedOnce();
    hide Exec, EffectsOf, KeyRun, AdmittedIn, ReportedIn, MissesIn;
    var s, effects := Exec(ONE_PER_TEN, Initial(map[], 0), events), [E0, E1, E2];
    FallbackRefinesConsume(ONE_PER_TEN, map[], 0, events, "k");
    assert InitialState(map[], "k") == None;
    assert s.history == effects && s.Get("k") == Some(State(1, 20));
    assert effects[..2] == [E0, E1];
    CeilShift(10, 10.0);
    assert Kept(None, ONE_PER_TEN, effects[..2]) == Some(State(1, 20));
    assert Missed(Kept(None, ONE_PER_TEN, effects[..2]), effects[2]);
    assert !Covers(Kept(None, ONE_PER_TEN, effects), effects);
    AdmittedNeverExceedStored(ONE_PER_TEN, map[], 0, events, "k");
  }
}
