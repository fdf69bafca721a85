/**
 The decision to sign a request whitelisting (Appendix A.4): request-wide gates
 around the Appendix A.1 runner applied to every listed contract.
 */
module RequestWhitelisting {
  import opened Common
  import opened Checks
  import opened RequestBinding
  import opened BindingCorrectness
  import opened FaultFreeReads
  import opened BindingCache
  import RoleEvents
  import RoleScan

  datatype BookOperation = Whitelist | Unwhitelist

  datatype BookPolicy = BookPolicy(
    contracts: Policy,
    maxNonceAboveFloor: int,
    acceptedBooks: Option<map<nat, set<Address>>>,
    maxRequestContracts: Option<nat>)

  const DEFAULT_MAX_REQUEST_CONTRACTS := 50

  datatype Body = Body(
    chainId: nat,
    whitelistBook: Address,
    operation: BookOperation,
    requestContracts: seq<Address>,
    nonce: nat,
    deadline: int)

  datatype BookState = BookState(floor: nat, consumed: bool)

  /** What the outside world does during one request: `interference(i)` supplies the
      node that answers for the i-th contract, its interruptions and its cache losses. */
  datatype Context = Context(nowUnix: int, interference: nat -> Interference, book: Slot<BookState>)

  datatype Interference = Interference(
    node: Node, signals: RoleScan.Signals, lost: set<Key>, getThrows: bool, setThrows: bool)

  function BatchLimit(policy: BookPolicy): nat {
    if policy.maxRequestContracts.Some? then policy.maxRequestContracts.value else DEFAULT_MAX_REQUEST_CONTRACTS
  }

  function RequestFor(policy: BookPolicy, body: Body, ctx: Context, i: nat): Request
    requires i < |body.requestContracts|
  {
    var f := ctx.interference(i);
    Request(Call(body.chainId, body.requestContracts[i], body.deadline, ctx.nowUnix, f.signals),
            policy.contracts, f.node, f.lost, f.getThrows, f.setThrows)
  }

  function RequestsFor(policy: BookPolicy, body: Body, ctx: Context): seq<Request> {
    seq(|body.requestContracts|, i requires 0 <= i < |body.requestContracts| => RequestFor(policy, body, ctx, i))
  }

  function BodyDeadline(policy: BookPolicy, body: Body, ctx: Context): CheckEntry {
    CheckDeadline(ctx.nowUnix, body.deadline, policy.contracts.maxDeadlineSecondsAhead)
  }

  // ---------------------------------------------------------------------
  // Entries of one contract
  // ---------------------------------------------------------------------

  predicate IsDeadlineEntry(e: CheckEntry) {
    e.description == DeadlineWithinCeiling
  }

  function Suffixed(e: CheckEntry, contract: Address): CheckEntry {
    var d := ForContract(e.description, contract);
    if e.skipped then Skipped(d) else if e.passed then Passed(d) else Failed(d)
  }

  function SuffixAll(entries: seq<CheckEntry>, contract: Address): seq<CheckEntry> {
    var kept := Filter(entries, (e: CheckEntry) => !IsDeadlineEntry(e));
    seq(|kept|, i requires 0 <= i < |kept| => Suffixed(kept[i], contract))
  }

  /** The batch loop: entries of all contracts, or the first upstream failure. */
  function ContractEntries(cache: map<Key, A1Data>, rs: seq<Request>)
    : (r: Result<seq<CheckEntry>, RunnerError>)
    ensures r.Err? ==> r.error == UpstreamUnavailable
    decreases |rs|
  {
    if rs == [] then Ok([])
    else
      var (v, after) := ServeOne(cache, rs[0]);
      if v == Err(UpstreamUnavailable) then Err(UpstreamUnavailable)
      else
        match ContractEntries(after, rs[1..])
        case Err(e) => Err(e)
        case Ok(rest) => Ok(SuffixAll(Entries(v), rs[0].call.contract) + rest)
  }

  function Prefixed(checks: seq<CheckEntry>, rest: Result<seq<CheckEntry>, RunnerError>): Result<seq<CheckEntry>, RunnerError> {
    match rest
    case Err(e) => Err(e)
    case Ok(more) => Ok(checks + more)
  }

  lemma PrefixedTwice(checks: seq<CheckEntry>, more: seq<CheckEntry>, rest: Result<seq<CheckEntry>, RunnerError>)
    ensures Prefixed(checks, Prefixed(more, rest)) == Prefixed(checks + more, rest)
  {
    if rest.Ok? { assert checks + (more + rest.value) == (checks + more) + rest.value; }
  }

  lemma NextContract(cache: map<Key, A1Data>, rs: seq<Request>)
    requires rs != []
    ensures var (v, after) := ServeOne(cache, rs[0]);
            ContractEntries(cache, rs) ==
            if v == Err(UpstreamUnavailable) then Err(UpstreamUnavailable)
            else Prefixed(SuffixAll(Entries(v), rs[0].call.contract), ContractEntries(after, rs[1..]))
  {}

  method CheckContracts(cache: map<Key, A1Data>, rs: seq<Request>)
    returns (out: Result<seq<CheckEntry>, RunnerError>)
    ensures out == ContractEntries(cache, rs)
  {
    hide ServeOne, ContractEntries, SuffixAll, Prefixed;
    var checks: seq<CheckEntry> := [];
    var current := cache;
    var i := 0;
    assert rs[0..] == rs;
    PrefixedNone(ContractEntries(cache, rs));
    while i < |rs|
      invariant 0 <= i <= |rs|
      invariant ContractEntries(cache, rs) == Prefixed(checks, ContractEntries(current, rs[i..]))
    {
      NextContract(current, rs[i..]);
      assert rs[i..][0] == rs[i] && rs[i..][1..] == rs[i + 1..];
      var (v, after) := ServeOne(current, rs[i]);
      if v == Err(UpstreamUnavailable) {
        PrefixedError(checks);
        return Err(UpstreamUnavailable);
      }
      var more := SuffixAll(Entries(v), rs[i].call.contract);
      PrefixedTwice(checks, more, ContractEntries(after, rs[i + 1..]));
      checks := checks + more;
      current := after;
      i := i + 1;
    }
    out := Ok(checks);
    NoContracts(current, rs[i..], checks);
  }

  lemma PrefixedNone(r: Result<seq<CheckEntry>, RunnerError>)
    ensures Prefixed([], r) == r
  {
    if r.Ok? { assert [] + r.value == r.value; }
  }

  lemma PrefixedError(checks: seq<CheckEntry>)
    ensures Prefixed(checks, Err(UpstreamUnavailable)) == Err(UpstreamUnavailable)
  {}

  lemma NoContracts(cache: map<Key, A1Data>, rs: seq<Request>, checks: seq<CheckEntry>)
    requires rs == []
    ensures Prefixed(checks, ContractEntries(cache, rs)) == Ok(checks)
  {
    assert checks + [] == checks;
  }

  // ---------------------------------------------------------------------
  // The runner
  // ---------------------------------------------------------------------

  const SKIPPED_NONCE_CHECKS: seq<CheckEntry> :=
    [Skipped(NonceNotConsumed), Skipped(NonceAtOrAboveFloor), Skipped(NonceWithinCeiling)]

  predicate BookRejected(policy: BookPolicy, body: Body) {
    policy.acceptedBooks.Some? && !Accepts(SetFor(policy.acceptedBooks.value, body.chainId), body.whitelistBook)
  }

  function BookEntries(policy: BookPolicy): seq<CheckEntry> {
    if policy.acceptedBooks.Some? then [Passed(BookAccepted)] else []
  }

  function NonceEntries(policy: BookPolicy, body: Body, state: BookState): seq<CheckEntry> {
    CheckNonceWindow(body.nonce, state.consumed, state.floor, policy.maxNonceAboveFloor)
  }

  function PerContract(cache: map<Key, A1Data>, policy: BookPolicy, body: Body, ctx: Context)
    : (r: Result<seq<CheckEntry>, RunnerError>)
    ensures r.Err? ==> r.error == UpstreamUnavailable
  {
    if body.operation == Whitelist then ContractEntries(cache, RequestsFor(policy, body, ctx)) else Ok([])
  }

  function RunA4(cache: map<Key, A1Data>, policy: BookPolicy, body: Body, ctx: Context): Verdict {
    if |body.requestContracts| > BatchLimit(policy) then RollUp([Failed(BatchSize)])
    else if BookRejected(policy, body) then
      RollUp([Failed(BookAccepted), BodyDeadline(policy, body, ctx)] + SKIPPED_NONCE_CHECKS)
    else
      match PerContract(cache, policy, body, ctx)
      case Err(e) => Err(e)
      case Ok(entries) =>
        var checks := BookEntries(policy) + entries + [BodyDeadline(policy, body, ctx)];
        match ctx.book
        case TransportFailure => Err(UpstreamUnavailable)
        case Reverted => RollUp(checks + [Failed(BookExposesNonces)] + SKIPPED_NONCE_CHECKS)
        case Success(state) => RollUp(checks + NonceEntries(policy, body, state))
  }

  method BuildChecks(cache: map<Key, A1Data>, policy: BookPolicy, body: Body, ctx: Context)
    returns (verdict: Verdict)
    ensures verdict == RunA4(cache, policy, body, ctx)
  {
    hide ContractEntries, RollUp;
    var checks: seq<CheckEntry> := [];
    if |body.requestContracts| > BatchLimit(policy) {
      return RollUp([Failed(BatchSize)]);
    }
    if policy.acceptedBooks.Some? {
      var bookCheck := CheckMembership(BookAccepted, body.whitelistBook, SetFor(policy.acceptedBooks.value, body.chainId));
      checks := checks + [bookCheck];
      if !bookCheck.passed {
        checks := checks + [BodyDeadline(policy, body, ctx)] + SKIPPED_NONCE_CHECKS;
        assert checks == [Failed(BookAccepted), BodyDeadline(policy, body, ctx)] + SKIPPED_NONCE_CHECKS;
        return RollUp(checks);
      }
    }
    assert checks == BookEntries(policy);
    var entries: seq<CheckEntry> := [];
    if body.operation == Whitelist {
      var found := CheckContracts(cache, RequestsFor(policy, body, ctx));
      if found.Err? { return Err(found.error); }
      entries := found.value;
    }
    checks := checks + entries + [BodyDeadline(policy, body, ctx)];
    match ctx.book {
      case TransportFailure => verdict := Err(UpstreamUnavailable);
      case Reverted => verdict := RollUp(checks + [Failed(BookExposesNonces)] + SKIPPED_NONCE_CHECKS);
      case Success(state) => verdict := RollUp(checks + NonceEntries(policy, body, state));
    }
  }

  // ---------------------------------------------------------------------
  // The shape of an Appendix A.1 verdict
  // ---------------------------------------------------------------------

  /** The deadline entry comes last and is the only one; skipped entries count as passed. */
  predicate EndsWithDeadline(checks: seq<CheckEntry>, deadlineCheck: CheckEntry) {
    && |checks| > 0
    && checks[|checks| - 1] == deadlineCheck
    && IsDeadlineEntry(deadlineCheck)
    && (forall i :: 0 <= i < |checks| - 1 ==> !IsDeadlineEntry(checks[i]))
    && (forall i :: 0 <= i < |checks| && checks[i].skipped ==> checks[i].passed)
  }

  lemma EvaluateEnds(data: A1Data, policy: Policy, call: Call)
    ensures EndsWithDeadline(EvaluateA1(data, policy, call.chainId, DeadlineEntry(policy, call)), DeadlineEntry(policy, call))
  {
    hide RoleEvents.HolderSet, AllAccepted, Accepts, Lists;
  }

  lemma VerdictShape(node: Node, policy: Policy, call: Call, cached: Option<A1Data>)
    requires RunA1(node, policy, call, cached) != Err(UpstreamUnavailable)
    ensures var v := RunA1(node, policy, call, cached);
            v == RollUp(Entries(v)) && EndsWithDeadline(Entries(v), DeadlineEntry(policy, call))
  {
    hide Fetch, EvaluateA1, AllPassed;
    var usable := Usable(policy, call.chainId, cached);
    if IsTrusted(policy, call) {
      assert EndsWithDeadline(TrustedChecks(DeadlineEntry(policy, call)), DeadlineEntry(policy, call));
    } else if usable.Some? {
      EvaluateEnds(usable.value, policy, call);
    } else {
      if Fetch(node, policy, call.chainId, call.contract, call.signals).Err? {
        FailedFetch(node, policy, call.chainId, call.contract, call.signals);
      }
      FetchedShape(Fetch(node, policy, call.chainId, call.contract, call.signals), policy, call);
    }
  }

  lemma FetchedShape(fetched: Result<Fetched, RunnerError>, policy: Policy, call: Call)
    requires EvaluateFetched(fetched, policy, call) != Err(UpstreamUnavailable)
    requires fetched.Err? ==> fetched.error == UpstreamUnavailable
    ensures var v := EvaluateFetched(fetched, policy, call);
            v == RollUp(Entries(v)) && EndsWithDeadline(Entries(v), DeadlineEntry(policy, call))
  {
    hide EvaluateA1, AllPassed;
    match fetched.value {
      case OnChain(data) => EvaluateEnds(data, policy, call);
      case Retargetter(_, operation) =>
        var checks := EvaluateRetargetter(operation, call.contract, call.nowUnix, policy, DeadlineEntry(policy, call));
        assert EndsWithDeadline(checks, DeadlineEntry(policy, call));
    }
  }

  /** Dropping the per-contract deadline entry never flips a verdict: what is left
      passes together with the request-wide entry iff the contract passes. */
  lemma DroppedDeadline(checks: seq<CheckEntry>, deadlineCheck: CheckEntry, contract: Address)
    requires EndsWithDeadline(checks, deadlineCheck)
    ensures AllPassed(SuffixAll(checks, contract)) && deadlineCheck.passed <==> AllPassed(checks)
  {
    var n := |checks| - 1;
    var kept := Filter(checks, (e: CheckEntry) => !IsDeadlineEntry(e));
    FilterAll(checks[..n], (e: CheckEntry) => !IsDeadlineEntry(e));
    assert kept == checks[..n];
    assert forall i :: 0 <= i < n ==> SuffixAll(checks, contract)[i] == Suffixed(checks[i], contract);
    assert forall i :: 0 <= i < n ==> SuffixAll(checks, contract)[i].passed == checks[i].passed;
  }

  // ---------------------------------------------------------------------
  // Main results
  // ---------------------------------------------------------------------

  /** Every call of the run over the listed contracts gives Ok. */
  predicate RunPasses(cache: map<Key, A1Data>, rs: seq<Request>) {
    forall i :: 0 <= i < |ServeAll(cache, rs)| ==> ServeAll(cache, rs)[i].Ok?
  }

  /** Every contract passes the Appendix A.1 checks on its own, without a cache, when
      every read is answered. */
  ghost predicate EachContractPasses(w: World, rs: seq<Request>) {
    forall i :: 0 <= i < |rs| ==> FaultFreeVerdict(w, rs[i]).Ok?
  }

  lemma AllPassedAppend(a: seq<CheckEntry>, b: seq<CheckEntry>)
    ensures AllPassed(a + b) <==> AllPassed(a) && AllPassed(b)
  {
    assert AllPassed(a + b) ==> forall i :: 0 <= i < |a| ==> (a + b)[i] == a[i];
    assert AllPassed(a + b) ==> forall i :: 0 <= i < |b| ==> (a + b)[|a| + i] == b[i];
  }

  /** One contract of a batch contributes entries that pass, with the request-wide
      deadline, exactly when its own verdict is Ok. */
  lemma OneOfBatch(cache: map<Key, A1Data>, r: Request)
    requires ServeOne(cache, r).0 != Err(UpstreamUnavailable)
    ensures var v := ServeOne(cache, r).0;
            AllPassed(SuffixAll(Entries(v), r.call.contract)) && DeadlineEntry(r.policy, r.call).passed <==> v.Ok?
  {
    hide RunA1, SuffixAll, EndsWithDeadline, AllPassed;
    var v := RunA1(r.node, r.policy, r.call, Seen(cache, r));
    VerdictShape(r.node, r.policy, r.call, Seen(cache, r));
    DroppedDeadline(Entries(v), DeadlineEntry(r.policy, r.call), r.call.contract);
    RolledUp(Entries(v));
  }

  lemma RunSplit(cache: map<Key, A1Data>, rs: seq<Request>)
    requires rs != []
    ensures var (v, after) := ServeOne(cache, rs[0]);
            && ServeAll(cache, rs) == [v] + ServeAll(after, rs[1..])
            && (RunPasses(cache, rs) <==> v.Ok? && RunPasses(after, rs[1..]))
  {
    hide ServeOne;
    var (v, after) := ServeOne(cache, rs[0]);
    var all, rest := ServeAll(cache, rs), ServeAll(after, rs[1..]);
    assert all == [v] + rest;
    if RunPasses(cache, rs) {
      assert all[0].Ok?;
      forall i | 0 <= i < |rest| ensures rest[i].Ok? { assert all[i + 1].Ok?; }
    }
    if v.Ok? && RunPasses(after, rs[1..]) {
      forall i | 0 <= i < |all| ensures all[i].Ok? {
        if i > 0 { assert all[i] == rest[i - 1]; }
      }
    }
  }

  /** The entries of a batch pass, with the request-wide deadline, exactly when every
      call of the run over its contracts, each on the cache the one before left, gives
      Ok; and none of these calls fails upstream. */
  lemma {:induction false} EntriesFollowRun(cache: map<Key, A1Data>, rs: seq<Request>, deadlineCheck: CheckEntry)
    requires forall i :: 0 <= i < |rs| ==> DeadlineEntry(rs[i].policy, rs[i].call) == deadlineCheck
    requires ContractEntries(cache, rs).Ok?
    ensures deadlineCheck.passed ==> (AllPassed(ContractEntries(cache, rs).value) <==> RunPasses(cache, rs))
    ensures forall i :: 0 <= i < |ServeAll(cache, rs)| ==> ServeAll(cache, rs)[i] != Err(UpstreamUnavailable)
    decreases |rs|
  {
    hide ServeOne, ServeAll, SuffixAll, DeadlineEntry, AllPassed, RunPasses, ContractEntries;
    if rs == [] {
      NothingRun(cache);
    } else {
      NextContract(cache, rs);
      RunSplit(cache, rs);
      OneOfBatch(cache, rs[0]);
      var (v, after) := ServeOne(cache, rs[0]);
      EntriesFollowRun(after, rs[1..], deadlineCheck);
      AllPassedAppend(SuffixAll(Entries(v), rs[0].call.contract), ContractEntries(after, rs[1..]).value);
    }
  }

  lemma NothingRun(cache: map<Key, A1Data>)
    ensures ContractEntries(cache, []) == Ok([]) && AllPassed([]) && RunPasses(cache, []) && ServeAll(cache, []) == []
  {}

  /** Entries of contracts are never deadline entries, whatever the cache holds. */
  lemma {:induction false} EntriesAreSuffixed(cache: map<Key, A1Data>, rs: seq<Request>)
    requires ContractEntries(cache, rs).Ok?
    ensures forall e :: e in ContractEntries(cache, rs).value ==> e.description.ForContract?
    decreases |rs|
  {
    hide ServeOne, SuffixAll;
    if rs != [] {
      NextContract(cache, rs);
      var (v, after) := ServeOne(cache, rs[0]);
      SuffixedEntries(Entries(v), rs[0].call.contract);
      EntriesAreSuffixed(after, rs[1..]);
    }
  }

  lemma SuffixedEntries(checks: seq<CheckEntry>, contract: Address)
    ensures forall e :: e in SuffixAll(checks, contract) ==> e.description.ForContract?
  {}

  lemma {:induction false} AllReadIsClean(w: World, p0: Policy, cache: map<Key, A1Data>, rs: seq<Request>)
    requires forall i :: 0 <= i < |rs| ==> ReadsDecider(w, p0, rs[i])
    ensures CleanWrites(w, p0, cache, rs)
    decreases |rs|
  {
    hide ReadsDecider, Writes, ServeOne;
    if rs != [] { AllReadIsClean(w, p0, ServeOne(cache, rs[0]).1, rs[1..]); }
  }

  /** Verdicts in a batch are those of each contract alone, so the cache writes of
      earlier contracts never change a later one. */
  lemma BatchIsConjunction(w: World, p0: Policy, cache: map<Key, A1Data>, rs: seq<Request>, deadlineCheck: CheckEntry)
    requires FixedWorld(w, p0) && Genuine(w, p0, cache)
    requires forall i :: 0 <= i < |rs| ==>
               && Compatible(w, p0, rs[i]) && ReadsDecider(w, p0, rs[i])
               && DeadlineEntry(rs[i].policy, rs[i].call) == deadlineCheck
    requires ContractEntries(cache, rs).Ok?
    ensures deadlineCheck.passed ==> (AllPassed(ContractEntries(cache, rs).value) <==> EachContractPasses(w, rs))
  {
    hide ServeAll, FixedWorld, Genuine, Compatible, ReadsDecider, FaultFreeVerdict, DeadlineEntry, AllPassed, ContractEntries;
    AllReadIsClean(w, p0, cache, rs);
    CacheIsTransparent(w, p0, cache, rs);
    EntriesFollowRun(cache, rs, deadlineCheck);
    assert forall i :: 0 <= i < |rs| ==> ServeAll(cache, rs)[i] == FaultFreeVerdict(w, rs[i]);
  }

  /** The gates of Appendix A.4 around the per-contract checks: at most the configured
      number of contracts, 50 by default; an accepted book, if books are configured; the
      deadline under the ceiling; and an unconsumed nonce in the window. */
  ghost predicate GatesHold(policy: BookPolicy, body: Body, ctx: Context) {
    && |body.requestContracts| <= (if policy.maxRequestContracts.Some? then policy.maxRequestContracts.value else 50)
    && (policy.acceptedBooks.Some? ==> InSet(policy.acceptedBooks.value, body.chainId, body.whitelistBook))
    && body.deadline <= ctx.nowUnix + policy.contracts.maxDeadlineSecondsAhead
    && ctx.book.Success?
    && !ctx.book.result.consumed
    && ctx.book.result.floor <= body.nonce <= ctx.book.result.floor + policy.maxNonceAboveFloor
  }

  lemma BookGate(policy: BookPolicy, body: Body)
    ensures BookRejected(policy, body) <==>
            policy.acceptedBooks.Some? && !InSet(policy.acceptedBooks.value, body.chainId, body.whitelistBook)
  {
    if policy.acceptedBooks.Some? { InSetIff(policy.acceptedBooks.value, body.chainId, body.whitelistBook); }
  }

  /** What the cache yields for the i-th listed contract, after the calls before it. */
  function SeenBy(cache: map<Key, A1Data>, policy: BookPolicy, body: Body, ctx: Context, i: nat): Option<A1Data>
    requires i < |body.requestContracts|
  {
    var key, f := (body.chainId, Lower(body.requestContracts[i])), ctx.interference(i);
    var before := CacheAfter(cache, RequestsFor(policy, body, ctx)[..i]);
    if !f.getThrows && key in before - f.lost then Some(before[key]) else None
  }

  lemma {:induction false} ServeAllAt(cache: map<Key, A1Data>, rs: seq<Request>, i: nat)
    requires i < |rs|
    ensures |ServeAll(cache, rs)| == |rs|
    ensures ServeAll(cache, rs)[i] == RunA1(rs[i].node, rs[i].policy, rs[i].call, Seen(CacheAfter(cache, rs[..i]), rs[i]))
    decreases |rs|
  {
    hide RunA1, Seen;
    var (v, after) := ServeOne(cache, rs[0]);
    if i > 0 {
      ServeAllAt(after, rs[1..], i - 1);
      assert rs[..i][0] == rs[0] && rs[..i][1..] == rs[1..][..i - 1];
    } else {
      AllServed(after, rs[1..]);
      assert rs[..0] == [];
    }
  }

  lemma {:induction false} AllServed(cache: map<Key, A1Data>, rs: seq<Request>)
    ensures |ServeAll(cache, rs)| == |rs|
    decreases |rs|
  {
    hide ServeOne;
    if rs != [] { AllServed(ServeOne(cache, rs[0]).1, rs[1..]); }
  }

  /** Every listed contract is checked in its turn: its own call, under the contract
      policy, on its own node, gives Ok. */
  ghost predicate EachCallPasses(cache: map<Key, A1Data>, policy: BookPolicy, body: Body, ctx: Context) {
    forall i :: 0 <= i < |body.requestContracts| ==>
      RunA1(ctx.interference(i).node, policy.contracts,
            Call(body.chainId, body.requestContracts[i], body.deadline, ctx.nowUnix, ctx.interference(i).signals),
            SeenBy(cache, policy, body, ctx, i)).Ok?
  }

  lemma RunIsOfListed(cache: map<Key, A1Data>, policy: BookPolicy, body: Body, ctx: Context)
    ensures RunPasses(cache, RequestsFor(policy, body, ctx)) <==> EachCallPasses(cache, policy, body, ctx)
  {
    hide RunA1, CacheAfter, ServeAll;
    var rs := RequestsFor(policy, body, ctx);
    forall i | 0 <= i < |rs|
      ensures |ServeAll(cache, rs)| == |rs|
      ensures ServeAll(cache, rs)[i] ==
              RunA1(ctx.interference(i).node, policy.contracts,
                    Call(body.chainId, body.requestContracts[i], body.deadline, ctx.nowUnix, ctx.interference(i).signals),
                    SeenBy(cache, policy, body, ctx, i))
    {
      ServeAllAt(cache, rs, i);
    }
    AllServed(cache, rs);
  }

  /** The nodes read for a batch answer for the state of the world, and for each of its
      contracts the factory that decides is read. */
  ghost predicate WellServed(w: World, policy: BookPolicy, body: Body, ctx: Context) {
    body.operation == Whitelist ==> forall i :: 0 <= i < |body.requestContracts| ==>
      var contract, node := Lower(body.requestContracts[i]), ctx.interference(i).node;
      var full, chain := w.node((body.chainId, contract)), w.chain(body.chainId);
      Degrades(node, chain, full) && Harmless(chain, full, policy.contracts, node, body.chainId, contract)
  }

  lemma RequestsCompatible(w: World, policy: BookPolicy, body: Body, ctx: Context)
    requires SaneBudget(policy.contracts) && WellServed(w, policy, body, ctx) && body.operation == Whitelist
    requires forall c :: c in body.requestContracts ==> Lower(c) == c
    ensures forall i :: 0 <= i < |RequestsFor(policy, body, ctx)| ==>
              var r := RequestsFor(policy, body, ctx)[i];
              Compatible(w, policy.contracts, r) && ReadsDecider(w, policy.contracts, r)
  {
    hide Degrades, Harmless;
  }

  /** Every listed contract passes the Appendix A.1 checks on its own: a fault-free,
      undisturbed read of its own, without a cache. */
  ghost predicate EachPassesAlone(w: World, policy: BookPolicy, body: Body, ctx: Context) {
    forall i :: 0 <= i < |body.requestContracts| ==>
      RunA1(w.node((body.chainId, Lower(body.requestContracts[i]))), policy.contracts,
            Call(body.chainId, body.requestContracts[i], body.deadline, ctx.nowUnix, Quiet()), None).Ok?
  }

  lemma AloneIsOfListed(w: World, policy: BookPolicy, body: Body, ctx: Context)
    ensures EachContractPasses(w, RequestsFor(policy, body, ctx)) <==> EachPassesAlone(w, policy, body, ctx)
  {
    hide RunA1;
    var rs := RequestsFor(policy, body, ctx);
    forall i | 0 <= i < |rs|
      ensures FaultFreeVerdict(w, rs[i]) ==
              RunA1(w.node((body.chainId, Lower(body.requestContracts[i]))), policy.contracts,
                    Call(body.chainId, body.requestContracts[i], body.deadline, ctx.nowUnix, Quiet()), None)
    {}
  }

  lemma SameDeadlines(policy: BookPolicy, body: Body, ctx: Context)
    ensures forall i :: 0 <= i < |RequestsFor(policy, body, ctx)| ==>
              var r := RequestsFor(policy, body, ctx)[i];
              DeadlineEntry(r.policy, r.call) == BodyDeadline(policy, body, ctx)
  {}

  lemma RolledUp(checks: seq<CheckEntry>)
    ensures RollUp(checks).Ok? <==> AllPassed(checks)
    ensures RollUp(checks) != Err(UpstreamUnavailable) && Entries(RollUp(checks)) == checks
  {}

  lemma PassedLast(a: seq<CheckEntry>, e: CheckEntry)
    ensures AllPassed(a + [e]) <==> AllPassed(a) && e.passed
  {
    AllPassedAppend(a, [e]);
    assert [e][0] == e;
  }

  /** Without an upstream failure, for any cache and any nodes, the runner signs exactly
      when the gates hold and, for a whitelisting, the call for every listed contract
      gives Ok, each on the cache the one before left. */
  lemma BatchFollowsRun(cache: map<Key, A1Data>, policy: BookPolicy, body: Body, ctx: Context)
    requires RunA4(cache, policy, body, ctx) != Err(UpstreamUnavailable)
    ensures RunA4(cache, policy, body, ctx).Ok? <==>
            GatesHold(policy, body, ctx) &&
            (body.operation == Whitelist ==> EachCallPasses(cache, policy, body, ctx))
  {
    hide ContractEntries, RequestsFor, RunPasses, RollUp, EachCallPasses, InSet;
    BookGate(policy, body);
    RunIsOfListed(cache, policy, body, ctx);
    if |body.requestContracts| <= BatchLimit(policy) && !BookRejected(policy, body) {
      SameDeadlines(policy, body, ctx);
      if body.operation == Whitelist {
        EntriesFollowRun(cache, RequestsFor(policy, body, ctx), BodyDeadline(policy, body, ctx));
      }
      var entries := PerContract(cache, policy, body, ctx).value;
      var checks := BookEntries(policy) + entries + [BodyDeadline(policy, body, ctx)];
      AllPassedAppend(BookEntries(policy), entries);
      PassedLast(BookEntries(policy) + entries, BodyDeadline(policy, body, ctx));
      match ctx.book {
        case Reverted =>
          PassedLast(checks, Failed(BookExposesNonces));
          AllPassedAppend(checks + [Failed(BookExposesNonces)], SKIPPED_NONCE_CHECKS);
          RolledUp(checks + [Failed(BookExposesNonces)] + SKIPPED_NONCE_CHECKS);
        case Success(state) =>
          AllPassedAppend(checks, NonceEntries(policy, body, state));
          NonceWindowPasses(body.nonce, state.consumed, state.floor, policy.maxNonceAboveFloor);
          RolledUp(checks + NonceEntries(policy, body, state));
        case TransportFailure =>
      }
    } else {
      RefusedEarly(policy, body, ctx);
    }
  }

  /** Without an upstream failure the runner signs exactly when the gates hold and, for
      a whitelisting, every listed contract passes on its own. */
  lemma BatchVerdict(w: World, cache: map<Key, A1Data>, policy: BookPolicy, body: Body, ctx: Context)
    requires FixedWorld(w, policy.contracts) && Genuine(w, policy.contracts, cache)
    requires SaneBudget(policy.contracts) && WellServed(w, policy, body, ctx)
    requires forall c :: c in body.requestContracts ==> Lower(c) == c
    requires RunA4(cache, policy, body, ctx) != Err(UpstreamUnavailable)
    ensures RunA4(cache, policy, body, ctx).Ok? <==>
            GatesHold(policy, body, ctx) &&
            (body.operation == Whitelist ==> EachPassesAlone(w, policy, body, ctx))
  {
    hide FixedWorld, Genuine, ContractEntries, RequestsFor, EachContractPasses, EachPassesAlone, EachCallPasses, RunPasses, WellServed, RollUp;
    AloneIsOfListed(w, policy, body, ctx);
    RunIsOfListed(cache, policy, body, ctx);
    BatchFollowsRun(cache, policy, body, ctx);
    if GatesHold(policy, body, ctx) && body.operation == Whitelist {
      RequestsCompatible(w, policy, body, ctx);
      SameDeadlines(policy, body, ctx);
      EntriesFollowRun(cache, RequestsFor(policy, body, ctx), BodyDeadline(policy, body, ctx));
      BatchIsConjunction(w, policy.contracts, cache, RequestsFor(policy, body, ctx), BodyDeadline(policy, body, ctx));
    }
  }

  lemma {:induction false} EntriesFailIff(cache: map<Key, A1Data>, rs: seq<Request>)
    ensures ContractEntries(cache, rs).Err? <==>
            exists i :: 0 <= i < |ServeAll(cache, rs)| && ServeAll(cache, rs)[i] == Err(UpstreamUnavailable)
    decreases |rs|
  {
    hide ServeOne, SuffixAll;
    if rs != [] {
      NextContract(cache, rs);
      var (v, after) := ServeOne(cache, rs[0]);
      EntriesFailIff(after, rs[1..]);
      var all, rest := ServeAll(cache, rs), ServeAll(after, rs[1..]);
      assert all == [v] + rest;
      if i :| 0 <= i < |rest| && rest[i] == Err(UpstreamUnavailable) { assert all[i + 1] == rest[i]; }
      if i :| 0 < i < |all| && all[i] == Err(UpstreamUnavailable) { assert rest[i - 1] == all[i]; }
      if v == Err(UpstreamUnavailable) { assert all[0] == v; }
    }
  }

  /** The call for some listed contract fails upstream. */
  ghost predicate SomeCallUnavailable(cache: map<Key, A1Data>, policy: BookPolicy, body: Body, ctx: Context) {
    exists i :: 0 <= i < |body.requestContracts| &&
      RunA1(ctx.interference(i).node, policy.contracts,
            Call(body.chainId, body.requestContracts[i], body.deadline, ctx.nowUnix, ctx.interference(i).signals),
            SeenBy(cache, policy, body, ctx, i)) == Err(UpstreamUnavailable)
  }

  lemma SomeCallIff(cache: map<Key, A1Data>, policy: BookPolicy, body: Body, ctx: Context)
    ensures ContractEntries(cache, RequestsFor(policy, body, ctx)).Err? <==> SomeCallUnavailable(cache, policy, body, ctx)
  {
    hide RunA1, CacheAfter, ServeAll, ContractEntries;
    var rs := RequestsFor(policy, body, ctx);
    EntriesFailIff(cache, rs);
    AllServed(cache, rs);
    forall i | 0 <= i < |rs|
      ensures ServeAll(cache, rs)[i] ==
              RunA1(ctx.interference(i).node, policy.contracts,
                    Call(body.chainId, body.requestContracts[i], body.deadline, ctx.nowUnix, ctx.interference(i).signals),
                    SeenBy(cache, policy, body, ctx, i))
    {
      ServeAllAt(cache, rs, i);
    }
    if i :| 0 <= i < |ServeAll(cache, rs)| && ServeAll(cache, rs)[i] == Err(UpstreamUnavailable) {
      assert i < |body.requestContracts|;
    }
  }

  /** The failure is upstream exactly when the batch is within the cap, its book is
      accepted, and for a whitelisting the call for some contract fails upstream, or
      the book's own reads do. */
  lemma BatchUnavailableIff(cache: map<Key, A1Data>, policy: BookPolicy, body: Body, ctx: Context)
    ensures RunA4(cache, policy, body, ctx) == Err(UpstreamUnavailable) <==>
            && |body.requestContracts| <= (if policy.maxRequestContracts.Some? then policy.maxRequestContracts.value else 50)
            && (policy.acceptedBooks.Some? ==> InSet(policy.acceptedBooks.value, body.chainId, body.whitelistBook))
            && ((body.operation == Whitelist && SomeCallUnavailable(cache, policy, body, ctx)) || ctx.book.TransportFailure?)
  {
    hide ContractEntries, RequestsFor, SomeCallUnavailable, InSet, AllPassed;
    BookGate(policy, body);
    SomeCallIff(cache, policy, body, ctx);
  }

  lemma RefusedEarly(policy: BookPolicy, body: Body, ctx: Context)
    ensures RollUp([Failed(BatchSize)]).Err?
    ensures RollUp([Failed(BookAccepted), BodyDeadline(policy, body, ctx)] + SKIPPED_NONCE_CHECKS).Err?
  {
    assert ![Failed(BatchSize)][0].passed;
    assert ([Failed(BookAccepted), BodyDeadline(policy, body, ctx)] + SKIPPED_NONCE_CHECKS)[0] == Failed(BookAccepted);
  }

  /** The nonce entries pass exactly for an unconsumed nonce in the window. */
  lemma NonceWindowPasses(nonce: int, consumed: bool, floor: int, maxAboveFloor: int)
    ensures AllPassed(CheckNonceWindow(nonce, consumed, floor, maxAboveFloor)) <==>
            !consumed && floor <= nonce <= floor + maxAboveFloor
  {
    var entries := CheckNonceWindow(nonce, consumed, floor, maxAboveFloor);
    assert AllPassed(entries) <==> entries[0].passed && entries[1].passed && entries[2].passed;
  }

  /** Past the cap, every answer that is not an upstream failure carries exactly one
      deadline entry: the request-wide one. */
  lemma OneDeadlineEntry(cache: map<Key, A1Data>, policy: BookPolicy, body: Body, ctx: Context)
    requires |body.requestContracts| <= BatchLimit(policy)
    requires RunA4(cache, policy, body, ctx) != Err(UpstreamUnavailable)
    ensures Filter(Entries(RunA4(cache, policy, body, ctx)), (e: CheckEntry) => IsDeadlineEntry(e)) ==
            [BodyDeadline(policy, body, ctx)]
  {
    hide ContractEntries, RequestsFor, RollUp, Filter, Entries;
    var deadlineCheck := BodyDeadline(policy, body, ctx);
    if BookRejected(policy, body) {
      var checks := [Failed(BookAccepted), deadlineCheck] + SKIPPED_NONCE_CHECKS;
      RolledUp(checks);
      assert checks == [Failed(BookAccepted)] + [deadlineCheck] + SKIPPED_NONCE_CHECKS;
      OnlyDeadline([Failed(BookAccepted)], deadlineCheck, SKIPPED_NONCE_CHECKS);
    } else {
      if body.operation == Whitelist { EntriesAreSuffixed(cache, RequestsFor(policy, body, ctx)); }
      var head := BookEntries(policy) + PerContract(cache, policy, body, ctx).value;
      match ctx.book {
        case Reverted =>
          var tail := [Failed(BookExposesNonces)] + SKIPPED_NONCE_CHECKS;
          assert head + [deadlineCheck] + tail == head + [deadlineCheck] + [Failed(BookExposesNonces)] + SKIPPED_NONCE_CHECKS;
          RolledUp(head + [deadlineCheck] + tail);
          OnlyDeadline(head, deadlineCheck, tail);
        case Success(state) =>
          RolledUp(head + [deadlineCheck] + NonceEntries(policy, body, state));
          OnlyDeadline(head, deadlineCheck, NonceEntries(policy, body, state));
        case TransportFailure =>
      }
    }
  }

  lemma OnlyDeadline(head: seq<CheckEntry>, deadlineCheck: CheckEntry, tail: seq<CheckEntry>)
    requires IsDeadlineEntry(deadlineCheck)
    requires forall e :: e in head ==> !IsDeadlineEntry(e)
    requires forall e :: e in tail ==> !IsDeadlineEntry(e)
    ensures Filter(head + [deadlineCheck] + tail, (e: CheckEntry) => IsDeadlineEntry(e)) == [deadlineCheck]
  {
    var p := (e: CheckEntry) => IsDeadlineEntry(e);
    FilterNone(head, p);
    assert (head + [deadlineCheck])[..|head|] == head;
    assert Filter(head + [deadlineCheck], p) == [deadlineCheck];
    FilterAppendNone(head + [deadlineCheck], tail, p);
  }
}
