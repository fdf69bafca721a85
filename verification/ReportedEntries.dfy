/**
 What the reported entries say: an entry that is not skipped passes exactly when
 the condition it names holds, and each runner reports the entries of its path.
 */
module ReportedEntries {
  import opened Common
  import opened Checks
  import opened RoleEvents
  import opened RequestBinding
  import opened BindingCorrectness
  import opened BindingCache
  import opened RequestWhitelisting
  import IntentSwap

  /** The entry is a definite answer to whether `holds`. */
  ghost predicate Tells(e: CheckEntry, holds: bool) {
    !e.skipped && (e.passed <==> holds)
  }

  ghost predicate LeftOut(e: CheckEntry) {
    e.skipped && e.passed
  }

  ghost predicate Reports(checks: seq<CheckEntry>, d: Description) {
    exists i :: 0 <= i < |checks| && checks[i].description == d
  }

  lemma ReportsListed(checks: seq<CheckEntry>, ds: seq<Description>)
    requires |checks| == |ds| && forall i :: 0 <= i < |ds| ==> checks[i].description == ds[i]
    ensures forall d :: Reports(checks, d) <==> d in ds
  {
    forall d ensures Reports(checks, d) <==> d in ds {
      if d in ds {
        var i :| 0 <= i < |ds| && ds[i] == d;
        assert checks[i].description == d;
      }
    }
  }

  // ---------------------------------------------------------------------
  // Appendix A.1
  // ---------------------------------------------------------------------

  /** The data name a factory that the policy accepts. */
  ghost predicate Deployed(data: A1Data, policy: Policy, chainId: nat) {
    !data.NoFactory? &&
    (InList(policy.requestFactories, chainId, data.factory) || InList(policy.flashLoanFactories, chainId, data.factory))
  }

  /** The entry on the role with this bit: definite on complete data; on partial data
      refused, or under "skip" left out if no holder in the window is a stranger. */
  ghost predicate TellsRole(e: CheckEntry, data: A1Data, policy: Policy, chainId: nat, bit: nat, sets: map<nat, set<Address>>) {
    if !Deployed(data, policy, chainId) then LeftOut(e)
    else
      match data
      case ResolvedData(_, _, holders) => Tells(e, HeldOnlyBy(holders, bit, sets, chainId))
      case TooOldData(_, _, partial) =>
        if policy.onLookbackExhausted == Skip &&
           HeldOnlyByAny(if partial.Some? then partial.value else map[], bit, sets, chainId)
        then LeftOut(e) else Tells(e, false)
      case NoFactory => true
  }

  ghost predicate TellsClassic(e: CheckEntry, data: A1Data, policy: Policy, call: Call) {
    match e.description
    case DeadlineWithinCeiling => Tells(e, call.deadline <= call.nowUnix + policy.maxDeadlineSecondsAhead)
    case DeployedByAcceptedFactory => Tells(e, Deployed(data, policy, call.chainId))
    case OwnerAccepted =>
      if Deployed(data, policy, call.chainId) then Tells(e, InSet(policy.owners, call.chainId, data.owner)) else LeftOut(e)
    case PullerAccepted => TellsRole(e, data, policy, call.chainId, 0, policy.pullers)
    case ConsumerAccepted => TellsRole(e, data, policy, call.chainId, 1, policy.consumers)
    case ExecutorAccepted => TellsRole(e, data, policy, call.chainId, 0, policy.flashLoanExecutors)
    case _ => false
  }

  /** A flash-loan contract is asked for its executors, any other one for its pullers
      and consumers. */
  ghost predicate AskedOf(d: Description, data: A1Data, policy: Policy, chainId: nat) {
    || d == DeadlineWithinCeiling || d == DeployedByAcceptedFactory || d == OwnerAccepted
    || (if Deployed(data, policy, chainId) && InList(policy.flashLoanFactories, chainId, data.factory)
        then d == ExecutorAccepted else d == PullerAccepted || d == ConsumerAccepted)
  }

  lemma RoleEntry(d: Description, data: A1Data, bit: nat, policy: Policy, chainId: nat, sets: map<nat, set<Address>>)
    requires Deployed(data, policy, chainId)
    ensures var e := RoleCheck(d, data, {bit}, SetFor(sets, chainId), policy.onLookbackExhausted);
            e.description == d && TellsRole(e, data, policy, chainId, bit, sets)
  {
    hide HolderSet, InSet, InList, SetFor;
    if data.TooOldData? {
      var partial := if data.partialHolders.Some? then data.partialHolders.value else map[];
      AllAcceptedMeans(partial, bit, sets, chainId);
    } else {
      SubsetMeans(d, data.holders, bit, sets, chainId);
    }
  }

  /** Every entry on the classic path is true of the data, and no question is left out. */
  lemma EvaluatedEntries(data: A1Data, policy: Policy, call: Call)
    ensures var checks := EvaluateA1(data, policy, call.chainId, DeadlineEntry(policy, call));
            && (forall i :: 0 <= i < |checks| ==> TellsClassic(checks[i], data, policy, call))
            && (forall d :: Reports(checks, d) <==> AskedOf(d, data, policy, call.chainId))
  {
    hide RoleCheck, InSet, InList, Accepts, Lists, SetFor, IsFlashLoanFactory, IsAcceptedFactory, TellsRole, Reports;
    var checks := EvaluateA1(data, policy, call.chainId, DeadlineEntry(policy, call));
    if data.NoFactory? {
      UnmatchedEntries(checks, data, policy, call);
    } else {
      PolicyByValue(policy, call, data.factory);
      InSetIff(policy.owners, call.chainId, data.owner);
      if Deployed(data, policy, call.chainId) {
        RoleEntry(ExecutorAccepted, data, 0, policy, call.chainId, policy.flashLoanExecutors);
        RoleEntry(PullerAccepted, data, 0, policy, call.chainId, policy.pullers);
        RoleEntry(ConsumerAccepted, data, 1, policy, call.chainId, policy.consumers);
        ReportsListed(checks,
                      if IsFlashLoanFactory(policy, call.chainId, data.factory)
                      then [DeployedByAcceptedFactory, OwnerAccepted, ExecutorAccepted, DeadlineWithinCeiling]
                      else [DeployedByAcceptedFactory, OwnerAccepted, PullerAccepted, ConsumerAccepted, DeadlineWithinCeiling]);
      } else {
        UnmatchedEntries(checks, data, policy, call);
      }
    }
  }

  lemma UnmatchedEntries(checks: seq<CheckEntry>, data: A1Data, policy: Policy, call: Call)
    requires !Deployed(data, policy, call.chainId)
    requires checks == [Failed(DeployedByAcceptedFactory), Skipped(OwnerAccepted), Skipped(PullerAccepted),
                        Skipped(ConsumerAccepted), DeadlineEntry(policy, call)]
    ensures forall i :: 0 <= i < |checks| ==> TellsClassic(checks[i], data, policy, call)
    ensures forall d :: Reports(checks, d) <==> AskedOf(d, data, policy, call.chainId)
  {
    hide InList, Reports;
    ReportsListed(checks, [DeployedByAcceptedFactory, OwnerAccepted, PullerAccepted, ConsumerAccepted, DeadlineWithinCeiling]);
  }

  /** What the classic path decides on: a cached entry whose owner is not a listed
      retargetter, or without an entry what the reads found. */
  ghost predicate DecidesOn(node: Node, policy: Policy, call: Call, cached: Option<A1Data>, data: A1Data) {
    if cached.Some? then
      data == cached.value && (data.NoFactory? || !InSet(policy.acceptedRetargetters, call.chainId, data.owner))
    else
      Fetch(node, policy, call.chainId, call.contract, call.signals) == Ok(OnChain(data))
  }

  /** The classic path reports exactly its questions, each with the true answer. */
  lemma ClassicEntries(node: Node, policy: Policy, call: Call, cached: Option<A1Data>, data: A1Data)
    requires !InSet(policy.trustedRequestContracts, call.chainId, call.contract)
    requires DecidesOn(node, policy, call, cached, data)
    ensures RunA1(node, policy, call, cached) != Err(UpstreamUnavailable)
    ensures var checks := Entries(RunA1(node, policy, call, cached));
            && (forall i :: 0 <= i < |checks| ==> TellsClassic(checks[i], data, policy, call))
            && (forall d :: Reports(checks, d) <==> AskedOf(d, data, policy, call.chainId))
  {
    hide Fetch, EvaluateA1, InSet, Accepts, SetFor, TellsClassic, AskedOf, Reports;
    PolicyByValue(policy, call, call.contract);
    if cached.Some? && !data.NoFactory? { InSetIff(policy.acceptedRetargetters, call.chainId, data.owner); }
    EvaluatedEntries(data, policy, call);
    RolledUp(EvaluateA1(data, policy, call.chainId, DeadlineEntry(policy, call)));
  }

  ghost predicate TellsTrusted(e: CheckEntry, policy: Policy, call: Call) {
    match e.description
    case ContractTrusted => Tells(e, true)
    case DeadlineWithinCeiling => Tells(e, call.deadline <= call.nowUnix + policy.maxDeadlineSecondsAhead)
    case _ => LeftOut(e)
  }

  lemma TrustedAnswers(policy: Policy, call: Call, i: nat)
    requires i < 6
    ensures var checks := TrustedChecks(DeadlineEntry(policy, call));
            |checks| == 6 && TellsTrusted(checks[i], policy, call)
  {}

  /** A trusted contract is asked only for its deadline. */
  lemma TrustedEntries(node: Node, policy: Policy, call: Call, cached: Option<A1Data>)
    requires InSet(policy.trustedRequestContracts, call.chainId, call.contract)
    ensures RunA1(node, policy, call, cached) != Err(UpstreamUnavailable)
    ensures var checks := Entries(RunA1(node, policy, call, cached));
            && Reports(checks, ContractTrusted) && Reports(checks, DeadlineWithinCeiling)
            && forall i :: 0 <= i < |checks| ==> TellsTrusted(checks[i], policy, call)
  {
    hide InSet, Accepts, SetFor, RollUp, Reports, TellsTrusted;
    PolicyByValue(policy, call, call.contract);
    var checks := TrustedChecks(DeadlineEntry(policy, call));
    RolledUp(checks);
    forall i | 0 <= i < |checks| ensures TellsTrusted(checks[i], policy, call) { TrustedAnswers(policy, call, i); }
    ReportsListed(checks, [ContractTrusted, DeployedByAcceptedFactory, OwnerAccepted, PullerAccepted, ConsumerAccepted,
                           DeadlineWithinCeiling]);
  }

  lemma RetargetterPath(node: Node, policy: Policy, call: Call)
    requires !InSet(policy.trustedRequestContracts, call.chainId, call.contract)
    requires !node.multicallThrows && node.owner.Success? && node.operation.Success?
    requires InSet(policy.acceptedRetargetters, call.chainId, node.owner.result)
    ensures RunA1(node, policy, call, None) ==
            RollUp(EvaluateRetargetter(node.operation.result, call.contract, call.nowUnix, policy, DeadlineEntry(policy, call)))
  {
    hide InSet, Accepts, SetFor, EvaluateRetargetter, RollUp, DeadlineEntry;
    PolicyByValue(policy, call, call.contract);
    InSetIff(policy.acceptedRetargetters, call.chainId, node.owner.result);
  }

  ghost predicate TellsRetargetter(e: CheckEntry, operation: Operation, policy: Policy, call: Call) {
    match e.description
    case OwnerIsRetargetter => Tells(e, true)
    case AttachedRequest => Tells(e, operation.attachedRequest.value == call.contract.value)
    case RepaymentBuffer =>
      Tells(e, operation.repaymentDeadline >=
               call.nowUnix + if policy.minRepaymentBuffer.Some? then policy.minRepaymentBuffer.value else 6_912_000)
    case DeadlineWithinCeiling => Tells(e, call.deadline <= call.nowUnix + policy.maxDeadlineSecondsAhead)
    case _ => LeftOut(e)
  }

  lemma RetargetterAnswers(operation: Operation, policy: Policy, call: Call, i: nat)
    requires i < 8
    ensures var checks := EvaluateRetargetter(operation, call.contract, call.nowUnix, policy, DeadlineEntry(policy, call));
            |checks| == 8 && TellsRetargetter(checks[i], operation, policy, call)
  {}

  /** A contract of a listed retargetter is asked for the attached request, the time
      left for repayment, and its deadline. */
  lemma RetargetterEntries(node: Node, policy: Policy, call: Call)
    requires !InSet(policy.trustedRequestContracts, call.chainId, call.contract)
    requires !node.multicallThrows && node.owner.Success? && node.operation.Success?
    requires InSet(policy.acceptedRetargetters, call.chainId, node.owner.result)
    ensures RunA1(node, policy, call, None) != Err(UpstreamUnavailable)
    ensures var checks := Entries(RunA1(node, policy, call, None));
            && Reports(checks, OwnerIsRetargetter) && Reports(checks, AttachedRequest)
            && Reports(checks, RepaymentBuffer) && Reports(checks, DeadlineWithinCeiling)
            && forall i :: 0 <= i < |checks| ==> TellsRetargetter(checks[i], node.operation.result, policy, call)
  {
    hide InSet, Accepts, SetFor, RunA1, RollUp, Reports, TellsRetargetter;
    RetargetterPath(node, policy, call);
    var checks := EvaluateRetargetter(node.operation.result, call.contract, call.nowUnix, policy, DeadlineEntry(policy, call));
    RolledUp(checks);
    forall i | 0 <= i < |checks| ensures TellsRetargetter(checks[i], node.operation.result, policy, call) {
      RetargetterAnswers(node.operation.result, policy, call, i);
    }
    ReportsListed(checks, [OwnerIsRetargetter, DeployedByAcceptedFactory, OwnerAccepted, PullerAccepted, ConsumerAccepted,
                           AttachedRequest, RepaymentBuffer, DeadlineWithinCeiling]);
  }

  // ---------------------------------------------------------------------
  // Appendix A.3
  // ---------------------------------------------------------------------

  /** The entry is true of a swap in which `manager` holds the views of the only leg
      that is a position manager, if there is one. */
  ghost predicate TellsSwap(e: CheckEntry, policy: IntentSwap.SwapPolicy, body: IntentSwap.Body, nowUnix: int,
                            manager: Option<IntentSwap.Manager>, pm: IntentSwap.Leg, debt: IntentSwap.Leg)
  {
    match e.description
    case DeadlineWithinCeiling => Tells(e, body.deadline <= nowUnix + policy.maxDeadlineSecondsAhead)
    case ExactlyOnePositionManager => Tells(e, manager.Some?)
    case ManagerOwnerAccepted =>
      if manager.Some? then Tells(e, InSet(policy.pmOwners, body.chainId, manager.value.owner)) else LeftOut(e)
    case DebtAssetMatches =>
      if manager.Some? then Tells(e, debt.asset.value == manager.value.debtAsset.value) else LeftOut(e)
    case PriceWithinTolerance =>
      if manager.Some? && debt.asset.value == manager.value.debtAsset.value
      then Tells(e, IntentSwap.FairPrice(manager.value, pm.amount, debt.amount, policy.toleranceBps)) else LeftOut(e)
    case _ => false
  }

  ghost predicate SwapQuestion(d: Description) {
    d == ExactlyOnePositionManager || d == ManagerOwnerAccepted || d == DebtAssetMatches ||
    d == PriceWithinTolerance || d == DeadlineWithinCeiling
  }

  lemma ManagerEntries(policy: IntentSwap.SwapPolicy, body: IntentSwap.Body, nowUnix: int,
                       m: IntentSwap.Manager, pm: IntentSwap.Leg, debt: IntentSwap.Leg)
    ensures var checks := IntentSwap.ManagerChecks(policy, body.chainId, pm, debt, m, IntentSwap.DeadlineCheck(policy, body, nowUnix));
            && (forall i :: 0 <= i < |checks| ==> TellsSwap(checks[i], policy, body, nowUnix, Some(m), pm, debt))
            && (forall d :: Reports(checks, d) <==> SwapQuestion(d))
  {
    hide IntentSwap.PriceAccepted, IntentSwap.FairPrice, InSet, Accepts, SetFor, Reports;
    InSetIff(policy.pmOwners, body.chainId, m.owner);
    FairIff(m, pm.amount, debt.amount, policy.toleranceBps);
    var checks := IntentSwap.ManagerChecks(policy, body.chainId, pm, debt, m, IntentSwap.DeadlineCheck(policy, body, nowUnix));
    ReportsListed(checks, [ExactlyOnePositionManager, ManagerOwnerAccepted, DebtAssetMatches, PriceWithinTolerance, DeadlineWithinCeiling]);
  }

  lemma FairIff(m: IntentSwap.Manager, shares: nat, actual: nat, bps: nat)
    ensures IntentSwap.FairPrice(m, shares, actual, bps) <==>
            IntentSwap.Denominator(m) > 0 && IntentSwap.PriceAccepted(shares, actual, m, bps)
  {
    IntentSwap.PriceBand(shares, actual, m, bps);
  }

  lemma NoManagerEntries(policy: IntentSwap.SwapPolicy, body: IntentSwap.Body, nowUnix: int, pm: IntentSwap.Leg, debt: IntentSwap.Leg)
    ensures var v := IntentSwap.NotOneManager(IntentSwap.DeadlineCheck(policy, body, nowUnix));
            && v != Err(UpstreamUnavailable)
            && (forall i :: 0 <= i < |Entries(v)| ==> TellsSwap(Entries(v)[i], policy, body, nowUnix, None, pm, debt))
            && (forall d :: Reports(Entries(v), d) <==> SwapQuestion(d))
  {
    hide RollUp, Reports;
    var checks := [Failed(ExactlyOnePositionManager), Skipped(ManagerOwnerAccepted), Skipped(DebtAssetMatches),
                   Skipped(PriceWithinTolerance), IntentSwap.DeadlineCheck(policy, body, nowUnix)];
    RolledUp(checks);
    ReportsListed(checks, [ExactlyOnePositionManager, ManagerOwnerAccepted, DebtAssetMatches, PriceWithinTolerance, DeadlineWithinCeiling]);
  }

  /** The swap check reports its five questions, each with the true answer. */
  lemma SwapEntries(node: IntentSwap.SwapNode, policy: IntentSwap.SwapPolicy, body: IntentSwap.Body, nowUnix: int)
    requires IntentSwap.RunA3(node, policy, body, nowUnix) != Err(UpstreamUnavailable)
    ensures var checks := Entries(IntentSwap.RunA3(node, policy, body, nowUnix));
            var a := IntentSwap.IsManager(node, policy, body.chainId, body.legA.asset);
            var b := IntentSwap.IsManager(node, policy, body.chainId, body.legB.asset);
            var pm, debt := if a then body.legA else body.legB, if a then body.legB else body.legA;
            var manager := if a == b then None else node.manager(pm.asset);
            && (a != b ==> manager.Some?)
            && (forall i :: 0 <= i < |checks| ==> TellsSwap(checks[i], policy, body, nowUnix, manager, pm, debt))
            && (forall d :: Reports(checks, d) <==> SwapQuestion(d))
  {
    hide IntentSwap.ManagerChecks, IntentSwap.NotOneManager, IntentSwap.AnyTransport, IntentSwap.AnyReverted, IntentSwap.AnyHit,
         IntentSwap.SlotsFor, IntentSwap.IsManager, TellsSwap, SwapQuestion, Reports, AllPassed;
    IntentSwap.HitIff(node, policy, body, body.legA.asset);
    IntentSwap.HitIff(node, policy, body, body.legB.asset);
    var a := IntentSwap.IsManager(node, policy, body.chainId, body.legA.asset);
    var b := IntentSwap.IsManager(node, policy, body.chainId, body.legB.asset);
    var pm, debt := if a then body.legA else body.legB, if a then body.legB else body.legA;
    if IntentSwap.Factories(policy, body) == [] {
      IntentSwap.NoFactoryNoHit(node, body.legA.asset);
      IntentSwap.NoFactoryNoHit(node, body.legB.asset);
    }
    NoManagerEntries(policy, body, nowUnix, pm, debt);
    if a != b { ManagerEntries(policy, body, nowUnix, node.manager(pm.asset).value, pm, debt); }
  }

  // ---------------------------------------------------------------------
  // Appendix A.4
  // ---------------------------------------------------------------------

  /** The verdict of the call for the i-th listed contract, in its turn. */
  ghost function CallVerdict(cache: map<Key, A1Data>, policy: BookPolicy, body: Body, ctx: Context, i: nat): Verdict
    requires i < |body.requestContracts|
  {
    RunA1(ctx.interference(i).node, policy.contracts,
          Call(body.chainId, body.requestContracts[i], body.deadline, ctx.nowUnix, ctx.interference(i).signals),
          SeenBy(cache, policy, body, ctx, i))
  }

  /** `e` repeats, under the name of contract `c`, an entry of verdict `v` other than
      the deadline's. */
  ghost predicate Repeats(e: CheckEntry, v: Verdict, c: Address) {
    && v != Err(UpstreamUnavailable)
    && e.description.ForContract? && e.description.contract == c && e.description.what != DeadlineWithinCeiling
    && CheckEntry(e.description.what, e.passed, e.skipped) in Entries(v)
  }

  ghost predicate RepeatsSome(e: CheckEntry, rs: seq<Request>, vs: seq<Verdict>)
    requires |rs| == |vs|
  {
    exists i :: 0 <= i < |rs| && Repeats(e, vs[i], rs[i].call.contract)
  }

  lemma SuffixedRepeats(v: Verdict, c: Address, e: CheckEntry)
    requires v != Err(UpstreamUnavailable)
    requires forall i :: 0 <= i < |Entries(v)| && Entries(v)[i].skipped ==> Entries(v)[i].passed
    ensures e in SuffixAll(Entries(v), c) <==> Repeats(e, v, c)
  {
    var p := (x: CheckEntry) => !IsDeadlineEntry(x);
    var kept := Filter(Entries(v), p);
    if e in SuffixAll(Entries(v), c) {
      var i :| 0 <= i < |kept| && e == Suffixed(kept[i], c);
      assert kept[i] in kept;
      FilterMember(Entries(v), p, kept[i]);
    }
    if Repeats(e, v, c) {
      var x := CheckEntry(e.description.what, e.passed, e.skipped);
      FilterMember(Entries(v), p, x);
      var i :| 0 <= i < |kept| && kept[i] == x;
      assert SuffixAll(Entries(v), c)[i] == e;
    }
  }

  lemma OneRepeats(cache: map<Key, A1Data>, r: Request, e: CheckEntry)
    requires ServeOne(cache, r).0 != Err(UpstreamUnavailable)
    ensures var v := ServeOne(cache, r).0;
            e in SuffixAll(Entries(v), r.call.contract) <==> Repeats(e, v, r.call.contract)
  {
    hide RunA1, SuffixAll, Repeats;
    VerdictShape(r.node, r.policy, r.call, Seen(cache, r));
    SuffixedRepeats(ServeOne(cache, r).0, r.call.contract, e);
  }

  /** The entries of a batch are those of its calls, each under its contract's name. */
  lemma {:induction false} EntriesRepeat(cache: map<Key, A1Data>, rs: seq<Request>, e: CheckEntry)
    requires ContractEntries(cache, rs).Ok?
    ensures |ServeAll(cache, rs)| == |rs|
    ensures e in ContractEntries(cache, rs).value <==> RepeatsSome(e, rs, ServeAll(cache, rs))
    decreases |rs|
  {
    hide ServeOne, SuffixAll, Repeats;
    if rs != [] {
      NextContract(cache, rs);
      OneRepeats(cache, rs[0], e);
      var (v, after) := ServeOne(cache, rs[0]);
      EntriesRepeat(after, rs[1..], e);
      var all, rest := ServeAll(cache, rs), ServeAll(after, rs[1..]);
      assert all == [v] + rest;
      if RepeatsSome(e, rs[1..], rest) {
        var i :| 0 <= i < |rest| && Repeats(e, rest[i], rs[1..][i].call.contract);
        assert Repeats(e, all[i + 1], rs[i + 1].call.contract);
      }
      if RepeatsSome(e, rs, all) && !Repeats(e, v, rs[0].call.contract) {
        var i :| 0 <= i < |all| && Repeats(e, all[i], rs[i].call.contract);
        assert Repeats(e, rest[i - 1], rs[1..][i - 1].call.contract);
      }
    }
  }

  ghost predicate RepeatsListed(e: CheckEntry, cache: map<Key, A1Data>, policy: BookPolicy, body: Body, ctx: Context) {
    exists i :: 0 <= i < |body.requestContracts| && Repeats(e, CallVerdict(cache, policy, body, ctx, i), body.requestContracts[i])
  }

  lemma ListedRepeat(cache: map<Key, A1Data>, policy: BookPolicy, body: Body, ctx: Context, e: CheckEntry)
    requires ContractEntries(cache, RequestsFor(policy, body, ctx)).Ok?
    ensures e in ContractEntries(cache, RequestsFor(policy, body, ctx)).value <==> RepeatsListed(e, cache, policy, body, ctx)
  {
    hide RunA1, CacheAfter, ServeAll, ContractEntries, Repeats;
    var rs := RequestsFor(policy, body, ctx);
    EntriesRepeat(cache, rs, e);
    forall i | 0 <= i < |rs| ensures ServeAll(cache, rs)[i] == CallVerdict(cache, policy, body, ctx, i) {
      ServeAllAt(cache, rs, i);
    }
  }

  /** The batch is within the cap, and its book accepted if books are configured. */
  ghost predicate WithinCap(policy: BookPolicy, body: Body) {
    |body.requestContracts| <= if policy.maxRequestContracts.Some? then policy.maxRequestContracts.value else 50
  }

  ghost predicate BookHolds(policy: BookPolicy, body: Body) {
    policy.acceptedBooks.Some? ==> InSet(policy.acceptedBooks.value, body.chainId, body.whitelistBook)
  }

  /** What a batch within the cap reports. */
  ghost predicate ReportedByBatch(e: CheckEntry, cache: map<Key, A1Data>, policy: BookPolicy, body: Body, ctx: Context) {
    var book := ctx.book;
    match e.description
    case BookAccepted => policy.acceptedBooks.Some? && Tells(e, BookHolds(policy, body))
    case DeadlineWithinCeiling => Tells(e, body.deadline <= ctx.nowUnix + policy.contracts.maxDeadlineSecondsAhead)
    case BookExposesNonces => BookHolds(policy, body) && book.Reverted? && Tells(e, false)
    case NonceNotConsumed =>
      if BookHolds(policy, body) && book.Success? then Tells(e, !book.result.consumed) else LeftOut(e)
    case NonceAtOrAboveFloor =>
      if BookHolds(policy, body) && book.Success? then Tells(e, body.nonce >= book.result.floor) else LeftOut(e)
    case NonceWithinCeiling =>
      if BookHolds(policy, body) && book.Success? then Tells(e, body.nonce <= book.result.floor + policy.maxNonceAboveFloor) else LeftOut(e)
    case ForContract(_, _) =>
      BookHolds(policy, body) && body.operation == Whitelist && RepeatsListed(e, cache, policy, body, ctx)
    case _ => false
  }

  predicate IsNonceQuestion(d: Description) {
    d == NonceNotConsumed || d == NonceAtOrAboveFloor || d == NonceWithinCeiling
  }

  lemma SkippedNonces(e: CheckEntry)
    ensures e in SKIPPED_NONCE_CHECKS <==> IsNonceQuestion(e.description) && LeftOut(e)
  {
    if IsNonceQuestion(e.description) && LeftOut(e) {
      assert e == Skipped(e.description);
      assert SKIPPED_NONCE_CHECKS[0] == Skipped(NonceNotConsumed) && SKIPPED_NONCE_CHECKS[1] == Skipped(NonceAtOrAboveFloor)
             && SKIPPED_NONCE_CHECKS[2] == Skipped(NonceWithinCeiling);
    }
  }

  lemma NonceAnswers(policy: BookPolicy, body: Body, state: BookState, e: CheckEntry)
    ensures e in NonceEntries(policy, body, state) <==>
            match e.description
            case NonceNotConsumed => Tells(e, !state.consumed)
            case NonceAtOrAboveFloor => Tells(e, body.nonce >= state.floor)
            case NonceWithinCeiling => Tells(e, body.nonce <= state.floor + policy.maxNonceAboveFloor)
            case _ => false
  {
    var checks := NonceEntries(policy, body, state);
    assert checks == [checks[0], checks[1], checks[2]];
  }

  lemma OneAnswer(e: CheckEntry, d: Description, holds: bool)
    ensures e == (if holds then Passed(d) else Failed(d)) <==> e.description == d && Tells(e, holds)
  {}

  /** The entries of the listed contracts, if any are due. */
  lemma ContractAnswers(cache: map<Key, A1Data>, policy: BookPolicy, body: Body, ctx: Context, e: CheckEntry)
    requires PerContract(cache, policy, body, ctx).Ok?
    ensures e in PerContract(cache, policy, body, ctx).value <==>
            e.description.ForContract? && body.operation == Whitelist && RepeatsListed(e, cache, policy, body, ctx)
  {
    hide ContractEntries, RequestsFor, RunA1;
    if body.operation == Whitelist { ListedRepeat(cache, policy, body, ctx, e); }
  }

  lemma GateAnswers(cache: map<Key, A1Data>, policy: BookPolicy, body: Body, ctx: Context, e: CheckEntry)
    requires PerContract(cache, policy, body, ctx).Ok? && BookHolds(policy, body)
    ensures e in BookEntries(policy) + PerContract(cache, policy, body, ctx).value + [BodyDeadline(policy, body, ctx)] <==>
            match e.description
            case BookAccepted => policy.acceptedBooks.Some? && Tells(e, true)
            case DeadlineWithinCeiling => Tells(e, body.deadline <= ctx.nowUnix + policy.contracts.maxDeadlineSecondsAhead)
            case ForContract(_, _) => body.operation == Whitelist && RepeatsListed(e, cache, policy, body, ctx)
            case _ => false
  {
    hide PerContract, RepeatsListed, InSet, Tells;
    OneAnswer(e, BookAccepted, true);
    OneAnswer(e, DeadlineWithinCeiling, body.deadline <= ctx.nowUnix + policy.contracts.maxDeadlineSecondsAhead);
    ContractAnswers(cache, policy, body, ctx, e);
  }

  lemma AcceptedBatch(cache: map<Key, A1Data>, policy: BookPolicy, body: Body, ctx: Context, e: CheckEntry)
    requires RunA4(cache, policy, body, ctx) != Err(UpstreamUnavailable)
    requires WithinCap(policy, body) && BookHolds(policy, body)
    ensures e in Entries(RunA4(cache, policy, body, ctx)) <==> ReportedByBatch(e, cache, policy, body, ctx)
  {
    hide PerContract, RepeatsListed, InSet, RollUp, NonceEntries, Tells, LeftOut, BookEntries, BodyDeadline;
    BookGate(policy, body);
    GateAnswers(cache, policy, body, ctx, e);
    var checks := BookEntries(policy) + PerContract(cache, policy, body, ctx).value + [BodyDeadline(policy, body, ctx)];
    if ctx.book.Success? {
      RolledUp(checks + NonceEntries(policy, body, ctx.book.result));
      NonceAnswers(policy, body, ctx.book.result, e);
    } else {
      SkippedNonces(e);
      OneAnswer(e, BookExposesNonces, false);
      RolledUp(checks + [Failed(BookExposesNonces)] + SKIPPED_NONCE_CHECKS);
    }
  }

  /** A batch over the cap reports that alone; any other one exactly its gates, each with
      the true answer, and for a whitelisting every entry of every contract's verdict. */
  lemma BatchEntries(cache: map<Key, A1Data>, policy: BookPolicy, body: Body, ctx: Context, e: CheckEntry)
    requires RunA4(cache, policy, body, ctx) != Err(UpstreamUnavailable)
    ensures e in Entries(RunA4(cache, policy, body, ctx)) <==>
            if WithinCap(policy, body) then ReportedByBatch(e, cache, policy, body, ctx)
            else e.description == BatchSize && Tells(e, false)
  {
    hide PerContract, RepeatsListed, InSet, RollUp, NonceEntries, Tells, LeftOut;
    BookGate(policy, body);
    if !WithinCap(policy, body) {
      OneAnswer(e, BatchSize, false);
      RolledUp([Failed(BatchSize)]);
    } else if !BookHolds(policy, body) {
      SkippedNonces(e);
      OneAnswer(e, BookAccepted, false);
      OneAnswer(e, DeadlineWithinCeiling, body.deadline <= ctx.nowUnix + policy.contracts.maxDeadlineSecondsAhead);
      RolledUp([Failed(BookAccepted), BodyDeadline(policy, body, ctx)] + SKIPPED_NONCE_CHECKS);
    } else {
      AcceptedBatch(cache, policy, body, ctx, e);
    }
  }
}
