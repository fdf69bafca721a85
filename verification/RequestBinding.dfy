/**
 The decision to sign an intent-request binding (Appendix A.1): the reads it
 makes, how it classifies them, and how the entries are evaluated.
 */
module RequestBinding {
  import opened Common
  import opened Checks
  import opened OrderedMaps
  import opened RoleEvents
  import opened RoleScan

  datatype Disposition = Skip | Fail

  datatype Policy = Policy(
    maxDeadlineSecondsAhead: int,
    trustedRequestContracts: map<nat, set<Address>>,
    acceptedRetargetters: map<nat, set<Address>>,
    minRepaymentBuffer: Option<nat>,
    requestFactories: map<nat, seq<Address>>,
    flashLoanFactories: map<nat, seq<Address>>,
    flashLoanExecutors: map<nat, set<Address>>,
    owners: map<nat, set<Address>>,
    pullers: map<nat, set<Address>>,
    consumers: map<nat, set<Address>>,
    blockRange: int,
    maxLookbackBlocks: int,
    scanDeadlineMs: Option<int>,
    onLookbackExhausted: Disposition)

  const ROLE_PULLER: Bits := {0}
  const ROLE_CONSUMER: Bits := {1}
  const DEFAULT_MIN_REPAYMENT_BUFFER := 80 * 24 * 60 * 60

  function SetFor(sets: map<nat, set<Address>>, chainId: nat): set<Address> {
    if chainId in sets then sets[chainId] else {}
  }

  function ListFor(lists: map<nat, seq<Address>>, chainId: nat): seq<Address> {
    if chainId in lists then lists[chainId] else []
  }

  // ---------------------------------------------------------------------
  // Reads
  // ---------------------------------------------------------------------

  /** One read: an answer, a deterministic failure of the callee, or anything else. */
  datatype Slot<+T> = Success(result: T) | Reverted | TransportFailure

  datatype Operation = Operation(attachedRequest: Address, repaymentDeadline: int)

  /** The node's answers about one request contract. */
  datatype Node = Node(
    multicallThrows: bool,
    owner: Slot<Address>,
    isRequest: Address -> Slot<bool>,
    isFlashLoanRequest: Address -> Slot<bool>,
    operation: Slot<Operation>,
    blockNumber: Option<nat>,
    hasCode: int -> Option<bool>,
    getLogs: GetLogs)

  datatype Call = Call(chainId: nat, contract: Address, deadline: int, nowUnix: int, signals: Signals)

  /** What the classic path reads; the cached value. */
  datatype A1Data =
    | NoFactory
    | TooOldData(factory: Address, owner: Address, partialHolders: Option<Roles>)
    | ResolvedData(factory: Address, owner: Address, holders: Roles)

  datatype Fetched = OnChain(data: A1Data) | Retargetter(retargetter: Address, operation: Operation)

  datatype FactoryCheck = FactoryCheck(factory: Address, flashLoan: bool)

  function FactoryChecks(policy: Policy, chainId: nat): seq<FactoryCheck> {
    var classic, flash := ListFor(policy.requestFactories, chainId), ListFor(policy.flashLoanFactories, chainId);
    seq(|classic|, i requires 0 <= i < |classic| => FactoryCheck(classic[i], false)) +
    seq(|flash|, i requires 0 <= i < |flash| => FactoryCheck(flash[i], true))
  }

  function Answer(node: Node, check: FactoryCheck): Slot<bool> {
    if check.flashLoan then node.isFlashLoanRequest(check.factory) else node.isRequest(check.factory)
  }

  predicate Claims(node: Node, check: FactoryCheck) {
    Answer(node, check) == Success(true)
  }

  /** Factories that claim the contract, by lower-cased address. */
  function Hits(node: Node, checks: seq<FactoryCheck>): OrderedMap<Address, Address> {
    if checks == [] then []
    else
      var hits := Hits(node, checks[..|checks| - 1]);
      var check := checks[|checks| - 1];
      if Claims(node, check) then Put(hits, Lower(check.factory), check.factory) else hits
  }

  function Values(hits: OrderedMap<Address, Address>): seq<Address> {
    seq(|hits|, i requires 0 <= i < |hits| => hits[i].1)
  }

  function Matched(node: Node, policy: Policy, chainId: nat): seq<Address> {
    Values(Hits(node, FactoryChecks(policy, chainId)))
  }

  predicate AnyUnanswered(node: Node, checks: seq<FactoryCheck>) {
    exists i :: 0 <= i < |checks| && !Answer(node, checks[i]).Success?
  }

  function ArgsFor(node: Node, policy: Policy, chainId: nat, contract: Address, latest: nat): ScanArgs {
    ScanArgs(Matched(node, policy, chainId), contract, latest,
             policy.blockRange, policy.maxLookbackBlocks, policy.scanDeadlineMs)
  }

  /** Under "fail", code just before the window settles "older than the window". */
  predicate PredatesWindow(node: Node, policy: Policy, latest: nat) {
    policy.onLookbackExhausted == Fail && latest > policy.maxLookbackBlocks &&
    node.hasCode(latest - policy.maxLookbackBlocks - 1) == Some(true)
  }

  /** The second stage, for matched factories. */
  function ReadRoles(node: Node, policy: Policy, chainId: nat, contract: Address, owner: Address, signals: Signals)
    : Result<A1Data, RunnerError>
    requires Matched(node, policy, chainId) != []
  {
    var matched := Matched(node, policy, chainId);
    match node.blockNumber
    case None => Err(UpstreamUnavailable)
    case Some(latest) =>
      if PredatesWindow(node, policy, latest) then Ok(TooOldData(matched[0], owner, None))
      else
        match Scan(node.getLogs, signals, ArgsFor(node, policy, chainId, contract, latest))
        case None => Err(UpstreamUnavailable)
        case Some(TooOld(partial)) => Ok(TooOldData(matched[0], owner, Some(partial)))
        case Some(Resolved(holders, _, factory)) =>
          Ok(ResolvedData(if factory.Some? then factory.value else matched[0], owner, holders))
  }

  function Fetch(node: Node, policy: Policy, chainId: nat, contract: Address, signals: Signals): Result<Fetched, RunnerError> {
    if node.multicallThrows then Err(UpstreamUnavailable)
    else
      match node.owner
      case Reverted => Ok(OnChain(NoFactory))
      case TransportFailure => Err(UpstreamUnavailable)
      case Success(owner) =>
        if Accepts(SetFor(policy.acceptedRetargetters, chainId), owner) then
          if node.operation.Success? then Ok(Retargetter(owner, node.operation.result)) else Err(UpstreamUnavailable)
        else if Matched(node, policy, chainId) == [] then
          if AnyUnanswered(node, FactoryChecks(policy, chainId)) then Err(UpstreamUnavailable) else Ok(OnChain(NoFactory))
        else
          match ReadRoles(node, policy, chainId, contract, owner, signals)
          case Err(e) => Err(e)
          case Ok(data) => Ok(OnChain(data))
  }

  method FetchA1OnChain(node: Node, policy: Policy, chainId: nat, contract: Address, signals: Signals)
    returns (fetched: Result<Fetched, RunnerError>)
    ensures fetched == Fetch(node, policy, chainId, contract, signals)
  {
    hide Scan, Hits, FactoryChecks, AnyUnanswered, Accepts;
    var factoryChecks := FactoryChecks(policy, chainId);
    if node.multicallThrows { return Err(UpstreamUnavailable); }
    if node.owner.Reverted? { return Ok(OnChain(NoFactory)); }
    if node.owner.TransportFailure? { return Err(UpstreamUnavailable); }
    var owner := node.owner.result;
    if Accepts(SetFor(policy.acceptedRetargetters, chainId), owner) {
      if !node.operation.Success? { return Err(UpstreamUnavailable); }
      return Ok(Retargetter(owner, node.operation.result));
    }
    var factoryHits, failedFactories := MatchFactories(node, factoryChecks);
    if |factoryHits| == 0 {
      if |failedFactories| > 0 { return Err(UpstreamUnavailable); }
      return Ok(OnChain(NoFactory));
    }
    var matchedFactories := Values(factoryHits);
    if node.blockNumber.None? { return Err(UpstreamUnavailable); }
    var latestBlock := node.blockNumber.value;
    if policy.onLookbackExhausted == Fail && latestBlock > policy.maxLookbackBlocks {
      var code := node.hasCode(latestBlock - policy.maxLookbackBlocks - 1);
      if code == Some(true) {
        return Ok(OnChain(TooOldData(matchedFactories[0], owner, None)));
      }
    }
    var q := ScanArgs(matchedFactories, contract, latestBlock, policy.blockRange, policy.maxLookbackBlocks, policy.scanDeadlineMs);
    var outcome, _ := ScanRoleHolders(node.getLogs, signals, q);
    match outcome {
      case None => fetched := Err(UpstreamUnavailable);
      case Some(TooOld(partial)) => fetched := Ok(OnChain(TooOldData(matchedFactories[0], owner, Some(partial))));
      case Some(Resolved(holders, _, factory)) =>
        fetched := Ok(OnChain(ResolvedData(if factory.Some? then factory.value else matchedFactories[0], owner, holders)));
    }
  }

  /** The loop over the provenance slots. */
  method MatchFactories(node: Node, checks: seq<FactoryCheck>)
    returns (factoryHits: OrderedMap<Address, Address>, failedFactories: seq<Address>)
    ensures factoryHits == Hits(node, checks)
    ensures failedFactories != [] <==> AnyUnanswered(node, checks)
  {
    factoryHits, failedFactories := [], [];
    var i := 0;
    while i < |checks|
      invariant 0 <= i <= |checks|
      invariant factoryHits == Hits(node, checks[..i])
      invariant failedFactories != [] <==> AnyUnanswered(node, checks[..i])
    {
      assert checks[..i + 1][..i] == checks[..i] && checks[..i + 1][i] == checks[i];
      var slot := Answer(node, checks[i]);
      var factory := checks[i].factory;
      i := i + 1;
      if !slot.Success? {
        failedFactories := failedFactories + [factory];
        assert !Answer(node, checks[..i][i - 1]).Success?;
        continue;
      }
      if slot.result {
        factoryHits := Put(factoryHits, Lower(factory), factory);
      }
    }
    assert checks[..|checks|] == checks;
  }

  // ---------------------------------------------------------------------
  // Evaluation
  // ---------------------------------------------------------------------

  predicate AllAccepted(holders: set<Address>, accepted: set<Address>) {
    forall h :: h in holders ==> Accepts(accepted, h)
  }

  /** Every holder must be accepted, and there must be one. */
  function CheckSubset(d: Description, holders: set<Address>, accepted: set<Address>): CheckEntry {
    if holders == {} then Failed(d)
    else if AllAccepted(holders, accepted) then Passed(d)
    else Failed(d)
  }

  /** Partial data can only reject. */
  function CheckPartialHolders(d: Description, holders: set<Address>, accepted: set<Address>, disposition: Disposition): CheckEntry {
    if !AllAccepted(holders, accepted) then Failed(d)
    else if disposition == Fail then Failed(d)
    else Skipped(d)
  }

  predicate IsFlashLoanFactory(policy: Policy, chainId: nat, factory: Address) {
    Lists(ListFor(policy.flashLoanFactories, chainId), factory)
  }

  predicate IsAcceptedFactory(policy: Policy, chainId: nat, factory: Address) {
    Lists(ListFor(policy.requestFactories, chainId), factory) || IsFlashLoanFactory(policy, chainId, factory)
  }

  function RoleCheck(d: Description, data: A1Data, mask: Bits, accepted: set<Address>, disposition: Disposition): CheckEntry
    requires !data.NoFactory?
  {
    if data.TooOldData? then
      var partial := if data.partialHolders.Some? then data.partialHolders.value else map[];
      CheckPartialHolders(d, HolderSet(partial, mask), accepted, disposition)
    else
      CheckSubset(d, HolderSet(data.holders, mask), accepted)
  }

  function EvaluateA1(data: A1Data, policy: Policy, chainId: nat, deadlineCheck: CheckEntry): seq<CheckEntry> {
    if data.NoFactory? || !IsAcceptedFactory(policy, chainId, data.factory) then
      [Failed(DeployedByAcceptedFactory), Skipped(OwnerAccepted), Skipped(PullerAccepted), Skipped(ConsumerAccepted), deadlineCheck]
    else
      var factoryCheck := Passed(DeployedByAcceptedFactory);
      var ownerCheck := CheckMembership(OwnerAccepted, data.owner, SetFor(policy.owners, chainId));
      var d := policy.onLookbackExhausted;
      if IsFlashLoanFactory(policy, chainId, data.factory) then
        [factoryCheck, ownerCheck,
         RoleCheck(ExecutorAccepted, data, ROLE_PULLER, SetFor(policy.flashLoanExecutors, chainId), d),
         deadlineCheck]
      else
        [factoryCheck, ownerCheck,
         RoleCheck(PullerAccepted, data, ROLE_PULLER, SetFor(policy.pullers, chainId), d),
         RoleCheck(ConsumerAccepted, data, ROLE_CONSUMER, SetFor(policy.consumers, chainId), d),
         deadlineCheck]
  }

  function RepaymentFloor(policy: Policy, nowUnix: int): int {
    nowUnix + if policy.minRepaymentBuffer.Some? then policy.minRepaymentBuffer.value else DEFAULT_MIN_REPAYMENT_BUFFER
  }

  function EvaluateRetargetter(operation: Operation, contract: Address, nowUnix: int, policy: Policy, deadlineCheck: CheckEntry)
    : seq<CheckEntry>
  {
    [Passed(OwnerIsRetargetter),
     Skipped(DeployedByAcceptedFactory), Skipped(OwnerAccepted), Skipped(PullerAccepted), Skipped(ConsumerAccepted),
     if Lower(operation.attachedRequest) == Lower(contract) then Passed(AttachedRequest) else Failed(AttachedRequest),
     if operation.repaymentDeadline >= RepaymentFloor(policy, nowUnix) then Passed(RepaymentBuffer) else Failed(RepaymentBuffer),
     deadlineCheck]
  }

  function TrustedChecks(deadlineCheck: CheckEntry): seq<CheckEntry> {
    [Passed(ContractTrusted),
     Skipped(DeployedByAcceptedFactory), Skipped(OwnerAccepted), Skipped(PullerAccepted), Skipped(ConsumerAccepted),
     deadlineCheck]
  }

  // ---------------------------------------------------------------------
  // The runner
  // ---------------------------------------------------------------------

  function DeadlineEntry(policy: Policy, call: Call): CheckEntry {
    CheckDeadline(call.nowUnix, call.deadline, policy.maxDeadlineSecondsAhead)
  }

  predicate IsTrusted(policy: Policy, call: Call) {
    Accepts(SetFor(policy.trustedRequestContracts, call.chainId), call.contract)
  }

  /** A cached entry whose owner is now a listed retargetter is not replayed. */
  function Usable(policy: Policy, chainId: nat, cached: Option<A1Data>): Option<A1Data> {
    if cached.Some? && !cached.value.NoFactory? && Accepts(SetFor(policy.acceptedRetargetters, chainId), cached.value.owner)
    then None else cached
  }

  function EvaluateFetched(fetched: Result<Fetched, RunnerError>, policy: Policy, call: Call): Verdict {
    match fetched
    case Err(e) => Err(e)
    case Ok(Retargetter(_, operation)) =>
      RollUp(EvaluateRetargetter(operation, call.contract, call.nowUnix, policy, DeadlineEntry(policy, call)))
    case Ok(OnChain(data)) => RollUp(EvaluateA1(data, policy, call.chainId, DeadlineEntry(policy, call)))
  }

  /** The verdict, given what the cache lookup yielded. */
  function RunA1(node: Node, policy: Policy, call: Call, cached: Option<A1Data>): Verdict {
    if IsTrusted(policy, call) then RollUp(TrustedChecks(DeadlineEntry(policy, call)))
    else if Usable(policy, call.chainId, cached).Some? then
      RollUp(EvaluateA1(Usable(policy, call.chainId, cached).value, policy, call.chainId, DeadlineEntry(policy, call)))
    else
      EvaluateFetched(Fetch(node, policy, call.chainId, call.contract, call.signals), policy, call)
  }

  predicate Cacheable(data: A1Data) {
    !(data.TooOldData? && data.partialHolders.None?)
  }

  /** What the runner writes to the cache, if anything. */
  function Writeback(node: Node, policy: Policy, call: Call, cached: Option<A1Data>): Option<A1Data> {
    if IsTrusted(policy, call) || Usable(policy, call.chainId, cached).Some? then None
    else
      match Fetch(node, policy, call.chainId, call.contract, call.signals)
      case Ok(OnChain(data)) => if Cacheable(data) then Some(data) else None
      case _ => None
  }
}
