/**
 The decision to sign an intent swap (Appendix A.3): which leg is the position
 manager, whether the legs match its share price, and the message signed.
 */
module IntentSwap {
  import opened Common
  import opened Checks
  import opened Arithmetic
  import opened RequestBinding
  import opened BindingCorrectness

  datatype Leg = Leg(intentId: nat, asset: Address, amount: nat)

  datatype Body = Body(chainId: nat, facility: Address, legA: Leg, legB: Leg, deadline: nat)

  datatype SwapPolicy = SwapPolicy(
    maxDeadlineSecondsAhead: int,
    pmFactories: map<nat, seq<Address>>,
    pmOwners: map<nat, set<Address>>,
    toleranceBps: nat)

  datatype Manager = Manager(
    owner: Address,
    collateralAsset: Address,
    debtAsset: Address,
    totalAssets: nat,
    totalSupply: nat,
    managementFeeShares: nat,
    performanceFeeShares: nat,
    virtualShareOffset: nat)

  /** The node's answers; `manager` is None when the second multicall throws. */
  datatype SwapNode = SwapNode(
    multicallThrows: bool,
    isPositionManager: (Address, Address) -> Slot<bool>,
    manager: Address -> Option<Manager>)

  const VIRTUAL_ASSETS: nat := 1

  // ---------------------------------------------------------------------
  // Price
  // ---------------------------------------------------------------------

  function Denominator(m: Manager): nat {
    m.totalSupply + m.virtualShareOffset + m.managementFeeShares + m.performanceFeeShares
  }

  function Numerator(shares: nat, m: Manager): nat {
    shares * (m.totalAssets + VIRTUAL_ASSETS)
  }

  function ExpectedDebt(shares: nat, m: Manager): nat
    requires Denominator(m) > 0
  {
    Numerator(shares, m) / Denominator(m)
  }

  /** Basis points of `expected`, rounded down but at least one wei when any are allowed. */
  function Tolerance(expected: nat, bps: nat): nat {
    var proportional := expected * bps / 10_000;
    if proportional > 0 then proportional else if bps > 0 then 1 else 0
  }

  predicate Within(actual: nat, expected: nat, tolerance: nat) {
    (if actual > expected then actual - expected else expected - actual) <= tolerance
  }

  predicate PriceAccepted(shares: nat, actual: nat, m: Manager, bps: nat)
    requires Denominator(m) > 0
  {
    Within(actual, ExpectedDebt(shares, m), Tolerance(ExpectedDebt(shares, m), bps))
  }

  lemma MulLess(d: nat, a: int, r: nat)
    requires r < d
    ensures a * d <= r <==> a <= 0
    ensures a * d + r < 0 <==> a < 0
  {}

  /** Comparing with the rounded-down price is an exact band around the true price N/D. */
  lemma BandOfFloor(n: nat, d: nat, actual: nat, tol: nat)
    requires d > 0
    ensures Within(actual, n / d, tol) <==> n - (tol + 1) * d < actual * d <= n + tol * d
  {
    var e, r := n / d, n % d;
    assert n == d * e + r;
    MulLess(d, actual - tol - e, r);
    MulLess(d, e - tol - 1 - actual, r);
    assert (actual - tol - e) * d == actual * d - tol * d - e * d;
    assert (e - tol - 1 - actual) * d == e * d - (tol + 1) * d - actual * d;
  }

  /** Basis points of `expected`, rounded down, but one wei at least if any are allowed. */
  function Slack(expected: nat, bps: nat): nat {
    Max(expected * bps / 10_000, Min(bps, 1))
  }

  /** The price check accepts exactly the amounts with N - (tol+1)D < actual*D <= N + tol*D,
      where N/D is the share price: assets with one virtual asset over shares with the
      virtual ones and those of both pending fees. */
  lemma PriceBand(shares: nat, actual: nat, m: Manager, bps: nat)
    ensures var n, d := shares * (m.totalAssets + 1), m.totalSupply + m.virtualShareOffset + m.managementFeeShares + m.performanceFeeShares;
            && d == Denominator(m)
            && (d > 0 ==>
                  var tol := Slack(n / d, bps);
                  PriceAccepted(shares, actual, m, bps) <==> n - (tol + 1) * d < actual * d <= n + tol * d)
  {
    if Denominator(m) > 0 {
      BandOfFloor(Numerator(shares, m), Denominator(m), actual, Tolerance(ExpectedDebt(shares, m), bps));
      ToleranceIsSlack(ExpectedDebt(shares, m), bps);
    }
  }

  lemma ToleranceIsSlack(expected: nat, bps: nat)
    ensures Tolerance(expected, bps) == Slack(expected, bps)
  {
    if bps == 0 { assert expected * bps / 10_000 == 0; }
  }

  lemma CeilWithinOne(n: nat, d: nat)
    requires d > 0
    ensures n / d <= CeilDiv(n, d) <= n / d + 1
  {
    var e, r := n / d, n % d;
    assert n == d * e + r;
    if r == 0 {
      DivUnique(n + d - 1, d, e, d - 1);
    } else {
      assert n + d - 1 == d * (e + 1) + (r - 1);
      DivUnique(n + d - 1, d, e + 1, r - 1);
    }
  }

  /** Any tolerance absorbs rounding either way; none accepts only the rounded-down price. */
  lemma RoundingSlack(shares: nat, m: Manager, bps: nat)
    requires Denominator(m) > 0
    ensures bps >= 1 ==> PriceAccepted(shares, ExpectedDebt(shares, m), m, bps)
    ensures bps >= 1 ==> PriceAccepted(shares, CeilDiv(Numerator(shares, m), Denominator(m)), m, bps)
    ensures bps == 0 ==> forall actual :: PriceAccepted(shares, actual, m, bps) <==> actual == ExpectedDebt(shares, m)
  {
    CeilWithinOne(Numerator(shares, m), Denominator(m));
    var e := ExpectedDebt(shares, m);
    if bps == 0 { assert e * bps / 10_000 == 0; }
  }

  lemma DivMonotone(a: nat, b: nat, d: nat)
    requires a <= b && d > 0
    ensures a / d <= b / d
  {
    assert a == d * (a / d) + a % d && b == d * (b / d) + b % d;
    if a / d > b / d { MulMonotone(d, b / d + 1, a / d); }
  }

  /** A wider tolerance accepts whatever a narrower one does. */
  lemma ToleranceMonotone(shares: nat, actual: nat, m: Manager, bps: nat, wider: nat)
    requires Denominator(m) > 0 && bps <= wider
    requires PriceAccepted(shares, actual, m, bps)
    ensures PriceAccepted(shares, actual, m, wider)
  {
    var e := ExpectedDebt(shares, m);
    MulMonotone(e, bps, wider);
    DivMonotone(e * bps, e * wider, 10_000);
  }

  /** The deviation is within the basis points, or within one wei. */
  lemma RelativeError(shares: nat, actual: nat, m: Manager, bps: nat)
    requires Denominator(m) > 0 && PriceAccepted(shares, actual, m, bps)
    ensures var e := ExpectedDebt(shares, m);
            10_000 * (actual - e) <= Max(10_000, e * bps) && 10_000 * (e - actual) <= Max(10_000, e * bps)
  {}

  // ---------------------------------------------------------------------
  // The runner
  // ---------------------------------------------------------------------

  function Factories(policy: SwapPolicy, body: Body): seq<Address> {
    ListFor(policy.pmFactories, body.chainId)
  }

  /** One slot per factory for one leg. */
  function SlotsFor(node: SwapNode, factories: seq<Address>, asset: Address): seq<Slot<bool>> {
    seq(|factories|, i requires 0 <= i < |factories| => node.isPositionManager(factories[i], asset))
  }

  predicate AnyTransport(slots: seq<Slot<bool>>) {
    exists i :: 0 <= i < |slots| && slots[i].TransportFailure?
  }

  predicate AnyReverted(slots: seq<Slot<bool>>) {
    exists i :: 0 <= i < |slots| && slots[i].Reverted?
  }

  predicate AnyHit(slots: seq<Slot<bool>>) {
    exists i :: 0 <= i < |slots| && slots[i] == Success(true)
  }

  /** The classification loop: None for a failure that is not deterministic. */
  method ClassifySlots(slots: seq<Slot<bool>>) returns (deterministicFailures: Option<nat>)
    ensures deterministicFailures.None? <==> AnyTransport(slots)
    ensures deterministicFailures.Some? ==> (deterministicFailures.value > 0 <==> AnyReverted(slots))
  {
    var count := 0;
    for i := 0 to |slots|
      invariant !AnyTransport(slots[..i])
      invariant count > 0 <==> AnyReverted(slots[..i])
    {
      assert slots[..i + 1] == slots[..i] + [slots[i]];
      assert slots[..i + 1][i] == slots[i];
      if slots[i].Success? {
        continue;
      }
      if slots[i].TransportFailure? {
        return None;
      }
      count := count + 1;
    }
    assert slots[..|slots|] == slots;
    deterministicFailures := Some(count);
  }

  function DeadlineCheck(policy: SwapPolicy, body: Body, nowUnix: int): CheckEntry {
    CheckDeadline(nowUnix, body.deadline, policy.maxDeadlineSecondsAhead)
  }

  function NotOneManager(deadlineCheck: CheckEntry): Verdict {
    RollUp([Failed(ExactlyOnePositionManager), Skipped(ManagerOwnerAccepted), Skipped(DebtAssetMatches),
            Skipped(PriceWithinTolerance), deadlineCheck])
  }

  /** The checks on a resolved manager leg and debt leg. */
  function ManagerChecks(policy: SwapPolicy, chainId: nat, pmLeg: Leg, debtLeg: Leg, m: Manager, deadlineCheck: CheckEntry): seq<CheckEntry> {
    var debtMatches := Lower(debtLeg.asset) == Lower(m.debtAsset);
    [Passed(ExactlyOnePositionManager),
     CheckMembership(ManagerOwnerAccepted, m.owner, SetFor(policy.pmOwners, chainId)),
     if debtMatches then Passed(DebtAssetMatches) else Failed(DebtAssetMatches),
     if !debtMatches then Skipped(PriceWithinTolerance)
     else if Denominator(m) == 0 then Failed(PriceWithinTolerance)
     else if PriceAccepted(pmLeg.amount, debtLeg.amount, m, policy.toleranceBps) then Passed(PriceWithinTolerance)
     else Failed(PriceWithinTolerance),
     deadlineCheck]
  }

  function RunA3(node: SwapNode, policy: SwapPolicy, body: Body, nowUnix: int): Verdict {
    var factories := Factories(policy, body);
    var deadlineCheck := DeadlineCheck(policy, body, nowUnix);
    if factories == [] then NotOneManager(deadlineCheck)
    else if node.multicallThrows then Err(UpstreamUnavailable)
    else
      var slotsA, slotsB := SlotsFor(node, factories, body.legA.asset), SlotsFor(node, factories, body.legB.asset);
      if AnyTransport(slotsA) || AnyTransport(slotsB) then Err(UpstreamUnavailable)
      else
        var aHits, bHits := AnyHit(slotsA), AnyHit(slotsB);
        if aHits == bHits then
          if !aHits && (AnyReverted(slotsA) || AnyReverted(slotsB)) then Err(UpstreamUnavailable)
          else NotOneManager(deadlineCheck)
        else
          var pmLeg, debtLeg := if aHits then body.legA else body.legB, if aHits then body.legB else body.legA;
          match node.manager(pmLeg.asset)
          case None => Err(UpstreamUnavailable)
          case Some(m) => RollUp(ManagerChecks(policy, body.chainId, pmLeg, debtLeg, m, deadlineCheck))
  }

  lemma SlotsAppend(a: seq<Slot<bool>>, b: seq<Slot<bool>>)
    ensures AnyTransport(a + b) <==> AnyTransport(a) || AnyTransport(b)
    ensures AnyReverted(a + b) <==> AnyReverted(a) || AnyReverted(b)
  {
    assert forall i :: 0 <= i < |a| ==> (a + b)[i] == a[i];
    assert forall i :: 0 <= i < |b| ==> (a + b)[|a| + i] == b[i];
  }

  method BuildChecks(node: SwapNode, policy: SwapPolicy, body: Body, nowUnix: int) returns (verdict: Verdict)
    ensures verdict == RunA3(node, policy, body, nowUnix)
  {
    hide AnyTransport, AnyReverted, RollUp, PriceAccepted;
    var factories := Factories(policy, body);
    var deadlineCheck := DeadlineCheck(policy, body, nowUnix);
    if |factories| == 0 { return NotOneManager(deadlineCheck); }
    if node.multicallThrows { return Err(UpstreamUnavailable); }
    var slotsA, slotsB := SlotsFor(node, factories, body.legA.asset), SlotsFor(node, factories, body.legB.asset);
    SlotsAppend(slotsA, slotsB);
    var deterministicFailures := ClassifySlots(slotsA + slotsB);
    if deterministicFailures.None? { return Err(UpstreamUnavailable); }
    var aHits, bHits := AnyHit(slotsA), AnyHit(slotsB);
    if aHits == bHits {
      if !aHits && deterministicFailures.value > 0 { return Err(UpstreamUnavailable); }
      return NotOneManager(deadlineCheck);
    }
    var pmLeg, debtLeg := if aHits then body.legA else body.legB, if aHits then body.legB else body.legA;
    var manager := node.manager(pmLeg.asset);
    if manager.None? { return Err(UpstreamUnavailable); }
    verdict := RollUp(ManagerChecks(policy, body.chainId, pmLeg, debtLeg, manager.value, deadlineCheck));
  }

  function Swapped(body: Body): Body {
    body.(legA := body.legB, legB := body.legA)
  }

  /** The order of the legs changes neither an entry nor an error. */
  lemma LegOrderNeverMatters(node: SwapNode, policy: SwapPolicy, body: Body, nowUnix: int)
    ensures RunA3(node, policy, Swapped(body), nowUnix) == RunA3(node, policy, body, nowUnix)
  {}

  /** Some position-manager factory of the chain recognises the asset. */
  ghost predicate IsManager(node: SwapNode, policy: SwapPolicy, chainId: nat, asset: Address) {
    chainId in policy.pmFactories &&
    exists f :: f in policy.pmFactories[chainId] && node.isPositionManager(f, asset) == Success(true)
  }

  lemma HitIff(node: SwapNode, policy: SwapPolicy, body: Body, asset: Address)
    ensures AnyHit(SlotsFor(node, Factories(policy, body), asset)) <==> IsManager(node, policy, body.chainId, asset)
  {
    var factories := Factories(policy, body);
    var slots := SlotsFor(node, factories, asset);
    if AnyHit(slots) {
      var i :| 0 <= i < |slots| && slots[i] == Success(true);
      assert factories[i] in factories;
    }
    if IsManager(node, policy, body.chainId, asset) {
      var f :| f in factories && node.isPositionManager(f, asset) == Success(true);
      var i :| 0 <= i < |factories| && factories[i] == f;
      assert slots[i] == Success(true);
    }
  }

  /** The debt paid is within the tolerance of the share price. */
  ghost predicate FairPrice(m: Manager, shares: nat, actual: nat, bps: nat) {
    var n, d := shares * (m.totalAssets + 1), m.totalSupply + m.virtualShareOffset + m.managementFeeShares + m.performanceFeeShares;
    d > 0 &&
    var tol := Slack(n / d, bps);
    n - (tol + 1) * d < actual * d <= n + tol * d
  }

  /** `pm` and `debt` are a fair exchange with an accepted position manager: `pm` is the
      only leg whose asset is one, its owner is accepted, the other leg is in its debt
      asset, and the price is fair. */
  ghost predicate FairSwap(node: SwapNode, policy: SwapPolicy, body: Body, pm: Leg, debt: Leg) {
    && IsManager(node, policy, body.chainId, pm.asset) && !IsManager(node, policy, body.chainId, debt.asset)
    && node.manager(pm.asset).Some?
    && var m := node.manager(pm.asset).value;
    && InSet(policy.pmOwners, body.chainId, m.owner)
    && debt.asset.value == m.debtAsset.value
    && FairPrice(m, pm.amount, debt.amount, policy.toleranceBps)
  }

  /** Without an upstream failure the swap is signed exactly when the deadline is under
      the ceiling and the legs, one way round, are a fair exchange. */
  lemma SwapVerdict(node: SwapNode, policy: SwapPolicy, body: Body, nowUnix: int)
    requires RunA3(node, policy, body, nowUnix) != Err(UpstreamUnavailable)
    ensures RunA3(node, policy, body, nowUnix).Ok? <==>
            && body.deadline <= nowUnix + policy.maxDeadlineSecondsAhead
            && (FairSwap(node, policy, body, body.legA, body.legB) || FairSwap(node, policy, body, body.legB, body.legA))
  {
    HitIff(node, policy, body, body.legA.asset);
    HitIff(node, policy, body, body.legB.asset);
    hide AnyTransport, AnyReverted, AnyHit, PriceAccepted, SlotsFor, FairPrice, IsManager, InSet;
    var deadlineCheck := DeadlineCheck(policy, body, nowUnix);
    NotOneFails(deadlineCheck);
    if Factories(policy, body) == [] {
      NoFactoryNoHit(node, body.legA.asset);
      NoFactoryNoHit(node, body.legB.asset);
    } else if IsManager(node, policy, body.chainId, body.legA.asset) && !IsManager(node, policy, body.chainId, body.legB.asset) {
      ManagerVerdict(policy, body, body.legA, body.legB, node.manager(body.legA.asset).value, nowUnix);
    } else if !IsManager(node, policy, body.chainId, body.legA.asset) && IsManager(node, policy, body.chainId, body.legB.asset) {
      ManagerVerdict(policy, body, body.legB, body.legA, node.manager(body.legB.asset).value, nowUnix);
    }
  }

  /** Some factory of the chain gives such an answer for one of the legs. */
  ghost predicate SomeSlot(node: SwapNode, policy: SwapPolicy, body: Body, slot: Slot<bool>) {
    body.chainId in policy.pmFactories &&
    exists f :: f in policy.pmFactories[body.chainId] &&
      (node.isPositionManager(f, body.legA.asset) == slot || node.isPositionManager(f, body.legB.asset) == slot)
  }

  lemma SlotIff(node: SwapNode, policy: SwapPolicy, body: Body, slot: Slot<bool>)
    ensures SomeSlot(node, policy, body, slot) <==>
            exists i :: 0 <= i < |Factories(policy, body)| &&
              (SlotsFor(node, Factories(policy, body), body.legA.asset)[i] == slot ||
               SlotsFor(node, Factories(policy, body), body.legB.asset)[i] == slot)
  {
    var factories := Factories(policy, body);
    if SomeSlot(node, policy, body, slot) {
      var f :| f in factories && (node.isPositionManager(f, body.legA.asset) == slot || node.isPositionManager(f, body.legB.asset) == slot);
      var i :| 0 <= i < |factories| && factories[i] == f;
      assert SlotsFor(node, factories, body.legA.asset)[i] == slot || SlotsFor(node, factories, body.legB.asset)[i] == slot;
    }
    if i :| 0 <= i < |factories| &&
            (SlotsFor(node, factories, body.legA.asset)[i] == slot || SlotsFor(node, factories, body.legB.asset)[i] == slot)
    {
      assert factories[i] in factories;
    }
  }

  /** The failure is upstream exactly when factories are configured and the reads throw,
      some slot fails in transport, some slot reverts and neither leg is a manager, or
      the views of the only manager cannot be read. */
  lemma SwapUnavailableIff(node: SwapNode, policy: SwapPolicy, body: Body, nowUnix: int)
    ensures RunA3(node, policy, body, nowUnix) == Err(UpstreamUnavailable) <==>
            && body.chainId in policy.pmFactories && policy.pmFactories[body.chainId] != []
            && var a, b := IsManager(node, policy, body.chainId, body.legA.asset), IsManager(node, policy, body.chainId, body.legB.asset);
               || node.multicallThrows
               || SomeSlot(node, policy, body, TransportFailure)
               || (!a && !b && SomeSlot(node, policy, body, Reverted))
               || (a && !b && node.manager(body.legA.asset).None?)
               || (!a && b && node.manager(body.legB.asset).None?)
  {
    HitIff(node, policy, body, body.legA.asset);
    HitIff(node, policy, body, body.legB.asset);
    SlotIff(node, policy, body, TransportFailure);
    SlotIff(node, policy, body, Reverted);
    hide AnyHit, PriceAccepted, IsManager, ManagerChecks, SlotsFor, SomeSlot;
    var slotsA, slotsB := SlotsFor(node, Factories(policy, body), body.legA.asset), SlotsFor(node, Factories(policy, body), body.legB.asset);
    SlotsCount(node, Factories(policy, body), body.legA.asset);
    SlotsCount(node, Factories(policy, body), body.legB.asset);
  }

  lemma SlotsCount(node: SwapNode, factories: seq<Address>, asset: Address)
    ensures |SlotsFor(node, factories, asset)| == |factories|
  {}

  lemma NoFactoryNoHit(node: SwapNode, asset: Address)
    ensures !AnyHit(SlotsFor(node, [], asset))
  {}

  lemma NotOneFails(deadlineCheck: CheckEntry)
    ensures NotOneManager(deadlineCheck).Err?
  {
    assert ![Failed(ExactlyOnePositionManager), Skipped(ManagerOwnerAccepted), Skipped(DebtAssetMatches),
             Skipped(PriceWithinTolerance), deadlineCheck][0].passed;
  }

  lemma ManagerVerdict(policy: SwapPolicy, body: Body, pm: Leg, debt: Leg, m: Manager, nowUnix: int)
    ensures RollUp(ManagerChecks(policy, body.chainId, pm, debt, m, DeadlineCheck(policy, body, nowUnix))).Ok? <==>
            && body.deadline <= nowUnix + policy.maxDeadlineSecondsAhead
            && InSet(policy.pmOwners, body.chainId, m.owner)
            && debt.asset.value == m.debtAsset.value
            && FairPrice(m, pm.amount, debt.amount, policy.toleranceBps)
  {
    PriceBand(pm.amount, debt.amount, m, policy.toleranceBps);
    InSetIff(policy.pmOwners, body.chainId, m.owner);
    hide PriceAccepted, InSet, Accepts, SetFor, Slack;
    var checks := ManagerChecks(policy, body.chainId, pm, debt, m, DeadlineCheck(policy, body, nowUnix));
    assert AllPassed(checks) <==> checks[0].passed && checks[1].passed && checks[2].passed && checks[3].passed && checks[4].passed;
  }

  // ---------------------------------------------------------------------
  // The message
  // ---------------------------------------------------------------------

  datatype SwapParams = SwapParams(
    id1: nat, token1: Address, id2: nat, token2: Address, amount1: nat, amount2: nat, deadline: nat)

  /** Strict order by intent id, then lower-cased asset, then amount. */
  predicate LegLess(a: Leg, b: Leg) {
    a.intentId < b.intentId ||
    (a.intentId == b.intentId &&
     (Lower(a.asset).value < Lower(b.asset).value ||
      (Lower(a.asset).value == Lower(b.asset).value && a.amount < b.amount)))
  }

  function Canonicalise(a: Leg, b: Leg): (Leg, Leg) {
    if a.intentId < b.intentId then (a, b)
    else if a.intentId > b.intentId then (b, a)
    else if Lower(a.asset).value < Lower(b.asset).value then (a, b)
    else if Lower(a.asset).value > Lower(b.asset).value then (b, a)
    else if a.amount < b.amount then (a, b)
    else if a.amount > b.amount then (b, a)
    else (a, b)
  }

  /** The canonical legs are the given ones, sorted; a tie keeps the given order. */
  lemma CanonicalIsSorted(a: Leg, b: Leg)
    ensures var (first, second) := Canonicalise(a, b);
            && multiset{first, second} == multiset{a, b} && !LegLess(second, first)
            && (!LegLess(b, a) ==> (first, second) == (a, b))
  {}

  /** Both orders give the same pair, except for legs that differ in the spelling of
      the asset alone. */
  lemma CanonicalIgnoresOrder(a: Leg, b: Leg)
    ensures Canonicalise(a, b) == Canonicalise(b, a) <==> a == b || LegLess(a, b) || LegLess(b, a)
  {}

  /** The typed-data message; None when the domain names another verifier. */
  function TypedMessage(verifyingContract: Address, body: Body): Option<SwapParams> {
    if Lower(verifyingContract) != Lower(body.facility) then None
    else
      var (first, second) := Canonicalise(body.legA, body.legB);
      Some(SwapParams(first.intentId, first.asset, second.intentId, second.asset, first.amount, second.amount, body.deadline))
  }

  /** The schema lower-cases every address. */
  predicate Normalised(body: Body) {
    Lower(body.legA.asset) == body.legA.asset && Lower(body.legB.asset) == body.legB.asset
  }

  /** What would be signed: the message, once the checks pass. */
  function SignedMessage(node: SwapNode, policy: SwapPolicy, verifyingContract: Address, body: Body, nowUnix: int)
    : Result<Option<SwapParams>, RunnerError>
  {
    match RunA3(node, policy, body, nowUnix)
    case Err(e) => Err(e)
    case Ok(_) => Ok(TypedMessage(verifyingContract, body))
  }

  /** From the checks through to the signed message, leg order never matters. */
  lemma SignatureIgnoresOrder(node: SwapNode, policy: SwapPolicy, verifyingContract: Address, body: Body, nowUnix: int)
    requires Normalised(body)
    ensures SignedMessage(node, policy, verifyingContract, Swapped(body), nowUnix) ==
            SignedMessage(node, policy, verifyingContract, body, nowUnix)
  {}

  /** The message exists exactly when the domain names the facility, and it carries the
      two legs, each with its own id, token and amount, the lesser leg first, and the
      deadline. */
  lemma MessageCarries(v: Address, body: Body)
    ensures TypedMessage(v, body).Some? <==> v.value == body.facility.value
    ensures TypedMessage(v, body).Some? ==>
              var m := TypedMessage(v, body).value;
              var first, second := Leg(m.id1, m.token1, m.amount1), Leg(m.id2, m.token2, m.amount2);
              && multiset{first, second} == multiset{body.legA, body.legB}
              && (first.intentId < second.intentId ||
                  (first.intentId == second.intentId &&
                   (first.asset.value < second.asset.value ||
                    (first.asset.value == second.asset.value && first.amount <= second.amount))))
              && m.deadline == body.deadline
  {}

  /** The message binds both legs and the deadline: two bodies with one message
      carry the same legs, in some order. */
  lemma MessageBinds(v: Address, x: Body, y: Body)
    requires TypedMessage(v, x).Some? && TypedMessage(v, x) == TypedMessage(v, y)
    ensures multiset{x.legA, x.legB} == multiset{y.legA, y.legB} && x.deadline == y.deadline
  {}
}
