/**
 What a verdict of the Appendix A.1 runner says about the chain.
 */
module BindingCorrectness {
  import opened Common
  import opened Checks
  import opened OrderedMaps
  import opened RoleEvents
  import opened RoleScan
  import opened ScanCorrectness
  import opened RequestBinding

  // ---------------------------------------------------------------------
  // The policy in terms of what its addresses denote
  // ---------------------------------------------------------------------

  /** The set configured for the chain holds the address, in some spelling. */
  ghost predicate InSet(sets: map<nat, set<Address>>, chainId: nat, a: Address) {
    chainId in sets && exists c :: c in sets[chainId] && c.value == a.value
  }

  ghost predicate InList(lists: map<nat, seq<Address>>, chainId: nat, a: Address) {
    chainId in lists && exists c :: c in lists[chainId] && c.value == a.value
  }

  lemma InSetIff(sets: map<nat, set<Address>>, chainId: nat, a: Address)
    ensures Accepts(SetFor(sets, chainId), a) <==> InSet(sets, chainId, a)
  {
    hide Accepts;
    ByValue(SetFor(sets, chainId), [], a, a);
  }

  lemma InListIff(lists: map<nat, seq<Address>>, chainId: nat, a: Address)
    ensures Lists(ListFor(lists, chainId), a) <==> InList(lists, chainId, a)
  {
    hide Lists;
    ByValue({}, ListFor(lists, chainId), a, a);
  }

  /** The runner's predicates on a policy, by value. */
  lemma PolicyByValue(policy: Policy, call: Call, factory: Address)
    ensures IsTrusted(policy, call) <==> InSet(policy.trustedRequestContracts, call.chainId, call.contract)
    ensures IsFlashLoanFactory(policy, call.chainId, factory) <==> InList(policy.flashLoanFactories, call.chainId, factory)
    ensures IsAcceptedFactory(policy, call.chainId, factory) <==>
            InList(policy.requestFactories, call.chainId, factory) || InList(policy.flashLoanFactories, call.chainId, factory)
  {
    hide Accepts, Lists, SetFor, ListFor, InSet, InList;
    InSetIff(policy.trustedRequestContracts, call.chainId, call.contract);
    InListIff(policy.flashLoanFactories, call.chainId, factory);
    InListIff(policy.requestFactories, call.chainId, factory);
  }

  // ---------------------------------------------------------------------
  // Matched factories
  // ---------------------------------------------------------------------

  /** A configured factory recognises the contract: a plain one by `isRequest`, a
      flash-loan one by `isFlashLoanRequest`. */
  ghost predicate ClaimedBy(node: Node, policy: Policy, chainId: nat, factory: Address) {
    || (chainId in policy.requestFactories && factory in policy.requestFactories[chainId] &&
        node.isRequest(factory) == Success(true))
    || (chainId in policy.flashLoanFactories && factory in policy.flashLoanFactories[chainId] &&
        node.isFlashLoanRequest(factory) == Success(true))
  }

  /** Some configured factory did not answer whether it recognises the contract. */
  ghost predicate SomeUnanswered(node: Node, policy: Policy, chainId: nat) {
    || (chainId in policy.requestFactories &&
        exists f :: f in policy.requestFactories[chainId] && !node.isRequest(f).Success?)
    || (chainId in policy.flashLoanFactories &&
        exists f :: f in policy.flashLoanFactories[chainId] && !node.isFlashLoanRequest(f).Success?)
  }

  /** Some entry of `checks` with address `factory` claims the contract. */
  ghost predicate ClaimedIn(node: Node, checks: seq<FactoryCheck>, factory: Address) {
    exists i :: 0 <= i < |checks| && checks[i].factory == factory && Claims(node, checks[i])
  }

  lemma ClaimedPrefix(node: Node, checks: seq<FactoryCheck>, n: nat, factory: Address)
    requires n <= |checks| && ClaimedIn(node, checks[..n], factory)
    ensures ClaimedIn(node, checks, factory)
  {}

  lemma {:induction false} HitsAreClaims(node: Node, checks: seq<FactoryCheck>)
    ensures forall e :: e in Hits(node, checks) ==> ClaimedIn(node, checks, e.1)
    ensures Hits(node, checks) == [] <==> forall i :: 0 <= i < |checks| ==> !Claims(node, checks[i])
  {
    if checks != [] {
      var n := |checks| - 1;
      HitsAreClaims(node, checks[..n]);
      forall e | e in Hits(node, checks) ensures ClaimedIn(node, checks, e.1) {
        if e in Hits(node, checks[..n]) { ClaimedPrefix(node, checks, n, e.1); }
      }
      assert forall i :: 0 <= i < n ==> checks[..n][i] == checks[i];
    }
  }

  /** The checks are one per configured factory, each asking its own question. */
  lemma ChecksAreConfigured(policy: Policy, chainId: nat, c: FactoryCheck)
    ensures c in FactoryChecks(policy, chainId) <==>
            if c.flashLoan then chainId in policy.flashLoanFactories && c.factory in policy.flashLoanFactories[chainId]
            else chainId in policy.requestFactories && c.factory in policy.requestFactories[chainId]
  {
    var classic, flash := ListFor(policy.requestFactories, chainId), ListFor(policy.flashLoanFactories, chainId);
    var checks := FactoryChecks(policy, chainId);
    if c.flashLoan && c.factory in flash {
      var i :| 0 <= i < |flash| && flash[i] == c.factory;
      assert checks[|classic| + i] == c;
    }
    if !c.flashLoan && c.factory in classic {
      var i :| 0 <= i < |classic| && classic[i] == c.factory;
      assert checks[i] == c;
    }
  }

  lemma ClaimedIff(node: Node, policy: Policy, chainId: nat, factory: Address)
    ensures ClaimedIn(node, FactoryChecks(policy, chainId), factory) <==> ClaimedBy(node, policy, chainId, factory)
  {
    hide FactoryChecks;
    var checks := FactoryChecks(policy, chainId);
    forall c ensures c in checks <==>
            if c.flashLoan then chainId in policy.flashLoanFactories && c.factory in policy.flashLoanFactories[chainId]
            else chainId in policy.requestFactories && c.factory in policy.requestFactories[chainId]
    {
      ChecksAreConfigured(policy, chainId, c);
    }
    if ClaimedIn(node, checks, factory) {
      var i :| 0 <= i < |checks| && checks[i].factory == factory && Claims(node, checks[i]);
      assert checks[i] in checks;
    }
    if ClaimedBy(node, policy, chainId, factory) {
      var c :| c in checks && c.factory == factory && Claims(node, c) by {
        assert (FactoryCheck(factory, false) in checks && Claims(node, FactoryCheck(factory, false))) ||
               (FactoryCheck(factory, true) in checks && Claims(node, FactoryCheck(factory, true)));
      }
      var i :| 0 <= i < |checks| && checks[i] == c;
    }
  }

  lemma UnansweredIff(node: Node, policy: Policy, chainId: nat)
    ensures AnyUnanswered(node, FactoryChecks(policy, chainId)) <==> SomeUnanswered(node, policy, chainId)
  {
    hide FactoryChecks;
    var checks := FactoryChecks(policy, chainId);
    forall c ensures c in checks <==>
            if c.flashLoan then chainId in policy.flashLoanFactories && c.factory in policy.flashLoanFactories[chainId]
            else chainId in policy.requestFactories && c.factory in policy.requestFactories[chainId]
    {
      ChecksAreConfigured(policy, chainId, c);
    }
    if AnyUnanswered(node, checks) {
      var i :| 0 <= i < |checks| && !Answer(node, checks[i]).Success?;
      assert checks[i] in checks;
    }
    if f :| FactoryCheck(f, false) in checks && !node.isRequest(f).Success? {
      var i :| 0 <= i < |checks| && checks[i] == FactoryCheck(f, false);
      assert !Answer(node, checks[i]).Success?;
    }
    if f :| FactoryCheck(f, true) in checks && !node.isFlashLoanRequest(f).Success? {
      var i :| 0 <= i < |checks| && checks[i] == FactoryCheck(f, true);
      assert !Answer(node, checks[i]).Success?;
    }
  }

  lemma ClaimedIsAccepted(node: Node, policy: Policy, call: Call, factory: Address)
    requires ClaimedBy(node, policy, call.chainId, factory)
    ensures IsAcceptedFactory(policy, call.chainId, factory)
  {
    PolicyByValue(policy, call, factory);
  }

  lemma {:induction false} PutHolds(m: OrderedMap<Address, Address>, key: Address, value: Address, k: Address)
    requires k == key || Has(m, k)
    ensures Has(Put(m, key, value), k)
  {
    var r, n := Put(m, key, value), |m| - 1;
    if m == [] {
      assert r[0].0 == key;
    } else if m[n].0 == key {
      if k == key { assert r[n].0 == key; } else {
        var i :| 0 <= i < |m| && m[i].0 == k;
        assert r[i].0 == k;
      }
    } else if Has(m[..n], key) {
      if k == m[n].0 { assert r[|r| - 1].0 == k; } else {
        if k != key {
          var i :| 0 <= i < |m| && m[i].0 == k;
          assert m[..n][i].0 == k;
        }
        PutHolds(m[..n], key, value, k);
        var q := Put(m[..n], key, value);
        var i :| 0 <= i < |q| && q[i].0 == k;
        assert r[i].0 == k;
      }
    } else {
      if k == key { assert r[|r| - 1].0 == key; } else {
        var i :| 0 <= i < |m| && m[i].0 == k;
        assert r[i].0 == k;
      }
    }
  }

  lemma {:induction false} ClaimsAreHeld(node: Node, checks: seq<FactoryCheck>, i: nat)
    requires i < |checks| && Claims(node, checks[i])
    ensures Has(Hits(node, checks), Lower(checks[i].factory))
  {
    var n := |checks| - 1;
    if i < n { ClaimsAreHeld(node, checks[..n], i); }
    if Claims(node, checks[n]) {
      PutHolds(Hits(node, checks[..n]), Lower(checks[n].factory), checks[n].factory, Lower(checks[i].factory));
    }
  }

  /** Every matched factory claims the contract; none is matched iff none claims. */
  lemma MatchedFactories(node: Node, policy: Policy, chainId: nat)
    ensures forall f :: f in Matched(node, policy, chainId) ==>
              ClaimedBy(node, policy, chainId, f) && IsAcceptedFactory(policy, chainId, f)
    ensures Matched(node, policy, chainId) == [] <==> forall f :: !ClaimedBy(node, policy, chainId, f)
  {
    hide FactoryChecks, ClaimedBy, IsAcceptedFactory;
    var checks := FactoryChecks(policy, chainId);
    HitsAreClaims(node, checks);
    forall f | f in Matched(node, policy, chainId)
      ensures ClaimedBy(node, policy, chainId, f) && IsAcceptedFactory(policy, chainId, f)
    {
      var k :| 0 <= k < |Hits(node, checks)| && Hits(node, checks)[k].1 == f;
      assert Hits(node, checks)[k] in Hits(node, checks);
      ClaimedIff(node, policy, chainId, f);
      ClaimedIsAccepted(node, policy, Call(chainId, f, 0, 0, Signals(chunk => false, reading => 0)), f);
    }
    if Matched(node, policy, chainId) == [] {
      forall f ensures !ClaimedBy(node, policy, chainId, f) { ClaimedIff(node, policy, chainId, f); }
    } else {
      assert ClaimedBy(node, policy, chainId, Matched(node, policy, chainId)[0]);
    }
  }

  lemma {:induction false} HitsAreKeyed(node: Node, checks: seq<FactoryCheck>)
    ensures forall e :: e in Hits(node, checks) ==> Lower(e.1) == e.0
  {
    if checks != [] { HitsAreKeyed(node, checks[..|checks| - 1]); }
  }

  /** No factory that claims the contract is missed, up to its spelling. */
  lemma EveryClaimIsMatched(node: Node, policy: Policy, chainId: nat, factory: Address)
    requires ClaimedBy(node, policy, chainId, factory)
    ensures exists f :: f in Matched(node, policy, chainId) && f.value == factory.value
  {
    hide FactoryChecks, ClaimedBy, Hits;
    var checks := FactoryChecks(policy, chainId);
    ClaimedIff(node, policy, chainId, factory);
    var i :| 0 <= i < |checks| && checks[i].factory == factory && Claims(node, checks[i]);
    ClaimsAreHeld(node, checks, i);
    HitsAreKeyed(node, checks);
    var hits := Hits(node, checks);
    var k :| 0 <= k < |hits| && hits[k].0 == Lower(factory);
    assert hits[k] in hits;
    assert Matched(node, policy, chainId)[k] == hits[k].1;
  }

  /** `i` is the first of `list` that recognises the contract. */
  ghost predicate FirstClaim(recognises: Address -> Slot<bool>, list: seq<Address>, i: nat) {
    i < |list| && recognises(list[i]) == Success(true) && forall j :: 0 <= j < i ==> recognises(list[j]) != Success(true)
  }

  lemma {:induction false} PutHead(m: OrderedMap<Address, Address>, key: Address, value: Address)
    requires Lower(value) == key && forall i :: 0 <= i < |m| ==> Lower(m[i].1) == m[i].0
    ensures var r := Put(m, key, value);
            && r != [] && r[0].0 == (if m == [] then key else m[0].0)
            && forall i :: 0 <= i < |r| ==> Lower(r[i].1) == r[i].0
  {
    if m != [] { PutHead(m[..|m| - 1], key, value); }
  }

  lemma {:induction false} HitsHead(node: Node, checks: seq<FactoryCheck>, i: nat)
    requires i < |checks| && Claims(node, checks[i]) && forall j :: 0 <= j < i ==> !Claims(node, checks[j])
    ensures var hits := Hits(node, checks);
            hits != [] && hits[0].0 == Lower(checks[i].factory) && forall k :: 0 <= k < |hits| ==> Lower(hits[k].1) == hits[k].0
  {
    var n := |checks| - 1;
    if i == n {
      HitsAreClaims(node, checks[..n]);
      PutHead([], Lower(checks[n].factory), checks[n].factory);
    } else {
      HitsHead(node, checks[..n], i);
      PutHead(Hits(node, checks[..n]), Lower(checks[n].factory), checks[n].factory);
    }
  }

  /** The first matched factory is, up to its spelling, the first plain factory that
      recognises the contract, or if there is none the first flash-loan one. */
  lemma FirstMatched(node: Node, policy: Policy, chainId: nat, i: nat)
    ensures chainId in policy.requestFactories && FirstClaim(node.isRequest, policy.requestFactories[chainId], i) ==>
              Matched(node, policy, chainId) != [] &&
              Matched(node, policy, chainId)[0].value == policy.requestFactories[chainId][i].value
    ensures chainId in policy.flashLoanFactories && FirstClaim(node.isFlashLoanRequest, policy.flashLoanFactories[chainId], i) &&
            (chainId in policy.requestFactories ==>
               forall j :: 0 <= j < |policy.requestFactories[chainId]| ==>
                 node.isRequest(policy.requestFactories[chainId][j]) != Success(true)) ==>
              Matched(node, policy, chainId) != [] &&
              Matched(node, policy, chainId)[0].value == policy.flashLoanFactories[chainId][i].value
  {
    hide Hits;
    var classic, flash := ListFor(policy.requestFactories, chainId), ListFor(policy.flashLoanFactories, chainId);
    var checks := FactoryChecks(policy, chainId);
    assert forall j :: 0 <= j < |classic| ==> checks[j] == FactoryCheck(classic[j], false);
    assert forall j :: |classic| <= j < |checks| ==> checks[j] == FactoryCheck(flash[j - |classic|], true);
    if FirstClaim(node.isRequest, classic, i) {
      HitsHead(node, checks, i);
    } else if FirstClaim(node.isFlashLoanRequest, flash, i) &&
              forall j :: 0 <= j < |classic| ==> node.isRequest(classic[j]) != Success(true) {
      HitsHead(node, checks, |classic| + i);
    }
  }

  // ---------------------------------------------------------------------
  // What the policy demands of the true role holders
  // ---------------------------------------------------------------------

  /** Somebody holds the role with this bit, and only accepted parties do. */
  ghost predicate HeldOnlyBy(roles: Roles, bit: nat, sets: map<nat, set<Address>>, chainId: nat) {
    && (exists user :: user in roles && bit in roles[user])
    && (forall user :: user in roles && bit in roles[user] ==> InSet(sets, chainId, user))
  }

  /** The roles that matter for `factory` are held only by accepted parties: for a
      flash-loan factory bit 0 by executors, else bit 0 by pullers and bit 1 by consumers. */
  ghost predicate RolesAcceptable(roles: Roles, policy: Policy, chainId: nat, factory: Address) {
    if InList(policy.flashLoanFactories, chainId, factory) then
      HeldOnlyBy(roles, 0, policy.flashLoanExecutors, chainId)
    else
      HeldOnlyBy(roles, 0, policy.pullers, chainId) && HeldOnlyBy(roles, 1, policy.consumers, chainId)
  }

  /** No user whose latest role event is in the window holds the role without being accepted. */
  ghost predicate NoRecentRogue(chain: seq<Log>, contract: Address, from: int, latest: int, bit: nat,
                                sets: map<nat, set<Address>>, chainId: nat)
  {
    forall user :: user in RolesAt(chain, contract, latest) && bit in RolesAt(chain, contract, latest)[user] ==>
      LatestAtOrAbove(chain, contract, user, from, latest) ==> InSet(sets, chainId, user)
  }

  ghost predicate NoRecentRogues(chain: seq<Log>, contract: Address, from: int, latest: int,
                                 policy: Policy, chainId: nat, factory: Address)
  {
    if InList(policy.flashLoanFactories, chainId, factory) then
      NoRecentRogue(chain, contract, from, latest, 0, policy.flashLoanExecutors, chainId)
    else
      NoRecentRogue(chain, contract, from, latest, 0, policy.pullers, chainId) &&
      NoRecentRogue(chain, contract, from, latest, 1, policy.consumers, chainId)
  }

  lemma HolderSetMeans(holders: Roles, bit: nat, user: Address)
    ensures user in HolderSet(holders, {bit}) <==> user in holders && bit in holders[user]
  {
    if user in holders {
      assert bit in holders[user] ==> bit in holders[user] * {bit};
      assert holders[user] * {bit} != {} ==> bit in holders[user];
    }
  }

  lemma AllAcceptedMeans(holders: Roles, bit: nat, sets: map<nat, set<Address>>, chainId: nat)
    ensures AllAccepted(HolderSet(holders, {bit}), SetFor(sets, chainId)) <==>
            forall user :: user in holders && bit in holders[user] ==> InSet(sets, chainId, user)
  {
    hide HolderSet, Accepts, InSet, SetFor;
    forall user ensures user in HolderSet(holders, {bit}) <==> user in holders && bit in holders[user] {
      HolderSetMeans(holders, bit, user);
    }
    forall user ensures Accepts(SetFor(sets, chainId), user) <==> InSet(sets, chainId, user) {
      InSetIff(sets, chainId, user);
    }
  }

  lemma SubsetMeans(d: Description, holders: Roles, bit: nat, sets: map<nat, set<Address>>, chainId: nat)
    ensures CheckSubset(d, HolderSet(holders, {bit}), SetFor(sets, chainId)).passed <==> HeldOnlyBy(holders, bit, sets, chainId)
  {
    hide HolderSet, AllAccepted, InSet, SetFor;
    AllAcceptedMeans(holders, bit, sets, chainId);
    forall user ensures user in HolderSet(holders, {bit}) <==> user in holders && bit in holders[user] {
      HolderSetMeans(holders, bit, user);
    }
  }

  // ---------------------------------------------------------------------
  // The classic path
  // ---------------------------------------------------------------------

  /** The owner was read and is not a listed retargetter, and the contract is not trusted. */
  ghost predicate ClassicPath(node: Node, policy: Policy, call: Call) {
    && !InSet(policy.trustedRequestContracts, call.chainId, call.contract)
    && !node.multicallThrows
    && node.owner.Success?
    && !InSet(policy.acceptedRetargetters, call.chainId, node.owner.result)
  }

  lemma OnClassicPath(node: Node, policy: Policy, call: Call)
    ensures ClassicPath(node, policy, call) <==>
            && !IsTrusted(policy, call) && !node.multicallThrows && node.owner.Success?
            && !Accepts(SetFor(policy.acceptedRetargetters, call.chainId), node.owner.result)
  {
    hide InSet, InList, Accepts, Lists, SetFor, ListFor;
    PolicyByValue(policy, call, call.contract);
    if node.owner.Success? { InSetIff(policy.acceptedRetargetters, call.chainId, node.owner.result); }
  }

  function QueryFor(node: Node, policy: Policy, call: Call): ScanArgs
    requires node.blockNumber.Some?
  {
    ArgsFor(node, policy, call.chainId, call.contract, node.blockNumber.value)
  }

  /** The factory the verdict is attributed to. */
  function Attributed(node: Node, policy: Policy, call: Call): Address
    requires node.blockNumber.Some? && Matched(node, policy, call.chainId) != []
  {
    var first := Matched(node, policy, call.chainId)[0];
    if PredatesWindow(node, policy, node.blockNumber.value) then first
    else
      match Scan(node.getLogs, call.signals, QueryFor(node, policy, call))
      case Some(Resolved(_, _, Some(factory))) => factory
      case _ => first
  }

  /** The true state of the chain justifies signing under `policy`. */
  ghost predicate Justified(chain: seq<Log>, node: Node, policy: Policy, call: Call)
    requires node.owner.Success? && node.blockNumber.Some? && Matched(node, policy, call.chainId) != []
  {
    var q := QueryFor(node, policy, call);
    var factory := Attributed(node, policy, call);
    && q.Valid()
    && call.deadline <= call.nowUnix + policy.maxDeadlineSecondsAhead
    && InSet(policy.owners, call.chainId, node.owner.result)
    && !(policy.onLookbackExhausted == Fail && q.Earliest() > 0 && node.hasCode(q.Earliest() - 1) == Some(true))
    && if q.Earliest() == 0 || CreatedWithin(chain, q.factories, call.contract, q.Earliest(), q.latestBlock) then
         RolesAcceptable(RolesAt(chain, call.contract, q.latestBlock), policy, call.chainId, factory)
       else
         policy.onLookbackExhausted == Skip &&
         NoRecentRogues(chain, call.contract, q.Earliest(), q.latestBlock, policy, call.chainId, factory)
  }

  lemma Rolled(checks: seq<CheckEntry>)
    ensures RollUp(checks).Ok? <==> forall c :: c in checks ==> c.passed
  {}

  lemma EvaluateResolved(data: A1Data, policy: Policy, call: Call)
    requires data.ResolvedData? && IsAcceptedFactory(policy, call.chainId, data.factory)
    ensures RollUp(EvaluateA1(data, policy, call.chainId, DeadlineEntry(policy, call))).Ok? <==>
            && call.deadline <= call.nowUnix + policy.maxDeadlineSecondsAhead
            && InSet(policy.owners, call.chainId, data.owner)
            && RolesAcceptable(data.holders, policy, call.chainId, data.factory)
  {
    hide HolderSet, CheckSubset, HeldOnlyBy, InSet, InList, Accepts, Lists, SetFor, IsFlashLoanFactory, IsAcceptedFactory;
    var checks := EvaluateA1(data, policy, call.chainId, DeadlineEntry(policy, call));
    Rolled(checks);
    PolicyByValue(policy, call, data.factory);
    InSetIff(policy.owners, call.chainId, data.owner);
    SubsetMeans(ExecutorAccepted, data.holders, 0, policy.flashLoanExecutors, call.chainId);
    SubsetMeans(PullerAccepted, data.holders, 0, policy.pullers, call.chainId);
    SubsetMeans(ConsumerAccepted, data.holders, 1, policy.consumers, call.chainId);
    FirstEntries(checks);
  }

  lemma FirstEntries(checks: seq<CheckEntry>)
    requires |checks| == 4 || |checks| == 5
    ensures (forall c :: c in checks ==> c.passed) <==>
            checks[0].passed && checks[1].passed && checks[2].passed && checks[3].passed && (|checks| == 5 ==> checks[4].passed)
  {
    if forall c :: c in checks ==> c.passed {
      assert forall i :: 0 <= i < |checks| ==> checks[i] in checks;
    }
  }

  ghost predicate HeldOnlyByAny(roles: Roles, bit: nat, sets: map<nat, set<Address>>, chainId: nat) {
    forall user :: user in roles && bit in roles[user] ==> InSet(sets, chainId, user)
  }

  /** Every checked role of `partial` is held only by accepted parties, if by anybody. */
  ghost predicate PartialAcceptable(partial: Roles, policy: Policy, chainId: nat, factory: Address) {
    if InList(policy.flashLoanFactories, chainId, factory) then
      HeldOnlyByAny(partial, 0, policy.flashLoanExecutors, chainId)
    else
      HeldOnlyByAny(partial, 0, policy.pullers, chainId) && HeldOnlyByAny(partial, 1, policy.consumers, chainId)
  }

  lemma PartialMeans(d: Description, holders: Roles, bit: nat, sets: map<nat, set<Address>>, chainId: nat, disposition: Disposition)
    ensures CheckPartialHolders(d, HolderSet(holders, {bit}), SetFor(sets, chainId), disposition).passed <==>
            disposition == Skip && HeldOnlyByAny(holders, bit, sets, chainId)
  {
    hide HolderSet, AllAccepted, InSet, SetFor;
    AllAcceptedMeans(holders, bit, sets, chainId);
  }

  lemma EvaluateTooOld(data: A1Data, policy: Policy, call: Call)
    requires data.TooOldData? && IsAcceptedFactory(policy, call.chainId, data.factory)
    ensures RollUp(EvaluateA1(data, policy, call.chainId, DeadlineEntry(policy, call))).Ok? <==>
            && call.deadline <= call.nowUnix + policy.maxDeadlineSecondsAhead
            && InSet(policy.owners, call.chainId, data.owner)
            && policy.onLookbackExhausted == Skip
            && PartialAcceptable(if data.partialHolders.Some? then data.partialHolders.value else map[], policy, call.chainId, data.factory)
  {
    hide HolderSet, CheckPartialHolders, HeldOnlyByAny, InSet, InList, Accepts, Lists, SetFor, IsFlashLoanFactory, IsAcceptedFactory;
    var checks := EvaluateA1(data, policy, call.chainId, DeadlineEntry(policy, call));
    var partial := if data.partialHolders.Some? then data.partialHolders.value else map[];
    var disposition := policy.onLookbackExhausted;
    Rolled(checks);
    PolicyByValue(policy, call, data.factory);
    InSetIff(policy.owners, call.chainId, data.owner);
    PartialMeans(ExecutorAccepted, partial, 0, policy.flashLoanExecutors, call.chainId, disposition);
    PartialMeans(PullerAccepted, partial, 0, policy.pullers, call.chainId, disposition);
    PartialMeans(ConsumerAccepted, partial, 1, policy.consumers, call.chainId, disposition);
    FirstEntries(checks);
  }

  lemma PartialMeansRecent(chain: seq<Log>, getLogs: GetLogs, signals: Signals, q: ScanArgs, policy: Policy, chainId: nat, factory: Address)
    requires WellOrdered(chain) && Faithful(getLogs, chain)
    requires Scan(getLogs, signals, q).Some? && Scan(getLogs, signals, q).value.TooOld?
    ensures PartialAcceptable(Scan(getLogs, signals, q).value.partialHolders, policy, chainId, factory) <==>
            NoRecentRogues(chain, q.request, q.Earliest(), q.latestBlock, policy, chainId, factory)
  {
    hide Scan, RolesAt, LatestAtOrAbove, InSet, InList, WellOrdered, Faithful;
    TooOldIsPartial(chain, getLogs, signals, q);
  }

  /** On the classic path, without a usable cache entry and when every read is
      answered, the runner signs exactly when the true state of the chain
      justifies it, for either disposition and any order of the replies. */
  lemma ClassicVerdict(chain: seq<Log>, node: Node, policy: Policy, call: Call)
    requires WellOrdered(chain) && Faithful(node.getLogs, chain)
    requires CreatedFirst(chain, Matched(node, policy, call.chainId), call.contract)
    requires ClassicPath(node, policy, call)
    requires RunA1(node, policy, call, None) != Err(UpstreamUnavailable)
    ensures RunA1(node, policy, call, None).Ok? <==>
            && (exists factory :: ClaimedBy(node, policy, call.chainId, factory))
            && node.blockNumber.Some? && Matched(node, policy, call.chainId) != []
            && Justified(chain, node, policy, call)
  {
    OnClassicPath(node, policy, call);
    MatchedFactories(node, policy, call.chainId);
    hide ClassicPath, ClaimedBy, EvaluateA1, Scan, RolesAcceptable, NoRecentRogues, PartialAcceptable, CreatedWithin, RolesAt, Faithful, CreatedFirst, WellOrdered;
    if Matched(node, policy, call.chainId) == [] {
      NoFactoryFails(policy, call);
    } else {
      ClassicMatched(chain, node, policy, call);
    }
  }

  lemma NoFactoryFails(policy: Policy, call: Call)
    ensures RollUp(EvaluateA1(NoFactory, policy, call.chainId, DeadlineEntry(policy, call))).Err?
  {
    var checks := EvaluateA1(NoFactory, policy, call.chainId, DeadlineEntry(policy, call));
    assert !checks[0].passed;
  }

  lemma AnsweredIsValid(getLogs: GetLogs, signals: Signals, q: ScanArgs)
    requires Scan(getLogs, signals, q).Some?
    ensures q.Valid()
  {}

  lemma ClassicMatched(chain: seq<Log>, node: Node, policy: Policy, call: Call)
    requires WellOrdered(chain) && Faithful(node.getLogs, chain)
    requires CreatedFirst(chain, Matched(node, policy, call.chainId), call.contract)
    requires ClassicPath(node, policy, call)
    requires Matched(node, policy, call.chainId) != []
    requires RunA1(node, policy, call, None) != Err(UpstreamUnavailable)
    ensures node.blockNumber.Some?
    ensures RunA1(node, policy, call, None).Ok? <==> Justified(chain, node, policy, call)
  {
    OnClassicPath(node, policy, call);
    hide ClassicPath, InSet, InList, ClaimedBy, EvaluateA1, Scan, RolesAcceptable, NoRecentRogues, PartialAcceptable, CreatedWithin, RolesAt, Faithful, CreatedFirst, WellOrdered;
    MatchedFactories(node, policy, call.chainId);
    var owner := node.owner.result;
    var read := ReadRoles(node, policy, call.chainId, call.contract, owner, call.signals);
    assert RunA1(node, policy, call, None) ==
           match read
           case Err(e) => Err(e)
           case Ok(data) => RollUp(EvaluateA1(data, policy, call.chainId, DeadlineEntry(policy, call)));
    var q := QueryFor(node, policy, call);
    var data := read.value;
    if data.TooOldData? {
      assert data.factory in Matched(node, policy, call.chainId);
      EvaluateTooOld(data, policy, call);
      if !PredatesWindow(node, policy, q.latestBlock) {
        AnsweredIsValid(node.getLogs, call.signals, q);
        ResolvesIff(chain, node.getLogs, call.signals, q);
        PartialMeansRecent(chain, node.getLogs, call.signals, q, policy, call.chainId, data.factory);
      }
    } else {
      AnsweredIsValid(node.getLogs, call.signals, q);
      ResolvesIff(chain, node.getLogs, call.signals, q);
      ResolvedIsExact(chain, node.getLogs, call.signals, q);
      if Scan(node.getLogs, call.signals, q).value.deploymentFactory.Some? {
        DeploymentIsAnnounced(chain, node.getLogs, call.signals, q);
      }
      assert data.factory in Matched(node, policy, call.chainId);
      EvaluateResolved(data, policy, call);
    }
  }

  /** End-to-end soundness under "fail": a signature means that an accepted
      factory claims the contract, the owner is accepted, the deadline is under
      the ceiling, and after the whole history every checked role is held, and
      held only by accepted parties. */
  lemma FailClosedSoundness(chain: seq<Log>, node: Node, policy: Policy, call: Call)
    requires WellOrdered(chain) && Faithful(node.getLogs, chain)
    requires CreatedFirst(chain, Matched(node, policy, call.chainId), call.contract)
    requires policy.onLookbackExhausted == Fail
    requires ClassicPath(node, policy, call)
    requires RunA1(node, policy, call, None).Ok?
    ensures node.blockNumber.Some?
    ensures call.deadline <= call.nowUnix + policy.maxDeadlineSecondsAhead
    ensures InSet(policy.owners, call.chainId, node.owner.result)
    ensures exists factory ::
              && ClaimedBy(node, policy, call.chainId, factory)
              && RolesAcceptable(RolesAt(chain, call.contract, node.blockNumber.value), policy, call.chainId, factory)
  {
    OnClassicPath(node, policy, call);
    hide ClassicPath, InSet, InList, ClaimedBy, EvaluateA1, RolesAcceptable, NoRecentRogues, PartialAcceptable, CreatedWithin, RolesAt, Faithful,
         CreatedFirst, WellOrdered;
    if Matched(node, policy, call.chainId) == [] {
      NoFactoryFails(policy, call);
    }
    MatchedFactories(node, policy, call.chainId);
    ClassicMatched(chain, node, policy, call);
    AttributedIsMatched(chain, node, policy, call);
    assert ClaimedBy(node, policy, call.chainId, Attributed(node, policy, call));
  }

  lemma AttributedIsMatched(chain: seq<Log>, node: Node, policy: Policy, call: Call)
    requires Faithful(node.getLogs, chain)
    requires node.blockNumber.Some? && Matched(node, policy, call.chainId) != []
    ensures Attributed(node, policy, call) in Matched(node, policy, call.chainId)
  {
    hide Scan, Faithful;
    var q := QueryFor(node, policy, call);
    var outcome := Scan(node.getLogs, call.signals, q);
    if outcome.Some? && outcome.value.Resolved? && outcome.value.deploymentFactory.Some? {
      DeploymentIsAnnounced(chain, node.getLogs, call.signals, q);
    }
  }

  // ---------------------------------------------------------------------
  // The other paths
  // ---------------------------------------------------------------------

  /** A trusted contract is signed for exactly when the deadline holds, whatever the node
      answers and the cache holds; nothing is cached. */
  lemma TrustedVerdict(node: Node, policy: Policy, call: Call, cached: Option<A1Data>)
    requires InSet(policy.trustedRequestContracts, call.chainId, call.contract)
    ensures RunA1(node, policy, call, cached).Ok? <==> call.deadline <= call.nowUnix + policy.maxDeadlineSecondsAhead
    ensures Writeback(node, policy, call, cached) == None
  {
    PolicyByValue(policy, call, call.contract);
    var checks := TrustedChecks(DeadlineEntry(policy, call));
    Rolled(checks);
    assert checks[5] == DeadlineEntry(policy, call) && checks[5] in checks;
  }

  /** A contract owned by a listed retargetter is signed for exactly when it is
      the attached request, with enough repayment time left: 80 days if not configured. */
  lemma RetargetterVerdict(node: Node, policy: Policy, call: Call, cached: Option<A1Data>)
    requires !InSet(policy.trustedRequestContracts, call.chainId, call.contract)
    requires !node.multicallThrows && node.owner.Success?
    requires InSet(policy.acceptedRetargetters, call.chainId, node.owner.result)
    requires Usable(policy, call.chainId, cached) == None
    ensures RunA1(node, policy, call, cached).Ok? <==>
            && node.operation.Success?
            && node.operation.result.attachedRequest.value == call.contract.value
            && node.operation.result.repaymentDeadline >=
               call.nowUnix + (if policy.minRepaymentBuffer.Some? then policy.minRepaymentBuffer.value else 6_912_000)
            && call.deadline <= call.nowUnix + policy.maxDeadlineSecondsAhead
    ensures Writeback(node, policy, call, cached) == None
  {
    PolicyByValue(policy, call, call.contract);
    InSetIff(policy.acceptedRetargetters, call.chainId, node.owner.result);
    if node.operation.Success? {
      hide Accepts, InSet, InList, Lists;
      var checks := EvaluateRetargetter(node.operation.result, call.contract, call.nowUnix, policy, DeadlineEntry(policy, call));
      Rolled(checks);
      assert checks[5] in checks && checks[6] in checks && checks[7] in checks;
    }
  }

  /** What the runner writes to the cache: what it read on the classic path because the
      cache had no entry it may use, unless that is "older than the window" without a
      scan behind it. An entry is not used if its owner is a listed retargetter. */
  lemma WritesIff(node: Node, policy: Policy, call: Call, cached: Option<A1Data>, data: A1Data)
    ensures Writeback(node, policy, call, cached) == Some(data) <==>
            && !InSet(policy.trustedRequestContracts, call.chainId, call.contract)
            && (cached.Some? ==> !cached.value.NoFactory? && InSet(policy.acceptedRetargetters, call.chainId, cached.value.owner))
            && Fetch(node, policy, call.chainId, call.contract, call.signals) == Ok(OnChain(data))
            && (data.NoFactory? || data.ResolvedData? || data.partialHolders.Some?)
  {
    hide Fetch, Accepts, InSet, InList, Lists;
    PolicyByValue(policy, call, call.contract);
    if cached.Some? && !cached.value.NoFactory? { InSetIff(policy.acceptedRetargetters, call.chainId, cached.value.owner); }
  }

  predicate IsRoleCheck(d: Description) {
    d == PullerAccepted || d == ConsumerAccepted || d == ExecutorAccepted
  }

  /** Incomplete data never passes a role check: it is skipped or failed. */
  lemma TooOldNeverPasses(data: A1Data, policy: Policy, chainId: nat, deadlineCheck: CheckEntry, i: nat)
    requires data.TooOldData? && deadlineCheck.description == DeadlineWithinCeiling
    requires i < |EvaluateA1(data, policy, chainId, deadlineCheck)|
    requires IsRoleCheck(EvaluateA1(data, policy, chainId, deadlineCheck)[i].description)
    ensures var entry := EvaluateA1(data, policy, chainId, deadlineCheck)[i];
            entry.skipped || !entry.passed
  {
    hide HolderSet, AllAccepted, Accepts, Lists;
  }

  /** For a contract created before the window, on the classic path, no role check is
      ever passed: each is skipped or failed, under either disposition. */
  lemma OlderNeverPasses(chain: seq<Log>, node: Node, policy: Policy, call: Call)
    requires Faithful(node.getLogs, chain)
    requires ClassicPath(node, policy, call) && Matched(node, policy, call.chainId) != []
    requires RunA1(node, policy, call, None) != Err(UpstreamUnavailable)
    requires node.blockNumber.Some? ==>
               var q := QueryFor(node, policy, call);
               q.Valid() && q.Earliest() > 0 && !CreatedWithin(chain, q.factories, call.contract, q.Earliest(), q.latestBlock)
    ensures forall e :: e in Entries(RunA1(node, policy, call, None)) && IsRoleCheck(e.description) ==> e.skipped || !e.passed
  {
    OnClassicPath(node, policy, call);
    hide ClassicPath, EvaluateA1, Scan, Hits, FactoryChecks, CreatedWithin, Faithful;
    var q := QueryFor(node, policy, call);
    if !PredatesWindow(node, policy, q.latestBlock) {
      ResolvesIff(chain, node.getLogs, call.signals, q);
    }
    var data := Fetch(node, policy, call.chainId, call.contract, call.signals).value.data;
    assert data.TooOldData?;
    var checks := EvaluateA1(data, policy, call.chainId, DeadlineEntry(policy, call));
    forall i | 0 <= i < |checks| && IsRoleCheck(checks[i].description) ensures checks[i].skipped || !checks[i].passed {
      TooOldNeverPasses(data, policy, call.chainId, DeadlineEntry(policy, call), i);
    }
  }

  // ---------------------------------------------------------------------
  // The code probe
  // ---------------------------------------------------------------------

  /** Under "fail" the observed holders do not change any entry. */
  lemma FailIgnoresPartial(factory: Address, owner: Address, partial: Option<Roles>, policy: Policy, chainId: nat, deadlineCheck: CheckEntry)
    requires policy.onLookbackExhausted == Fail
    ensures EvaluateA1(TooOldData(factory, owner, partial), policy, chainId, deadlineCheck) ==
            EvaluateA1(TooOldData(factory, owner, None), policy, chainId, deadlineCheck)
  {}

  /** The same node without historical state. */
  function WithoutArchive(node: Node): Node {
    node.(hasCode := block => None)
  }

  lemma WithoutArchiveMatches(node: Node, checks: seq<FactoryCheck>)
    ensures Hits(WithoutArchive(node), checks) == Hits(node, checks)
    ensures AnyUnanswered(WithoutArchive(node), checks) == AnyUnanswered(node, checks)
  {}

  /** Skipping the scan gives the entries and the verdict the scan would give,
      when the contract is older than the window. */
  lemma FastPathAgrees(chain: seq<Log>, node: Node, policy: Policy, call: Call)
    requires Faithful(node.getLogs, chain)
    requires ClassicPath(node, policy, call) && policy.onLookbackExhausted == Fail
    requires Matched(node, policy, call.chainId) != [] && node.blockNumber.Some?
    requires QueryFor(node, policy, call).Valid() && Scan(node.getLogs, call.signals, QueryFor(node, policy, call)).Some?
    requires var q := QueryFor(node, policy, call);
             q.Earliest() > 0 && node.hasCode(q.Earliest() - 1) == Some(true) &&
             !CreatedWithin(chain, q.factories, call.contract, q.Earliest(), q.latestBlock)
    ensures RunA1(node, policy, call, None) == RunA1(WithoutArchive(node), policy, call, None)
  {
    OnClassicPath(node, policy, call);
    hide ClassicPath, EvaluateA1, Scan, Faithful, CreatedWithin;
    var q := QueryFor(node, policy, call);
    WithoutArchiveMatches(node, FactoryChecks(policy, call.chainId));
    ResolvesIff(chain, node.getLogs, call.signals, q);
    var outcome := Scan(node.getLogs, call.signals, q).value;
    FailIgnoresPartial(q.factories[0], node.owner.result, Some(outcome.partialHolders), policy, call.chainId, DeadlineEntry(policy, call));
  }

  /** Whatever the archive answers, the probe never turns a refusal into a signature. */
  lemma ProbeOnlyTightens(node: Node, policy: Policy, call: Call)
    requires RunA1(node, policy, call, None).Ok?
    ensures RunA1(WithoutArchive(node), policy, call, None) == RunA1(node, policy, call, None)
  {
    OnClassicPath(node, policy, call);
    hide ClassicPath, ClaimedBy, EvaluateA1, Scan;
    WithoutArchiveMatches(node, FactoryChecks(policy, call.chainId));
    if ClassicPath(node, policy, call) && Matched(node, policy, call.chainId) != [] {
      MatchedFactories(node, policy, call.chainId);
      EvaluateTooOld(TooOldData(Matched(node, policy, call.chainId)[0], node.owner.result, None), policy, call);
    }
  }

  /** When no accepted factory claims the contract, the caller is blamed only if
      every factory answered; otherwise the failure is upstream, and not cached. */
  lemma UnclaimedVerdict(node: Node, policy: Policy, call: Call)
    requires ClassicPath(node, policy, call)
    requires forall factory :: !ClaimedBy(node, policy, call.chainId, factory)
    ensures RunA1(node, policy, call, None).Err?
    ensures RunA1(node, policy, call, None) == Err(UpstreamUnavailable) <==> SomeUnanswered(node, policy, call.chainId)
    ensures Writeback(node, policy, call, None) ==
            if SomeUnanswered(node, policy, call.chainId) then None else Some(NoFactory)
  {
    OnClassicPath(node, policy, call);
    MatchedFactories(node, policy, call.chainId);
    UnansweredIff(node, policy, call.chainId);
    hide ClassicPath, ClaimedBy, SomeUnanswered, FactoryChecks, Hits;
    NoFactoryFails(policy, call);
  }

  /** A contract whose `owner()` fails deterministically is refused, and remembered as
      one without a factory; any other failure of that read is upstream. */
  lemma OwnerlessVerdict(node: Node, policy: Policy, call: Call)
    requires !InSet(policy.trustedRequestContracts, call.chainId, call.contract)
    requires node.multicallThrows || !node.owner.Success?
    ensures RunA1(node, policy, call, None).Err?
    ensures RunA1(node, policy, call, None) == Err(UpstreamUnavailable) <==> node.multicallThrows || node.owner.TransportFailure?
    ensures Writeback(node, policy, call, None) ==
            if node.multicallThrows || node.owner.TransportFailure? then None else Some(NoFactory)
  {
    PolicyByValue(policy, call, call.contract);
    NoFactoryFails(policy, call);
  }

  /** A failure is upstream exactly when the contract is not trusted and a read that
      decides it failed: the first multicall or the owner; the operation of a listed
      retargetter; a provenance read when no factory claims the contract; and for a
      claimed one the block number or, unless code before the window settles it, the
      scan. */
  lemma UnavailableIff(node: Node, policy: Policy, call: Call)
    ensures RunA1(node, policy, call, None) == Err(UpstreamUnavailable) <==>
            && !InSet(policy.trustedRequestContracts, call.chainId, call.contract)
            && (|| node.multicallThrows
                || node.owner.TransportFailure?
                || (node.owner.Success? &&
                    if InSet(policy.acceptedRetargetters, call.chainId, node.owner.result) then !node.operation.Success?
                    else if forall factory :: !ClaimedBy(node, policy, call.chainId, factory) then
                      SomeUnanswered(node, policy, call.chainId)
                    else
                      || node.blockNumber.None?
                      || (var latest := node.blockNumber.value;
                          && !(policy.onLookbackExhausted == Fail && latest > policy.maxLookbackBlocks &&
                               node.hasCode(latest - policy.maxLookbackBlocks - 1) == Some(true))
                          && Scan(node.getLogs, call.signals,
                                  ScanArgs(Matched(node, policy, call.chainId), call.contract, latest, policy.blockRange,
                                           policy.maxLookbackBlocks, policy.scanDeadlineMs)) == None)))
  {
    PolicyByValue(policy, call, call.contract);
    if node.owner.Success? { InSetIff(policy.acceptedRetargetters, call.chainId, node.owner.result); }
    MatchedFactories(node, policy, call.chainId);
    UnansweredIff(node, policy, call.chainId);
    hide EvaluateA1, Scan, InSet, InList, Accepts, Lists, ClaimedBy, SomeUnanswered, FactoryChecks, Hits;
  }

  /** The factory that decides which roles are checked: when the scan resolves it is
      one that announced the creation inside the window, or, if the window reaches
      block 0 and no matched factory ever announced it, the first matched one. */
  lemma AttributedToCreator(chain: seq<Log>, node: Node, policy: Policy, call: Call)
    requires Faithful(node.getLogs, chain)
    requires node.blockNumber.Some? && Matched(node, policy, call.chainId) != []
    requires var q := QueryFor(node, policy, call);
             && !PredatesWindow(node, policy, q.latestBlock)
             && Scan(node.getLogs, call.signals, q).Some?
             && Scan(node.getLogs, call.signals, q).value.Resolved?
    ensures var q, factory := QueryFor(node, policy, call), Attributed(node, policy, call);
            if CreatedWithin(chain, q.factories, call.contract, q.Earliest(), q.latestBlock) then
              exists block: nat :: q.Earliest() <= block <= q.latestBlock &&
                Announced(chain, q.factories, call.contract, Creation(block, factory))
            else
              q.Earliest() == 0 && factory == q.factories[0]
  {
    hide CreatedWithin, Announced, Faithful, Walk, RoleLogs, Replay, SortLogs, Prune;
    var q := QueryFor(node, policy, call);
    var from := ScanCollects(chain, node.getLogs, call.signals, q);
    var end := Walk(node.getLogs, call.signals, q, 0, q.latestBlock, []).value;
    var factory := Attributed(node, policy, call);
    assert Collected(chain, q, end, from);
    assert Scan(node.getLogs, call.signals, q) == Some(Conclude(q, end));
    if end.found.Some? {
      assert end.found.value == Creation(end.found.value.block, factory);
      assert Announced(chain, q.factories, q.request, Creation(end.found.value.block, factory));
    } else {
      assert factory == q.factories[0];
    }
  }
}
