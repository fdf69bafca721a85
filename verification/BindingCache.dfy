/**
 The Appendix A.1 runner behind a cache of its on-chain reads.

 `ServeOne` threads the cache through one call; the cache may lose any entry at
 any time (expiry, eviction) and its reads and writes may throw. Each call reads
 a node of its own, whose reads may fail and whose replies come in any order. The
 theorems say when the cache is transparent for a fixed state of the chain.
 */
module BindingCache {
  import opened Common
  import opened Checks
  import opened RoleEvents
  import opened RoleScan
  import opened ScanCorrectness
  import opened RequestBinding
  import opened BindingCorrectness
  import opened FaultFreeReads
  import opened TtlCache

  // ---------------------------------------------------------------------
  // The runner over the in-memory cache
  // ---------------------------------------------------------------------

  /** `chainId:requestContract`, lower-cased. */
  type Key = (nat, Address)

  function KeyOf(call: Call): Key {
    (call.chainId, Lower(call.contract))
  }

  /** One call: the node it reads, the policy in force, and, for a cache that is not
      the in-memory one, the entries lost before the call and whether the cache
      throws on the read or on the write. */
  datatype Request = Request(call: Call, policy: Policy, node: Node, lost: set<Key>, getThrows: bool, setThrows: bool)

  /** The clocks of one call to the in-memory cache. */
  datatype Clocks = Clocks(get: real, set_: real, sweep: real)

  /** The verdict of one call over the in-memory cache, and what it then holds. */
  function AfterCall(cfg: Config<A1Data>, m: Contents<Key, A1Data>, ttlMs: Option<real>, r: Request, clocks: Clocks)
    : (Verdict, Contents<Key, A1Data>)
  {
    var key := KeyOf(r.call);
    var seen := TtlCache.Answer(cfg, m, key, clocks.get);
    var write := Writeback(r.node, r.policy, r.call, seen);
    var read := if IsTrusted(r.policy, r.call) then m else AfterGet(cfg, m, key, clocks.get);
    (RunA1(r.node, r.policy, r.call, seen),
     if write.Some? && Accepted(cfg, ttlMs) then
       AfterSet(cfg, read, key, EntryFor(cfg, write.value, ttlMs, clocks.set_), clocks.sweep)
     else read)
  }

  method RunCached(cache: InMemoryCache?<Key, A1Data>, ttlMs: Option<real>, node: Node, policy: Policy, call: Call, clocks: Clocks)
    returns (verdict: Verdict)
    requires cache != null ==> cache.Valid()
    modifies cache
    ensures cache != null ==> cache.Valid()
    ensures cache == null ==> verdict == RunA1(node, policy, call, None)
    ensures cache != null ==>
              (verdict, cache.entries) ==
              AfterCall(cache.cfg, old(cache.entries), ttlMs, Request(call, policy, node, {}, false, false), clocks)
  {
    hide Fetch, EvaluateA1, EvaluateRetargetter, TrustedChecks, RollUp, Accepts, AfterSet, AfterGet, TtlCache.Answer, WellFormed;
    var deadlineCheck := CheckDeadline(call.nowUnix, call.deadline, policy.maxDeadlineSecondsAhead);
    if Accepts(SetFor(policy.trustedRequestContracts, call.chainId), call.contract) {
      return RollUp(TrustedChecks(deadlineCheck));
    }
    var onChain: Option<A1Data> := None;
    if cache != null {
      onChain := cache.Get(KeyOf(call), clocks.get);
      if onChain.Some? && !onChain.value.NoFactory? &&
         Accepts(SetFor(policy.acceptedRetargetters, call.chainId), onChain.value.owner) {
        onChain := None;
      }
    }
    if onChain.None? {
      var fetched := FetchA1OnChain(node, policy, call.chainId, call.contract, call.signals);
      if fetched.Err? { return Err(fetched.error); }
      if fetched.value.Retargetter? {
        return RollUp(EvaluateRetargetter(fetched.value.operation, call.contract, call.nowUnix, policy, deadlineCheck));
      }
      onChain := Some(fetched.value.data);
      if cache != null && !(onChain.value.TooOldData? && onChain.value.partialHolders.None?) {
        var _ := cache.Set(KeyOf(call), onChain.value, ttlMs, clocks.set_, clocks.sweep);
      }
    }
    verdict := RollUp(EvaluateA1(onChain.value, policy, call.chainId, deadlineCheck));
  }

  // ---------------------------------------------------------------------
  // One replayed entry
  // ---------------------------------------------------------------------

  predicate SaneBudget(p: Policy) {
    p.scanDeadlineMs.Some? ==> p.scanDeadlineMs.value >= 0
  }

  /** World assumption: a contract that already has code has its creation behind it. */
  ghost predicate CodeMeansCreated(node: Node, chain: seq<Log>, factories: seq<Address>, contract: Address) {
    forall block: int, lo: int, hi: int :: node.hasCode(block) == Some(true) && block < lo ==>
      !CreatedWithin(chain, factories, contract, lo, hi)
  }

  /** The undisturbed verdict of a node that answers everything is the evaluation of
      the fault-free read, under any disposition. */
  lemma FaultFreeIsCanonical(chain: seq<Log>, full: Node, p0: Policy, policy: Policy, call: Call, data: A1Data)
    requires Truth(chain, full, p0, call.chainId, call.contract)
    requires CodeMeansCreated(full, chain, Matched(full, policy, call.chainId), call.contract)
    requires SameReads(policy, p0) && SaneBudget(policy)
    requires Canonical(full, p0, call.chainId, call.contract) == Ok(OnChain(data))
    requires full.owner.Success? ==> !Accepts(SetFor(policy.acceptedRetargetters, call.chainId), full.owner.result)
    requires !IsTrusted(policy, call)
    ensures RunA1(full, policy, Undisturbed(call), None) ==
            RollUp(EvaluateA1(data, policy, call.chainId, DeadlineEntry(policy, call)))
  {
    hide Scan, FactoryChecks, Hits, EvaluateA1, Faithful, CreatedWithin, WellOrdered, OneAnnouncerPerChunk;
    SameMatches(full, policy, Patient(p0), call.chainId);
    assert DeadlineEntry(policy, Undisturbed(call)) == DeadlineEntry(policy, call);
    if Matched(full, policy, call.chainId) != [] && full.owner.Success? {
      var q := QueryFor(full, policy, call);
      var q0 := q.(deadlineMs := None);
      assert Scan(full.getLogs, Quiet(), q0).Some?;
      AnsweredIsValid(full.getLogs, Quiet(), q0);
      if PredatesWindow(full, policy, q.latestBlock) {
        ResolvesIff(chain, full.getLogs, Quiet(), q0);
        assert Scan(full.getLogs, Quiet(), q0).value.TooOld?;
        assert data.TooOldData?;
        FailIgnoresPartial(data.factory, data.owner, data.partialHolders, policy, call.chainId, DeadlineEntry(policy, call));
      } else {
        BudgetedScanEnds(full, q);
        ScansAgree(chain, full.getLogs, Quiet(), q, full.getLogs, Quiet(), q0);
      }
    }
  }

  lemma BudgetedScanEnds(full: Node, q: ScanArgs)
    requires FaultFree(full) && q.Valid()
    ensures Scan(full.getLogs, Quiet(), q).Some?
  {
    QuietWalkEnds(full.getLogs, Quiet(), q, 0, q.latestBlock, []);
  }

  /** An entry written by a request that read the factory that decides, replayed
      under a later policy, gives the verdict of a fresh fault-free read, exactly
      unless it is a "no factory" entry of a contract whose owner has meanwhile been
      listed as a retargetter. */
  lemma ReplayIsFresh(chain: seq<Log>, full: Node, p0: Policy, writer: Node, written: Call, policy: Policy, call: Call)
    requires Truth(chain, full, p0, call.chainId, call.contract) && Degrades(writer, chain, full)
    requires CodeMeansCreated(full, chain, Matched(full, policy, call.chainId), call.contract)
    requires SameReads(policy, p0) && SaneBudget(policy)
    requires written.chainId == call.chainId && written.contract == call.contract
    requires Harmless(chain, full, p0, writer, call.chainId, call.contract)
    requires Writeback(writer, p0, written, None).Some?
    ensures var data := Writeback(writer, p0, written, None).value;
            RunA1(full, policy, call, Some(data)) == RunA1(full, policy, Undisturbed(call), None) <==>
            || InSet(policy.trustedRequestContracts, call.chainId, call.contract)
            || !data.NoFactory?
            || !full.owner.Success?
            || !InSet(policy.acceptedRetargetters, call.chainId, full.owner.result)
  {
    PolicyByValue(policy, call, call.contract);
    if full.owner.Success? { InSetIff(policy.acceptedRetargetters, call.chainId, full.owner.result); }
    hide InSet, InList, Accepts, Lists, Truth, Degrades, CodeMeansCreated, Harmless, Writeback, Canonical;
    var data := Writeback(writer, p0, written, None).value;
    HarmlessIsFaultFree(chain, full, p0, writer, p0, written, None);
    CanonicalReplay(chain, full, p0, policy, call, data);
  }

  lemma CanonicalReplay(chain: seq<Log>, full: Node, p0: Policy, policy: Policy, call: Call, data: A1Data)
    requires Truth(chain, full, p0, call.chainId, call.contract)
    requires CodeMeansCreated(full, chain, Matched(full, policy, call.chainId), call.contract)
    requires SameReads(policy, p0) && SaneBudget(policy)
    requires Canonical(full, p0, call.chainId, call.contract) == Ok(OnChain(data))
    ensures RunA1(full, policy, call, Some(data)) == RunA1(full, policy, Undisturbed(call), None) <==>
            || IsTrusted(policy, call)
            || !data.NoFactory?
            || !full.owner.Success?
            || !Accepts(SetFor(policy.acceptedRetargetters, call.chainId), full.owner.result)
  {
    hide Scan, FactoryChecks, Hits, Truth, CodeMeansCreated;
    assert !data.NoFactory? ==> full.owner == Success(data.owner);
    if !IsTrusted(policy, call) {
      if full.owner.Success? && Accepts(SetFor(policy.acceptedRetargetters, call.chainId), full.owner.result) {
        if data.NoFactory? {
          assert !full.multicallThrows;
          RetargetterDiffers(full, policy, call);
        }
      } else {
        FaultFreeIsCanonical(chain, full, p0, policy, call, data);
      }
    }
  }

  lemma RetargetterDiffers(node: Node, policy: Policy, call: Call)
    requires !IsTrusted(policy, call) && !node.multicallThrows && node.owner.Success?
    requires Accepts(SetFor(policy.acceptedRetargetters, call.chainId), node.owner.result)
    ensures RunA1(node, policy, call, Some(NoFactory)) != RunA1(node, policy, Undisturbed(call), None)
  {}

  // ---------------------------------------------------------------------
  // One fresh read
  // ---------------------------------------------------------------------

  /** A probe that is answered for one node is answered the same way for the other. */
  lemma SameProbe(chain: seq<Log>, full: Node, p0: Policy, node: Node, policy: Policy, call: Call, data: A1Data)
    requires FaultFree(full) && AnswersLike(node, full) && SameReads(policy, p0)
    requires CodeMeansCreated(full, chain, Matched(full, policy, call.chainId), call.contract)
    requires Harmless(chain, full, p0, node, call.chainId, call.contract)
    requires Fetch(node, policy, call.chainId, call.contract, call.signals) == Ok(OnChain(data)) && !Cacheable(data)
    ensures Fetch(full, policy, call.chainId, call.contract, Quiet()) == Ok(OnChain(data))
  {
    hide FactoryChecks, Hits, Scan, CreatedWithin, CreatedFirst, ProvenanceAnswered;
    SameMatches(node, policy, p0, call.chainId);
    SameMatches(full, policy, p0, call.chainId);
    SameMatches(full, p0, Patient(p0), call.chainId);
    if ProvenanceAnswered(node, FactoryChecks(p0, call.chainId)) {
      SameHits(node, full, FactoryChecks(p0, call.chainId));
    } else {
      FewerMatched(node, full, policy, call.chainId);
      ListedNonempty(Matched(node, policy, call.chainId), Matched(full, policy, call.chainId));
    }
  }

  /** A fresh read that does no harm gives the fault-free verdict, or is cut short. */
  lemma FreshAgrees(chain: seq<Log>, full: Node, p0: Policy, node: Node, policy: Policy, call: Call)
    requires Truth(chain, full, p0, call.chainId, call.contract) && Degrades(node, chain, full)
    requires CodeMeansCreated(full, chain, Matched(full, policy, call.chainId), call.contract)
    requires SameReads(policy, p0) && SaneBudget(policy) && policy.acceptedRetargetters == p0.acceptedRetargetters
    requires Harmless(chain, full, p0, node, call.chainId, call.contract)
    ensures RunA1(node, policy, call, None) == RunA1(full, policy, Undisturbed(call), None) ||
            RunA1(node, policy, call, None) == Err(UpstreamUnavailable)
  {
    hide FactoryChecks, Hits, Scan, EvaluateA1, Canonical, CodeMeansCreated, Harmless, OneAnnouncerPerChunk, ReadRoles;
    assert DeadlineEntry(policy, Undisturbed(call)) == DeadlineEntry(policy, call);
    var fetched := Fetch(node, policy, call.chainId, call.contract, call.signals);
    if !IsTrusted(policy, call) && fetched.Ok? {
      if fetched.value.OnChain? {
        var data := fetched.value.data;
        if Cacheable(data) {
          HarmlessIsFaultFree(chain, full, p0, node, policy, call, None);
          FaultFreeIsCanonical(chain, full, p0, policy, call, data);
        } else {
          SameProbe(chain, full, p0, node, policy, call, data);
        }
      }
    } else if fetched.Err? {
      FailedFetch(node, policy, call.chainId, call.contract, call.signals);
    }
  }

  lemma FailedFetch(node: Node, policy: Policy, chainId: nat, contract: Address, signals: Signals)
    requires Fetch(node, policy, chainId, contract, signals).Err?
    ensures Fetch(node, policy, chainId, contract, signals) == Err(UpstreamUnavailable)
  {}

  // ---------------------------------------------------------------------
  // Runs
  // ---------------------------------------------------------------------

  /** The fixed state of the chains: what a node that answers everything says of each
      contract, and the logs behind it. */
  datatype World = World(node: Key -> Node, chain: nat -> seq<Log>)

  ghost predicate FixedWorld(w: World, p0: Policy) {
    forall key: Key ::
      && Truth(w.chain(key.0), w.node(key), p0, key.0, key.1)
      && CodeMeansCreated(w.node(key), w.chain(key.0), Matched(w.node(key), p0, key.0), key.1)
  }

  /** Bodies are schema-normalised; only the factory, lookback and retargetter settings
      stay as in `p0`; and the node read answers for the state of the world. */
  ghost predicate Compatible(w: World, p0: Policy, r: Request) {
    && Lower(r.call.contract) == r.call.contract
    && SameReads(r.policy, p0) && SaneBudget(r.policy)
    && r.policy.acceptedRetargetters == p0.acceptedRetargetters
    && Degrades(r.node, w.chain(r.call.chainId), w.node(KeyOf(r.call)))
  }

  /** Every provenance read of the request was answered, or that of the factory that
      decides the fault-free read. */
  ghost predicate ReadsDecider(w: World, p0: Policy, r: Request) {
    var key := KeyOf(r.call);
    Harmless(w.chain(key.0), w.node(key), p0, r.node, key.0, key.1)
  }

  /** The verdict without a cache. */
  function Uncached(r: Request): Verdict {
    RunA1(r.node, r.policy, r.call, None)
  }

  /** The verdict without a cache when every read is answered and nothing aborts the scan. */
  function FaultFreeVerdict(w: World, r: Request): Verdict {
    RunA1(w.node(KeyOf(r.call)), r.policy, Undisturbed(r.call), None)
  }

  /** A verdict is the fault-free one, or the request's own without a cache, which can
      then only be "upstream unavailable" if the factory that decides was read. */
  ghost predicate Agrees(w: World, p0: Policy, r: Request, verdict: Verdict) {
    || verdict == FaultFreeVerdict(w, r)
    || (verdict == Uncached(r) && (ReadsDecider(w, p0, r) ==> verdict == Err(UpstreamUnavailable)))
  }

  /** `data` is the fault-free read of the contract behind `key`. */
  ghost predicate GenuineEntry(w: World, p0: Policy, key: Key, data: A1Data) {
    Canonical(w.node(key), p0, key.0, key.1) == Ok(OnChain(data))
  }

  /** One call that sees no entry or a genuine one. */
  lemma CallAgrees(w: World, p0: Policy, r: Request, seen: Option<A1Data>)
    requires FixedWorld(w, p0) && Compatible(w, p0, r)
    requires seen.Some? ==> GenuineEntry(w, p0, KeyOf(r.call), seen.value)
    ensures Agrees(w, p0, r, RunA1(r.node, r.policy, r.call, seen))
    ensures Writeback(r.node, r.policy, r.call, seen).Some? && ReadsDecider(w, p0, r) ==>
              GenuineEntry(w, p0, KeyOf(r.call), Writeback(r.node, r.policy, r.call, seen).value)
  {
    hide Fetch, EvaluateA1, CodeMeansCreated, Degrades, Truth, FactoryChecks, Hits, Harmless, Canonical;
    var key := KeyOf(r.call);
    var full, chain := w.node(key), w.chain(key.0);
    SameMatches(full, r.policy, p0, key.0);
    if ReadsDecider(w, p0, r) {
      FreshAgrees(chain, full, p0, r.node, r.policy, r.call);
      if Writeback(r.node, r.policy, r.call, seen).Some? {
        HarmlessIsFaultFree(chain, full, p0, r.node, r.policy, r.call, seen);
      }
    }
    if seen.Some? {
      NotRetargetter(full, p0, r.call, seen.value);
      if !IsTrusted(r.policy, r.call) {
        FaultFreeIsCanonical(chain, full, p0, r.policy, r.call, seen.value);
      }
    }
  }

  lemma NotRetargetter(node: Node, p0: Policy, call: Call, data: A1Data)
    requires Canonical(node, p0, call.chainId, call.contract) == Ok(OnChain(data))
    ensures node.owner.Success? ==> !Accepts(SetFor(p0.acceptedRetargetters, call.chainId), node.owner.result)
    ensures !data.NoFactory? ==> node.owner == Success(data.owner)
  {
    hide Scan, FactoryChecks, Hits;
  }

  function Seen(cache: map<Key, A1Data>, r: Request): Option<A1Data> {
    if !r.getThrows && KeyOf(r.call) in cache - r.lost then Some(cache[KeyOf(r.call)]) else None
  }

  /** The call writes an entry. */
  predicate Writes(cache: map<Key, A1Data>, r: Request) {
    Writeback(r.node, r.policy, r.call, Seen(cache, r)).Some? && !r.setThrows
  }

  /** The verdict of one call and the cache after it. */
  function ServeOne(cache: map<Key, A1Data>, r: Request): (Verdict, map<Key, A1Data>) {
    var kept := cache - r.lost;
    (RunA1(r.node, r.policy, r.call, Seen(cache, r)),
     if Writes(cache, r) then kept[KeyOf(r.call) := Writeback(r.node, r.policy, r.call, Seen(cache, r)).value] else kept)
  }

  function ServeAll(cache: map<Key, A1Data>, rs: seq<Request>): seq<Verdict>
    decreases |rs|
  {
    if rs == [] then []
    else
      var (verdict, after) := ServeOne(cache, rs[0]);
      [verdict] + ServeAll(after, rs[1..])
  }

  /** Every request that writes an entry read the factory that decides. */
  ghost predicate CleanWrites(w: World, p0: Policy, cache: map<Key, A1Data>, rs: seq<Request>)
    decreases |rs|
  {
    rs == [] ||
    ((Writes(cache, rs[0]) ==> ReadsDecider(w, p0, rs[0])) && CleanWrites(w, p0, ServeOne(cache, rs[0]).1, rs[1..]))
  }

  /** Every entry is a fault-free read. */
  ghost predicate Genuine(w: World, p0: Policy, cache: map<Key, A1Data>) {
    forall key: Key :: key in cache ==> GenuineEntry(w, p0, key, cache[key])
  }

  lemma ServeOneAgrees(w: World, p0: Policy, cache: map<Key, A1Data>, r: Request)
    requires FixedWorld(w, p0) && Compatible(w, p0, r) && Genuine(w, p0, cache)
    requires Writes(cache, r) ==> ReadsDecider(w, p0, r)
    ensures Agrees(w, p0, r, ServeOne(cache, r).0)
    ensures Genuine(w, p0, ServeOne(cache, r).1)
  {
    hide FixedWorld, Compatible, Agrees, GenuineEntry, RunA1, Writeback, ReadsDecider;
    CallAgrees(w, p0, r, Seen(cache, r));
  }

  /** Over any sequence of calls for a fixed chain state, with reads that fail, replies
      in any order, losses and failures of the cache, and changes of the other policy
      sets or of the disposition, every verdict agrees with the verdict without a
      cache, as long as each request that writes read the factory that decides. */
  lemma {:induction false} CacheIsTransparent(w: World, p0: Policy, cache: map<Key, A1Data>, rs: seq<Request>)
    requires FixedWorld(w, p0) && Genuine(w, p0, cache)
    requires forall i :: 0 <= i < |rs| ==> Compatible(w, p0, rs[i])
    requires CleanWrites(w, p0, cache, rs)
    ensures |ServeAll(cache, rs)| == |rs|
    ensures forall i :: 0 <= i < |rs| ==> Agrees(w, p0, rs[i], ServeAll(cache, rs)[i])
    decreases |rs|
  {
    hide FixedWorld, Genuine, Compatible, Agrees, ServeOne, ReadsDecider, Writes;
    if rs != [] {
      ServeOneAgrees(w, p0, cache, rs[0]);
      var after := ServeOne(cache, rs[0]).1;
      CacheIsTransparent(w, p0, after, rs[1..]);
      assert forall i :: 0 < i < |rs| ==> rs[1..][i - 1] == rs[i];
      assert ServeAll(cache, rs) == [ServeOne(cache, rs[0]).0] + ServeAll(after, rs[1..]);
    }
  }

  /** The cache after some calls. */
  function CacheAfter(cache: map<Key, A1Data>, rs: seq<Request>): map<Key, A1Data>
    decreases |rs|
  {
    if rs == [] then cache else CacheAfter(ServeOne(cache, rs[0]).1, rs[1..])
  }

  /** An entry is "no factory", or comes from a completed scan of a contract whose owner
      is not a listed retargetter. */
  predicate Scanned(retargetters: map<nat, set<Address>>, key: Key, data: A1Data) {
    data.NoFactory? ||
    (!Accepts(SetFor(retargetters, key.0), data.owner) && (data.ResolvedData? || data.partialHolders.Some?))
  }

  lemma WriteIsScanned(r: Request, seen: Option<A1Data>)
    requires Writeback(r.node, r.policy, r.call, seen).Some?
    ensures Scanned(r.policy.acceptedRetargetters, KeyOf(r.call), Writeback(r.node, r.policy, r.call, seen).value)
  {
    hide Scan, FactoryChecks, Hits, Accepts;
  }

  /** Whatever nodes answer and whatever else changes, a cache filled by the runner holds
      no retargetter result and no outcome that was not scanned for. */
  lemma {:induction false} EntriesAreScanned(retargetters: map<nat, set<Address>>, cache: map<Key, A1Data>, rs: seq<Request>)
    requires forall i :: 0 <= i < |rs| ==> rs[i].policy.acceptedRetargetters == retargetters
    requires forall key :: key in cache ==> Scanned(retargetters, key, cache[key])
    ensures forall key :: key in CacheAfter(cache, rs) ==> Scanned(retargetters, key, CacheAfter(cache, rs)[key])
    decreases |rs|
  {
    hide Writeback, Scanned, RunA1;
    if rs != [] {
      if Writes(cache, rs[0]) { WriteIsScanned(rs[0], Seen(cache, rs[0])); }
      EntriesAreScanned(retargetters, ServeOne(cache, rs[0]).1, rs[1..]);
    }
  }

  // ---------------------------------------------------------------------
  // Runs over the in-memory cache
  // ---------------------------------------------------------------------

  datatype Visit = Visit(request: Request, ttlMs: Option<real>, clocks: Clocks)

  function VisitAll(cfg: Config<A1Data>, m: Contents<Key, A1Data>, visits: seq<Visit>): seq<Verdict>
    decreases |visits|
  {
    if visits == [] then []
    else
      var (verdict, after) := AfterCall(cfg, m, visits[0].ttlMs, visits[0].request, visits[0].clocks);
      [verdict] + VisitAll(cfg, after, visits[1..])
  }

  /** The call writes an entry. */
  predicate VisitWrites(cfg: Config<A1Data>, m: Contents<Key, A1Data>, v: Visit) {
    var seen := TtlCache.Answer(cfg, m, KeyOf(v.request.call), v.clocks.get);
    Writeback(v.request.node, v.request.policy, v.request.call, seen).Some? && Accepted(cfg, v.ttlMs)
  }

  /** Every call that writes an entry read the factory that decides. */
  ghost predicate CleanVisits(w: World, p0: Policy, cfg: Config<A1Data>, m: Contents<Key, A1Data>, visits: seq<Visit>)
    decreases |visits|
  {
    visits == [] ||
    ((VisitWrites(cfg, m, visits[0]) ==> ReadsDecider(w, p0, visits[0].request)) &&
     CleanVisits(w, p0, cfg, AfterCall(cfg, m, visits[0].ttlMs, visits[0].request, visits[0].clocks).1, visits[1..]))
  }

  ghost predicate GenuineContents(w: World, p0: Policy, m: Contents<Key, A1Data>) {
    forall e :: e in m ==> GenuineEntry(w, p0, e.0, e.1.value)
  }

  /** One call of the runner over the in-memory cache keeps its entries genuine. */
  lemma AfterCallAgrees(w: World, p0: Policy, cfg: Config<A1Data>, m: Contents<Key, A1Data>, v: Visit)
    requires FixedWorld(w, p0) && Compatible(w, p0, v.request) && GenuineContents(w, p0, m)
    requires VisitWrites(cfg, m, v) ==> ReadsDecider(w, p0, v.request)
    ensures var (verdict, after) := AfterCall(cfg, m, v.ttlMs, v.request, v.clocks);
            Agrees(w, p0, v.request, verdict) && GenuineContents(w, p0, after)
  {
    hide FixedWorld, Compatible, Agrees, GenuineEntry, RunA1, Writeback, ReadsDecider, AfterGet, AfterSet, IsTrusted;
    var r := v.request;
    var key := KeyOf(r.call);
    CallAgrees(w, p0, r, TtlCache.Answer(cfg, m, key, v.clocks.get));
    GetKeeps(cfg, m, key, v.clocks.get);
    var read := if IsTrusted(r.policy, r.call) then m else AfterGet(cfg, m, key, v.clocks.get);
    var write := Writeback(r.node, r.policy, r.call, TtlCache.Answer(cfg, m, key, v.clocks.get));
    if VisitWrites(cfg, m, v) {
      SetAddsOne(cfg, read, key, EntryFor(cfg, write.value, v.ttlMs, v.clocks.set_), v.clocks.sweep);
    }
  }

  /** The same over the in-memory cache: calls of `RunCached` on one object. */
  lemma {:induction false} CachedRunsAgree(w: World, p0: Policy, cfg: Config<A1Data>, m: Contents<Key, A1Data>, visits: seq<Visit>)
    requires FixedWorld(w, p0) && GenuineContents(w, p0, m)
    requires forall i :: 0 <= i < |visits| ==> Compatible(w, p0, visits[i].request)
    requires CleanVisits(w, p0, cfg, m, visits)
    ensures |VisitAll(cfg, m, visits)| == |visits|
    ensures forall i :: 0 <= i < |visits| ==> Agrees(w, p0, visits[i].request, VisitAll(cfg, m, visits)[i])
    decreases |visits|
  {
    hide FixedWorld, GenuineContents, Compatible, Agrees, AfterCall, ReadsDecider, VisitWrites;
    if visits != [] {
      AfterCallAgrees(w, p0, cfg, m, visits[0]);
      var after := AfterCall(cfg, m, visits[0].ttlMs, visits[0].request, visits[0].clocks).1;
      CachedRunsAgree(w, p0, cfg, after, visits[1..]);
      assert forall i :: 0 < i < |visits| ==> visits[1..][i - 1] == visits[i];
    }
  }

  /** The exception is real: a "no factory" entry keeps refusing a contract whose
      owner was listed as a retargetter after the entry was written. */
  lemma StaleNoFactory() returns (node: Node, p0: Policy, policy: Policy, call: Call)
    ensures SameReads(policy, p0)
    ensures Canonical(node, p0, call.chainId, call.contract) == Ok(OnChain(NoFactory))
    ensures RunA1(node, policy, call, Some(NoFactory)).Err?
    ensures RunA1(node, policy, call, None).Ok?
  {
    var owner, contract := Address(7, 0), Address(9, 0);
    p0 := Policy(600, map[], map[], Some(0), map[], map[], map[], map[], map[], map[], 10, 100, None, Skip);
    policy := p0.(acceptedRetargetters := map[1 := {owner}]);
    node := Node(false, Success(owner), (f: Address) => Success(false), (f: Address) => Success(false),
                 Success(Operation(contract, 5000)), Some(50), (b: int) => None,
                 (addresses: seq<Address>, lo: nat, hi: nat) => Some([]));
    call := Call(1, contract, 1000, 900, Quiet());
    assert Accepts({owner}, owner);
    NoFactoryFails(policy, call);
    Rolled(EvaluateRetargetter(node.operation.result, contract, 900, policy, DeadlineEntry(policy, call)));
    assert FactoryChecks(p0, 1) == [];
  }

  // ---------------------------------------------------------------------
  // The cache is of use
  // ---------------------------------------------------------------------

  /** The later call may use the entry: same chain and contract, not trusted, and the
      entry's owner not a listed retargetter. */
  ghost predicate MayUse(first: Call, next: Call, policy: Policy, data: A1Data) {
    && next.chainId == first.chainId && next.contract.value == first.contract.value
    && !InSet(policy.trustedRequestContracts, next.chainId, next.contract)
    && (data.NoFactory? || !InSet(policy.acceptedRetargetters, next.chainId, data.owner))
  }

  lemma ReplayReadsNothing(node: Node, other: Node, policy: Policy, call: Call, data: A1Data)
    requires MayUse(call, call, policy, data)
    ensures RunA1(node, policy, call, Some(data)) == RunA1(other, policy, call, Some(data))
  {
    hide InSet, Accepts, SetFor, Fetch, EvaluateA1;
    PolicyByValue(policy, call, call.contract);
    if !data.NoFactory? { InSetIff(policy.acceptedRetargetters, call.chainId, data.owner); }
  }

  /** What one call wrote the next one for the contract replays, without a read of the
      node, unless the cache lost it or throws. */
  lemma NextCallReplays(cache: map<Key, A1Data>, r: Request, next: Request, data: A1Data, other: Node)
    requires Writeback(r.node, r.policy, r.call, Seen(cache, r)) == Some(data) && !r.setThrows
    requires MayUse(r.call, next.call, next.policy, data)
    requires !next.getThrows && (next.call.chainId, Lower(next.call.contract)) !in next.lost
    ensures var after := ServeOne(cache, r).1;
            && ServeOne(after, next).0 == RunA1(next.node, next.policy, next.call, Some(data))
            && ServeOne(after, next).0 == ServeOne(after, next.(node := other)).0
            && after.Keys == (cache - r.lost).Keys + {(r.call.chainId, Lower(r.call.contract))}
  {
    hide RunA1, InSet;
    ReplayReadsNothing(next.node, other, next.policy, next.call, data);
  }

  /** The same over the in-memory cache, until the entry expires. */
  lemma NextVisitReplays(cfg: Config<A1Data>, m: Contents<Key, A1Data>, ttl: Option<real>, r: Request, clocks: Clocks,
                         next: Request, later: Clocks, data: A1Data, other: Node)
    requires Writeback(r.node, r.policy, r.call, TtlCache.Answer(cfg, m, KeyOf(r.call), clocks.get)) == Some(data)
    requires cfg.valid(data) && MayUse(r.call, next.call, next.policy, data)
    requires var lifetime := if ttl.Some? then ttl else cfg.defaultTtlMs;
             lifetime.Some? ==>
               0.0 < lifetime.value &&
               clocks.sweep < clocks.set_ + lifetime.value && later.get < clocks.set_ + lifetime.value
    ensures var after := AfterCall(cfg, m, ttl, r, clocks).1;
            && AfterCall(cfg, after, ttl, next, later).0 == RunA1(next.node, next.policy, next.call, Some(data))
            && AfterCall(cfg, after, ttl, next, later).0 == AfterCall(cfg, after, ttl, next.(node := other), later).0
  {
    hide RunA1, InSet, AfterSet, AfterGet, TtlCache.Answer, Writeback;
    var read := if IsTrusted(r.policy, r.call) then m else AfterGet(cfg, m, KeyOf(r.call), clocks.get);
    SetThenGet(cfg, read, KeyOf(r.call), data, ttl, clocks.set_, clocks.sweep, later.get);
    ReplayReadsNothing(next.node, other, next.policy, next.call, data);
  }
}
