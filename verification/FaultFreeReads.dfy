/**
 Reads that fail, and replies in another order: when what one request reads of a
 fixed chain state is what a node that answers everything would have let it read.
 */
module FaultFreeReads {
  import opened Common
  import opened Checks
  import opened OrderedMaps
  import opened RoleEvents
  import opened RoleScan
  import opened ScanCorrectness
  import opened RequestBinding
  import opened BindingCorrectness

  // ---------------------------------------------------------------------
  // The order of one reply
  // ---------------------------------------------------------------------

  /** The creation events of `request` in a reply all come from one factory. */
  ghost predicate OneAnnouncer(logs: seq<Log>, factories: seq<Address>, request: Address) {
    forall i, j :: 0 <= i < |logs| && 0 <= j < |logs| &&
                   IsCreation(logs[i], factories, request) && IsCreation(logs[j], factories, request)
                   ==> Lower(logs[i].emitter) == Lower(logs[j].emitter)
  }

  /** The factory a reply attributes the creation to. */
  function CreatorIn(logs: seq<Log>, factories: seq<Address>, request: Address): Option<Address> {
    var found := LastCreation(logs, factories, request);
    if found.Some? then Some(found.value.factory) else None
  }

  lemma {:induction false} FactoryOfSpelling(factories: seq<Address>, a: Address, b: Address)
    requires Lower(a) == Lower(b)
    ensures FactoryOf(factories, a) == FactoryOf(factories, b)
  {
    if factories != [] { FactoryOfSpelling(factories[..|factories| - 1], a, b); }
  }

  lemma {:induction false} CreatorIsListed(logs: seq<Log>, factories: seq<Address>, request: Address) returns (i: nat)
    requires CreatorIn(logs, factories, request).Some?
    ensures i < |logs| && IsCreation(logs[i], factories, request)
    ensures CreatorIn(logs, factories, request) == FactoryOf(factories, logs[i].emitter)
  {
    i := |logs| - 1;
    if !IsCreation(logs[i], factories, request) {
      i := CreatorIsListed(logs[..i], factories, request);
    }
  }

  lemma SameMembers(a: seq<Log>, b: seq<Log>, i: nat) returns (j: nat)
    requires multiset(a) == multiset(b) && i < |a|
    ensures j < |b| && b[j] == a[i]
  {
    assert a[i] in multiset(b);
    j :| 0 <= j < |b| && b[j] == a[i];
  }

  /** The order of a reply matters to nobody exactly when at most one factory announced. */
  lemma ReplyOrderMattersIff(logs: seq<Log>, factories: seq<Address>, request: Address)
    ensures OneAnnouncer(logs, factories, request) <==>
            forall order: seq<Log> :: multiset(order) == multiset(logs) ==>
              CreatorIn(order, factories, request) == CreatorIn(logs, factories, request)
  {
    if OneAnnouncer(logs, factories, request) {
      forall order: seq<Log> | multiset(order) == multiset(logs)
        ensures CreatorIn(order, factories, request) == CreatorIn(logs, factories, request)
      {
        SameCreator(logs, order, factories, request);
      }
    } else {
      var i, j :| 0 <= i < |logs| && 0 <= j < |logs| &&
                  IsCreation(logs[i], factories, request) && IsCreation(logs[j], factories, request) &&
                  Lower(logs[i].emitter) != Lower(logs[j].emitter);
      MovedLast(logs, factories, request, i);
      MovedLast(logs, factories, request, j);
    }
  }

  function LastOf(logs: seq<Log>, i: nat): seq<Log>
    requires i < |logs|
  {
    logs[..i] + logs[i + 1..] + [logs[i]]
  }

  lemma MovedLast(logs: seq<Log>, factories: seq<Address>, request: Address, i: nat)
    requires i < |logs| && IsCreation(logs[i], factories, request)
    ensures multiset(LastOf(logs, i)) == multiset(logs)
    ensures CreatorIn(LastOf(logs, i), factories, request).Some?
    ensures Lower(CreatorIn(LastOf(logs, i), factories, request).value) == Lower(logs[i].emitter)
  {
    assert logs == logs[..i] + [logs[i]] + logs[i + 1..];
  }

  lemma SameCreator(a: seq<Log>, b: seq<Log>, factories: seq<Address>, request: Address)
    requires multiset(a) == multiset(b) && OneAnnouncer(a, factories, request)
    ensures CreatorIn(a, factories, request) == CreatorIn(b, factories, request)
  {
    if CreatorIn(a, factories, request).Some? {
      var i := CreatorIsListed(a, factories, request);
      var j := SameMembers(a, b, i);
    }
    if CreatorIn(b, factories, request).Some? {
      var j := CreatorIsListed(b, factories, request);
      var k := SameMembers(b, a, j);
      var i := CreatorIsListed(a, factories, request);
      FactoryOfSpelling(factories, a[i].emitter, a[k].emitter);
    }
  }

  // ---------------------------------------------------------------------
  // Two scans of one chain
  // ---------------------------------------------------------------------

  /** In blocks lo..hi at most one of `factories` announces the creation. */
  ghost predicate OneAnnouncerWithin(chain: seq<Log>, factories: seq<Address>, request: Address, lo: int, hi: int) {
    forall i, j :: 0 <= i < |chain| && 0 <= j < |chain| &&
                   IsCreation(chain[i], factories, request) && lo <= chain[i].block <= hi &&
                   IsCreation(chain[j], factories, request) && lo <= chain[j].block <= hi
                   ==> Lower(chain[i].emitter) == Lower(chain[j].emitter)
  }

  /** No chunk of a scan holds announcements by two factories. */
  ghost predicate OneAnnouncerPerChunk(chain: seq<Log>, q: ScanArgs, last: nat)
    requires q.Valid() && q.Earliest() <= last
  {
    var ranges := ChunkRanges(q, last);
    forall k :: 0 <= k < |ranges| ==> OneAnnouncerWithin(chain, q.factories, q.request, ranges[k].0, ranges[k].1)
  }

  /** Every address of `fewer` is listed in `factories`, in some spelling. */
  predicate ListedIn(fewer: seq<Address>, factories: seq<Address>) {
    forall f :: f in fewer ==> Lists(factories, f)
  }

  lemma ListsMore(fewer: seq<Address>, factories: seq<Address>, a: Address)
    requires Lists(fewer, a) && ListedIn(fewer, factories)
    ensures Lists(factories, a)
  {
    var i :| 0 <= i < |fewer| && Lower(fewer[i]) == Lower(a);
    assert fewer[i] in fewer;
    assert Lists(factories, fewer[i]);
  }

  lemma ListedInSelf(factories: seq<Address>)
    ensures ListedIn(factories, factories)
  {}

  lemma ChunksSplit(chain: seq<Log>, q: ScanArgs, last: nat)
    requires q.Valid() && q.Earliest() <= last && OneAnnouncerPerChunk(chain, q, last)
    ensures OneAnnouncerWithin(chain, q.factories, q.request, q.ChunkStart(last), last)
    ensures q.ChunkStart(last) > q.Earliest() ==> OneAnnouncerPerChunk(chain, q, q.ChunkStart(last) - 1)
  {
    hide OneAnnouncerWithin;
    var from := q.ChunkStart(last);
    assert ChunkRanges(q, last)[0] == (from, last);
    if from > q.Earliest() {
      var rest := ChunkRanges(q, from - 1);
      forall k | 0 <= k < |rest| ensures OneAnnouncerWithin(chain, q.factories, q.request, rest[k].0, rest[k].1) {
        assert ChunkRanges(q, last)[k + 1] == rest[k];
      }
    }
  }

  lemma FoundInChunk(chain: seq<Log>, factories: seq<Address>, request: Address, reply: seq<Log>, from: int, last: int)
    requires multiset(reply) == multiset(LogsIn(chain, factories + [request], from, last))
    ensures CreatorIn(reply, factories, request).Some? <==> CreatedWithin(chain, factories, request, from, last)
  {
    ChunkCreation(chain, factories, request, reply, from, last);
  }

  lemma CreatorOnChain(chain: seq<Log>, factories: seq<Address>, request: Address, reply: seq<Log>, from: int, last: int)
    returns (k: nat)
    requires multiset(reply) == multiset(LogsIn(chain, factories + [request], from, last))
    requires CreatorIn(reply, factories, request).Some?
    ensures k < |chain| && IsCreation(chain[k], factories, request) && from <= chain[k].block <= last
    ensures CreatorIn(reply, factories, request) == FactoryOf(factories, chain[k].emitter)
  {
    hide LogsIn, CreatorIn, FactoryOf;
    var i := CreatorIsListed(reply, factories, request);
    InReply(chain, factories + [request], reply, from, last, reply[i]);
    k :| 0 <= k < |chain| && chain[k] == reply[i];
  }

  /** Two searches of one chunk: the one for fewer factories finds what the other
      finds, if that is among its own. */
  lemma ChunkFindsSame(chain: seq<Log>, fewer: seq<Address>, factories: seq<Address>, request: Address,
                       reply: seq<Log>, reply': seq<Log>, from: int, last: int)
    requires multiset(reply) == multiset(LogsIn(chain, fewer + [request], from, last))
    requires multiset(reply') == multiset(LogsIn(chain, factories + [request], from, last))
    requires ListedIn(fewer, factories)
    requires OneAnnouncerWithin(chain, factories, request, from, last)
    ensures var found, found' := CreatorIn(reply, fewer, request), CreatorIn(reply', factories, request);
            && (found'.None? ==> found.None?)
            && (found'.Some? && found'.value in fewer ==> found == FactoryOf(fewer, found'.value))
  {
    hide LogsIn, CreatorIn, FactoryOf;
    var found, found' := CreatorIn(reply, fewer, request), CreatorIn(reply', factories, request);
    FoundInChunk(chain, fewer, request, reply, from, last);
    FoundInChunk(chain, factories, request, reply', from, last);
    if found.Some? {
      var k := CreatorOnChain(chain, fewer, request, reply, from, last);
      ListsMore(fewer, factories, chain[k].emitter);
      assert IsCreation(chain[k], factories, request);
    }
    if found'.Some? && found'.value in fewer {
      var k' := CreatorOnChain(chain, factories, request, reply', from, last);
      assert IsCreation(chain[k'], fewer, request);
      var k := CreatorOnChain(chain, fewer, request, reply, from, last);
      ListsMore(fewer, factories, chain[k].emitter);
      FactoryOfSpelling(fewer, chain[k].emitter, found'.value);
    }
  }

  /** The next chunk of a walk that is answered. */
  lemma AnsweredChunk(chain: seq<Log>, getLogs: GetLogs, signals: Signals, q: ScanArgs, chunk: nat, last: nat, logs: seq<Log>)
    returns (reply: seq<Log>)
    requires Faithful(getLogs, chain) && q.Valid() && q.Earliest() <= last
    requires Walk(getLogs, signals, q, chunk, last, logs).Some?
    ensures var from := q.ChunkStart(last);
            var more := logs + RoleUpdates(reply, q.request);
            && multiset(reply) == multiset(LogsIn(chain, q.factories + [q.request], from, last))
            && Walk(getLogs, signals, q, chunk, last, logs) ==
               if CreatorIn(reply, q.factories, q.request).Some? || from == q.Earliest()
               then Some(WalkEnd(more, LastCreation(reply, q.factories, q.request)))
               else Walk(getLogs, signals, q, chunk + 1, from - 1, more)
  {
    hide LogsIn, RoleUpdates;
    reply := getLogs(q.factories + [q.request], q.ChunkStart(last), last).value;
  }

  lemma {:induction false} WalksFindSame(chain: seq<Log>, getLogs: GetLogs, signals: Signals, q: ScanArgs, logs: seq<Log>,
                                         getLogs': GetLogs, signals': Signals, q': ScanArgs, logs': seq<Log>, chunk: nat, last: nat)
    requires Faithful(getLogs, chain) && Faithful(getLogs', chain)
    requires q.Valid() && q'.Valid() && q == q'.(factories := q.factories, deadlineMs := q.deadlineMs)
    requires q'.Earliest() <= last && OneAnnouncerPerChunk(chain, q', last)
    requires ListedIn(q.factories, q'.factories)
    requires Walk(getLogs, signals, q, chunk, last, logs).Some? && Walk(getLogs', signals', q', chunk, last, logs').Some?
    ensures var found := Walk(getLogs, signals, q, chunk, last, logs).value.found;
            var found' := Walk(getLogs', signals', q', chunk, last, logs').value.found;
            && (found'.None? ==> found.None?)
            && (found'.Some? && found'.value.factory in q.factories ==>
                  found.Some? && FactoryOf(q.factories, found'.value.factory) == Some(found.value.factory))
    decreases last
  {
    hide OneAnnouncerPerChunk, OneAnnouncerWithin, LastCreation, RoleUpdates, FactoryOf, LogsIn, Walk, Faithful, ListedIn;
    var from := q.ChunkStart(last);
    ChunksSplit(chain, q', last);
    var reply := AnsweredChunk(chain, getLogs, signals, q, chunk, last, logs);
    var reply' := AnsweredChunk(chain, getLogs', signals', q', chunk, last, logs');
    ChunkFindsSame(chain, q.factories, q'.factories, q.request, reply, reply', from, last);
    if CreatorIn(reply', q'.factories, q.request).None? && from > q.Earliest() {
      WalksFindSame(chain, getLogs, signals, q, logs + RoleUpdates(reply, q.request),
                    getLogs', signals', q', logs' + RoleUpdates(reply', q.request), chunk + 1, from - 1);
    }
  }

  lemma SameUpdates(a: seq<Log>, b: seq<Log>, request: Address)
    requires multiset(a) == multiset(b)
    ensures multiset(RoleUpdates(a, request)) == multiset(RoleUpdates(b, request))
  {
    forall x ensures multiset(RoleUpdates(a, request))[x] == multiset(RoleUpdates(b, request))[x] {
      RoleUpdatesCount(a, request, x);
      RoleUpdatesCount(b, request, x);
    }
  }

  /** Two walks for the same factories collect the same role updates. */
  lemma {:induction false} WalksCollectSame(chain: seq<Log>, getLogs: GetLogs, signals: Signals, q: ScanArgs, logs: seq<Log>,
                                            getLogs': GetLogs, signals': Signals, q': ScanArgs, logs': seq<Log>, chunk: nat, last: nat)
    requires Faithful(getLogs, chain) && Faithful(getLogs', chain)
    requires q.Valid() && q'.Valid() && q == q'.(deadlineMs := q.deadlineMs) && q.Earliest() <= last
    requires multiset(logs) == multiset(logs')
    requires Walk(getLogs, signals, q, chunk, last, logs).Some? && Walk(getLogs', signals', q', chunk, last, logs').Some?
    ensures multiset(Walk(getLogs, signals, q, chunk, last, logs).value.logs) ==
            multiset(Walk(getLogs', signals', q', chunk, last, logs').value.logs)
    decreases last
  {
    hide LastCreation, RoleUpdates, LogsIn, CreatedWithin, Walk, Faithful;
    var from := q.ChunkStart(last);
    var reply := AnsweredChunk(chain, getLogs, signals, q, chunk, last, logs);
    var reply' := AnsweredChunk(chain, getLogs', signals', q', chunk, last, logs');
    FoundInChunk(chain, q.factories, q.request, reply, from, last);
    FoundInChunk(chain, q.factories, q.request, reply', from, last);
    SameUpdates(reply, reply', q.request);
    if CreatorIn(reply, q.factories, q.request).None? && from > q.Earliest() {
      WalksCollectSame(chain, getLogs, signals, q, logs + RoleUpdates(reply, q.request),
                       getLogs', signals', q', logs' + RoleUpdates(reply', q.request), chunk + 1, from - 1);
    }
  }

  /** An outcome without the block of the deployment, which nobody uses. */
  function Undated(outcome: ScanOutcome): ScanOutcome {
    if outcome.Resolved? then outcome.(deploymentBlock := 0) else outcome
  }

  lemma SameSort(chain: seq<Log>, request: Address, a: seq<Log>, b: seq<Log>, from: int, latest: int)
    requires WellOrdered(chain) && multiset(a) == multiset(b)
    requires multiset(a) == multiset(RoleLogs(chain, request, from, latest))
    ensures SortLogs(a) == SortLogs(b)
  {
    SortRestores(chain, request, a, from, latest);
    SortRestores(chain, request, b, from, latest);
  }

  lemma OwnSpelling(factories: seq<Address>, emitter: Address)
    requires FactoryOf(factories, emitter).Some?
    ensures FactoryOf(factories, FactoryOf(factories, emitter).value) == FactoryOf(factories, emitter)
  {
    FactoryOfSpelling(factories, emitter, FactoryOf(factories, emitter).value);
  }

  /** Completed scans for the same factories agree, whatever the order of the replies,
      as long as no chunk holds announcements by two factories. */
  lemma ScansAgree(chain: seq<Log>, getLogs: GetLogs, signals: Signals, q: ScanArgs,
                   getLogs': GetLogs, signals': Signals, q': ScanArgs)
    requires WellOrdered(chain) && Faithful(getLogs, chain) && Faithful(getLogs', chain)
    requires q == q'.(deadlineMs := q.deadlineMs)
    requires Scan(getLogs, signals, q).Some? && Scan(getLogs', signals', q').Some?
    requires q'.Valid() && OneAnnouncerPerChunk(chain, q', q'.latestBlock)
    ensures Undated(Scan(getLogs, signals, q).value) == Undated(Scan(getLogs', signals', q').value)
  {
    hide Walk, Replay, Prune, SortLogs, Faithful, WellOrdered, OneAnnouncerPerChunk, RoleLogs, CreatedWithin, Announced;
    var end := Walk(getLogs, signals, q, 0, q.latestBlock, []).value;
    var end' := Walk(getLogs', signals', q', 0, q.latestBlock, []).value;
    WalksCollectSame(chain, getLogs, signals, q, [], getLogs', signals', q', [], 0, q.latestBlock);
    ListedInSelf(q.factories);
    WalksFindSame(chain, getLogs, signals, q, [], getLogs', signals', q', [], 0, q.latestBlock);
    var from := ScanCollects(chain, getLogs, signals, q);
    var from' := ScanCollects(chain, getLogs', signals', q');
    SameSort(chain, q.request, end.logs, end'.logs, from, q.latestBlock);
    if end'.found.Some? {
      FoundIsOwn(getLogs', signals', q', 0, q.latestBlock, []);
    }
  }

  lemma {:induction false} FoundIsOwn(getLogs: GetLogs, signals: Signals, q: ScanArgs, chunk: nat, last: nat, logs: seq<Log>)
    requires q.Valid() && q.Earliest() <= last
    requires Walk(getLogs, signals, q, chunk, last, logs).Some?
    requires Walk(getLogs, signals, q, chunk, last, logs).value.found.Some?
    ensures var factory := Walk(getLogs, signals, q, chunk, last, logs).value.found.value.factory;
            factory in q.factories && FactoryOf(q.factories, factory) == Some(factory)
    decreases last
  {
    hide RoleUpdates, FactoryOf;
    var from := q.ChunkStart(last);
    var reply := getLogs(q.factories + [q.request], from, last).value;
    if CreatorIn(reply, q.factories, q.request).Some? {
      var i := CreatorIsListed(reply, q.factories, q.request);
      OwnSpelling(q.factories, reply[i].emitter);
    } else {
      FoundIsOwn(getLogs, signals, q, chunk + 1, from - 1, logs + RoleUpdates(reply, q.request));
    }
  }

  // ---------------------------------------------------------------------
  // Two nodes with one chain state
  // ---------------------------------------------------------------------

  ghost predicate SlotLike<T(!new)>(slot: Slot<T>, full: Slot<T>) {
    slot == full || slot.TransportFailure?
  }

  /** What `node` answers is what `full` answers; any of its reads may fail. */
  ghost predicate AnswersLike(node: Node, full: Node) {
    && SlotLike(node.owner, full.owner)
    && (forall f :: SlotLike(node.isRequest(f), full.isRequest(f)) && SlotLike(node.isFlashLoanRequest(f), full.isFlashLoanRequest(f)))
    && SlotLike(node.operation, full.operation)
    && (node.blockNumber.None? || node.blockNumber == full.blockNumber)
    && (forall block :: node.hasCode(block) == None || node.hasCode(block) == full.hasCode(block))
  }

  /** No read fails, except that historical code may not be served at all. */
  ghost predicate FaultFree(full: Node) {
    && !full.multicallThrows
    && !full.owner.TransportFailure?
    && (forall f :: !full.isRequest(f).TransportFailure? && !full.isFlashLoanRequest(f).TransportFailure?)
    && !full.operation.TransportFailure?
    && full.blockNumber.Some?
    && (forall addresses, lo: nat, hi: nat :: full.getLogs(addresses, lo, hi).Some?)
  }

  /** Every provenance read was answered, if only by a deterministic failure. */
  predicate ProvenanceAnswered(node: Node, checks: seq<FactoryCheck>) {
    forall i :: 0 <= i < |checks| ==> !Answer(node, checks[i]).TransportFailure?
  }

  lemma {:induction false} SameHits(node: Node, full: Node, checks: seq<FactoryCheck>)
    requires AnswersLike(node, full) && ProvenanceAnswered(node, checks)
    ensures Hits(node, checks) == Hits(full, checks)
    ensures AnyUnanswered(node, checks) <==> AnyUnanswered(full, checks)
  {
    forall i | 0 <= i < |checks| ensures Answer(node, checks[i]) == Answer(full, checks[i]) {
      SameAnswer(node, full, checks[i]);
    }
    if checks != [] {
      hide AnswersLike;
      SameHits(node, full, checks[..|checks| - 1]);
    }
  }

  lemma SameAnswer(node: Node, full: Node, check: FactoryCheck)
    requires AnswersLike(node, full) && !Answer(node, check).TransportFailure?
    ensures Answer(node, check) == Answer(full, check)
  {}

  lemma {:induction false} QuietWalkEnds(getLogs: GetLogs, signals: Signals, q: ScanArgs, chunk: nat, last: nat, logs: seq<Log>)
    requires q.Valid() && q.Earliest() <= last
    requires forall addresses, lo: nat, hi: nat :: getLogs(addresses, lo, hi).Some?
    requires forall n: nat :: !q.Interrupted(signals, n)
    ensures Walk(getLogs, signals, q, chunk, last, logs).Some?
    decreases last
  {
    hide LastCreation, RoleUpdates;
    var from := q.ChunkStart(last);
    var reply := getLogs(q.factories + [q.request], from, last).value;
    if LastCreation(reply, q.factories, q.request).None? && from > q.Earliest() {
      QuietWalkEnds(getLogs, signals, q, chunk + 1, from - 1, logs + RoleUpdates(reply, q.request));
    }
  }

  // ---------------------------------------------------------------------
  // The fault-free read
  // ---------------------------------------------------------------------

  function Quiet(): Signals {
    Signals(chunk => false, reading => 0)
  }

  function Undisturbed(call: Call): Call {
    call.(signals := Quiet())
  }

  function Patient(policy: Policy): Policy {
    policy.(onLookbackExhausted := Skip, scanDeadlineMs := None)
  }

  /** What an undisturbed scan reads for this contract. */
  function Canonical(node: Node, policy: Policy, chainId: nat, contract: Address): Result<Fetched, RunnerError> {
    Fetch(node, Patient(policy), chainId, contract, Quiet())
  }

  /** The settings that decide what is read, apart from the listed retargetters. */
  predicate SameReads(p: Policy, q: Policy) {
    && p.requestFactories == q.requestFactories
    && p.flashLoanFactories == q.flashLoanFactories
    && p.blockRange == q.blockRange
    && p.maxLookbackBlocks == q.maxLookbackBlocks
  }

  lemma SameMatches(node: Node, p: Policy, q: Policy, chainId: nat)
    requires SameReads(p, q)
    ensures FactoryChecks(p, chainId) == FactoryChecks(q, chainId)
    ensures Matched(node, p, chainId) == Matched(node, q, chainId)
  {}

  /** The state of the world for one contract: a chain, a node that answers every
      read of it, and no chunk of a scan with announcements by two factories. */
  ghost predicate Truth(chain: seq<Log>, full: Node, p0: Policy, chainId: nat, contract: Address) {
    && WellOrdered(chain)
    && FaultFree(full)
    && Faithful(full.getLogs, chain)
    && var q := ArgsFor(full, Patient(p0), chainId, contract, full.blockNumber.value);
       q.Valid() ==> OneAnnouncerPerChunk(chain, q, q.latestBlock)
  }

  /** `node` answers for that state, with any reads failing and replies in any order. */
  ghost predicate Degrades(node: Node, chain: seq<Log>, full: Node) {
    AnswersLike(node, full) && Faithful(node.getLogs, chain)
  }

  lemma QuietScanEnds(full: Node, q: ScanArgs)
    requires FaultFree(full) && q.Valid() && q.deadlineMs == None
    ensures Scan(full.getLogs, Quiet(), q).Some?
  {
    QuietWalkEnds(full.getLogs, Quiet(), q, 0, q.latestBlock, []);
  }

  /** What a scan contributes to the entry. */
  function EntryFrom(outcome: ScanOutcome, first: Address, owner: Address): A1Data {
    match outcome
    case TooOld(partial) => TooOldData(first, owner, Some(partial))
    case Resolved(holders, _, factory) => ResolvedData(if factory.Some? then factory.value else first, owner, holders)
  }

  /** What a request writes: "no factory", or what its completed scan says. */
  lemma WrittenEntry(node: Node, policy: Policy, call: Call, cached: Option<A1Data>)
    requires Writeback(node, policy, call, cached).Some?
    ensures var write, matched := Writeback(node, policy, call, cached).value, Matched(node, policy, call.chainId);
            && !node.multicallThrows && !node.owner.TransportFailure?
            && (node.owner.Reverted? ==> write == NoFactory)
            && (node.owner.Success? ==>
                  && !Accepts(SetFor(policy.acceptedRetargetters, call.chainId), node.owner.result)
                  && if matched == [] then write == NoFactory && !AnyUnanswered(node, FactoryChecks(policy, call.chainId))
                     else
                       && node.blockNumber.Some?
                       && var q := QueryFor(node, policy, call);
                       && Scan(node.getLogs, call.signals, q).Some?
                       && write == EntryFrom(Scan(node.getLogs, call.signals, q).value, matched[0], node.owner.result))
  {
    hide Scan, FactoryChecks, Hits;
  }

  /** What the fault-free read yields. */
  lemma CanonicalEntry(full: Node, p0: Policy, chainId: nat, contract: Address)
    requires FaultFree(full)
    requires full.owner.Success? ==> !Accepts(SetFor(p0.acceptedRetargetters, chainId), full.owner.result)
    ensures var matched := Matched(full, p0, chainId);
            && (full.owner.Reverted? ==> Canonical(full, p0, chainId, contract) == Ok(OnChain(NoFactory)))
            && (full.owner.Success? && matched == [] && !AnyUnanswered(full, FactoryChecks(p0, chainId)) ==>
                  Canonical(full, p0, chainId, contract) == Ok(OnChain(NoFactory)))
            && (full.owner.Success? && matched != [] ==>
                  var q := ArgsFor(full, Patient(p0), chainId, contract, full.blockNumber.value);
                  q.Valid() ==>
                    && Scan(full.getLogs, Quiet(), q).Some?
                    && Canonical(full, p0, chainId, contract) ==
                       Ok(OnChain(EntryFrom(Scan(full.getLogs, Quiet(), q).value, matched[0], full.owner.result))))
  {
    hide Scan, FactoryChecks, Hits;
    SameMatches(full, p0, Patient(p0), chainId);
    var q := ArgsFor(full, Patient(p0), chainId, contract, full.blockNumber.value);
    if q.Valid() { QuietScanEnds(full, q); }
  }

  /** An entry written by a request whose provenance reads were all answered is the
      fault-free read of the chain state, whichever other reads of the request
      failed before, and in whatever order its replies came. */
  lemma WrittenIsFaultFree(chain: seq<Log>, full: Node, p0: Policy, node: Node, policy: Policy, call: Call, cached: Option<A1Data>)
    requires Truth(chain, full, p0, call.chainId, call.contract) && Degrades(node, chain, full)
    requires SameReads(policy, p0) && policy.acceptedRetargetters == p0.acceptedRetargetters
    requires ProvenanceAnswered(node, FactoryChecks(policy, call.chainId))
    requires Writeback(node, policy, call, cached).Some?
    ensures Canonical(full, p0, call.chainId, call.contract) == Ok(OnChain(Writeback(node, policy, call, cached).value))
  {
    hide Scan, FactoryChecks, Hits, Canonical, Writeback, Faithful, WellOrdered, OneAnnouncerPerChunk;
    WrittenEntry(node, policy, call, cached);
    SameMatches(full, policy, p0, call.chainId);
    SameHits(node, full, FactoryChecks(policy, call.chainId));
    CanonicalEntry(full, p0, call.chainId, call.contract);
    if node.owner.Success? && Matched(node, policy, call.chainId) != [] {
      var q := QueryFor(node, policy, call);
      var q' := ArgsFor(full, Patient(p0), call.chainId, call.contract, full.blockNumber.value);
      SameMatches(full, p0, Patient(p0), call.chainId);
      AnsweredIsValid(node.getLogs, call.signals, q);
      ScansAgree(chain, node.getLogs, call.signals, q, full.getLogs, Quiet(), q');
    }
  }

  // ---------------------------------------------------------------------
  // Exactly when a degraded read is harmless
  // ---------------------------------------------------------------------

  lemma {:induction false} PutKeys(m: OrderedMap<Address, Address>, key: Address, value: Address)
    requires Distinct(m)
    ensures Distinct(Put(m, key, value))
    ensures forall k :: Has(Put(m, key, value), k) <==> Has(m, k) || k == key
  {
    var r := Put(m, key, value);
    if m != [] && m[|m| - 1].0 != key && Has(m[..|m| - 1], key) {
      var n := |m| - 1;
      var rest := Put(m[..n], key, value);
      PutKeys(m[..n], key, value);
      assert r == rest + [m[n]];
      forall i | 0 <= i < |rest| ensures rest[i].0 != m[n].0 {
        assert Has(rest, rest[i].0);
      }
      forall k ensures Has(r, k) <==> Has(m, k) || k == key {
        HasLast(rest, m[n], k);
        HasLast(m[..n], m[n], k);
        assert m == m[..n] + [m[n]];
      }
    } else if m != [] && m[|m| - 1].0 == key {
      var n := |m| - 1;
      forall k ensures Has(r, k) <==> Has(m, k) || k == key {
        HasLast(m[..n], (key, value), k);
        HasLast(m[..n], m[n], k);
        assert m == m[..n] + [m[n]];
      }
    } else {
      assert m != [] ==> r == m + [(key, value)];
      forall k ensures Has(r, k) <==> Has(m, k) || k == key {
        HasLast(m, (key, value), k);
        assert m == [] ==> r == [] + [(key, value)];
      }
      forall i | 0 <= i < |m| ensures m[i].0 != key {
        if i < |m| - 1 { assert m[..|m| - 1][i] == m[i]; }
      }
    }
  }

  lemma HasLast(m: OrderedMap<Address, Address>, last: (Address, Address), key: Address)
    ensures Has(m + [last], key) <==> Has(m, key) || last.0 == key
  {
    if Has(m, key) {
      var i :| 0 <= i < |m| && m[i].0 == key;
      assert (m + [last])[i].0 == key;
    }
    assert (m + [last])[|m|] == last;
  }

  /** Some entry for the factory with this lower-cased address claims the contract. */
  ghost predicate ClaimedAs(node: Node, checks: seq<FactoryCheck>, key: Address) {
    exists i :: 0 <= i < |checks| && Lower(checks[i].factory) == key && Claims(node, checks[i])
  }

  lemma ClaimedLast(node: Node, checks: seq<FactoryCheck>, key: Address)
    requires checks != []
    ensures var n := |checks| - 1;
            ClaimedAs(node, checks, key) <==>
            ClaimedAs(node, checks[..n], key) || (Claims(node, checks[n]) && Lower(checks[n].factory) == key)
  {
    hide Claims;
  }

  /** Hits are kept under distinct lower-cased addresses: those that are claimed. */
  lemma {:induction false} HitsKeys(node: Node, checks: seq<FactoryCheck>)
    ensures var hits := Hits(node, checks);
            && Distinct(hits)
            && (forall e :: e in hits ==> e.0 == Lower(e.1))
            && (forall key :: Has(hits, key) <==> ClaimedAs(node, checks, key))
  {
    if checks != [] {
      hide Claims, ClaimedAs, Distinct;
      var n := |checks| - 1;
      var before, c := Hits(node, checks[..n]), checks[n];
      HitsKeys(node, checks[..n]);
      if Claims(node, c) { PutKeys(before, Lower(c.factory), c.factory); }
      forall key ensures Has(Hits(node, checks), key) <==> ClaimedAs(node, checks, key) {
        ClaimedLast(node, checks, key);
      }
    } else {
      assert Distinct(Hits(node, checks));
    }
  }

  lemma InValues(hits: OrderedMap<Address, Address>, f: Address)
    ensures f in Values(hits) <==> exists e :: e in hits && e.1 == f
  {
    if f in Values(hits) {
      var i :| 0 <= i < |hits| && Values(hits)[i] == f;
      assert hits[i] in hits;
    }
    if e :| e in hits && e.1 == f {
      var i :| 0 <= i < |hits| && hits[i] == e;
      assert Values(hits)[i] == f;
    }
  }

  lemma ClaimKept(node: Node, full: Node, checks: seq<FactoryCheck>, key: Address)
    requires AnswersLike(node, full) && ClaimedAs(node, checks, key)
    ensures ClaimedAs(full, checks, key)
  {
    var i :| 0 <= i < |checks| && Lower(checks[i].factory) == key && Claims(node, checks[i]);
    SameAnswer(node, full, checks[i]);
  }

  /** No factory is matched in two spellings. */
  predicate SpelledOnce(matched: seq<Address>) {
    forall f, g :: f in matched && g in matched && Lower(f) == Lower(g) ==> f == g
  }

  lemma MatchedOnce(node: Node, policy: Policy, chainId: nat)
    ensures SpelledOnce(Matched(node, policy, chainId))
  {
    hide FactoryChecks, Hits;
    var hits := Hits(node, FactoryChecks(policy, chainId));
    HitsKeys(node, FactoryChecks(policy, chainId));
    forall f, g | f in Values(hits) && g in Values(hits) && Lower(f) == Lower(g) ensures f == g {
      InValues(hits, f);
      InValues(hits, g);
      var a :| a in hits && a.1 == f;
      var b :| b in hits && b.1 == g;
    }
  }

  /** Failed provenance reads only lose matched factories. */
  lemma FewerMatched(node: Node, full: Node, policy: Policy, chainId: nat)
    requires AnswersLike(node, full)
    ensures ListedIn(Matched(node, policy, chainId), Matched(full, policy, chainId))
  {
    hide FactoryChecks, Hits, AnswersLike, ClaimedAs;
    var checks := FactoryChecks(policy, chainId);
    var some, every := Hits(node, checks), Hits(full, checks);
    HitsKeys(node, checks);
    HitsKeys(full, checks);
    forall f | f in Values(some) ensures Lists(Values(every), f) {
      InValues(some, f);
      var e :| e in some && e.1 == f;
      assert Has(some, e.0);
      ClaimKept(node, full, checks, e.0);
      var i :| 0 <= i < |every| && every[i].0 == e.0;
      assert every[i] in every;
      assert Lower(Values(every)[i]) == Lower(f);
    }
  }

  /** Scans of one chain for all claiming factories and for some of them agree, if the
      factory the larger scan attributes the creation to is among the some. */
  lemma FewerFactoriesAgree(chain: seq<Log>, getLogs: GetLogs, signals: Signals, q: ScanArgs,
                            getLogs': GetLogs, signals': Signals, q': ScanArgs)
    requires WellOrdered(chain) && Faithful(getLogs, chain) && Faithful(getLogs', chain)
    requires CreatedFirst(chain, q'.factories, q.request)
    requires q == q'.(factories := q.factories, deadlineMs := q.deadlineMs)
    requires ListedIn(q.factories, q'.factories) && SpelledOnce(q.factories)
    requires Scan(getLogs, signals, q).Some? && Scan(getLogs', signals', q').Some?
    requires q'.Valid() && OneAnnouncerPerChunk(chain, q', q'.latestBlock)
    requires var outcome := Scan(getLogs', signals', q').value;
             outcome.Resolved? && outcome.deploymentFactory.Some? ==> outcome.deploymentFactory.value in q.factories
    ensures Undated(Scan(getLogs, signals, q).value) == Undated(Scan(getLogs', signals', q').value)
  {
    hide Walk, Replay, Prune, SortLogs, Faithful, WellOrdered, OneAnnouncerPerChunk, RoleLogs, CreatedWithin, RolesAt, FactoryOf, LatestAtOrAbove,
         ListedIn, CreatedFirst;
    WalksFindSame(chain, getLogs, signals, q, [], getLogs', signals', q', [], 0, q.latestBlock);
    FewerCreatedFirst(chain, q.factories, q'.factories, q.request);
    var outcome, outcome' := Scan(getLogs, signals, q).value, Scan(getLogs', signals', q').value;
    if outcome.TooOld? {
      TooOldIsPartial(chain, getLogs, signals, q);
      TooOldIsPartial(chain, getLogs', signals', q');
    } else {
      ResolvedIsExact(chain, getLogs, signals, q);
      ResolvedIsExact(chain, getLogs', signals', q');
    }
  }

  lemma FewerCreatedFirst(chain: seq<Log>, fewer: seq<Address>, factories: seq<Address>, request: Address)
    requires CreatedFirst(chain, factories, request) && ListedIn(fewer, factories)
    ensures CreatedFirst(chain, fewer, request)
  {
    forall j | 0 <= j < |chain| && IsCreation(chain[j], fewer, request) ensures IsCreation(chain[j], factories, request) {
      ListsMore(fewer, factories, chain[j].emitter);
    }
  }

  lemma EntryIsMatched(chain: seq<Log>, getLogs: GetLogs, signals: Signals, q: ScanArgs, owner: Address)
    requires Faithful(getLogs, chain) && Scan(getLogs, signals, q).Some? && q.factories != []
    ensures EntryFrom(Scan(getLogs, signals, q).value, q.factories[0], owner).factory in q.factories
  {
    hide Scan, Faithful;
    var outcome := Scan(getLogs, signals, q).value;
    if outcome.Resolved? && outcome.deploymentFactory.Some? { DeploymentIsAnnounced(chain, getLogs, signals, q); }
  }

  /** A scan finds an announcement iff there is one in its window. */
  lemma FoundIff(chain: seq<Log>, getLogs: GetLogs, signals: Signals, q: ScanArgs)
    requires Faithful(getLogs, chain) && Scan(getLogs, signals, q).Some?
    ensures q.Valid()
    ensures var outcome := Scan(getLogs, signals, q).value;
            outcome.Resolved? && outcome.deploymentFactory.Some? <==>
            CreatedWithin(chain, q.factories, q.request, q.Earliest(), q.latestBlock)
  {
    hide Walk, CreatedWithin, RoleLogs, Replay, SortLogs, Prune, Faithful, Announced;
    var from := ScanCollects(chain, getLogs, signals, q);
  }

  /** The factory that decides the fault-free read answered the request: the one it
      attributes the contract to if a claiming factory announced the creation inside
      the window, and otherwise the first claiming one. */
  ghost predicate DeciderAnswered(chain: seq<Log>, full: Node, p0: Policy, node: Node, chainId: nat, contract: Address) {
    full.blockNumber.Some? &&
    var some, every := Matched(node, p0, chainId), Matched(full, p0, chainId);
    var read, q := Canonical(full, p0, chainId, contract), ArgsFor(full, Patient(p0), chainId, contract, full.blockNumber.value);
    && read.Ok? && read.value.OnChain?
    && (read.value.data.NoFactory? ||
        (some != [] && every != [] && q.Valid() &&
         if CreatedWithin(chain, every, contract, q.Earliest(), q.latestBlock) then read.value.data.factory in some
         else some[0] == every[0]))
  }

  /** Whatever reads of a request failed, and however often a factory is configured, the
      entry it writes is the fault-free read exactly if the factory that decides that
      read answered the request. */
  lemma WrittenIsFaultFreeIff(chain: seq<Log>, full: Node, p0: Policy, node: Node, policy: Policy, call: Call, cached: Option<A1Data>)
    requires Truth(chain, full, p0, call.chainId, call.contract) && Degrades(node, chain, full)
    requires CreatedFirst(chain, Matched(full, p0, call.chainId), call.contract)
    requires SameReads(policy, p0) && policy.acceptedRetargetters == p0.acceptedRetargetters
    requires Writeback(node, policy, call, cached).Some?
    ensures Canonical(full, p0, call.chainId, call.contract) == Ok(OnChain(Writeback(node, policy, call, cached).value)) <==>
            DeciderAnswered(chain, full, p0, node, call.chainId, call.contract)
  {
    hide Scan, FactoryChecks, Hits, Canonical, Writeback, Faithful, WellOrdered, OneAnnouncerPerChunk, CreatedFirst, CreatedWithin, SpelledOnce;
    WrittenEntry(node, policy, call, cached);
    SameMatches(node, policy, p0, call.chainId);
    SameMatches(full, p0, Patient(p0), call.chainId);
    CanonicalEntry(full, p0, call.chainId, call.contract);
    FewerMatched(node, full, p0, call.chainId);
    if node.owner.Success? {
      if Matched(node, p0, call.chainId) == [] {
        NoneUnanswered(node, full, FactoryChecks(p0, call.chainId));
      } else {
        ScannedIsFaultFreeIff(chain, full, p0, node, policy, call, cached);
      }
    }
  }

  lemma ScannedIsFaultFreeIff(chain: seq<Log>, full: Node, p0: Policy, node: Node, policy: Policy, call: Call, cached: Option<A1Data>)
    requires Truth(chain, full, p0, call.chainId, call.contract) && Degrades(node, chain, full)
    requires CreatedFirst(chain, Matched(full, p0, call.chainId), call.contract)
    requires SameReads(policy, p0) && policy.acceptedRetargetters == p0.acceptedRetargetters
    requires Writeback(node, policy, call, cached).Some?
    requires node.owner.Success? && Matched(node, p0, call.chainId) != []
    ensures Canonical(full, p0, call.chainId, call.contract) == Ok(OnChain(Writeback(node, policy, call, cached).value)) <==>
            DeciderAnswered(chain, full, p0, node, call.chainId, call.contract)
  {
    hide Scan, FactoryChecks, Hits, Canonical, Writeback, Faithful, WellOrdered, OneAnnouncerPerChunk, CreatedFirst, CreatedWithin, SpelledOnce, ListedIn;
    WrittenEntry(node, policy, call, cached);
    SameMatches(node, policy, p0, call.chainId);
    SameMatches(full, p0, Patient(p0), call.chainId);
    CanonicalEntry(full, p0, call.chainId, call.contract);
    FewerMatched(node, full, p0, call.chainId);
    MatchedOnce(node, p0, call.chainId);
    var some, every := Matched(node, p0, call.chainId), Matched(full, p0, call.chainId);
    ListedNonempty(some, every);
    var q := QueryFor(node, policy, call);
    var q' := ArgsFor(full, Patient(p0), call.chainId, call.contract, full.blockNumber.value);
    AnsweredIsValid(node.getLogs, call.signals, q);
    EntryIsMatched(chain, node.getLogs, call.signals, q, node.owner.result);
    FoundIff(chain, node.getLogs, call.signals, q);
    FoundIff(chain, full.getLogs, Quiet(), q');
    if CreatedWithin(chain, some, call.contract, q.Earliest(), q.latestBlock) {
      FewerCreated(chain, some, every, call.contract, q.Earliest(), q.latestBlock);
    }
    if DeciderAnswered(chain, full, p0, node, call.chainId, call.contract) {
      FewerFactoriesAgree(chain, node.getLogs, call.signals, q, full.getLogs, Quiet(), q');
    }
  }

  lemma ListedNonempty(fewer: seq<Address>, factories: seq<Address>)
    requires ListedIn(fewer, factories) && fewer != []
    ensures factories != []
  {
    assert fewer[0] in fewer;
    assert Lists(factories, fewer[0]);
  }

  lemma FewerCreated(chain: seq<Log>, fewer: seq<Address>, factories: seq<Address>, request: Address, lo: int, hi: int)
    requires ListedIn(fewer, factories) && CreatedWithin(chain, fewer, request, lo, hi)
    ensures CreatedWithin(chain, factories, request, lo, hi)
  {
    var k :| 0 <= k < |chain| && IsCreation(chain[k], fewer, request) && lo <= chain[k].block <= hi;
    ListsMore(fewer, factories, chain[k].emitter);
    assert IsCreation(chain[k], factories, request);
  }

  /** The guard under which a degraded read does no harm: every provenance read was
      answered, or, for a contract without role updates before its creation, that of
      the factory that decides. */
  ghost predicate Harmless(chain: seq<Log>, full: Node, p0: Policy, node: Node, chainId: nat, contract: Address) {
    || ProvenanceAnswered(node, FactoryChecks(p0, chainId))
    || (CreatedFirst(chain, Matched(full, p0, chainId), contract) && DeciderAnswered(chain, full, p0, node, chainId, contract))
  }

  lemma HarmlessIsFaultFree(chain: seq<Log>, full: Node, p0: Policy, node: Node, policy: Policy, call: Call, cached: Option<A1Data>)
    requires Truth(chain, full, p0, call.chainId, call.contract) && Degrades(node, chain, full)
    requires SameReads(policy, p0) && policy.acceptedRetargetters == p0.acceptedRetargetters
    requires Harmless(chain, full, p0, node, call.chainId, call.contract)
    requires Writeback(node, policy, call, cached).Some?
    ensures Canonical(full, p0, call.chainId, call.contract) == Ok(OnChain(Writeback(node, policy, call, cached).value))
  {
    hide Truth, Degrades, Canonical, Writeback, DeciderAnswered, CreatedFirst, ProvenanceAnswered, FactoryChecks, Hits;
    SameMatches(node, policy, p0, call.chainId);
    if ProvenanceAnswered(node, FactoryChecks(p0, call.chainId)) {
      WrittenIsFaultFree(chain, full, p0, node, policy, call, cached);
    } else {
      WrittenIsFaultFreeIff(chain, full, p0, node, policy, call, cached);
    }
  }

  lemma NoneUnanswered(node: Node, full: Node, checks: seq<FactoryCheck>)
    requires AnswersLike(node, full) && !AnyUnanswered(node, checks)
    ensures Hits(node, checks) == Hits(full, checks) && !AnyUnanswered(full, checks)
  {
    assert ProvenanceAnswered(node, checks);
    SameHits(node, full, checks);
  }

  // ---------------------------------------------------------------------
  // A degraded read that is not
  // ---------------------------------------------------------------------

  const CONTRACT := Address(9, 0)
  const OWNER := Address(7, 0)
  const FIRST := Address(1, 0)
  const SECOND := Address(2, 0)

  /** Both factories claim the contract; the first created it at block 50 of 60. */
  const ONE_CREATION: seq<Log> := [Log(FIRST, 50, 0, RequestCreated(Some(CONTRACT)))]

  const TWO_FACTORIES := Policy(600, map[], map[], None, map[1 := [FIRST, SECOND]], map[], map[],
                                map[1 := {OWNER}], map[], map[], 100, 20, None, Skip)

  const BINDING := Call(1, CONTRACT, 1000, 900, Quiet())

  /** A node for that chain, which answers the provenance reads of the first factory or not. */
  function TwoClaims(first: Slot<bool>): Node {
    Node(false, Success(OWNER), (f: Address) => if f == FIRST then first else Success(true), (f: Address) => Success(false),
         Reverted, Some(60), (block: int) => None,
         (addresses: seq<Address>, lo: nat, hi: nat) => Some(LogsIn(ONE_CREATION, addresses, lo, hi)))
  }

  lemma TwoMatched(first: Slot<bool>)
    ensures Matched(TwoClaims(first), TWO_FACTORIES, 1) == if first == Success(true) then [FIRST, SECOND] else [SECOND]
  {
    var node, checks := TwoClaims(first), FactoryChecks(TWO_FACTORIES, 1);
    assert checks == [FactoryCheck(FIRST, false), FactoryCheck(SECOND, false)];
    assert checks[..1] == [FactoryCheck(FIRST, false)] && checks[..1][..0] == [];
    assert Hits(node, checks[..1][..0]) == [];
    assert Hits(node, checks[..1]) == if first == Success(true) then [(FIRST, FIRST)] else [];
    assert Hits(node, checks) == if first == Success(true) then [(FIRST, FIRST), (SECOND, SECOND)] else [(SECOND, SECOND)];
  }

  lemma OneReply(addresses: seq<Address>)
    ensures LogsIn(ONE_CREATION, addresses, 40, 60) == if Lists(addresses, FIRST) then ONE_CREATION else []
    ensures RoleUpdates(LogsIn(ONE_CREATION, addresses, 40, 60), CONTRACT) == []
  {
    var p := (log: Log) => Addressed(log, addresses) && 40 <= log.block <= 60;
    assert ONE_CREATION[..0] == [];
    assert Filter(ONE_CREATION[..0], p) == [];
    assert Filter(ONE_CREATION, p) == if p(ONE_CREATION[0]) then [] + [ONE_CREATION[0]] else [];
    var r := (log: Log) => IsRoleLog(log, CONTRACT);
    assert Filter(ONE_CREATION[..0], r) == [];
    assert Filter(ONE_CREATION, r) == [];
  }

  lemma CreationSeen()
    ensures LastCreation(ONE_CREATION, [FIRST, SECOND], CONTRACT) == Some(Creation(50, FIRST))
  {
    assert [FIRST, SECOND][..1] == [FIRST];
    assert Lists([FIRST, SECOND], FIRST) by { assert [FIRST, SECOND][0] == FIRST; }
    assert IsCreation(ONE_CREATION[0], [FIRST, SECOND], CONTRACT);
  }

  lemma TwoScans(first: Slot<bool>)
    ensures var node := TwoClaims(first);
            Scan(node.getLogs, Quiet(), QueryFor(node, TWO_FACTORIES, BINDING)) ==
            Some(if first == Success(true) then Resolved(map[], 50, Some(FIRST)) else TooOld(map[]))
  {
    hide LogsIn, RoleUpdates, Hits, FactoryChecks, LastCreation, Conclude;
    TwoMatched(first);
    var node := TwoClaims(first);
    var q := QueryFor(node, TWO_FACTORIES, BINDING);
    var addresses := q.factories + [CONTRACT];
    assert q.ChunkStart(60) == q.Earliest() == 40;
    OneReply(addresses);
    CreationSeen();
    assert Lists(addresses, FIRST) <==> first == Success(true) by {
      if first == Success(true) { assert addresses[0] == FIRST; } else { assert addresses == [SECOND, CONTRACT]; }
    }
    var found := if first == Success(true) then Some(Creation(50, FIRST)) else None;
    var reply := LogsIn(ONE_CREATION, addresses, 40, 60);
    assert LastCreation(reply, q.factories, CONTRACT) == found;
    assert node.getLogs(addresses, 40, 60) == Some(reply);
    assert [] + RoleUpdates(reply, CONTRACT) == [];
    assert Walk(node.getLogs, Quiet(), q, 0, 60, []) == Some(WalkEnd([], found));
    Concluded(q, found);
  }

  lemma Concluded(q: ScanArgs, found: Option<Creation>)
    requires q.Valid() && q.Earliest() > 0
    ensures Conclude(q, WalkEnd([], found)) ==
            if found.Some? then Resolved(map[], found.value.block, Some(found.value.factory)) else TooOld(map[])
  {
    assert Prune(Replay(SortLogs([]))) == map[];
  }

  function TwoEntries(first: Slot<bool>): A1Data {
    if first == Success(true) then ResolvedData(FIRST, OWNER, map[]) else TooOldData(SECOND, OWNER, Some(map[]))
  }

  lemma TwoFetches(first: Slot<bool>)
    ensures Fetch(TwoClaims(first), TWO_FACTORIES, 1, CONTRACT, Quiet()) == Ok(OnChain(TwoEntries(first)))
  {
    hide Scan, Hits, FactoryChecks;
    TwoMatched(first);
    TwoScans(first);
  }

  lemma TwoVerdicts()
    ensures RollUp(EvaluateA1(TwoEntries(TransportFailure), TWO_FACTORIES, 1, DeadlineEntry(TWO_FACTORIES, BINDING))).Ok?
    ensures RollUp(EvaluateA1(TwoEntries(Success(true)), TWO_FACTORIES, 1, DeadlineEntry(TWO_FACTORIES, BINDING))).Err?
  {
    assert ListFor(TWO_FACTORIES.requestFactories, 1)[0] == FIRST && ListFor(TWO_FACTORIES.requestFactories, 1)[1] == SECOND;
    assert Accepts({OWNER}, OWNER);
    EvaluateTooOld(TwoEntries(TransportFailure), TWO_FACTORIES, BINDING);
    EvaluateResolved(TwoEntries(Success(true)), TWO_FACTORIES, BINDING);
  }

  lemma TwoTruths()
    ensures Truth(ONE_CREATION, TwoClaims(Success(true)), TWO_FACTORIES, 1, CONTRACT)
    ensures Degrades(TwoClaims(TransportFailure), ONE_CREATION, TwoClaims(Success(true)))
  {}

  /** The exception is real: with the provenance read of the first factory failed, an
      entry is written that skips the role checks; a request whose every read is
      answered is then signed on it, and refused without it. */
  lemma DegradedEntryIsReplayed()
    ensures var node, full := TwoClaims(TransportFailure), TwoClaims(Success(true));
            var write := Writeback(node, TWO_FACTORIES, BINDING, None);
            && Truth(ONE_CREATION, full, TWO_FACTORIES, 1, CONTRACT) && Degrades(node, ONE_CREATION, full)
            && write == Some(TooOldData(SECOND, OWNER, Some(map[])))
            && RunA1(full, TWO_FACTORIES, BINDING, write).Ok?
            && RunA1(full, TWO_FACTORIES, BINDING, None).Err?
            && RunA1(full, TWO_FACTORIES, BINDING, None) != Err(UpstreamUnavailable)
  {
    hide Fetch, EvaluateA1, Truth, Degrades;
    TwoTruths();
    TwoFetches(TransportFailure);
    TwoFetches(Success(true));
    TwoVerdicts();
  }
}
