/**
 What the outcome of a role-events scan says about the chain it was run against.
 */
module ScanCorrectness {
  import opened Common
  import opened RoleEvents
  import opened RoleScan

  // ---------------------------------------------------------------------
  // Assumptions on the node and on the world
  // ---------------------------------------------------------------------

  predicate Addressed(log: Log, addresses: seq<Address>) {
    Lists(addresses, log.emitter)
  }

  function LogsIn(chain: seq<Log>, addresses: seq<Address>, lo: int, hi: int): seq<Log> {
    Filter(chain, (log: Log) => Addressed(log, addresses) && lo <= log.block <= hi)
  }

  /** An answered `eth_getLogs` holds exactly the matching logs, in any order. */
  ghost predicate Faithful(getLogs: GetLogs, chain: seq<Log>) {
    forall addresses, lo: nat, hi: nat :: getLogs(addresses, lo, hi).Some? ==>
      multiset(getLogs(addresses, lo, hi).value) == multiset(LogsIn(chain, addresses, lo, hi))
  }

  /** World assumption: a request has no role update in a block before any block
      in which a scanned factory announces its creation. */
  ghost predicate CreatedFirst(chain: seq<Log>, factories: seq<Address>, request: Address) {
    forall i, j :: 0 <= i < |chain| && 0 <= j < |chain| &&
                   IsRoleLog(chain[i], request) && IsCreation(chain[j], factories, request)
                   ==> chain[j].block <= chain[i].block
  }

  /** A scanned factory announces the creation of `request` in blocks lo..hi. */
  ghost predicate CreatedWithin(chain: seq<Log>, factories: seq<Address>, request: Address, lo: int, hi: int) {
    exists i :: 0 <= i < |chain| && IsCreation(chain[i], factories, request) && lo <= chain[i].block <= hi
  }

  // ---------------------------------------------------------------------
  // One chunk
  // ---------------------------------------------------------------------

  lemma RoleLogsCount(chain: seq<Log>, request: Address, lo: int, hi: int, x: Log)
    ensures multiset(RoleLogs(chain, request, lo, hi))[x] ==
            if IsRoleLog(x, request) && lo <= x.block <= hi then multiset(chain)[x] else 0
  {
    FilterCount(chain, (log: Log) => IsRoleLog(log, request) && lo <= log.block <= hi, x);
  }

  lemma LogsInCount(chain: seq<Log>, addresses: seq<Address>, lo: int, hi: int, x: Log)
    ensures multiset(LogsIn(chain, addresses, lo, hi))[x] ==
            if Addressed(x, addresses) && lo <= x.block <= hi then multiset(chain)[x] else 0
  {
    FilterCount(chain, (log: Log) => Addressed(log, addresses) && lo <= log.block <= hi, x);
  }

  lemma RoleUpdatesCount(logs: seq<Log>, request: Address, x: Log)
    ensures multiset(RoleUpdates(logs, request))[x] == if IsRoleLog(x, request) then multiset(logs)[x] else 0
  {
    FilterCount(logs, (log: Log) => IsRoleLog(log, request), x);
  }

  lemma ListsLast(factories: seq<Address>, request: Address)
    ensures Lists(factories + [request], request)
  {
    assert (factories + [request])[|factories|] == request;
  }

  lemma ListsPrefix(factories: seq<Address>, request: Address, a: Address)
    requires Lists(factories, a)
    ensures Lists(factories + [request], a)
  {
    var i :| 0 <= i < |factories| && Lower(factories[i]) == Lower(a);
    assert (factories + [request])[i] == factories[i];
  }

  lemma EmitterListed(factories: seq<Address>, request: Address, log: Log)
    requires IsRoleLog(log, request) || IsCreation(log, factories, request)
    ensures Addressed(log, factories + [request])
  {
    if IsRoleLog(log, request) {
      ListsLast(factories, request);
    } else {
      ListsPrefix(factories, request, log.emitter);
    }
  }

  /** A faithful reply adds exactly the role updates of its own blocks. */
  lemma ChunkExtends(chain: seq<Log>, factories: seq<Address>, request: Address,
                     reply: seq<Log>, logs: seq<Log>, from: int, last: int, latest: int)
    requires multiset(reply) == multiset(LogsIn(chain, factories + [request], from, last))
    requires multiset(logs) == multiset(RoleLogs(chain, request, last + 1, latest))
    requires from <= last <= latest
    ensures multiset(logs + RoleUpdates(reply, request)) == multiset(RoleLogs(chain, request, from, latest))
  {
    var more := logs + RoleUpdates(reply, request);
    forall x ensures multiset(more)[x] == multiset(RoleLogs(chain, request, from, latest))[x] {
      assert multiset(more)[x] == multiset(logs)[x] + multiset(RoleUpdates(reply, request))[x];
      RoleUpdatesCount(reply, request, x);
      RoleLogsCount(chain, request, last + 1, latest, x);
      RoleLogsCount(chain, request, from, latest, x);
      LogsInCount(chain, factories + [request], from, last, x);
      if IsRoleLog(x, request) { EmitterListed(factories, request, x); }
    }
  }

  lemma InReply(chain: seq<Log>, addresses: seq<Address>, reply: seq<Log>, from: int, last: int, x: Log)
    requires multiset(reply) == multiset(LogsIn(chain, addresses, from, last))
    ensures x in reply <==> x in chain && Addressed(x, addresses) && from <= x.block <= last
  {
    LogsInCount(chain, addresses, from, last, x);
    assert x in reply <==> x in multiset(reply);
    assert x in chain <==> x in multiset(chain);
  }

  /** A faithful reply shows a deployment event iff the chain has one in those blocks. */
  lemma ChunkCreation(chain: seq<Log>, factories: seq<Address>, request: Address, reply: seq<Log>, from: int, last: int)
    requires multiset(reply) == multiset(LogsIn(chain, factories + [request], from, last))
    ensures var found := LastCreation(reply, factories, request);
            && (found.Some? <==> CreatedWithin(chain, factories, request, from, last))
            && (found.Some? ==> found.value.factory in factories && from <= found.value.block <= last)
            && (found.Some? ==> Announced(chain, factories, request, found.value))
  {
    var found := LastCreation(reply, factories, request);
    if found.Some? {
      var i :| 0 <= i < |reply| && IsCreation(reply[i], factories, request) &&
               found.value.block == reply[i].block &&
               found.value.factory in factories && Lower(found.value.factory) == Lower(reply[i].emitter);
      InReply(chain, factories + [request], reply, from, last, reply[i]);
      var k :| 0 <= k < |chain| && chain[k] == reply[i];
    }
    if CreatedWithin(chain, factories, request, from, last) {
      var k :| 0 <= k < |chain| && IsCreation(chain[k], factories, request) && from <= chain[k].block <= last;
      EmitterListed(factories, request, chain[k]);
      InReply(chain, factories + [request], reply, from, last, chain[k]);
      var i :| 0 <= i < |reply| && reply[i] == chain[k];
    }
  }

  /** `c` records a deployment event that is on the chain. */
  ghost predicate Announced(chain: seq<Log>, factories: seq<Address>, request: Address, c: Creation) {
    exists i :: 0 <= i < |chain| && IsCreation(chain[i], factories, request) &&
                chain[i].block == c.block && Lower(chain[i].emitter) == Lower(c.factory)
  }

  // ---------------------------------------------------------------------
  // The walk
  // ---------------------------------------------------------------------

  /** What the walk has collected when it ends: all role updates from block `from` up. */
  ghost predicate Collected(chain: seq<Log>, q: ScanArgs, end: WalkEnd, from: nat) {
    && q.Valid()
    && q.Earliest() <= from <= q.latestBlock
    && multiset(end.logs) == multiset(RoleLogs(chain, q.request, from, q.latestBlock))
    && (end.found.None? ==> from == q.Earliest())
    && (end.found.Some? <==> CreatedWithin(chain, q.factories, q.request, q.Earliest(), q.latestBlock))
    && (end.found.Some? ==>
          && from <= end.found.value.block <= q.latestBlock
          && end.found.value.factory in q.factories
          && Announced(chain, q.factories, q.request, end.found.value))
  }

  /** Between two chunks: everything above `last` is collected and holds no deployment event. */
  ghost predicate Above(chain: seq<Log>, q: ScanArgs, last: nat, logs: seq<Log>) {
    && multiset(logs) == multiset(RoleLogs(chain, q.request, last + 1, q.latestBlock))
    && !CreatedWithin(chain, q.factories, q.request, last + 1, q.latestBlock)
  }

  lemma ChunkCollects(chain: seq<Log>, q: ScanArgs, reply: seq<Log>, last: nat, logs: seq<Log>)
    requires q.Valid() && q.Earliest() <= last <= q.latestBlock
    requires multiset(reply) == multiset(LogsIn(chain, q.factories + [q.request], q.ChunkStart(last), last))
    requires Above(chain, q, last, logs)
    ensures var from, more := q.ChunkStart(last), logs + RoleUpdates(reply, q.request);
            var found := LastCreation(reply, q.factories, q.request);
            if found.Some? || from == q.Earliest() then Collected(chain, q, WalkEnd(more, found), from)
            else Above(chain, q, from - 1, more)
  {
    var from := q.ChunkStart(last);
    ChunkExtends(chain, q.factories, q.request, reply, logs, from, last, q.latestBlock);
    ChunkCreation(chain, q.factories, q.request, reply, from, last);
    CreatedSplit(chain, q.factories, q.request, from, last, q.latestBlock);
    if CreatedWithin(chain, q.factories, q.request, from, last) {
      CreatedWiden(chain, q.factories, q.request, q.Earliest(), from, last, q.latestBlock);
    }
  }

  lemma {:induction false} WalkCollects(chain: seq<Log>, getLogs: GetLogs, signals: Signals, q: ScanArgs,
                                        chunk: nat, last: nat, logs: seq<Log>) returns (from: nat)
    requires Faithful(getLogs, chain)
    requires q.Valid() && q.Earliest() <= last <= q.latestBlock
    requires Above(chain, q, last, logs)
    ensures var end := Walk(getLogs, signals, q, chunk, last, logs);
            end.Some? ==> Collected(chain, q, end.value, from)
    decreases last
  {
    hide Collected, Above, RoleUpdates, LastCreation, RoleLogs, LogsIn;
    from := q.ChunkStart(last);
    var reply := getLogs(q.factories + [q.request], from, last);
    if !q.Interrupted(signals, chunk) && reply.Some? {
      ChunkCollects(chain, q, reply.value, last, logs);
      if LastCreation(reply.value, q.factories, q.request).None? && from > q.Earliest() {
        from := WalkCollects(chain, getLogs, signals, q, chunk + 1, from - 1, logs + RoleUpdates(reply.value, q.request));
      }
    }
  }

  lemma CreatedSplit(chain: seq<Log>, factories: seq<Address>, request: Address, lo: int, mid: int, hi: int)
    requires lo <= mid <= hi
    ensures CreatedWithin(chain, factories, request, lo, hi) <==>
            CreatedWithin(chain, factories, request, lo, mid) || CreatedWithin(chain, factories, request, mid + 1, hi)
  {}

  lemma CreatedWiden(chain: seq<Log>, factories: seq<Address>, request: Address, lo: int, from: int, last: int, hi: int)
    requires lo <= from <= last <= hi
    requires CreatedWithin(chain, factories, request, from, last)
    ensures CreatedWithin(chain, factories, request, lo, hi)
  {}

  /** The whole walk of a scan. */
  lemma ScanCollects(chain: seq<Log>, getLogs: GetLogs, signals: Signals, q: ScanArgs) returns (from: nat)
    requires Faithful(getLogs, chain) && q.Valid()
    ensures var end := Walk(getLogs, signals, q, 0, q.latestBlock, []);
            end.Some? ==> Collected(chain, q, end.value, from)
  {
    var none := RoleLogs(chain, q.request, q.latestBlock + 1, q.latestBlock);
    forall x ensures multiset(none)[x] == 0 {
      RoleLogsCount(chain, q.request, q.latestBlock + 1, q.latestBlock, x);
    }
    assert multiset(none) == multiset([]);
    assert Above(chain, q, q.latestBlock, []);
    from := WalkCollects(chain, getLogs, signals, q, 0, q.latestBlock, []);
  }

  /** Replies arrive in any order; sorting restores the order of the chain. */
  lemma SortRestores(chain: seq<Log>, request: Address, logs: seq<Log>, from: int, latest: int)
    requires WellOrdered(chain)
    requires multiset(logs) == multiset(RoleLogs(chain, request, from, latest))
    ensures SortLogs(logs) == RoleLogs(chain, request, from, latest)
  {
    FilterOrdered(chain, (log: Log) => IsRoleLog(log, request) && from <= log.block <= latest);
    SortedIsUnique(SortLogs(logs), RoleLogs(chain, request, from, latest));
  }

  // ---------------------------------------------------------------------
  // Main results
  // ---------------------------------------------------------------------

  lemma NothingBelow(chain: seq<Log>, q: ScanArgs, from: nat, c: Creation)
    requires CreatedFirst(chain, q.factories, q.request)
    requires Announced(chain, q.factories, q.request, c) && from <= c.block
    ensures forall i :: 0 <= i < |chain| && IsRoleLog(chain[i], q.request) ==> from <= chain[i].block
  {}

  lemma {:induction false} SameWindow(chain: seq<Log>, request: Address, from: int, latest: int)
    requires 0 <= from
    requires forall i :: 0 <= i < |chain| && IsRoleLog(chain[i], request) ==> from <= chain[i].block
    ensures RoleLogs(chain, request, from, latest) == RoleLogs(chain, request, 0, latest)
  {
    if chain != [] {
      var n := |chain| - 1;
      SameWindow(chain[..n], request, from, latest);
      var p := (log: Log) => IsRoleLog(log, request) && from <= log.block <= latest;
      var p0 := (log: Log) => IsRoleLog(log, request) && 0 <= log.block <= latest;
      assert RoleLogs(chain[..n], request, from, latest) == Filter(chain[..n], p);
      assert RoleLogs(chain[..n], request, 0, latest) == Filter(chain[..n], p0);
      assert p(chain[n]) == p0(chain[n]);
    }
  }

  /** A resolved scan is exact: it yields the holders a forward replay of the
      whole history up to the latest block yields, whatever the reply order. */
  lemma ResolvedIsExact(chain: seq<Log>, getLogs: GetLogs, signals: Signals, q: ScanArgs)
    requires WellOrdered(chain) && Faithful(getLogs, chain)
    requires CreatedFirst(chain, q.factories, q.request)
    requires Scan(getLogs, signals, q).Some? && Scan(getLogs, signals, q).value.Resolved?
    ensures Scan(getLogs, signals, q).value.holders == RolesAt(chain, q.request, q.latestBlock)
  {
    hide Walk, Replay, Prune, RoleLogs, SortLogs, WellOrdered, Faithful, CreatedFirst, CreatedWithin, Announced;
    var end := Walk(getLogs, signals, q, 0, q.latestBlock, []).value;
    var from := ScanReplays(chain, getLogs, signals, q);
    if end.found.Some? {
      NothingBelow(chain, q, from, end.found.value);
      SameWindow(chain, q.request, from, q.latestBlock);
    }
  }

  /** A completed scan resolves iff its window reaches block 0 or holds a deployment event. */
  lemma ResolvesIff(chain: seq<Log>, getLogs: GetLogs, signals: Signals, q: ScanArgs)
    requires Faithful(getLogs, chain)
    requires Scan(getLogs, signals, q).Some?
    ensures Scan(getLogs, signals, q).value.Resolved? <==>
            q.Earliest() == 0 || CreatedWithin(chain, q.factories, q.request, q.Earliest(), q.latestBlock)
  {
    hide Walk, CreatedWithin, RoleLogs, Replay, SortLogs, Prune, Faithful, Announced;
    var from := ScanCollects(chain, getLogs, signals, q);
  }

  /** A resolved scan without a deployment event reports block 0. */
  lemma UnannouncedIsBlockZero(getLogs: GetLogs, signals: Signals, q: ScanArgs)
    requires Scan(getLogs, signals, q).Some? && Scan(getLogs, signals, q).value.Resolved?
    requires Scan(getLogs, signals, q).value.deploymentFactory.None?
    ensures Scan(getLogs, signals, q).value.deploymentBlock == 0
  {
    hide Walk, Replay, Prune, SortLogs;
  }

  /** The factory of a resolved scan is a scanned one that announced the creation. */
  lemma DeploymentIsAnnounced(chain: seq<Log>, getLogs: GetLogs, signals: Signals, q: ScanArgs)
    requires Faithful(getLogs, chain)
    requires Scan(getLogs, signals, q).Some? && Scan(getLogs, signals, q).value.Resolved?
    requires Scan(getLogs, signals, q).value.deploymentFactory.Some?
    ensures var out := Scan(getLogs, signals, q).value;
            out.deploymentFactory.value in q.factories &&
            Announced(chain, q.factories, q.request, Creation(out.deploymentBlock, out.deploymentFactory.value))
    ensures q.Earliest() <= Scan(getLogs, signals, q).value.deploymentBlock <= q.latestBlock
  {
    hide Walk, CreatedWithin, RoleLogs, Replay, SortLogs, Prune, Faithful, Announced;
    var end := Walk(getLogs, signals, q, 0, q.latestBlock, []).value;
    var from := ScanCollects(chain, getLogs, signals, q);
    assert end.found.value == Creation(end.found.value.block, end.found.value.factory);
  }

  /** The latest role event of `user` for `request` up to `latest` lies at or above `from`. */
  ghost predicate LatestAtOrAbove(chain: seq<Log>, request: Address, user: Address, from: int, latest: int) {
    exists i :: 0 <= i < |chain| && IsRoleLog(chain[i], request) && from <= chain[i].block <= latest &&
                chain[i].event.user.Some? && chain[i].event.roles.Some? && Lower(chain[i].event.user.value) == user
  }

  /** What a completed scan holds is the replay of the role updates it collected. */
  lemma ScanReplays(chain: seq<Log>, getLogs: GetLogs, signals: Signals, q: ScanArgs) returns (from: nat)
    requires WellOrdered(chain) && Faithful(getLogs, chain) && Scan(getLogs, signals, q).Some?
    ensures q.Valid() && Collected(chain, q, Walk(getLogs, signals, q, 0, q.latestBlock, []).value, from)
    ensures var out := Scan(getLogs, signals, q).value;
            var holders := Prune(Replay(RoleLogs(chain, q.request, from, q.latestBlock)));
            if out.Resolved? then out.holders == holders else out.partialHolders == holders && from == q.Earliest()
  {
    hide Walk, Replay, Prune, SortLogs, RoleLogs, WellOrdered, Faithful, CreatedWithin, Announced;
    var end := Walk(getLogs, signals, q, 0, q.latestBlock, []).value;
    from := ScanCollects(chain, getLogs, signals, q);
    SortRestores(chain, q.request, end.logs, from, q.latestBlock);
  }

  /** Later updates override earlier ones user by user. */
  lemma MergeLater(before: seq<Log>, inside: seq<Log>)
    ensures Prune(Replay(inside)) ==
            map user | user in Prune(Replay(before + inside)) && user in Replay(inside) :: Prune(Replay(before + inside))[user]
  {
    hide Replay;
    ReplayAppend(before, inside);
  }

  lemma WindowDomain(chain: seq<Log>, request: Address, from: int, latest: int, user: Address)
    ensures user in Replay(RoleLogs(chain, request, from, latest)) <==> LatestAtOrAbove(chain, request, user, from, latest)
  {
    hide Replay, RoleLogs, LatestAtOrAbove;
    ReplayDomain(RoleLogs(chain, request, from, latest), user);
    WindowUsers(chain, request, user, from, latest);
  }

  /** The updates of a window give the current bitfields of those whose latest update lies in it. */
  lemma WindowReplay(chain: seq<Log>, request: Address, from: int, latest: int)
    requires WellOrdered(chain) && 0 <= from <= latest
    ensures var now := RolesAt(chain, request, latest);
            Prune(Replay(RoleLogs(chain, request, from, latest))) ==
            map user | user in now && LatestAtOrAbove(chain, request, user, from, latest) :: now[user]
  {
    hide Replay, Prune, RoleLogs, LatestAtOrAbove, WellOrdered;
    WindowSplit(chain, request, from, latest);
    MergeLater(RoleLogs(chain, request, 0, from - 1), RoleLogs(chain, request, from, latest));
    forall user
      ensures user in Replay(RoleLogs(chain, request, from, latest)) <==> LatestAtOrAbove(chain, request, user, from, latest)
    {
      WindowDomain(chain, request, from, latest, user);
    }
  }

  /** An exhausted scan reports the current bitfield of exactly those holders whose
      latest role event lies inside the window. */
  lemma TooOldIsPartial(chain: seq<Log>, getLogs: GetLogs, signals: Signals, q: ScanArgs)
    requires WellOrdered(chain) && Faithful(getLogs, chain)
    requires Scan(getLogs, signals, q).Some? && Scan(getLogs, signals, q).value.TooOld?
    ensures var now := RolesAt(chain, q.request, q.latestBlock);
            Scan(getLogs, signals, q).value.partialHolders ==
            map user | user in now && LatestAtOrAbove(chain, q.request, user, q.Earliest(), q.latestBlock) :: now[user]
  {
    hide Scan, Walk, Replay, Prune, RoleLogs, RolesAt, LatestAtOrAbove, WellOrdered, Faithful;
    var from := ScanReplays(chain, getLogs, signals, q);
    WindowReplay(chain, q.request, from, q.latestBlock);
  }

  ghost predicate Sets(log: Log, user: Address) {
    log.event.RolesUpdated? && log.event.user.Some? && log.event.roles.Some? && Lower(log.event.user.value) == user
  }

  lemma {:induction false} ReplayDomain(logs: seq<Log>, user: Address)
    ensures user in Replay(logs) <==> exists i :: 0 <= i < |logs| && Sets(logs[i], user)
  {
    if logs != [] {
      var n := |logs| - 1;
      ReplayDomain(logs[..n], user);
      if Sets(logs[n], user) {
        assert user in Replay(logs);
      }
    }
  }

  lemma WindowUsers(chain: seq<Log>, request: Address, user: Address, from: int, latest: int)
    ensures (exists i :: 0 <= i < |RoleLogs(chain, request, from, latest)| && Sets(RoleLogs(chain, request, from, latest)[i], user))
            <==> LatestAtOrAbove(chain, request, user, from, latest)
  {
    var p := (log: Log) => IsRoleLog(log, request) && from <= log.block <= latest;
    var logs := RoleLogs(chain, request, from, latest);
    if i :| 0 <= i < |logs| && Sets(logs[i], user) {
      FilterMember(chain, p, logs[i]);
      assert logs[i] in Filter(chain, p);
      var k :| 0 <= k < |chain| && chain[k] == logs[i];
    }
    if LatestAtOrAbove(chain, request, user, from, latest) {
      var k :| 0 <= k < |chain| && IsRoleLog(chain[k], request) && from <= chain[k].block <= latest && Sets(chain[k], user);
      FilterMember(chain, p, chain[k]);
      assert chain[k] in logs;
    }
  }

  /** In chain order the role updates of a window follow those below it. */
  lemma WindowSplit(chain: seq<Log>, request: Address, from: int, latest: int)
    requires WellOrdered(chain) && 0 <= from <= latest
    ensures RoleLogs(chain, request, 0, latest) ==
            RoleLogs(chain, request, 0, from - 1) + RoleLogs(chain, request, from, latest)
  {
    hide RoleLogs, WellOrdered;
    var below, inside := RoleLogs(chain, request, 0, from - 1), RoleLogs(chain, request, from, latest);
    WindowOrdered(chain, request, 0, latest);
    WindowCounts(chain, request, from, latest);
    WindowSorted(chain, request, from, latest);
    SortedIsUnique(below + inside, RoleLogs(chain, request, 0, latest));
  }

  lemma WindowOrdered(chain: seq<Log>, request: Address, lo: int, hi: int)
    requires WellOrdered(chain)
    ensures WellOrdered(RoleLogs(chain, request, lo, hi))
  {
    FilterOrdered(chain, (log: Log) => IsRoleLog(log, request) && lo <= log.block <= hi);
  }

  lemma WindowCounts(chain: seq<Log>, request: Address, from: int, latest: int)
    requires 0 <= from <= latest
    ensures multiset(RoleLogs(chain, request, 0, from - 1) + RoleLogs(chain, request, from, latest)) ==
            multiset(RoleLogs(chain, request, 0, latest))
  {
    hide RoleLogs;
    var below, inside := RoleLogs(chain, request, 0, from - 1), RoleLogs(chain, request, from, latest);
    forall x ensures multiset(below + inside)[x] == multiset(RoleLogs(chain, request, 0, latest))[x] {
      assert multiset(below + inside)[x] == multiset(below)[x] + multiset(inside)[x];
      RoleLogsCount(chain, request, 0, from - 1, x);
      RoleLogsCount(chain, request, from, latest, x);
      RoleLogsCount(chain, request, 0, latest, x);
    }
  }

  lemma InWindow(chain: seq<Log>, request: Address, lo: int, hi: int, i: nat)
    requires i < |RoleLogs(chain, request, lo, hi)|
    ensures lo <= RoleLogs(chain, request, lo, hi)[i].block <= hi
  {
    FilterMember(chain, (log: Log) => IsRoleLog(log, request) && lo <= log.block <= hi, RoleLogs(chain, request, lo, hi)[i]);
    assert RoleLogs(chain, request, lo, hi)[i] in RoleLogs(chain, request, lo, hi);
  }

  lemma WindowSorted(chain: seq<Log>, request: Address, from: int, latest: int)
    requires WellOrdered(chain) && 0 <= from <= latest
    ensures Sorted(RoleLogs(chain, request, 0, from - 1) + RoleLogs(chain, request, from, latest))
  {
    hide RoleLogs;
    var below, inside := RoleLogs(chain, request, 0, from - 1), RoleLogs(chain, request, from, latest);
    WindowOrdered(chain, request, 0, from - 1);
    WindowOrdered(chain, request, from, latest);
    forall i, j | 0 <= i < |below| && 0 <= j < |inside| ensures Before(below[i], inside[j]) {
      InWindow(chain, request, 0, from - 1, i);
      InWindow(chain, request, from, latest, j);
    }
  }
}
