/**
 The backward walk itself, and what its outcome says about the chain.

 `Scan` gives the result of a scan for given replies of the node; the method
 `ScanRoleHolders` computes it step by step. The theorems compare it with the
 forward replay `RolesAt` of the whole chain.
 */
module RoleScan {
  import opened Common
  import opened Arithmetic
  import opened RoleEvents

  /** `eth_getLogs`: addresses, first and last block; None when the call throws. */
  type GetLogs = (seq<Address>, nat, nat) -> Option<seq<Log>>

  /** The abort signal as seen before the i-th chunk, and the i-th clock reading. */
  datatype Signals = Signals(aborted: nat -> bool, clock: nat -> int)

  datatype ScanArgs = ScanArgs(
    factories: seq<Address>,
    request: Address,
    latestBlock: nat,
    blockRange: int,
    maxLookbackBlocks: int,
    deadlineMs: Option<int>)
  {
    predicate Valid() {
      factories != [] && blockRange > 0 && maxLookbackBlocks > 0 &&
      (deadlineMs.Some? ==> deadlineMs.value >= 0)
    }

    /** First block the scan may read. */
    function Earliest(): nat
      requires maxLookbackBlocks > 0
    {
      if latestBlock > maxLookbackBlocks then latestBlock - maxLookbackBlocks else 0
    }

    /** First block of the chunk that ends at `last`. */
    function ChunkStart(last: nat): nat
      requires maxLookbackBlocks > 0
    {
      var start := last - blockRange + 1;
      if start > Earliest() then start else Earliest()
    }

    predicate Interrupted(signals: Signals, chunk: nat) {
      signals.aborted(chunk) ||
      (chunk > 0 && deadlineMs.Some? && signals.clock(chunk) - signals.clock(0) > deadlineMs.value)
    }
  }

  /** A deployment event accepted as the end of the walk. */
  datatype Creation = Creation(block: nat, factory: Address)

  datatype ScanOutcome =
    | Resolved(holders: Roles, deploymentBlock: nat, deploymentFactory: Option<Address>)
    | TooOld(partialHolders: Roles)

  // ---------------------------------------------------------------------
  // One chunk
  // ---------------------------------------------------------------------

  /** The configured spelling of an emitter; a later duplicate overwrites an earlier one. */
  function FactoryOf(factories: seq<Address>, emitter: Address): (f: Option<Address>)
    ensures f.Some? <==> Lists(factories, emitter)
    ensures f.Some? ==> f.value in factories && Lower(f.value) == Lower(emitter)
  {
    if factories == [] then None
    else if Lower(factories[|factories| - 1]) == Lower(emitter) then Some(factories[|factories| - 1])
    else
      assert Lists(factories[..|factories| - 1], emitter) ==> Lists(factories, emitter);
      FactoryOf(factories[..|factories| - 1], emitter)
  }

  function RoleUpdates(logs: seq<Log>, request: Address): seq<Log> {
    Filter(logs, (log: Log) => IsRoleLog(log, request))
  }

  /** The deployment event met last in a reply, in reply order. */
  function LastCreation(logs: seq<Log>, factories: seq<Address>, request: Address): (c: Option<Creation>)
    ensures c.Some? <==> exists i :: 0 <= i < |logs| && IsCreation(logs[i], factories, request)
    ensures c.Some? ==>
              exists i :: 0 <= i < |logs| && IsCreation(logs[i], factories, request) &&
                          c.value.block == logs[i].block &&
                          c.value.factory in factories && Lower(c.value.factory) == Lower(logs[i].emitter)
  {
    if logs == [] then None
    else
      var log := logs[|logs| - 1];
      if IsCreation(log, factories, request) then
        Some(Creation(log.block, FactoryOf(factories, log.emitter).value))
      else
        LastCreation(logs[..|logs| - 1], factories, request)
  }

  /** A later duplicate of a factory decides the spelling. */
  lemma {:induction false} FactoryIsLast(factories: seq<Address>, emitter: Address) returns (i: nat)
    requires FactoryOf(factories, emitter).Some?
    ensures i < |factories| && FactoryOf(factories, emitter) == Some(factories[i]) && factories[i].value == emitter.value
    ensures forall j :: i < j < |factories| ==> factories[j].value != emitter.value
  {
    var n := |factories| - 1;
    if Lower(factories[n]) == Lower(emitter) {
      i := n;
    } else {
      i := FactoryIsLast(factories[..n], emitter);
    }
  }

  /** The event that counts is the last of the creation events in the reply. */
  lemma {:induction false} CreationIsLast(logs: seq<Log>, factories: seq<Address>, request: Address) returns (i: nat)
    requires exists log :: log in logs && IsCreation(log, factories, request)
    ensures i < |logs| && IsCreation(logs[i], factories, request)
    ensures forall j :: i < j < |logs| ==> !IsCreation(logs[j], factories, request)
    ensures LastCreation(logs, factories, request) ==
            Some(Creation(logs[i].block, FactoryOf(factories, logs[i].emitter).value))
  {
    hide IsCreation;
    var n := |logs| - 1;
    if IsCreation(logs[n], factories, request) {
      i := n;
    } else {
      var log :| log in logs && IsCreation(log, factories, request);
      assert log in logs[..n];
      i := CreationIsLast(logs[..n], factories, request);
    }
  }

  /** The client-side loop over one reply. */
  method ProcessReply(logs: seq<Log>, factories: seq<Address>, request: Address)
    returns (roleLogs: seq<Log>, found: Option<Creation>)
    ensures roleLogs == RoleUpdates(logs, request)
    ensures found == LastCreation(logs, factories, request)
  {
    roleLogs, found := [], None;
    var i := 0;
    while i < |logs|
      invariant 0 <= i <= |logs|
      invariant roleLogs == RoleUpdates(logs[..i], request)
      invariant found == LastCreation(logs[..i], factories, request)
    {
      var log := logs[i];
      assert logs[..i + 1][..i] == logs[..i] && logs[..i + 1][i] == log;
      i := i + 1;
      if log.event.RequestCreated? || log.event.FlashLoanRequestCreated? {
        var emittingFactory := FactoryOf(factories, log.emitter);
        if emittingFactory.None? {
          continue;
        }
        var created := if log.event.RequestCreated? then log.event.request else log.event.flashLoanRequest;
        if created.Some? && Lower(created.value) == Lower(request) {
          found := Some(Creation(log.block, emittingFactory.value));
        }
        continue;
      }
      if Lower(log.emitter) != Lower(request) {
        continue;
      }
      roleLogs := roleLogs + [log];
    }
    assert logs[..|logs|] == logs;
  }

  // ---------------------------------------------------------------------
  // The walk
  // ---------------------------------------------------------------------

  datatype WalkEnd = WalkEnd(logs: seq<Log>, found: Option<Creation>)

  /** The rest of a walk whose next chunk ends at `last`; None when it throws. */
  function Walk(getLogs: GetLogs, signals: Signals, q: ScanArgs, chunk: nat, last: nat, logs: seq<Log>): Option<WalkEnd>
    requires q.Valid() && q.Earliest() <= last
    decreases last
  {
    if q.Interrupted(signals, chunk) then None
    else
      var from := q.ChunkStart(last);
      match getLogs(q.factories + [q.request], from, last)
      case None => None
      case Some(reply) =>
        var logs' := logs + RoleUpdates(reply, q.request);
        var found := LastCreation(reply, q.factories, q.request);
        if found.Some? || from == q.Earliest() then Some(WalkEnd(logs', found))
        else Walk(getLogs, signals, q, chunk + 1, from - 1, logs')
  }

  function Conclude(q: ScanArgs, end: WalkEnd): ScanOutcome
    requires q.Valid()
  {
    var holders := Prune(Replay(SortLogs(end.logs)));
    if end.found.None? && q.Earliest() > 0 then TooOld(holders)
    else if end.found.None? then Resolved(holders, 0, None)
    else Resolved(holders, end.found.value.block, Some(end.found.value.factory))
  }

  /** The outcome of a scan; None when it throws. */
  function Scan(getLogs: GetLogs, signals: Signals, q: ScanArgs): Option<ScanOutcome> {
    if !q.Valid() then None
    else
      match Walk(getLogs, signals, q, 0, q.latestBlock, [])
      case None => None
      case Some(end) => Some(Conclude(q, end))
  }

  /** The block ranges of a walk that meets no deployment event. */
  function ChunkRanges(q: ScanArgs, last: nat): seq<(nat, nat)>
    requires q.Valid() && q.Earliest() <= last
    decreases last
  {
    var from := q.ChunkStart(last);
    [(from, last)] + if from == q.Earliest() then [] else ChunkRanges(q, from - 1)
  }

  lemma ReplayNext(logs: seq<Log>, i: nat)
    requires i < |logs|
    ensures Replay(logs[..i + 1]) == ApplyLog(Replay(logs[..i]), logs[i])
  {
    assert logs[..i + 1][..i] == logs[..i];
  }

  method ReplayRoleState(logs: seq<Log>) returns (state: Roles)
    ensures state == Prune(Replay(SortLogs(logs)))
  {
    var sorted := SortLogs(logs);
    state := ReplaySorted(sorted);
    state := DropZeroEntries(state);
  }

  method ReplaySorted(sorted: seq<Log>) returns (state: Roles)
    ensures state == Replay(sorted)
  {
    state := map[];
    for i := 0 to |sorted|
      invariant state == Replay(sorted[..i])
    {
      ReplayNext(sorted, i);
      var event := sorted[i].event;
      if event.RolesUpdated? && event.user.Some? && event.roles.Some? {
        state := state[Lower(event.user.value) := event.roles.value];
      }
    }
    assert sorted[..|sorted|] == sorted;
  }

  method DropZeroEntries(full: Roles) returns (state: Roles)
    ensures state == Prune(full)
  {
    state := full;
    var users := full.Keys;
    while users != {}
      invariant users <= full.Keys
      invariant state == map u | u in full && (u in users || full[u] != {}) :: full[u]
      decreases users
    {
      var user :| user in users;
      users := users - {user};
      if state[user] == {} {
        state := state - {user};
      }
    }
  }

  method HoldersOf(holders: Roles, mask: Bits) returns (out: seq<Address>)
    ensures forall u :: u in out <==> u in HolderSet(holders, mask)
    ensures forall i, j :: 0 <= i < j < |out| ==> out[i] != out[j]
  {
    out := [];
    var users := holders.Keys;
    while users != {}
      invariant users <= holders.Keys
      invariant forall u :: u in out <==> u in holders && u !in users && holders[u] * mask != {}
      invariant forall i, j :: 0 <= i < j < |out| ==> out[i] != out[j]
      decreases users
    {
      var user :| user in users;
      assert user !in out;
      users := users - {user};
      if holders[user] * mask != {} {
        out := out + [user];
      }
    }
  }

  lemma RangesStep(q: ScanArgs, last: nat, queried: seq<(nat, nat)>)
    requires q.Valid() && q.Earliest() <= last
    ensures var from := q.ChunkStart(last);
            var more := queried + [(from, last)];
            queried + ChunkRanges(q, last) == if from == q.Earliest() then more else more + ChunkRanges(q, from - 1)
  {}

  /** The scan, with the block ranges it asked the node for. */
  method ScanRoleHolders(getLogs: GetLogs, signals: Signals, q: ScanArgs)
    returns (out: Option<ScanOutcome>, queried: seq<(nat, nat)>)
    ensures out == Scan(getLogs, signals, q)
    ensures q.Valid() ==> queried <= ChunkRanges(q, q.latestBlock)
    ensures out.Some? && out.value.TooOld? ==> queried == ChunkRanges(q, q.latestBlock)
  {
    if |q.factories| == 0 || q.blockRange <= 0 || q.maxLookbackBlocks <= 0 { return None, []; }
    if q.deadlineMs.Some? && q.deadlineMs.value < 0 { return None, []; }
    var end;
    end, queried := WalkBack(getLogs, signals, q);
    if end.None? { return None, queried; }
    var WalkEnd(allLogs, found) := end.value;
    var holders := ReplayRoleState(allLogs);
    if found.None? && q.Earliest() > 0 {
      return Some(TooOld(holders)), queried;
    }
    out := Some(Resolved(
                  holders,
                  if found.Some? then found.value.block else 0,
                  if found.Some? then Some(found.value.factory) else None));
  }

  /** The state of a walk between two chunks; `found` ends it. */
  ghost predicate WalkInvariant(getLogs: GetLogs, signals: Signals, q: ScanArgs,
                                chunk: nat, last: nat, logs: seq<Log>, found: Option<Creation>)
  {
    q.Valid() && q.Earliest() <= last &&
    Walk(getLogs, signals, q, 0, q.latestBlock, []) ==
    if found.None? then Walk(getLogs, signals, q, chunk, last, logs) else Some(WalkEnd(logs, found))
  }

  lemma WalkThrows(getLogs: GetLogs, signals: Signals, q: ScanArgs, chunk: nat, last: nat, logs: seq<Log>)
    requires WalkInvariant(getLogs, signals, q, chunk, last, logs, None)
    requires q.Interrupted(signals, chunk) || getLogs(q.factories + [q.request], q.ChunkStart(last), last).None?
    ensures Walk(getLogs, signals, q, 0, q.latestBlock, []) == None
  {}

  lemma WalkStep(getLogs: GetLogs, signals: Signals, q: ScanArgs, chunk: nat, last: nat, logs: seq<Log>)
    requires WalkInvariant(getLogs, signals, q, chunk, last, logs, None)
    requires !q.Interrupted(signals, chunk)
    requires getLogs(q.factories + [q.request], q.ChunkStart(last), last).Some?
    ensures var from := q.ChunkStart(last);
            var reply := getLogs(q.factories + [q.request], from, last).value;
            var more := logs + RoleUpdates(reply, q.request);
            var found := LastCreation(reply, q.factories, q.request);
            if from == q.Earliest() then
              Walk(getLogs, signals, q, 0, q.latestBlock, []) == Some(WalkEnd(more, found))
            else
              WalkInvariant(getLogs, signals, q, chunk + 1, from - 1, more, found)
  {}

  /** The chunk loop. */
  method WalkBack(getLogs: GetLogs, signals: Signals, q: ScanArgs)
    returns (end: Option<WalkEnd>, queried: seq<(nat, nat)>)
    requires q.Valid()
    ensures end == Walk(getLogs, signals, q, 0, q.latestBlock, [])
    ensures queried <= ChunkRanges(q, q.latestBlock)
    ensures end.Some? && end.value.found.None? ==> queried == ChunkRanges(q, q.latestBlock)
  {
    hide ChunkRanges;
    queried := [];
    var earliestAllowed := q.Earliest();
    var allLogs: seq<Log> := [];
    var startedAt := signals.clock(0);
    var toBlock: nat := q.latestBlock;
    var found: Option<Creation> := None;
    var firstChunk := true;
    var chunk := 0;
    while toBlock >= earliestAllowed && found.None?
      invariant chunk == 0 <==> firstChunk
      invariant WalkInvariant(getLogs, signals, q, chunk, toBlock, allLogs, found)
      invariant queried + ChunkRanges(q, toBlock) == ChunkRanges(q, q.latestBlock)
      decreases found.None?, toBlock
    {
      var chunkStart := toBlock - q.blockRange + 1;
      var fromBlock: nat := if chunkStart > earliestAllowed then chunkStart else earliestAllowed;
      var interrupted := signals.aborted(chunk) ||
        (!firstChunk && q.deadlineMs.Some? && signals.clock(chunk) - startedAt > q.deadlineMs.value);
      if interrupted {
        WalkThrows(getLogs, signals, q, chunk, toBlock, allLogs);
        return None, queried;
      }
      firstChunk := false;
      RangesStep(q, toBlock, queried);
      queried := queried + [(fromBlock, toBlock)];
      var logs := getLogs(q.factories + [q.request], fromBlock, toBlock);
      if logs.None? {
        WalkThrows(getLogs, signals, q, chunk, toBlock, allLogs);
        return None, queried;
      }
      WalkStep(getLogs, signals, q, chunk, toBlock, allLogs);
      var roleLogs;
      roleLogs, found := ProcessReply(logs.value, q.factories, q.request);
      allLogs := allLogs + roleLogs;
      if fromBlock == 0 || fromBlock == earliestAllowed { break; }
      toBlock := fromBlock - 1;
      chunk := chunk + 1;
    }
    end := Some(WalkEnd(allLogs, found));
  }

  // ---------------------------------------------------------------------
  // When a scan throws
  // ---------------------------------------------------------------------

  /** The options are rejected. */
  predicate Rejected(q: ScanArgs) {
    || q.factories == [] || q.blockRange <= 0 || q.maxLookbackBlocks <= 0
    || (q.deadlineMs.Some? && q.deadlineMs.value < 0)
  }

  /** The reply to a range, if it is answered, announces the creation. */
  predicate RangeAnswered(getLogs: GetLogs, q: ScanArgs, range: (nat, nat)) {
    getLogs(q.factories + [q.request], range.0, range.1).Some?
  }

  ghost predicate RangeAnnounces(getLogs: GetLogs, q: ScanArgs, range: (nat, nat)) {
    RangeAnswered(getLogs, q, range) &&
    exists log :: log in getLogs(q.factories + [q.request], range.0, range.1).value && IsCreation(log, q.factories, q.request)
  }

  /** The scan of `ranges`, whose first is chunk number `chunk`, throws at the k-th: the
      chunks before are answered and announce no creation, and the caller has gone,
      the time is up, or the node does not answer. */
  ghost predicate ThrowsAt(getLogs: GetLogs, signals: Signals, q: ScanArgs, ranges: seq<(nat, nat)>, chunk: nat, k: nat) {
    && k < |ranges|
    && (forall j :: 0 <= j < k ==> RangeAnswered(getLogs, q, ranges[j]) && !RangeAnnounces(getLogs, q, ranges[j]))
    && (|| signals.aborted(chunk + k)
        || (chunk + k > 0 && q.deadlineMs.Some? && signals.clock(chunk + k) - signals.clock(0) > q.deadlineMs.value)
        || !RangeAnswered(getLogs, q, ranges[k]))
  }

  lemma AnnouncesIff(getLogs: GetLogs, q: ScanArgs, range: (nat, nat))
    requires RangeAnswered(getLogs, q, range)
    ensures RangeAnnounces(getLogs, q, range) <==>
            LastCreation(getLogs(q.factories + [q.request], range.0, range.1).value, q.factories, q.request).Some?
  {
    var logs := getLogs(q.factories + [q.request], range.0, range.1).value;
    if RangeAnnounces(getLogs, q, range) {
      var log :| log in logs && IsCreation(log, q.factories, q.request);
      var i :| 0 <= i < |logs| && logs[i] == log;
    }
    if i :| 0 <= i < |logs| && IsCreation(logs[i], q.factories, q.request) {
      assert logs[i] in logs;
    }
  }

  lemma {:induction false} WalkThrowsIff(getLogs: GetLogs, signals: Signals, q: ScanArgs, chunk: nat, last: nat, logs: seq<Log>)
    requires q.Valid() && q.Earliest() <= last
    ensures Walk(getLogs, signals, q, chunk, last, logs) == None <==>
            exists k: nat :: ThrowsAt(getLogs, signals, q, ChunkRanges(q, last), chunk, k)
    decreases last
  {
    hide LastCreation, RoleUpdates, RangeAnnounces, ChunkRanges;
    var from, ranges := q.ChunkStart(last), ChunkRanges(q, last);
    RangesStep(q, last, []);
    assert [] + ranges == ranges && [] + [(from, last)] == [(from, last)];
    assert ranges[0] == (from, last);
    if RangeAnswered(getLogs, q, ranges[0]) { AnnouncesIff(getLogs, q, ranges[0]); }
    if q.Interrupted(signals, chunk) || !RangeAnswered(getLogs, q, ranges[0]) {
      assert ThrowsAt(getLogs, signals, q, ranges, chunk, 0);
    } else if RangeAnnounces(getLogs, q, ranges[0]) || from == q.Earliest() {
      forall k: nat ensures !ThrowsAt(getLogs, signals, q, ranges, chunk, k) {}
    } else {
      var rest := ChunkRanges(q, from - 1);
      var more := logs + RoleUpdates(getLogs(q.factories + [q.request], from, last).value, q.request);
      assert ranges == [(from, last)] + rest;
      WalkThrowsIff(getLogs, signals, q, chunk + 1, from - 1, more);
      ThrowsLater(getLogs, signals, q, (from, last), rest, chunk, chunk + 1);
    }
  }

  lemma ThrowsLater(getLogs: GetLogs, signals: Signals, q: ScanArgs, first: (nat, nat), rest: seq<(nat, nat)>, chunk: nat, next: nat)
    requires RangeAnswered(getLogs, q, first) && !RangeAnnounces(getLogs, q, first) && !q.Interrupted(signals, chunk)
    requires next == chunk + 1
    ensures (exists k: nat :: ThrowsAt(getLogs, signals, q, [first] + rest, chunk, k)) <==>
            (exists k: nat :: ThrowsAt(getLogs, signals, q, rest, next, k))
  {
    hide RangeAnswered, RangeAnnounces;
    var ranges := [first] + rest;
    if k: nat :| ThrowsAt(getLogs, signals, q, ranges, chunk, k) {
      assert k > 0;
      LaterThrow(getLogs, signals, q, first, rest, chunk, k - 1);
      assert ThrowsAt(getLogs, signals, q, rest, next, k - 1);
    }
    if k: nat :| ThrowsAt(getLogs, signals, q, rest, next, k) {
      LaterThrow(getLogs, signals, q, first, rest, chunk, k);
      assert ThrowsAt(getLogs, signals, q, ranges, chunk, k + 1);
    }
  }

  lemma LaterThrow(getLogs: GetLogs, signals: Signals, q: ScanArgs, first: (nat, nat), rest: seq<(nat, nat)>, chunk: nat, k: nat)
    requires RangeAnswered(getLogs, q, first) && !RangeAnnounces(getLogs, q, first)
    ensures ThrowsAt(getLogs, signals, q, [first] + rest, chunk, k + 1) <==> ThrowsAt(getLogs, signals, q, rest, chunk + 1, k)
  {
    hide RangeAnswered, RangeAnnounces;
    var ranges := [first] + rest;
    assert forall j :: 0 <= j < |rest| ==> ranges[j + 1] == rest[j];
    if ThrowsAt(getLogs, signals, q, ranges, chunk, k + 1) {
      forall j | 0 <= j < k ensures RangeAnswered(getLogs, q, rest[j]) && !RangeAnnounces(getLogs, q, rest[j]) {
        assert ranges[j + 1] == rest[j];
      }
    }
    if ThrowsAt(getLogs, signals, q, rest, chunk + 1, k) {
      forall j | 0 <= j < k + 1 ensures RangeAnswered(getLogs, q, ranges[j]) && !RangeAnnounces(getLogs, q, ranges[j]) {
        if j > 0 { assert ranges[j] == rest[j - 1]; }
      }
    }
  }

  /** A scan throws exactly if its options are rejected, or some chunk is reached at
      which the caller has gone, the time since the first clock reading exceeds the
      budget (never at the first chunk), or the node does not answer. */
  lemma ScanThrowsIff(getLogs: GetLogs, signals: Signals, q: ScanArgs)
    ensures Scan(getLogs, signals, q) == None <==>
            Rejected(q) || exists k: nat :: ThrowsAt(getLogs, signals, q, ChunkRanges(q, q.latestBlock), 0, k)
  {
    if !Rejected(q) { WalkThrowsIff(getLogs, signals, q, 0, q.latestBlock, []); }
  }

  // ---------------------------------------------------------------------
  // The ranges of a full scan tile the window
  // ---------------------------------------------------------------------

  /** Adjacent ranges, newest first, that cover [lo, hi] and are `width` wide but for the oldest. */
  ghost predicate Tiles(ranges: seq<(nat, nat)>, lo: nat, hi: nat, width: nat) {
    && |ranges| > 0
    && ranges[0].1 == hi && ranges[|ranges| - 1].0 == lo
    && (forall i :: 0 <= i < |ranges| ==> ranges[i].0 <= ranges[i].1 < ranges[i].0 + width)
    && (forall i :: 0 <= i < |ranges| - 1 ==> ranges[i].0 == ranges[i + 1].1 + 1 && ranges[i].1 == ranges[i].0 + width - 1)
  }

  lemma {:induction false} RangesTile(q: ScanArgs, last: nat)
    requires q.Valid() && q.Earliest() <= last
    ensures Tiles(ChunkRanges(q, last), q.Earliest(), last, q.blockRange)
    decreases last
  {
    var from := q.ChunkStart(last);
    if from == q.Earliest() {
      assert ChunkRanges(q, last) == [(from, last)];
    } else {
      RangesTile(q, from - 1);
      TilesExtend(ChunkRanges(q, from - 1), q.Earliest(), from - 1, q.blockRange);
    }
  }

  lemma TilesExtend(ranges: seq<(nat, nat)>, lo: nat, hi: nat, width: nat)
    requires Tiles(ranges, lo, hi, width) && width > 0
    ensures Tiles([(hi + 1, hi + width)] + ranges, lo, hi + width, width)
  {}

  lemma {:induction false} RangesCount(q: ScanArgs, last: nat)
    requires q.Valid() && q.Earliest() <= last
    ensures |ChunkRanges(q, last)| == CeilDiv(last - q.Earliest() + 1, q.blockRange)
    decreases last
  {
    var from := q.ChunkStart(last);
    if from == q.Earliest() {
      CeilDivOne(last - from + 1, q.blockRange);
    } else {
      RangesCount(q, from - 1);
      CeilDivStep(last - q.Earliest() + 1, q.blockRange);
    }
  }

  /** Every block of the window lies in exactly one range. */
  lemma {:induction false} TilesPartition(ranges: seq<(nat, nat)>, lo: nat, hi: nat, width: nat, block: nat) returns (i: nat)
    requires Tiles(ranges, lo, hi, width) && lo <= block <= hi
    ensures i < |ranges| && ranges[i].0 <= block <= ranges[i].1
    ensures forall j :: 0 <= j < |ranges| && ranges[j].0 <= block <= ranges[j].1 ==> j == i
  {
    if block >= ranges[0].0 {
      i := 0;
      forall j | 0 < j < |ranges| ensures ranges[j].1 < block {
        TilesDescend(ranges, lo, hi, width, 0, j);
      }
    } else {
      var k := TilesPartition(ranges[1..], lo, ranges[1].1, width, block);
      i := k + 1;
      forall j | 0 <= j < |ranges| && ranges[j].0 <= block <= ranges[j].1 ensures j == i {
        if j > 0 { assert ranges[1..][j - 1] == ranges[j]; }
      }
    }
  }

  lemma {:induction false} TilesDescend(ranges: seq<(nat, nat)>, lo: nat, hi: nat, width: nat, i: nat, j: nat)
    requires Tiles(ranges, lo, hi, width) && i < j < |ranges|
    ensures ranges[j].1 < ranges[i].0
    decreases j - i
  {
    if j > i + 1 { TilesDescend(ranges, lo, hi, width, i + 1, j); }
  }

  /** A scan that finds nothing asks for ceil((min(latest, lookback) + 1) / range) chunks. */
  lemma FullScanChunks(q: ScanArgs)
    requires q.Valid()
    ensures |ChunkRanges(q, q.latestBlock)| == CeilDiv(Min(q.latestBlock, q.maxLookbackBlocks) + 1, q.blockRange)
    ensures Tiles(ChunkRanges(q, q.latestBlock), q.Earliest(), q.latestBlock, q.blockRange)
  {
    RangesTile(q, q.latestBlock);
    RangesCount(q, q.latestBlock);
  }

  /** The stated bound of ceil(lookback / range) calls per contract holds exactly
      when the chain is shorter than the lookback or the range does not divide it. */
  lemma ChunkBoundHoldsIff(q: ScanArgs)
    requires q.Valid()
    ensures |ChunkRanges(q, q.latestBlock)| <= CeilDiv(q.maxLookbackBlocks, q.blockRange)
       <==> q.latestBlock < q.maxLookbackBlocks || q.maxLookbackBlocks % q.blockRange != 0
  {
    FullScanChunks(q);
    var n, r := q.maxLookbackBlocks, q.blockRange;
    if q.latestBlock < n {
      CeilDivMonotone(q.latestBlock + 1, n, r);
    } else if n % r == 0 {
      CeilDivOfMultiple(n, r);
    } else {
      CeilDivNextWithin(n, r);
    }
  }

  /** Eleven blocks are read for a lookback of ten: two chunks of ten, not one. */
  lemma ChunkBoundExceeded()
    ensures var q := ScanArgs([Address(1, 0)], Address(2, 0), 20, 10, 10, None);
            |ChunkRanges(q, q.latestBlock)| == 2 && CeilDiv(q.maxLookbackBlocks, q.blockRange) == 1
  {}
}
