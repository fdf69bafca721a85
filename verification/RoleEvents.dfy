/**
 The role-events scan: a backward, chunked, early-stopping walk over the event
 log of a chain that rebuilds the role holders of a request contract.

 The walk is proved against a forward replay of the whole history.
 */
module RoleEvents {
  import opened Common

  /** A role bitfield as the set of the positions of its one-bits: `&` is
      intersection and zero is the empty set. */
  type Bits = set<nat>

  datatype Event =
    | RolesUpdated(user: Option<Address>, roles: Option<Bits>)
    | RequestCreated(request: Option<Address>)
    | FlashLoanRequestCreated(flashLoanRequest: Option<Address>)

  datatype Log = Log(emitter: Address, block: nat, index: nat, event: Event)

  /** The position of `a` on the chain is before that of `b`. */
  predicate Before(a: Log, b: Log) {
    a.block < b.block || (a.block == b.block && a.index < b.index)
  }

  /** A chain lists its logs by position; (block, index) is unique. */
  ghost predicate WellOrdered(chain: seq<Log>) {
    forall i, j :: 0 <= i < j < |chain| ==>
      chain[i].block < chain[j].block || (chain[i].block == chain[j].block && chain[i].index < chain[j].index)
  }

  type Roles = map<Address, Bits>

  // ---------------------------------------------------------------------
  // What the logs mean: a forward replay of the whole history
  // ---------------------------------------------------------------------

  predicate IsRoleLog(log: Log, request: Address) {
    log.event.RolesUpdated? && Lower(log.emitter) == Lower(request)
  }

  /** `log` announces the creation of `request` and comes from one of `factories`. */
  predicate IsCreation(log: Log, factories: seq<Address>, request: Address) {
    Lists(factories, log.emitter) &&
    match log.event
    case RequestCreated(Some(a)) => Lower(a) == Lower(request)
    case FlashLoanRequestCreated(Some(a)) => Lower(a) == Lower(request)
    case _ => false
  }

  /** Every role update of `request` in blocks `lo..hi`, in chain order. */
  function RoleLogs(chain: seq<Log>, request: Address, lo: int, hi: int): seq<Log> {
    Filter(chain, (log: Log) => IsRoleLog(log, request) && lo <= log.block <= hi)
  }

  function ApplyLog(state: Roles, log: Log): Roles {
    match log.event
    case RolesUpdated(Some(user), Some(roles)) => state[Lower(user) := roles]
    case _ => state
  }

  /** The full bitfield last announced for each user. */
  function Replay(logs: seq<Log>): Roles {
    if logs == [] then map[]
    else ApplyLog(Replay(logs[..|logs| - 1]), logs[|logs| - 1])
  }

  /** Users without any role bit are not holders. */
  function Prune(state: Roles): Roles {
    map user | user in state && state[user] != {} :: state[user]
  }

  /** The role holders of `request` after block `latest`: the reference. */
  function RolesAt(chain: seq<Log>, request: Address, latest: int): Roles {
    Prune(Replay(RoleLogs(chain, request, 0, latest)))
  }

  function HolderSet(holders: Roles, mask: Bits): set<Address> {
    set user | user in holders && holders[user] * mask != {}
  }

  /** What the two kinds of events are, by what their addresses denote. */
  lemma EventsByValue(log: Log, factories: seq<Address>, request: Address)
    ensures IsRoleLog(log, request) <==> log.event.RolesUpdated? && log.emitter.value == request.value
    ensures IsCreation(log, factories, request) <==>
            && (exists f :: f in factories && f.value == log.emitter.value)
            && ((log.event.RequestCreated? && log.event.request.Some? && log.event.request.value.value == request.value) ||
                (log.event.FlashLoanRequestCreated? && log.event.flashLoanRequest.Some? &&
                 log.event.flashLoanRequest.value.value == request.value))
  {
    ByValue({}, factories, log.emitter, request);
  }

  /** `log` announces the roles of `user`, a lower-cased address, for `request`, up to
      block `latest`. */
  predicate Announces(log: Log, request: Address, user: Address, latest: int) {
    log.event.RolesUpdated? && log.emitter.value == request.value && log.block <= latest &&
    log.event.user.Some? && log.event.roles.Some? && Address(log.event.user.value.value, 0) == user
  }

  /** Position i holds the last announcement for `user`. */
  ghost predicate LastAnnouncement(chain: seq<Log>, request: Address, user: Address, latest: int, i: nat) {
    && i < |chain|
    && Announces(chain[i], request, user, latest)
    && forall j :: i < j < |chain| ==> !Announces(chain[j], request, user, latest)
  }

  lemma {:induction false} ReplayReadsLast(chain: seq<Log>, request: Address, latest: int, user: Address)
    ensures user in Replay(RoleLogs(chain, request, 0, latest)) <==> exists i: nat :: LastAnnouncement(chain, request, user, latest, i)
    ensures forall i: nat :: LastAnnouncement(chain, request, user, latest, i) ==>
              user in Replay(RoleLogs(chain, request, 0, latest)) &&
              Replay(RoleLogs(chain, request, 0, latest))[user] == chain[i].event.roles.value
  {
    if chain != [] {
      var n := |chain| - 1;
      ReplayReadsLast(chain[..n], request, latest, user);
      RoleLogsStep(chain, request, latest);
      if Announces(chain[n], request, user, latest) {
        assert LastAnnouncement(chain, request, user, latest, n);
      } else {
        assert forall i: nat :: LastAnnouncement(chain, request, user, latest, i) <==>
                                LastAnnouncement(chain[..n], request, user, latest, i);
      }
    }
  }

  lemma RoleLogsStep(chain: seq<Log>, request: Address, latest: int)
    requires chain != []
    ensures var n := |chain| - 1;
            Replay(RoleLogs(chain, request, 0, latest)) ==
            if IsRoleLog(chain[n], request) && chain[n].block <= latest
            then ApplyLog(Replay(RoleLogs(chain[..n], request, 0, latest)), chain[n])
            else Replay(RoleLogs(chain[..n], request, 0, latest))
  {
    hide IsRoleLog, ApplyLog;
    var n := |chain| - 1;
    var p := (log: Log) => IsRoleLog(log, request) && 0 <= log.block <= latest;
    var before, logs := RoleLogs(chain[..n], request, 0, latest), RoleLogs(chain, request, 0, latest);
    assert before == Filter(chain[..n], p) && logs == Filter(chain, p);
    if p(chain[n]) {
      assert logs == before + [chain[n]];
      assert logs[..|logs| - 1] == before;
    }
  }

  /** A user holds `roles` after block `latest` iff the last announcement for the
      user up to that block says so and is not empty. */
  lemma RolesAtReadsLast(chain: seq<Log>, request: Address, latest: int, user: Address, roles: Bits)
    ensures user in RolesAt(chain, request, latest) && RolesAt(chain, request, latest)[user] == roles <==>
            roles != {} && exists i: nat :: LastAnnouncement(chain, request, user, latest, i) && chain[i].event.roles == Some(roles)
  {
    hide LastAnnouncement, RoleLogs, Replay;
    ReplayReadsLast(chain, request, latest, user);
    forall i: nat | LastAnnouncement(chain, request, user, latest, i) ensures i < |chain| && chain[i].event.RolesUpdated? && chain[i].event.roles.Some? {
      AnnouncementShape(chain, request, user, latest, i);
    }
  }

  lemma AnnouncementShape(chain: seq<Log>, request: Address, user: Address, latest: int, i: nat)
    requires LastAnnouncement(chain, request, user, latest, i)
    ensures i < |chain| && chain[i].event.RolesUpdated? && chain[i].event.roles.Some?
  {}

  lemma {:induction false} ReplayAppend(a: seq<Log>, b: seq<Log>)
    ensures Replay(a + b) == Replay(a) + Replay(b)
  {
    if b == [] {
      assert a + b == a;
    } else {
      var n := |b| - 1;
      ReplayAppend(a, b[..n]);
      assert (a + b)[..|a + b| - 1] == a + b[..n];
      assert (a + b)[|a + b| - 1] == b[n];
    }
  }

  lemma FilterOrdered(s: seq<Log>, p: Log -> bool)
    requires WellOrdered(s)
    ensures WellOrdered(Filter(s, p))
  {
    FilterPairwise(s, p, Before);
  }

  // ---------------------------------------------------------------------
  // Sorting the collected logs
  // ---------------------------------------------------------------------

  ghost predicate Sorted(s: seq<Log>) {
    forall i, j :: 0 <= i < j < |s| ==> !Before(s[j], s[i])
  }

  function InsertLog(x: Log, s: seq<Log>): (r: seq<Log>)
    ensures multiset(r) == multiset(s) + multiset{x}
  {
    if s == [] then [x]
    else if Before(x, s[0]) then [x] + s
    else
      assert s == [s[0]] + s[1..];
      [s[0]] + InsertLog(x, s[1..])
  }

  lemma {:induction false} InsertSorted(x: Log, s: seq<Log>)
    requires Sorted(s)
    ensures Sorted(InsertLog(x, s))
  {
    if s != [] && !Before(x, s[0]) {
      InsertSorted(x, s[1..]);
      var rest := InsertLog(x, s[1..]);
      forall k | 0 <= k < |rest| ensures !Before(rest[k], s[0]) {
        assert rest[k] in multiset(rest);
        assert rest[k] == x || rest[k] in s[1..];
      }
    }
  }

  /** `[...logs].sort(byBlockThenLogIndex)`. */
  function SortLogs(s: seq<Log>): (r: seq<Log>)
    ensures multiset(r) == multiset(s)
    ensures Sorted(r)
    ensures forall i, j :: 0 <= i < j < |r| ==> r[i].block < r[j].block || (r[i].block == r[j].block && r[i].index <= r[j].index)
  {
    if s == [] then []
    else
      assert s == s[..|s| - 1] + [s[|s| - 1]];
      InsertSorted(s[|s| - 1], SortLogs(s[..|s| - 1]));
      InsertLog(s[|s| - 1], SortLogs(s[..|s| - 1]))
  }

  lemma SortedHead(s: seq<Log>, t: seq<Log>)
    requires Sorted(s) && WellOrdered(t) && multiset(s) == multiset(t)
    requires |s| > 0 && |t| > 0
    ensures s[0] == t[0]
  {
    assert s[0] in multiset(t) && t[0] in multiset(s);
    var k :| 0 <= k < |t| && t[k] == s[0];
    var m :| 0 <= m < |s| && s[m] == t[0];
  }

  lemma TailMultiset(s: seq<Log>)
    requires |s| > 0
    ensures multiset(s[1..]) == multiset(s) - multiset{s[0]}
  {
    assert s == [s[0]] + s[1..];
  }

  /** Positions are unique, so there is one sorted arrangement of the logs of a chain. */
  lemma {:induction false} SortedIsUnique(s: seq<Log>, t: seq<Log>)
    requires Sorted(s) && WellOrdered(t) && multiset(s) == multiset(t)
    ensures s == t
  {
    assert |multiset(s)| == |s| && |multiset(t)| == |t|;
    if |s| > 0 {
      SortedHead(s, t);
      TailMultiset(s);
      TailMultiset(t);
      SortedIsUnique(s[1..], t[1..]);
      assert s == [s[0]] + s[1..] && t == [t[0]] + t[1..];
    }
  }
}
