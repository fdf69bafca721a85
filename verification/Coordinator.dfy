/**
 The coordinator's poll: filters, pages and rows, the counters of one cycle, and
 the per-process ledger of sign timeouts.

 `PollAll` gives the effect of one poll; the class performs it step by step.
 */
module Coordinator {
  import opened Common
  import opened SignTimeouts

  type Id = string

  // ---------------------------------------------------------------------
  // Rows and replies
  // ---------------------------------------------------------------------

  /** The parsed signing body; `target` is its facility or whitelist book. */
  datatype SigningBody = SigningBody(whitelisting: bool, hasNonce: bool, chainId: nat, target: Address)

  /** `parsed` is None when the body fails its schema. */
  datatype Row = Row(id: Id, submitted: bool, chainId: nat, facility: Address, payloadHash: nat, parsed: Option<SigningBody>)

  datatype Item = Malformed | WellFormed(row: Row)

  datatype Reservation = Reservation(nonce: nat, payloadHash: nat)

  datatype Signature = Signature(payloadHash: nat, guardian: Address)

  /** What the services answer while one row is handled. */
  datatype Reply = Reply(
    candidates: Result<seq<nat>, Thrown>,
    reservation: Result<Reservation, Thrown>,
    signed: Result<Signature, Thrown>,
    submitted: Result<(), Thrown>)

  datatype Options = Options(
    guardian: Address,
    chainIds: Option<seq<nat>>,
    facilities: Option<seq<Address>>,
    offersCandidates: bool,
    signsWhitelistings: bool,
    reply: nat -> Reply)

  datatype Outcome = Signed(nonce: Option<nat>) | Skipped | Failed(timedOut: bool)

  /** Any other error, such as a mismatch the coordinator itself detects. */
  const MISMATCH := Failed(false)

  function Caught(e: Thrown): Outcome {
    Failed(IsSignTimeout(e))
  }

  predicate FilteredOut(opts: Options, body: SigningBody) {
    (opts.chainIds.Some? && body.chainId !in opts.chainIds.value) ||
    (opts.facilities.Some? && Lower(body.target) !in opts.facilities.value)
  }

  predicate NeedsNonce(body: SigningBody) {
    body.whitelisting && !body.hasNonce
  }

  /** Signing and submitting, for the payload hash the coordinator expects. */
  function SignAndSubmit(opts: Options, body: SigningBody, expectedHash: nat, nonce: Option<nat>, reply: Reply): Outcome {
    if body.whitelisting && !opts.signsWhitelistings then MISMATCH
    else
      match reply.signed
      case Err(e) => Caught(e)
      case Ok(signature) =>
        if signature.payloadHash != expectedHash then MISMATCH
        else if Lower(signature.guardian) != Lower(opts.guardian) then MISMATCH
        else
          match reply.submitted
          case Err(e) => Caught(e)
          case Ok(_) => Signed(nonce)
  }

  /** One attempt on an open row. */
  function Attempt(opts: Options, row: Row, reply: Reply): Outcome {
    if row.parsed.None? then MISMATCH
    else
      var body := row.parsed.value;
      if row.chainId != body.chainId then MISMATCH
      else if Lower(row.facility) != Lower(body.target) then MISMATCH
      else if FilteredOut(opts, body) then Skipped
      else if NeedsNonce(body) then
        if !opts.offersCandidates then MISMATCH
        else
          match reply.candidates
          case Err(e) => Caught(e)
          case Ok(candidates) =>
            if candidates == [] then Skipped
            else
              match reply.reservation
              case Err(e) => Caught(e)
              case Ok(reserved) =>
                if reserved.nonce !in candidates then MISMATCH
                else SignAndSubmit(opts, body, reserved.payloadHash, Some(reserved.nonce), reply)
      else SignAndSubmit(opts, body, row.payloadHash, None, reply)
  }

  // ---------------------------------------------------------------------
  // The process
  // ---------------------------------------------------------------------

  datatype Stats = Stats(fetched: nat, signed: nat, skipped: nat, failed: nat) {
    function Count(o: Outcome): Stats {
      match o
      case Signed(_) => this.(signed := signed + 1)
      case Skipped => this.(skipped := skipped + 1)
      case Failed(_) => this.(failed := failed + 1)
    }

    /** Every fetched row is counted once. */
    predicate Balanced() {
      fetched == signed + skipped + failed
    }
  }

  datatype Visit = Visit(item: Item, outcome: Outcome)

  /** The ledger, the counters of the poll, and the rows and pages handled so far. */
  datatype Process = Process(timeouts: map<Id, nat>, stats: Stats, visits: seq<Visit>, pages: nat) {
    function Hits(id: Id): nat {
      if id in timeouts then timeouts[id] else 0
    }
  }

  const TIMEOUTS_BEFORE_GIVING_UP: nat := 2

  function OutcomeOf(opts: Options, hits: nat, item: Item, reply: Reply): Outcome {
    match item
    case Malformed => Failed(false)
    case WellFormed(row) =>
      if row.submitted || hits >= TIMEOUTS_BEFORE_GIVING_UP then Skipped else Attempt(opts, row, reply)
  }

  function HitsFor(p: Process, item: Item): nat {
    if item.WellFormed? then p.Hits(item.row.id) else 0
  }

  function Handle(opts: Options, p: Process, item: Item): Process {
    var o := OutcomeOf(opts, HitsFor(p, item), item, opts.reply(|p.visits|));
    Process(
      if item.WellFormed? && o == Failed(true) then p.timeouts[item.row.id := p.Hits(item.row.id) + 1] else p.timeouts,
      p.stats.Count(o),
      p.visits + [Visit(item, o)],
      p.pages)
  }

  function HandleAll(opts: Options, p: Process, items: seq<Item>): Process {
    if items == [] then p else Handle(opts, HandleAll(opts, p, items[..|items| - 1]), items[|items| - 1])
  }

  // ---------------------------------------------------------------------
  // Pages and filters
  // ---------------------------------------------------------------------

  datatype Filter = Filter(chainId: Option<nat>, facility: Option<Address>)

  datatype Page = Page(total: nat, pageSize: nat, items: seq<Item>)

  /** A page request; None when the fetch throws or its body fails the schema. */
  type Server = (Filter, nat) -> Option<Page>

  predicate LastPage(page: Page, number: nat) {
    page.items == [] || number * page.pageSize >= page.total
  }

  /** The listing ends: no page from `bound` on asks for another one. */
  ghost predicate Ends(server: Server, bound: nat) {
    forall filter, number :: number >= bound && server(filter, number).Some? ==> LastPage(server(filter, number).value, number)
  }

  function Choices<T>(configured: Option<seq<T>>): seq<Option<T>> {
    if configured.Some? && configured.value != [] then
      seq(|configured.value|, i requires 0 <= i < |configured.value| => Some(configured.value[i]))
    else [None]
  }

  function FiltersFor(chainId: Option<nat>, facilities: seq<Option<Address>>): seq<Filter> {
    seq(|facilities|, i requires 0 <= i < |facilities| => Filter(chainId, facilities[i]))
  }

  function CrossFilters(chainIds: seq<Option<nat>>, facilities: seq<Option<Address>>): seq<Filter> {
    if chainIds == [] then [] else FiltersFor(chainIds[0], facilities) + CrossFilters(chainIds[1..], facilities)
  }

  function PollFilters(opts: Options): seq<Filter> {
    CrossFilters(Choices(opts.chainIds), Choices(opts.facilities))
  }

  function ReceivePage(opts: Options, p: Process, page: Page): Process {
    HandleAll(opts, p.(stats := p.stats.(fetched := p.stats.fetched + |page.items|), pages := p.pages + 1), page.items)
  }

  /** The pages of one filter from `number` on; false when a fetch throws. */
  ghost function PollPages(opts: Options, server: Server, bound: nat, filter: Filter, number: nat, p: Process): (Process, bool)
    requires Ends(server, bound)
    decreases Max(0, bound - number)
  {
    match server(filter, number)
    case None => (p, false)
    case Some(page) =>
      var after := ReceivePage(opts, p, page);
      if LastPage(page, number) then (after, true) else PollPages(opts, server, bound, filter, number + 1, after)
  }

  ghost function PollAll(opts: Options, server: Server, bound: nat, filters: seq<Filter>, p: Process): (Process, bool)
    requires Ends(server, bound)
    decreases |filters|
  {
    if filters == [] then (p, true)
    else
      var (after, ok) := PollPages(opts, server, bound, filters[0], 1, p);
      if !ok then (after, false) else PollAll(opts, server, bound, filters[1..], after)
  }

  // ---------------------------------------------------------------------
  // The class
  // ---------------------------------------------------------------------

  class GuardianCoordinator {
    const opts: Options
    var timeouts: map<Id, nat>
    var fetched: nat
    var signed: nat
    var skipped: nat
    var failed: nat
    var visits: seq<Visit>
    var pages: nat

    constructor (opts: Options)
      ensures this.opts == opts
      ensures View() == Process(map[], Stats(0, 0, 0, 0), [], 0)
    {
      this.opts := opts;
      timeouts, visits, pages := map[], [], 0;
      fetched, signed, skipped, failed := 0, 0, 0, 0;
    }

    function View(): Process
      reads this
    {
      Process(timeouts, Stats(fetched, signed, skipped, failed), visits, pages)
    }

    method HandleItem(item: Item)
      modifies this
      ensures View() == Handle(opts, old(View()), item)
    {
      var reply := opts.reply(|visits|);
      if item.Malformed? {
        failed := failed + 1;
        visits := visits + [Visit(item, Failed(false))];
        return;
      }
      var row := item.row;
      var hits := if row.id in timeouts then timeouts[row.id] else 0;
      if row.submitted || hits >= TIMEOUTS_BEFORE_GIVING_UP {
        skipped := skipped + 1;
        visits := visits + [Visit(item, Skipped)];
        return;
      }
      var outcome := Attempt(opts, row, reply);
      match outcome {
        case Skipped => skipped := skipped + 1;
        case Signed(_) => signed := signed + 1;
        case Failed(timedOut) =>
          failed := failed + 1;
          if timedOut {
            timeouts := timeouts[row.id := hits + 1];
          }
      }
      visits := visits + [Visit(item, outcome)];
    }

    method HandlePage(page: Page)
      modifies this
      ensures View() == ReceivePage(opts, old(View()), page)
    {
      hide Handle;
      fetched := fetched + |page.items|;
      pages := pages + 1;
      ghost var start := View();
      for i := 0 to |page.items|
        invariant View() == HandleAll(opts, start, page.items[..i])
      {
        assert page.items[..i + 1][..i] == page.items[..i];
        HandleItem(page.items[i]);
      }
      assert page.items[..|page.items|] == page.items;
    }

    /** One filter's page loop; false when a fetch throws. */
    method RunFilter(server: Server, ghost bound: nat, filter: Filter) returns (ok: bool)
      requires Ends(server, bound)
      modifies this
      ensures (View(), ok) == PollPages(opts, server, bound, filter, 1, old(View()))
    {
      var number := 1;
      ghost var result := PollPages(opts, server, bound, filter, 1, View());
      while true
        invariant number >= 1
        invariant PollPages(opts, server, bound, filter, number, View()) == result
        decreases Max(0, bound - number)
      {
        var page := server(filter, number);
        if page.None? { return false; }
        HandlePage(page.value);
        if |page.value.items| == 0 || number * page.value.pageSize >= page.value.total { return true; }
        number := number + 1;
      }
    }

    method RunOnce(server: Server, ghost bound: nat) returns (ok: bool)
      requires Ends(server, bound)
      modifies this
      ensures (View(), ok) == PollAll(opts, server, bound, PollFilters(opts), old(View()))
    {
      var filters := PollFilters(opts);
      ghost var result := PollAll(opts, server, bound, filters, View());
      var i := 0;
      assert filters[0..] == filters;
      while i < |filters|
        invariant 0 <= i <= |filters|
        invariant PollAll(opts, server, bound, filters[i..], View()) == result
      {
        assert filters[i..][0] == filters[i] && filters[i..][1..] == filters[i + 1..];
        var fetchedAll := RunFilter(server, bound, filters[i]);
        if !fetchedAll { return false; }
        i := i + 1;
      }
      ok := true;
    }

    /** One cycle: fresh counters, and the poll's outcome in the heartbeat. */
    method RunCycle(server: Server, ghost bound: nat) returns (ok: bool)
      requires Ends(server, bound)
      modifies this
      ensures (View(), ok) == Cycle(opts, server, bound, old(View()))
      ensures View().stats.Balanced()
    {
      hide PollAll, PollFilters, Ends;
      ghost var before := View();
      ResetCounters();
      CycleIsBalanced(opts, server, bound, before);
      ok := RunOnce(server, bound);
    }

    method ResetCounters()
      modifies `fetched, `signed, `skipped, `failed
      ensures View() == old(View()).(stats := Stats(0, 0, 0, 0))
    {
      fetched, signed, skipped, failed := 0, 0, 0, 0;
    }
  }

  ghost function Cycle(opts: Options, server: Server, bound: nat, p: Process): (Process, bool)
    requires Ends(server, bound)
  {
    PollAll(opts, server, bound, PollFilters(opts), p.(stats := Stats(0, 0, 0, 0)))
  }

  // ---------------------------------------------------------------------
  // Conservation
  // ---------------------------------------------------------------------

  lemma {:induction false} HandleAllCounts(opts: Options, p: Process, items: seq<Item>)
    ensures var before, after := p.stats, HandleAll(opts, p, items).stats;
            after.fetched == before.fetched &&
            after.signed + after.skipped + after.failed == before.signed + before.skipped + before.failed + |items|
  {
    if items != [] { HandleAllCounts(opts, p, items[..|items| - 1]); }
  }

  lemma {:induction false} PagesAreBalanced(opts: Options, server: Server, bound: nat, filter: Filter, number: nat, p: Process)
    requires Ends(server, bound) && p.stats.Balanced()
    ensures PollPages(opts, server, bound, filter, number, p).0.stats.Balanced()
    decreases Max(0, bound - number)
  {
    hide HandleAll;
    var reply := server(filter, number);
    if reply.Some? {
      var page := reply.value;
      HandleAllCounts(opts, p.(stats := p.stats.(fetched := p.stats.fetched + |page.items|), pages := p.pages + 1), page.items);
      if !LastPage(page, number) {
        PagesAreBalanced(opts, server, bound, filter, number + 1, ReceivePage(opts, p, page));
      }
    }
  }

  /** At the end of every poll, also of one that throws on a page fetch, the fetched
      rows are the signed, skipped and failed ones. */
  lemma {:induction false} PollIsBalanced(opts: Options, server: Server, bound: nat, filters: seq<Filter>, p: Process)
    requires Ends(server, bound) && p.stats.Balanced()
    ensures PollAll(opts, server, bound, filters, p).0.stats.Balanced()
    decreases |filters|
  {
    if filters != [] {
      PagesAreBalanced(opts, server, bound, filters[0], 1, p);
      PollIsBalanced(opts, server, bound, filters[1..], PollPages(opts, server, bound, filters[0], 1, p).0);
    }
  }

  lemma CycleIsBalanced(opts: Options, server: Server, bound: nat, p: Process)
    requires Ends(server, bound)
    ensures Cycle(opts, server, bound, p).0.stats.Balanced()
  {
    PollIsBalanced(opts, server, bound, PollFilters(opts), p.(stats := Stats(0, 0, 0, 0)));
  }
}
