/**
 What polls of the coordinator guarantee: coverage of a listing, the timeout
 ledger over a process's life, and what a submitted signature means.
 */
module CoordinatorRuns {
  import opened Common
  import opened Arithmetic
  import opened SignTimeouts
  import opened Coordinator
  import WhitelistNonces

  // ---------------------------------------------------------------------
  // Coverage of a listing that does not change
  // ---------------------------------------------------------------------

  /** The rows of page `number` of a listing. */
  function PageItems(listing: seq<Item>, pageSize: nat, number: nat): seq<Item>
    requires number >= 1
  {
    var lo, hi := (number - 1) * pageSize, number * pageSize;
    if lo >= |listing| then [] else listing[lo..Min(hi, |listing|)]
  }

  /** The server answers every page of a fixed listing per filter. */
  ghost predicate Serves(server: Server, listing: Filter -> seq<Item>, pageSize: nat) {
    forall filter, number: nat :: number >= 1 ==>
      server(filter, number) == Some(Page(|listing(filter)|, pageSize, PageItems(listing(filter), pageSize, number)))
  }

  function ItemsOf(visits: seq<Visit>): seq<Item> {
    seq(|visits|, i requires 0 <= i < |visits| => visits[i].item)
  }

  function PageCount(total: nat, pageSize: nat): nat
    requires pageSize > 0
  {
    Max(1, CeilDiv(total, pageSize))
  }

  lemma {:induction false} HandleAllVisits(opts: Options, p: Process, items: seq<Item>)
    ensures ItemsOf(HandleAll(opts, p, items).visits) == ItemsOf(p.visits) + items
    ensures HandleAll(opts, p, items).pages == p.pages
  {
    if items != [] {
      var n := |items| - 1;
      HandleAllVisits(opts, p, items[..n]);
      var before := HandleAll(opts, p, items[..n]);
      assert ItemsOf(Handle(opts, before, items[n]).visits) == ItemsOf(before.visits) + [items[n]];
      assert items == items[..n] + [items[n]];
    } else {
      assert ItemsOf(p.visits) + [] == ItemsOf(p.visits);
    }
  }

  lemma ReceiveVisits(opts: Options, p: Process, page: Page)
    ensures ItemsOf(ReceivePage(opts, p, page).visits) == ItemsOf(p.visits) + page.items
    ensures ReceivePage(opts, p, page).pages == p.pages + 1
  {
    HandleAllVisits(opts, p.(stats := p.stats.(fetched := p.stats.fetched + |page.items|), pages := p.pages + 1), page.items);
  }

  /** A page that does not end the listing is full, and the next one starts after it. */
  lemma PageSplit(listing: seq<Item>, pageSize: nat, number: nat)
    requires number >= 1 && pageSize > 0 && (number - 1) * pageSize <= |listing|
    ensures var page, rest := PageItems(listing, pageSize, number), listing[(number - 1) * pageSize..];
            if number * pageSize >= |listing| then page == rest && |rest| <= pageSize
            else |page| == pageSize && rest == page + listing[number * pageSize..] && listing[number * pageSize..] != []
  {}

  /** From a page on, `p` becomes `after`: the rest of the listing is visited in
      order, and the number of further pages follows from its length. */
  ghost predicate VisitsRest(p: Process, after: Process, rest: seq<Item>, pageSize: nat)
    requires pageSize > 0
  {
    && ItemsOf(after.visits) == ItemsOf(p.visits) + rest
    && after.pages == p.pages + PageCount(|rest|, pageSize)
  }

  lemma LastVisits(opts: Options, p: Process, page: Page, rest: seq<Item>, pageSize: nat)
    requires 0 < pageSize && |rest| <= pageSize && page.items == rest
    ensures VisitsRest(p, ReceivePage(opts, p, page), rest, pageSize)
  {
    ReceiveVisits(opts, p, page);
    OnePage(|rest|, pageSize);
  }

  lemma FurtherVisits(opts: Options, p: Process, page: Page, tail: seq<Item>, after: Process, pageSize: nat)
    requires 0 < pageSize == |page.items| && tail != []
    requires VisitsRest(ReceivePage(opts, p, page), after, tail, pageSize)
    ensures VisitsRest(p, after, page.items + tail, pageSize)
  {
    hide ReceivePage, PageCount;
    ReceiveVisits(opts, p, page);
    MorePages(|page.items + tail|, pageSize);
    assert ItemsOf(p.visits) + (page.items + tail) == (ItemsOf(p.visits) + page.items) + tail;
  }

  lemma {:induction false} PagesVisitRest(opts: Options, server: Server, bound: nat, listing: Filter -> seq<Item>, pageSize: nat,
                                          filter: Filter, number: nat, p: Process)
    requires Ends(server, bound) && Serves(server, listing, pageSize) && pageSize > 0
    requires number >= 1 && (number - 1) * pageSize <= |listing(filter)|
    ensures var (after, ok) := PollPages(opts, server, bound, filter, number, p);
            ok && VisitsRest(p, after, listing(filter)[(number - 1) * pageSize..], pageSize)
    decreases Max(0, bound - number)
  {
    hide ReceivePage, VisitsRest, PageItems;
    var all := listing(filter);
    assert server(filter, number).Some?;
    var page := server(filter, number).value;
    PageSplit(all, pageSize, number);
    if LastPage(page, number) {
      LastVisits(opts, p, page, all[(number - 1) * pageSize..], pageSize);
    } else {
      var after := ReceivePage(opts, p, page);
      PagesVisitRest(opts, server, bound, listing, pageSize, filter, number + 1, after);
      FurtherVisits(opts, p, page, all[number * pageSize..], PollPages(opts, server, bound, filter, number + 1, after).0, pageSize);
    }
  }

  lemma OnePage(total: nat, pageSize: nat)
    requires pageSize > 0 && total <= pageSize
    ensures PageCount(total, pageSize) == 1
  {
    if total == 0 {
      DivUnique(pageSize - 1, pageSize, 0, pageSize - 1);
    } else {
      CeilDivOne(total, pageSize);
    }
  }

  lemma MorePages(total: nat, pageSize: nat)
    requires 0 < pageSize < total
    ensures PageCount(total, pageSize) == 1 + PageCount(total - pageSize, pageSize)
  {
    CeilDivStep(total, pageSize);
    CeilDivMonotone(1, total - pageSize, pageSize);
    CeilDivOne(1, pageSize);
  }

  /** The listings of some filters, one after another. */
  function Listings(listing: Filter -> seq<Item>, filters: seq<Filter>): seq<Item>
    decreases |filters|
  {
    if filters == [] then [] else listing(filters[0]) + Listings(listing, filters[1..])
  }

  function PagesNeeded(listing: Filter -> seq<Item>, pageSize: nat, filters: seq<Filter>): nat
    requires pageSize > 0
    decreases |filters|
  {
    if filters == [] then 0 else PageCount(|listing(filters[0])|, pageSize) + PagesNeeded(listing, pageSize, filters[1..])
  }

  /** A poll over a listing that does not change succeeds, visits each row exactly
      once per filter, in order, and fetches max(1, ceil(total / pageSize)) pages
      per filter. */
  lemma {:induction false} PollCoversListing(opts: Options, server: Server, bound: nat, listing: Filter -> seq<Item>, pageSize: nat,
                                             filters: seq<Filter>, p: Process)
    requires Ends(server, bound) && Serves(server, listing, pageSize) && pageSize > 0
    ensures var (after, ok) := PollAll(opts, server, bound, filters, p);
            && ok
            && ItemsOf(after.visits) == ItemsOf(p.visits) + Listings(listing, filters)
            && after.pages == p.pages + PagesNeeded(listing, pageSize, filters)
    decreases |filters|
  {
    hide Serves, PollPages, PageCount, ItemsOf;
    if filters == [] {
      assert ItemsOf(p.visits) + [] == ItemsOf(p.visits);
    } else {
      PagesVisitRest(opts, server, bound, listing, pageSize, filters[0], 1, p);
      assert listing(filters[0])[0 * pageSize..] == listing(filters[0]);
      var after := PollPages(opts, server, bound, filters[0], 1, p).0;
      PollCoversListing(opts, server, bound, listing, pageSize, filters[1..], after);
      assert ItemsOf(p.visits) + (listing(filters[0]) + Listings(listing, filters[1..])) ==
             (ItemsOf(p.visits) + listing(filters[0])) + Listings(listing, filters[1..]);
    }
  }

  /** Page `last` ends the loop over one filter: it cannot be fetched, is empty, or
      reaches the total it names, and no page before it does. */
  ghost predicate StopsAt(server: Server, filter: Filter, number: nat, last: nat) {
    && number <= last
    && (forall j :: number <= j < last ==>
          server(filter, j).Some? && |server(filter, j).value.items| > 0 &&
          j * server(filter, j).value.pageSize < server(filter, j).value.total)
    && (server(filter, last).Some? ==>
          |server(filter, last).value.items| == 0 ||
          last * server(filter, last).value.pageSize >= server(filter, last).value.total)
  }

  /** The rows of the pages `number` to `last`, as far as they are answered. */
  function RowsOf(server: Server, filter: Filter, number: nat, last: nat): seq<Item>
    decreases last - number
  {
    var rows := if server(filter, number).Some? then server(filter, number).value.items else [];
    if number >= last then rows else rows + RowsOf(server, filter, number + 1, last)
  }

  lemma {:induction false} PagesVisitAnswered(opts: Options, server: Server, bound: nat, filter: Filter, number: nat, last: nat, p: Process)
    requires Ends(server, bound) && StopsAt(server, filter, number, last)
    ensures var (after, ok) := PollPages(opts, server, bound, filter, number, p);
            && (ok <==> server(filter, last).Some?)
            && ItemsOf(after.visits) == ItemsOf(p.visits) + RowsOf(server, filter, number, last)
    decreases last - number
  {
    hide ReceivePage, ItemsOf;
    if server(filter, number).None? {
      assert ItemsOf(p.visits) + [] == ItemsOf(p.visits);
    } else {
      var page := server(filter, number).value;
      ReceiveVisits(opts, p, page);
      if number < last {
        var after := ReceivePage(opts, p, page);
        PagesVisitAnswered(opts, server, bound, filter, number + 1, last, after);
        var rest := RowsOf(server, filter, number + 1, last);
        assert ItemsOf(p.visits) + (page.items + rest) == (ItemsOf(p.visits) + page.items) + rest;
      }
    }
  }

  /** The rows of the filters in turn, up to the first one whose last page cannot be
      fetched; `last[i]` is the last page asked for under filter i. */
  function RowsOfAll(server: Server, filters: seq<Filter>, last: seq<nat>): seq<Item>
    requires |last| == |filters|
    decreases |filters|
  {
    if filters == [] then []
    else
      RowsOf(server, filters[0], 1, last[0]) +
      (if server(filters[0], last[0]).Some? then RowsOfAll(server, filters[1..], last[1..]) else [])
  }

  /** Against any server, a poll visits the rows of each page it asks for, once and in
      order, goes on exactly past a nonempty page that does not reach its total, and
      succeeds exactly if it could fetch every page it asked for. */
  lemma {:induction false} PollVisitsAnswered(opts: Options, server: Server, bound: nat, filters: seq<Filter>, last: seq<nat>, p: Process)
    requires Ends(server, bound) && |last| == |filters|
    requires forall i :: 0 <= i < |filters| ==> StopsAt(server, filters[i], 1, last[i])
    ensures var (after, ok) := PollAll(opts, server, bound, filters, p);
            && (ok <==> forall i :: 0 <= i < |filters| ==> server(filters[i], last[i]).Some?)
            && ItemsOf(after.visits) == ItemsOf(p.visits) + RowsOfAll(server, filters, last)
    decreases |filters|
  {
    hide PollPages, ItemsOf, RowsOf, StopsAt;
    if filters == [] {
      assert ItemsOf(p.visits) + [] == ItemsOf(p.visits);
    } else {
      PagesVisitAnswered(opts, server, bound, filters[0], 1, last[0], p);
      var (after, ok) := PollPages(opts, server, bound, filters[0], 1, p);
      var first := RowsOf(server, filters[0], 1, last[0]);
      if ok {
        PollVisitsAnswered(opts, server, bound, filters[1..], last[1..], after);
        var rest := RowsOfAll(server, filters[1..], last[1..]);
        assert ItemsOf(p.visits) + (first + rest) == (ItemsOf(p.visits) + first) + rest;
        EveryFetch(server, filters, last);
      } else {
        assert first + [] == first;
      }
    }
  }

  lemma EveryFetch(server: Server, filters: seq<Filter>, last: seq<nat>)
    requires |last| == |filters| && filters != []
    ensures (forall i :: 0 <= i < |filters| ==> server(filters[i], last[i]).Some?) <==>
            server(filters[0], last[0]).Some? &&
            forall i :: 0 <= i < |filters[1..]| ==> server(filters[1..][i], last[1..][i]).Some?
  {
    if forall i :: 0 <= i < |filters[1..]| ==> server(filters[1..][i], last[1..][i]).Some? {
      forall i | 1 <= i < |filters| ensures server(filters[i], last[i]).Some? {
        assert filters[1..][i - 1] == filters[i] && last[1..][i - 1] == last[i];
      }
    }
    if forall i :: 0 <= i < |filters| ==> server(filters[i], last[i]).Some? {
      forall i | 0 <= i < |filters[1..]| ensures server(filters[1..][i], last[1..][i]).Some? {
        assert filters[1..][i] == filters[i + 1];
      }
    }
  }

  /** Such a listing ends: the loop needs no other assumption to terminate. */
  lemma ServedListingEnds(server: Server, listing: Filter -> seq<Item>, pageSize: nat, total: nat)
    requires Serves(server, listing, pageSize) && pageSize > 0
    requires forall filter :: |listing(filter)| <= total
    ensures Ends(server, total + 1)
  {
    forall filter, number | number >= total + 1 && server(filter, number).Some?
      ensures LastPage(server(filter, number).value, number)
    {
      assert server(filter, number) == Some(Page(|listing(filter)|, pageSize, PageItems(listing(filter), pageSize, number)));
      PagesOutrun(number, pageSize);
    }
  }

  lemma PagesOutrun(number: nat, pageSize: nat)
    requires pageSize > 0
    ensures number * pageSize >= number
  {}

  lemma {:induction false} CrossContains(chainIds: seq<Option<nat>>, facilities: seq<Option<Address>>, filter: Filter)
    ensures filter in CrossFilters(chainIds, facilities) <==> filter.chainId in chainIds && filter.facility in facilities
    ensures |CrossFilters(chainIds, facilities)| == |chainIds| * |facilities|
  {
    if chainIds != [] {
      CrossContains(chainIds[1..], facilities, filter);
      var first := FiltersFor(chainIds[0], facilities);
      assert filter in first <==> filter.chainId == chainIds[0] && filter.facility in facilities by {
        if i :| 0 <= i < |facilities| && facilities[i] == filter.facility { assert first[i] == Filter(chainIds[0], filter.facility); }
      }
      assert |chainIds| * |facilities| == |facilities| + (|chainIds| - 1) * |facilities|;
    }
  }

  /** The filters are all pairs of a configured chain and a configured facility, an
      absent or empty set standing for "any". */
  lemma FiltersAreAllPairs(opts: Options, filter: Filter)
    ensures filter in PollFilters(opts) <==> ChoiceOf(opts.chainIds, filter.chainId) && ChoiceOf(opts.facilities, filter.facility)
    ensures |PollFilters(opts)| ==
            (if opts.chainIds.Some? && opts.chainIds.value != [] then |opts.chainIds.value| else 1) *
            (if opts.facilities.Some? && opts.facilities.value != [] then |opts.facilities.value| else 1)
  {
    ChoicesAre(opts.chainIds, filter.chainId);
    ChoicesAre(opts.facilities, filter.facility);
    CrossContains(Choices(opts.chainIds), Choices(opts.facilities), filter);
  }

  /** A configured member, or "any" when the set is absent or empty. */
  ghost predicate ChoiceOf<T(!new)>(configured: Option<seq<T>>, choice: Option<T>) {
    if configured.Some? && configured.value != [] then choice.Some? && choice.value in configured.value else choice.None?
  }

  lemma ChoicesAre<T(!new)>(configured: Option<seq<T>>, choice: Option<T>)
    ensures choice in Choices(configured) <==> ChoiceOf(configured, choice)
  {
    if ChoiceOf(configured, choice) && choice.Some? {
      var i :| 0 <= i < |configured.value| && configured.value[i] == choice.value;
      assert Choices(configured)[i] == choice;
    }
  }

  // ---------------------------------------------------------------------
  // The timeout ledger over a process's life
  // ---------------------------------------------------------------------

  /** One poll of a process: its server, when its listing ends, and its replies. */
  datatype PollInput = PollInput(server: Server, bound: nat)

  ghost function Polls(opts: Options, p: Process, polls: seq<PollInput>): Process
    requires forall i :: 0 <= i < |polls| ==> Ends(polls[i].server, polls[i].bound)
  {
    if polls == [] then p
    else
      var last := polls[|polls| - 1];
      Cycle(opts, last.server, last.bound, Polls(opts, p, polls[..|polls| - 1])).0
  }

  const NEW_PROCESS := Process(map[], Stats(0, 0, 0, 0), [], 0)

  /** Sign timeouts of request `id` among the visits. */
  function Timeouts(visits: seq<Visit>, id: Id): nat {
    if visits == [] then 0
    else
      var v := visits[|visits| - 1];
      Timeouts(visits[..|visits| - 1], id) +
      (if v.item.WellFormed? && v.item.row.id == id && v.outcome == Failed(true) then 1 else 0)
  }

  /** The ledger counts timeouts, and every visit was decided by the row, the reply
      and the timeouts of its own id before it, and by nothing else. */
  ghost predicate LedgerExact(opts: Options, p: Process) {
    && (forall id :: p.Hits(id) == Timeouts(p.visits, id) <= TIMEOUTS_BEFORE_GIVING_UP)
    && (forall i :: 0 <= i < |p.visits| ==>
          var item := p.visits[i].item;
          p.visits[i].outcome ==
          OutcomeOf(opts, if item.WellFormed? then Timeouts(p.visits[..i], item.row.id) else 0, item, opts.reply(i)))
  }

  lemma HandleKeepsLedger(opts: Options, p: Process, item: Item)
    requires LedgerExact(opts, p)
    ensures LedgerExact(opts, Handle(opts, p, item))
  {
    hide Attempt;
    var after := Handle(opts, p, item);
    var n := |p.visits|;
    assert after.visits[..n] == p.visits;
    forall id ensures after.Hits(id) == Timeouts(after.visits, id) <= TIMEOUTS_BEFORE_GIVING_UP {
      assert after.visits[..|after.visits| - 1] == p.visits;
    }
    forall i | 0 <= i < |after.visits|
      ensures var it := after.visits[i].item;
              after.visits[i].outcome ==
              OutcomeOf(opts, if it.WellFormed? then Timeouts(after.visits[..i], it.row.id) else 0, it, opts.reply(i))
    {
      if i < n {
        assert after.visits[i] == p.visits[i] && after.visits[..i] == p.visits[..i];
      }
    }
  }

  lemma {:induction false} HandleAllKeepsLedger(opts: Options, p: Process, items: seq<Item>)
    requires LedgerExact(opts, p)
    ensures LedgerExact(opts, HandleAll(opts, p, items))
  {
    hide LedgerExact, Handle;
    if items != [] {
      HandleAllKeepsLedger(opts, p, items[..|items| - 1]);
      HandleKeepsLedger(opts, HandleAll(opts, p, items[..|items| - 1]), items[|items| - 1]);
    }
  }

  /** Counters do not enter the ledger. */
  lemma CountersAreApart(opts: Options, p: Process, stats: Stats, pages: nat)
    requires LedgerExact(opts, p)
    ensures LedgerExact(opts, p.(stats := stats, pages := pages))
  {}

  lemma {:induction false} PagesKeepLedger(opts: Options, server: Server, bound: nat, filter: Filter, number: nat, p: Process)
    requires Ends(server, bound) && LedgerExact(opts, p)
    ensures LedgerExact(opts, PollPages(opts, server, bound, filter, number, p).0)
    decreases Max(0, bound - number)
  {
    hide LedgerExact, Handle, HandleAll;
    var reply := server(filter, number);
    if reply.Some? {
      var page := reply.value;
      var stats := p.stats.(fetched := p.stats.fetched + |page.items|);
      CountersAreApart(opts, p, stats, p.pages + 1);
      HandleAllKeepsLedger(opts, p.(stats := stats, pages := p.pages + 1), page.items);
      if !LastPage(page, number) {
        PagesKeepLedger(opts, server, bound, filter, number + 1, ReceivePage(opts, p, page));
      }
    }
  }

  lemma {:induction false} PollKeepsLedger(opts: Options, server: Server, bound: nat, filters: seq<Filter>, p: Process)
    requires Ends(server, bound) && LedgerExact(opts, p)
    ensures LedgerExact(opts, PollAll(opts, server, bound, filters, p).0)
    decreases |filters|
  {
    hide LedgerExact, PollPages;
    if filters != [] {
      PagesKeepLedger(opts, server, bound, filters[0], 1, p);
      PollKeepsLedger(opts, server, bound, filters[1..], PollPages(opts, server, bound, filters[0], 1, p).0);
    }
  }

  lemma {:induction false} PollsKeepLedger(opts: Options, polls: seq<PollInput>)
    requires forall i :: 0 <= i < |polls| ==> Ends(polls[i].server, polls[i].bound)
    ensures LedgerExact(opts, Polls(opts, NEW_PROCESS, polls))
  {
    if polls != [] {
      hide LedgerExact, PollAll;
      var n := |polls| - 1;
      PollsKeepLedger(opts, polls[..n]);
      var before := Polls(opts, NEW_PROCESS, polls[..n]);
      var fresh_ := before.(stats := Stats(0, 0, 0, 0), pages := before.pages);
      CountersAreApart(opts, before, Stats(0, 0, 0, 0), before.pages);
      assert fresh_ == before.(stats := Stats(0, 0, 0, 0));
      PollKeepsLedger(opts, polls[n].server, polls[n].bound, PollFilters(opts), fresh_);
    }
  }

  /** Over any number of polls by one process each request times out at most twice;
      after the second timeout it is only ever skipped; and as long as it has timed
      out less often, an open row is attempted on every visit, whatever else
      failed before and whatever happened to other requests. */
  lemma TwoTimeoutsAtMost(opts: Options, polls: seq<PollInput>, id: Id)
    requires forall i :: 0 <= i < |polls| ==> Ends(polls[i].server, polls[i].bound)
    ensures var visits := Polls(opts, NEW_PROCESS, polls).visits;
            && Timeouts(visits, id) <= TIMEOUTS_BEFORE_GIVING_UP
            && forall i :: 0 <= i < |visits| && visits[i].item.WellFormed? && visits[i].item.row.id == id ==>
                 var row := visits[i].item.row;
                 if row.submitted || Timeouts(visits[..i], id) == TIMEOUTS_BEFORE_GIVING_UP then visits[i].outcome == Skipped
                 else visits[i].outcome == Attempt(opts, row, opts.reply(i))
  {
    hide Attempt, Polls;
    PollsKeepLedger(opts, polls);
    var p := Polls(opts, NEW_PROCESS, polls);
    assert p.Hits(id) == Timeouts(p.visits, id);
    forall i | 0 <= i < |p.visits| ensures Timeouts(p.visits[..i], id) <= TIMEOUTS_BEFORE_GIVING_UP {
      TimeoutsGrow(p.visits, i, id);
    }
  }

  lemma {:induction false} TimeoutsGrow(visits: seq<Visit>, i: nat, id: Id)
    requires i <= |visits|
    ensures Timeouts(visits[..i], id) <= Timeouts(visits, id)
  {
    if i < |visits| {
      assert visits[..|visits| - 1][..i] == visits[..i];
      TimeoutsGrow(visits[..|visits| - 1], i, id);
    } else {
      assert visits[..i] == visits;
    }
  }

  /** The row's metadata names the chain and the facility of its own body. */
  predicate MetadataMatches(row: Row) {
    row.parsed.Some? && row.chainId == row.parsed.value.chainId && row.facility.value == row.parsed.value.target.value
  }

  /** The configured sets, if any, hold the chain and the lower-cased facility of the body. */
  predicate PassesFilters(opts: Options, body: SigningBody) {
    && (opts.chainIds.Some? ==> body.chainId in opts.chainIds.value)
    && (opts.facilities.Some? ==> Address(body.target.value, 0) in opts.facilities.value)
  }

  /** Nothing stands between the row and the guardian's signature. */
  predicate ReachesSigning(opts: Options, row: Row, reply: Reply) {
    && MetadataMatches(row) && PassesFilters(opts, row.parsed.value)
    && (row.parsed.value.whitelisting ==> opts.signsWhitelistings)
    && (row.parsed.value.whitelisting && !row.parsed.value.hasNonce ==>
          && opts.offersCandidates && reply.candidates.Ok? && reply.reservation.Ok?
          && reply.reservation.value.nonce in reply.candidates.value)
  }

  /** Visits of request `id`. */
  function VisitsOf(visits: seq<Visit>, id: Id): nat {
    if visits == [] then 0
    else
      var v := visits[|visits| - 1];
      VisitsOf(visits[..|visits| - 1], id) + (if v.item.WellFormed? && v.item.row.id == id then 1 else 0)
  }

  /** Every visit of request `id` finds it open, and the guardian outlasts the budget. */
  ghost predicate AlwaysOutlasts(opts: Options, visits: seq<Visit>, id: Id, signMs: Millis) {
    forall i :: 0 <= i < |visits| && visits[i].item.WellFormed? && visits[i].item.row.id == id ==>
      && !visits[i].item.row.submitted
      && ReachesSigning(opts, visits[i].item.row, opts.reply(i))
      && opts.reply(i).signed == Err(DeadlineError(signMs))
  }

  lemma OutlastedAttempt(opts: Options, row: Row, reply: Reply, signMs: Millis)
    requires ReachesSigning(opts, row, reply) && reply.signed == Err(DeadlineError(signMs))
    ensures Attempt(opts, row, reply) == Failed(signMs.Whole?)
  {
    TimeoutRecognisedIff(signMs);
  }

  /** Every visit of request `id` was decided by the timeouts of that request before it. */
  ghost predicate DecidedByLedger(opts: Options, visits: seq<Visit>, id: Id) {
    forall i :: 0 <= i < |visits| && visits[i].item.WellFormed? && visits[i].item.row.id == id ==>
      visits[i].outcome == OutcomeOf(opts, Timeouts(visits[..i], id), visits[i].item, opts.reply(i))
  }

  lemma PrefixOutlasts(opts: Options, visits: seq<Visit>, id: Id, signMs: Millis, n: nat)
    requires n <= |visits| && AlwaysOutlasts(opts, visits, id, signMs) && DecidedByLedger(opts, visits, id)
    ensures AlwaysOutlasts(opts, visits[..n], id, signMs) && DecidedByLedger(opts, visits[..n], id)
  {
    hide OutcomeOf, ReachesSigning, DeadlineError, Timeouts;
    assert forall i :: 0 <= i < n ==> visits[..n][i] == visits[i] && visits[..n][..i] == visits[..i];
  }

  lemma OutlastedVisit(opts: Options, visits: seq<Visit>, id: Id, signMs: Millis, i: nat)
    requires i < |visits| && visits[i].item.WellFormed? && visits[i].item.row.id == id
    requires AlwaysOutlasts(opts, visits, id, signMs) && DecidedByLedger(opts, visits, id)
    ensures visits[i].outcome ==
            if Timeouts(visits[..i], id) >= TIMEOUTS_BEFORE_GIVING_UP then Skipped else Failed(signMs.Whole?)
  {
    hide Attempt, ReachesSigning, DeadlineError, Timeouts;
    OutlastedAttempt(opts, visits[i].item.row, opts.reply(i), signMs);
  }

  /** The ledger against the number of visits, for a guardian that never answers in time. */
  lemma {:induction false} TimeoutsCountVisits(opts: Options, visits: seq<Visit>, id: Id, signMs: Millis)
    requires AlwaysOutlasts(opts, visits, id, signMs) && DecidedByLedger(opts, visits, id)
    ensures Timeouts(visits, id) == if signMs.Whole? then Min(TIMEOUTS_BEFORE_GIVING_UP, VisitsOf(visits, id)) else 0
  {
    if visits != [] {
      hide AlwaysOutlasts, DecidedByLedger;
      var n := |visits| - 1;
      PrefixOutlasts(opts, visits, id, signMs, n);
      TimeoutsCountVisits(opts, visits[..n], id, signMs);
      if visits[n].item.WellFormed? && visits[n].item.row.id == id { OutlastedVisit(opts, visits, id, signMs, n); }
    }
  }

  lemma LedgerDecides(opts: Options, p: Process, id: Id)
    requires LedgerExact(opts, p)
    ensures DecidedByLedger(opts, p.visits, id)
  {}

  /** A guardian that outlasts its budget on every visit of a request is given up on
      after two visits exactly when the budget is a whole number of milliseconds;
      with any other budget no timeout is counted and every visit is an attempt. */
  lemma GivingUpNeedsWholeBudget(opts: Options, polls: seq<PollInput>, id: Id, signMs: Millis)
    requires forall i :: 0 <= i < |polls| ==> Ends(polls[i].server, polls[i].bound)
    requires AlwaysOutlasts(opts, Polls(opts, NEW_PROCESS, polls).visits, id, signMs)
    ensures var visits := Polls(opts, NEW_PROCESS, polls).visits;
            && Timeouts(visits, id) == (if signMs.Whole? then Min(TIMEOUTS_BEFORE_GIVING_UP, VisitsOf(visits, id)) else 0)
            && forall i :: 0 <= i < |visits| && visits[i].item.WellFormed? && visits[i].item.row.id == id ==>
                 visits[i].outcome ==
                 if signMs.Whole? && VisitsOf(visits[..i], id) >= TIMEOUTS_BEFORE_GIVING_UP then Skipped else Failed(signMs.Whole?)
  {
    hide Polls, AlwaysOutlasts, DecidedByLedger, LedgerExact, Timeouts, VisitsOf;
    PollsKeepLedger(opts, polls);
    LedgerDecides(opts, Polls(opts, NEW_PROCESS, polls), id);
    var visits := Polls(opts, NEW_PROCESS, polls).visits;
    TimeoutsCountVisits(opts, visits, id, signMs);
    forall i | 0 <= i < |visits| && visits[i].item.WellFormed? && visits[i].item.row.id == id
      ensures visits[i].outcome ==
              if signMs.Whole? && VisitsOf(visits[..i], id) >= TIMEOUTS_BEFORE_GIVING_UP then Skipped else Failed(signMs.Whole?)
    {
      PrefixOutlasts(opts, visits, id, signMs, i);
      TimeoutsCountVisits(opts, visits[..i], id, signMs);
      OutlastedVisit(opts, visits, id, signMs, i);
    }
  }

  // ---------------------------------------------------------------------
  // What a submitted signature means
  // ---------------------------------------------------------------------

  /** The row's metadata matches its body, the filters admit it, and the guardian's own
      signature was accepted: for a whitelisting without a nonce, over the hash of a
      nonce reserved from the offered candidates, and for any other row over its own hash. */
  predicate ProperlySigned(opts: Options, row: Row, reply: Reply) {
    && MetadataMatches(row) && PassesFilters(opts, row.parsed.value)
    && (row.parsed.value.whitelisting ==> opts.signsWhitelistings)
    && reply.signed.Ok? && reply.submitted.Ok? && reply.signed.value.guardian.value == opts.guardian.value
    && if row.parsed.value.whitelisting && !row.parsed.value.hasNonce then
         && opts.offersCandidates && reply.candidates.Ok? && reply.reservation.Ok?
         && reply.reservation.value.nonce in reply.candidates.value
         && reply.signed.value.payloadHash == reply.reservation.value.payloadHash
       else
         reply.signed.value.payloadHash == row.payloadHash
  }

  /** The nonce submitted with a signature: the reserved one, for a whitelisting without a nonce. */
  function NonceFor(row: Row, reply: Reply): Option<nat> {
    if row.parsed.Some? && row.parsed.value.whitelisting && !row.parsed.value.hasNonce && reply.reservation.Ok?
    then Some(reply.reservation.value.nonce) else None
  }

  lemma SignedIff(opts: Options, row: Row, reply: Reply)
    ensures Attempt(opts, row, reply).Signed? <==> ProperlySigned(opts, row, reply)
    ensures ProperlySigned(opts, row, reply) ==> Attempt(opts, row, reply) == Signed(NonceFor(row, reply))
  {}

  /** A row is left for later if the filters exclude it, or no candidate nonce is offered. */
  predicate LeftAlone(opts: Options, row: Row, reply: Reply) {
    MetadataMatches(row) &&
    (!PassesFilters(opts, row.parsed.value) ||
     (row.parsed.value.whitelisting && !row.parsed.value.hasNonce && opts.offersCandidates && reply.candidates == Ok([])))
  }

  lemma SkippedIff(opts: Options, row: Row, reply: Reply)
    ensures Attempt(opts, row, reply) == Skipped <==> LeftAlone(opts, row, reply)
  {}

  /** The service gave up with the text of a sign deadline. */
  predicate SaysTimeout<T>(r: Result<T, Thrown>) {
    r.Err? && r.error.upstream && MatchesTimeout(r.error.message)
  }

  /** Signing payload `hash` or submitting the accepted signature ran into a deadline. */
  predicate SignTimesOut(opts: Options, body: SigningBody, hash: nat, reply: Reply) {
    && (body.whitelisting ==> opts.signsWhitelistings)
    && (|| SaysTimeout(reply.signed)
        || (reply.signed.Ok? && reply.signed.value.payloadHash == hash &&
            reply.signed.value.guardian.value == opts.guardian.value && SaysTimeout(reply.submitted)))
  }

  /** The attempt on the row ended in a sign deadline: the first service on its way that
      failed says so. */
  predicate TimesOut(opts: Options, row: Row, reply: Reply) {
    && MetadataMatches(row) && PassesFilters(opts, row.parsed.value)
    && if row.parsed.value.whitelisting && !row.parsed.value.hasNonce then
         opts.offersCandidates &&
         (|| SaysTimeout(reply.candidates)
          || (reply.candidates.Ok? && reply.candidates.value != [] &&
              (|| SaysTimeout(reply.reservation)
               || (reply.reservation.Ok? && reply.reservation.value.nonce in reply.candidates.value &&
                   SignTimesOut(opts, row.parsed.value, reply.reservation.value.payloadHash, reply)))))
       else
         SignTimesOut(opts, row.parsed.value, row.payloadHash, reply)
  }

  lemma TimesOutIff(opts: Options, row: Row, reply: Reply)
    ensures Attempt(opts, row, reply) == Failed(true) <==> TimesOut(opts, row, reply)
  {
    hide MatchesTimeout;
  }

  /** Visit i must count as a sign timeout. */
  predicate DueTimeout(opts: Options, visits: seq<Visit>, i: nat)
    requires i < |visits|
  {
    && visits[i].item.WellFormed? && !visits[i].item.row.submitted
    && Timeouts(visits[..i], visits[i].item.row.id) < 2
    && TimesOut(opts, visits[i].item.row, opts.reply(i))
  }

  datatype Kind = SignedKind | SkippedKind | FailedKind

  function KindOf(o: Outcome): Kind {
    match o
    case Signed(_) => SignedKind
    case Skipped => SkippedKind
    case Failed(_) => FailedKind
  }

  /** How visit i must end: malformed rows fail; submitted rows and those that have timed
      out twice are skipped; any other is attempted. */
  function DueKind(opts: Options, visits: seq<Visit>, i: nat): Kind
    requires i < |visits|
  {
    match visits[i].item
    case Malformed => FailedKind
    case WellFormed(row) =>
      if row.submitted || Timeouts(visits[..i], row.id) >= 2 || LeftAlone(opts, row, opts.reply(i)) then SkippedKind
      else if ProperlySigned(opts, row, opts.reply(i)) then SignedKind
      else FailedKind
  }

  /** Visits among the first n that must end so. */
  function CountDue(opts: Options, visits: seq<Visit>, n: nat, kind: Kind): nat
    requires n <= |visits|
  {
    if n == 0 then 0 else CountDue(opts, visits, n - 1, kind) + (if DueKind(opts, visits, n - 1) == kind then 1 else 0)
  }

  function CountKind(visits: seq<Visit>, kind: Kind): nat {
    if visits == [] then 0
    else CountKind(visits[..|visits| - 1], kind) + (if KindOf(visits[|visits| - 1].outcome) == kind then 1 else 0)
  }

  function Counter(stats: Stats, kind: Kind): nat {
    match kind
    case SignedKind => stats.signed
    case SkippedKind => stats.skipped
    case FailedKind => stats.failed
  }

  lemma {:induction false} HandleAllTallies(opts: Options, p: Process, items: seq<Item>, kind: Kind)
    ensures var after := HandleAll(opts, p, items);
            Counter(after.stats, kind) - CountKind(after.visits, kind) == Counter(p.stats, kind) - CountKind(p.visits, kind)
  {
    if items != [] {
      hide OutcomeOf;
      var n := |items| - 1;
      HandleAllTallies(opts, p, items[..n], kind);
      var before := HandleAll(opts, p, items[..n]);
      var visits := Handle(opts, before, items[n]).visits;
      assert visits[..|visits| - 1] == before.visits;
    }
  }

  lemma {:induction false} PagesTally(opts: Options, server: Server, bound: nat, filter: Filter, number: nat, p: Process, kind: Kind)
    requires Ends(server, bound)
    ensures var after := PollPages(opts, server, bound, filter, number, p).0;
            Counter(after.stats, kind) - CountKind(after.visits, kind) == Counter(p.stats, kind) - CountKind(p.visits, kind)
    decreases Max(0, bound - number)
  {
    hide HandleAll, CountKind;
    var reply := server(filter, number);
    if reply.Some? {
      var page := reply.value;
      HandleAllTallies(opts, p.(stats := p.stats.(fetched := p.stats.fetched + |page.items|), pages := p.pages + 1), page.items, kind);
      if !LastPage(page, number) {
        PagesTally(opts, server, bound, filter, number + 1, ReceivePage(opts, p, page), kind);
      }
    }
  }

  lemma {:induction false} PollTallies(opts: Options, server: Server, bound: nat, filters: seq<Filter>, p: Process, kind: Kind)
    requires Ends(server, bound)
    ensures var after := PollAll(opts, server, bound, filters, p).0;
            Counter(after.stats, kind) - CountKind(after.visits, kind) == Counter(p.stats, kind) - CountKind(p.visits, kind)
    decreases |filters|
  {
    hide PollPages, CountKind;
    if filters != [] {
      PagesTally(opts, server, bound, filters[0], 1, p, kind);
      PollTallies(opts, server, bound, filters[1..], PollPages(opts, server, bound, filters[0], 1, p).0, kind);
    }
  }

  /** By the ledger, every visit ends as it must. */
  lemma {:induction false} VisitsAreDue(opts: Options, p: Process, n: nat, kind: Kind)
    requires LedgerExact(opts, p) && n <= |p.visits|
    ensures CountKind(p.visits[..n], kind) == CountDue(opts, p.visits, n, kind)
  {
    if n > 0 {
      hide DueKind;
      VisitsAreDue(opts, p, n - 1, kind);
      assert p.visits[..n][..n - 1] == p.visits[..n - 1];
      VisitEnds(opts, p, n - 1);
    }
  }

  lemma VisitEnds(opts: Options, p: Process, i: nat)
    requires LedgerExact(opts, p) && i < |p.visits|
    ensures KindOf(p.visits[i].outcome) == DueKind(opts, p.visits, i)
    ensures p.visits[i].outcome.Signed? ==>
              p.visits[i].item.WellFormed? && p.visits[i].outcome == Signed(NonceFor(p.visits[i].item.row, opts.reply(i)))
    ensures p.visits[i].outcome == Failed(true) <==> DueTimeout(opts, p.visits, i)
  {
    hide Attempt, ProperlySigned, LeftAlone, TimesOut, Timeouts;
    var item := p.visits[i].item;
    if item.WellFormed? {
      SignedIff(opts, item.row, opts.reply(i));
      SkippedIff(opts, item.row, opts.reply(i));
      TimesOutIff(opts, item.row, opts.reply(i));
    }
  }

  /** The counters of a poll, after any number of polls by one process, are exact: each
      is the number of rows visited in that poll that must end so; a visit counts as a
      sign timeout exactly when its attempt ran into one; and every signature is
      submitted with the nonce that goes with it. */
  lemma CountersAreExact(opts: Options, polls: seq<PollInput>, kind: Kind)
    requires polls != [] && forall i :: 0 <= i < |polls| ==> Ends(polls[i].server, polls[i].bound)
    ensures var before, after := Polls(opts, NEW_PROCESS, polls[..|polls| - 1]), Polls(opts, NEW_PROCESS, polls);
            && |before.visits| <= |after.visits| && before.visits == after.visits[..|before.visits|]
            && Counter(after.stats, kind) ==
               CountDue(opts, after.visits, |after.visits|, kind) - CountDue(opts, after.visits, |before.visits|, kind)
            && forall i :: 0 <= i < |after.visits| ==>
                 && KindOf(after.visits[i].outcome) == DueKind(opts, after.visits, i)
                 && (after.visits[i].outcome == Failed(true) <==> DueTimeout(opts, after.visits, i))
                 && (after.visits[i].outcome.Signed? ==>
                       && after.visits[i].item.WellFormed?
                       && after.visits[i].outcome == Signed(NonceFor(after.visits[i].item.row, opts.reply(i))))
  {
    hide LedgerExact, CountKind, CountDue, DueKind, DueTimeout, PollAll, PollFilters;
    var last := polls[|polls| - 1];
    var before, after := Polls(opts, NEW_PROCESS, polls[..|polls| - 1]), Polls(opts, NEW_PROCESS, polls);
    var start := before.(stats := Stats(0, 0, 0, 0));
    PollTallies(opts, last.server, last.bound, PollFilters(opts), start, kind);
    PollExtends(opts, last.server, last.bound, PollFilters(opts), start);
    PollsKeepLedger(opts, polls);
    VisitsAreDue(opts, after, |before.visits|, kind);
    VisitsAreDue(opts, after, |after.visits|, kind);
    assert after.visits[..|after.visits|] == after.visits;
    forall i | 0 <= i < |after.visits|
      ensures KindOf(after.visits[i].outcome) == DueKind(opts, after.visits, i)
      ensures after.visits[i].outcome == Failed(true) <==> DueTimeout(opts, after.visits, i)
      ensures after.visits[i].outcome.Signed? ==>
                after.visits[i].item.WellFormed? &&
                after.visits[i].outcome == Signed(NonceFor(after.visits[i].item.row, opts.reply(i)))
    {
      VisitEnds(opts, after, i);
    }
  }

  ghost predicate Extends(p: Process, after: Process) {
    |p.visits| <= |after.visits| && p.visits == after.visits[..|p.visits|]
  }

  lemma {:induction false} HandleAllExtends(opts: Options, p: Process, items: seq<Item>)
    ensures Extends(p, HandleAll(opts, p, items))
  {
    if items != [] { HandleAllExtends(opts, p, items[..|items| - 1]); }
  }

  lemma {:induction false} PagesExtend(opts: Options, server: Server, bound: nat, filter: Filter, number: nat, p: Process)
    requires Ends(server, bound)
    ensures Extends(p, PollPages(opts, server, bound, filter, number, p).0)
    decreases Max(0, bound - number)
  {
    hide HandleAll;
    var reply := server(filter, number);
    if reply.Some? {
      var page := reply.value;
      HandleAllExtends(opts, p.(stats := p.stats.(fetched := p.stats.fetched + |page.items|), pages := p.pages + 1), page.items);
      if !LastPage(page, number) {
        PagesExtend(opts, server, bound, filter, number + 1, ReceivePage(opts, p, page));
      }
    }
  }

  lemma {:induction false} PollExtends(opts: Options, server: Server, bound: nat, filters: seq<Filter>, p: Process)
    requires Ends(server, bound)
    ensures Extends(p, PollAll(opts, server, bound, filters, p).0)
    decreases |filters|
  {
    hide PollPages;
    if filters != [] {
      PagesExtend(opts, server, bound, filters[0], 1, p);
      PollExtends(opts, server, bound, filters[1..], PollPages(opts, server, bound, filters[0], 1, p).0);
    }
  }

  /** A nonce submitted for a row that came without one is an unconsumed nonce of the
      validator's window at the state the candidates were read from. */
  lemma SubmittedNonceIsCandidate(opts: Options, row: Row, reply: Reply, nonce: nat, book: WhitelistNonces.Book, maxAboveFloor: int)
    requires Attempt(opts, row, reply) == Signed(Some(nonce))
    requires reply.candidates == Ok(WhitelistNonces.Available(book, maxAboveFloor))
    ensures nonce !in book.consumed && WhitelistNonces.InWindow(nonce, book.floor, maxAboveFloor)
  {
    hide WhitelistNonces.Available;
    SignedIff(opts, row, reply);
    WhitelistNonces.CandidatesAreExact(book, maxAboveFloor);
  }

  /** A configured but empty set leaves its own dimension of the listing unfiltered, and
      no row is signed. */
  lemma EmptySetSignsNothing(opts: Options, row: Row, reply: Reply)
    ensures opts.chainIds == Some([]) ==>
              !Attempt(opts, row, reply).Signed? && forall filter :: filter in PollFilters(opts) ==> filter.chainId == None
    ensures opts.facilities == Some([]) ==>
              !Attempt(opts, row, reply).Signed? && forall filter :: filter in PollFilters(opts) ==> filter.facility == None
  {
    hide PollFilters;
    forall filter | filter in PollFilters(opts)
      ensures ChoiceOf(opts.chainIds, filter.chainId) && ChoiceOf(opts.facilities, filter.facility)
    {
      FiltersAreAllPairs(opts, filter);
    }
  }
}
