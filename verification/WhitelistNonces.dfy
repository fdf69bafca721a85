/**
 The whitelist-nonce protocol: the candidate window a coordinator offers, and
 the advance of the on-chain nonce floor once a window is consumed for good.
 */
module WhitelistNonces {
  import opened Common
  import opened Checks

  const MAX_UINT256: nat := 0xFFFFFFFFFFFFFFFF_FFFFFFFFFFFFFFFF_FFFFFFFFFFFFFFFF_FFFFFFFFFFFFFFFF

  /** The validator's entry in the whitelist book at one block. */
  datatype Book = Book(floor: nat, consumed: set<nat>)

  // ---------------------------------------------------------------------
  // The window
  // ---------------------------------------------------------------------

  /** Nonces read in one batch. */
  function WindowSize(maxAboveFloor: int): nat {
    if maxAboveFloor < 255 then Max(0, maxAboveFloor + 1) else 256
  }

  function From(floor: nat, count: nat): seq<nat> {
    seq(count, i requires 0 <= i < count => floor + i)
  }

  function Window(floor: nat, maxAboveFloor: int): seq<nat> {
    Filter(From(floor, WindowSize(maxAboveFloor)), (n: nat) => n < MAX_UINT256)
  }

  function Available(book: Book, maxAboveFloor: int): seq<nat> {
    Filter(Window(book.floor, maxAboveFloor), (n: nat) => n !in book.consumed)
  }

  lemma {:induction false} FilterFrom(floor: nat, count: nat)
    ensures Filter(From(floor, count), (n: nat) => n < MAX_UINT256) ==
            From(floor, if floor + count <= MAX_UINT256 then count else Max(0, MAX_UINT256 - floor))
  {
    if count > 0 {
      assert From(floor, count)[..count - 1] == From(floor, count - 1);
      FilterFrom(floor, count - 1);
    }
  }

  /** The window is the run of nonces that starts at the floor. */
  lemma WindowIsContiguous(floor: nat, maxAboveFloor: int)
    ensures var w := Window(floor, maxAboveFloor);
            w == From(floor, |w|) && (w != [] ==> floor + |w| <= MAX_UINT256)
    ensures forall n :: n in Window(floor, maxAboveFloor) <==>
              floor <= n <= floor + Min(maxAboveFloor, 255) && n < MAX_UINT256
  {
    var count := WindowSize(maxAboveFloor);
    FilterFrom(floor, count);
    var k := if floor + count <= MAX_UINT256 then count else Max(0, MAX_UINT256 - floor);
    var w := Window(floor, maxAboveFloor);
    forall n ensures n in w <==> floor <= n <= floor + Min(maxAboveFloor, 255) && n < MAX_UINT256 {
      if floor <= n < floor + k { assert w[n - floor] == n; }
    }
  }

  /** Nonce `n` lies in the window above `floor`: at most 256 nonces, none at or
      above 2^256 - 1. */
  ghost predicate InWindow(n: nat, floor: nat, maxAboveFloor: int) {
    floor <= n <= floor + 255 && n <= floor + maxAboveFloor &&
    n < 115792089237316195423570985008687907853269984665640564039457584007913129639935
  }

  /** The candidates are exactly the unconsumed nonces of the window, in increasing
      order, and each passes the runner's nonce checks at the same chain state. */
  lemma CandidatesAreExact(book: Book, maxAboveFloor: int)
    ensures var candidates := Available(book, maxAboveFloor);
            && (forall n: nat :: n in candidates <==> n !in book.consumed && InWindow(n, book.floor, maxAboveFloor))
            && (forall i, j :: 0 <= i < j < |candidates| ==> candidates[i] < candidates[j])
            && (forall n :: n in candidates ==> AllPassed(CheckNonceWindow(n, n in book.consumed, book.floor, maxAboveFloor)))
  {
    var w, candidates := Window(book.floor, maxAboveFloor), Available(book, maxAboveFloor);
    WindowIsContiguous(book.floor, maxAboveFloor);
    forall n: nat ensures n in candidates <==> n !in book.consumed && InWindow(n, book.floor, maxAboveFloor) {
      FilterMember<nat>(w, (m: nat) => m !in book.consumed, n);
    }
    FilterPairwise<nat>(w, (m: nat) => m !in book.consumed, (a: nat, b: nat) => a < b);
  }

  // ---------------------------------------------------------------------
  // The chain and the pollers
  // ---------------------------------------------------------------------

  datatype Tx = Consume(nonce: nat) | SetFloor(floor: nat)

  /** Where one poll stands. Every read is a step of its own, so blocks may be
      mined, finalized or reorganised between any two of them. */
  datatype Poll =
    | Idle
    | AtBlock(number: nat)
    | WithFloor(number: nat, floor: nat)
    | WindowSpent(floor: nat)
    | AtFinalized(floor: nat, finalized: nat)

  /** Blocks above `finalized` may be replaced; `sent` are the floors of broadcast
      transactions, which may be mined at any later time or never. */
  datatype World = World(blocks: seq<Book>, finalized: nat, sent: set<nat>, polls: map<nat, Poll>) {
    function PollOf(p: nat): Poll {
      if p in polls then polls[p] else Idle
    }

    function With(p: nat, poll: Poll): World {
      this.(polls := polls[p := poll])
    }
  }

  datatype Event =
    | Mine(txs: seq<Tx>)
    | Reorg(length: nat)
    | Finalize(number: nat)
    | GetBlock(p: nat)
    | ReadFloor(p: nat)
    | ReadConsumed(p: nat)
    | GetFinalized(p: nat)
    | Confirm(p: nat, hasAccount: bool, noPending: bool)
    | PollFails(p: nat)

  /** Bits only get set; the floor only rises, and only to a floor this protocol has
      sent or to one from before the run. */
  function ApplyTx(book: Book, tx: Tx, sent: set<nat>, base: nat): Book {
    match tx
    case Consume(nonce) => book.(consumed := book.consumed + {nonce})
    case SetFloor(floor) => if floor > book.floor && (floor in sent || floor <= base) then book.(floor := floor) else book
  }

  function ApplyAll(book: Book, txs: seq<Tx>, sent: set<nat>, base: nat): Book {
    if txs == [] then book else ApplyTx(ApplyAll(book, txs[..|txs| - 1], sent, base), txs[|txs| - 1], sent, base)
  }

  /** The two final decisions of a poll whose window is spent at the head. */
  predicate MayAdvance(w: World, floor: nat, finalized: nat, maxAboveFloor: int)
    requires finalized < |w.blocks|
  {
    (forall i :: 0 <= i < |Window(floor, maxAboveFloor)| ==> Window(floor, maxAboveFloor)[i] in w.blocks[finalized].consumed) &&
    floor + |Window(floor, maxAboveFloor)| < MAX_UINT256
  }

  /** One step; an event that is not enabled changes nothing, and a read that fails
      or throws leaves its poll idle. */
  function Step(w: World, e: Event, maxAboveFloor: int, base: nat): World {
    match e
    case Mine(txs) =>
      if w.blocks == [] then w
      else w.(blocks := w.blocks + [ApplyAll(w.blocks[|w.blocks| - 1], txs, w.sent, base)])
    case Reorg(length) => if w.finalized < length <= |w.blocks| then w.(blocks := w.blocks[..length]) else w
    case Finalize(number) => if w.finalized <= number < |w.blocks| then w.(finalized := number) else w
    case GetBlock(p) => if w.PollOf(p).Idle? && w.blocks != [] then w.With(p, AtBlock(|w.blocks| - 1)) else w
    case ReadFloor(p) =>
      (match w.PollOf(p)
       case AtBlock(number) =>
         if number < |w.blocks| then w.With(p, WithFloor(number, w.blocks[number].floor)) else w.With(p, Idle)
       case _ => w)
    case ReadConsumed(p) =>
      (match w.PollOf(p)
       case WithFloor(number, floor) =>
         if number < |w.blocks| && Window(floor, maxAboveFloor) != [] &&
            Available(Book(floor, w.blocks[number].consumed), maxAboveFloor) == []
         then w.With(p, WindowSpent(floor))
         else w.With(p, Idle)
       case _ => w)
    case GetFinalized(p) =>
      (match w.PollOf(p)
       case WindowSpent(floor) => w.With(p, AtFinalized(floor, w.finalized))
       case _ => w)
    case Confirm(p, hasAccount, noPending) =>
      (match w.PollOf(p)
       case AtFinalized(floor, finalized) =>
         if finalized < |w.blocks| && MayAdvance(w, floor, finalized, maxAboveFloor) && hasAccount && noPending
         then w.With(p, Idle).(sent := w.sent + {floor + |Window(floor, maxAboveFloor)|})
         else w.With(p, Idle)
       case _ => w)
    case PollFails(p) => w.With(p, Idle)
  }

  function Exec(w: World, events: seq<Event>, maxAboveFloor: int, base: nat): World {
    if events == [] then w else Step(Exec(w, events[..|events| - 1], maxAboveFloor, base), events[|events| - 1], maxAboveFloor, base)
  }

  // ---------------------------------------------------------------------
  // The invariant
  // ---------------------------------------------------------------------

  /** Every nonce from the initial floor up to `floor` is consumed for good. */
  ghost predicate Spent(w: World, base: nat, floor: nat)
    requires w.finalized < |w.blocks|
  {
    forall n :: base <= n < floor ==> n in w.blocks[w.finalized].consumed
  }

  ghost predicate Growing(blocks: seq<Book>) {
    forall i, j :: 0 <= i <= j < |blocks| ==>
      blocks[i].consumed <= blocks[j].consumed && blocks[i].floor <= blocks[j].floor
  }

  ghost predicate SafePoll(w: World, base: nat, poll: Poll)
    requires w.finalized < |w.blocks|
  {
    match poll
    case Idle => true
    case AtBlock(_) => true
    case WithFloor(_, floor) => Spent(w, base, floor)
    case WindowSpent(floor) => Spent(w, base, floor)
    case AtFinalized(floor, finalized) => Spent(w, base, floor) && finalized <= w.finalized
  }

  ghost predicate Safe(w: World, base: nat) {
    && w.finalized < |w.blocks|
    && Growing(w.blocks)
    && (forall i :: 0 <= i < |w.blocks| ==> Spent(w, base, w.blocks[i].floor) && w.blocks[i].floor < MAX_UINT256)
    && (forall floor :: floor in w.sent ==> Spent(w, base, floor) && floor < MAX_UINT256)
    && (forall p :: p in w.polls ==> SafePoll(w, base, w.polls[p]))
  }

  /** A run starts from any chain whose highest floor is `base`, with no transaction
      of the protocol outstanding and no poll under way. */
  ghost predicate Start(w: World, base: nat) {
    && w.finalized < |w.blocks|
    && Growing(w.blocks)
    && w.blocks[|w.blocks| - 1].floor == base < MAX_UINT256
    && w.sent == {}
    && w.polls == map[]
  }

  /** Mining keeps the consumed bits and reaches only floors that are spent. */
  lemma {:induction false} AppliedBook(w: World, book: Book, txs: seq<Tx>, base: nat)
    requires Safe(w, base) && Spent(w, base, book.floor) && book.floor < MAX_UINT256 && base < MAX_UINT256
    ensures var after := ApplyAll(book, txs, w.sent, base);
            book.consumed <= after.consumed && book.floor <= after.floor < MAX_UINT256 && Spent(w, base, after.floor)
  {
    if txs != [] {
      AppliedBook(w, book, txs[..|txs| - 1], base);
    }
  }

  lemma MineKeeps(w: World, txs: seq<Tx>, base: nat)
    requires Safe(w, base) && base < MAX_UINT256
    ensures Safe(w.(blocks := w.blocks + [ApplyAll(w.blocks[|w.blocks| - 1], txs, w.sent, base)]), base)
  {
    AppliedBook(w, w.blocks[|w.blocks| - 1], txs, base);
  }

  lemma ReorgKeeps(w: World, length: nat, base: nat)
    requires Safe(w, base) && w.finalized < length <= |w.blocks|
    ensures Safe(w.(blocks := w.blocks[..length]), base)
  {}

  lemma FinalizeKeeps(w: World, number: nat, base: nat)
    requires Safe(w, base) && w.finalized <= number < |w.blocks|
    ensures Safe(w.(finalized := number), base)
  {
    var after := w.(finalized := number);
    assert w.blocks[w.finalized].consumed <= w.blocks[number].consumed;
    assert forall floor :: Spent(w, base, floor) ==> Spent(after, base, floor);
  }

  lemma PollKeeps(w: World, p: nat, poll: Poll, base: nat)
    requires Safe(w, base) && SafePoll(w, base, poll)
    ensures Safe(w.With(p, poll), base)
  {}

  /** Only a window consumed at the finalized block moves the floor past it. */
  lemma ConfirmKeeps(w: World, p: nat, floor: nat, finalized: nat, maxAboveFloor: int, base: nat)
    requires Safe(w, base) && Spent(w, base, floor) && finalized <= w.finalized
    requires MayAdvance(w, floor, finalized, maxAboveFloor)
    ensures Safe(w.With(p, Idle).(sent := w.sent + {floor + |Window(floor, maxAboveFloor)|}), base)
  {
    var window := Window(floor, maxAboveFloor);
    WindowIsContiguous(floor, maxAboveFloor);
    assert w.blocks[finalized].consumed <= w.blocks[w.finalized].consumed;
    forall n | base <= n < floor + |window| ensures n in w.blocks[w.finalized].consumed {
      if n >= floor { assert window[n - floor] == n; }
    }
    PollKeeps(w, p, Idle, base);
    var after := w.With(p, Idle).(sent := w.sent + {floor + |window|});
    assert forall f :: Spent(w, base, f) <==> Spent(after, base, f);
  }

  lemma StepKeeps(w: World, e: Event, maxAboveFloor: int, base: nat)
    requires Safe(w, base) && base < MAX_UINT256
    ensures Safe(Step(w, e, maxAboveFloor, base), base)
  {
    hide Available, Window, ApplyAll, MayAdvance, Spent, Growing;
    match e {
      case Mine(txs) => MineKeeps(w, txs, base);
      case Reorg(length) => if w.finalized < length <= |w.blocks| { ReorgKeeps(w, length, base); }
      case Finalize(number) => if w.finalized <= number < |w.blocks| { FinalizeKeeps(w, number, base); }
      case GetBlock(p) => PollKeeps(w, p, AtBlock(|w.blocks| - 1), base);
      case ReadFloor(p) =>
        PollKeeps(w, p, Idle, base);
        if w.PollOf(p).AtBlock? && w.PollOf(p).number < |w.blocks| {
          PollKeeps(w, p, WithFloor(w.PollOf(p).number, w.blocks[w.PollOf(p).number].floor), base);
        }
      case ReadConsumed(p) =>
        PollKeeps(w, p, Idle, base);
        if w.PollOf(p).WithFloor? { PollKeeps(w, p, WindowSpent(w.PollOf(p).floor), base); }
      case GetFinalized(p) =>
        if w.PollOf(p).WindowSpent? { PollKeeps(w, p, AtFinalized(w.PollOf(p).floor, w.finalized), base); }
      case Confirm(p, hasAccount, noPending) =>
        PollKeeps(w, p, Idle, base);
        if w.PollOf(p).AtFinalized? {
          var floor, finalized := w.PollOf(p).floor, w.PollOf(p).finalized;
          if MayAdvance(w, floor, finalized, maxAboveFloor) { ConfirmKeeps(w, p, floor, finalized, maxAboveFloor, base); }
        }
      case PollFails(p) => PollKeeps(w, p, Idle, base);
    }
  }

  lemma StartIsSafe(w: World, base: nat)
    requires Start(w, base)
    ensures Safe(w, base)
  {}

  lemma {:induction false} RunIsSafe(w: World, events: seq<Event>, maxAboveFloor: int, base: nat)
    requires Start(w, base)
    ensures Safe(Exec(w, events, maxAboveFloor, base), base)
  {
    StartIsSafe(w, base);
    if events != [] {
      hide Safe, Step;
      RunIsSafe(w, events[..|events| - 1], maxAboveFloor, base);
      StepKeeps(Exec(w, events[..|events| - 1], maxAboveFloor, base), events[|events| - 1], maxAboveFloor, base);
    }
  }

  /** In every run, with reorganisations above the finalized block, late or lost
      floor transactions and any number of pollers: on every block of the chain,
      each nonce between the initial floor and that block's floor is consumed at
      the finalized block, and the floor stays below 2^256 - 1. */
  lemma FloorNeverSkips(w: World, events: seq<Event>, maxAboveFloor: int, base: nat)
    requires Start(w, base)
    ensures var after := Exec(w, events, maxAboveFloor, base);
            && after.finalized < |after.blocks|
            && (forall i, n :: 0 <= i < |after.blocks| && base <= n < after.blocks[i].floor ==>
                  n in after.blocks[after.finalized].consumed)
            && (forall i :: 0 <= i < |after.blocks| ==> after.blocks[i].floor < MAX_UINT256)
  {
    hide Exec;
    RunIsSafe(w, events, maxAboveFloor, base);
    var after := Exec(w, events, maxAboveFloor, base);
    forall i, n | 0 <= i < |after.blocks| && base <= n < after.blocks[i].floor ensures n in after.blocks[after.finalized].consumed {
      assert Spent(after, base, after.blocks[i].floor);
    }
  }

  /** A consumption seen at the finalized block is never undone. */
  lemma {:induction false} FinalityHolds(w: World, events: seq<Event>, maxAboveFloor: int, base: nat)
    requires Safe(w, base) && base < MAX_UINT256
    ensures var after := Exec(w, events, maxAboveFloor, base);
            Safe(after, base) && w.blocks[w.finalized].consumed <= after.blocks[after.finalized].consumed
  {
    if events != [] {
      hide Step, Safe;
      FinalityHolds(w, events[..|events| - 1], maxAboveFloor, base);
      var before := Exec(w, events[..|events| - 1], maxAboveFloor, base);
      StepKeeps(before, events[|events| - 1], maxAboveFloor, base);
      StepFinality(before, events[|events| - 1], maxAboveFloor, base);
    }
  }

  lemma StepFinality(w: World, e: Event, maxAboveFloor: int, base: nat)
    requires Safe(w, base)
    ensures var after := Step(w, e, maxAboveFloor, base);
            after.finalized < |after.blocks| && w.blocks[w.finalized].consumed <= after.blocks[after.finalized].consumed
  {}

  // ---------------------------------------------------------------------
  // What one poll sends, and what a block holds
  // ---------------------------------------------------------------------

  /** The steps of one poll with nothing in between. */
  function WholePoll(p: nat, hasAccount: bool, noPending: bool): seq<Event> {
    [GetBlock(p), ReadFloor(p), ReadConsumed(p), GetFinalized(p), Confirm(p, hasAccount, noPending)]
  }

  /** An undisturbed poll sends the floor just past the window exactly when every
      nonce of it is consumed at the head and at the finalized block, the new floor
      is below 2^256 - 1, and there is an account with nothing pending. */
  lemma PollSends(w: World, p: nat, hasAccount: bool, noPending: bool, maxAboveFloor: nat, base: nat)
    requires w.finalized < |w.blocks| && w.PollOf(p).Idle?
    ensures var floor := w.blocks[|w.blocks| - 1].floor;
            var next := if maxAboveFloor < 255 then floor + maxAboveFloor + 1 else floor + 256;
            Exec(w, WholePoll(p, hasAccount, noPending), maxAboveFloor, base).sent ==
            if && hasAccount && noPending
               && next < 115792089237316195423570985008687907853269984665640564039457584007913129639935
               && (forall n: nat :: InWindow(n, floor, maxAboveFloor) ==>
                     n in w.blocks[|w.blocks| - 1].consumed && n in w.blocks[w.finalized].consumed)
            then w.sent + {next} else w.sent
  {
    hide Available, Window, Step, Exec, AfterConfirm, AfterFloorRead, InWindow;
    var book := w.blocks[|w.blocks| - 1];
    var window := Window(book.floor, maxAboveFloor);
    WholePollIsRun(w, p, hasAccount, noPending, maxAboveFloor, base);
    WholePollSteps(w, p, hasAccount, noPending, maxAboveFloor, base);
    WindowMembers(book, maxAboveFloor);
    WindowLength(book.floor, maxAboveFloor);
    assert (forall i :: 0 <= i < |window| ==> window[i] in w.blocks[w.finalized].consumed) <==>
           forall n :: n in window ==> n in w.blocks[w.finalized].consumed;
  }

  lemma WindowMembers(book: Book, maxAboveFloor: nat)
    ensures forall n: nat :: n in Window(book.floor, maxAboveFloor) <==> InWindow(n, book.floor, maxAboveFloor)
    ensures Available(book, maxAboveFloor) == [] <==> forall n :: InWindow(n, book.floor, maxAboveFloor) ==> n in book.consumed
  {
    hide Available, Window;
    CandidatesAreExact(book, maxAboveFloor);
    WindowIsContiguous(book.floor, maxAboveFloor);
    var candidates := Available(book, maxAboveFloor);
    if candidates != [] { assert candidates[0] in candidates; }
  }

  lemma WindowLength(floor: nat, maxAboveFloor: nat)
    ensures var size := if maxAboveFloor < 255 then maxAboveFloor + 1 else 256;
            |Window(floor, maxAboveFloor)| == if floor + size <= MAX_UINT256 then size else Max(0, MAX_UINT256 - floor)
  {
    FilterFrom(floor, WindowSize(maxAboveFloor));
  }

  function AfterFloorRead(w: World, p: nat, maxAboveFloor: nat, base: nat): World {
    Step(Step(w, GetBlock(p), maxAboveFloor, base), ReadFloor(p), maxAboveFloor, base)
  }

  function AfterConfirm(w: World, p: nat, hasAccount: bool, noPending: bool, maxAboveFloor: nat, base: nat): World {
    var spent := Step(w, ReadConsumed(p), maxAboveFloor, base);
    Step(Step(spent, GetFinalized(p), maxAboveFloor, base), Confirm(p, hasAccount, noPending), maxAboveFloor, base)
  }

  lemma WholePollIsRun(w: World, p: nat, hasAccount: bool, noPending: bool, maxAboveFloor: nat, base: nat)
    ensures Exec(w, WholePoll(p, hasAccount, noPending), maxAboveFloor, base) ==
            AfterConfirm(AfterFloorRead(w, p, maxAboveFloor, base), p, hasAccount, noPending, maxAboveFloor, base)
  {
    hide Step;
    var events := WholePoll(p, hasAccount, noPending);
    assert events[..4][..3] == events[..3] && events[..3][..2] == events[..2] && events[..2][..1] == events[..1];
    assert Exec(w, events[..1], maxAboveFloor, base) == Step(w, events[0], maxAboveFloor, base);
    assert Exec(w, events[..2], maxAboveFloor, base) == Step(Exec(w, events[..1], maxAboveFloor, base), events[1], maxAboveFloor, base);
    assert Exec(w, events[..3], maxAboveFloor, base) == Step(Exec(w, events[..2], maxAboveFloor, base), events[2], maxAboveFloor, base);
    assert Exec(w, events[..4], maxAboveFloor, base) == Step(Exec(w, events[..3], maxAboveFloor, base), events[3], maxAboveFloor, base);
  }

  lemma SpentPollSteps(w: World, p: nat, hasAccount: bool, noPending: bool, maxAboveFloor: nat, base: nat)
    requires w.finalized < |w.blocks| && w.PollOf(p).WithFloor? && w.PollOf(p).number < |w.blocks|
    ensures var floor, consumed := w.PollOf(p).floor, w.blocks[w.PollOf(p).number].consumed;
            AfterConfirm(w, p, hasAccount, noPending, maxAboveFloor, base).sent ==
            if && Window(floor, maxAboveFloor) != []
               && Available(Book(floor, consumed), maxAboveFloor) == []
               && MayAdvance(w, floor, w.finalized, maxAboveFloor) && hasAccount && noPending
            then w.sent + {floor + |Window(floor, maxAboveFloor)|} else w.sent
  {
    hide Available, Window;
  }

  lemma WholePollSteps(w: World, p: nat, hasAccount: bool, noPending: bool, maxAboveFloor: nat, base: nat)
    requires w.finalized < |w.blocks| && w.PollOf(p).Idle?
    ensures var book := w.blocks[|w.blocks| - 1];
            AfterConfirm(AfterFloorRead(w, p, maxAboveFloor, base), p, hasAccount, noPending, maxAboveFloor, base).sent ==
            if && Window(book.floor, maxAboveFloor) != []
               && Available(Book(book.floor, book.consumed), maxAboveFloor) == []
               && MayAdvance(w, book.floor, w.finalized, maxAboveFloor) && hasAccount && noPending
            then w.sent + {book.floor + |Window(book.floor, maxAboveFloor)|} else w.sent
  {
    hide Available, Window;
    var book, w2 := w.blocks[|w.blocks| - 1], AfterFloorRead(w, p, maxAboveFloor, base);
    assert w2.PollOf(p) == WithFloor(|w.blocks| - 1, book.floor) && w2.blocks == w.blocks;
    assert w2.finalized == w.finalized && w2.sent == w.sent;
    assert MayAdvance(w2, book.floor, w.finalized, maxAboveFloor) <==> MayAdvance(w, book.floor, w.finalized, maxAboveFloor);
    SpentPollSteps(w2, p, hasAccount, noPending, maxAboveFloor, base);
  }

  /** The world moves freely: any block may be mined, any suffix above the finalized
      block dropped, and any later block finalized, without touching the polls. */
  lemma ChainMoves(w: World, txs: seq<Tx>, number: nat, maxAboveFloor: int, base: nat)
    requires w.finalized <= number < |w.blocks|
    ensures var mined := Step(w, Mine(txs), maxAboveFloor, base);
            |mined.blocks| == |w.blocks| + 1 && mined.blocks[..|w.blocks|] == w.blocks &&
            mined.blocks[|w.blocks|] == ApplyAll(w.blocks[|w.blocks| - 1], txs, w.sent, base) && mined.polls == w.polls
    ensures var cut := Step(w, Reorg(number + 1), maxAboveFloor, base);
            cut.blocks == w.blocks[..number + 1] && cut.finalized == w.finalized && cut.polls == w.polls
    ensures var final := Step(w, Finalize(number), maxAboveFloor, base);
            final.blocks == w.blocks && final.finalized == number && final.polls == w.polls
  {}

  /** A floor transaction in `txs` that the chain lets through. */
  ghost predicate Raises(txs: seq<Tx>, floor: nat, sent: set<nat>, base: nat) {
    SetFloor(floor) in txs && (floor in sent || floor <= base)
  }

  /** A block consumes exactly its transactions' nonces and ends at the highest of
      its parent's floor and the floors it was let through. */
  lemma {:induction false} MinedBlock(book: Book, txs: seq<Tx>, sent: set<nat>, base: nat)
    ensures var after := ApplyAll(book, txs, sent, base);
            && (forall n: nat :: n in after.consumed <==> n in book.consumed || Consume(n) in txs)
            && (after.floor == book.floor || Raises(txs, after.floor, sent, base))
            && after.floor >= book.floor
            && (forall floor: nat :: Raises(txs, floor, sent, base) ==> floor <= after.floor)
  {
    if txs != [] {
      var n := |txs| - 1;
      MinedBlock(book, txs[..n], sent, base);
      assert txs == txs[..n] + [txs[n]];
      assert forall floor: nat :: Raises(txs, floor, sent, base) ==>
        Raises(txs[..n], floor, sent, base) || txs[n] == SetFloor(floor);
      var floor := ApplyAll(book, txs, sent, base).floor;
      assert Raises(txs[..n], floor, sent, base) ==> Raises(txs, floor, sent, base);
    }
  }
}
