# A verified model of the Guardian

The Guardian signs attestations for 3F facilities after checking on-chain state.
This project models, in Dafny 4.11, the decision to sign, the reconstruction of
chain history the decision rests on, and the stateful protocols around it, and
proves properties of them over all inputs, histories and interleavings. Check it
with `dafny verify dfyconfig.toml`.

## Layout

| file | what it models |
|---|---|
| Common.dfy, Arithmetic.dfy, OrderedMaps.dfy | options, addresses, filtering, rounding division, insertion-ordered maps |
| Checks.dfy | check entries, roll-up, deadline, membership and nonce-window checks |
| RoleEvents.dfy, RoleScan.dfy, ScanCorrectness.dfy | the chain's role history, the backward chunked scan, and why the two agree |
| RequestBinding.dfy, BindingCorrectness.dfy | the Appendix A.1 reads and evaluation, and what a verdict says about the chain |
| TtlCache.dfy, CacheRuns.dfy | the in-memory TTL cache and its runs |
| FaultFreeReads.dfy | reads that fail and replies in another order: when an entry is what a fault-free read yields |
| BindingCache.dfy | the A.1 runner behind the cache, and its transparency |
| RequestWhitelisting.dfy | the Appendix A.4 batch |
| IntentSwap.dfy | the Appendix A.3 swap check and the swap message |
| ReportedEntries.dfy | what the entries of the three runners' verdicts say |
| RateLimit.dfy, RateLimitQueue.dfy | the fixed-window limiter, and its read/write fallback as an interleaved system |
| RateLimitCounts.dfy, RateLimitMisses.dfy | when the fallback's stored count covers what it reported, and a run in which the fallback over-admits |
| WhitelistNonces.dfy | nonce candidates and the floor protocol over a reorganising chain |
| Coordinator.dfy, CoordinatorRuns.dfy, SignTimeouts.dfy | the coordinator's poll loop, its counters and its timeout ledger |

Code that works step by step is a class or a method with loops, proved against a
function of its inputs or old state; the theorems are about those functions.

## Readings and assumptions

- An address is its 160-bit value together with the letter case of its text;
  `Lower` is `toLowerCase`. Comparing lower-cased fixed-width hex text is
  comparing values.
- A role bitfield is the set of its one-bit positions.
- Each read of the node is an oracle: an answer, a deterministic failure, or any
  other failure. `eth_getLogs`, when it answers, returns the matching logs in any
  order (`Faithful`). A chain is a finite list of logs with unique, increasing
  (block, log index) positions.
- World assumption `CreatedFirst`: a request contract has no role update in a
  block before the block of any creation event for it by a scanned factory. A
  grant earlier in the creation block itself is allowed.
- World assumption `CodeMeansCreated`, used only where the disposition changes
  between a cached and a fresh read: no creation event follows a block at which
  the contract already has code.
- World assumption in `Truth`: no chunk of a scan holds announcements of one
  contract by two accepted factories; `FaultFreeReads.ReplyOrderMattersIff` shows
  that this is exactly what makes the order of a reply irrelevant.
- Cache transparency and the batch theorem fix the state of the chain, latest block
  included. Each call has a node of its own, whose reads may fail and whose replies
  come in any order (`Degrades`); the policy sets, the disposition, the deadline,
  aborts and cache failures vary too. The verdicts are compared with those of a node
  that answers everything. Bodies carry lower-cased addresses, as their schema ensures.
- A call reads the deciding factory (`ReadsDecider`) if all its provenance reads are
  answered or, for a contract under `CreatedFirst`, that of the factory which the
  fault-free read names (`DeciderAnswered`).
- A validated cache read is one step. The program awaits between reading a value that
  turns out invalid and deleting it (packages/guardian-defaults/src/cache/types.ts:78-85),
  so a value set under the same key in between is deleted with it; the cache then
  only misses.
- A poll is modelled against a server whose listing ends (`Ends`); the page loop
  has no other reason to stop. `CoordinatorRuns.ServedListingEnds` shows that an
  unchanging listing ends.
- The limiter's clock never runs backwards where a theorem says so. Windows may
  be fractional; resets are whole seconds.
- In the fallback's interleaved system a store write takes effect, if at all, before
  its task settles. The store reads the limiter's clock, and may drop a window that
  has closed by it at any time: on a read, in a sweep, or by a time to live. Windows
  stored before the run have counted a request and end within one width of its start,
  as every window the limiter writes does; each theorem asks only for what it needs.
- In the nonce protocol consumption bits only get set, the floor only rises, and
  it is moved only by transactions of this protocol or to floors from before the
  run; a transaction may be mined late, again after a reorganisation, or never.

## Where the code differs from its documentation

- A full scan takes ceil((lookback + 1) / range) `getLogs` calls on a long chain,
  one more than packages/guardian-defaults/src/checks/request-whitelisting.ts:50-52
  says whenever the range divides the lookback (`RoleScan.ChunkBoundHoldsIff`).
- The cache drops an entry whose owner has been listed as a retargetter so that
  it cannot hold the contract on the classic path, but a "no factory" entry has no
  owner and does hold it until it expires (`BindingCache.ReplayIsFresh`,
  `BindingCache.StaleNoFactory`).
- A failed provenance read does not keep an answer out of the cache if another
  accepted factory claims the contract: the comment at
  packages/guardian-defaults/src/checks/intent-request-binding.ts:607-616 rules that
  out only for "no factory". The entry can then skip role checks that a fully
  answered request would fail (`FaultFreeReads.WrittenIsFaultFreeIff`,
  `FaultFreeReads.DegradedEntryIsReplayed`).
- The fallback of the rate limiter reads its clock under the lock and the store reads
  it again later. A read that comes back after the window has closed can miss a
  window the task should have found spent, and the limiter then admits more than the
  atomic `consume` would (`RateLimitQueue.FallbackRefinesConsume`,
  `RateLimitMisses.MissedWindowOverAdmits`).
- A sign timeout is recognised by its text, which has digits only for a budget of
  whole milliseconds; with any other budget the coordinator never gives up on a
  row (`CoordinatorRuns.GivingUpNeedsWholeBudget`).
- An empty chain or facility set is absent for the listing query but rejects every
  row (`CoordinatorRuns.EmptySetSignsNothing`).

## Model

| member | source | states |
|---|---|---|
| RoleEvents.RolesAtReadsLast | packages/guardian-defaults/src/checks/role-events.ts:226-255 | the replayed map gives a user the bitfield of the last `RolesUpdated` for that user up to the block, and omits the user when that bitfield is zero, in both directions |
| RoleEvents.EventsByValue | packages/guardian-defaults/src/checks/role-events.ts:165-200 | a role update counts iff its emitter is the request contract, and a creation iff it is either creation event for that contract by one of the factories, addresses compared without letter case |
| RoleEvents.SortLogs | packages/guardian-defaults/src/checks/role-events.ts:238-241 | sorting by block and log index yields an arrangement of the same logs in which no log precedes an earlier one |
| RoleEvents.SortedIsUnique | packages/guardian-defaults/src/checks/role-events.ts:238-241 | log positions are unique, so the sorted arrangement of given logs is the order of the chain |
| RoleScan.ProcessReply | packages/guardian-defaults/src/checks/role-events.ts:165-200 | the loop over one reply keeps exactly the role updates emitted by the request contract and the deployment event of a matched factory met last |
| RoleScan.CreationIsLast | packages/guardian-defaults/src/checks/role-events.ts:177-185 | of the deployment events in one reply the last in reply order is the one kept, with its block and emitting factory |
| RoleScan.ReplayRoleState | packages/guardian-defaults/src/checks/role-events.ts:237-255 | the replay loop and the pruning loop compute the last bitfield per user without zero entries |
| RoleScan.HoldersOf | packages/guardian-defaults/src/checks/role-events.ts:263-272 | lists every user whose bitfield meets the mask, once each, and nobody else |
| RoleScan.ScanRoleHolders | packages/guardian-defaults/src/checks/role-events.ts:102-224 | the scan loop with its guards, abort signal, time budget and early stop computes the outcome the theorems speak of, and asks for a prefix of the tiling ranges, for all of them when it is exhausted |
| RoleScan.ScanThrowsIff | packages/guardian-defaults/src/checks/role-events.ts:102-162 | the scan throws exactly when its options are rejected, or some range is reached, all earlier ones having been answered without a deployment event, at which the signal is aborted, or it is not the first and the clock is more than the budget past its first reading, or `getLogs` fails |
| RoleScan.FullScanChunks | packages/guardian-defaults/src/checks/role-events.ts:123-204 | the ranges of a full scan are adjacent, disjoint, at most `blockRange` wide, cover exactly the window, and number ceil((min(latest, lookback) + 1) / range) |
| RoleScan.TilesPartition | packages/guardian-defaults/src/checks/role-events.ts:136-139 | every block of the window lies in exactly one range |
| RoleScan.ChunkBoundHoldsIff | packages/guardian-defaults/src/checks/request-whitelisting.ts:50-52 | the bound of ceil(lookback / range) calls stated there holds exactly when the chain is shorter than the lookback or the range does not divide it |
| RoleScan.ChunkBoundExceeded | packages/guardian-defaults/src/checks/request-whitelisting.ts:50-52 | a lookback of 10 with a range of 10 takes two calls, one more than stated |
| ScanCorrectness.ResolvedIsExact | packages/guardian-defaults/src/checks/role-events.ts:140-224 | a resolved scan yields the map a forward replay of the whole history from block 0 yields, for any reply order and with factory-emitted role logs ignored |
| ScanCorrectness.ResolvesIff | packages/guardian-defaults/src/checks/role-events.ts:206-223 | a completed scan resolves exactly when its window reaches block 0 or holds a deployment event by a scanned factory |
| ScanCorrectness.DeploymentIsAnnounced | packages/guardian-defaults/src/checks/role-events.ts:177-185 | the reported deployment block and factory are those of a deployment event on the chain |
| ScanCorrectness.UnannouncedIsBlockZero | packages/guardian-defaults/src/checks/role-events.ts:216-223 | a resolved scan that met no deployment event reports block 0 |
| ScanCorrectness.TooOldIsPartial | packages/guardian-defaults/src/checks/role-events.ts:206-214 | an exhausted scan reports the true current bitfield of exactly those holders whose latest role event lies in the window |
| RequestBinding.MatchFactories | packages/guardian-defaults/src/checks/intent-request-binding.ts:583-605 | the slot loop collects the claiming factories by lower-cased address in order, and notes whether any slot went unanswered |
| RequestBinding.FetchA1OnChain | packages/guardian-defaults/src/checks/intent-request-binding.ts:472-740 | the fetch computes the classified outcome of its reads, stage by stage |
| BindingCorrectness.MatchedFactories | packages/guardian-defaults/src/checks/intent-request-binding.ts:583-633 | matched factories are accepted ones that claim the contract, and there are none exactly when none claims it |
| BindingCorrectness.EveryClaimIsMatched | packages/guardian-defaults/src/checks/intent-request-binding.ts:583-605 | every configured factory that claims the contract is matched, compared as lower-cased text |
| BindingCorrectness.FirstMatched | packages/guardian-defaults/src/checks/intent-request-binding.ts:481-605 | the first matched factory is the first configured plain factory that recognises the contract, or if there is none the first flash-loan one |
| BindingCorrectness.TrustedVerdict | packages/guardian-defaults/src/checks/intent-request-binding.ts:368-388 | a trusted contract is Ok iff deadline <= now + maxDeadlineSecondsAhead, whatever the node answers and the cache holds, and nothing is cached |
| BindingCorrectness.OwnerlessVerdict | packages/guardian-defaults/src/checks/intent-request-binding.ts:508-563 | a contract whose owner cannot be read is refused: with an upstream failure, uncached, when the multicall throws or the read fails in transport, otherwise as one without a factory, which is cached |
| BindingCorrectness.ClassicVerdict | packages/guardian-defaults/src/checks/intent-request-binding.ts:361-447 | on the classic path with no upstream failure, Ok iff the true state of the chain justifies it: deadline <= now + maxDeadlineSecondsAhead, accepted owner, a claiming factory, no code before the window, and the true role holders when the scan resolves, or under "skip" no recent rogue holder when it does not |
| BindingCorrectness.AttributedToCreator | packages/guardian-defaults/src/checks/intent-request-binding.ts:731-739 | the factory a resolved verdict is attributed to announced the creation in a block of the window, or is the first matched one when the window reaches block 0 and none announced it |
| BindingCorrectness.FailClosedSoundness | packages/guardian-defaults/src/checks/intent-request-binding.ts:748-854 | under "fail", Ok means an accepted factory claims the contract, the owner is accepted, deadline <= now + maxDeadlineSecondsAhead, and the true holders of each checked role form a non-empty subset of the accepted set |
| BindingCorrectness.PartialMeansRecent | packages/guardian-defaults/src/checks/intent-request-binding.ts:1060-1084 | the partial holders are acceptable exactly when no user whose latest role event is in the window holds a checked role without being accepted |
| BindingCorrectness.OlderNeverPasses | packages/guardian-defaults/src/checks/intent-request-binding.ts:820-839 | for a contract created before the window no role check is ever passed on the classic path: each entry is skipped or failed, under either disposition |
| BindingCorrectness.UnclaimedVerdict | packages/guardian-defaults/src/checks/intent-request-binding.ts:607-623 | with no claiming factory the failure is upstream exactly when some factory did not answer, and only a definitive "no factory" is cached |
| BindingCorrectness.RetargetterVerdict | packages/guardian-defaults/src/checks/intent-request-binding.ts:965-1008 | on the retargetter path, Ok iff the contract is the attached request, the repayment deadline is at least now plus the configured buffer or else 80 days, and the deadline is under the ceiling; nothing is cached |
| BindingCorrectness.FastPathAgrees | packages/guardian-defaults/src/checks/intent-request-binding.ts:671-689 | skipping the scan of a contract older than the window gives the same entries and verdict as scanning every chunk |
| BindingCorrectness.ProbeOnlyTightens | packages/guardian-defaults/src/checks/intent-request-binding.ts:663-670 | the code probe never turns a refusal into a signature |
| BindingCorrectness.WritesIff | packages/guardian-defaults/src/checks/intent-request-binding.ts:392-443 | the runner writes to the cache exactly what it fetched on the classic path for an untrusted contract without an entry it may use, unless that is "older than the window" without a scan |
| BindingCorrectness.UnavailableIff | packages/guardian-defaults/src/checks/intent-request-binding.ts:472-740 | the failure is upstream exactly when the contract is untrusted and the first multicall or the owner read fails, the operation of a listed retargetter does, no factory claims the contract and one did not answer, or one claims it and the block number or a needed scan fails |
| ReportedEntries.ClassicEntries | packages/guardian-defaults/src/checks/intent-request-binding.ts:748-854 | on the classic path, fresh or from the cache, the verdict carries exactly the entries of its factory kind, and each that is not skipped passes iff the condition it names holds of the data: deadline, accepted factory, owner, and the holders of bit 0 or 1; on partial data a role entry is refused, or under "skip" skipped if no holder is a stranger |
| ReportedEntries.TrustedEntries | packages/guardian-defaults/src/checks/intent-request-binding.ts:368-388 | a trusted contract is reported as trusted and asked only for its deadline, every other entry being skipped |
| ReportedEntries.RetargetterEntries | packages/guardian-defaults/src/checks/intent-request-binding.ts:965-1008 | on the retargetter path the attached request, repayment and deadline entries pass iff their conditions hold and the classic ones are skipped |
| BindingCache.RunCached | packages/guardian-defaults/src/checks/intent-request-binding.ts:361-447 | the runner over the in-memory cache returns the verdict, and leaves the cache with the contents, that the theorems on runs of calls speak of |
| FaultFreeReads.ReplyOrderMattersIff | packages/guardian-defaults/src/checks/role-events.ts:165-200 | a reply attributes the creation in the same way in every order of its logs exactly when at most one factory announced the creation in it |
| FaultFreeReads.ScansAgree | packages/guardian-defaults/src/checks/role-events.ts:140-224 | completed scans of one chain give the same outcome whatever the order of the replies, if no chunk holds announcements by two factories |
| FaultFreeReads.WrittenIsFaultFree | packages/guardian-defaults/src/checks/intent-request-binding.ts:428-443 | an entry written by a request whose provenance reads were all answered is what a node that answers everything would have let it read, in any reply order |
| FaultFreeReads.WrittenIsFaultFreeIff | packages/guardian-defaults/src/checks/intent-request-binding.ts:583-633 | whatever reads failed and however often a factory is configured, the written entry is the fault-free read exactly if the factory that decides that read answered: the one it names if a claiming factory announced the creation in the window, else the first claiming one |
| FaultFreeReads.DegradedEntryIsReplayed | packages/guardian-defaults/src/checks/intent-request-binding.ts:585-607 | an input on which it is not: with one provenance read failed an entry is written on which a fully answered request is signed that is refused without the cache |
| BindingCache.ReplayIsFresh | packages/guardian-defaults/src/checks/intent-request-binding.ts:392-415 | replaying an entry, written by any request that read the deciding factory, under a later policy equals a fresh fault-free read, exactly unless it is a "no factory" entry whose owner was listed as a retargetter since |
| BindingCache.StaleNoFactory | packages/guardian-defaults/src/checks/intent-request-binding.ts:404-414 | an input on which the exception occurs: the replay refuses what a fresh read signs |
| BindingCache.FreshAgrees | packages/guardian-defaults/src/checks/intent-request-binding.ts:472-740 | a fresh read that reads the deciding factory gives the fault-free verdict or is cut short, whichever other reads fail and in any reply order |
| BindingCache.CacheIsTransparent | packages/guardian-defaults/src/checks/intent-request-binding.ts:392-447 | over any sequence of calls on a fixed chain state, each with its own failing reads and reply order, with cache losses and failures and changing accepted sets and disposition, every verdict is the fault-free one or the call's own uncached one, if each call that writes read the deciding factory |
| BindingCache.CachedRunsAgree | packages/guardian-defaults/src/checks/intent-request-binding.ts:392-447 | the same for runs of calls over the in-memory cache, with its expiry, sweep and trim |
| BindingCache.EntriesAreScanned | packages/guardian-defaults/src/checks/intent-request-binding.ts:404-443 | in every run, whatever nodes answer, the cache holds no retargetter result and no outcome that was not scanned for |
| BindingCache.NextCallReplays | packages/guardian-defaults/src/checks/intent-request-binding.ts:389-443 | what a call wrote the next call for the contract replays without a read of the node, unless the cache lost it or throws, the contract is trusted, or its owner is a listed retargetter |
| BindingCache.NextVisitReplays | packages/guardian-defaults/src/checks/intent-request-binding.ts:389-443 | the same over the in-memory cache, until the entry expires |
| RequestWhitelisting.CheckContracts | packages/guardian-defaults/src/checks/request-whitelisting.ts:182-218 | the loop over the contracts threads the cache, drops per-contract deadline entries, suffixes the rest and stops at the first upstream failure |
| RequestWhitelisting.BuildChecks | packages/guardian-defaults/src/checks/request-whitelisting.ts:128-298 | the batch runner computes its gates, per-contract entries, deadline and nonce entries in order |
| RequestWhitelisting.BatchUnavailableIff | packages/guardian-defaults/src/checks/request-whitelisting.ts:138-298 | the batch fails upstream exactly when it is within the cap, its book is accepted, and the call for some listed contract of a whitelisting fails upstream or the book's own reads fail |
| RequestWhitelisting.DroppedDeadline | packages/guardian-defaults/src/checks/request-whitelisting.ts:199-215 | what is left of a contract's entries passes together with the request-wide deadline entry iff the contract passes |
| RequestWhitelisting.BatchFollowsRun | packages/guardian-defaults/src/checks/request-whitelisting.ts:138-298 | for any cache and any nodes, with no upstream failure, Ok iff at most the configured number or else 50 contracts, book accepted, the call for `requestContracts[i]` on the body's chain with the body's deadline gives Ok for every i (whitelist only), each on the cache the one before left, deadline <= now + maxDeadlineSecondsAhead, nonce unconsumed and in the window |
| RequestWhitelisting.BatchIsConjunction | packages/guardian-defaults/src/checks/request-whitelisting.ts:182-218 | with the deciding factories read, a batch passes iff each contract passes alone in a fault-free read without a cache: writes for earlier contracts never change a later verdict |
| RequestWhitelisting.BatchVerdict | packages/guardian-defaults/src/checks/request-whitelisting.ts:138-298 | with no upstream failure and the deciding factories read, Ok iff the same gates hold and for every i `requestContracts[i]` passes alone in a fault-free read without a cache (whitelist only) |
| RequestWhitelisting.OneDeadlineEntry | packages/guardian-defaults/src/checks/request-whitelisting.ts:210-227 | past the cap exactly one deadline entry remains, the request-wide one, whatever the cache holds and the nodes answer |
| RequestWhitelisting.NonceWindowPasses | packages/guardian-defaults/src/checks/helpers.ts:239-267 | the nonce entries pass iff the nonce is unconsumed and in [floor, floor + max] |
| ReportedEntries.BatchEntries | packages/guardian-defaults/src/checks/request-whitelisting.ts:128-298 | a batch over the cap reports that alone; any other reports exactly its book, deadline and nonce entries, each passing iff its condition holds or skipped where it was not asked, and, for a whitelisting, every entry but the deadline of every listed contract's verdict under that contract's name |
| TtlCache.InMemoryCache.Create | packages/guardian-defaults/src/cache/in-memory.ts:81-98 | the factory rejects a non-positive default time to live and otherwise starts empty |
| TtlCache.InMemoryCache.RawGet | packages/guardian-defaults/src/cache/in-memory.ts:107-115 | answers an unexpired entry and deletes an expired one |
| TtlCache.InMemoryCache.Get | packages/guardian-defaults/src/cache/types.ts:77-92 | the validated read answers only a valid unexpired value and purges an invalid entry |
| TtlCache.InMemoryCache.Set | packages/guardian-defaults/src/cache/in-memory.ts:117-138 | a write re-inserts at the end, then sweeps and trims when over the bound; a non-positive time to live changes nothing |
| TtlCache.InMemoryCache.SweepExpired | packages/guardian-defaults/src/cache/in-memory.ts:144-148 | the in-place sweep leaves exactly the unexpired entries in order |
| TtlCache.InMemoryCache.TrimToBound | packages/guardian-defaults/src/cache/in-memory.ts:150-160 | the trim removes exactly the oldest entries over the bound |
| TtlCache.AfterSetKeeps | packages/guardian-defaults/src/cache/in-memory.ts:117-138 | after every write keys are distinct and the size is within `maxEntries` |
| CacheRuns.RunHoldsLastWrites | packages/guardian-defaults/src/cache/in-memory.ts:107-160 | in every run the cache holds at most `maxEntries` entries with distinct keys, each a last write that was not deleted or purged |
| CacheRuns.GetAnswersLastWrite | packages/guardian-defaults/src/cache/in-memory.ts:107-138 | a read answers only the value of the last carried-out write under its key, not deleted since, valid, and younger than its own time to live or else the default |
| CacheRuns.RunIsOrdered | packages/guardian-defaults/src/cache/in-memory.ts:129-132 | entries stand in the order of their last writes |
| CacheRuns.MissingIsExcused | packages/guardian-defaults/src/cache/in-memory.ts:134-160 | a key whose last write has not expired is missing only if at least `maxEntries` other distinct keys were written after it |
| CacheRuns.LiveKeyIsAnswered | packages/guardian-defaults/src/cache/in-memory.ts:107-160 | conversely the last valid write of a key is answered until it expires, unless `maxEntries` other keys were written after it |
| CacheRuns.ReadDropsDead | packages/guardian-defaults/src/cache/types.ts:77-92 | a read drops the entry under its key exactly when that has expired or is invalid, and no other |
| CacheRuns.OverfullWriteSweeps | packages/guardian-defaults/src/cache/in-memory.ts:134-148 | a write over the bound leaves nothing expired |
| CacheRuns.RoomyWriteKeepsAll | packages/guardian-defaults/src/cache/in-memory.ts:117-138 | a write that stays within the bound removes nothing but the old entry of its key, expired entries included |
| TtlCache.SetThenGet | packages/guardian-defaults/src/cache/in-memory.ts:107-138 | a valid value is answered right after its write until it expires |
| RateLimit.InMemoryStore.Sweep | packages/guardian-defaults/src/rate-limit/store.ts:85-89 | the sweep removes exactly the closed windows |
| RateLimit.InMemoryStore.Read | packages/guardian-defaults/src/rate-limit/store.ts:97-106 | a read answers an open window and drops a closed one |
| RateLimit.InMemoryStore.Write | packages/guardian-defaults/src/rate-limit/store.ts:107-110 | a write stores the state and sweeps on every 256th write |
| RateLimit.WriteSweeps | packages/guardian-defaults/src/rate-limit/store.ts:85-110 | a write stores its state, and exactly every 256th one drops the closed windows and nothing else |
| RateLimit.ConsumeWrites | packages/guardian-defaults/src/rate-limit/store.ts:111-137 | the store is written exactly when the request is admitted |
| RateLimit.InMemoryStore.ConsumeKey | packages/guardian-defaults/src/rate-limit/store.ts:111-137 | the synchronous check-and-increment returns the decision and leaves the store the run theorems use |
| RateLimit.RateLimiter.Account | packages/guardian-defaults/src/rate-limit/in-memory.ts:163-201 | the limiter answers with the remaining budget or a Retry-After from the clock read after the decision |
| RateLimit.AnswersTheCaller | packages/guardian-defaults/src/rate-limit/in-memory.ts:179-200 | an admitted caller is told the limit, max(0, limit - count) and the reset; a refused one only Retry-After |
| RateLimit.WindowIsKept | packages/guardian-defaults/src/rate-limit/store.ts:111-137 | a refusal happens only at a full open window and leaves it; an admission counts one more in the open window, or opens one that ends at now + windowSeconds rounded up |
| RateLimit.WindowAdmitsLimit | packages/guardian-defaults/src/rate-limit/store.ts:111-137 | a new window admits exactly its first `limit` requests |
| RateLimit.SpanBound | packages/guardian-defaults/src/rate-limit/store.ts:111-137 | at most 2 * limit admissions in any span of `windowSeconds` rounded up to whole seconds, for every earlier history and non-decreasing clock |
| RateLimit.SharpSpanBound | packages/guardian-defaults/src/rate-limit/store.ts:111-137 | in `windowSeconds` consecutive seconds at most 2 * limit - 1 admissions |
| RateLimit.SharpBoundAttained | packages/guardian-defaults/src/rate-limit/store.ts:111-137 | an input that attains the sharp bound |
| RateLimit.KeysAreIsolated | packages/guardian-defaults/src/rate-limit/store.ts:85-94 | in any interleaved run of the store, sweeps included, each key's decisions are those of a run of that key alone without sweeps |
| RateLimit.StoreSpanBound | packages/guardian-defaults/src/rate-limit/store.ts:111-137 | the span bound holds per key in every run of the store |
| RateLimit.RetryAfterIsExact | packages/guardian-defaults/src/rate-limit/in-memory.ts:179-194 | Retry-After is an integer of at least 1 (section 10.2.3 of RFC 9110) after which the window has closed, and no shorter longer-than-zero whole wait would do |
| RateLimit.WaitingIsAdmitted | packages/guardian-defaults/src/rate-limit/in-memory.ts:179-194 | a caller that waits as told is admitted, even when the clock was read after the decision |
| RateLimit.RemainingIsTruthful | packages/guardian-defaults/src/rate-limit/in-memory.ts:196-200 | the remaining count is exactly what the rest of the window admits |
| RateLimitQueue.RunKeeps | packages/guardian-defaults/src/rate-limit/in-memory.ts:99-161 | after every run, for any interleaving of arrivals, aborts, failures, expiring windows and keys, each decision is the one on what its own read showed, and the store shows the state written last or has dropped it closed |
| RateLimitQueue.FallbackRefinesConsume | packages/guardian-defaults/src/rate-limit/in-memory.ts:127-161 | a decision is the atomic one on the state written last exactly unless its read missed a window with lock second < reset <= read second; a key's decisions are those of atomic consume run in queue order at the seconds of the locks exactly when no read did; the store then shows the state that run leaves |
| RateLimitQueue.MutualExclusion | packages/guardian-defaults/src/rate-limit/in-memory.ts:99-125 | at most one task per key is between its read and its write, pending never exceeds 64, and a key has a chain iff it is busy |
| RateLimitQueue.ArrivalJoinsIff | packages/guardian-defaults/src/rate-limit/in-memory.ts:99-125 | in every run a caller is rejected exactly when 64 tasks of its key are pending, and otherwise joins the end of that key's chain |
| RateLimitQueue.HeadIsServed | packages/guardian-defaults/src/rate-limit/in-memory.ts:127-161 | an undisturbed head gets the atomic decision at its second, stores the counted state iff admitted, and leaves its chain to the next |
| RateLimitQueue.HeadIsDropped | packages/guardian-defaults/src/rate-limit/in-memory.ts:127-161 | a head that was aborted while queued or whose read fails leaves the store as it was and its chain to the next |
| RateLimitQueue.WriteIsDropped | packages/guardian-defaults/src/rate-limit/in-memory.ts:143-160 | a failed write leaves the store as it was or, if it took effect, charges the key without reporting an admission; either way the chain goes on to the next |
| RateLimitQueue.AbortedHasNoEffect | packages/guardian-defaults/src/rate-limit/in-memory.ts:129-138 | a task aborted while it waits never touches the store, whatever happens next |
| RateLimitQueue.AbortMarks | packages/guardian-defaults/src/rate-limit/in-memory.ts:129-138 | an abort marks its task and nothing else |
| RateLimitQueue.FallbackSpanBound | packages/guardian-defaults/src/rate-limit/in-memory.ts:127-161 | for every run, at most (2 + m) * limit admissions of a key in a span of the window width, m being the reads in it that missed an open window; writes that failed after taking effect are counted |
| RateLimitCounts.AdmittedNeverExceedStored | packages/guardian-defaults/src/rate-limit/in-memory.ts:143-160 | at every moment of a run the stored count of a key covers the admissions reported for the stored window, even if writes fail after taking effect, exactly if no effect re-opens, with the same second of reset, a missed window that has been reported for |
| RateLimitMisses.MissedWindowOverAdmits | packages/guardian-defaults/src/rate-limit/in-memory.ts:139-160 | a run in which a read misses an open window: the decisions differ from atomic consume, the span bound for one miss is attained, and an effect forgets an admission, so that the stored count falls short |
| WhitelistNonces.CandidatesAreExact | packages/guardian-coordinator/src/whitelist-nonces.ts:55-76 | the candidates are exactly the unconsumed nonces n with floor <= n <= floor + min(max, 255) and n < 2^256 - 1, increasing, each passing the nonce checks |
| WhitelistNonces.WindowIsContiguous | packages/guardian-coordinator/src/whitelist-nonces.ts:55-62 | the window is a run of consecutive nonces that starts at the floor and stays below 2^256 - 1 |
| WhitelistNonces.ConfirmKeeps | packages/guardian-coordinator/src/whitelist-nonces.ts:78-89 | a floor is sent only past a window whose every nonce is consumed at the finalized block |
| WhitelistNonces.PollSends | packages/guardian-coordinator/src/whitelist-nonces.ts:55-116 | an undisturbed poll sends the floor one past the window, at most 256 above the old one, exactly when every nonce of the window is consumed at the head and at the finalized block, the new floor is below 2^256 - 1, and there is an account with nothing pending; otherwise it sends nothing |
| WhitelistNonces.FloorNeverSkips | packages/guardian-coordinator/src/whitelist-nonces.ts:78-116 | in every run with reorganisations, late or lost transactions and several pollers, every nonce below any block's floor is consumed at the finalized block, and the floor stays below 2^256 - 1 |
| WhitelistNonces.FinalityHolds | packages/guardian-coordinator/src/whitelist-nonces.ts:78-87 | consumption seen at the finalized block is never undone |
| Coordinator.GuardianCoordinator.HandleItem | packages/guardian-coordinator/src/index.ts:205-316 | one row updates counters, ledger and visits as the row semantics say |
| Coordinator.GuardianCoordinator.RunOnce | packages/guardian-coordinator/src/index.ts:176-322 | the nested filter, page and row loops perform one poll |
| Coordinator.GuardianCoordinator.RunCycle | packages/guardian-coordinator/src/index.ts:149-174 | a cycle starts from zero counters and ends balanced, also when the poll throws |
| Coordinator.PollIsBalanced | packages/guardian-coordinator/src/index.ts:203-315 | at the end of every poll, also of one that throws on a page fetch, fetched = signed + skipped + failed |
| CoordinatorRuns.PollCoversListing | packages/guardian-coordinator/src/index.ts:185-319 | over an unchanging listing each row is visited exactly once per filter, in order, and max(1, ceil(total / pageSize)) pages are fetched per filter |
| CoordinatorRuns.PollVisitsAnswered | packages/guardian-coordinator/src/index.ts:185-319 | against any server a poll visits the rows of each page it asks for once and in order, goes on exactly past a nonempty page with number * pageSize < total, ends at the first page it cannot fetch, and succeeds exactly if there is none |
| CoordinatorRuns.ServedListingEnds | packages/guardian-coordinator/src/index.ts:318 | an unchanging listing ends the page loop |
| CoordinatorRuns.FiltersAreAllPairs | packages/guardian-coordinator/src/index.ts:460-466 | the filters are all pairs of configured chain and facility, an absent or empty set standing for any |
| CoordinatorRuns.TwoTimeoutsAtMost | packages/guardian-coordinator/src/index.ts:214-311 | over any number of polls a request times out at most twice, is then only skipped, and until then is attempted on every visit whatever else failed |
| CoordinatorRuns.GivingUpNeedsWholeBudget | packages/guardian-coordinator/src/index.ts:31-46 | over any number of polls, a request whose every visit outlasts the budget is skipped from the third visit on exactly when the budget is a whole number of milliseconds; with any other budget no timeout is counted and every visit is an attempt |
| SignTimeouts.TimeoutRecognisedIff | packages/guardian/src/lib/deadline.ts:112-116 | the pattern matches the deadline error's message exactly for a whole-millisecond budget |
| SignTimeouts.TimeoutMessages | packages/guardian-coordinator/src/index.ts:31-33 | a message counts as a sign timeout exactly when it is the fixed text with one or more digits before "ms" |
| CoordinatorRuns.CountersAreExact | packages/guardian-coordinator/src/index.ts:203-372 | over a poll the `signed`, `skipped` and `failed` counters are the numbers of rows visited with that outcome: signed iff open, not given up on after two timeouts, matching its metadata, passing the filters, and accepted by the guardian, over the reserved hash with a reserved candidate nonce if it is a whitelisting without a nonce, else over its own payload hash without one; skipped iff not open or given up on; a visit counts as a sign timeout exactly when the first service that failed on its way reports one; and each signed visit submits that nonce or none |
| CoordinatorRuns.SubmittedNonceIsCandidate | packages/guardian-coordinator/src/index.ts:249-297 | a reserved and submitted nonce is an unconsumed nonce of the validator's window |
| CoordinatorRuns.EmptySetSignsNothing | packages/guardian-coordinator/src/index.ts:235-241 | a configured but empty chain or facility set leaves that dimension of the listing unfiltered and signs no row |
| IntentSwap.ClassifySlots | packages/guardian-defaults/src/checks/intent-swap.ts:198-224 | the slot loop reports a failure that is not deterministic, else whether any deterministic one occurred |
| IntentSwap.BuildChecks | packages/guardian-defaults/src/checks/intent-swap.ts:109-365 | the runner computes the verdict of the swap semantics |
| IntentSwap.SwapVerdict | packages/guardian-defaults/src/checks/intent-swap.ts:125-365 | with no upstream failure, Ok iff deadline <= now + maxDeadlineSecondsAhead and exactly one leg is a position manager with accepted owner, matching debt asset, non-zero denominator and fair price |
| IntentSwap.SwapUnavailableIff | packages/guardian-defaults/src/checks/intent-swap.ts:125-300 | the failure is upstream exactly when factories are configured and the reads throw, a slot fails in transport, a slot reverts and neither leg is a manager, or the views of the only manager cannot be read |
| ReportedEntries.SwapEntries | packages/guardian-defaults/src/checks/intent-swap.ts:125-365 | the verdict carries its five entries, each passing iff the condition it names holds, or skipped where an earlier answer leaves it open |
| IntentSwap.PriceBand | packages/guardian-defaults/src/checks/intent-swap.ts:325-346 | acceptance is exactly N - (tol+1)*D < actual*D <= N + tol*D |
| IntentSwap.RoundingSlack | packages/guardian-defaults/src/checks/helpers.ts:222-225 | with bps >= 1 both roundings of N/D are accepted; with bps = 0 only the floor |
| IntentSwap.ToleranceMonotone | packages/guardian-defaults/src/checks/helpers.ts:222-225 | a wider tolerance accepts whatever a narrower one does |
| IntentSwap.RelativeError | packages/guardian-defaults/src/checks/intent-swap.ts:86-91 | an accepted amount deviates by at most the basis points, or by one wei |
| IntentSwap.LegOrderNeverMatters | packages/guardian-defaults/src/checks/intent-swap.ts:198-265 | legs [a, b] and [b, a] give the same entries or the same error, for every policy and chain state |
| IntentSwap.CanonicalIsSorted | packages/guardian/src/typed-data/intent-swap.ts:57-75 | the canonical legs are a sorted permutation of the given ones, a tie keeping their order |
| IntentSwap.CanonicalIgnoresOrder | packages/guardian/src/typed-data/intent-swap.ts:57-75 | both orders give the same pair exactly unless the legs differ in the spelling of the asset alone |
| IntentSwap.SignatureIgnoresOrder | packages/guardian/src/typed-data/intent-swap.ts:88-112 | for schema-normalised legs the whole path from checks to message ignores leg order |
| IntentSwap.MessageCarries | packages/guardian/src/typed-data/intent-swap.ts:88-112 | a message exists iff the verifying contract is the facility, and carries the two legs, each with its own id, token and amount, the lesser by id, then token, then amount first, and the deadline |
| IntentSwap.MessageBinds | packages/guardian/src/typed-data/intent-swap.ts:96-110 | two bodies with one message carry the same legs, in some order, and the same deadline |

## Left out

- Transport, multicall and error classes: a read's outcome is a tag.
- Signatures, hashing and key management: only the message that is signed is kept.
- The HTTP shell, request headers and environment parsing.
- Appendix A.2 fund binding and the EIP-712 domain cache: easier instances of what is proved here.
- The wording of failure reasons and of log lines.
- Non-finite numbers as options (NaN, infinities); the sign checks on options are modelled.
- Reorganisations between the `getLogs` calls of one scan: a scan sees one chain.
- The value a transforming schema would substitute on a cache read: schemas only accept or reject.
- Promise chains of the rate-limit fallback are values in a step system rather than objects updated in place; a failed write that takes effect only after its task settled is not a step.
- RequestWhitelisting.BuildChecks: threads the cache as a value that may lose entries, not as the cache object; BindingCache.RunCached is the form over the object.
- SignTimeouts.TimeoutRecognisedIff: durations are rendered as whole, decimal or exponent text, not by the full number-to-text algorithm.
- WhitelistNonces.FloorNeverSkips: account nonces and receipts only gate a transaction; what an undisturbed poll sends is WhitelistNonces.PollSends, and nothing is claimed about when it is mined.
