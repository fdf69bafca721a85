/** The check entries a runner emits and the helpers the runners share. */
module Checks {
  import opened Common

  datatype Description =
    | DeadlineWithinCeiling
    | DeployedByAcceptedFactory
    | OwnerAccepted
    | PullerAccepted
    | ConsumerAccepted
    | ExecutorAccepted
    | ContractTrusted
    | OwnerIsRetargetter
    | AttachedRequest
    | RepaymentBuffer
    | BatchSize
    | BookAccepted
    | BookExposesNonces
    | NonceNotConsumed
    | NonceAtOrAboveFloor
    | NonceWithinCeiling
    | ExactlyOnePositionManager
    | ManagerOwnerAccepted
    | DebtAssetMatches
    | PriceWithinTolerance
    | ForContract(what: Description, contract: Address)

  /** One entry; the wording of a failure's reason is not modelled. */
  datatype CheckEntry = CheckEntry(description: Description, passed: bool, skipped: bool)

  function Passed(d: Description): CheckEntry { CheckEntry(d, true, false) }

  function Skipped(d: Description): CheckEntry { CheckEntry(d, true, true) }

  function Failed(d: Description): CheckEntry { CheckEntry(d, false, false) }

  datatype RunnerError = UpstreamUnavailable | ValidationFailed(checks: seq<CheckEntry>)

  type Verdict = Result<seq<CheckEntry>, RunnerError>

  predicate AllPassed(checks: seq<CheckEntry>) {
    forall i :: 0 <= i < |checks| ==> checks[i].passed
  }

  function RollUp(checks: seq<CheckEntry>): Verdict {
    if AllPassed(checks) then Ok(checks) else Err(ValidationFailed(checks))
  }

  /** The entries a verdict carries, on either side. */
  function Entries(v: Verdict): seq<CheckEntry>
    requires v != Err(UpstreamUnavailable)
  {
    match v
    case Ok(checks) => checks
    case Err(ValidationFailed(checks)) => checks
  }

  function CheckDeadline(nowUnix: int, deadline: int, maxAhead: int): CheckEntry {
    if deadline <= nowUnix + maxAhead then Passed(DeadlineWithinCeiling) else Failed(DeadlineWithinCeiling)
  }

  function CheckMembership(d: Description, value: Address, accepted: set<Address>): CheckEntry {
    if Accepts(accepted, value) then Passed(d) else Failed(d)
  }

  function CheckNonceWindow(nonce: int, consumed: bool, floor: int, maxAboveFloor: int): seq<CheckEntry> {
    [if consumed then Failed(NonceNotConsumed) else Passed(NonceNotConsumed),
     if nonce >= floor then Passed(NonceAtOrAboveFloor) else Failed(NonceAtOrAboveFloor),
     if nonce <= floor + maxAboveFloor then Passed(NonceWithinCeiling) else Failed(NonceWithinCeiling)]
  }
}
