/** The stored state of the liquid-staking contract: its investment
    configuration, the share supply it tracks, and the errors it reports. */
module StakingState {

  import opened Results
  import opened Cosmos
  import opened FixedPoint

  /** `cw_utils::Duration`: a number of blocks or of seconds. */
  datatype Duration = Height(blocks: u64) | Time(seconds: u64)

  /** `cw_utils::Expiration` at which a claim matures. */
  datatype Expiration = AtHeight(height: nat) | AtTime(nanos: nat)

  /** `Duration::after`: that many blocks or seconds after the current block. */
  function After(d: Duration, env: Env): (e: Expiration)
    ensures d.Height? ==> e == AtHeight(env.height + d.blocks)
    ensures d.Time? ==> e == AtTime(env.time.nanos + d.seconds * NANOS_PER_SECOND)
  {
    match d
    case Height(blocks) => AtHeight(env.height + blocks)
    case Time(seconds) => AtTime(env.time.nanos + seconds * NANOS_PER_SECOND)
  }

  /** `InvestmentInfo`: fixed at instantiation. */
  datatype InvestmentInfo = InvestmentInfo(
    owner: Addr,
    bondDenom: string,
    unbondingPeriod: Duration,
    commission: Decimal,
    validator: string,
    minWithdrawal: nat)

  /** `Supply`: derivative tokens issued, native tokens bonded, and native
      tokens held back for pending claims. */
  datatype Supply = Supply(issued: nat, bonded: nat, claims: nat)

  /** The contract's two storage items. */
  datatype Staking = Staking(invest: InvestmentInfo, supply: Supply)

  /** The errors the contract returns. `Overflow` is a failed `checked_sub` of
      `subtrahend` from `minuend`; `Aborted` stands for a panic. */
  datatype StakingError =
    | EmptyBalance(denom: string)
    | DifferentBondDenom(denom1: string, denom2: string)
    | BondedMismatch(stored: nat, queried: nat)
    | UnbondTooSmall(minBonded: nat, denom: string)
    | BalanceTooSmall
    | NothingToClaim
    | Unauthorized
    | NoInValidatorSet(validator: string)
    | Overflow(minuend: nat, subtrahend: nat)
    | Cw20Failed(reason: string)
    | Aborted(reason: string)

  /** `Uint128::checked_sub`. */
  function CheckedSub(a: nat, b: nat): (r: Result<nat, StakingError>)
    ensures r.Ok? <==> b <= a
    ensures r.Ok? ==> r.value + b == a
    ensures r.Err? ==> r.error == Overflow(a, b)
  {
    if b <= a then Ok(a - b) else Err(Overflow(a, b))
  }

  /** The calls the contract makes into its cw20 token. */
  datatype TokenOp = Mint(recipient: Addr, amount: nat) | Burn(owner: Addr, amount: nat)

  /** The cw20 token implementation, which the contract does not define: the
      outcome of each token call. */
  type Cw20 = TokenOp -> Result<(), StakingError>

  /** A claim on unbonded tokens, recorded for `owner`. */
  datatype ClaimRecord = ClaimRecord(owner: Addr, amount: nat, releaseAt: Expiration)

  /** What a successful call leaves behind: the new supply, the token calls
      made, the claim created (if any) and the messages returned. */
  datatype Effects = Effects(
    supply: Supply,
    tokenOps: seq<TokenOp>,
    claim: Option<ClaimRecord>,
    messages: seq<CosmosMsg>)
}
