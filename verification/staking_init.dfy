/** `instantiate` of the staking contract: the validator check and the initial
    token, investment and supply records. The validator set and the chain's
    bonded denom are host queries, passed in. */
module StakingInit {

  import opened Results
  import opened Cosmos
  import opened FixedPoint
  import opened StakingState

  datatype InstantiateMsg = InstantiateMsg(
    name: string,
    symbol: string,
    decimals: byte,
    validator: string,
    unbondingPeriod: Duration,
    commission: Decimal,
    minWithdrawal: nat)

  /** cw20 `MinterData`: who may mint, and the cap, if any. */
  datatype MinterData = MinterData(minter: Addr, cap: Option<nat>)

  /** cw20 `TokenInfo` of the derivative token. */
  datatype TokenInfo = TokenInfo(name: string, symbol: string, decimals: byte, totalSupply: nat, mint: Option<MinterData>)

  function Instantiate(msg: InstantiateMsg, env: Env, sender: Addr, validators: seq<string>, bondedDenom: string)
    : (r: Result<(Staking, TokenInfo), StakingError>)
    ensures r.Ok? <==> msg.validator in validators
    ensures r.Err? ==> r.error == NoInValidatorSet(msg.validator)
    ensures r.Ok? ==>
              var (st, token) := r.value;
              && st.supply == Supply(0, 0, 0)
              && st.invest == InvestmentInfo(sender, bondedDenom, msg.unbondingPeriod, msg.commission, msg.validator, msg.minWithdrawal)
              && token == TokenInfo(msg.name, msg.symbol, msg.decimals, 0, Some(MinterData(env.contract, None)))
  {
    if msg.validator !in validators then Err(NoInValidatorSet(msg.validator))
    else
      var token := TokenInfo(msg.name, msg.symbol, msg.decimals, 0, Some(MinterData(env.contract, None)));
      var invest := InvestmentInfo(sender, bondedDenom, msg.unbondingPeriod, msg.commission, msg.validator, msg.minWithdrawal);
      Ok((Staking(invest, Supply(0, 0, 0)), token))
  }
}
