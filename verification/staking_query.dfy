/** `query_investment`: the staking contract's configuration and supply, with
    the nominal value of one derivative token in native tokens. */
module StakingQuery {

  import opened Cosmos
  import opened FixedPoint
  import opened StakingState

  datatype InvestmentResponse = InvestmentResponse(
    owner: Addr,
    commission: Decimal,
    validator: string,
    minWithdrawal: nat,
    tokenSupply: nat,
    stakedTokens: Coin,
    nominalValue: Decimal)

  /** bonded/issued rounded down to 18 digits, and exactly one while no
      derivative token is issued. The query only reads the state. */
  function QueryInvestment(st: Staking): (r: InvestmentResponse)
    ensures st.supply.issued == 0 ==> r.nominalValue == One()
    ensures st.supply.issued > 0 ==>
              r.nominalValue.atomics * st.supply.issued <= st.supply.bonded * DECIMAL_FRACTIONAL
                < (r.nominalValue.atomics + 1) * st.supply.issued
    ensures r.tokenSupply == st.supply.issued
    ensures r.stakedTokens == Coin(st.invest.bondDenom, st.supply.bonded)
    ensures r.owner == st.invest.owner && r.commission == st.invest.commission
    ensures r.validator == st.invest.validator && r.minWithdrawal == st.invest.minWithdrawal
  {
    var nominal := if st.supply.issued == 0 then One() else FromRatio(st.supply.bonded, st.supply.issued);
    InvestmentResponse(
      st.invest.owner, st.invest.commission, st.invest.validator, st.invest.minWithdrawal,
      st.supply.issued, Coin(st.invest.bondDenom, st.supply.bonded), nominal)
  }

  /** When bonded is a whole multiple `k/10^18` of issued, that is the nominal value. */
  lemma NominalValueExact(st: Staking, k: nat)
    requires st.supply.issued > 0
    requires st.supply.bonded * DECIMAL_FRACTIONAL == k * st.supply.issued
    ensures QueryInvestment(st).nominalValue == Decimal(k)
  {
    FromRatioExact(st.supply.bonded, st.supply.issued, k);
  }
}
