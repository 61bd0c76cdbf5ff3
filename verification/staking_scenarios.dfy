/** The staking contract's test scenarios replayed on the model: instantiate,
    bond, reinvest, unbond and claim, with the supplies and nominal values the
    tests expect. Every cw20 call succeeds here unless stated otherwise. */
module StakingScenarios {

  import opened Results
  import opened Cosmos
  import opened FixedPoint
  import opened StakingState
  import opened StakingExec
  import opened StakingQuery
  import opened StakingInit

  const VALIDATOR: string := "default-validator"
  const NATIVE: string := "ustake"
  const THREE_DAYS: Duration := Time(3 * 86400)

  function TokenAlwaysSucceeds(): Cw20
  {
    (op: TokenOp) => Ok(())
  }

  function DefaultMsg(commission: nat, minWithdrawal: nat): InstantiateMsg
  {
    InstantiateMsg("CoolDollar", "cdr", 9, VALIDATOR, THREE_DAYS, Percent(commission), minWithdrawal)
  }

  /** A contract freshly set up by "creator" with the default validator present. */
  function Fresh(env: Env, commission: nat, minWithdrawal: nat): Staking
  {
    Instantiate(DefaultMsg(commission, minWithdrawal), env, "creator", [VALIDATOR], NATIVE).value.0
  }

  /** After instantiation the investment query reports no supply, nothing
      staked, a nominal value of one and the configuration as given; the
      token has no supply, the contract mints it, and there is no cap. */
  lemma InstantiateThenQuery(msg: InstantiateMsg, env: Env, sender: Addr, validators: seq<string>, denom: string)
    requires Instantiate(msg, env, sender, validators, denom).Ok?
    ensures var (st, token) := Instantiate(msg, env, sender, validators, denom).value;
            var q := QueryInvestment(st);
            && q.tokenSupply == 0 && q.stakedTokens == Coin(denom, 0) && q.nominalValue == One()
            && q.owner == sender && q.commission == msg.commission
            && q.validator == msg.validator && q.minWithdrawal == msg.minWithdrawal
            && token.totalSupply == 0 && token.mint == Some(MinterData(env.contract, None))
  {
  }

  /** A single delegation totals its own amount. */
  lemma SingleDelegation(c: Coin)
    ensures GetBounded([c]) == Ok(c.amount)
  {
    assert [c][..0] == [];
    assert SumAmounts([c]) == SumAmounts([]) + c.amount;
  }

  lemma MissingValidatorExample(env: Env)
    ensures Instantiate(InstantiateMsg("CoolD", "cdr", 9, "validator1", Time(7 * 86400), Percent(2), 50), env, "creator", ["john"], NATIVE)
         == Err(NoInValidatorSet("validator1"))
  {
  }

  /** Bob bonds 1000 alongside a coin of another denom and gets 1000 shares at
      a ratio of one; only the bond-denom coin is delegated. */
  lemma BondingIssuesTokensExample(env: Env)
    ensures var st := Fresh(env, 2, 50);
            var r := Bond(st, "bob", [Coin("random", 10), Coin(NATIVE, 1000)], [], TokenAlwaysSucceeds());
            && r == Ok(Effects(Supply(1000, 1000, 0), [Mint("bob", 1000)], None, [Delegate(VALIDATOR, Coin(NATIVE, 1000))]))
            && QueryInvestment(Staking(st.invest, r.value.supply)).nominalValue == One()
  {
    var st := Fresh(env, 2, 50);
    assert Payment([Coin("random", 10), Coin(NATIVE, 1000)], NATIVE) == Some(Coin(NATIVE, 1000)) by {
      assert FirstOfDenom([Coin("random", 10), Coin(NATIVE, 1000)], NATIVE) == 1 by {
        assert [Coin("random", 10), Coin(NATIVE, 1000)][1..] == [Coin(NATIVE, 1000)];
      }
    }
    NominalValueExact(Staking(st.invest, Supply(1000, 1000, 0)), DECIMAL_FRACTIONAL);
  }

  /** A coin of any other denom is no payment. */
  lemma WrongDenomExample(env: Env)
    ensures Bond(Fresh(env, 2, 50), "bob", [Coin("ustake1", 500)], [], TokenAlwaysSucceeds())
         == Err(EmptyBalance(NATIVE))
  {
  }

  /** Reinvesting 2000 on top of Bob's 1000 triples the price; Alice's 3000
      then buys 1000 shares and the price stays at three. */
  lemma RebondingChangesPricingExample(env: Env)
    ensures var st := Staking(Fresh(env, 2, 50).invest, Supply(1000, 1000, 0));
            var reinvested := BondAllTokens(st, env, env.contract, 2000);
            && reinvested == Ok(Effects(Supply(1000, 3000, 0), [], None, [Delegate(VALIDATOR, Coin(NATIVE, 2000))]))
            && QueryInvestment(Staking(st.invest, Supply(1000, 3000, 0))).nominalValue == Decimal(3 * DECIMAL_FRACTIONAL)
            && Bond(Staking(st.invest, Supply(1000, 3000, 0)), "alice", [Coin(NATIVE, 3000)], [Coin(NATIVE, 3000)], TokenAlwaysSucceeds())
               == Ok(Effects(Supply(2000, 6000, 0), [Mint("alice", 1000)], None, [Delegate(VALIDATOR, Coin(NATIVE, 3000))]))
            && QueryInvestment(Staking(st.invest, Supply(2000, 6000, 0))).nominalValue == Decimal(3 * DECIMAL_FRACTIONAL)
  {
    var inv := Fresh(env, 2, 50).invest;
    NominalValueExact(Staking(inv, Supply(1000, 3000, 0)), 3 * DECIMAL_FRACTIONAL);
    NominalValueExact(Staking(inv, Supply(2000, 6000, 0)), 3 * DECIMAL_FRACTIONAL);
    MultiplyRatioExact(3000, 1000, 3000, 1000);
    SingleDelegation(Coin(NATIVE, 3000));
  }

  /** Bob unbonds 600 at a 10% commission with 1500 bonded for 1000 shares:
      60 shares go to the creator, 540 are redeemed for 810, leaving 690
      bonded for 460 shares, a price of 1.5. */
  lemma UnbondMaintainsPriceExample(env: Env)
    ensures var st := Staking(Fresh(env, 10, 50).invest, Supply(1000, 1500, 0));
            && Unbond(st, env, "bob", 600, [Coin(NATIVE, 1500)], TokenAlwaysSucceeds())
               == Ok(Effects(Supply(460, 690, 810), [Burn("bob", 600), Mint("creator", 60)],
                             Some(ClaimRecord("bob", 810, After(THREE_DAYS, env))),
                             [Undelegate(VALIDATOR, Coin(NATIVE, 810))]))
            && QueryInvestment(Staking(st.invest, Supply(460, 690, 810))).nominalValue
               == Decimal(3 * DECIMAL_FRACTIONAL / 2)
  {
    var inv := Fresh(env, 10, 50).invest;
    var st := Staking(inv, Supply(1000, 1500, 0));
    var ops := [Burn("bob", 600), Mint("creator", 60)];
    assert MulFloor(600, Percent(10)) == 60;
    MultiplyRatioExact(540, 1500, 1000, 810);
    SingleDelegation(Coin(NATIVE, 1500));
    assert CheckedSub(600, 60) == Ok(540);
    assert Redeem(st, env, "bob", 540, ops).Ok?;
    assert st.invest.commission == Percent(10) && st.invest.owner == "creator";
    assert [Burn("bob", 600)] + [Mint("creator", 60)] == ops;
    assert TokenAlwaysSucceeds()(Burn("bob", 600)) == Ok(()) && TokenAlwaysSucceeds()(Mint("creator", 60)) == Ok(());
    assert AssertBonds(st.supply, st.supply.bonded) == Ok(());
    assert Unbond(st, env, "bob", 600, [Coin(NATIVE, st.supply.bonded)], TokenAlwaysSucceeds()) == Redeem(st, env, "bob", 540, ops);
    NominalValueExact(Staking(inv, Supply(460, 690, 810)), 3 * DECIMAL_FRACTIONAL / 2);
  }

  /** When the token refuses to burn the creator's shares, unbonding fails with
      the token's error. */
  lemma UnbondWithoutSharesExample(env: Env)
    ensures var st := Staking(Fresh(env, 10, 50).invest, Supply(1000, 1500, 0));
            var refuse := (op: TokenOp) => if op == Burn("creator", 600) then Err(Overflow(0, 600)) else Ok(());
            Unbond(st, env, "creator", 600, [Coin(NATIVE, 1500)], refuse) == Err(Overflow(0, 600))
  {
  }

  /** Bob's claim of 540 is paid once the contract holds 540 and the claim
      has matured, and clears the claims; with an empty balance, or before
      maturity (nothing released), it is refused. */
  lemma ClaimsPaidOutExample(env: Env)
    ensures var st := Staking(Fresh(env, 10, 50).invest, Supply(460, 460, 540));
            && Claim(st, "bob", 0, 0) == Err(BalanceTooSmall)
            && Claim(st, "bob", 540, 0) == Err(NothingToClaim)
            && Claim(st, "bob", 540, 540) == Ok(Effects(Supply(460, 460, 0), [], None, [BankSend("bob", [Coin(NATIVE, 540)])]))
  {
  }

  /** The supply before that claim is what unbonding 600 of Bob's 1000 at 10%
      leaves when 1000 is bonded. */
  lemma UnbondBeforeClaimExample(env: Env)
    ensures Unbond(Staking(Fresh(env, 10, 50).invest, Supply(1000, 1000, 0)), env, "bob", 600, [Coin(NATIVE, 1000)], TokenAlwaysSucceeds())
            == Ok(Effects(Supply(460, 460, 540), [Burn("bob", 600), Mint("creator", 60)],
                          Some(ClaimRecord("bob", 540, After(THREE_DAYS, env))),
                          [Undelegate(VALIDATOR, Coin(NATIVE, 540))]))
  {
    var st := Staking(Fresh(env, 10, 50).invest, Supply(1000, 1000, 0));
    var ops := [Burn("bob", 600), Mint("creator", 60)];
    assert MulFloor(600, Percent(10)) == 60;
    MultiplyRatioExact(540, 1000, 1000, 540);
    SingleDelegation(Coin(NATIVE, 1000));
    assert CheckedSub(600, 60) == Ok(540);
    assert Redeem(st, env, "bob", 540, ops).Ok?;
    assert st.invest.commission == Percent(10) && st.invest.owner == "creator";
    assert [Burn("bob", 600)] + [Mint("creator", 60)] == ops;
    assert TokenAlwaysSucceeds()(Burn("bob", 600)) == Ok(()) && TokenAlwaysSucceeds()(Mint("creator", 60)) == Ok(());
    assert AssertBonds(st.supply, st.supply.bonded) == Ok(());
    assert Unbond(st, env, "bob", 600, [Coin(NATIVE, st.supply.bonded)], TokenAlwaysSucceeds()) == Redeem(st, env, "bob", 540, ops);
  }
}
