/** The execute handlers of the liquid-staking contract: bond, unbond, claim,
    reinvest and the reinvestment callback, with the delegation total they all
    check the stored supply against. Host queries arrive as parameters: the
    delegations of the contract, its balance in the bond denom, and the
    outcome of every cw20 token call. */
module StakingExec {

  import opened Results
  import opened Cosmos
  import opened FixedPoint
  import opened StakingState

  /* ---------------- delegation total ---------------- */

  /** Reference total of the amounts. */
  function SumAmounts(bonds: seq<Coin>): nat
  {
    if |bonds| == 0 then 0 else SumAmounts(bonds[..|bonds| - 1]) + bonds[|bonds| - 1].amount
  }

  predicate AllDenom(bonds: seq<Coin>, denom: string)
  {
    forall i :: 0 <= i < |bonds| ==> bonds[i].denom == denom
  }

  /** `j` is the first delegation whose denom differs from `denom`. */
  predicate FirstMismatch(bonds: seq<Coin>, denom: string, j: int)
  {
    0 <= j < |bonds| && bonds[j].denom != denom && AllDenom(bonds[..j], denom)
  }

  /** The fold of `get_bounded` over the first `n` delegations: it adds the
      amounts while the denom matches and keeps the first error once one occurs. */
  function FoldBonds(bonds: seq<Coin>, denom: string, n: nat): Result<nat, StakingError>
    requires n <= |bonds|
  {
    if n == 0 then Ok(0)
    else match FoldBonds(bonds, denom, n - 1)
      case Err(e) => Err(e)
      case Ok(acc) =>
        if bonds[n - 1].denom != denom then Err(DifferentBondDenom(denom, bonds[n - 1].denom))
        else Ok(acc + bonds[n - 1].amount)
  }

  lemma {:induction false} FoldBondsMeaning(bonds: seq<Coin>, denom: string, n: nat)
    requires n <= |bonds|
    ensures FoldBonds(bonds, denom, n).Ok? <==> AllDenom(bonds[..n], denom)
    ensures FoldBonds(bonds, denom, n).Ok? ==> FoldBonds(bonds, denom, n).value == SumAmounts(bonds[..n])
    ensures FoldBonds(bonds, denom, n).Err? ==>
              exists j :: FirstMismatch(bonds, denom, j) && j < n
                && FoldBonds(bonds, denom, n).error == DifferentBondDenom(denom, bonds[j].denom)
  {
    if n > 0 {
      FoldBondsMeaning(bonds, denom, n - 1);
      var prev, pre, s := FoldBonds(bonds, denom, n - 1), bonds[..n - 1], bonds[..n];
      assert s[..n - 1] == pre;
      if prev.Err? {
        var j :| FirstMismatch(bonds, denom, j) && j < n - 1
                 && prev.error == DifferentBondDenom(denom, bonds[j].denom);
        assert s[j].denom != denom;
      } else if bonds[n - 1].denom != denom {
        assert FirstMismatch(bonds, denom, n - 1);
        assert s[n - 1].denom != denom;
      } else {
        assert forall i :: 0 <= i < n - 1 ==> s[i] == pre[i];
      }
    }
  }

  /** `get_bounded`: the total delegated by the contract. It succeeds exactly
      when every delegation is in the denom of the first, with the sum of the
      amounts; otherwise it names the first denom and the first one differing. */
  function GetBounded(bonds: seq<Coin>): (r: Result<nat, StakingError>)
    ensures |bonds| == 0 ==> r == Ok(0)
    ensures |bonds| > 0 ==> (r.Ok? <==> AllDenom(bonds, bonds[0].denom))
    ensures r.Ok? ==> r.value == SumAmounts(bonds)
    ensures r.Err? ==> |bonds| > 0
    ensures r.Err? && |bonds| > 0 ==>
              exists j :: FirstMismatch(bonds, bonds[0].denom, j) && r.error == DifferentBondDenom(bonds[0].denom, bonds[j].denom)
  {
    if |bonds| == 0 then Ok(0)
    else
      FoldBondsMeaning(bonds, bonds[0].denom, |bonds|);
      assert bonds[..|bonds|] == bonds;
      FoldBonds(bonds, bonds[0].denom, |bonds|)
  }

  /** `assert_bonds`: the stored bonded amount must equal the queried one. */
  function AssertBonds(supply: Supply, bonded: nat): (r: Result<(), StakingError>)
    ensures r.Ok? <==> supply.bonded == bonded
    ensures r.Err? ==> r.error == BondedMismatch(supply.bonded, bonded)
  {
    Ensure(supply.bonded == bonded, BondedMismatch(supply.bonded, bonded))
  }

  /* ---------------- bond ---------------- */

  /** The position of the first coin in `denom`, or `|funds|` if there is none. */
  function FirstOfDenom(funds: seq<Coin>, denom: string): (j: nat)
    ensures j <= |funds|
    ensures forall i :: 0 <= i < j ==> funds[i].denom != denom
    ensures j < |funds| ==> funds[j].denom == denom
  {
    if |funds| == 0 then 0
    else if funds[0].denom == denom then 0
    else 1 + FirstOfDenom(funds[1..], denom)
  }

  /** The payment `bond` accepts: the first coin sent in the bond denom. */
  function Payment(funds: seq<Coin>, denom: string): (r: Option<Coin>)
    ensures r.None? <==> forall i :: 0 <= i < |funds| ==> funds[i].denom != denom
    ensures r.Some? ==> r.value.denom == denom && r.value in funds
  {
    var j := FirstOfDenom(funds, denom);
    if j == |funds| then None else Some(funds[j])
  }

  /** Derivative tokens issued for `payment`: one for one while nothing is
      issued or bonded, otherwise at the current share price, rounded down. */
  function MintAmount(supply: Supply, bonded: nat, payment: nat): (r: nat)
    ensures supply.issued == 0 || bonded == 0 ==> r == payment
    ensures supply.issued > 0 && bonded > 0 ==>
              r * bonded <= payment * supply.issued < (r + 1) * bonded
  {
    if supply.issued == 0 || bonded == 0 then
      MulFloorOne(payment);
      MulFloor(payment, One())
    else MultiplyRatio(payment, supply.issued, bonded)
  }

  /** `bond`: takes the first coin in the bond denom, checks the delegation
      total against the stored one, mints shares to the sender and delegates
      the payment to the validator. */
  function Bond(st: Staking, sender: Addr, funds: seq<Coin>, delegations: seq<Coin>, cw20: Cw20)
    : (r: Result<Effects, StakingError>)
    ensures Payment(funds, st.invest.bondDenom).None? ==> r == Err(EmptyBalance(st.invest.bondDenom))
    ensures Payment(funds, st.invest.bondDenom).Some? && GetBounded(delegations).Err?
            ==> r == Err(GetBounded(delegations).error)
    ensures (Payment(funds, st.invest.bondDenom).Some? && GetBounded(delegations).Ok?
             && GetBounded(delegations).value != st.supply.bonded)
            ==> r == Err(BondedMismatch(st.supply.bonded, GetBounded(delegations).value))
    ensures r.Ok? <==>
              Payment(funds, st.invest.bondDenom).Some? && GetBounded(delegations) == Ok(st.supply.bonded)
              && cw20(Mint(sender, MintAmount(st.supply, st.supply.bonded, Payment(funds, st.invest.bondDenom).value.amount))).Ok?
    ensures r.Ok? ==>
              var payment := Payment(funds, st.invest.bondDenom).value;
              var minted := MintAmount(st.supply, st.supply.bonded, payment.amount);
              r.value == Effects(
                Supply(st.supply.issued + minted, st.supply.bonded + payment.amount, st.supply.claims),
                [Mint(sender, minted)], None, [Delegate(st.invest.validator, payment)])
  {
    var payment := Payment(funds, st.invest.bondDenom);
    if payment.None? then Err(EmptyBalance(st.invest.bondDenom))
    else
      var bonded :- GetBounded(delegations);
      var _ :- AssertBonds(st.supply, bonded);
      var minted := MintAmount(st.supply, bonded, payment.value.amount);
      var supply := st.supply.(bonded := bonded + payment.value.amount, issued := st.supply.issued + minted);
      var _ :- cw20(Mint(sender, minted));
      Ok(Effects(supply, [Mint(sender, minted)], None, [Delegate(st.invest.validator, payment.value)]))
  }

  /** Bonding never lowers the share price: bonded/issued after a bond is at
      least bonded/issued before it, because the shares minted round down. */
  lemma BondKeepsSharePrice(st: Staking, sender: Addr, funds: seq<Coin>, delegations: seq<Coin>, cw20: Cw20)
    requires st.supply.issued > 0 && st.supply.bonded > 0
    requires Bond(st, sender, funds, delegations, cw20).Ok?
    ensures var s := Bond(st, sender, funds, delegations, cw20).value.supply;
            s.bonded * st.supply.issued >= st.supply.bonded * s.issued
  {
    var p := Payment(funds, st.invest.bondDenom).value.amount;
    var b, i := st.supply.bonded, st.supply.issued;
    PriceAfterMint(b, i, p, MintAmount(st.supply, b, p));
  }

  /** Paying `p` tokens into `b` for `m <= p·i/b` new shares on top of `i`
      leaves at least the old price per share. */
  lemma PriceAfterMint(b: nat, i: nat, p: nat, m: nat)
    requires m * b <= p * i
    ensures (b + p) * i >= b * (i + m)
  {
    assert (b + p) * i == b * i + p * i;
    assert b * (i + m) == b * i + m * b;
  }

  /* ---------------- unbond ---------------- */

  /** `unbound`: burns `amount` shares of the sender, mints the commission on
      them to the owner, and turns the rest into native tokens at the share
      price (rounded down), which move from bonded to claims. Every failure
      is named, in the order the handler meets it. */
  function Unbond(st: Staking, env: Env, sender: Addr, amount: nat, delegations: seq<Coin>, cw20: Cw20)
    : (r: Result<Effects, StakingError>)
    ensures amount < st.invest.minWithdrawal ==> r == Err(UnbondTooSmall(st.invest.minWithdrawal, st.invest.bondDenom))
    ensures (amount >= st.invest.minWithdrawal && cw20(Burn(sender, amount)).Err?)
            ==> r == Err(cw20(Burn(sender, amount)).error)
    ensures var c := MulFloor(amount, st.invest.commission);
            (amount >= st.invest.minWithdrawal && cw20(Burn(sender, amount)).Ok?
             && c > 0 && cw20(Mint(st.invest.owner, c)).Err?)
            ==> r == Err(cw20(Mint(st.invest.owner, c)).error)
    ensures var c := MulFloor(amount, st.invest.commission);
            (amount >= st.invest.minWithdrawal && cw20(Burn(sender, amount)).Ok?
             && (c > 0 ==> cw20(Mint(st.invest.owner, c)).Ok?) && GetBounded(delegations).Err?)
            ==> r == Err(GetBounded(delegations).error)
    ensures var c := MulFloor(amount, st.invest.commission);
            (amount >= st.invest.minWithdrawal && cw20(Burn(sender, amount)).Ok?
             && (c > 0 ==> cw20(Mint(st.invest.owner, c)).Ok?) && GetBounded(delegations).Ok?
             && c <= amount && GetBounded(delegations).value != st.supply.bonded)
            ==> r == Err(BondedMismatch(st.supply.bonded, GetBounded(delegations).value))
    ensures var c := MulFloor(amount, st.invest.commission);
            (amount >= st.invest.minWithdrawal && cw20(Burn(sender, amount)).Ok?
             && (c > 0 ==> cw20(Mint(st.invest.owner, c)).Ok?) && GetBounded(delegations).Ok?
             && c > amount)
            ==> r == Err(Overflow(amount, c))
    ensures var c := MulFloor(amount, st.invest.commission);
            (amount >= st.invest.minWithdrawal && cw20(Burn(sender, amount)).Ok?
             && (c > 0 ==> cw20(Mint(st.invest.owner, c)).Ok?) && GetBounded(delegations) == Ok(st.supply.bonded)
             && c <= amount && st.supply.issued == 0)
            ==> r == Err(Aborted("Denominator must not be zero"))
    ensures var c := MulFloor(amount, st.invest.commission);
            (amount >= st.invest.minWithdrawal && cw20(Burn(sender, amount)).Ok?
             && (c > 0 ==> cw20(Mint(st.invest.owner, c)).Ok?) && GetBounded(delegations) == Ok(st.supply.bonded)
             && c <= amount && st.supply.issued > 0 && amount - c > st.supply.issued)
            ==> r.Err? && r.error.Overflow?
    ensures var c := MulFloor(amount, st.invest.commission);
            r.Ok? <==>
              && amount >= st.invest.minWithdrawal
              && cw20(Burn(sender, amount)).Ok?
              && (c > 0 ==> cw20(Mint(st.invest.owner, c)).Ok?)
              && GetBounded(delegations) == Ok(st.supply.bonded)
              && c <= amount
              && st.supply.issued > 0
              && amount - c <= st.supply.issued
    ensures r.Ok? ==>
              var commission := MulFloor(amount, st.invest.commission);
              var remainder := amount - commission;
              && amount >= st.invest.minWithdrawal
              && commission <= amount
              && GetBounded(delegations) == Ok(st.supply.bonded)
              && st.supply.issued > 0
              && remainder <= st.supply.issued
              && var unbond := MultiplyRatio(remainder, st.supply.bonded, st.supply.issued);
              && unbond <= st.supply.bonded
              && r.value.supply == Supply(st.supply.issued - remainder, st.supply.bonded - unbond, st.supply.claims + unbond)
              && r.value.tokenOps == [Burn(sender, amount)] + (if commission > 0 then [Mint(st.invest.owner, commission)] else [])
              && r.value.claim == Some(ClaimRecord(sender, unbond, After(st.invest.unbondingPeriod, env)))
              && r.value.messages == [Undelegate(st.invest.validator, Coin(st.invest.bondDenom, unbond))]
  {
    var inv := st.invest;
    if amount < inv.minWithdrawal then Err(UnbondTooSmall(inv.minWithdrawal, inv.bondDenom))
    else
      var commission := MulFloor(amount, inv.commission);
      var _ :- cw20(Burn(sender, amount));
      var _ :- if commission > 0 then cw20(Mint(inv.owner, commission)) else Ok(());
      var bonded :- GetBounded(delegations);
      var remainder :- CheckedSub(amount, commission);
      var _ :- AssertBonds(st.supply, bonded);
      if st.supply.issued == 0 then Err(Aborted("Denominator must not be zero"))
      else
        var ops := [Burn(sender, amount)] + (if commission > 0 then [Mint(inv.owner, commission)] else []);
        Redeem(st, env, sender, remainder, ops)
  }

  /** The second half of `unbound`, once the stored and queried bonded amounts
      agree: `remainder` shares are worth `remainder·bonded/issued` native
      tokens, rounded down, which leave bonded for claims. */
  function Redeem(st: Staking, env: Env, sender: Addr, remainder: nat, ops: seq<TokenOp>)
    : (r: Result<Effects, StakingError>)
    requires st.supply.issued > 0
    ensures r.Ok? <==> remainder <= st.supply.issued
    ensures r.Err? ==> r.error.Overflow?
    ensures r.Ok? ==>
              var unbond := MultiplyRatio(remainder, st.supply.bonded, st.supply.issued);
              && unbond <= st.supply.bonded
              && r.value.supply == Supply(st.supply.issued - remainder, st.supply.bonded - unbond, st.supply.claims + unbond)
              && r.value.tokenOps == ops
              && r.value.claim == Some(ClaimRecord(sender, unbond, After(st.invest.unbondingPeriod, env)))
              && r.value.messages == [Undelegate(st.invest.validator, Coin(st.invest.bondDenom, unbond))]
  {
    var unbond := MultiplyRatio(remainder, st.supply.bonded, st.supply.issued);
    RedeemWithinBonded(remainder, st.supply.bonded, st.supply.issued, unbond);
    var newBonded :- CheckedSub(st.supply.bonded, unbond);
    var newIssued :- CheckedSub(st.supply.issued, remainder);
    Ok(Effects(
      Supply(newIssued, newBonded, st.supply.claims + unbond),
      ops,
      Some(ClaimRecord(sender, unbond, After(st.invest.unbondingPeriod, env))),
      [Undelegate(st.invest.validator, Coin(st.invest.bondDenom, unbond))]))
  }

  /** Redeeming no more shares than exist yields no more than is bonded. */
  lemma RedeemWithinBonded(rem: nat, b: nat, i: nat, u: nat)
    requires i > 0 && u * i <= rem * b
    ensures rem <= i ==> u <= b
  {
    if rem <= i && u > b {
      MulMonotone(rem, i, b);
      MulMonotone(b + 1, u, i);
    }
  }

  /** Unbonding moves native tokens from bonded to claims without creating or
      losing any, and retires exactly the shares not taken as commission. */
  lemma UnbondConserves(st: Staking, env: Env, sender: Addr, amount: nat, delegations: seq<Coin>, cw20: Cw20)
    requires Unbond(st, env, sender, amount, delegations, cw20).Ok?
    ensures var s := Unbond(st, env, sender, amount, delegations, cw20).value.supply;
            && s.bonded + s.claims == st.supply.bonded + st.supply.claims
            && s.issued + amount == st.supply.issued + MulFloor(amount, st.invest.commission)
  {
  }

  /** Unbonding never lowers the share price for the holders that remain. */
  lemma UnbondKeepsSharePrice(st: Staking, env: Env, sender: Addr, amount: nat, delegations: seq<Coin>, cw20: Cw20)
    requires Unbond(st, env, sender, amount, delegations, cw20).Ok?
    ensures var s := Unbond(st, env, sender, amount, delegations, cw20).value.supply;
            s.bonded * st.supply.issued >= st.supply.bonded * s.issued
  {
    var s := Unbond(st, env, sender, amount, delegations, cw20).value.supply;
    var rem := amount - MulFloor(amount, st.invest.commission);
    var u := s.claims - st.supply.claims;
    PriceAfterRedeem(st.supply.bonded, st.supply.issued, rem, u);
  }

  /** Redeeming `rem` of `i` shares for `u <= rem·b/i` of `b` tokens leaves at
      least the old price per share. */
  lemma PriceAfterRedeem(b: nat, i: nat, rem: nat, u: nat)
    requires u * i <= rem * b && u <= b && rem <= i
    ensures (b - u) * i >= b * (i - rem)
  {
    assert (b - u) * i == b * i - u * i;
    assert b * (i - rem) == b * i - b * rem;
  }

  /** With a commission rate of at most 100% the commission never exceeds the
      amount, so the remainder subtraction cannot fail. */
  lemma CommissionWithinAmount(amount: nat, rate: Decimal)
    requires rate.atomics <= DECIMAL_FRACTIONAL
    ensures CheckedSub(amount, MulFloor(amount, rate)).Ok?
  {
    MulFloorAtMost(amount, rate);
  }

  /* ---------------- claim ---------------- */

  /** `claim`: pays out what has matured. `toSend` is the amount the claims
      store releases for the sender, capped at the contract's balance. */
  function Claim(st: Staking, sender: Addr, balance: nat, toSend: nat): (r: Result<Effects, StakingError>)
    ensures balance < st.invest.minWithdrawal ==> r == Err(BalanceTooSmall)
    ensures balance >= st.invest.minWithdrawal && toSend == 0 ==> r == Err(NothingToClaim)
    ensures (balance >= st.invest.minWithdrawal && toSend > 0 && toSend > st.supply.claims)
            ==> r == Err(Overflow(st.supply.claims, toSend))
    ensures r.Ok? <==> balance >= st.invest.minWithdrawal && 0 < toSend <= st.supply.claims
    ensures r.Ok? ==>
              && r.value.supply.claims + toSend == st.supply.claims
              && r.value.supply.issued == st.supply.issued && r.value.supply.bonded == st.supply.bonded
              && r.value.tokenOps == [] && r.value.claim.None?
              && r.value.messages == [BankSend(sender, [Coin(st.invest.bondDenom, toSend)])]
  {
    if balance < st.invest.minWithdrawal then Err(BalanceTooSmall)
    else if toSend == 0 then Err(NothingToClaim)
    else
      var claims :- CheckedSub(st.supply.claims, toSend);
      Ok(Effects(st.supply.(claims := claims), [], None, [BankSend(sender, [Coin(st.invest.bondDenom, toSend)])]))
  }

  /* ---------------- reinvest ---------------- */

  /** `reinvest`: withdraws the validator rewards and calls the contract back
      to bond everything; the supply is untouched. */
  function Reinvest(st: Staking, env: Env): (e: Effects)
    ensures e.supply == st.supply && e.tokenOps == [] && e.claim.None?
    ensures e.messages == [WithdrawDelegatorReward(st.invest.validator), ExecuteBondAllTokens(env.contract)]
  {
    Effects(st.supply, [], None, [WithdrawDelegatorReward(st.invest.validator), ExecuteBondAllTokens(env.contract)])
  }

  /** `bond_all_tokens`: only the contract itself may call it. Of the balance,
      what pending claims do not need is bonded, provided it reaches the
      minimum withdrawal; otherwise the call does nothing. */
  function BondAllTokens(st: Staking, env: Env, sender: Addr, balance: nat): (r: Result<Effects, StakingError>)
    ensures r.Err? <==> sender != env.contract
    ensures r.Err? ==> r.error == Unauthorized
    ensures r.Ok? && (balance < st.supply.claims || balance - st.supply.claims < st.invest.minWithdrawal)
            ==> r.value == Effects(st.supply, [], None, [])
    ensures r.Ok? && balance >= st.supply.claims && balance - st.supply.claims >= st.invest.minWithdrawal
            ==> var free := balance - st.supply.claims;
                r.value == Effects(st.supply.(bonded := st.supply.bonded + free), [], None,
                                   [Delegate(st.invest.validator, Coin(st.invest.bondDenom, free))])
  {
    if sender != env.contract then Err(Unauthorized)
    else
      match CheckedSub(balance, st.supply.claims)
      case Err(_) => Ok(Effects(st.supply, [], None, []))
      case Ok(free) =>
        match CheckedSub(free, st.invest.minWithdrawal)
        case Err(_) => Ok(Effects(st.supply, [], None, []))
        case Ok(_) =>
          Ok(Effects(st.supply.(bonded := st.supply.bonded + free), [], None,
                     [Delegate(st.invest.validator, Coin(st.invest.bondDenom, free))]))
  }

  /** The callback `reinvest` sends is addressed to the contract and therefore
      passes the sender check of `bond_all_tokens`, whatever the balance. */
  lemma ReinvestCallbackAuthorized(st: Staking, env: Env, balance: nat)
    ensures Reinvest(st, env).messages[1] == ExecuteBondAllTokens(env.contract)
    ensures BondAllTokens(st, env, Reinvest(st, env).messages[1].contract, balance).Ok?
  {
  }

  /** Reinvesting leaves claims and issued shares alone and never bonds the
      tokens reserved for claims. */
  lemma BondAllTokensKeepsClaims(st: Staking, env: Env, sender: Addr, balance: nat)
    requires BondAllTokens(st, env, sender, balance).Ok?
    ensures var s := BondAllTokens(st, env, sender, balance).value.supply;
            && s.claims == st.supply.claims && s.issued == st.supply.issued
            && st.supply.bonded <= s.bonded
            && (s.bonded > st.supply.bonded ==> s.bonded - st.supply.bonded + st.supply.claims == balance)
  {
  }
}
