/** The guards the lottery runs before changing storage. Each passes with
    `Ok(())` or fails with one error; `ValidateBuy` and `ValidateDraw` run a
    fixed sequence of them and report the first that fails. */
module LotteryAuth {

  import opened Results
  import opened Cosmos
  import opened LotteryState

  function ValidateWinnerSelection(st: State): (r: Result<(), ContractError>)
    ensures r.Ok? <==> st.selection == Jackpot
    ensures r.Err? ==> r.error == UnSupportedWinnerSelection(st.selection)
  {
    Ensure(st.selection.IsJackpot(), UnSupportedWinnerSelection(st.selection))
  }

  function ValidateDenom(st: State, denom: string): (r: Result<(), ContractError>)
    ensures r.Ok? <==> denom == st.unitPrice.denom
    ensures r.Err? ==> r.error == UnSupportedDenom(denom)
  {
    Ensure(denom == st.unitPrice.denom, UnSupportedDenom(denom))
  }

  /** Any payment of at least the unit price is accepted; overpaying is allowed. */
  function ValidatePrice(st: State, paid: nat): (r: Result<(), ContractError>)
    ensures r.Ok? <==> paid >= st.unitPrice.amount
    ensures r.Err? ==> r.error == PaymentNotEnough(paid)
  {
    Ensure(paid >= st.unitPrice.amount, PaymentNotEnough(paid))
  }

  /** Fails once the counter has reached the maximum; the error reports the
      counter under the name `max_players`. */
  function ValidatePlayerCounter(st: State, counter: u64): (r: Result<(), ContractError>)
    ensures r.Ok? <==> counter < st.maxPlayers
    ensures r.Err? ==> r.error == PlayerExceededMaximum(counter)
  {
    Ensure(counter < st.maxPlayers, PlayerExceededMaximum(counter))
  }

  /** Buying is still allowed at the expiration instant itself. */
  function ValidateTimestamp(st: State, env: Env): (r: Result<(), ContractError>)
    ensures r.Ok? <==> env.time.nanos <= st.expiration.nanos
    ensures r.Err? ==> r.error == AlreadyExpired
  {
    Ensure(env.time.nanos <= st.expiration.nanos, AlreadyExpired)
  }

  function ValidateHeight(st: State, env: Env): (r: Result<(), ContractError>)
    ensures r.Ok? <==> env.height >= st.height
    ensures r.Err? ==> r.error == LotteryHeightNotMatch(env.height, st.height)
  {
    Ensure(env.height >= st.height, LotteryHeightNotMatch(env.height, st.height))
  }

  function ValidateStatus(st: State): (r: Result<(), ContractError>)
    ensures r.Ok? <==> st.status == Activing
    ensures r.Err? ==> r.error == LotteryAlreadyClosed
  {
    Ensure(!st.IsClosed(), LotteryAlreadyClosed)
  }

  function ValidateOwner(owner: Addr, sender: Addr): (r: Result<(), ContractError>)
    ensures r.Ok? <==> sender == owner
    ensures r.Err? ==> r.error == Unauthorized
  {
    Ensure(owner == sender, Unauthorized)
  }

  /** The draw-readiness guard as the contract writes it: it compares the
      counter with `player_count`, which every purchase keeps equal to it. */
  function ValidateTimestampOrActivingAsWritten(st: State, env: Env, counter: u64): (r: Result<(), ContractError>)
    ensures r.Ok? <==> env.time.nanos >= st.expiration.nanos || counter >= st.playerCount
    ensures r.Err? ==> r.error == LotteryIsActiving
  {
    Ensure(env.time.nanos >= st.expiration.nanos || counter >= st.playerCount, LotteryIsActiving)
  }

  /** The draw-readiness guard as intended: a draw waits until the lottery has
      expired or is full. */
  function ValidateTimestampOrActiving(st: State, env: Env, counter: u64): (r: Result<(), ContractError>)
    ensures r.Ok? <==> env.time.nanos >= st.expiration.nanos || counter >= st.maxPlayers
    ensures r.Err? ==> r.error == LotteryIsActiving
  {
    Ensure(env.time.nanos >= st.expiration.nanos || counter >= st.maxPlayers, LotteryIsActiving)
  }

  function ValidateBalance(balance: Coin, toWithdraw: nat): (r: Result<(), ContractError>)
    ensures r.Ok? <==> balance.amount >= toWithdraw
    ensures r.Err? ==> r.error == BalanceTooSmall(balance)
  {
    Ensure(balance.amount >= toWithdraw, BalanceTooSmall(balance))
  }

  /** An address holds at most one ticket. */
  function ValidateDoubleBuy(players: map<Addr, PlayerInfo>, sender: Addr, lottery: Addr): (r: Result<(), ContractError>)
    ensures r.Ok? <==> sender !in players
    ensures r.Err? ==> r.error == LotteryCanBuyOnce(sender, lottery)
  {
    Ensure(sender !in players, LotteryCanBuyOnce(sender, lottery))
  }

  /** Prizes can only be prepared for a `SpecifyPrize` lottery; the error
      carries the category's display text. */
  function ValidatePrepareCategory(st: State): (r: Result<(), ContractError>)
    ensures r.Ok? <==> st.category == SpecifyPrize
    ensures r.Err? ==> r.error == InvalidCategory("Normal ")
  {
    Ensure(st.category == SpecifyPrize, InvalidCategory(CategoryDisplay(st.category)))
  }

  /** Owner first, then category. */
  function ValidateSetPrizes(st: State, owner: Addr, sender: Addr): (r: Result<(), ContractError>)
    ensures r.Ok? <==> sender == owner && st.category == SpecifyPrize
    ensures sender != owner ==> r == Err(Unauthorized)
    ensures sender == owner && st.category != SpecifyPrize ==> r == Err(InvalidCategory("Normal "))
  {
    var _ :- ValidateOwner(owner, sender);
    ValidatePrepareCategory(st)
  }

  /** Every condition a purchase needs once the payment is known. */
  predicate BuyAllowed(st: State, paid: nat, denom: string, counter: u64, env: Env)
  {
    && st.selection == Jackpot
    && denom == st.unitPrice.denom
    && paid >= st.unitPrice.amount
    && counter < st.maxPlayers
    && st.status == Activing
    && env.time.nanos <= st.expiration.nanos
  }

  /** The purchase guards: payment, selection, denom, price, player cap, status,
      expiry, in that order. `payment` is what `must_pay` returns for the
      attached funds. */
  function ValidateBuy(st: State, payment: Result<nat, string>, denom: string, counter: u64, env: Env)
    : (r: Result<(), ContractError>)
    ensures r.Ok? <==> payment.Ok? && BuyAllowed(st, payment.value, denom, counter, env)
    ensures payment.Err? ==> r == Err(Payment(payment.error))
    ensures payment.Ok? && st.selection != Jackpot ==> r == Err(UnSupportedWinnerSelection(st.selection))
    ensures payment.Ok? && st.selection == Jackpot && denom != st.unitPrice.denom ==> r == Err(UnSupportedDenom(denom))
    ensures (payment.Ok? && st.selection == Jackpot && denom == st.unitPrice.denom
             && payment.value < st.unitPrice.amount)
            ==> r == Err(PaymentNotEnough(payment.value))
    ensures (payment.Ok? && st.selection == Jackpot && denom == st.unitPrice.denom
             && payment.value >= st.unitPrice.amount && counter >= st.maxPlayers)
            ==> r == Err(PlayerExceededMaximum(counter))
    ensures (payment.Ok? && st.selection == Jackpot && denom == st.unitPrice.denom
             && payment.value >= st.unitPrice.amount && counter < st.maxPlayers && st.status == Closed)
            ==> r == Err(LotteryAlreadyClosed)
    ensures (payment.Ok? && st.selection == Jackpot && denom == st.unitPrice.denom
             && payment.value >= st.unitPrice.amount && counter < st.maxPlayers && st.status == Activing
             && env.time.nanos > st.expiration.nanos)
            ==> r == Err(AlreadyExpired)
  {
    var paid :- match payment
      case Ok(v) => Ok(v)
      case Err(e) => Err(Payment(e));
    var _ :- ValidateWinnerSelection(st);
    var _ :- ValidateDenom(st, denom);
    var _ :- ValidatePrice(st, paid);
    var _ :- ValidatePlayerCounter(st, counter);
    var _ :- ValidateStatus(st);
    ValidateTimestamp(st, env)
  }

  /** The draw guards as the contract writes them: owner, height, readiness
      (compared with `player_count`), status, in that order. */
  function ValidateDrawAsWritten(st: State, owner: Addr, sender: Addr, env: Env, counter: u64)
    : (r: Result<(), ContractError>)
    ensures r.Ok? <==> sender == owner && env.height >= st.height
                       && (env.time.nanos >= st.expiration.nanos || counter >= st.playerCount)
                       && st.status == Activing
    ensures sender != owner ==> r == Err(Unauthorized)
    ensures sender == owner && env.height < st.height ==> r == Err(LotteryHeightNotMatch(env.height, st.height))
    ensures (sender == owner && env.height >= st.height
             && env.time.nanos < st.expiration.nanos && counter < st.playerCount)
            ==> r == Err(LotteryIsActiving)
    ensures (sender == owner && env.height >= st.height
             && (env.time.nanos >= st.expiration.nanos || counter >= st.playerCount)
             && st.status == Closed)
            ==> r == Err(LotteryAlreadyClosed)
  {
    var _ :- ValidateOwner(owner, sender);
    var _ :- ValidateHeight(st, env);
    var _ :- ValidateTimestampOrActivingAsWritten(st, env, counter);
    ValidateStatus(st)
  }

  /** The draw guards with the intended readiness check: owner, height, expired
      or full, status. A sender other than the owner always gets `Unauthorized`. */
  function ValidateDraw(st: State, owner: Addr, sender: Addr, env: Env, counter: u64)
    : (r: Result<(), ContractError>)
    ensures r.Ok? <==> sender == owner && env.height >= st.height
                       && (env.time.nanos >= st.expiration.nanos || counter >= st.maxPlayers)
                       && st.status == Activing
    ensures sender != owner ==> r == Err(Unauthorized)
    ensures sender == owner && env.height < st.height ==> r == Err(LotteryHeightNotMatch(env.height, st.height))
    ensures (sender == owner && env.height >= st.height
             && env.time.nanos < st.expiration.nanos && counter < st.maxPlayers)
            ==> r == Err(LotteryIsActiving)
    ensures (sender == owner && env.height >= st.height
             && (env.time.nanos >= st.expiration.nanos || counter >= st.maxPlayers)
             && st.status == Closed)
            ==> r == Err(LotteryAlreadyClosed)
  {
    var _ :- ValidateOwner(owner, sender);
    var _ :- ValidateHeight(st, env);
    var _ :- ValidateTimestampOrActiving(st, env, counter);
    ValidateStatus(st)
  }

  /** Whenever the counter equals `player_count`, the as-written readiness guard
      passes, before expiry and with the lottery far from full. */
  lemma AsWrittenReadinessAlwaysPasses(st: State, env: Env, counter: u64)
    requires counter == st.playerCount
    ensures ValidateTimestampOrActivingAsWritten(st, env, counter).Ok?
  {
  }

  /** A concrete early draw: before expiry, no players, room for two. The
      as-written guards let the owner draw; the intended ones refuse. */
  lemma EarlyDrawExample()
    ensures var st := State("lotto", "LT", 1, Timestamp(0), Timestamp(100), Coin("aconst", 1), Day, Jackpot,
                            0, 2, Activing, "", [], Normal);
            var env := Env(1, Timestamp(50), "contract", None);
            && ValidateDrawAsWritten(st, "owner", "owner", env, 0) == Ok(())
            && ValidateDraw(st, "owner", "owner", env, 0) == Err(LotteryIsActiving)
  {
  }

  /** Under the intended guard, a lottery whose counter mirrors `player_count`
      can be drawn before expiry only once it is full. */
  lemma IntendedReadinessNeedsFullOrExpired(st: State, env: Env, counter: u64)
    requires counter == st.playerCount
    requires ValidateTimestampOrActiving(st, env, counter).Ok?
    ensures env.time.nanos >= st.expiration.nanos || st.playerCount >= st.maxPlayers
  {
  }
}
