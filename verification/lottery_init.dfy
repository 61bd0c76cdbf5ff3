/** Lottery instantiation: configuration checks and the first stored ledger. */
module LotteryInit {

  import opened Results
  import opened Cosmos
  import opened LotteryState
  import Seed

  /** The instantiate message. `symbol` is the field spelt `symobl`. */
  datatype InstantiateMsg = InstantiateMsg(
    name: string,
    symbol: string,
    unitPriceAmount: nat,
    unitPriceDenom: string,
    period: string,
    expiration: u64,
    selection: WinnerSelection,
    maxPlayers: u64,
    category: Option<string>)

  /** `LotteryPeriod::get_deadline`: the expiry for a period opened at a time. */
  type Deadline = (LotteryPeriod, Timestamp) -> Timestamp

  /** `instantiate`: rejects a zero unit price, then a non-jackpot selection,
      then an unknown period; otherwise stores an open lottery with no
      players, the sender as owner and a seed from the contract address and
      block height. The expiry comes from the period and the block time. */
  function Instantiate(msg: InstantiateMsg, env: Env, sender: Addr, sha: Seed.Sha256, deadline: Deadline)
    : (r: Result<Ledger, ContractError>)
    ensures msg.unitPriceAmount == 0 ==> r == Err(InvalidUnitPrice(0))
    ensures msg.unitPriceAmount > 0 && !msg.selection.IsJackpot() ==> r == Err(UnSupportedWinnerSelection(msg.selection))
    ensures msg.unitPriceAmount > 0 && msg.selection.IsJackpot() && ParsePeriod(msg.period).Err?
            ==> r == Err(InvalidLottoryPeriod(msg.period))
    ensures r.Ok? <==> msg.unitPriceAmount > 0 && msg.selection.IsJackpot() && ParsePeriod(msg.period).Ok?
    ensures r.Ok? ==>
      var l := r.value;
      var period := ParsePeriod(msg.period).value;
      && l.owner == sender && l.counter == 0 && l.players == map[] && l.index == map[]
      && l.state.status == Activing && l.state.playerCount == 0 && l.state.winner == []
      && l.state.seed == Seed.Init(sha, env.contract, env.height)
      && l.state.height == env.height && l.state.createdAt == env.time
      && l.state.period == period && l.state.expiration == deadline(period, env.time)
      && l.state.unitPrice == Coin(msg.unitPriceDenom, msg.unitPriceAmount)
      && l.state.maxPlayers == msg.maxPlayers && l.state.selection == msg.selection
      && l.state.name == msg.name && l.state.symbol == msg.symbol
      && l.state.category == DEFAULT_CATEGORY
  {
    if msg.unitPriceAmount == 0 then Err(InvalidUnitPrice(msg.unitPriceAmount))
    else if !msg.selection.IsJackpot() then Err(UnSupportedWinnerSelection(msg.selection))
    else
      var period :- ParsePeriod(msg.period);
      var st := State(
        msg.name, msg.symbol, env.height, env.time, deadline(period, env.time),
        Coin(msg.unitPriceDenom, msg.unitPriceAmount), period, msg.selection,
        0, msg.maxPlayers, Activing, Seed.Init(sha, env.contract, env.height), [], DEFAULT_CATEGORY);
      Ok(Ledger(st, sender, 0, map[], map[]))
  }

  /** The message's `expiration` field has no influence on the outcome. */
  lemma ExpirationFieldIgnored(msg: InstantiateMsg, env: Env, sender: Addr, sha: Seed.Sha256,
                               deadline: Deadline, e: u64)
    ensures Instantiate(msg, env, sender, sha, deadline) == Instantiate(msg.(expiration := e), env, sender, sha, deadline)
  {
  }

  /** Nor does the requested `category`: a new lottery is always `Normal`. */
  lemma CategoryFieldIgnored(msg: InstantiateMsg, env: Env, sender: Addr, sha: Seed.Sha256,
                             deadline: Deadline, c: Option<string>)
    ensures Instantiate(msg, env, sender, sha, deadline) == Instantiate(msg.(category := c), env, sender, sha, deadline)
  {
  }
}
