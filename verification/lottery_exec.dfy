/** The lottery's execute entry points as transitions of the stored `Ledger`.
    Host services are inputs: `payment` is the result of `must_pay` on the
    attached funds, `sha` is SHA-256, `hasher` is `hash_to_u64` on text,
    `prizeBalance` and `balance` are bank balance queries of the contract, and
    `validated` is `addr_validate` of the recipient. */
module LotteryExec {

  import opened Results
  import opened Cosmos
  import opened Encoding
  import opened KeyOrder
  import opened LotteryState
  import opened LotteryAuth
  import Seed
  import Rule

  /** The denom the prize balance is queried in. */
  const ARCH_DENOM: string := "aconst"

  /** `hash_to_u64` on a text: any total function into `u64`. */
  type StrHasher = string -> u64

  /* ---------------- buy ---------------- */

  /** The record stored for a new ticket holder. */
  function NewPlayer(sender: Addr, env: Env, memo: Option<string>): (p: PlayerInfo)
    ensures p.playerAddr == sender && p.lotteryAddr == env.contract
    ensures p.buyAt == env.height && p.height == env.height && p.memo == memo
  {
    PlayerInfo(sender, env.contract, env.height, env.height, memo)
  }

  /** `buy_ticket`: after the purchase guards and the one-ticket-per-address
      check, the purchase is recorded with the seed updated by the buyer, the
      new ticket number, the block height and the memo. A failed purchase
      changes nothing. */
  function Buy(l: Ledger, env: Env, sender: Addr, denom: string, memo: Option<string>,
               payment: Result<nat, string>, sha: Seed.Sha256): (r: Result<Ledger, ContractError>)
    ensures r.Ok? <==> ValidateBuy(l.state, payment, denom, l.counter, env).Ok? && sender !in l.players
    ensures ValidateBuy(l.state, payment, denom, l.counter, env).Err?
            ==> r == Err(ValidateBuy(l.state, payment, denom, l.counter, env).error)
    ensures ValidateBuy(l.state, payment, denom, l.counter, env).Ok? && sender in l.players
            ==> r == Err(LotteryCanBuyOnce(sender, env.contract))
    ensures r.Ok? ==>
      && l.counter < l.state.maxPlayers
      && r.value == RecordPurchase(l, env, sender, memo,
                                   Seed.Update(sha, l.state.seed, sender, l.counter + 1, env.height, memo))
  {
    var _ :- ValidateBuy(l.state, payment, denom, l.counter, env);
    var _ :- ValidateDoubleBuy(l.players, sender, env.contract);
    Ok(RecordPurchase(l, env, sender, memo, Seed.Update(sha, l.state.seed, sender, l.counter + 1, env.height, memo)))
  }

  /** The writes of an accepted purchase: the counter goes up by one and is the
      new ticket's number, `player_count` goes up by one, the seed is replaced
      by `newSeed`, and the buyer is filed under its address and under that
      number. Nothing else changes. */
  function RecordPurchase(l: Ledger, env: Env, sender: Addr, memo: Option<string>, newSeed: string): (r: Ledger)
    requires l.counter < l.state.maxPlayers
    ensures var n := l.counter + 1;
      && r.counter == n
      && r.state == l.state.(seed := newSeed, playerCount := l.state.playerCount + 1)
      && r.players == l.players[sender := NewPlayer(sender, env, memo)]
      && r.index == l.index[n := sender]
      && r.owner == l.owner
  {
    var n: u64 := l.counter + 1;
    var st := l.state.(seed := newSeed, playerCount := l.state.playerCount + 1);
    Ledger(st, l.owner, n, l.players[sender := NewPlayer(sender, env, memo)], l.index[n := sender])
  }

  /* ---------------- winner choice ---------------- */

  /** The ticket number drawn from a hash: `h % counter + 1`, always 1..counter. */
  function WinnerIndex(h: u64, counter: u64): (i: u64)
    requires counter > 0
    ensures 1 <= i <= counter
    ensures (h - (i - 1)) % counter == 0
  {
    Rule.DropRemainder(h, counter);
    h % counter + 1
  }

  /** `choose_winner_infos`: no winner without players; the player stored first
      (least address) when there is one; otherwise the player whose number is
      drawn from the seed. A drawn number with no address aborts (`unwrap`), and
      an address with no ticket is `NotFound`. */
  function ChooseWinner(players: map<Addr, PlayerInfo>, index: map<u64, Addr>, st: State,
                        counter: u64, hasher: StrHasher): (r: Result<seq<PlayerInfo>, ContractError>)
    ensures r.Ok? ==> |r.value| <= 1
    ensures r.Ok? ==> forall p :: p in r.value ==> p in players.Values
    ensures st.playerCount == 0 ==> r == Ok([])
    ensures st.playerCount == 1 ==>
      r.Ok? && (r.value == [] <==> players == map[])
      && (r.value != [] ==> r.value[0] == players[LeastKey(players.Keys)])
    ensures st.playerCount > 1 && counter > 0 && r.Ok? ==>
      var i := WinnerIndex(hasher(st.seed), counter);
      i in index && index[i] in players && r.value == [players[index[i]]]
  {
    if st.playerCount == 0 then Ok([])
    else if st.playerCount == 1 then
      if players == map[] then Ok([])
      else
        var k := LeastKey(players.Keys);
        Ok([players[k]])
    else if counter == 0 then Err(Aborted("attempt to calculate the remainder with a divisor of zero"))
    else
      var i := WinnerIndex(hasher(st.seed), counter);
      if i !in index then Err(Aborted("called `Option::unwrap()` on a `None` value"))
      else if index[i] !in players then Err(NotFound)
      else Ok([players[index[i]]])
  }

  /* ---------------- draw ---------------- */

  /** The transaction's position as decimal text, when the block supplies one. */
  function TxPhrase(env: Env): (p: Option<string>)
    ensures p.Some? <==> env.txIndex.Some?
    ensures p.Some? ==> (forall i :: 0 <= i < |p.value| ==> IsDigit(p.value[i]))
                        && DecimalValue(p.value) == env.txIndex.value
  {
    match env.txIndex
    case None => None
    case Some(i) =>
      DecimalRoundTrip(i);
      Some(DecimalString(i))
  }

  /** `draw_lottery` behind the intended draw guards (see `DrawAsWritten` for
      the guards as written): the game is closed with the seed finalised from
      the old seed, the drawer, the height and the transaction index; the
      winner is chosen from that closed state and recorded. */
  function Draw(l: Ledger, env: Env, sender: Addr, sha: Seed.Sha256, hasher: StrHasher, prizeBalance: nat)
    : (r: Result<Ledger, ContractError>)
    ensures ValidateDraw(l.state, l.owner, sender, env, l.counter).Err?
            ==> r == Err(ValidateDraw(l.state, l.owner, sender, env, l.counter).error)
    ensures r.Ok? <==>
      && ValidateDraw(l.state, l.owner, sender, env, l.counter).Ok?
      && ChooseWinner(l.players, l.index,
                      ClosedState(l.state, Seed.Finalize(sha, l.state.seed, sender, env.height, TxPhrase(env))),
                      l.counter, hasher).Ok?
    ensures r.Ok? ==>
      var closed := ClosedState(l.state, Seed.Finalize(sha, l.state.seed, sender, env.height, TxPhrase(env)));
      var chosen := ChooseWinner(l.players, l.index, closed, l.counter, hasher);
      && chosen.Ok?
      && r.value == RecordDraw(l, closed, chosen.value, prizeBalance)
  {
    var _ :- ValidateDraw(l.state, l.owner, sender, env, l.counter);
    var closed := ClosedState(l.state, Seed.Finalize(sha, l.state.seed, sender, env.height, TxPhrase(env)));
    var chosen :- ChooseWinner(l.players, l.index, closed, l.counter, hasher);
    Ok(RecordDraw(l, closed, chosen, prizeBalance))
  }

  /** `draw_lottery` exactly as the contract runs it: the same steps as `Draw`
      behind the as-written guards, whose readiness test compares the counter
      with `player_count` and so lets an early draw through. */
  function DrawAsWritten(l: Ledger, env: Env, sender: Addr, sha: Seed.Sha256, hasher: StrHasher, prizeBalance: nat)
    : (r: Result<Ledger, ContractError>)
    ensures ValidateDrawAsWritten(l.state, l.owner, sender, env, l.counter).Err?
            ==> r == Err(ValidateDrawAsWritten(l.state, l.owner, sender, env, l.counter).error)
    ensures r.Ok? <==>
      && ValidateDrawAsWritten(l.state, l.owner, sender, env, l.counter).Ok?
      && ChooseWinner(l.players, l.index,
                      ClosedState(l.state, Seed.Finalize(sha, l.state.seed, sender, env.height, TxPhrase(env))),
                      l.counter, hasher).Ok?
    ensures r.Ok? ==>
      var closed := ClosedState(l.state, Seed.Finalize(sha, l.state.seed, sender, env.height, TxPhrase(env)));
      var chosen := ChooseWinner(l.players, l.index, closed, l.counter, hasher);
      && chosen.Ok?
      && r.value == RecordDraw(l, closed, chosen.value, prizeBalance)
  {
    var _ :- ValidateDrawAsWritten(l.state, l.owner, sender, env, l.counter);
    var closed := ClosedState(l.state, Seed.Finalize(sha, l.state.seed, sender, env.height, TxPhrase(env)));
    var chosen :- ChooseWinner(l.players, l.index, closed, l.counter, hasher);
    Ok(RecordDraw(l, closed, chosen, prizeBalance))
  }

  /** The state a draw chooses the winner from: closed, with `newSeed` as its
      seed, and otherwise as before. */
  function ClosedState(st: State, newSeed: string): (r: State)
    ensures r.status == Closed && r.seed == newSeed
    ensures r.(status := st.status, seed := st.seed) == st
  {
    st.(status := Closed, seed := newSeed)
  }

  /** The writes of a draw: the closed state is stored; the winner list is
      emptied when nobody was chosen, and otherwise the chosen player is
      appended with the whole `aconst` balance as prize. Nothing but the
      state changes. */
  function RecordDraw(l: Ledger, closed: State, chosen: seq<PlayerInfo>, prizeBalance: nat): (r: Ledger)
    ensures r.state.(winner := closed.winner) == closed
    ensures chosen == [] ==> r.state.winner == []
    ensures chosen != [] ==>
      r.state.winner == closed.winner + [WinnerInfo(chosen[0].playerAddr, [Coin(ARCH_DENOM, prizeBalance)])]
    ensures r.owner == l.owner && r.counter == l.counter && r.players == l.players && r.index == l.index
  {
    var st :=
      if chosen == [] then closed.(winner := [])
      else closed.(winner := closed.winner + [WinnerInfo(chosen[0].playerAddr, [Coin(ARCH_DENOM, prizeBalance)])]);
    l.(state := st)
  }

  /* ---------------- ownership ---------------- */

  /** `claim_lottery`: the first winner of a closed game takes ownership;
      anyone else gets `Unauthorized`. */
  function Claim(l: Ledger, sender: Addr): (r: Result<Ledger, ContractError>)
    ensures r.Ok? <==> l.state.status == Closed && |l.state.winner| > 0 && l.state.winner[0].address == sender
    ensures r.Err? ==> r.error == Unauthorized
    ensures r.Ok? ==> r.value == l.(owner := sender)
  {
    if l.state.IsClosed() && |l.state.winner| > 0 && l.state.winner[0].address == sender then
      Ok(l.(owner := sender))
    else
      Err(Unauthorized)
  }

  /** `transfer`: only the owner may hand the lottery on, and only to an
      address that validates. */
  function Transfer(l: Ledger, sender: Addr, recipient: string, validated: Option<Addr>)
    : (r: Result<Ledger, ContractError>)
    ensures r.Ok? <==> sender == l.owner && validated.Some?
    ensures sender != l.owner ==> r == Err(Unauthorized)
    ensures sender == l.owner && validated.None? ==> r == Err(InvalidAddress(recipient))
    ensures r.Ok? ==> r.value == l.(owner := validated.value)
  {
    var _ :- ValidateOwner(l.owner, sender);
    match validated
    case None => Err(InvalidAddress(recipient))
    case Some(a) => Ok(l.(owner := a))
  }

  /** `withdraw`: the owner sends `amount` of `denom` from the contract's
      balance, to `recipient` or else to itself. It writes nothing, so only the
      outgoing messages are returned. */
  function Withdraw(l: Ledger, sender: Addr, amount: nat, denom: string, recipient: Option<string>, balance: nat)
    : (r: Result<seq<CosmosMsg>, ContractError>)
    ensures r.Ok? <==> sender == l.owner && balance >= amount
    ensures sender != l.owner ==> r == Err(Unauthorized)
    ensures sender == l.owner && balance < amount ==> r == Err(BalanceTooSmall(Coin(denom, balance)))
    ensures r.Ok? ==>
      |r.value| == 1 && r.value[0].BankSend?
      && r.value[0].amount == [Coin(denom, amount)]
      && r.value[0].toAddress == (if recipient.Some? then recipient.value else sender)
  {
    var _ :- ValidateOwner(l.owner, sender);
    var _ :- ValidateBalance(Coin(denom, balance), amount);
    var to := match recipient case Some(a) => a case None => sender;
    Ok([BankSend(to, [Coin(denom, amount)])])
  }
}
