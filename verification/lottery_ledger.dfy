/** The storage invariant every reachable lottery ledger satisfies, and what
    follows from it: the winner choice never fails, a drawn lottery is final,
    and purchases keep the ticket numbering dense and one-to-one. */
module LotteryLedger {

  import opened Results
  import opened Cosmos
  import opened KeyOrder
  import opened LotteryState
  import opened LotteryAuth
  import opened LotteryExec
  import opened LotteryInit
  import Seed

  /** Ticket numbers are exactly 1..counter, each names a distinct address,
      and those addresses are exactly the registered players. */
  ghost predicate DenseIndex(index: map<u64, Addr>, players: map<Addr, PlayerInfo>, counter: u64)
  {
    && (forall i :: i in index <==> 1 <= i <= counter)
    && (forall i, j :: i in index && j in index && index[i] == index[j] ==> i == j)
    && index.Values == players.Keys
  }

  /** Each player record is filed under its own address. */
  ghost predicate SelfKeyed(players: map<Addr, PlayerInfo>)
  {
    forall a :: a in players ==> players[a].playerAddr == a
  }

  /** An open game has no winner; a game has at most one winner, and it holds a ticket. */
  ghost predicate WinnersConsistent(l: Ledger)
  {
    && (l.state.status == Activing ==> l.state.winner == [])
    && |l.state.winner| <= 1
    && (forall w :: w in l.state.winner ==> w.address in l.players)
  }

  ghost predicate Valid(l: Ledger)
  {
    && l.state.playerCount == l.counter
    && l.counter <= l.state.maxPlayers
    && DenseIndex(l.index, l.players, l.counter)
    && SelfKeyed(l.players)
    && WinnersConsistent(l)
  }

  /** A freshly instantiated lottery satisfies the invariant. */
  lemma InstantiateValid(msg: InstantiateMsg, env: Env, sender: Addr, sha: Seed.Sha256, deadline: Deadline)
    requires Instantiate(msg, env, sender, sha, deadline).Ok?
    ensures Valid(Instantiate(msg, env, sender, sha, deadline).value)
  {
  }

  /** Filing a new address under the next ticket number keeps the numbering
      dense and one-to-one. */
  lemma AppendPlayer(index: map<u64, Addr>, players: map<Addr, PlayerInfo>, counter: u64,
                     n: u64, sender: Addr, info: PlayerInfo)
    requires DenseIndex(index, players, counter) && SelfKeyed(players)
    requires n == counter + 1 && sender !in players && info.playerAddr == sender
    ensures DenseIndex(index[n := sender], players[sender := info], n)
    ensures SelfKeyed(players[sender := info])
  {
    var index', players' := index[n := sender], players[sender := info];
    assert n !in index;
    assert sender !in index.Values;
    forall i, j | i in index' && j in index' && index'[i] == index'[j] ensures i == j {
      if i != n && j != n {
        assert index[i] == index[j];
      } else if i != n || j != n {
        assert false;
      }
    }
    assert index'.Values == index.Values + {sender} by {
      forall a | a in index'.Values ensures a in index.Values + {sender} {
        var i :| i in index' && index'[i] == a;
        if i != n {
          assert index[i] == a;
        }
      }
      forall a | a in index.Values + {sender} ensures a in index'.Values {
        if a == sender {
          assert index'[n] == a;
        } else {
          var i :| i in index && index[i] == a;
          assert index'[i] == a;
        }
      }
    }
    assert players'.Keys == players.Keys + {sender};
  }

  /** A successful purchase keeps the invariant. */
  lemma BuyPreservesValid(l: Ledger, env: Env, sender: Addr, denom: string, memo: Option<string>,
                          payment: Result<nat, string>, sha: Seed.Sha256)
    requires Valid(l)
    requires Buy(l, env, sender, denom, memo, payment, sha).Ok?
    ensures Valid(Buy(l, env, sender, denom, memo, payment, sha).value)
  {
    var l' := Buy(l, env, sender, denom, memo, payment, sha).value;
    AppendPlayer(l.index, l.players, l.counter, l'.counter, sender, NewPlayer(sender, env, memo));
  }

  /** On a valid ledger the winner choice never fails, and it names a player
      exactly when there is one. */
  lemma ChooseWinnerSucceeds(l: Ledger, st: State, hasher: StrHasher)
    requires Valid(l)
    requires st.playerCount == l.state.playerCount
    ensures var r := ChooseWinner(l.players, l.index, st, l.counter, hasher);
            && r.Ok?
            && (r.value == [] <==> l.counter == 0)
            && (forall p :: p in r.value ==> p.playerAddr in l.players && l.players[p.playerAddr] == p)
  {
    var r := ChooseWinner(l.players, l.index, st, l.counter, hasher);
    if l.counter == 1 {
      assert 1 in l.index;
      assert l.index[1] in l.index.Values;
      assert l.players != map[];
    } else if l.counter > 1 {
      var i := WinnerIndex(hasher(st.seed), l.counter);
      assert i in l.index;
      assert l.index[i] in l.index.Values;
    }
  }

  /** With one player, the stored-first player is that player. */
  lemma SolePlayerWins(l: Ledger, st: State, hasher: StrHasher)
    requires Valid(l) && l.counter == 1 && st.playerCount == 1
    ensures ChooseWinner(l.players, l.index, st, l.counter, hasher) == Ok([l.players[l.index[1]]])
  {
    assert 1 in l.index;
    var a := l.index[1];
    assert l.players.Keys == {a} by {
      forall b | b in l.players.Keys ensures b == a {
        assert b in l.index.Values;
        var i :| i in l.index && l.index[i] == b;
      }
      assert a in l.index.Values;
    }
    LeastOfSingleton(a);
  }

  /** On a valid ledger a draw that passes its guards succeeds and keeps the
      invariant; its winner list is empty exactly when nobody bought a ticket,
      and otherwise holds one ticket holder with the queried balance as prize. */
  lemma DrawPreservesValid(l: Ledger, env: Env, sender: Addr, sha: Seed.Sha256, hasher: StrHasher, prizeBalance: nat)
    requires Valid(l)
    requires ValidateDraw(l.state, l.owner, sender, env, l.counter).Ok?
    ensures Draw(l, env, sender, sha, hasher, prizeBalance).Ok?
    ensures var l' := Draw(l, env, sender, sha, hasher, prizeBalance).value;
            && Valid(l')
            && (l'.state.winner == [] <==> l.counter == 0)
            && (l'.state.winner != [] ==>
                  |l'.state.winner| == 1 && l'.state.winner[0].address in l.players
                  && l'.state.winner[0].prize == [Coin(ARCH_DENOM, prizeBalance)])
  {
    var closed := ClosedState(l.state, Seed.Finalize(sha, l.state.seed, sender, env.height, TxPhrase(env)));
    ChooseWinnerSucceeds(l, closed, hasher);
    var l' := Draw(l, env, sender, sha, hasher, prizeBalance).value;
    assert l.state.winner == [];
    var chosen := ChooseWinner(l.players, l.index, closed, l.counter, hasher);
    if chosen.value != [] {
      assert chosen.value[0] in chosen.value;
      assert l'.state.winner == [WinnerInfo(chosen.value[0].playerAddr, [Coin(ARCH_DENOM, prizeBalance)])];
    }
  }

  /** The as-written draw keeps the invariant too: on a valid ledger it
      succeeds whenever its guards pass, with the same winner shape as `Draw`. */
  lemma DrawAsWrittenPreservesValid(l: Ledger, env: Env, sender: Addr, sha: Seed.Sha256, hasher: StrHasher,
                                    prizeBalance: nat)
    requires Valid(l)
    requires ValidateDrawAsWritten(l.state, l.owner, sender, env, l.counter).Ok?
    ensures DrawAsWritten(l, env, sender, sha, hasher, prizeBalance).Ok?
    ensures var l' := DrawAsWritten(l, env, sender, sha, hasher, prizeBalance).value;
            && Valid(l')
            && (l'.state.winner == [] <==> l.counter == 0)
            && (l'.state.winner != [] ==>
                  |l'.state.winner| == 1 && l'.state.winner[0].address in l.players
                  && l'.state.winner[0].prize == [Coin(ARCH_DENOM, prizeBalance)])
  {
    var closed := ClosedState(l.state, Seed.Finalize(sha, l.state.seed, sender, env.height, TxPhrase(env)));
    ChooseWinnerSucceeds(l, closed, hasher);
    var l' := DrawAsWritten(l, env, sender, sha, hasher, prizeBalance).value;
    assert l.state.winner == [];
    var chosen := ChooseWinner(l.players, l.index, closed, l.counter, hasher);
    if chosen.value != [] {
      assert chosen.value[0] in chosen.value;
      assert l'.state.winner == [WinnerInfo(chosen.value[0].playerAddr, [Coin(ARCH_DENOM, prizeBalance)])];
    }
  }

  /** The early draw at the level of the transition: before expiry and with
      no ticket sold, the owner's as-written draw closes the lottery with no
      winner, while the intended draw refuses with `LotteryIsActiving`. */
  lemma EarlyDrawClosesEmpty(l: Ledger, env: Env, sha: Seed.Sha256, hasher: StrHasher, prizeBalance: nat)
    requires l.counter == 0 && l.state.playerCount == 0 && l.state.maxPlayers > 0
    requires l.state.status == Activing && env.height >= l.state.height
    requires env.time.nanos < l.state.expiration.nanos
    ensures DrawAsWritten(l, env, l.owner, sha, hasher, prizeBalance).Ok?
    ensures var l' := DrawAsWritten(l, env, l.owner, sha, hasher, prizeBalance).value;
            l'.state.status == Closed && l'.state.winner == []
    ensures Draw(l, env, l.owner, sha, hasher, prizeBalance) == Err(LotteryIsActiving)
  {
    var closed := ClosedState(l.state, Seed.Finalize(sha, l.state.seed, l.owner, env.height, TxPhrase(env)));
    assert ChooseWinner(l.players, l.index, closed, l.counter, hasher) == Ok([]);
  }

  /** Ownership changes keep the invariant. */
  lemma ClaimAndTransferPreserveValid(l: Ledger, sender: Addr, recipient: string, validated: Option<Addr>)
    requires Valid(l)
    ensures Claim(l, sender).Ok? ==> Valid(Claim(l, sender).value)
    ensures Transfer(l, sender, recipient, validated).Ok? ==> Valid(Transfer(l, sender, recipient, validated).value)
  {
  }

  /** Once closed, a lottery accepts neither purchases nor another draw. */
  lemma ClosedIsFinal(l: Ledger, env: Env, sender: Addr, denom: string, memo: Option<string>,
                      payment: Result<nat, string>, sha: Seed.Sha256, hasher: StrHasher, prizeBalance: nat)
    requires l.state.status == Closed
    ensures Buy(l, env, sender, denom, memo, payment, sha).Err?
    ensures Draw(l, env, sender, sha, hasher, prizeBalance).Err?
    ensures DrawAsWritten(l, env, sender, sha, hasher, prizeBalance).Err?
  {
  }

  /** A draw by anyone but the owner is `Unauthorized`. */
  lemma NonOwnerCannotDraw(l: Ledger, env: Env, sender: Addr, sha: Seed.Sha256, hasher: StrHasher, prizeBalance: nat)
    requires sender != l.owner
    ensures Draw(l, env, sender, sha, hasher, prizeBalance) == Err(Unauthorized)
    ensures DrawAsWritten(l, env, sender, sha, hasher, prizeBalance) == Err(Unauthorized)
  {
  }

  /** A second purchase by the same address is refused. */
  lemma SecondPurchaseRefused(l: Ledger, env: Env, sender: Addr, denom: string, memo: Option<string>,
                              payment: Result<nat, string>, sha: Seed.Sha256,
                              env2: Env, memo2: Option<string>, payment2: Result<nat, string>)
    requires Buy(l, env, sender, denom, memo, payment, sha).Ok?
    ensures Buy(Buy(l, env, sender, denom, memo, payment, sha).value, env2, sender, denom, memo2, payment2, sha).Err?
  {
  }

  /** A lottery with a single ticket: after the draw its buyer is the one
      winner, with the queried balance as prize, and can claim ownership. */
  lemma SoleBuyerWinsAndClaims(l: Ledger, env: Env, buyer: Addr, denom: string, memo: Option<string>,
                               payment: Result<nat, string>, sha: Seed.Sha256,
                               drawEnv: Env, drawer: Addr, hasher: StrHasher, prizeBalance: nat)
    requires Valid(l) && l.counter == 0
    requires Buy(l, env, buyer, denom, memo, payment, sha).Ok?
    requires Draw(Buy(l, env, buyer, denom, memo, payment, sha).value, drawEnv, drawer, sha, hasher, prizeBalance).Ok?
    ensures var l2 := Draw(Buy(l, env, buyer, denom, memo, payment, sha).value, drawEnv, drawer, sha, hasher, prizeBalance).value;
            && l2.state.winner == [WinnerInfo(buyer, [Coin(ARCH_DENOM, prizeBalance)])]
            && Claim(l2, buyer) == Ok(l2.(owner := buyer))
  {
    var l1 := Buy(l, env, buyer, denom, memo, payment, sha).value;
    BuyPreservesValid(l, env, buyer, denom, memo, payment, sha);
    var l2 := Draw(l1, drawEnv, drawer, sha, hasher, prizeBalance).value;
    assert l1.index[1] == buyer;
    var closed := ClosedState(l1.state, Seed.Finalize(sha, l1.state.seed, drawer, drawEnv.height, TxPhrase(drawEnv)));
    SolePlayerWins(l1, closed, hasher);
    assert l1.state.winner == [];
  }
}
