# colottery core in Dafny

This project models the two CosmWasm contracts of the colottery repository and the small helpers they use. It also proves properties of that model.

- **Lottery contract.** A single-winner lottery kept in storage as a `Ledger`. Its parts are the `STATE` record, the `OWNER`, the `PLAYER_COUNTER`, the `PLAYERS` map (address to ticket) and the `IDX_2_ADDR` map (ticket number to address). `instantiate`, `buy_ticket`, `draw_lottery`, `claim_lottery`, `transfer` and `withdraw` are pure functions returning `Result<Ledger, ContractError>`, or the outgoing messages for `withdraw`. They run the guard chains of `validate_buy` and `validate_draw`. The module `LotteryLedger` states the storage invariant and proves that every transition keeps it. Under that invariant:
  - ticket numbers are exactly 1..counter;
  - the numbers name distinct addresses;
  - those addresses are exactly the players;
  - the counter equals `player_count`.
- **Token parsers** of the lottery state: `LotteryPeriod::from_str`, `LotteryCategory::from_str` with its `Display`, the `is_*` predicates, and the defaults (`DEFAULT_PERIOD` is `Day`, `DEFAULT_CATEGORY` is `Normal`). These are built on a model of `str::trim` and `str::to_lowercase`.
- **Seed chain.** These are the byte layouts that `init`, `update` and `finalize` feed to SHA-256:
  - little-endian `u64`s;
  - UTF-8 text;
  - an optional memo or phrase.

  The digest is kept as its padded Base64 text, per section 4 of RFC 4648. Each encoder has a decoder and a round-trip lemma.
- **Index picking**: `nano_part` and `choose_idx_by_nano`.
- **Calendar helpers** over a proleptic Gregorian calendar. Dates convert to and from days since 1970-01-01. The helpers are:
  - `timestamp_to_utc`;
  - last day of the week, month and year;
  - seconds of 22:00 UTC.
- **Liquid-staking contract.** `instantiate`, `bond`, `unbound`, `claim`, `reinvest`, `bond_all_tokens`, `get_bounded`, `assert_bonds` and `query_investment` are modelled on a `Staking` record of investment configuration plus `Supply`.
  - `Decimal` is 18-digit fixed point.
  - The rounding `Uint128` operations (`multiply_ratio`, `Uint128 * Decimal`, `Decimal::from_ratio`) are each written with their floor bounds.
  - A call returns `Effects`: the new supply, the cw20 token calls, the claim created and the chain messages.
  - The staking test scenarios are replayed as lemmas.

Host services are parameters or inputs:
- SHA-256 and `hash_to_u64`;
- the cw20 token, `must_pay` and `addr_validate`;
- bank balances, delegations and the validator set.

## Model

| member | source | states |
|---|---|---|
| `Results.Ensure` | contracts/lottery/src/auth/exec.rs:56-62 | `ensure!` passes exactly when the condition holds and otherwise fails with the given error |
| `Text.TrimStart` | contracts/lottery/src/state.rs:113 | the dropped prefix is all whitespace and the kept text does not start with whitespace |
| `Text.TrimEnd` | contracts/lottery/src/state.rs:113 | the dropped suffix is all whitespace and the kept text does not end with whitespace |
| `Text.Trim` | contracts/lottery/src/state.rs:113 | the input is the result surrounded by two whitespace runs, and neither end of the result is whitespace |
| `Text.Framed` | contracts/lottery/src/state.rs:113 | dropping a leading whitespace run and then a trailing one leaves a text framed by whitespace, with no whitespace at either end |
| `Text.TrimPadded` | contracts/lottery/src/state.rs:113 | surrounding a text with whitespace on either side does not change its trim (the converse of `Trim`) |
| `Text.ToLowercase` | contracts/lottery/src/state.rs:113 | same length, each character mapped to its lower case |
| `Text.LowercaseIdempotent` | contracts/lottery/src/state.rs:113 | lower-casing twice equals lower-casing once |
| `Text.LowercaseFixed` | contracts/lottery/src/state.rs:113 | text without upper-case letters is its own lower case |
| `Text.Normalize` | contracts/lottery/src/state.rs:113 | the model's lower case of `Trim(s)` (standing for `trim().to_lowercase()`, under the lower-casing limits listed for `Text.ToLowercase`) is never longer than its input; its value on padded and bare text is given by `Text.TrimPadded` and `LotteryState.NormalizeBare` |
| `LotteryState.PeriodOfToken` | contracts/lottery/src/state.rs:115-121 | a token maps to the period written that way, and to nothing when no period is written that way |
| `LotteryState.TokenMatchesPeriod` | contracts/lottery/src/state.rs:115-121 | a token selects period `p` if and only if it is `p`'s token |
| `LotteryState.ParsePeriod` | contracts/lottery/src/state.rs:109-126 | success gives the period whose token is the trimmed, lower-cased input; failure is `InvalidLottoryPeriod` with the untrimmed input, and happens only when no period has that token |
| `LotteryState.ParsePeriodIff` | contracts/lottery/src/state.rs:112-124 | parsing gives `p` if and only if the normalised input is `p`'s token |
| `LotteryState.TokenIsLowercase` | contracts/lottery/src/state.rs:116-120 | every period token is already lower case |
| `LotteryState.ParsePeriodToken` | contracts/lottery/src/state.rs:113-124 | every period's token, padded with any whitespace, parses back to that period |
| `LotteryState.BareTokenParses` | contracts/lottery/src/state.rs:113-124 | unpadded text whose lower case is a token parses to that period, whatever its letter case |
| `LotteryState.NormalizeBare` | contracts/lottery/src/state.rs:113 | text without whitespace at its ends normalises to its lower case |
| `LotteryState.PaddedExample` | contracts/lottery/src/state.rs:113-117 | " day " parses to `Day` |
| `LotteryState.SixLettersRejected` | contracts/lottery/src/state.rs:121 | any input normalising to six characters is rejected with itself as payload |
| `LotteryState.NoTokenOfLength` | contracts/lottery/src/state.rs:115-121 | no period is written with six letters |
| `LotteryState.TokenIsBare` | contracts/lottery/src/state.rs:116-120 | every period token is non-empty with no whitespace at its ends |
| `LotteryState.RejectedExample` | contracts/lottery/src/state.rs:121 | "hourly" is rejected as `InvalidLottoryPeriod("hourly")` |
| `LotteryState.ParsePeriodExamples` | contracts/lottery/src/state.rs:204-229 | "hour", "dAY", "Week", "moNth", "yeaR" parse to their periods, as the unit test expects |
| `LotteryState.PeriodPredicatesExact` | contracts/lottery/src/state.rs:128-148 | each `is_*` holds for exactly its own period, and every period satisfies one |
| `LotteryState.ParseCategory` | contracts/lottery/src/state.rs:71-83 | `Normal` if and only if the normalised input is "normal"; `SpecifyPrize` if and only if it is "specify_prize"; otherwise `InvalidCategory` with the input |
| `LotteryState.NormalDisplayParses` | contracts/lottery/src/state.rs:88 | the display text "Normal " parses back to `Normal` |
| `LotteryState.NormalWordParses` | contracts/lottery/src/state.rs:75-78 | the word "Normal" followed by the display space parses to `Normal`, since trimming drops the space and lower-casing gives "normal" |
| `LotteryState.NormalizeDisplayed` | contracts/lottery/src/state.rs:75 | a word with non-blank ends followed by one space normalises to the word's lower case |
| `LotteryState.CategoryRejectedByLength` | contracts/lottery/src/state.rs:77-80 | an input whose normalised text is neither 6 nor 13 characters long is rejected with `InvalidCategory` carrying the input |
| `LotteryState.SpecifyPrizeDisplayFails` | contracts/lottery/src/state.rs:89 | the display text "SpecifyPrize " is rejected with itself as payload |
| `LotteryState.SpecifyPrizeWordFails` | contracts/lottery/src/state.rs:75-80 | a twelve-character word with non-blank ends, followed by the display space, names no category |
| `LotteryState.DisplayIsNotParseInverse` | contracts/lottery/src/state.rs:74-92 | for every category, `Display` followed by `from_str` gives the category back if and only if it is `Normal`; `SpecifyPrize` is rejected |
| `LotteryAuth.ValidateWinnerSelection` | contracts/lottery/src/auth/exec.rs:55-63 | passes if and only if the selection is `Jackpot`; the error carries the selection |
| `LotteryAuth.ValidateDenom` | contracts/lottery/src/auth/exec.rs:65-73 | passes if and only if the denom is the unit price's denom |
| `LotteryAuth.ValidatePrice` | contracts/lottery/src/auth/exec.rs:75-83 | passes if and only if the payment is at least the unit price, so overpaying is accepted; the error carries the payment |
| `LotteryAuth.ValidatePlayerCounter` | contracts/lottery/src/auth/exec.rs:85-95 | passes if and only if counter < max players; at equality it fails with `PlayerExceededMaximum` carrying the counter |
| `LotteryAuth.ValidateTimestamp` | contracts/lottery/src/auth/exec.rs:97-105 | passes if and only if block time ≤ expiration, so buying at the expiration instant is allowed |
| `LotteryAuth.ValidateHeight` | contracts/lottery/src/auth/exec.rs:107-121 | passes if and only if the block height is at least the creation height; the error carries both heights |
| `LotteryAuth.ValidateStatus` | contracts/lottery/src/auth/exec.rs:123-128 | passes if and only if the game is `Activing`; fails with `LotteryAlreadyClosed` |
| `LotteryAuth.ValidateOwner` | contracts/lottery/src/auth/exec.rs:130-134 | passes if and only if the sender is the owner; otherwise `Unauthorized` |
| `LotteryAuth.ValidateTimestampOrActivingAsWritten` | contracts/lottery/src/auth/exec.rs:136-143 | passes if and only if expired or counter ≥ `player_count` (the code as written) |
| `LotteryAuth.ValidateTimestampOrActiving` | contracts/lottery/src/contract/exec.rs:218-221 | passes if and only if expired or counter ≥ max players (the intended readiness check) |
| `LotteryAuth.ValidateBalance` | contracts/lottery/src/auth/exec.rs:145-153 | passes if and only if balance ≥ requested amount; the error carries the balance |
| `LotteryAuth.ValidateDoubleBuy` | contracts/lottery/src/auth/exec.rs:155-169 | passes if and only if the sender holds no ticket |
| `LotteryAuth.ValidatePrepareCategory` | contracts/lottery/src/auth/exec.rs:171-182 | passes if and only if the category is `SpecifyPrize`; otherwise the error carries the category's display text |
| `LotteryAuth.ValidateSetPrizes` | contracts/lottery/src/auth/exec.rs:50-53 | a non-owner gets `Unauthorized` before the category is looked at; passes if and only if owner and `SpecifyPrize` |
| `LotteryAuth.ValidateBuy` | contracts/lottery/src/auth/exec.rs:12-32 | passes if and only if all purchase conditions hold; otherwise reports the first failing guard, in the order payment, selection, denom, price, player cap, status, expiry |
| `LotteryAuth.ValidateDrawAsWritten` | contracts/lottery/src/auth/exec.rs:34-48 | the draw guards as written: passes if and only if owner, height reached, expired-or-counter ≥ `player_count`, and open; otherwise the first failing guard in the order owner (`Unauthorized`), height (`LotteryHeightNotMatch` with both heights), readiness (`LotteryIsActiving`), status (`LotteryAlreadyClosed`) |
| `LotteryAuth.ValidateDraw` | contracts/lottery/src/auth/exec.rs:34-48 | the draw guards with the intended readiness: passes if and only if owner, height reached, expired or full, and open; otherwise reports the first failing guard |
| `LotteryAuth.AsWrittenReadinessAlwaysPasses` | contracts/lottery/src/auth/exec.rs:136-143 | when the counter equals `player_count`, the as-written readiness guard always passes |
| `LotteryAuth.EarlyDrawExample` | contracts/lottery/src/auth/exec.rs:136-143 | an owner's draw before expiry with no players and room for two passes the as-written guards and fails the intended ones |
| `LotteryAuth.IntendedReadinessNeedsFullOrExpired` | contracts/lottery/src/contract/exec.rs:218-221 | under the intended guard, a draw before expiry needs the lottery to be full |
| `KeyOrder.LexReflexive` | contracts/lottery/src/contract/exec.rs:355 | key order is reflexive |
| `KeyOrder.LexAntisymmetric` | contracts/lottery/src/contract/exec.rs:355 | key order is antisymmetric |
| `KeyOrder.LexTransitive` | contracts/lottery/src/contract/exec.rs:355 | key order is transitive |
| `KeyOrder.LexTotal` | contracts/lottery/src/contract/exec.rs:355 | any two keys are ordered one way or the other |
| `KeyOrder.LeastUnique` | contracts/lottery/src/contract/exec.rs:355 | a set of keys has at most one least key |
| `KeyOrder.LeastExists` | contracts/lottery/src/contract/exec.rs:355 | every non-empty set of keys has a least key |
| `KeyOrder.LeastKey` | contracts/lottery/src/contract/exec.rs:355 | `players.first()` is a key of the map no later than any other key |
| `KeyOrder.LeastOfSingleton` | contracts/lottery/src/contract/exec.rs:355 | the only key of a one-key map comes first |
| `LotteryExec.NewPlayer` | contracts/lottery/src/contract/exec.rs:141-151 | the stored ticket records the sender, the contract, the block height as both buy height and height, and the memo |
| `LotteryExec.Buy` | contracts/lottery/src/contract/exec.rs:72-168 | succeeds if and only if the guards pass and the sender holds no ticket. A failed guard or repeat buy returns its error and writes nothing. On success the counter is below `max_players`, and the purchase is recorded (`RecordPurchase`) with the new seed `update(old, sender, new counter, height, memo)` |
| `LotteryExec.RecordPurchase` | contracts/lottery/src/contract/exec.rs:133-155 | the writes of an accepted purchase: counter + 1 becomes the ticket number, `player_count` goes up by one, the given seed replaces the old one, and the buyer is filed under its address and that number; owner and every other state field untouched |
| `LotteryExec.WinnerIndex` | contracts/lottery/src/contract/exec.rs:363 | `h % counter + 1` lies in 1..counter and is congruent to h + 1 |
| `LotteryExec.ChooseWinner` | contracts/lottery/src/contract/exec.rs:343-370 | no winner for 0 players; the first-stored player for 1; for more, the player under ticket `h(seed) % counter + 1`; never more than one winner, always a stored player |
| `LotteryExec.TxPhrase` | contracts/lottery/src/contract/exec.rs:198 | present exactly when the block gives a transaction index, and then decimal digits that read back as that index |
| `LotteryExec.Draw` | contracts/lottery/src/contract/exec.rs:170-252 | the transition behind the intended draw guards, not the ones the contract runs (see `LotteryExec.DrawAsWritten`). A failed guard is returned as is. The draw succeeds if and only if the guards pass and the winner choice succeeds, where the choice is made from the closed state with seed `finalize(old, sender, height, tx index)`. On success the choice is recorded (`RecordDraw`) |
| `LotteryExec.DrawAsWritten` | contracts/lottery/src/contract/exec.rs:170-252 | `draw_lottery` as the contract runs it, behind `validate_draw` as written: a failed guard is returned as is; the draw succeeds if and only if those guards pass and the winner choice from the closed state with the finalised seed succeeds; on success the choice is recorded (`RecordDraw`) |
| `LotteryExec.ClosedState` | contracts/lottery/src/contract/exec.rs:224-226 | the state the winner is chosen from is closed and carries the finalised seed, every other field as before |
| `LotteryExec.RecordDraw` | contracts/lottery/src/contract/exec.rs:230-243 | the stored state is the closed one with the winner list emptied when no player was chosen, or the chosen player appended with the queried `aconst` balance as prize; owner, counter, players and index untouched |
| `LotteryExec.Claim` | contracts/lottery/src/contract/exec.rs:254-271 | succeeds if and only if the game is closed and the sender is the first winner, and then only the owner becomes the sender; otherwise `Unauthorized` |
| `LotteryExec.Transfer` | contracts/lottery/src/contract/exec.rs:273-299 | a non-owner gets `Unauthorized`, an invalid recipient `InvalidAddress`; otherwise only the owner changes, to the recipient |
| `LotteryExec.Withdraw` | contracts/lottery/src/contract/exec.rs:301-340 | a non-owner gets `Unauthorized`; balance < amount gives `BalanceTooSmall`; otherwise exactly one bank send of `amount` to the recipient, or to the sender when none is given |
| `LotteryInit.Instantiate` | contracts/lottery/src/contract/init.rs:13-75 | zero price → `InvalidUnitPrice`, then non-jackpot → `UnSupportedWinnerSelection`, then an unknown period → `InvalidLottoryPeriod`. Otherwise an open lottery with no players, counter 0, no winners, the sender as owner, the seed `init(contract, height)`, and the expiry from the period and block time |
| `LotteryInit.ExpirationFieldIgnored` | contracts/lottery/src/contract/init.rs:34-44 | the message's `expiration` field has no effect on the result |
| `LotteryInit.CategoryFieldIgnored` | contracts/lottery/src/contract/init.rs:39-54 | a new lottery's category is the default whatever is requested |
| `LotteryLedger.InstantiateValid` | contracts/lottery/src/contract/init.rs:39-58 | a freshly instantiated ledger satisfies the storage invariant |
| `LotteryLedger.AppendPlayer` | contracts/lottery/src/contract/exec.rs:141-155 | filing a new address under the next number keeps the numbering dense, one-to-one and equal to the player set |
| `LotteryLedger.BuyPreservesValid` | contracts/lottery/src/contract/exec.rs:133-155 | a successful purchase keeps the storage invariant |
| `LotteryLedger.ChooseWinnerSucceeds` | contracts/lottery/src/contract/exec.rs:352-369 | on a valid ledger the winner choice never fails, and it is empty if and only if nobody holds a ticket |
| `LotteryLedger.SolePlayerWins` | contracts/lottery/src/contract/exec.rs:354-356 | with one ticket, the first-stored player is the holder of ticket 1 |
| `LotteryLedger.DrawPreservesValid` | contracts/lottery/src/contract/exec.rs:224-241 | on a valid ledger a draw whose guards pass succeeds and keeps the invariant; the winner list is empty if and only if there are no players, else exactly one ticket holder with the queried balance |
| `LotteryLedger.DrawAsWrittenPreservesValid` | contracts/lottery/src/contract/exec.rs:182-243 | on a valid ledger an as-written draw whose guards pass succeeds and keeps the invariant, with the winner list empty if and only if there are no players, else exactly one ticket holder with the queried balance |
| `LotteryLedger.EarlyDrawClosesEmpty` | contracts/lottery/src/auth/exec.rs:136-143 | with no ticket sold and before expiry, the owner's as-written draw closes the lottery with no winner, while the intended draw fails with `LotteryIsActiving` |
| `LotteryLedger.ClaimAndTransferPreserveValid` | contracts/lottery/src/contract/exec.rs:254-299 | ownership changes keep the invariant |
| `LotteryLedger.ClosedIsFinal` | contracts/lottery/src/auth/exec.rs:123-128 | once closed, no purchase and no second draw succeeds, under either set of draw guards |
| `LotteryLedger.NonOwnerCannotDraw` | contracts/lottery/src/auth/exec.rs:41 | a draw by anyone but the owner fails with `Unauthorized`, under either set of draw guards |
| `LotteryLedger.SecondPurchaseRefused` | contracts/lottery/src/contract/exec.rs:124-131 | an address that has bought cannot buy again |
| `LotteryLedger.SoleBuyerWinsAndClaims` | contracts/lottery/src/contract/exec.rs:228-259 | with a single ticket, the draw makes its buyer the one winner with the queried balance as prize, and the buyer can then claim ownership |
| `Encoding.LeBytes` | packages/common/src/random/seed.rs:8 | k bytes, least significant first |
| `Encoding.LeRoundTrip` | packages/common/src/random/seed.rs:8 | reading back the k low bytes of n < 256^k gives n |
| `Encoding.Pow256Eight` | packages/common/src/random/seed.rs:8 | eight bytes hold exactly the `u64` range |
| `Encoding.Le64` | packages/common/src/random/seed.rs:8 | `to_le_bytes` gives eight bytes that read back as the number |
| `Encoding.CharBytes` | packages/common/src/random/seed.rs:7 | one to four bytes per character, one exactly for ASCII |
| `Encoding.Utf8` | packages/common/src/random/seed.rs:7 | at least one byte per character; empty exactly for empty text |
| `Encoding.TwoByteRoundTrip` | packages/common/src/random/seed.rs:7 | a two-byte sequence rebuilds its code point |
| `Encoding.ThreeByteRoundTrip` | packages/common/src/random/seed.rs:7 | a three-byte sequence rebuilds its code point |
| `Encoding.FourByteRoundTrip` | packages/common/src/random/seed.rs:7 | a four-byte sequence rebuilds its code point |
| `Encoding.CharRoundTrip` | packages/common/src/random/seed.rs:7 | each character's encoding announces its own length and decodes back to the character |
| `Encoding.Utf8RoundTrip` | packages/common/src/random/seed.rs:7 | decoding `as_bytes` gives the text back, so distinct texts feed distinct bytes |
| `Encoding.DigitChar` | contracts/lottery/src/contract/exec.rs:198 | a digit below ten is a decimal digit character |
| `Encoding.DigitValue` | contracts/lottery/src/contract/exec.rs:198 | a digit character has a value below ten |
| `Encoding.DecimalString` | contracts/lottery/src/contract/exec.rs:198 | `to_string` of an unsigned number is a non-empty string of digits |
| `Encoding.DecimalRoundTrip` | contracts/lottery/src/contract/exec.rs:198 | the digits read back as the number and have a leading zero only for zero |
| `Base64.Sextet` | packages/common/src/random/seed.rs:10 | a 6-bit value maps to an alphabet character other than padding |
| `Base64.SextetValue` | packages/common/src/random/seed.rs:10 | an alphabet character has a 6-bit value; padding has none |
| `Base64.SextetRoundTrip` | packages/common/src/random/seed.rs:10 | the value of the character of v is v |
| `Base64.EncodeGroup` | packages/common/src/random/seed.rs:10 | three bytes become four alphabet characters |
| `Base64.EncodeFinalTwo` | packages/common/src/random/seed.rs:10 | a final two bytes become three characters and one '=' |
| `Base64.EncodeFinalOne` | packages/common/src/random/seed.rs:10 | a final byte becomes two characters and "==" |
| `Base64.Encode` | packages/common/src/random/seed.rs:10 | padded output of length 4·⌈n/3⌉ over the Base64 alphabet |
| `Base64.GroupRoundTrip` | packages/common/src/random/seed.rs:10 | a group of three bytes decodes back from its encoding |
| `Base64.FinalTwoRoundTrip` | packages/common/src/random/seed.rs:10 | a final pair decodes back from its padded encoding |
| `Base64.FinalOneRoundTrip` | packages/common/src/random/seed.rs:10 | a final byte decodes back from its padded encoding |
| `Base64.DecodeLeadingGroup` | packages/common/src/random/seed.rs:10 | an unpadded leading quad decodes on its own ahead of the rest |
| `Base64.DecodeEncode` | packages/common/src/random/seed.rs:10 | decoding the encoding gives the bytes back, so encoding loses nothing |
| `Base64.DigestEncodingLength` | packages/common/src/random/seed.rs:10 | a 32-byte digest encodes to 44 characters |
| `Seed.OptionalBytes` | packages/common/src/random/seed.rs:26-28 | an absent memo contributes no bytes, a present one its UTF-8 bytes |
| `Seed.Armor` | packages/common/src/random/seed.rs:29-30 | the seed text is 44 characters that decode to the digest |
| `Seed.InitPreimage` | packages/common/src/random/seed.rs:5-8 | the bytes of the id followed by the eight little-endian bytes of the height |
| `Seed.Init` | packages/common/src/random/seed.rs:5-12 | 44 characters decoding to SHA-256 of the init preimage |
| `Seed.InitPreimageInjective` | packages/common/src/random/seed.rs:6-8 | distinct (id, height) pairs give distinct preimages |
| `Seed.UpdatePreimage` | packages/common/src/random/seed.rs:21-28 | seed ‖ owner ‖ le8(ticket count) ‖ le8(height) ‖ memo bytes, each slot at its offset |
| `Seed.Update` | packages/common/src/random/seed.rs:14-32 | 44 characters decoding to SHA-256 of the update preimage |
| `Seed.EmptyMemoIsNoMemo` | packages/common/src/random/seed.rs:26-28 | memo `None` and `Some("")` give the same preimage and the same seed |
| `Seed.LeSlotsAgree` | packages/common/src/random/seed.rs:22-25 | two layouts that agree on the text slots and the two integers agree up to the memo |
| `Seed.LeValueInjective` | packages/common/src/random/seed.rs:24-25 | equal-length little-endian byte strings with the same value are equal |
| `Seed.FinalizePreimage` | packages/common/src/random/seed.rs:40-46 | seed ‖ sender ‖ le8(height) ‖ phrase bytes, each slot at its offset |
| `Seed.Finalize` | packages/common/src/random/seed.rs:34-50 | 44 characters decoding to SHA-256 of the finalize preimage |
| `Seed.FinalizeOmitsTicketCount` | packages/common/src/random/seed.rs:40-46 | the finalize layout is the update layout with the ticket-count slot removed |
| `Rule.NanoPart` | packages/common/src/random/rule.rs:4-12 | the whole seconds cut to 32 bits: congruent to the seconds modulo 2^32, and equal to them below 2^32 |
| `Rule.NanoPartIgnoresSubsecond` | packages/common/src/random/rule.rs:6-11 | timestamps within the same second give the same value |
| `Rule.ChooseIdxByNano` | packages/common/src/random/rule.rs:15-17 | no index exactly when `count` is zero (the source's `% count` panics); otherwise the index is below `count` and congruent to `nano_part` modulo `count` |
| `Rule.DropRemainder` | packages/common/src/random/rule.rs:16 | subtracting the remainder leaves a multiple of the divisor |
| `Rule.NanoPartExamples` | packages/common/src/random/rule.rs:19-35 | timestamp 0 gives 0; 2 232 332 234 ns gives 2, index 0 of 2 and index 2 of 10, and no index of 0 |
| `Calendar.MonthLength` | crates/common/src/helper/mod.rs:17-25 | every month has 28 to 31 days |
| `Calendar.DaysBeforeNextYear` | crates/common/src/helper/mod.rs:31 | each year adds its own length to the day count |
| `Calendar.DaysBeforeMonth` | crates/common/src/helper/mod.rs:21-22 | the days before a month are never negative |
| `Calendar.MonthsFillYear` | crates/common/src/helper/mod.rs:21-22 | the twelve months together are the year's length |
| `Calendar.DaysBeforeMonthMonotone` | crates/common/src/helper/mod.rs:21-22 | a later month starts no earlier than an earlier month ends |
| `Calendar.DaysBeforeYearMonotone` | crates/common/src/helper/mod.rs:31 | a later year starts no earlier than an earlier year ends |
| `Calendar.DaysFromCivil` | crates/common/src/helper/mod.rs:37 | a date's day number lies within its year |
| `Calendar.YearUp` | crates/common/src/helper/mod.rs:12 | the search from a year at or before day n ends on the year containing n |
| `Calendar.YearDown` | crates/common/src/helper/mod.rs:12 | the search from a year at or after day n ends on the year containing n |
| `Calendar.YearOf` | crates/common/src/helper/mod.rs:12 | the year containing day n |
| `Calendar.MonthFrom` | crates/common/src/helper/mod.rs:12 | the month containing a day of the year |
| `Calendar.CivilFromDays` | crates/common/src/helper/mod.rs:12 | every day number is the day number of a valid date |
| `Calendar.DaysFromCivilInjective` | crates/common/src/helper/mod.rs:12 | distinct valid dates have distinct day numbers |
| `Calendar.CivilRoundTrip` | crates/common/src/helper/mod.rs:12 | date → day number → date is the identity |
| `Calendar.WeekdayFromSunday` | crates/common/src/helper/mod.rs:13 | the weekday counted from Sunday is in 0..6 |
| `Calendar.SaturdayOfWeek` | crates/common/src/helper/mod.rs:13-14 | going back to the week's Sunday and six days on lands on a Saturday |
| `Calendar.SameWeekdayClose` | crates/common/src/helper/mod.rs:13-14 | two days less than a week apart with the same weekday are the same day |
| `Helper.DayOfSecs` | crates/common/src/helper/mod.rs:12 | a second of day k falls on day k at its time of day |
| `Helper.DateNaive` | crates/common/src/helper/mod.rs:12 | `date_naive` is the valid date whose day spans the instant |
| `Helper.At` | crates/common/src/helper/mod.rs:36 | a date at a time of day falls on that date at that time |
| `Helper.TimestampToUtc` | crates/common/src/helper/mod.rs:4-9 | the date-time of a block time is its whole seconds, on the day floor(s / 86400) after 1970-01-01 |
| `Helper.FromEpochOn` | crates/common/src/helper/mod.rs:8 | a non-negative day number falls in 1970 or later |
| `Helper.LastDayOfWeek` | crates/common/src/helper/mod.rs:11-15 | a Saturday no earlier than the date and at most six days after it |
| `Helper.LastDayOfWeekUnique` | crates/common/src/helper/mod.rs:11-15 | no other date is a Saturday within those six days |
| `Helper.SaturdayEndsItsWeek` | crates/common/src/helper/mod.rs:13-14 | a Saturday is the last day of its own week |
| `Helper.DayBefore22h` | crates/common/src/helper/mod.rs:24 | one day before 22:00 on a date falls on the previous date |
| `Helper.LastDayOfMonth` | crates/common/src/helper/mod.rs:17-25 | a valid date in the input's year and month whose day is that month's length |
| `Helper.LastDayOfMonthIsDayBefore` | crates/common/src/helper/mod.rs:22 | the first of the month built, January of the next year for December, is one day after the month's last day |
| `Helper.LastDayOfYear` | crates/common/src/helper/mod.rs:27-33 | always December 31 of the input's year |
| `Helper.SecsOfHour22` | crates/common/src/helper/mod.rs:35-38 | the Unix seconds of 22:00 on the date, taken modulo 2^64 as the `as u64` cast does |
| `Helper.CastToU64` | crates/common/src/helper/mod.rs:37 | `as u64` keeps non-negative values and adds 2^64 to negative ones |
| `Helper.SecsOfHour22OnDate` | crates/common/src/helper/mod.rs:35-38 | from 1970 on, the result is day number · 86400 + 79200 and falls on the date at 22:00 |
| `Helper.BlockDayAt22h` | crates/common/src/helper/mod.rs:35-38 | 22:00 on the day of a block time is its whole days · 86400 + 79200 |
| `Helper.LastDayOfMonthOf` | crates/common/src/helper/mod.rs:17-25 | the last day of any date's month is that month's length |
| `Helper.LastDayOfMonthExamples` | crates/common/src/helper/mod.rs:72-100 | any date in February, August or December 2023 gives the 28th, 31st and 31st |
| `Helper.LastDayOfYearExamples` | crates/common/src/helper/mod.rs:45-70 | any date in 2023 gives December 31, 2023 |
| `Helper.PreEpochWrapExample` | crates/common/src/helper/mod.rs:37 | 22:00 on 1969-12-31 wraps to 2^64 − 7200 |
| `FixedPoint.One` | contracts/staking/src/contract/query.rs:14 | `Decimal::one()` has 10^18 atomics |
| `FixedPoint.Percent` | contracts/staking/tests/test.rs:79 | `percent(x)` is x/100 exactly |
| `FixedPoint.FloorBounds` | contracts/staking/src/contract/exec.rs:102 | a floor quotient sits between the two multiples |
| `FixedPoint.FloorUnique` | contracts/staking/src/contract/exec.rs:102 | only one quotient sits between them |
| `FixedPoint.MulMonotone` | contracts/staking/src/contract/exec.rs:195 | multiplication keeps order |
| `FixedPoint.MultiplyRatio` | contracts/staking/src/contract/exec.rs:102 | `multiply_ratio` is a·n/d rounded down |
| `FixedPoint.MulFloor` | contracts/staking/src/contract/exec.rs:155 | `Uint128 * Decimal` is the product rounded down to an integer |
| `FixedPoint.FromRatio` | contracts/staking/src/contract/query.rs:40 | `from_ratio` is n/d rounded down to 18 digits |
| `FixedPoint.MulFloorOne` | contracts/staking/src/contract/exec.rs:100 | multiplying by one gives the amount back |
| `FixedPoint.MulFloorAtMost` | contracts/staking/src/contract/exec.rs:155 | a rate of at most one never takes more than the amount |
| `FixedPoint.FromRatioExact` | contracts/staking/src/contract/query.rs:40 | an exactly representable ratio is computed exactly |
| `FixedPoint.MultiplyRatioExact` | contracts/staking/src/contract/exec.rs:195 | an exact quotient is computed exactly |
| `Cosmos.Timestamp.Seconds` | packages/common/src/random/rule.rs:6 | `Timestamp::seconds()`, as `nano_part` here and the date helpers at crates/common/src/helper/mod.rs:6 call it: the whole seconds of a timestamp, sub-second part dropped |
| `Cosmos.FromSeconds` | packages/common/src/random/rule.rs:21 | `from_seconds(s)` has s whole seconds |
| `StakingState.After` | contracts/staking/src/contract/exec.rs:216 | a claim matures that many blocks or seconds after the current block |
| `StakingState.CheckedSub` | contracts/staking/src/contract/exec.rs:185 | succeeds if and only if b ≤ a, with a − b; otherwise `Overflow(a, b)` |
| `StakingExec.FoldBondsMeaning` | contracts/staking/src/contract/exec.rs:371-381 | the fold over the first n delegations sums them when all share the denom, else names the first mismatch |
| `StakingExec.GetBounded` | contracts/staking/src/contract/exec.rs:363-382 | 0 for no delegations; the sum if and only if all share the first denom; otherwise `DifferentBondDenom` naming the first denom and the first mismatch |
| `StakingExec.AssertBonds` | contracts/staking/src/contract/exec.rs:384-393 | passes if and only if stored bonded equals the queried amount; otherwise `BondedMismatch` with both |
| `StakingExec.FirstOfDenom` | contracts/staking/src/contract/exec.rs:81-84 | the position of the first coin in the denom, or the end |
| `StakingExec.Payment` | contracts/staking/src/contract/exec.rs:81-87 | none if and only if no coin has the bond denom; otherwise a coin of that denom from the funds |
| `StakingExec.MintAmount` | contracts/staking/src/contract/exec.rs:99-103 | the payment itself while nothing is issued or bonded; otherwise floor(payment · issued / bonded) |
| `StakingExec.Bond` | contracts/staking/src/contract/exec.rs:77-135 | no bond-denom coin → `EmptyBalance`, then delegation errors, then `BondedMismatch`. On success bonded grows by the payment and issued by the shares minted to the sender, and the payment is delegated |
| `StakingExec.BondKeepsSharePrice` | contracts/staking/src/contract/exec.rs:99-106 | bonding never lowers bonded/issued |
| `StakingExec.Unbond` | contracts/staking/src/contract/exec.rs:137-231 | succeeds if and only if the amount reaches the minimum, the burn and (for a non-zero commission) the commission mint succeed, the queried delegations total the stored bonded amount, the commission does not exceed the amount, shares are issued and the remainder does not exceed them. Each failure is named in the contract's order: `UnbondTooSmall`, the burn error, the mint error, the delegation-total error, `Overflow(amount, commission)`, `BondedMismatch`, `Aborted` for zero issued shares, and an `Overflow` when the remainder exceeds the issued shares. On success the commission is floor(amount · rate), unbond is floor(remainder · bonded / issued), bonded −= unbond, issued −= remainder, claims += unbond, and a claim and an undelegation of unbond are made |
| `StakingExec.Redeem` | contracts/staking/src/contract/exec.rs:195-224 | succeeds if and only if the remainder is at most the issued shares; the supply moves by the rounded-down value |
| `StakingExec.RedeemWithinBonded` | contracts/staking/src/contract/exec.rs:195-196 | redeeming no more shares than exist yields no more than is bonded |
| `StakingExec.UnbondConserves` | contracts/staking/src/contract/exec.rs:195-203 | bonded + claims is unchanged, and exactly the non-commission shares are retired |
| `StakingExec.UnbondKeepsSharePrice` | contracts/staking/src/contract/exec.rs:195-203 | unbonding never lowers bonded/issued |
| `StakingExec.PriceAfterMint` | contracts/staking/src/contract/exec.rs:99-106 | minting rounded-down shares for a payment leaves at least the old price per share |
| `StakingExec.PriceAfterRedeem` | contracts/staking/src/contract/exec.rs:195-201 | a rounded-down redemption leaves at least the old price per share |
| `StakingExec.CommissionWithinAmount` | contracts/staking/src/contract/exec.rs:185 | with a rate of at most 100% the remainder subtraction cannot fail |
| `StakingExec.Claim` | contracts/staking/src/contract/exec.rs:233-272 | balance < minimum → `BalanceTooSmall`; nothing released → `NothingToClaim`. On success claims drop by exactly the amount sent, which goes to the sender in the bond denom |
| `StakingExec.Reinvest` | contracts/staking/src/contract/exec.rs:276-293 | withdraws the validator's rewards and calls the contract back with `BondAllTokens`, supply untouched |
| `StakingExec.BondAllTokens` | contracts/staking/src/contract/exec.rs:295-359 | any caller but the contract → `Unauthorized`. If balance < claims or balance − claims < minimum, an empty no-op; otherwise bonded += balance − claims, which is delegated |
| `StakingExec.ReinvestCallbackAuthorized` | contracts/staking/src/contract/exec.rs:286-302 | the callback reinvest sends passes the sender check |
| `StakingExec.BondAllTokensKeepsClaims` | contracts/staking/src/contract/exec.rs:319-337 | claims and issued are unchanged, bonded never drops, and what is added plus claims is the balance |
| `StakingQuery.QueryInvestment` | contracts/staking/src/contract/query.rs:34-54 | nominal value exactly one while nothing is issued, else bonded/issued rounded down to 18 digits; supply, staked coin and configuration reported as stored |
| `StakingQuery.NominalValueExact` | contracts/staking/src/contract/query.rs:37-41 | an exactly representable bonded/issued is the nominal value |
| `StakingInit.Instantiate` | contracts/staking/src/contract/init.rs:14-62 | succeeds if and only if the validator is in the set, else `NoInValidatorSet` naming it. The supply starts at zero and the token at zero supply with the contract as minter and no cap. Owner is the sender and the denom is the chain's; the rest is copied from the message |
| `StakingScenarios.InstantiateThenQuery` | contracts/staking/tests/test.rs:125-167 | after instantiation the query shows zero supply, zero staked, nominal value one and the configuration as given |
| `StakingScenarios.SingleDelegation` | contracts/staking/src/contract/exec.rs:366-381 | a single delegation totals its own amount |
| `StakingScenarios.MissingValidatorExample` | contracts/staking/tests/test.rs:96-122 | "validator1" missing from {"john"} gives `NoInValidatorSet("validator1")` |
| `StakingScenarios.BondingIssuesTokensExample` | contracts/staking/tests/test.rs:170-216 | bonding 1000 ustake alongside 10 "random" mints 1000, delegates 1000, and keeps nominal value one |
| `StakingScenarios.WrongDenomExample` | contracts/staking/tests/test.rs:281-304 | funds only in "ustake1" give `EmptyBalance("ustake")` |
| `StakingScenarios.RebondingChangesPricingExample` | contracts/staking/tests/test.rs:219-278 | reinvesting 2000 makes 1000/3000 at price 3; alice's 3000 then mints 1000, giving 2000/6000 at price 3 |
| `StakingScenarios.UnbondMaintainsPriceExample` | contracts/staking/tests/test.rs:307-406 | unbonding 600 at 10% from 1000/1500 gives commission 60 and unbond 810, leaving 460/690 at price 1.5 with a claim of 810 after three days |
| `StakingScenarios.UnbondWithoutSharesExample` | contracts/staking/tests/test.rs:346-357 | when the creator's burn fails with `Overflow(0, 600)`, unbonding fails with that error |
| `StakingScenarios.ClaimsPaidOutExample` | contracts/staking/tests/test.rs:447-479 | no balance → refused; nothing matured → refused; 540 matured and held → 540 sent to bob and claims cleared |
| `StakingScenarios.UnbondBeforeClaimExample` | contracts/staking/tests/test.rs:422-445 | unbonding 600 of 1000/1000 at 10% creates a claim of 540 and leaves 460/460 |

## Left out

- SHA-256 is the parameter `Seed.Sha256`, any total function to 32-byte digests. `hash_to_u64` (std `DefaultHasher`) is the parameter `StrHasher`. Both are foreign code, so no concrete winner can be computed.
- `cw_utils::must_pay` is modelled as its result: a payment amount or an error text given as input.
- `addr_validate` is modelled as an optional validated address given as input.
- The cw20 token's mint and burn are the parameter `Cw20`, a function from the call to a result.
- `Claims::claim_tokens` is the input `toSend`: the matured amount capped at the balance.
- `Claims::create_claim` is not stored; `Unbond` returns the claim it would create.
- Bank balance, delegation, validator-set and bonded-denom queries are inputs. The chain messages are returned as values.
- A failing host query or a failing storage load is not modelled. The exceptions are a missing ticket number or player in `choose_winner_infos`: they appear as `Aborted` (the `unwrap`) and `NotFound`.
- `LotteryPeriod::get_deadline` is not part of this model. The expiry is the `Deadline` parameter applied to the period and the block time.
- `FALLBACK_RATIO` of the staking `exec.rs` comes from a module that is not part of this model. It is taken to be `Decimal::one()`, the value `query.rs` gives its own constant of that name.
- Lottery `instantiate` also saves the contract version and instantiates the cw721 base contract. Both are foreign library calls and are not modelled.
- Response attributes, `set_contract_version` and `println!` output are observability only.
- `ticket_id` of `PlayerInfo` and `WinnerInfo` is never set by the contract, so it is not modelled.
- The state's `extension` field is not modelled: nothing in the core reads it.
- The category supplied at lottery instantiation is never read. The state literal built by `instantiate` (contracts/lottery/src/contract/init.rs:39-54) sets no `category` field at all, so as written it leaves that field unfilled; the model fills the gap with `Normal`, the enum's default. `LotteryInit.CategoryFieldIgnored` states that the supplied category plays no part.
- The staking supply's third field is named `reserved` in contracts/staking/src/state.rs:36, while the handlers in `exec.rs` use `claims`; the model follows the handlers and calls it `claims`.
- `validate_buy` is modelled with the player counter as a parameter, as `buy_ticket` calls it. The version in `auth/exec.rs` reads the counter from storage; the two agree.
- `validate_double_buy` raises `LotteryCanBuyOnce` with only the player. `buy_ticket` does its own check with player and lottery, and the model uses the latter payload in both places.
- `LotteryAlreadyClosed` carries no payload, as `validate_status` raises it.
- `Text.ToLowercase`: only the characters whose lower case can produce the ASCII letters of a token are lowered: 'A'–'Z' and the Kelvin sign. Other Unicode case mappings are not modelled, and no parse outcome depends on them.
- `LotteryExec.Draw`: it runs the intended readiness guard, not the one `draw_lottery` calls, so it refuses the early draws the contract accepts; `LotteryExec.DrawAsWritten` is the contract's own behaviour and `LotteryLedger.EarlyDrawClosesEmpty` shows the difference. In both, a failure of the winner choice is not named by the contract; `LotteryLedger.ChooseWinnerSucceeds` shows it cannot happen on a valid ledger.
- Integer widths: the `u128` amounts of staking and `player_count` are unbounded, so overflow on additions is not modelled. `PLAYER_COUNTER` is a `u64` kept below `max_players`. `Timestamp::plus_seconds` overflow in claim expiry is not modelled.
- chrono's supported year range is not modelled; the calendar is unbounded proleptic Gregorian. The `unwrap`s on `timestamp_opt` and `with_ymd_and_hms` therefore never fail in the model.
- `packages/common/src/random/mod.rs` is not part of this model. It wraps a PCG generator and a Base64 decoder from libraries.
- `contracts/lottery/src/hash.rs` duplicates the seed functions and is not compiled, so it is not modelled.
- The platform contract is not modelled: its orchestration is cross-contract sub-messages.
- The lottery's `query` and `reply` are stubs and are not modelled.

## Findings

| source | as written | input that shows it | evidently intended | confidence | as-written member | corrected member |
|---|---|---|---|---|---|---|
| contracts/lottery/src/auth/exec.rs:136-143 | The draw-readiness guard compares `PLAYER_COUNTER` with `state.player_count`. Every purchase raises both by one, so the guard always passes (`LotteryAuth.AsWrittenReadinessAlwaysPasses`). | Expiration 100, block time 50, no players, `max_players` 2: the owner's draw is accepted (`LotteryAuth.EarlyDrawExample`). | A draw waits until the lottery has expired or the counter has reached `max_players`, as in the check the authors left commented out at contracts/lottery/src/contract/exec.rs:218-221. | not executed; high | `LotteryAuth.ValidateDrawAsWritten`, `LotteryExec.DrawAsWritten` | `LotteryAuth.ValidateDraw`, `LotteryExec.Draw` |

`LotteryExec.DrawAsWritten` runs the guard as written and `LotteryExec.Draw` the corrected one. `LotteryLedger.EarlyDrawClosesEmpty` exhibits the early draw at the level of the transition: the as-written draw closes an empty lottery before expiry, the corrected one refuses. `LotteryAuth.IntendedReadinessNeedsFullOrExpired` proves that, under the corrected guard, an early draw needs a full lottery.
