/** The lottery contract's stored records, its error type, and the token
    parsers for periods and categories. */
module LotteryState {

  import opened Results
  import opened Cosmos
  import opened Text

  /* ---------------- records ---------------- */

  datatype GameStatus = Activing | Closed

  /** How the pot is split; only `Jackpot` (one winner takes all) is supported. */
  datatype WinnerSelection =
    | Jackpot
    | Fixed(pctSplit: seq<byte>, winnerCount: u32, maxWinnerCount: Option<u32>)
  {
    predicate IsJackpot() { Jackpot? }
  }

  datatype LotteryCategory = Normal | SpecifyPrize

  datatype LotteryPeriod = Hour | Day | Week | Month | Year
  {
    predicate IsHour() { Hour? }
    predicate IsDay() { Day? }
    predicate IsWeek() { Week? }
    predicate IsMonth() { Month? }
    predicate IsYear() { Year? }
  }

  const DEFAULT_PERIOD: LotteryPeriod := Day
  const DEFAULT_CATEGORY: LotteryCategory := Normal

  /** One ticket holder. */
  datatype PlayerInfo = PlayerInfo(
    playerAddr: Addr,
    lotteryAddr: Addr,
    buyAt: u64,
    height: u64,
    memo: Option<string>)

  datatype WinnerInfo = WinnerInfo(address: Addr, prize: seq<Coin>)

  /** The `STATE` item. `expiration` is the deadline field spelt `expiratoin`
      in the contract. */
  datatype State = State(
    name: string,
    symbol: string,
    height: u64,
    createdAt: Timestamp,
    expiration: Timestamp,
    unitPrice: Coin,
    period: LotteryPeriod,
    selection: WinnerSelection,
    playerCount: nat,
    maxPlayers: u64,
    status: GameStatus,
    seed: string,
    winner: seq<WinnerInfo>,
    category: LotteryCategory)
  {
    predicate IsClosed() { status == Closed }
  }

  /** Everything the contract keeps in storage: the `STATE`, `OWNER` and
      `PLAYER_COUNTER` items and the `PLAYERS` (address to ticket) and
      `IDX_2_ADDR` (1-based ticket number to address) maps. */
  datatype Ledger = Ledger(
    state: State,
    owner: Addr,
    counter: u64,
    players: map<Addr, PlayerInfo>,
    index: map<u64, Addr>)

  /* ---------------- errors ---------------- */

  /** The contract's errors, flattened. `Payment` carries a `must_pay` failure,
      `InvalidAddress` an `addr_validate` failure, `NotFound` a missing storage
      entry and `Aborted` a panic (which reverts the transaction). */
  datatype ContractError =
    | Unauthorized
    | InvalidLottoryPeriod(value: string)
    | InvalidUnitPrice(unitPrice: nat)
    | UnSupportedDenom(denom: string)
    | UnSupportedWinnerSelection(selection: WinnerSelection)
    | LotteryCanBuyOnce(player: Addr, lottery: Addr)
    | PaymentNotEnough(amount: nat)
    | Payment(reason: string)
    | LotteryHeightNotMatch(currentHeight: u64, lotteryHeight: u64)
    | LotteryAlreadyClosed
    | PlayerExceededMaximum(maxPlayers: u64)
    | AlreadyExpired
    | LotteryIsActiving
    | BalanceTooSmall(balance: Coin)
    | InvalidCategory(value: string)
    | InvalidAddress(addr: string)
    | NotFound
    | Aborted(reason: string)

  /* ---------------- periods ---------------- */

  /** The lower-case token each period is written as. */
  function PeriodToken(p: LotteryPeriod): string
  {
    match p
    case Hour => "hour"
    case Day => "day"
    case Week => "week"
    case Month => "month"
    case Year => "year"
  }

  /** The period whose token is exactly `t`, if any. */
  function PeriodOfToken(t: string): (r: Option<LotteryPeriod>)
    ensures r.Some? ==> PeriodToken(r.value) == t
    ensures r.None? ==> forall p: LotteryPeriod :: PeriodToken(p) != t
  {
    if t == "hour" then Some(Hour)
    else if t == "day" then Some(Day)
    else if t == "week" then Some(Week)
    else if t == "month" then Some(Month)
    else if t == "year" then Some(Year)
    else None
  }

  /** `LotteryPeriod::from_str`: trims, lower-cases and matches a token; the
      error carries the input as given, untrimmed. */
  function ParsePeriod(s: string): (r: Result<LotteryPeriod, ContractError>)
    ensures r.Ok? ==> PeriodToken(r.value) == Normalize(s)
    ensures r.Err? ==> r.error == InvalidLottoryPeriod(s)
    ensures r.Err? ==> forall p: LotteryPeriod :: PeriodToken(p) != Normalize(s)
  {
    match PeriodOfToken(Normalize(s))
    case Some(p) => Ok(p)
    case None => Err(InvalidLottoryPeriod(s))
  }

  /** A text parses to `p` exactly when its normalised token is `p`'s token. */
  lemma ParsePeriodIff(s: string, p: LotteryPeriod)
    ensures ParsePeriod(s) == Ok(p) <==> Normalize(s) == PeriodToken(p)
  {
    TokenMatchesPeriod(Normalize(s), p);
  }

  lemma TokenMatchesPeriod(t: string, p: LotteryPeriod)
    ensures PeriodOfToken(t) == Some(p) <==> t == PeriodToken(p)
  {
  }

  /** Every period's own token, with any surrounding whitespace, parses back to it. */
  lemma ParsePeriodToken(p: LotteryPeriod, pre: string, post: string)
    requires AllWhitespace(pre) && AllWhitespace(post)
    ensures ParsePeriod(pre + PeriodToken(p) + post) == Ok(p)
  {
    var t := PeriodToken(p);
    TokenIsBare(p);
    TrimPadded(pre, t, post);
    TokenIsLowercase(p);
    assert Normalize(pre + t + post) == t;
    ParsePeriodIff(pre + t + post, p);
  }

  /** A period token is non-empty and has no whitespace at its ends. */
  lemma TokenIsBare(p: LotteryPeriod)
    ensures var t := PeriodToken(p);
      t != [] && !IsWhitespace(t[0]) && !IsWhitespace(t[|t| - 1])
  {
  }

  lemma TokenIsLowercase(p: LotteryPeriod)
    ensures ToLowercase(PeriodToken(p)) == PeriodToken(p)
  {
    match p
    case Hour => LowercaseFixed("hour");
    case Day => LowercaseFixed("day");
    case Week => LowercaseFixed("week");
    case Month => LowercaseFixed("month");
    case Year => LowercaseFixed("year");
  }

  /** A text with no whitespace at its ends whose lower case is `p`'s token. */
  lemma BareTokenParses(s: string, p: LotteryPeriod)
    requires s != [] && !IsWhitespace(s[0]) && !IsWhitespace(s[|s| - 1])
    requires ToLowercase(s) == PeriodToken(p)
    ensures ParsePeriod(s) == Ok(p)
  {
    NormalizeBare(s);
    ParsePeriodIff(s, p);
  }

  lemma HourExample() ensures ParsePeriod("hour") == Ok(Hour) { BareTokenParses("hour", Hour); }
  lemma DayExample() ensures ParsePeriod("dAY") == Ok(Day) { BareTokenParses("dAY", Day); }
  lemma WeekExample() ensures ParsePeriod("Week") == Ok(Week) { BareTokenParses("Week", Week); }
  lemma MonthExample() ensures ParsePeriod("moNth") == Ok(Month) { BareTokenParses("moNth", Month); }
  lemma YearExample() ensures ParsePeriod("yeaR") == Ok(Year) { BareTokenParses("yeaR", Year); }

  lemma PaddedExample()
    ensures ParsePeriod(" day ") == Ok(Day)
  {
    assert " " + "day" + " " == " day ";
    ParsePeriodToken(Day, " ", " ");
  }

  /** "hourly" is rejected with itself as payload. */
  lemma RejectedExample(s: string)
    requires s == "hourly"
    ensures ParsePeriod(s) == Err(InvalidLottoryPeriod(s))
  {
    NormalizeBare(s);
    SixLettersRejected(s);
  }

  lemma SixLettersRejected(s: string)
    requires |Normalize(s)| == 6
    ensures ParsePeriod(s) == Err(InvalidLottoryPeriod(s))
  {
    NoTokenOfLength(Normalize(s));
  }

  /** No period is written with six letters. */
  lemma NoTokenOfLength(t: string)
    requires |t| == 6
    ensures PeriodOfToken(t) == None
  {
  }

  /** Mixed-case tokens parse to their period; other words are rejected with
      the word itself. */
  lemma ParsePeriodExamples()
    ensures ParsePeriod("hour") == Ok(Hour)
    ensures ParsePeriod("dAY") == Ok(Day)
    ensures ParsePeriod("Week") == Ok(Week)
    ensures ParsePeriod("moNth") == Ok(Month)
    ensures ParsePeriod("yeaR") == Ok(Year)
    ensures ParsePeriod(" day ") == Ok(Day)
    ensures ParsePeriod("hourly") == Err(InvalidLottoryPeriod("hourly"))
  {
    HourExample();
    DayExample();
    WeekExample();
    MonthExample();
    YearExample();
    PaddedExample();
    RejectedExample("hourly");
  }

  /** A text without surrounding whitespace normalises to its lower case. */
  lemma NormalizeBare(s: string)
    requires s != [] && !IsWhitespace(s[0]) && !IsWhitespace(s[|s| - 1])
    ensures Normalize(s) == ToLowercase(s)
  {
    TrimPadded([], s, []);
    assert [] + s + [] == s;
  }

  /** Each `is_*` predicate holds for exactly its own period. */
  lemma PeriodPredicatesExact(p: LotteryPeriod)
    ensures p.IsHour() <==> p == Hour
    ensures p.IsDay() <==> p == Day
    ensures p.IsWeek() <==> p == Week
    ensures p.IsMonth() <==> p == Month
    ensures p.IsYear() <==> p == Year
    ensures p.IsHour() || p.IsDay() || p.IsWeek() || p.IsMonth() || p.IsYear()
  {
  }

  /* ---------------- categories ---------------- */

  /** `LotteryCategory::from_str`: accepts "normal" and "specify_prize" after
      trimming and lower-casing. */
  function ParseCategory(s: string): (r: Result<LotteryCategory, ContractError>)
    ensures r == Ok(Normal) <==> Normalize(s) == "normal"
    ensures r == Ok(SpecifyPrize) <==> Normalize(s) == "specify_prize"
    ensures r.Err? ==> r.error == InvalidCategory(s)
  {
    var t := Normalize(s);
    if t == "normal" then Ok(Normal)
    else if t == "specify_prize" then Ok(SpecifyPrize)
    else Err(InvalidCategory(s))
  }

  /** The `Display` text of a category, with its trailing space. */
  function CategoryDisplay(c: LotteryCategory): string
  {
    match c
    case Normal => "Normal "
    case SpecifyPrize => "SpecifyPrize "
  }

  /** `Display` is not an inverse of parsing: "Normal " reads back, but
      "SpecifyPrize " lower-cases to "specifyprize", which is rejected. */
  lemma DisplayIsNotParseInverse(c: LotteryCategory)
    ensures ParseCategory(CategoryDisplay(c)) == Ok(c) <==> c == Normal
    ensures c == SpecifyPrize ==> ParseCategory(CategoryDisplay(c)) == Err(InvalidCategory(CategoryDisplay(c)))
  {
    var s := CategoryDisplay(c);
    if c == Normal {
      NormalDisplayParses(s);
    } else {
      SpecifyPrizeDisplayFails(s);
    }
  }

  /** A word followed by the space `Display` appends normalises to the word's lower case. */
  lemma NormalizeDisplayed(t: string)
    requires t != [] && !IsWhitespace(t[0]) && !IsWhitespace(t[|t| - 1])
    ensures Normalize(t + " ") == ToLowercase(t)
  {
    TrimPadded([], t, " ");
    assert [] + t + " " == t + " ";
  }

  /** Only inputs normalising to six or thirteen characters can name a category. */
  lemma CategoryRejectedByLength(s: string)
    requires |Normalize(s)| != |"normal"| && |Normalize(s)| != |"specify_prize"|
    ensures ParseCategory(s) == Err(InvalidCategory(s))
  {
  }

  /** The display text of `Normal` parses back to `Normal`. */
  lemma NormalDisplayParses(s: string)
    requires s == CategoryDisplay(Normal)
    ensures ParseCategory(s) == Ok(Normal)
  {
    var t := s[..6];
    assert s == t + " ";
    NormalWordParses(t);
  }

  /** A six-letter word spelt N-o-r-m-a-l, followed by the display space, parses to `Normal`. */
  lemma NormalWordParses(t: string)
    requires |t| == 6 && t[0] == 'N' && t[1] == 'o' && t[2] == 'r' && t[3] == 'm' && t[4] == 'a' && t[5] == 'l'
    ensures ParseCategory(t + " ") == Ok(Normal)
  {
    NormalizeDisplayed(t);
    var lo := ToLowercase(t);
    assert lo[0] == 'n' && lo[1] == 'o' && lo[2] == 'r' && lo[3] == 'm' && lo[4] == 'a' && lo[5] == 'l';
    assert lo == "normal";
  }

  /** The display text of `SpecifyPrize` is rejected, with itself as payload. */
  lemma SpecifyPrizeDisplayFails(s: string)
    requires s == CategoryDisplay(SpecifyPrize)
    ensures ParseCategory(s) == Err(InvalidCategory(s))
  {
    var t := s[..12];
    assert s == t + " ";
    SpecifyPrizeWordFails(t);
  }

  /** A twelve-character word without whitespace at its ends, followed by the
      display space, names no category. */
  lemma SpecifyPrizeWordFails(t: string)
    requires |t| == 12 && !IsWhitespace(t[0]) && !IsWhitespace(t[11])
    ensures ParseCategory(t + " ") == Err(InvalidCategory(t + " "))
  {
    NormalizeDisplayed(t);
    CategoryRejectedByLength(t + " ");
  }
}
