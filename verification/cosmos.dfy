/** Host-side value types the contracts receive from and hand back to the chain:
    fixed-width integers, addresses, coins, timestamps and outgoing messages. */
module Cosmos {

  import Results

  const TWO_32: int := 0x1_0000_0000
  const TWO_64: int := 0x1_0000_0000_0000_0000

  type byte = x: int | 0 <= x < 256
  type u32 = x: int | 0 <= x < TWO_32
  type u64 = x: int | 0 <= x < TWO_64

  /** A validated bech32 address; compared and hashed as its text. */
  type Addr = string

  datatype Coin = Coin(denom: string, amount: nat)

  const NANOS_PER_SECOND: nat := 1_000_000_000

  /** `cosmwasm_std::Timestamp`: nanoseconds since the Unix epoch in a `u64`. */
  datatype Timestamp = Timestamp(nanos: u64) {

    /** Whole seconds; the sub-second part is dropped. */
    function Seconds(): (s: nat)
      ensures s * NANOS_PER_SECOND <= nanos < (s + 1) * NANOS_PER_SECOND
    {
      nanos / NANOS_PER_SECOND
    }
  }

  function FromSeconds(s: nat): (t: Timestamp)
    requires s * NANOS_PER_SECOND < TWO_64
    ensures t.Seconds() == s
  {
    Timestamp(s * NANOS_PER_SECOND)
  }

  /** What the block supplies to every call. `txIndex` is the position of the
      executing transaction in its block, absent for some callers. */
  datatype Env = Env(height: u64, time: Timestamp, contract: Addr, txIndex: Results.Option<u32>)

  /** The outgoing messages the two contracts emit. */
  datatype CosmosMsg =
    | BankSend(toAddress: string, amount: seq<Coin>)
    | Delegate(validator: string, coin: Coin)
    | Undelegate(validator: string, coin: Coin)
    | WithdrawDelegatorReward(validator: string)
    | ExecuteBondAllTokens(contract: Addr)
}
