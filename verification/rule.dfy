/** Picking an index from the block time. */
module Rule {

  import opened Results
  import opened Cosmos

  /** Whole seconds of the timestamp cut to 32 bits (`secs as u32`); the
      sub-second nanoseconds play no part despite the name. */
  function NanoPart(ts: Timestamp): (r: u32)
    ensures r <= ts.Seconds() && (ts.Seconds() - r) % TWO_32 == 0
    ensures ts.Seconds() < TWO_32 ==> r == ts.Seconds()
  {
    ts.Seconds() % TWO_32
  }

  /** Two timestamps in the same second give the same value. */
  lemma NanoPartIgnoresSubsecond(t1: Timestamp, t2: Timestamp)
    requires t1.nanos / NANOS_PER_SECOND == t2.nanos / NANOS_PER_SECOND
    ensures NanoPart(t1) == NanoPart(t2)
  {
  }

  /** An index below `count`, or `None` for a zero `count`, where the source's
      `% count` panics. */
  function ChooseIdxByNano(ts: Timestamp, count: u32): (r: Option<u32>)
    ensures r.Some? <==> count > 0
    ensures r.Some? ==> r.value < count && r.value <= NanoPart(ts) && (NanoPart(ts) - r.value) % count == 0
  {
    if count == 0 then None
    else
      DropRemainder(NanoPart(ts), count);
      Some(NanoPart(ts) % count)
  }

  lemma DropRemainder(a: nat, m: nat)
    requires m > 0
    ensures a % m <= a && (a - a % m) % m == 0
  {
    var q := a / m;
    assert a - a % m == q * m;
    DivModUnique(q * m, m, q, 0);
  }

  lemma MulAtLeast(k: int, m: int)
    requires m > 0
    ensures k >= 1 ==> k * m >= m
  {
    if k >= 1 {
      assert k * m == (k - 1) * m + m;
    }
  }

  /** Euclidean division is unique: a remainder below `m` that rebuilds `x`
      with some quotient is the one `%` gives. */
  lemma DivModUnique(x: int, m: int, q: int, r: int)
    requires m > 0 && 0 <= r < m && x == q * m + r
    ensures x % m == r
  {
    var q', r' := x / m, x % m;
    assert (q - q') * m == r' - r;
    MulAtLeast(q - q', m);
    MulAtLeast(q' - q, m);
  }

  /** Second zero gives 0; 2.232332234 s gives 2, which picks 0 of 2 and 2 of 10;
      a zero count has no index. */
  lemma NanoPartExamples()
    ensures NanoPart(FromSeconds(0)) == 0
    ensures NanoPart(Timestamp(2_232_332_234)) == 2
    ensures ChooseIdxByNano(Timestamp(2_232_332_234), 2) == Some(0)
    ensures ChooseIdxByNano(Timestamp(2_232_332_234), 10) == Some(2)
    ensures ChooseIdxByNano(Timestamp(2_232_332_234), 0) == None
  {
  }
}
