/** Byte-level encodings the seed preimages are built from: `u64::to_le_bytes`,
    `str::as_bytes` (UTF-8) and `u32::to_string` (decimal text). Each encoder is
    paired with a decoder and a round-trip lemma. */
module Encoding {

  import opened Results
  import opened Cosmos

  /* ---------------- little-endian integers ---------------- */

  function Pow256(k: nat): (r: nat)
    ensures r >= 1
  {
    if k == 0 then 1 else 256 * Pow256(k - 1)
  }

  /** The `k` low-order bytes of `n`, least significant first. */
  function LeBytes(n: nat, k: nat): (bs: seq<byte>)
    ensures |bs| == k
    ensures k > 0 ==> bs[0] == n % 256
  {
    if k == 0 then [] else [n % 256] + LeBytes(n / 256, k - 1)
  }

  /** Reads a little-endian unsigned integer. */
  function LeValue(bs: seq<byte>): nat
  {
    if |bs| == 0 then 0 else bs[0] + 256 * LeValue(bs[1..])
  }

  lemma {:induction false} LeRoundTrip(n: nat, k: nat)
    requires n < Pow256(k)
    ensures LeValue(LeBytes(n, k)) == n
  {
    if k > 0 {
      var rest := LeBytes(n / 256, k - 1);
      assert n / 256 < Pow256(k - 1);
      LeRoundTrip(n / 256, k - 1);
      assert LeBytes(n, k)[1..] == rest;
    }
  }

  lemma Pow256Eight()
    ensures Pow256(8) == TWO_64
  {
    assert Pow256(1) == 256;
    assert Pow256(2) == 65536;
    assert Pow256(4) == 0x1_0000_0000 by {
      assert Pow256(3) == 256 * 65536;
    }
    assert Pow256(8) == TWO_64 by {
      assert Pow256(5) == 256 * 0x1_0000_0000;
      assert Pow256(6) == 65536 * 0x1_0000_0000;
      assert Pow256(7) == 256 * 65536 * 0x1_0000_0000;
    }
  }

  /** `u64::to_le_bytes`: exactly eight bytes that read back as `n`. */
  function Le64(n: u64): (bs: seq<byte>)
    ensures |bs| == 8
    ensures bs[0] == n % 256
    ensures LeValue(bs) == n
  {
    Pow256Eight();
    LeRoundTrip(n, 8);
    LeBytes(n, 8)
  }

  /* ---------------- UTF-8 ---------------- */

  /** UTF-8 encoding of one Unicode scalar value (RFC 3629, section 3). */
  function CharBytes(c: char): (bs: seq<byte>)
    ensures 1 <= |bs| <= 4
    ensures (c as int < 0x80) <==> |bs| == 1
  {
    var n := c as int;
    if n < 0x80 then [n]
    else if n < 0x800 then [0xC0 + n / 64, 0x80 + n % 64]
    else if n < 0x10000 then [0xE0 + n / 4096, 0x80 + (n / 64) % 64, 0x80 + n % 64]
    else [0xF0 + n / 262144, 0x80 + (n / 4096) % 64, 0x80 + (n / 64) % 64, 0x80 + n % 64]
  }

  /** `str::as_bytes`: the UTF-8 encoding of the whole text. */
  function Utf8(s: string): (bs: seq<byte>)
    ensures |bs| >= |s|
    ensures s == [] <==> bs == []
  {
    if |s| == 0 then [] else CharBytes(s[0]) + Utf8(s[1..])
  }

  /** Number of bytes announced by a leading byte; 0 for a byte that cannot lead. */
  function SequenceLength(b: byte): nat
  {
    if b < 0x80 then 1
    else if 0xC0 <= b < 0xE0 then 2
    else if 0xE0 <= b < 0xF0 then 3
    else if 0xF0 <= b < 0xF8 then 4
    else 0
  }

  function ScalarOf(n: int): Option<char>
  {
    if 0 <= n < 0xD800 || 0xE000 <= n < 0x11_0000 then Some(n as char) else None
  }

  /** Decodes one encoded scalar value of 1 to 4 bytes. */
  function DecodeScalar(bs: seq<byte>): Option<char>
    requires 1 <= |bs| <= 4
  {
    var b := seq(|bs|, i requires 0 <= i < |bs| => bs[i] as int);
    if |b| == 1 then ScalarOf(b[0])
    else if |b| == 2 then ScalarOf((b[0] - 0xC0) * 64 + (b[1] - 0x80))
    else if |b| == 3 then ScalarOf((b[0] - 0xE0) * 4096 + (b[1] - 0x80) * 64 + (b[2] - 0x80))
    else ScalarOf((b[0] - 0xF0) * 262144 + (b[1] - 0x80) * 4096 + (b[2] - 0x80) * 64 + (b[3] - 0x80))
  }

  function Utf8Decode(bs: seq<byte>): Option<string>
    decreases |bs|
  {
    if |bs| == 0 then Some([])
    else
      var len := SequenceLength(bs[0]);
      if len == 0 || |bs| < len then None
      else match DecodeScalar(bs[..len])
        case None => None
        case Some(c) =>
          match Utf8Decode(bs[len..])
          case None => None
          case Some(rest) => Some([c] + rest)
  }

  lemma TwoByteRoundTrip(n: int)
    requires 0x80 <= n < 0x800
    ensures (0xC0 + n / 64 - 0xC0) * 64 + (0x80 + n % 64 - 0x80) == n
  {
  }

  lemma ThreeByteRoundTrip(n: int)
    requires 0x800 <= n < 0x10000
    ensures (0xE0 + n / 4096 - 0xE0) * 4096 + (0x80 + (n / 64) % 64 - 0x80) * 64 + (0x80 + n % 64 - 0x80) == n
  {
    var q := n / 64;
    assert q / 64 == n / 4096;
  }

  lemma FourByteRoundTrip(n: int)
    requires 0x10000 <= n < 0x11_0000
    ensures n / 262144 <= 4
    ensures (0xF0 + n / 262144 - 0xF0) * 262144 + (0x80 + (n / 4096) % 64 - 0x80) * 4096
            + (0x80 + (n / 64) % 64 - 0x80) * 64 + (0x80 + n % 64 - 0x80) == n
  {
    var q := n / 64;
    var r := q / 64;
    assert r == n / 4096;
    assert r / 64 == n / 262144;
  }

  lemma CharRoundTrip(c: char)
    ensures SequenceLength(CharBytes(c)[0]) == |CharBytes(c)|
    ensures DecodeScalar(CharBytes(c)) == Some(c)
  {
    var n := c as int;
    if n < 0x80 {
    } else if n < 0x800 {
      TwoByteRoundTrip(n);
    } else if n < 0x10000 {
      ThreeByteRoundTrip(n);
    } else {
      FourByteRoundTrip(n);
    }
  }

  /** Distinct texts have distinct byte encodings: decoding recovers the text. */
  lemma {:induction false} Utf8RoundTrip(s: string)
    ensures Utf8Decode(Utf8(s)) == Some(s)
  {
    if |s| > 0 {
      var head := CharBytes(s[0]);
      var tail := Utf8(s[1..]);
      CharRoundTrip(s[0]);
      Utf8RoundTrip(s[1..]);
      assert Utf8(s) == head + tail;
      assert (head + tail)[..|head|] == head;
      assert (head + tail)[|head|..] == tail;
      assert [s[0]] + s[1..] == s;
    }
  }

  /* ---------------- decimal text ---------------- */

  predicate IsDigit(c: char)
  {
    '0' <= c <= '9'
  }

  function DigitChar(d: nat): (c: char)
    requires d < 10
    ensures IsDigit(c)
  {
    ('0' as int + d) as char
  }

  /** `to_string` of an unsigned integer: decimal digits, no sign, no leading zero. */
  function DecimalString(n: nat): (s: string)
    ensures |s| >= 1
    ensures forall i :: 0 <= i < |s| ==> IsDigit(s[i])
    decreases n
  {
    if n < 10 then [DigitChar(n)] else DecimalString(n / 10) + [DigitChar(n % 10)]
  }

  function DigitValue(c: char): (d: nat)
    requires IsDigit(c)
    ensures d < 10
  {
    c as int - '0' as int
  }

  function DecimalValue(s: string): nat
    requires forall i :: 0 <= i < |s| ==> IsDigit(s[i])
  {
    if |s| == 0 then 0
    else DecimalValue(s[..|s| - 1]) * 10 + DigitValue(s[|s| - 1])
  }

  lemma {:induction false} DecimalRoundTrip(n: nat)
    ensures DecimalValue(DecimalString(n)) == n
    ensures DecimalString(n)[0] == '0' <==> n == 0
    decreases n
  {
    if n >= 10 {
      var s := DecimalString(n);
      DecimalRoundTrip(n / 10);
      assert s[..|s| - 1] == DecimalString(n / 10);
    }
  }
}
