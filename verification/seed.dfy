/** The lottery's running seed: SHA-256 over a fixed byte layout, kept as the
    padded Base64 text of the digest. SHA-256 itself is a parameter. */
module Seed {

  import opened Results
  import opened Cosmos
  import opened Encoding
  import Base64

  type Digest = d: seq<byte> | |d| == 32 witness seq(32, _ => 0)

  /** A SHA-256 implementation: any total function to 32-byte digests. */
  type Sha256 = seq<byte> -> Digest

  /** The bytes an optional memo or phrase contributes: none when absent. */
  function OptionalBytes(s: Option<string>): (bs: seq<byte>)
    ensures s.None? ==> bs == []
    ensures s.Some? ==> bs == Utf8(s.value)
  {
    match s
    case None => []
    case Some(t) => Utf8(t)
  }

  /** The text form of a digest: 44 characters that decode back to it. */
  function Armor(d: Digest): (s: string)
    ensures |s| == 44
    ensures Base64.Decode(s) == Some(d)
  {
    Base64.DigestEncodingLength(d);
    Base64.DecodeEncode(d);
    Base64.Encode(d)
  }

  /* ---------------- init ---------------- */

  /** The bytes of `id` followed by the eight little-endian bytes of the height. */
  function InitPreimage(id: string, height: u64): (p: seq<byte>)
    ensures |p| == |Utf8(id)| + 8
    ensures p[..|Utf8(id)|] == Utf8(id)
    ensures LeValue(p[|Utf8(id)|..]) == height
  {
    var a, b := Utf8(id), Le64(height);
    assert (a + b)[..|a|] == a && (a + b)[|a|..] == b;
    a + b
  }

  /** The first seed of a lottery, from its contract address and creation height. */
  function Init(sha: Sha256, id: string, height: u64): (s: string)
    ensures |s| == 44
    ensures Base64.Decode(s) == Some(sha(InitPreimage(id, height)))
  {
    Armor(sha(InitPreimage(id, height)))
  }

  /** Distinct (id, height) pairs give distinct preimages. */
  lemma InitPreimageInjective(id1: string, h1: u64, id2: string, h2: u64)
    requires InitPreimage(id1, h1) == InitPreimage(id2, h2)
    ensures id1 == id2 && h1 == h2
  {
    var p := InitPreimage(id1, h1);
    assert |Utf8(id1)| == |Utf8(id2)|;
    assert Utf8(id1) == p[..|Utf8(id1)|] == Utf8(id2);
    Utf8RoundTrip(id1);
    Utf8RoundTrip(id2);
  }

  /* ---------------- update ---------------- */

  /** seed ‖ owner ‖ le8(ticket count) ‖ le8(height) ‖ memo, the memo only when present. */
  function UpdatePreimage(seed: string, owner: Addr, ticketCount: u64, height: u64, memo: Option<string>): (p: seq<byte>)
    ensures var k := |Utf8(seed)| + |Utf8(owner)|;
      && |p| == k + 16 + |OptionalBytes(memo)|
      && p[..|Utf8(seed)|] == Utf8(seed)
      && p[|Utf8(seed)|..k] == Utf8(owner)
      && LeValue(p[k..k + 8]) == ticketCount
      && LeValue(p[k + 8..k + 16]) == height
      && p[k + 16..] == OptionalBytes(memo)
  {
    var a, b, c, d, e := Utf8(seed), Utf8(owner), Le64(ticketCount), Le64(height), OptionalBytes(memo);
    var p := a + b + c + (d + e);
    Slots(a, b, c, d, e);
    p
  }

  /** Where each part of a five-part concatenation sits. */
  lemma Slots(a: seq<byte>, b: seq<byte>, c: seq<byte>, d: seq<byte>, e: seq<byte>)
    ensures var p, k := a + b + c + (d + e), |a| + |b|;
      && p[..|a|] == a && p[|a|..k] == b && p[k..k + |c|] == c
      && p[k + |c|..k + |c| + |d|] == d && p[k + |c| + |d|..] == e
  {
  }

  /** The seed after a ticket purchase. */
  function Update(sha: Sha256, seed: string, owner: Addr, ticketCount: u64, height: u64, memo: Option<string>): (s: string)
    ensures |s| == 44
    ensures Base64.Decode(s) == Some(sha(UpdatePreimage(seed, owner, ticketCount, height, memo)))
  {
    Armor(sha(UpdatePreimage(seed, owner, ticketCount, height, memo)))
  }

  /** An absent memo and an empty memo feed the same bytes, hence the same seed. */
  lemma EmptyMemoIsNoMemo(sha: Sha256, seed: string, owner: Addr, ticketCount: u64, height: u64)
    ensures UpdatePreimage(seed, owner, ticketCount, height, None)
         == UpdatePreimage(seed, owner, ticketCount, height, Some(""))
    ensures Update(sha, seed, owner, ticketCount, height, None)
         == Update(sha, seed, owner, ticketCount, height, Some(""))
  {
    var p, q := UpdatePreimage(seed, owner, ticketCount, height, None),
                UpdatePreimage(seed, owner, ticketCount, height, Some(""));
    var k := |Utf8(seed)| + |Utf8(owner)|;
    assert p == p[..k + 16] + p[k + 16..];
    assert q == q[..k + 16] + q[k + 16..];
    assert p[..k + 16] == q[..k + 16] by {
      LeSlotsAgree(p, q, |Utf8(seed)|, k, ticketCount, height);
    }
  }

  /** Two byte strings that agree on a prefix and hold the same two little-endian
      u64s right after it agree up to the end of the second u64. */
  lemma LeSlotsAgree(p: seq<byte>, q: seq<byte>, j: nat, k: nat, x: u64, y: u64)
    requires j <= k && k + 16 <= |p| && k + 16 <= |q|
    requires p[..j] == q[..j] && p[j..k] == q[j..k]
    requires LeValue(p[k..k + 8]) == x == LeValue(q[k..k + 8])
    requires LeValue(p[k + 8..k + 16]) == y == LeValue(q[k + 8..k + 16])
    ensures p[..k + 16] == q[..k + 16]
  {
    LeValueInjective(p[k..k + 8], q[k..k + 8]);
    LeValueInjective(p[k + 8..k + 16], q[k + 8..k + 16]);
    assert p[..k + 16] == p[..j] + p[j..k] + p[k..k + 8] + p[k + 8..k + 16];
    assert q[..k + 16] == q[..j] + q[j..k] + q[k..k + 8] + q[k + 8..k + 16];
  }

  /** Equal-length little-endian byte strings with the same value are equal. */
  lemma {:induction false} LeValueInjective(a: seq<byte>, b: seq<byte>)
    requires |a| == |b| && LeValue(a) == LeValue(b)
    ensures a == b
  {
    if |a| > 0 {
      assert a[0] == LeValue(a) % 256 == b[0];
      assert LeValue(a[1..]) == LeValue(b[1..]);
      LeValueInjective(a[1..], b[1..]);
      assert a == [a[0]] + a[1..] && b == [b[0]] + b[1..];
    }
  }

  /* ---------------- finalize ---------------- */

  /** seed ‖ sender ‖ le8(height) ‖ phrase, the phrase only when present. */
  function FinalizePreimage(seed: string, sender: Addr, height: u64, phrase: Option<string>): (p: seq<byte>)
    ensures var k := |Utf8(seed)| + |Utf8(sender)|;
      && |p| == k + 8 + |OptionalBytes(phrase)|
      && p[..|Utf8(seed)|] == Utf8(seed)
      && p[|Utf8(seed)|..k] == Utf8(sender)
      && LeValue(p[k..k + 8]) == height
      && p[k + 8..] == OptionalBytes(phrase)
  {
    var a, b, d, e := Utf8(seed), Utf8(sender), Le64(height), OptionalBytes(phrase);
    var p := a + b + (d + e);
    FourSlots(a, b, d, e);
    p
  }

  /** Where each part of a four-part concatenation sits. */
  lemma FourSlots(a: seq<byte>, b: seq<byte>, d: seq<byte>, e: seq<byte>)
    ensures var p, k := a + b + (d + e), |a| + |b|;
      && p[..|a|] == a && p[|a|..k] == b && p[k..k + |d|] == d && p[k + |d|..] == e
  {
  }

  /** The seed a draw closes the game with. */
  function Finalize(sha: Sha256, seed: string, sender: Addr, height: u64, phrase: Option<string>): (s: string)
    ensures |s| == 44
    ensures Base64.Decode(s) == Some(sha(FinalizePreimage(seed, sender, height, phrase)))
  {
    Armor(sha(FinalizePreimage(seed, sender, height, phrase)))
  }

  /** The finalize layout is the update layout with the ticket count taken out. */
  lemma FinalizeOmitsTicketCount(seed: string, who: Addr, ticketCount: u64, height: u64, phrase: Option<string>)
    ensures var k := |Utf8(seed)| + |Utf8(who)|;
      var f := FinalizePreimage(seed, who, height, phrase);
      UpdatePreimage(seed, who, ticketCount, height, phrase) == f[..k] + Le64(ticketCount) + f[k..]
  {
    var a, b, c, d, e := Utf8(seed), Utf8(who), Le64(ticketCount), Le64(height), OptionalBytes(phrase);
    var ab, de := a + b, d + e;
    var f := FinalizePreimage(seed, who, height, phrase);
    assert f == ab + de;
    assert f[..|ab|] == ab && f[|ab|..] == de;
  }
}
