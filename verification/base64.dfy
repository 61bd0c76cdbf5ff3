/** Padded Base64 with the standard alphabet (section 4 of RFC 4648), the text
    form in which the lottery stores its seed. `Decode` is the inverse used to
    state that the encoding loses nothing. */
module Base64 {

  import opened Results
  import opened Cosmos

  /** The character for a 6-bit value: A-Z, a-z, 0-9, '+', '/'. */
  function Sextet(v: int): (c: char)
    requires 0 <= v < 64
    ensures c != '='
  {
    if v < 26 then ('A' as int + v) as char
    else if v < 52 then ('a' as int + (v - 26)) as char
    else if v < 62 then ('0' as int + (v - 52)) as char
    else if v == 62 then '+'
    else '/'
  }

  /** The 6-bit value of an alphabet character; `None` for padding and others. */
  function SextetValue(c: char): (r: Option<nat>)
    ensures r.Some? ==> r.value < 64
    ensures c == '=' ==> r.None?
  {
    if 'A' <= c <= 'Z' then Some(c as int - 'A' as int)
    else if 'a' <= c <= 'z' then Some(c as int - 'a' as int + 26)
    else if '0' <= c <= '9' then Some(c as int - '0' as int + 52)
    else if c == '+' then Some(62)
    else if c == '/' then Some(63)
    else None
  }

  lemma SextetRoundTrip(v: int)
    requires 0 <= v < 64
    ensures SextetValue(Sextet(v)) == Some(v)
  {
  }

  predicate InAlphabet(c: char)
  {
    SextetValue(c).Some? || c == '='
  }

  /* The three 8-bit values rebuilt from four 6-bit values. */

  function Byte0(v0: nat, v1: nat): byte
    requires v0 < 64 && v1 < 64
  {
    v0 * 4 + v1 / 16
  }

  function Byte1(v1: nat, v2: nat): byte
    requires v1 < 64 && v2 < 64
  {
    (v1 % 16) * 16 + v2 / 4
  }

  function Byte2(v2: nat, v3: nat): byte
    requires v2 < 64 && v3 < 64
  {
    (v2 % 4) * 64 + v3
  }

  /* Encoding of a group of three bytes, and of a final group of two or one. */

  function EncodeGroup(b0: byte, b1: byte, b2: byte): (q: string)
    ensures |q| == 4
    ensures forall i :: 0 <= i < 4 ==> SextetValue(q[i]).Some?
  {
    var v0, v1, v2, v3 := b0 / 4, (b0 % 4) * 16 + b1 / 16, (b1 % 16) * 4 + b2 / 64, b2 % 64;
    SextetRoundTrip(v0);
    SextetRoundTrip(v1);
    SextetRoundTrip(v2);
    SextetRoundTrip(v3);
    [Sextet(v0), Sextet(v1), Sextet(v2), Sextet(v3)]
  }

  function EncodeFinalTwo(b0: byte, b1: byte): (q: string)
    ensures |q| == 4 && q[3] == '='
    ensures forall i :: 0 <= i < 3 ==> SextetValue(q[i]).Some?
  {
    var v0, v1, v2 := b0 / 4, (b0 % 4) * 16 + b1 / 16, (b1 % 16) * 4;
    SextetRoundTrip(v0);
    SextetRoundTrip(v1);
    SextetRoundTrip(v2);
    [Sextet(v0), Sextet(v1), Sextet(v2), '=']
  }

  function EncodeFinalOne(b0: byte): (q: string)
    ensures |q| == 4 && q[2] == '=' && q[3] == '='
    ensures forall i :: 0 <= i < 2 ==> SextetValue(q[i]).Some?
  {
    var v0, v1 := b0 / 4, (b0 % 4) * 16;
    SextetRoundTrip(v0);
    SextetRoundTrip(v1);
    [Sextet(v0), Sextet(v1), '=', '=']
  }

  /** Encodes every three bytes as four characters; a final group of one or two
      bytes is padded with "==" or "=". */
  function Encode(b: seq<byte>): (s: string)
    ensures |s| == 4 * ((|b| + 2) / 3)
    ensures forall i :: 0 <= i < |s| ==> InAlphabet(s[i])
    decreases |b|
  {
    if |b| == 0 then []
    else if |b| == 1 then EncodeFinalOne(b[0])
    else if |b| == 2 then EncodeFinalTwo(b[0], b[1])
    else
      var q, t := EncodeGroup(b[0], b[1], b[2]), Encode(b[3..]);
      assert (|b| + 2) / 3 == (|b[3..]| + 2) / 3 + 1;
      assert forall i :: 0 <= i < |t| ==> (q + t)[i + 4] == t[i];
      q + t
  }

  /* Decoding. */

  /** Four alphabet characters to three bytes. */
  function DecodeGroup(q: string): Option<seq<byte>>
    requires |q| == 4
  {
    var c0, c1, c2, c3 := SextetValue(q[0]), SextetValue(q[1]), SextetValue(q[2]), SextetValue(q[3]);
    if c0.None? || c1.None? || c2.None? || c3.None? then None
    else Some([Byte0(c0.value, c1.value), Byte1(c1.value, c2.value), Byte2(c2.value, c3.value)])
  }

  /** A padded final quad to one or two bytes; the bits the padding drops must be zero. */
  function DecodeFinal(q: string): Option<seq<byte>>
    requires |q| == 4 && q[3] == '='
  {
    var c0, c1 := SextetValue(q[0]), SextetValue(q[1]);
    if c0.None? || c1.None? then None
    else if q[2] == '=' then
      if c1.value % 16 == 0 then Some([Byte0(c0.value, c1.value)]) else None
    else
      var c2 := SextetValue(q[2]);
      if c2.None? || c2.value % 4 != 0 then None
      else Some([Byte0(c0.value, c1.value), Byte1(c1.value, c2.value)])
  }

  /** Decodes canonical padded Base64; `None` for any other text. */
  function Decode(s: string): Option<seq<byte>>
    decreases |s|
  {
    if |s| == 0 then Some([])
    else if |s| < 4 then None
    else if |s| == 4 && s[3] == '=' then DecodeFinal(s)
    else match DecodeGroup(s[..4])
      case None => None
      case Some(g) =>
        match Decode(s[4..])
        case None => None
        case Some(rest) => Some(g + rest)
  }

  /* Round trip. */

  lemma GroupRoundTrip(b0: byte, b1: byte, b2: byte)
    ensures DecodeGroup(EncodeGroup(b0, b1, b2)) == Some([b0, b1, b2])
  {
    var v0, v1, v2, v3 := b0 / 4, (b0 % 4) * 16 + b1 / 16, (b1 % 16) * 4 + b2 / 64, b2 % 64;
    SextetRoundTrip(v0);
    SextetRoundTrip(v1);
    SextetRoundTrip(v2);
    SextetRoundTrip(v3);
    assert Byte0(v0, v1) == b0;
    assert Byte1(v1, v2) == b1;
    assert Byte2(v2, v3) == b2;
  }

  lemma FinalTwoRoundTrip(b0: byte, b1: byte)
    ensures DecodeFinal(EncodeFinalTwo(b0, b1)) == Some([b0, b1])
  {
    var v0, v1, v2 := b0 / 4, (b0 % 4) * 16 + b1 / 16, (b1 % 16) * 4;
    SextetRoundTrip(v0);
    SextetRoundTrip(v1);
    SextetRoundTrip(v2);
    assert v2 % 4 == 0;
    assert Byte0(v0, v1) == b0;
    assert Byte1(v1, v2) == b1;
  }

  lemma FinalOneRoundTrip(b0: byte)
    ensures DecodeFinal(EncodeFinalOne(b0)) == Some([b0])
  {
    var v0, v1 := b0 / 4, (b0 % 4) * 16;
    SextetRoundTrip(v0);
    SextetRoundTrip(v1);
    assert v1 % 16 == 0;
    assert Byte0(v0, v1) == b0;
  }

  /** A leading unpadded quad decodes on its own, ahead of whatever follows. */
  lemma DecodeLeadingGroup(q: string, tail: string)
    requires |q| == 4 && q[3] != '='
    ensures Decode(q + tail) ==
      match DecodeGroup(q)
      case None => None
      case Some(g) =>
        match Decode(tail)
        case None => None
        case Some(rest) => Some(g + rest)
  {
    var s := q + tail;
    assert s[..4] == q && s[4..] == tail;
    assert s[3] == q[3];
  }

  /** Decoding an encoding gives back the bytes, so `Encode` is injective. */
  lemma {:induction false} DecodeEncode(b: seq<byte>)
    ensures Decode(Encode(b)) == Some(b)
    decreases |b|
  {
    if |b| == 1 {
      FinalOneRoundTrip(b[0]);
      assert [b[0]] == b;
    } else if |b| == 2 {
      FinalTwoRoundTrip(b[0], b[1]);
      assert [b[0], b[1]] == b;
    } else if |b| >= 3 {
      var q := EncodeGroup(b[0], b[1], b[2]);
      assert Encode(b) == q + Encode(b[3..]);
      assert SextetValue(q[3]).Some?;
      DecodeLeadingGroup(q, Encode(b[3..]));
      GroupRoundTrip(b[0], b[1], b[2]);
      DecodeEncode(b[3..]);
      assert [b[0], b[1], b[2]] + b[3..] == b;
    }
  }

  /** A 32-byte digest always encodes to 44 characters. */
  lemma DigestEncodingLength(d: seq<byte>)
    requires |d| == 32
    ensures |Encode(d)| == 44
  {
  }
}
