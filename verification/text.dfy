/** The two `str` operations the token parsers apply before matching:
    `trim` (strip Unicode White_Space at both ends) and `to_lowercase`. */
module Text {

  /** Unicode White_Space, the set `char::is_whitespace` tests. */
  predicate IsWhitespace(c: char)
  {
    ('\U{0009}' <= c <= '\U{000D}') || c == ' ' || c == '\U{0085}' || c == '\U{00A0}'
    || c == '\U{1680}' || ('\U{2000}' <= c <= '\U{200A}') || c == '\U{2028}' || c == '\U{2029}'
    || c == '\U{202F}' || c == '\U{205F}' || c == '\U{3000}'
  }

  predicate AllWhitespace(s: string)
  {
    forall i :: 0 <= i < |s| ==> IsWhitespace(s[i])
  }

  lemma AllWhitespaceCons(c: char, s: string)
    requires IsWhitespace(c) && AllWhitespace(s)
    ensures AllWhitespace([c] + s)
  {
    forall i | 0 < i < |[c] + s| ensures IsWhitespace(([c] + s)[i]) {
      assert ([c] + s)[i] == s[i - 1];
    }
  }

  lemma AllWhitespaceSnoc(s: string, c: char)
    requires AllWhitespace(s) && IsWhitespace(c)
    ensures AllWhitespace(s + [c])
  {
    forall i | 0 <= i < |s| ensures IsWhitespace((s + [c])[i]) {
      assert (s + [c])[i] == s[i];
    }
  }

  /** Drops leading whitespace: what is dropped is all whitespace and what is
      kept does not start with whitespace. */
  function TrimStart(s: string): (r: string)
    ensures |r| <= |s| && r == s[|s| - |r|..]
    ensures forall i :: 0 <= i < |s| - |r| ==> IsWhitespace(s[i])
    ensures r == [] || !IsWhitespace(r[0])
  {
    if |s| > 0 && IsWhitespace(s[0]) then
      var r := TrimStart(s[1..]);
      assert forall i :: 1 <= i < |s| - |r| ==> s[i] == s[1..][i - 1];
      r
    else
      s
  }

  /** Drops trailing whitespace, symmetrically to `TrimStart`. */
  function TrimEnd(s: string): (r: string)
    ensures |r| <= |s| && r == s[..|r|]
    ensures forall i :: |r| <= i < |s| ==> IsWhitespace(s[i])
    ensures r == [] || !IsWhitespace(r[|r| - 1])
  {
    if |s| > 0 && IsWhitespace(s[|s| - 1]) then
      var r := TrimEnd(s[..|s| - 1]);
      assert forall i :: |r| <= i < |s| - 1 ==> s[i] == s[..|s| - 1][i];
      r
    else
      s
  }

  /** `s` is `r` with a whitespace run on either side. */
  ghost predicate WhitespaceFramed(s: string, r: string)
  {
    exists pre, post :: s == pre + (r + post) && AllWhitespace(pre) && AllWhitespace(post)
  }

  /** `str::trim`: the text between the leading and trailing whitespace runs. */
  function Trim(s: string): (r: string)
    ensures |r| <= |s|
    ensures WhitespaceFramed(s, r)
    ensures r == [] || (!IsWhitespace(r[0]) && !IsWhitespace(r[|r| - 1]))
  {
    var a := TrimStart(s);
    var r := TrimEnd(a);
    Framed(s, a, r);
    r
  }

  /** A text that is a whitespace run followed by `a`, where `a` starts with
      no whitespace and is `r` followed by a whitespace run, is `r` framed by
      two whitespace runs; `r` neither starts nor ends with whitespace when it
      does not end with whitespace. */
  lemma Framed(s: string, a: string, r: string)
    requires |a| <= |s| && a == s[|s| - |a|..]
    requires forall i :: 0 <= i < |s| - |a| ==> IsWhitespace(s[i])
    requires a == [] || !IsWhitespace(a[0])
    requires |r| <= |a| && r == a[..|r|]
    requires forall i :: |r| <= i < |a| ==> IsWhitespace(a[i])
    requires r == [] || !IsWhitespace(r[|r| - 1])
    ensures |r| <= |s|
    ensures WhitespaceFramed(s, r)
    ensures r == [] || (!IsWhitespace(r[0]) && !IsWhitespace(r[|r| - 1]))
  {
    var pre, post := s[..|s| - |a|], a[|r|..];
    assert a == r + post;
    assert s == pre + a;
    assert AllWhitespace(pre) by {
      forall i | 0 <= i < |pre| ensures IsWhitespace(pre[i]) {
        assert pre[i] == s[i];
      }
    }
    assert AllWhitespace(post) by {
      forall i | 0 <= i < |post| ensures IsWhitespace(post[i]) {
        assert post[i] == a[|r| + i];
      }
    }
    if r != [] {
      assert a[0] == r[0];
    }
  }

  lemma {:induction false} TrimStartPadded(pre: string, t: string)
    requires AllWhitespace(pre)
    requires t == [] || !IsWhitespace(t[0])
    ensures TrimStart(pre + t) == t
    decreases |pre|
  {
    if |pre| > 0 {
      assert (pre + t)[1..] == pre[1..] + t;
      TrimStartPadded(pre[1..], t);
    } else {
      assert pre + t == t;
    }
  }

  lemma {:induction false} TrimEndPadded(t: string, post: string)
    requires AllWhitespace(post)
    requires t == [] || !IsWhitespace(t[|t| - 1])
    ensures TrimEnd(t + post) == t
    decreases |post|
  {
    if |post| > 0 {
      assert (t + post)[..|t + post| - 1] == t + post[..|post| - 1];
      TrimEndPadded(t, post[..|post| - 1]);
    } else {
      assert t + post == t;
    }
  }

  /** Surrounding `t` with whitespace on either side does not change its trim:
      the converse of `Trim`'s decomposition. */
  lemma TrimPadded(pre: string, t: string, post: string)
    requires AllWhitespace(pre) && AllWhitespace(post)
    requires t == [] || (!IsWhitespace(t[0]) && !IsWhitespace(t[|t| - 1]))
    ensures Trim(pre + t + post) == t
  {
    if t == [] {
      assert pre + t + post == pre + post;
      assert AllWhitespace(pre + post) by {
        forall i | 0 <= i < |pre + post| ensures IsWhitespace((pre + post)[i]) {
          if i >= |pre| {
            assert (pre + post)[i] == post[i - |pre|];
          }
        }
      }
      TrimStartPadded(pre + post, []);
      assert pre + post + [] == pre + post;
    } else {
      assert pre + t + post == pre + (t + post);
      assert (t + post)[0] == t[0];
      TrimStartPadded(pre, t + post);
      TrimEndPadded(t, post);
    }
  }

  /** Lower case of one character, for the characters whose lower case is an
      ASCII letter: 'A'-'Z' and the Kelvin sign U+212A. */
  function LowerChar(c: char): char
  {
    if 'A' <= c <= 'Z' then (c as int + 32) as char
    else if c == 'K' then 'k'
    else c
  }

  /** `str::to_lowercase`, character by character. */
  function ToLowercase(s: string): (r: string)
    ensures |r| == |s|
    ensures forall i :: 0 <= i < |s| ==> r[i] == LowerChar(s[i])
  {
    if |s| == 0 then [] else [LowerChar(s[0])] + ToLowercase(s[1..])
  }

  /** Lower-casing twice is lower-casing once. */
  lemma LowercaseIdempotent(s: string)
    ensures ToLowercase(ToLowercase(s)) == ToLowercase(s)
  {
  }

  /** Text without 'A'-'Z' and without the Kelvin sign is its own lower case. */
  lemma LowercaseFixed(s: string)
    requires forall i :: 0 <= i < |s| ==> !('A' <= s[i] <= 'Z') && s[i] != 'K'
    ensures ToLowercase(s) == s
  {
  }

  /** The token a parser matches: `s.trim().to_lowercase()`, that is,
      `ToLowercase(Trim(s))`. What it yields on padded and unpadded text is
      stated by `TrimPadded` and `LotteryState.NormalizeBare`. */
  function Normalize(s: string): (r: string)
    ensures |r| <= |s|
  {
    ToLowercase(Trim(s))
  }
}
