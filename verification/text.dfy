/** The few Python string primitives the track logic relies on:
    `str.isspace`, `str.lower`, `str.strip`, `str.find`, `str(int)` and
    `str.split('?')[0]`, stated over `seq<char>`. */
module Text {

  /** Exactly the characters for which Python's `str.isspace` is true. */
  predicate IsSpace(c: char) {
    || c == ' '
    || '\t' <= c <= '\r'                  // tab, line feed, vertical tab, form feed, return
    || '\U{1C}' <= c <= '\U{1F}'          // the four information separators
    || c == '\U{85}' || c == '\U{A0}'
    || c == '\U{1680}'
    || '\U{2000}' <= c <= '\U{200A}'      // the typographic spaces
    || c == '\U{2028}' || c == '\U{2029}' || c == '\U{202F}' || c == '\U{205F}' || c == '\U{3000}'
  }

  predicate IsUpper(c: char) {
    'A' <= c <= 'Z'
  }

  /** Lower-casing of one character (ASCII letters only). */
  function LowerChar(c: char): (d: char)
    ensures !IsUpper(d)
    ensures IsSpace(d) <==> IsSpace(c)
    ensures !IsUpper(c) ==> d == c
    ensures IsUpper(c) ==> d == "abcdefghijklmnopqrstuvwxyz"[c as int - 'A' as int]
  {
    if IsUpper(c) then (c as int + 32) as char else c
  }

  /** `s.lower()`, character by character. */
  function Lower(s: string): (r: string)
    ensures |r| == |s|
    ensures forall i :: 0 <= i < |r| ==> r[i] == LowerChar(s[i])
  {
    seq(|s|, i requires 0 <= i < |s| => LowerChar(s[i]))
  }

  /** `s.lstrip()`: drops the leading whitespace and keeps a suffix of `s`. */
  function TrimStart(s: string): (r: string)
    ensures |r| <= |s| && r == s[|s| - |r|..]
    ensures forall i :: 0 <= i < |s| - |r| ==> IsSpace(s[i])
    ensures r == [] || !IsSpace(r[0])
  {
    if |s| > 0 && IsSpace(s[0]) then TrimStart(s[1..]) else s
  }

  /** `s.rstrip()`: drops the trailing whitespace and keeps a prefix of `s`. */
  function TrimEnd(s: string): (r: string)
    ensures |r| <= |s| && r == s[..|r|]
    ensures forall i :: |r| <= i < |s| ==> IsSpace(s[i])
    ensures r == [] || !IsSpace(r[|r| - 1])
  {
    if |s| > 0 && IsSpace(s[|s| - 1]) then TrimEnd(s[..|s| - 1]) else s
  }

  /** `s.strip()`: the slice of `s` that neither starts nor ends with
      whitespace and leaves only whitespace around it; it starts where the
      leading whitespace ends. */
  function Strip(s: string): (r: string)
    ensures r == [] || (!IsSpace(r[0]) && !IsSpace(r[|r| - 1]))
    ensures |s| - |TrimStart(s)| + |r| <= |s|
    ensures r == s[|s| - |TrimStart(s)|..][..|r|]
    ensures forall i :: 0 <= i < |s| - |TrimStart(s)| ==> IsSpace(s[i])
    ensures forall i :: |s| - |TrimStart(s)| + |r| <= i < |s| ==> IsSpace(s[i])
  {
    TrimEnd(TrimStart(s))
  }

  /** Leading whitespace in front of a text that does not start with
      whitespace is exactly what `lstrip` removes. */
  lemma {:induction false} TrimStartPadding(pre: string, x: string)
    requires forall i :: 0 <= i < |pre| ==> IsSpace(pre[i])
    requires x == [] || !IsSpace(x[0])
    ensures TrimStart(pre + x) == x
    decreases |pre|
  {
    if |pre| > 0 {
      assert (pre + x)[1..] == pre[1..] + x;
      TrimStartPadding(pre[1..], x);
    } else {
      assert pre + x == x;
    }
  }

  /** Trailing whitespace after a text that does not end with whitespace is
      exactly what `rstrip` removes. */
  lemma {:induction false} TrimEndPadding(x: string, post: string)
    requires forall i :: 0 <= i < |post| ==> IsSpace(post[i])
    requires x == [] || !IsSpace(x[|x| - 1])
    ensures TrimEnd(x + post) == x
    decreases |post|
  {
    if |post| > 0 {
      assert (x + post)[..|x + post| - 1] == x + post[..|post| - 1];
      TrimEndPadding(x, post[..|post| - 1]);
    } else {
      assert x + post == x;
    }
  }

  /** Whitespace around a text that neither starts nor ends with
      whitespace is exactly what `strip` removes. */
  lemma StripPadding(pre: string, x: string, post: string)
    requires forall i :: 0 <= i < |pre| ==> IsSpace(pre[i])
    requires forall i :: 0 <= i < |post| ==> IsSpace(post[i])
    requires |x| > 0 && !IsSpace(x[0]) && !IsSpace(x[|x| - 1])
    ensures Strip(pre + x + post) == x
  {
    assert pre + x + post == pre + (x + post);
    TrimStartPadding(pre, x + post);
    TrimEndPadding(x, post);
  }

  /** Lower-casing leaves whitespace alone and keeps a text's first and
      last characters non-whitespace. */
  lemma LowerKeepsPadding(pre: string, w: string, post: string)
    requires forall i :: 0 <= i < |pre| ==> IsSpace(pre[i])
    requires forall i :: 0 <= i < |post| ==> IsSpace(post[i])
    ensures Lower(pre + w + post) == pre + Lower(w) + post
    ensures |w| > 0 && !IsSpace(w[0]) ==> !IsSpace(Lower(w)[0])
    ensures |w| > 0 && !IsSpace(w[|w| - 1]) ==> !IsSpace(Lower(w)[|w| - 1])
  {
    var l := Lower(pre + w + post);
    var r := pre + Lower(w) + post;
    assert |l| == |r|;
    forall i | 0 <= i < |l|
      ensures l[i] == r[i]
    {
      if i < |pre| {
        assert (pre + w + post)[i] == pre[i];
      } else if i < |pre| + |w| {
        assert (pre + w + post)[i] == w[i - |pre|];
      } else {
        assert (pre + w + post)[i] == post[i - |pre| - |w|];
      }
    }
  }

  /** True when `needle` occurs in `hay` starting at index `k`. */
  predicate OccursAt(hay: string, needle: string, k: int) {
    0 <= k && k + |needle| <= |hay| && hay[k..k + |needle|] == needle
  }

  /** `hay.find(needle, start)`, for a start inside the string. */
  function FindFrom(hay: string, needle: string, start: nat): (r: int)
    requires start <= |hay|
    ensures r == -1 || (start <= r && OccursAt(hay, needle, r))
    ensures r == -1 ==> forall k :: start <= k ==> !OccursAt(hay, needle, k)
    ensures r != -1 ==> forall k :: start <= k < r ==> !OccursAt(hay, needle, k)
    decreases |hay| - start
  {
    if OccursAt(hay, needle, start) then start
    else if start == |hay| then -1
    else FindFrom(hay, needle, start + 1)
  }

  /** `hay.find(needle)`: the first index where `needle` occurs, or -1. */
  function Find(hay: string, needle: string): (r: int)
    ensures r == -1 || OccursAt(hay, needle, r)
    ensures r == -1 <==> forall k :: !OccursAt(hay, needle, k)
    ensures forall k :: 0 <= k < r ==> !OccursAt(hay, needle, k)
  {
    FindFrom(hay, needle, 0)
  }

  /** `href.split('?')[0]`: the href up to its first `'?'`. */
  function StripQuery(href: string): (r: string)
    ensures |r| <= |href| && r == href[..|r|]
    ensures '?' !in r
    ensures |r| < |href| ==> href[|r|] == '?'
    ensures '?' !in href ==> r == href
  {
    var i := Find(href, "?");
    if i == -1 then
      assert forall k :: 0 <= k < |href| ==> !OccursAt(href, "?", k) && href[k..k + 1] == [href[k]];
      href
    else
      assert forall k :: 0 <= k < i ==> !OccursAt(href, "?", k) && href[k..k + 1] == [href[k]];
      assert href[i..i + 1] == [href[i]];
      href[..i]
  }

  /** Stripping the query string twice is the same as once. */
  lemma StripQueryIdempotent(href: string)
    ensures StripQuery(StripQuery(href)) == StripQuery(href)
  {
  }

  predicate IsDigit(c: char) {
    '0' <= c <= '9'
  }

  function DigitChar(d: nat): (c: char)
    requires d < 10
    ensures IsDigit(c) && c as int - '0' as int == d
  {
    (d + '0' as int) as char
  }

  /** The decimal digits Python's `str` gives for a non-negative int. */
  function NatToString(n: nat): (r: string)
    ensures |r| >= 1
    ensures forall i :: 0 <= i < |r| ==> IsDigit(r[i])
    ensures r[0] == '0' ==> n == 0 && r == "0"
    decreases n
  {
    if n < 10 then [DigitChar(n)] else NatToString(n / 10) + [DigitChar(n % 10)]
  }

  /** `str(n)` for any int: a minus sign before the digits of a negative. */
  function IntToString(n: int): (r: string)
    ensures |r| >= 1
    ensures n < 0 <==> r[0] == '-'
    ensures r[0] == '-' || IsDigit(r[0])
    ensures forall i :: 1 <= i < |r| ==> IsDigit(r[i])
    ensures r[0] == '0' ==> r == "0"
    ensures r[0] == '-' ==> |r| >= 2 && r[1] != '0'
  {
    if n < 0 then "-" + NatToString(-n) else NatToString(n)
  }

  function DigitValue(c: char): nat
    requires IsDigit(c)
  {
    c as int - '0' as int
  }

  /** Reads a string of decimal digits back as a number (reference inverse). */
  function ParseNat(s: string): nat
    requires forall i :: 0 <= i < |s| ==> IsDigit(s[i])
  {
    if |s| == 0 then 0
    else ParseNat(s[..|s| - 1]) * 10 + DigitValue(s[|s| - 1])
  }

  function ParseInt(s: string): int
    requires |s| >= 1
    requires forall i :: (s[0] == '-' && 1 <= i < |s|) || (s[0] != '-' && 0 <= i < |s|) ==> IsDigit(s[i])
  {
    if s[0] == '-' then -(ParseNat(s[1..]) as int) else ParseNat(s)
  }

  lemma {:induction false} NatToStringRoundTrip(n: nat)
    ensures ParseNat(NatToString(n)) == n
    decreases n
  {
    if n >= 10 {
      var s := NatToString(n);
      NatToStringRoundTrip(n / 10);
      assert s[..|s| - 1] == NatToString(n / 10);
    }
  }

  /** `str` loses nothing: the text of an int reads back as that int, so two
      different ints never render the same. */
  lemma IntToStringRoundTrip(n: int)
    ensures ParseInt(IntToString(n)) == n
  {
    if n < 0 {
      NatToStringRoundTrip(-n);
      assert IntToString(n)[1..] == NatToString(-n);
    } else {
      NatToStringRoundTrip(n);
    }
  }

  lemma IntToStringInjective(a: int, b: int)
    requires IntToString(a) == IntToString(b)
    ensures a == b
  {
    IntToStringRoundTrip(a);
    IntToStringRoundTrip(b);
  }
}
