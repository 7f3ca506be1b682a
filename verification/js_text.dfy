/**
 The two JavaScript string built-ins the screens rely on: `String.prototype.trim`
 (used on the typed phone number) and the conversion of a number to its decimal
 text inside a template literal (used by the skip-video countdown).
 */
module JsText {

  /** The characters `trim` removes: ECMAScript WhiteSpace and LineTerminator. */
  predicate IsWhitespace(c: char) {
    || c == '\t' || c == '\U{000B}' || c == '\U{000C}' || c == ' '
    || c == '\U{00A0}' || c == '\U{FEFF}' || c == '\U{1680}'
    || ('\U{2000}' <= c <= '\U{200A}')
    || c == '\U{202F}' || c == '\U{205F}' || c == '\U{3000}'
    || c == '\n' || c == '\r' || c == '\U{2028}' || c == '\U{2029}'
  }

  predicate AllWhitespace(s: string) {
    forall k :: 0 <= k < |s| ==> IsWhitespace(s[k])
  }

  /** The input with its leading whitespace removed: a suffix of `s`, cut just
      before the first non-whitespace character. */
  function TrimStart(s: string): (r: string)
    ensures |r| <= |s| && r == s[|s| - |r|..]
    ensures AllWhitespace(s[..|s| - |r|])
    ensures r == [] || !IsWhitespace(r[0])
  {
    if s == [] || !IsWhitespace(s[0]) then s
    else
      var r := TrimStart(s[1..]);
      assert s[1..][..|s| - 1 - |r|] == s[1..|s| - |r|];
      r
  }

  /** The input with its trailing whitespace removed: a prefix of `s`, cut just
      after the last non-whitespace character. */
  function TrimEnd(s: string): (r: string)
    ensures |r| <= |s| && r == s[..|r|]
    ensures AllWhitespace(s[|r|..])
    ensures r == [] || !IsWhitespace(r[|r| - 1])
  {
    if s == [] || !IsWhitespace(s[|s| - 1]) then s
    else
      var r := TrimEnd(s[..|s| - 1]);
      assert s[..|s| - 1][|r|..] == s[|r|..|s| - 1];
      r
  }

  /** `String.prototype.trim`: both ends at once. The result neither starts
      nor ends with whitespace, and it is empty exactly when the input is all
      whitespace. */
  function Trim(s: string): (r: string)
    ensures r == [] || (!IsWhitespace(r[0]) && !IsWhitespace(r[|r| - 1]))
    ensures r == [] <==> AllWhitespace(s)
  {
    var a := TrimStart(s);
    var r := TrimEnd(a);
    assert r != [] ==> r[0] == a[0];
    assert r == [] ==> AllWhitespace(s) by {
      if r == [] {
        assert a[|r|..] == a;
        assert s == s[..|s| - |a|] + a;
      }
    }
    r
  }

  /** `TrimStart` removes exactly a leading whitespace run that is followed by
      nothing or by a non-whitespace character. */
  lemma {:induction false} TrimStartDropsRun(ws: string, rest: string)
    requires AllWhitespace(ws)
    requires rest == [] || !IsWhitespace(rest[0])
    ensures TrimStart(ws + rest) == rest
  {
    if ws != [] {
      assert (ws + rest)[0] == ws[0];
      assert (ws + rest)[1..] == ws[1..] + rest;
      TrimStartDropsRun(ws[1..], rest);
    } else {
      assert ws + rest == rest;
    }
  }

  /** `TrimEnd` removes exactly a trailing whitespace run that follows nothing
      or a non-whitespace character. */
  lemma {:induction false} TrimEndDropsRun(rest: string, ws: string)
    requires AllWhitespace(ws)
    requires rest == [] || !IsWhitespace(rest[|rest| - 1])
    ensures TrimEnd(rest + ws) == rest
  {
    if ws != [] {
      var s := rest + ws;
      assert s[|s| - 1] == ws[|ws| - 1];
      assert s[..|s| - 1] == rest + ws[..|ws| - 1];
      TrimEndDropsRun(rest, ws[..|ws| - 1]);
    } else {
      assert rest + ws == rest;
    }
  }

  /** `Trim(s)` is the unique way to write `s` as whitespace, then a core that
      neither starts nor ends with whitespace, then whitespace. */
  lemma TrimCharacterised(s: string, pre: string, core: string, post: string)
    requires s == pre + core + post
    requires AllWhitespace(pre) && AllWhitespace(post)
    requires core == [] || (!IsWhitespace(core[0]) && !IsWhitespace(core[|core| - 1]))
    ensures Trim(s) == core
  {
    if core == [] {
      assert AllWhitespace(s) by {
        assert forall k :: 0 <= k < |pre| ==> s[k] == pre[k];
        assert forall k :: |pre| <= k < |s| ==> s[k] == post[k - |pre|];
      }
      TrimStartDropsRun(s, []);
      assert s + [] == s;
    } else {
      assert s == pre + (core + post);
      TrimStartDropsRun(pre, core + post);
      TrimEndDropsRun(core, post);
    }
  }

  /** `Trim` is idempotent: trimming an already trimmed string changes nothing. */
  lemma TrimIdempotent(s: string)
    ensures Trim(Trim(s)) == Trim(s)
  {
    TrimOfTrimmed(Trim(s));
  }

  /** A string that neither starts nor ends with whitespace is its own trim. */
  lemma TrimOfTrimmed(t: string)
    requires t == [] || (!IsWhitespace(t[0]) && !IsWhitespace(t[|t| - 1]))
    ensures Trim(t) == t
  {
    assert t == [] + t + [];
    TrimCharacterised(t, [], t, []);
  }

  predicate IsAsciiDigit(c: char) {
    '0' <= c <= '9'
  }

  function DigitChar(d: nat): (c: char)
    requires d < 10
    ensures IsAsciiDigit(c) && DigitValue(c) == d
  {
    ['0', '1', '2', '3', '4', '5', '6', '7', '8', '9'][d]
  }

  function DigitValue(c: char): nat
    requires IsAsciiDigit(c)
  {
    (c as int - '0' as int) as nat
  }

  predicate AllDigits(s: string) {
    forall k :: 0 <= k < |s| ==> IsAsciiDigit(s[k])
  }

  /** Value of a string of ASCII digits read in base 10 (leading zeros allowed). */
  function ParseDigits(s: string): nat
    requires AllDigits(s)
  {
    if s == [] then 0 else ParseDigits(s[..|s| - 1]) * 10 + DigitValue(s[|s| - 1])
  }

  /** The shortest decimal text of a natural number, as JavaScript prints
      numbers below 10^21 (larger ones switch to exponent notation). */
  function NatToDecimal(n: nat): (r: string)
    ensures |r| >= 1 && AllDigits(r)
    ensures ParseDigits(r) == n
    ensures r[0] == '0' <==> n == 0
    ensures n < 10 <==> |r| == 1
  {
    if n < 10 then [DigitChar(n)]
    else
      var r := NatToDecimal(n / 10) + [DigitChar(n % 10)];
      assert r[..|r| - 1] == NatToDecimal(n / 10);
      r
  }

  /** A number interpolated into a template literal: a minus sign before the
      digits of a negative number. */
  function IntToDecimal(i: int): (r: string)
    ensures |r| >= 1
    ensures i >= 0 ==> AllDigits(r) && ParseDigits(r) == i
    ensures i < 0 ==> r[0] == '-'
  {
    if i < 0 then "-" + NatToDecimal(-i) else NatToDecimal(i)
  }

  /** A leading zero does not change the value of a digit string. */
  lemma {:induction false} ParseLeadingZero(s: string)
    requires AllDigits(s)
    ensures AllDigits("0" + s) && ParseDigits("0" + s) == ParseDigits(s)
  {
    var z := "0" + s;
    assert AllDigits(z) by {
      forall k | 0 <= k < |z| ensures IsAsciiDigit(z[k]) {
        if k > 0 { assert z[k] == s[k - 1]; }
      }
    }
    if s != [] {
      var init := s[..|s| - 1];
      assert z[..|z| - 1] == "0" + init;
      ParseLeadingZero(init);
    }
  }
}
