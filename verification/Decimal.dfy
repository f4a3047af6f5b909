/** Decimal numerals, and the fixed-point load averages built from them. */
module Decimal {

  import opened Wrappers

  predicate IsDigit(c: char) { '0' <= c <= '9' }

  function DigitOf(c: char): (d: nat)
    requires IsDigit(c)
    ensures d < 10 && "0123456789"[d] == c
  {
    c as int - '0' as int
  }

  function DigitChar(d: nat): (c: char)
    requires d < 10
    ensures IsDigit(c) && DigitOf(c) == d && c == "0123456789"[d]
  {
    ('0' as int + d) as char
  }

  predicate Digits(s: string) { forall k :: 0 <= k < |s| ==> IsDigit(s[k]) }

  /** The number a run of digits stands for. */
  function Value(s: string): nat
    requires Digits(s)
  {
    if s == [] then 0 else Value(s[..|s| - 1]) * 10 + DigitOf(s[|s| - 1])
  }

  /** A number in decimal, without leading zeros. */
  function Dec(n: nat): (s: string)
    ensures s != [] && Digits(s)
  {
    if n < 10 then [DigitChar(n)] else Dec(n / 10) + [DigitChar(n % 10)]
  }

  lemma {:induction false} DecRoundTrip(n: nat)
    ensures Value(Dec(n)) == n
    ensures |Dec(n)| > 1 ==> Dec(n)[0] != '0'
  {
    if n < 10 {
      assert [DigitChar(n)][..0] == [];
    } else {
      DecRoundTrip(n / 10);
      assert Dec(n)[..|Dec(n)| - 1] == Dec(n / 10);
      if |Dec(n / 10)| == 1 {
        assert n / 10 < 10;
        assert Dec(n)[0] == DigitChar(n / 10);
      }
    }
  }

  lemma {:induction false} ValueMonotone(s: string, k: nat)
    requires Digits(s) && k <= |s|
    ensures Value(s[..k]) <= Value(s)
    decreases |s|
  {
    if k < |s| {
      assert s[..|s| - 1][..k] == s[..k];
      ValueMonotone(s[..|s| - 1], k);
    } else {
      assert s[..k] == s;
    }
  }

  // ---------------------------------------------------------------- load averages

  /** (2^32 - 1 - 99) / 100. */
  const MAX_WHOLE: nat := 42949671

  /** appendLoad: hundredths with exactly two fraction digits. */
  function Load(hundredths: nat): string {
    Dec(hundredths / 100) + ['.', DigitChar(hundredths / 10 % 10), DigitChar(hundredths % 10)]
  }

  /** An unsigned decimal: `whole` digits, and perhaps a point and one or two more. */
  ghost predicate IsDecimal(token: string, whole: nat) {
    && 0 < whole <= |token| && Digits(token[..whole])
    && (whole == |token| ||
        (token[whole] == '.' && 1 <= |token| - whole - 1 <= 2 && Digits(token[whole + 1..])))
  }

  /** The hundredths that such a decimal stands for. */
  ghost function Hundredths(token: string, whole: nat): nat
    requires IsDecimal(token, whole)
  {
    var rest := |token| - whole;
    Value(token[..whole]) * 100 +
      (if rest == 0 then 0 else if rest == 2 then Value(token[whole + 1..]) * 10 else Value(token[whole + 1..]))
  }

  ghost predicate Accepted(token: string, whole: nat) {
    IsDecimal(token, whole) && Value(token[..whole]) <= MAX_WHOLE
  }

  /** What the simplest tokens are: a run of digits is a decimal up to 42949671 and stands for
      a hundred times its value, and nothing is one that does not start with a digit. */
  lemma WholeDecimals(token: string, whole: nat)
    ensures IsDecimal(token, whole) ==> token != [] && IsDigit(token[0])
    ensures token != [] && Digits(token) ==>
              && (Accepted(token, whole) <==> whole == |token| && Value(token) <= 42949671)
              && Hundredths(token, |token|) == 100 * Value(token)
  {
    assert token[..|token|] == token;
    if IsDecimal(token, whole) {
      assert token[..whole][0] == token[0];
    }
    if whole < |token| && Digits(token) {
      assert token[whole] != '.';
    }
  }

  lemma ValueStep(s: string, k: nat)
    requires k < |s| && Digits(s[..k + 1])
    ensures Digits(s[..k]) && Value(s[..k + 1]) == Value(s[..k]) * 10 + DigitOf(s[k])
  {
    assert s[..k + 1][..k] == s[..k];
    assert s[..k + 1][k] == s[k];
    assert forall i :: 0 <= i < k ==> s[..k][i] == s[..k + 1][i];
  }

  /** The same for a digit whose turn comes next. */
  lemma NextDigit(s: string, k: nat)
    requires k < |s| && Digits(s[..k]) && IsDigit(s[k])
    ensures Digits(s[..k + 1]) && Value(s[..k + 1]) == Value(s[..k]) * 10 + DigitOf(s[k])
  {
    assert s[..k + 1] == s[..k] + [s[k]];
    ValueStep(s, k);
  }

  /** Only one split of a token can be a decimal: the one at the end of its leading digits. */
  lemma SplitIsUnique(token: string, i: nat, whole: nat)
    requires i <= |token| && Digits(token[..i]) && (i < |token| ==> !IsDigit(token[i]))
    requires IsDecimal(token, whole)
    ensures whole == i
  {
  }

  /** parseHundredths accepts exactly the decimals whose whole part leaves room, and gives
      their value, which fits 32 bits. */
  method ParseHundredths(token: string) returns (r: Option<nat>)
    ensures r.Some? ==> exists whole :: Accepted(token, whole) && r.value == Hundredths(token, whole)
    ensures r.Some? ==> r.value < 0x1_0000_0000
    ensures r.None? ==> forall whole :: !Accepted(token, whole)
  {
    if token == [] {
      return None;
    }
    var whole: nat := 0;
    var i := 0;
    while i < |token| && IsDigit(token[i])
      invariant 0 <= i <= |token| && Digits(token[..i])
      invariant whole == Value(token[..i]) <= MAX_WHOLE
    {
      var digit := DigitOf(token[i]);
      NextDigit(token, i);
      if whole > (MAX_WHOLE - digit) / 10 {
        TooLarge(token, i + 1);
        return None;
      }
      whole := whole * 10 + digit;
      i := i + 1;
    }
    forall w | IsDecimal(token, w)
      ensures w == i
    {
      SplitIsUnique(token, i, w);
    }
    if i == 0 {
      return None;
    }
    var fraction: nat := 0;
    if i < |token| {
      if token[i] != '.' {
        return None;
      }
      var part := ParseFraction(token[i + 1..]);
      if part.None? {
        return None;
      }
      fraction := part.value;
    }
    assert Accepted(token, i);
    r := Some(whole * 100 + fraction);
  }

  /** What comes after the point: one digit or two, and nothing else. */
  method ParseFraction(rest: string) returns (r: Option<nat>)
    ensures r.Some? <==> 1 <= |rest| <= 2 && Digits(rest)
    ensures r.Some? ==> r.value == Value(rest) * (if |rest| == 1 then 10 else 1) < 100
  {
    var fraction: nat := 0;
    var fractionDigits := 0;
    while fractionDigits < |rest| && IsDigit(rest[fractionDigits])
      invariant fractionDigits <= |rest| && fractionDigits <= 2
      invariant Digits(rest[..fractionDigits]) && fraction == Value(rest[..fractionDigits]) < Tens(fractionDigits)
    {
      if fractionDigits == 2 {
        return None;
      }
      NextDigit(rest, fractionDigits);
      fraction := fraction * 10 + DigitOf(rest[fractionDigits]);
      fractionDigits := fractionDigits + 1;
    }
    if fractionDigits == 0 || fractionDigits != |rest| {
      return None;
    }
    assert rest[..fractionDigits] == rest;
    r := Some(if fractionDigits == 1 then fraction * 10 else fraction);
  }

  function Tens(n: nat): nat { if n == 0 then 1 else if n == 1 then 10 else 100 }

  lemma TooLarge(token: string, k: nat)
    requires k <= |token| && Digits(token[..k]) && Value(token[..k]) > MAX_WHOLE
    ensures forall whole :: !Accepted(token, whole)
  {
    forall whole: nat | IsDecimal(token, whole)
      ensures Value(token[..whole]) > MAX_WHOLE
    {
      if whole >= k {
        assert token[..whole][..k] == token[..k];
        ValueMonotone(token[..whole], k);
      }
    }
  }

  lemma TwoDigits(a: char, b: char)
    requires IsDigit(a) && IsDigit(b)
    ensures Digits([a, b]) && Value([a, b]) == DigitOf(a) * 10 + DigitOf(b)
  {
    assert [a, b][..1] == [a] && [a][..0] == [];
    assert Value([a]) == DigitOf(a);
  }

  lemma HundredParts(h: nat)
    ensures h == h / 100 * 100 + h / 10 % 10 * 10 + h % 10
  {
    assert h / 10 / 10 == h / 100;
  }

  lemma LoadParts(h: nat)
    ensures var whole := |Dec(h / 100)|;
            IsDecimal(Load(h), whole) && Load(h)[..whole] == Dec(h / 100) && Hundredths(Load(h), whole) == h
  {
    var whole := |Dec(h / 100)|;
    var a, b := DigitChar(h / 10 % 10), DigitChar(h % 10);
    assert Load(h)[..whole] == Dec(h / 100);
    assert Load(h)[whole + 1..] == [a, b];
    DecRoundTrip(h / 100);
    TwoDigits(a, b);
    HundredParts(h);
  }

  /** A load is printed as its whole part, a point, and the two digits of its hundredths. */
  lemma LoadText(h: nat)
    ensures var t := Load(h);
            && |t| > 3 && Digits(t[..|t| - 3]) && t[|t| - 3] == '.' && Digits(t[|t| - 2..])
            && Value(t[..|t| - 3]) == h / 100 && Value(t[|t| - 2..]) == h % 100
  {
    var a, b := DigitChar(h / 10 % 10), DigitChar(h % 10);
    var t := Load(h);
    assert t[..|t| - 3] == Dec(h / 100) && t[|t| - 2..] == [a, b];
    DecRoundTrip(h / 100);
    TwoDigits(a, b);
    HundredParts(h);
  }

  /** Parsing inverts printing exactly up to 42949671.99. */
  lemma LoadRoundTrip(h: nat)
    ensures IsDecimal(Load(h), |Dec(h / 100)|) && Hundredths(Load(h), |Dec(h / 100)|) == h
    ensures (exists whole :: Accepted(Load(h), whole)) <==> h <= 4294967199
  {
    var whole := |Dec(h / 100)|;
    LoadParts(h);
    DecRoundTrip(h / 100);
    forall w: nat | IsDecimal(Load(h), w)
      ensures w == whole
    {
      SplitIsUnique(Load(h), whole, w);
    }
    assert Accepted(Load(h), whole) <==> h / 100 <= MAX_WHOLE;
  }
}
