/** The few JavaScript string and number conversions the journal relies on:
    `Number.prototype.toString()`, `String.prototype.padStart(2, '0')`,
    `Number(string)`, `parseInt(string)`, `String.prototype.split` with a
    one-character separator, `Array.prototype.join` and `startsWith`. */
module Text {
  import opened Wrappers

  predicate IsDigit(c: char) {
    '0' <= c <= '9'
  }

  function DigitValue(c: char): nat
    requires IsDigit(c)
  {
    (c as int) - ('0' as int)
  }

  function DigitChar(d: nat): (c: char)
    requires d < 10
    ensures IsDigit(c) && DigitValue(c) == d
  {
    (('0' as int) + d) as char
  }

  predicate AllDigits(s: string) {
    forall i :: 0 <= i < |s| ==> IsDigit(s[i])
  }

  /** Decimal value of a string of digits, most significant digit first; "" is 0. */
  function DigitsValue(s: string): nat
    requires AllDigits(s)
  {
    if s == [] then 0 else DigitsValue(s[..|s| - 1]) * 10 + DigitValue(s[|s| - 1])
  }

  /** `n.toString()` for a non-negative integer: its decimal digits, no leading zero. */
  function NatToString(n: nat): (s: string)
    ensures |s| >= 1 && AllDigits(s)
    ensures |s| == 1 || s[0] != '0'
    ensures DigitsValue(s) == n
  {
    if n < 10 then [DigitChar(n)]
    else
      var prefix := NatToString(n / 10);
      var s := prefix + [DigitChar(n % 10)];
      assert s[..|s| - 1] == prefix;
      s
  }

  /** `n.toString()` for any integer: a minus sign before the digits of a negative number. */
  function IntToString(n: int): (s: string)
    ensures |s| >= 1
    ensures n >= 0 ==> s == NatToString(n)
    ensures n < 0 ==> s == "-" + NatToString(-n)
  {
    if n < 0 then "-" + NatToString(-n) else NatToString(n)
  }

  /** `s.padStart(2, '0')`: zeros in front up to length two; longer strings unchanged. */
  function PadStart2(s: string): (r: string)
    ensures |s| >= 2 ==> r == s
    ensures |s| < 2 ==> |r| == 2 && r[2 - |s|..] == s
    ensures forall i :: 0 <= i < 2 - |s| ==> r[i] == '0'
  {
    if |s| >= 2 then s else seq(2 - |s|, _ => '0') + s
  }

  /** `Number(s)` on the strings the journal produces: "" is 0, a run of digits with an
      optional `-` or `+` sign is its value, anything else is NaN (`None`). */
  function JsNumber(s: string): (r: Option<int>)
    ensures AllDigits(s) ==> r == Some(DigitsValue(s))
    ensures |s| >= 2 && s[0] == '-' && AllDigits(s[1..]) ==> r == Some(-(DigitsValue(s[1..]) as int))
  {
    if AllDigits(s) then Some(DigitsValue(s))
    else if |s| >= 2 && (s[0] == '-' || s[0] == '+') && AllDigits(s[1..]) then
      if s[0] == '-' then Some(-(DigitsValue(s[1..]) as int)) else Some(DigitsValue(s[1..]))
    else None
  }

  /** Length of the longest run of digits at the front of `s`. */
  function DigitPrefixLength(s: string): (n: nat)
    ensures n <= |s| && AllDigits(s[..n])
    ensures n < |s| ==> !IsDigit(s[n])
  {
    if s == [] || !IsDigit(s[0]) then 0
    else
      var k := DigitPrefixLength(s[1..]);
      assert s[..k + 1] == [s[0]] + s[1..][..k];
      k + 1
  }

  /** `parseInt(s)` without leading white space: an optional sign, then the longest run of
      digits; NaN (`None`) when there is no digit. */
  function ParseInt(s: string): (r: Option<int>)
    ensures AllDigits(s) && s != [] ==> r == Some(DigitsValue(s))
    ensures s != [] && IsDigit(s[0]) ==> r == Some(DigitsValue(s[..DigitPrefixLength(s)]))
    ensures s == [] || (!IsDigit(s[0]) && s[0] != '-' && s[0] != '+') ==> r == None
  {
    if |s| >= 1 && (s[0] == '-' || s[0] == '+') then
      var body := s[1..];
      var n := DigitPrefixLength(body);
      if n == 0 then None
      else if s[0] == '-' then Some(-(DigitsValue(body[..n]) as int)) else Some(DigitsValue(body[..n]))
    else
      var n := DigitPrefixLength(s);
      assert AllDigits(s) ==> n == |s| && s[..n] == s;
      if n == 0 then None else Some(DigitsValue(s[..n]))
  }

  /** A leading zero does not change a decimal value. */
  lemma {:induction false} LeadingZero(s: string)
    requires AllDigits(s)
    ensures AllDigits("0" + s) && DigitsValue("0" + s) == DigitsValue(s)
  {
    if s != [] {
      var t := "0" + s;
      assert t[..|t| - 1] == "0" + s[..|s| - 1];
      LeadingZero(s[..|s| - 1]);
    }
  }

  /** A natural below 100 prints in at most two digits. */
  lemma ShortNat(n: nat)
    requires n < 100
    ensures |NatToString(n)| <= 2
  {
    if n >= 10 {
      assert NatToString(n) == NatToString(n / 10) + [DigitChar(n % 10)];
    }
  }

  /** Padding a printed natural to two digits and reading it back gives the natural. */
  lemma PaddedNatRoundTrip(n: nat)
    ensures AllDigits(PadStart2(NatToString(n)))
    ensures JsNumber(PadStart2(NatToString(n))) == Some(n)
  {
    var s := NatToString(n);
    if |s| < 2 {
      assert PadStart2(s) == "0" + s;
      LeadingZero(s);
    }
  }

  /** `Number(String(n))` is `n` for every integer. */
  lemma IntRoundTrip(n: int)
    ensures JsNumber(IntToString(n)) == Some(n)
  {
    if n < 0 {
      var s := IntToString(n);
      assert s[1..] == NatToString(-n);
      assert !AllDigits(s) by { assert !IsDigit(s[0]); }
    }
  }

  /** `s.split(sep)` for a one-character separator: the maximal pieces between separators. */
  function Split(s: string, sep: char): (parts: seq<string>)
    ensures |parts| >= 1
    decreases |s|
  {
    if s == [] then [""]
    else if s[0] == sep then [""] + Split(s[1..], sep)
    else
      var rest := Split(s[1..], sep);
      [[s[0]] + rest[0]] + rest[1..]
  }

  /** A string without the separator splits into itself alone. */
  lemma {:induction false} SplitWithoutSeparator(s: string, sep: char)
    requires sep !in s
    ensures Split(s, sep) == [s]
  {
    if s != [] {
      SplitWithoutSeparator(s[1..], sep);
      assert [s[0]] + s[1..] == s;
    }
  }

  /** Splitting `a + sep + b`, where `a` has no separator, yields `a` and then the pieces of `b`. */
  lemma {:induction false} SplitAtFirst(a: string, sep: char, b: string)
    requires sep !in a
    ensures Split(a + [sep] + b, sep) == [a] + Split(b, sep)
  {
    if a == [] {
      assert a + [sep] + b == [sep] + b;
      assert ([sep] + b)[1..] == b;
    } else {
      var s := a + [sep] + b;
      assert s[1..] == a[1..] + [sep] + b;
      SplitAtFirst(a[1..], sep, b);
      assert [a[0]] + a[1..] == a;
    }
  }

  /** Two digit strings joined by a non-digit separator split back into the two. */
  lemma SplitDigitPair(a: string, sep: char, b: string)
    requires AllDigits(a) && AllDigits(b) && !IsDigit(sep)
    ensures Split(a + [sep] + b, sep) == [a, b]
  {
    assert sep !in a && sep !in b by {
      assert forall i :: 0 <= i < |a| ==> IsDigit(a[i]);
      assert forall i :: 0 <= i < |b| ==> IsDigit(b[i]);
    }
    SplitAtFirst(a, sep, b);
    SplitWithoutSeparator(b, sep);
  }

  /** `parts.join(sep)` */
  function Join(parts: seq<string>, sep: string): string {
    if parts == [] then ""
    else if |parts| == 1 then parts[0]
    else parts[0] + sep + Join(parts[1..], sep)
  }

  /** `s || fallback` on strings: the empty string is the only falsy string. */
  function OrElse(s: string, fallback: string): (r: string)
    ensures r == s || r == fallback
    ensures r == "" ==> s == "" && fallback == ""
  {
    if s != "" then s else fallback
  }

  /** `s.startsWith(prefix)` */
  predicate StartsWith(s: string, prefix: string) {
    |prefix| <= |s| && s[..|prefix|] == prefix
  }
}
