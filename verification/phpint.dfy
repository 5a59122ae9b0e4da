/** PHP's `(int)` cast on strings, as the client applies it to holding
    counts: leading whitespace is skipped, then an optional sign and the
    longest run of decimal digits are read; anything else reads as 0. */
module PhpInt {

  predicate IsDigit(c: char) {
    '0' <= c <= '9'
  }

  /** The whitespace PHP skips before a numeric string: space, tab, line
      feed, carriage return, vertical tab and form feed. */
  predicate IsSpace(c: char) {
    c == ' ' || c == '\t' || c == '\n' || c == '\r' || c == '\U{000B}' || c == '\U{000C}'
  }

  predicate AllDigits(s: string) {
    forall i :: 0 <= i < |s| ==> IsDigit(s[i])
  }

  function DigitValue(c: char): nat
    requires IsDigit(c)
  {
    (c as int - '0' as int) as nat
  }

  function DigitChar(d: nat): (c: char)
    requires d < 10
    ensures IsDigit(c) && DigitValue(c) == d
  {
    ('0' as int + d) as char
  }

  /** `s` without its leading whitespace. */
  function TrimLeft(s: string): (r: string)
    ensures |r| <= |s|
    ensures |r| > 0 ==> !IsSpace(r[0])
  {
    if |s| > 0 && IsSpace(s[0]) then TrimLeft(s[1..]) else s
  }

  /** What `TrimLeft` keeps is a suffix of its input. */
  lemma {:induction false} TrimLeftIsSuffix(s: string)
    ensures TrimLeft(s) == s[|s| - |TrimLeft(s)|..]
    decreases |s|
  {
    if |s| > 0 && IsSpace(s[0]) {
      TrimLeftIsSuffix(s[1..]);
    }
  }

  /** The longest prefix of `s` made of decimal digits. */
  function LeadingDigits(s: string): (r: string)
    ensures AllDigits(r) && |r| <= |s|
  {
    if s == [] || !IsDigit(s[0]) then [] else [s[0]] + LeadingDigits(s[1..])
  }

  /** What `LeadingDigits` keeps is a prefix of its input, and the next
      character, if any, is not a digit. */
  lemma {:induction false} LeadingDigitsIsPrefix(s: string)
    ensures LeadingDigits(s) == s[..|LeadingDigits(s)|]
    ensures |LeadingDigits(s)| < |s| ==> !IsDigit(s[|LeadingDigits(s)|])
    decreases |s|
  {
    if s != [] && IsDigit(s[0]) {
      LeadingDigitsIsPrefix(s[1..]);
    }
  }

  /** The value of a digit string, most significant digit first. */
  function DigitsValue(d: string): nat
    requires AllDigits(d)
  {
    if d == [] then 0 else DigitsValue(d[..|d| - 1]) * 10 + DigitValue(d[|d| - 1])
  }

  /** `(int) $s`. Overflow capping and the float forms PHP also accepts
      ("1.5", "1e3") are not modelled. */
  function ToInt(s: string): (r: int)
    ensures r != 0 ==> exists i :: 0 <= i < |s| && IsDigit(s[i])
  {
    var t := TrimLeft(s);
    TrimLeftIsSuffix(s);
    if |t| > 0 && (t[0] == '-' || t[0] == '+') then
      var d := LeadingDigits(t[1..]);
      LeadingDigitsIsPrefix(t[1..]);
      NonzeroHasDigit(d);
      var v: int := DigitsValue(d);
      if t[0] == '-' then -v else v
    else
      var d := LeadingDigits(t);
      LeadingDigitsIsPrefix(t);
      NonzeroHasDigit(d);
      DigitsValue(d)
  }

  lemma NonzeroHasDigit(d: string)
    requires AllDigits(d)
    ensures DigitsValue(d) != 0 ==> |d| > 0 && IsDigit(d[0])
  {
  }

  /** Canonical decimal spelling of a natural number. */
  function FromNat(n: nat): (s: string)
    ensures |s| > 0 && AllDigits(s)
  {
    if n < 10 then [DigitChar(n)] else FromNat(n / 10) + [DigitChar(n % 10)]
  }

  /** Canonical decimal spelling of an integer, with a leading '-' when
      negative. */
  function FromInt(n: int): string {
    if n < 0 then "-" + FromNat(-n) else FromNat(n)
  }

  lemma {:induction false} DigitsValueFromNat(n: nat)
    ensures DigitsValue(FromNat(n)) == n
  {
    if n >= 10 {
      DigitsValueFromNat(n / 10);
      var s := FromNat(n);
      assert s[..|s| - 1] == FromNat(n / 10);
    }
  }

  lemma {:induction false} LeadingDigitsOfDigits(d: string)
    requires AllDigits(d)
    ensures LeadingDigits(d) == d
    decreases |d|
  {
    if d != [] {
      LeadingDigitsOfDigits(d[1..]);
      assert [d[0]] + d[1..] == d;
    }
  }

  /** Round trip: the cast reads back every integer's decimal spelling. */
  lemma FromIntToInt(n: int)
    ensures ToInt(FromInt(n)) == n
  {
    if n < 0 {
      NegativeReadBack(-n);
    } else {
      NaturalReadBack(n);
    }
  }

  lemma NaturalReadBack(m: nat)
    ensures ToInt(FromNat(m)) == m
  {
    var digits := FromNat(m);
    DigitsValueFromNat(m);
    CastUnsigned("", digits, "");
    assert "" + (digits + "") == digits;
  }

  lemma NegativeReadBack(m: nat)
    requires m > 0
    ensures ToInt("-" + FromNat(m)) == -(m as int)
  {
    var digits := FromNat(m);
    var s := "-" + digits;
    assert s == "" + (['-'] + (digits + "")) by {
      assert digits + "" == digits;
    }
    CastSigned("", '-', digits, "");
    DigitsValueFromNat(m);
  }

  /** Text made only of the whitespace the cast skips. */
  predicate AllSpaces(w: string) {
    forall i :: 0 <= i < |w| ==> IsSpace(w[i])
  }

  /** Leading whitespace is dropped up to the first other character. */
  lemma {:induction false} TrimSpaces(w: string, s: string)
    requires AllSpaces(w)
    requires s == [] || !IsSpace(s[0])
    ensures TrimLeft(w + s) == s
    decreases |w|
  {
    if w == [] {
      assert w + s == s;
    } else {
      var ws := w + s;
      assert ws[0] == w[0] && IsSpace(ws[0]);
      assert TrimLeft(ws) == TrimLeft(ws[1..]);
      assert ws[1..] == w[1..] + s;
      TrimSpaces(w[1..], s);
    }
  }

  /** A sign after the blanks: the digits after it are read, negated for
      '-', and whatever follows the digits is ignored. With no digit after
      the sign the value is 0. */
  lemma CastSigned(w: string, sign: char, d: string, t: string)
    requires AllSpaces(w) && (sign == '-' || sign == '+')
    requires AllDigits(d)
    requires t == [] || !IsDigit(t[0])
    ensures ToInt(w + ([sign] + (d + t))) == if sign == '-' then -(DigitsValue(d) as int) else DigitsValue(d)
  {
    var s := [sign] + (d + t);
    TrimSpaces(w, s);
    TrailingTextIgnored(d, t);
    assert s[1..] == d + t;
  }

  /** Digits straight after the blanks are read as a non-negative number,
      and whatever follows them is ignored. */
  lemma CastUnsigned(w: string, d: string, t: string)
    requires AllSpaces(w)
    requires |d| > 0 && AllDigits(d)
    requires t == [] || !IsDigit(t[0])
    ensures ToInt(w + (d + t)) == DigitsValue(d)
  {
    var s := d + t;
    assert s[0] == d[0];
    TrimSpaces(w, s);
    TrailingTextIgnored(d, t);
  }

  /** `t` begins with a number the cast can read: a digit, or a sign
      followed by a digit. */
  predicate StartsWithNumber(t: string) {
    || (|t| > 0 && IsDigit(t[0]))
    || (|t| > 1 && (t[0] == '-' || t[0] == '+') && IsDigit(t[1]))
  }

  /** Text whose first non-blank characters do not form a number (no digit,
      and no sign followed by a digit) casts to 0. */
  lemma CastNoNumber(w: string, t: string)
    requires AllSpaces(w)
    requires t == [] || !IsSpace(t[0])
    requires !StartsWithNumber(t)
    ensures ToInt(w + t) == 0
  {
    TrimSpaces(w, t);
    if |t| > 0 && (t[0] == '-' || t[0] == '+') {
      assert LeadingDigits(t[1..]) == [];
    } else {
      assert LeadingDigits(t) == [];
    }
  }

  /** A missing attribute (read as "") and text with no leading number both
      cast to 0. */
  lemma CastExamples()
    ensures ToInt("") == 0
    ensures ToInt("abc") == 0
  {
    var t := "abc";
    assert !IsSpace(t[0]) && !IsDigit(t[0]) && t[0] != '-' && t[0] != '+';
    assert TrimLeft(t) == t;
    assert LeadingDigits(t) == [];
  }

  /** Leading blanks are skipped and text after the digits is ignored. */
  lemma CastLeadingNumber()
    ensures ToInt(" 12abc") == 12
  {
    var d := FromNat(12);
    assert d == "12";
    assert " 12abc" == " " + (d + "abc");
    CastUnsigned(" ", d, "abc");
    DigitsValueFromNat(12);
  }

  /** Text after a run of digits does not change the value read. */
  lemma {:induction false} TrailingTextIgnored(d: string, t: string)
    requires AllDigits(d)
    requires t == [] || !IsDigit(t[0])
    ensures LeadingDigits(d + t) == d
    decreases |d|
  {
    if d == [] {
      assert d + t == t;
    } else {
      TrailingTextIgnored(d[1..], t);
      assert (d + t)[1..] == d[1..] + t;
      assert [d[0]] + d[1..] == d;
    }
  }
}
