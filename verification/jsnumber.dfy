/**
 The JavaScript number conversions the client uses: `parseInt(s)` with no
 radix, `x.toFixed(2)` and `Math.round(x)`. Amounts that came from the
 server are exact hundredths (the server rounds to two places), so they
 are held as integer hundredths here.
 */
module JsNumber {
  import opened JsText

  /** What `parseInt` yields: `NaN`, or an integer. Negative zero is
      folded into `Int(0)`: both are falsy. */
  datatype Parsed = NaN | Int(value: int)

  /** The truthiness of a `parseInt` result, as `||` tests it: `NaN`, `0`
      and `-0` are falsy, every other integer is truthy. */
  predicate Truthy(p: Parsed) {
    p.Int? && p.value != 0
  }

  /** The value of a digit character in the given radix (10 or 16), if it is one. */
  function DigitValue(c: char, radix: nat): (d: int)
    ensures d == -1 || 0 <= d < radix
  {
    if '0' <= c <= '9' && (c as int - '0' as int) < radix then c as int - '0' as int
    else if radix == 16 && 'a' <= c <= 'f' then c as int - 'a' as int + 10
    else if radix == 16 && 'A' <= c <= 'F' then c as int - 'A' as int + 10
    else -1
  }

  predicate IsDigit(c: char, radix: nat) {
    DigitValue(c, radix) >= 0
  }

  /** The length of the longest prefix of `s` made of radix digits. */
  function DigitRun(s: string, radix: nat): (n: nat)
    ensures n <= |s|
    ensures forall k :: 0 <= k < n ==> IsDigit(s[k], radix)
    ensures n < |s| ==> !IsDigit(s[n], radix)
  {
    if |s| == 0 || !IsDigit(s[0], radix) then 0 else 1 + DigitRun(s[1..], radix)
  }

  /** The number a string of radix digits denotes, most significant first. */
  function DigitsValue(s: string, radix: nat): (v: nat)
    requires forall k :: 0 <= k < |s| ==> IsDigit(s[k], radix)
  {
    if |s| == 0 then 0
    else
      var prev := DigitsValue(s[..|s| - 1], radix);
      var d := DigitValue(s[|s| - 1], radix);
      assert d >= 0 by { assert IsDigit(s[|s| - 1], radix); }
      assert prev * radix >= 0 by { NonNegativeProduct(prev, radix); }
      prev * radix + d
  }

  lemma NonNegativeProduct(a: nat, b: nat)
    ensures a * b >= 0
  {
  }

  /** The longest digit prefix of `s` read in `radix`, or `NaN` when `s`
      does not start with a digit. */
  function ReadDigits(s: string, radix: nat): (r: Parsed)
    ensures r.NaN? <==> |s| == 0 || !IsDigit(s[0], radix)
    ensures r.Int? ==> r.value >= 0
  {
    var n := DigitRun(s, radix);
    if n == 0 then NaN else Int(DigitsValue(s[..n], radix))
  }

  /** The unsigned part of `parseInt`: hexadecimal after a `0x` or `0X`
      prefix, decimal otherwise. */
  function ReadMagnitude(u: string): (r: Parsed)
    ensures r.Int? ==> r.value >= 0 && |u| > 0 && IsDigit(u[0], 10)
  {
    if |u| >= 2 && u[0] == '0' && (u[1] == 'x' || u[1] == 'X') then ReadDigits(u[2..], 16)
    else ReadDigits(u, 10)
  }

  function Negate(p: Parsed): Parsed {
    match p
    case NaN => NaN
    case Int(v) => Int(-v)
  }

  /** `parseInt(s)` with the radix left out: skip leading whitespace, take
      one optional sign, then read the magnitude up to the first character
      that is not a digit; the sign applies to hexadecimal too. */
  function ParseInt(s: string): (r: Parsed)
    ensures |TrimStart(s)| == 0 ==> r == NaN
    ensures r.Int? ==> var t := TrimStart(s); var u := Unsigned(t);
                       |u| > 0 && IsDigit(u[0], 10) && (r.value < 0 ==> t[0] == '-')
  {
    var t := TrimStart(s);
    if |t| > 0 && t[0] == '-' then Negate(ReadMagnitude(t[1..]))
    else ReadMagnitude(Unsigned(t))
  }

  /** `t` without its sign character, if it has one. */
  function Unsigned(t: string): (u: string)
    ensures |u| <= |t|
  {
    if |t| > 0 && (t[0] == '-' || t[0] == '+') then t[1..] else t
  }

  /** A canonical decimal numeral followed by something that is not a
      digit (nor an `x` right after a lone `0`) reads as its value. */
  lemma {:induction false} ReadMagnitudeOfNumeral(d: string, tail: string)
    requires |d| > 0 && forall k :: 0 <= k < |d| ==> IsDigit(d[k], 10)
    requires |d| > 1 ==> d[0] != '0'
    requires |tail| > 0 ==> !IsDigit(tail[0], 10) && tail[0] != 'x' && tail[0] != 'X'
    ensures ReadMagnitude(d + tail) == Int(DigitsValue(d, 10))
  {
    var u := d + tail;
    assert u[0] == d[0];
    if |d| == 1 && |tail| > 0 {
      assert u[1] == tail[0];
    } else if |d| > 1 {
      assert u[0] != '0';
    }
    if |tail| > 0 {
      DigitRunOfPrefix(d, tail, 10);
    } else {
      assert u == d;
      DigitRunOfDigits(d, 10);
    }
    assert u[..|d|] == d;
  }

  /** The decimal digit character for `d`. */
  function DigitChar(d: nat): (c: char)
    requires d < 10
    ensures DigitValue(c, 10) == d
  {
    ('0' as int + d) as char
  }

  /** `String(n)` for a non-negative integer: its decimal digits with no
      leading zero. */
  function Decimal(n: nat): (r: string)
    ensures |r| > 0
    ensures forall k :: 0 <= k < |r| ==> IsDigit(r[k], 10)
    ensures |r| > 1 ==> r[0] != '0'
    ensures n == DigitsValue(r, 10)
  {
    if n < 10 then [DigitChar(n)]
    else
      var r := Decimal(n / 10) + [DigitChar(n % 10)];
      assert r[..|r| - 1] == Decimal(n / 10);
      r
  }

  /** `parseInt` reads back what `String` wrote: decimal formatting and
      parsing are inverse on every integer. */
  lemma {:induction false} ParseIntOfDecimal(n: int)
    ensures ParseInt(if n < 0 then "-" + Decimal(-n) else Decimal(n)) == Int(n)
  {
    var m: nat := if n < 0 then -n else n;
    var d := Decimal(m);
    ReadDecimal(m);
    if n < 0 {
      ParseIntOfSigned(d);
    } else {
      ParseIntOfUnsigned(d);
    }
  }

  lemma ParseIntOfNatural(n: nat)
    ensures ParseInt(Decimal(n)) == Int(n)
  {
    ReadDecimal(n);
    ParseIntOfUnsigned(Decimal(n));
  }

  lemma ReadDecimal(n: nat)
    ensures ReadMagnitude(Decimal(n)) == Int(n)
  {
    var d := Decimal(n);
    ReadMagnitudeOfNumeral(d, "");
    assert d + "" == d;
  }

  lemma {:induction false} DigitRunOfDigits(s: string, radix: nat)
    requires forall k :: 0 <= k < |s| ==> IsDigit(s[k], radix)
    ensures DigitRun(s, radix) == |s|
    decreases |s|
  {
    if |s| > 0 {
      DigitRunOfDigits(s[1..], radix);
    }
  }

  /** `x.toFixed(2)` for `x` held as the integer hundredths `h`: a minus
      sign only when `x < 0`, the integer part in decimal, a point and
      exactly two fraction digits. Zero is written `0.00`, without a sign. */
  function Fixed2(h: int): (r: string)
    ensures |r| >= 4 && r[|r| - 3] == '.'
    ensures (r[0] == '-') <==> h < 0
    ensures DigitValue(r[|r| - 2], 10) == (if h < 0 then -h else h) % 100 / 10
    ensures DigitValue(r[|r| - 1], 10) == (if h < 0 then -h else h) % 10
  {
    var m := if h < 0 then -h else h;
    (if h < 0 then "-" else "") + Decimal(m / 100) + "." + [DigitChar(m % 100 / 10), DigitChar(m % 10)]
  }

  /** `parseInt` of a `toFixed(2)` text gives back the integer part of the
      amount, truncated toward zero: the fraction digits of `Fixed2` and
      this integer part together determine the amount. */
  lemma {:induction false} ParseIntOfFixed2(h: int)
    ensures ParseInt(Fixed2(h)) == Int(if h < 0 then -((-h) / 100) else h / 100)
  {
    if h < 0 {
      ParseIntOfNegativeFixed(h);
    } else {
      ParseIntOfNaturalFixed(h);
    }
  }

  lemma ParseIntOfNaturalFixed(h: int)
    requires h >= 0
    ensures ParseInt(Fixed2(h)) == Int(h / 100)
  {
    ReadFixedDigits(h);
    FixedIsSignedDigits(h);
    assert Fixed2(h) == FixedDigits(h);
    ParseIntOfUnsigned(FixedDigits(h));
  }

  lemma ParseIntOfNegativeFixed(h: int)
    requires h < 0
    ensures ParseInt(Fixed2(h)) == Int(-((-h) / 100))
  {
    var m: nat := -h;
    ReadFixedDigits(m);
    FixedIsSignedDigits(h);
    var s := "-" + FixedDigits(m);
    assert Fixed2(h) == s;
    ParseIntOfSigned(FixedDigits(m));
    assert ParseInt(s) == Negate(Int(m / 100)) == Int(-(m / 100));
  }

  /** `toFixed(2)` is a minus sign for a negative amount followed by the
      digits of its magnitude. */
  lemma FixedIsSignedDigits(h: int)
    ensures Fixed2(h) == (if h < 0 then "-" else "") + FixedDigits(if h < 0 then -h else h)
  {
  }

  /** `toFixed(2)` of a non-negative amount: its digits, a point and two more. */
  function FixedDigits(m: nat): (u: string)
    ensures |u| >= 4 && IsDigit(u[0], 10) && u[|u| - 3] == '.'
  {
    var d := Decimal(m / 100);
    var u := d + "." + [DigitChar(m % 100 / 10), DigitChar(m % 10)];
    assert u[0] == d[0];
    u
  }

  lemma ReadFixedDigits(m: nat)
    ensures ReadMagnitude(FixedDigits(m)) == Int(m / 100)
  {
    var d := Decimal(m / 100);
    var tail := "." + [DigitChar(m % 100 / 10), DigitChar(m % 10)];
    assert FixedDigits(m) == d + tail;
    ReadMagnitudeOfNumeral(d, tail);
  }

  /** A decimal digit is neither whitespace nor a sign. */
  lemma DigitIsPlain(c: char)
    requires IsDigit(c, 10)
    ensures !IsWhitespace(c) && c != '-' && c != '+'
  {
    assert '0' <= c <= '9';
  }

  /** Zero is written without a sign. */
  lemma FixedOfZero()
    ensures Fixed2(0) == "0.00"
  {
    assert Decimal(0) == "0";
  }

  /** `parseInt` of text starting with a digit reads its magnitude. */
  lemma ParseIntOfUnsigned(u: string)
    requires |u| > 0 && IsDigit(u[0], 10)
    ensures ParseInt(u) == ReadMagnitude(u)
  {
    DigitIsPlain(u[0]);
    TrimStartUnpadded(u);
    assert Unsigned(u) == u;
  }

  /** `parseInt` of a minus sign before text starting with a digit reads
      the negated magnitude. */
  lemma ParseIntOfSigned(u: string)
    requires |u| > 0 && IsDigit(u[0], 10)
    ensures ParseInt("-" + u) == Negate(ReadMagnitude(u))
  {
    var s := "-" + u;
    assert s[0] == '-';
    TrimStartUnpadded(s);
    assert s[1..] == u;
  }

  lemma {:induction false} DigitRunOfPrefix(d: string, tail: string, radix: nat)
    requires forall k :: 0 <= k < |d| ==> IsDigit(d[k], radix)
    requires |tail| > 0 && !IsDigit(tail[0], radix)
    ensures DigitRun(d + tail, radix) == |d|
    decreases |d|
  {
    if |d| > 0 {
      assert (d + tail)[1..] == d[1..] + tail;
      DigitRunOfPrefix(d[1..], tail, radix);
    } else {
      assert d + tail == tail;
    }
  }

  /** `Math.round(x)` for `x` held as the integer hundredths `h`: the
      nearest integer, halves rounded up (toward positive infinity). */
  function RoundHundredths(h: int): (r: int)
    ensures 100 * r - 50 <= h < 100 * r + 50
  {
    (h + 50) / 100
  }

  /** `parseInt` on the inputs a user is likely to type into a what-if box. */
  lemma ParseIntOfDigits()
    ensures ParseInt("3") == Int(3)
    ensures ParseInt("0") == Int(0) && !Truthy(ParseInt("0"))
  {
    ParseIntOfNatural(3);
    ParseIntOfNatural(0);
  }

  lemma ParseIntOfBlank()
    ensures ParseInt("") == NaN
    ensures ParseInt("  ") == NaN
  {
    assert TrimStart("  ") == "";
  }

  lemma ParseIntOfWord()
    ensures ParseInt("abc") == NaN
  {
    TrimStartUnpadded("abc");
    assert Unsigned("abc") == "abc";
    assert !IsDigit('a', 10);
    assert DigitRun("abc", 10) == 0;
  }

  lemma ParseIntStopsAtNonDigit()
    ensures ParseInt(" 12abc") == Int(12)
  {
    var u := "12abc";
    PaddedNumeral();
    ParseIntSkipsWhitespace(' ', u);
    assert IsDigit(u[0], 10);
    ParseIntOfUnsigned(u);
    ReadTwelve();
  }

  /** Leading whitespace does not change what `parseInt` reads. */
  lemma ParseIntSkipsWhitespace(c: char, u: string)
    requires IsWhitespace(c)
    ensures ParseInt([c] + u) == ParseInt(u)
  {
    assert ([c] + u)[1..] == u;
    assert TrimStart([c] + u) == TrimStart(u);
  }

  lemma ReadTwelve()
    ensures ReadMagnitude("12abc") == Int(12)
  {
    assert IsDigit('1', 10) && IsDigit('2', 10) && !IsDigit('a', 10);
    SplitNumeral();
    ReadMagnitudeOfNumeral("12", "abc");
    assert DigitsValue("12", 10) == 12 by { assert "12"[..1] == "1"; }
  }

  // Literal facts the examples above need spelled out.

  lemma PaddedNumeral()
    ensures " 12abc" == [' '] + "12abc"
  {
  }

  lemma SplitNumeral()
    ensures "12abc" == "12" + "abc"
  {
  }

  lemma ParseIntOfFraction()
    ensures ParseInt("1.5") == Int(1)
  {
    TrimStartUnpadded("1.5");
    assert "1" + ".5" == "1.5";
    ReadMagnitudeOfNumeral("1", ".5");
  }

  lemma ParseIntOfNegativeZero()
    ensures ParseInt("-0") == Int(0)
  {
    TrimStartUnpadded("-0");
    assert "-0"[1..] == "0" + "";
    ReadMagnitudeOfNumeral("0", "");
  }

  lemma ParseIntOfHex()
    ensures ParseInt("0x1A") == Int(26)
  {
    TrimStartUnpadded("0x1A");
    assert "0x1A"[2..] == "1A";
    DigitRunOfDigits("1A", 16);
    assert "1A"[..2] == "1A";
    assert DigitsValue("1A", 16) == 26 by { assert "1A"[..1] == "1"; }
  }
}
