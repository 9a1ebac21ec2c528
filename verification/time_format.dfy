/**
 The `m:ss` rendering of a remaining time in seconds, as shown on the two
 countdown displays, together with a strict parser that inverts it.
 */
module TimeFormat {

  datatype Option<T> = None | Some(value: T)

  predicate IsDigit(c: char) {
    '0' <= c <= '9'
  }

  predicate AllDigits(s: string) {
    forall i :: 0 <= i < |s| ==> IsDigit(s[i])
  }

  /** A decimal numeral as JavaScript prints a non-negative integer: at least
      one digit and no leading zero unless the numeral is "0" itself. */
  predicate IsCanonical(s: string) {
    |s| > 0 && AllDigits(s) && (s[0] == '0' ==> |s| == 1)
  }

  function DigitChar(d: nat): (c: char)
    requires d < 10
    ensures IsDigit(c)
  {
    ('0' as int + d) as char
  }

  function DigitValue(c: char): (d: nat)
    requires IsDigit(c)
    ensures d < 10
    ensures DigitChar(d) == c
  {
    c as int - '0' as int
  }

  /** The value of a string of decimal digits, most significant first. */
  function DigitsValue(s: string): nat
    requires AllDigits(s)
  {
    if |s| == 0 then 0 else 10 * DigitsValue(s[..|s| - 1]) + DigitValue(s[|s| - 1])
  }

  /** `String(n)` for a non-negative integer `n`. */
  function Decimal(n: nat): (s: string)
    ensures IsCanonical(s)
    ensures n < 10 <==> |s| == 1
    decreases n
  {
    if n < 10 then [DigitChar(n)] else Decimal(n / 10) + [DigitChar(n % 10)]
  }

  /** `String(n)` for a number below a hundred is one or two digits. */
  lemma DecimalBelow100(n: nat)
    requires n < 100
    ensures Decimal(n) == if n < 10 then [DigitChar(n)] else [DigitChar(n / 10), DigitChar(n % 10)]
  {
  }

  lemma TwoDigitsValue(s: string)
    requires |s| == 2 && AllDigits(s)
    ensures DigitsValue(s) == 10 * DigitValue(s[0]) + DigitValue(s[1])
  {
    var p := s[..1];
    assert p[..0] == [] && p[0] == s[0];
    assert DigitsValue(p) == DigitValue(s[0]);
  }

  /** The seconds field of the display: a "0" for values below ten, then the
      value itself; always exactly two digits that read back as `sec`. */
  function Seconds(sec: nat): (s: string)
    requires sec < 60
    ensures |s| == 2 && AllDigits(s)
    ensures s[0] <= '5'
    ensures DigitsValue(s) == sec
  {
    var s := (if sec < 10 then "0" else "") + Decimal(sec);
    DecimalBelow100(sec);
    TwoDigitsValue(s);
    s
  }

  /** `updateTimerDisplay`'s text for `t` seconds: whole minutes in decimal,
      a colon, then the seconds within the minute padded to two digits. */
  function Format(t: nat): (s: string)
    ensures |s| >= 4 && s[|s| - 3] == ':'
  {
    Decimal(t / 60) + ":" + Seconds(t % 60)
  }

  /** The display text of `t` is the whole minutes in decimal, a colon, and
      exactly two digits whose value is the seconds within the minute. */
  lemma FormatShape(t: nat)
    ensures var s := Format(t);
            && |s| >= 4 && s[|s| - 3] == ':'
            && s[..|s| - 3] == Decimal(t / 60)
            && AllDigits(s[|s| - 2..]) && DigitsValue(s[|s| - 2..]) == t % 60
  {
    var s := Format(t);
    assert s[..|s| - 3] == Decimal(t / 60);
    assert s[|s| - 2..] == Seconds(t % 60);
  }

  /** Reads back exactly the strings `Format` produces: a canonical minute
      numeral, a colon and two digits whose value is below sixty. */
  function Parse(s: string): (r: Option<nat>)
    ensures r.Some? ==> |s| >= 4 && s[|s| - 3] == ':'
  {
    if |s| >= 4 && s[|s| - 3] == ':' && IsCanonical(s[..|s| - 3])
       && AllDigits(s[|s| - 2..]) && s[|s| - 2] <= '5'
    then Some(60 * DigitsValue(s[..|s| - 3]) + DigitsValue(s[|s| - 2..]))
    else None
  }

  lemma {:induction false} DigitsValueOfDecimal(n: nat)
    ensures DigitsValue(Decimal(n)) == n
    decreases n
  {
    if n >= 10 {
      var p := Decimal(n / 10);
      var s := Decimal(n);
      assert s == p + [DigitChar(n % 10)];
      assert s[..|s| - 1] == p;
      DigitsValueOfDecimal(n / 10);
    }
  }

  /** A canonical numeral not starting with '0' denotes a positive number. */
  lemma {:induction false} LeadingDigitPositive(s: string)
    requires |s| > 0 && AllDigits(s) && s[0] != '0'
    ensures DigitsValue(s) > 0
    decreases |s|
  {
    if |s| > 1 {
      var p := s[..|s| - 1];
      assert p[0] == s[0];
      LeadingDigitPositive(p);
    }
  }

  lemma {:induction false} DecimalOfDigitsValue(s: string)
    requires IsCanonical(s)
    ensures Decimal(DigitsValue(s)) == s
    decreases |s|
  {
    if |s| > 1 {
      var p := s[..|s| - 1];
      var d := DigitValue(s[|s| - 1]);
      assert p[0] == s[0];
      LeadingDigitPositive(p);
      DecimalOfDigitsValue(p);
      var n := DigitsValue(s);
      assert n == 10 * DigitsValue(p) + d;
      assert n / 10 == DigitsValue(p) && n % 10 == d;
      assert s == p + [s[|s| - 1]];
    }
  }

  /** Two digits with a leading digit of at most 5 are exactly the padded
      seconds field of their value. */
  lemma SecondsOfDigits(s: string)
    requires |s| == 2 && AllDigits(s) && s[0] <= '5'
    ensures DigitsValue(s) < 60
    ensures Seconds(DigitsValue(s)) == s
  {
    var hi := DigitValue(s[0]);
    var lo := DigitValue(s[1]);
    TwoDigitsValue(s);
    assert s == [DigitChar(hi), DigitChar(lo)];
    var n := 10 * hi + lo;
    assert n < 60;
    DecimalBelow100(n);
    if hi == 0 {
      assert n == lo && n < 10;
      assert Decimal(n) == [DigitChar(lo)];
      assert Seconds(n) == "0" + [DigitChar(lo)];
    } else {
      assert n / 10 == hi && n % 10 == lo;
      assert Decimal(n) == [DigitChar(hi), DigitChar(lo)];
      assert Seconds(n) == [] + Decimal(n);
    }
  }

  /** Parsing the display text of `t` gives back `t`. */
  lemma ParseFormat(t: nat)
    ensures Parse(Format(t)) == Some(t)
  {
    var s := Format(t);
    FormatShape(t);
    DigitsValueOfDecimal(t / 60);
    assert s[|s| - 2..] == Seconds(t % 60);
  }

  /** Every string `Parse` accepts is the display text of the value it
      returns, so the display text determines the time and vice versa. */
  lemma FormatParse(s: string)
    requires Parse(s).Some?
    ensures Format(Parse(s).value) == s
  {
    var m := s[..|s| - 3];
    var ss := s[|s| - 2..];
    var t := Parse(s).value;
    SecondsOfDigits(ss);
    DecimalOfDigitsValue(m);
    assert t / 60 == DigitsValue(m) && t % 60 == DigitsValue(ss);
    assert s == m + ":" + ss;
  }

  lemma FormatInverse(s: string, t: nat)
    ensures Parse(s) == Some(t) <==> Format(t) == s
  {
    if Parse(s) == Some(t) {
      FormatParse(s);
    }
    if Format(t) == s {
      ParseFormat(t);
    }
  }

  /** Distinct remaining times are always displayed differently. */
  lemma FormatInjective(t: nat, u: nat)
    requires Format(t) == Format(u)
    ensures t == u
  {
    ParseFormat(t);
    ParseFormat(u);
  }

  lemma FormatExamples()
    ensures Format(65) == "1:05"
    ensures Format(5) == "0:05"
    ensures Format(0) == "0:00"
    ensures Format(25 * 60) == "25:00"
  {
    DecimalBelow100(0);
    DecimalBelow100(1);
    DecimalBelow100(5);
    DecimalBelow100(25);
    assert DigitChar(0) == '0' && DigitChar(1) == '1';
    assert DigitChar(2) == '2' && DigitChar(5) == '5';
    assert Decimal(25) == "25";
    assert Seconds(5) == "05";
    assert Seconds(0) == "00";
    assert Format(65) == Decimal(1) + ":" + Seconds(5);
    assert Format(5) == Decimal(0) + ":" + Seconds(5);
    assert Format(0) == Decimal(0) + ":" + Seconds(0);
    assert Format(25 * 60) == Decimal(25) + ":" + Seconds(0);
  }
}
