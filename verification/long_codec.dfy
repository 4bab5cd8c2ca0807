/** The `long` codec: decodes a reference's text with `Long.valueOf` and encodes a value
    with `toString`, the decimal notation the scripting engine uses for integers. */
module LongCodec {
  import opened JavaLang

  /** `Long.valueOf` rejected the text. */
  datatype NumberFormatException = NumberFormatException

  /** The codec is stateless: its one value stands for the shared instance that
      `getInstance` returns. */
  datatype Codec = Instance

  function GetInstance(): (c: Codec)
    ensures c == Instance
  {
    Instance
  }

  predicate IsDigit(c: char)
  {
    '0' <= c <= '9'
  }

  predicate AllDigits(s: string)
  {
    forall i :: 0 <= i < |s| ==> IsDigit(s[i])
  }

  function DigitValue(c: char): nat
    requires IsDigit(c)
  {
    c as int - '0' as int
  }

  function DigitChar(d: nat): (c: char)
    requires d < 10
    ensures IsDigit(c) && DigitValue(c) == d
  {
    ('0' as int + d) as char
  }

  /** The number a run of decimal digits denotes, leading zeros allowed. */
  function DigitsValue(s: string): nat
    requires AllDigits(s)
  {
    if s == [] then 0 else DigitsValue(s[..|s| - 1]) * 10 + DigitValue(s[|s| - 1])
  }

  /** The decimal digits of `n`, without leading zeros. */
  function Digits(n: nat): (s: string)
    ensures |s| >= 1 && AllDigits(s)
    ensures n > 0 ==> s[0] != '0'
    decreases n
  {
    if n < 10 then [DigitChar(n)] else Digits(n / 10) + [DigitChar(n % 10)]
  }

  predicate InLongRange(v: int)
  {
    -0x8000_0000_0000_0000 <= v < 0x8000_0000_0000_0000
  }

  /** The syntax `Long.parseLong` accepts: an optional sign, then at least one digit. */
  predicate IsNumeral(s: string)
  {
    if |s| > 0 && (s[0] == '-' || s[0] == '+') then |s| > 1 && AllDigits(s[1..])
    else |s| > 0 && AllDigits(s)
  }

  /** The value a numeral denotes. */
  function NumeralValue(s: string): int
    requires IsNumeral(s)
  {
    if s[0] == '-' then -(DigitsValue(s[1..]) as int)
    else if s[0] == '+' then DigitsValue(s[1..])
    else DigitsValue(s)
  }

  /** `_decode`: `Long.valueOf(objectReference)`; a null reference, text that is not a
      numeral, or a value outside the 64-bit range throws. */
  function Decode(objectReference: Option<string>, applicationReference: Option<string>)
    : (r: Result<Int64, NumberFormatException>)
    ensures r.Ok? <==> objectReference.Some? && IsNumeral(objectReference.value)
                        && InLongRange(NumeralValue(objectReference.value))
    ensures r.Ok? ==> r.value == NumeralValue(objectReference.value)
  {
    if objectReference.None? || !IsNumeral(objectReference.value) then Err(NumberFormatException)
    else
      var v := NumeralValue(objectReference.value);
      if InLongRange(v) then Ok(v) else Err(NumberFormatException)
  }

  /** `_encode`: `"null"` for null, otherwise `Long.toString`: the digits, preceded by
      `-` exactly for negative values. */
  function Encode(number: Option<Int64>): (s: string)
    ensures number.None? ==> s == "null"
    ensures |s| > 0 && (number.Some? ==> (s[0] == '-' <==> number.value < 0))
  {
    if number.None? then "null"
    else
      var n: int := number.value;
      if n < 0 then "-" + Digits(-n) else Digits(n)
  }

  /** Reading back the digits of `n` gives `n`. */
  lemma {:induction false} DigitsRoundTrip(n: nat)
    ensures DigitsValue(Digits(n)) == n
    decreases n
  {
    if n >= 10 {
      var s := Digits(n);
      DigitsRoundTrip(n / 10);
      assert s[..|s| - 1] == Digits(n / 10);
    }
  }

  /** A digit run without a leading zero denotes a positive number. */
  lemma {:induction false} LeadingDigitPositive(d: string)
    requires |d| >= 1 && AllDigits(d) && d[0] != '0'
    ensures DigitsValue(d) >= 1
    decreases |d|
  {
    if |d| > 1 {
      LeadingDigitPositive(d[..|d| - 1]);
    }
  }

  /** Digit runs without leading zeros are exactly the ones `Digits` produces. */
  lemma {:induction false} DigitsOfValue(d: string)
    requires |d| >= 1 && AllDigits(d) && (|d| == 1 || d[0] != '0')
    ensures Digits(DigitsValue(d)) == d
    decreases |d|
  {
    if |d| > 1 {
      var front := d[..|d| - 1];
      LeadingDigitPositive(front);
      DigitsOfValue(front);
      var v := DigitsValue(d);
      assert v / 10 == DigitsValue(front) && v % 10 == DigitValue(d[|d| - 1]);
      assert DigitChar(v % 10) == d[|d| - 1];
      assert d == front + [d[|d| - 1]];
    }
  }

  /** Round trip: `_decode(_encode(n)) == n` for every 64-bit `n`, including the
      smallest one, whose magnitude has no positive 64-bit counterpart. */
  lemma RoundTrip(n: Int64, applicationReference: Option<string>)
    ensures Decode(Some(Encode(Some(n))), applicationReference) == Ok(n)
  {
    var s := Encode(Some(n));
    var m: int := n;
    if m < 0 {
      var d := Digits(-m);
      DigitsRoundTrip(-m);
      assert s == "-" + d && s[1..] == d;
      assert IsNumeral(s) && NumeralValue(s) == m;
    } else {
      DigitsRoundTrip(m);
      assert IsNumeral(s) && NumeralValue(s) == m;
    }
  }

  /** The text `_encode` produces: `0`, or digits with no leading zero, optionally after
      a minus sign. */
  predicate IsCanonical(s: string)
  {
    || (|s| >= 1 && AllDigits(s) && (|s| == 1 || s[0] != '0'))
    || (|s| >= 2 && s[0] == '-' && AllDigits(s[1..]) && s[1] != '0')
  }

  /** The other round trip: canonical text that decodes encodes back to itself. */
  lemma CanonicalRoundTrip(s: string, applicationReference: Option<string>)
    requires IsCanonical(s) && Decode(Some(s), applicationReference).Ok?
    ensures Encode(Some(Decode(Some(s), applicationReference).value)) == s
  {
    if s[0] == '-' {
      var d := s[1..];
      LeadingDigitPositive(d);
      DigitsOfValue(d);
      assert s == "-" + d;
    } else {
      DigitsOfValue(s);
    }
  }

  /** `_decode("-123")` is -123. */
  lemma DecodesNegative()
    ensures Decode(Some("-123"), None) == Ok(-123)
  {
    var d := "-123"[1..];
    assert d == "123";
    assert d[..2] == "12" && "12"[..1] == "1";
    assert DigitsValue(d) == 123;
  }
}
