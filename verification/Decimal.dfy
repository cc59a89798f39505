/**
 Canonical signed 32-bit decimal integers: the text Python prints for an integer, the pattern
 both sides accept, and the digit loop the firmware runs over a token.
 */
module Decimal {
  import opened Common

  const MIN_INT32 := -0x8000_0000
  const MAX_INT32 := 0x7FFF_FFFF

  newtype uint32 = x: int | 0 <= x < 0x1_0000_0000
  newtype int32 = x: int | -0x8000_0000 <= x < 0x8000_0000

  predicate IsDigit(c: char) {
    '0' <= c <= '9'
  }

  predicate AllDigits(s: string) {
    forall i :: 0 <= i < |s| ==> IsDigit(s[i])
  }

  function DigitChar(d: nat): (c: char)
    requires d < 10
    ensures IsDigit(c)
  {
    (d + '0' as int) as char
  }

  function DigitValue(c: char): (d: nat)
    requires IsDigit(c)
    ensures d < 10 && DigitChar(d) == c
  {
    c as int - '0' as int
  }

  /** Decimal digits of a natural number, most significant first. */
  function Digits(n: nat): (text: string)
    ensures |text| > 0 && AllDigits(text)
    ensures text[0] == '0' ==> text == "0" && n == 0
    ensures Value(text) == n
  {
    if n < 10 then
      var text := [DigitChar(n)];
      assert text[..0] == "";
      text
    else
      var text := Digits(n / 10) + [DigitChar(n % 10)];
      assert text[..|text| - 1] == Digits(n / 10);
      text
  }

  /** The number a run of digits denotes. */
  function Value(digits: string): nat
    requires AllDigits(digits)
  {
    if digits == "" then 0
    else 10 * Value(digits[..|digits| - 1]) + DigitValue(digits[|digits| - 1])
  }

  function Print(n: int): string {
    if n < 0 then "-" + Digits(-n) else Digits(n)
  }

  predicate NonZeroRun(s: string) {
    s != "" && s[0] != '0' && AllDigits(s)
  }

  /** The pattern 0 | -[1-9][0-9]* | [1-9][0-9]*. */
  predicate Canonical(token: string) {
    token == "0" || NonZeroRun(token) || (token != "" && token[0] == '-' && NonZeroRun(token[1..]))
  }

  function IntegerOf(token: string): int
    requires Canonical(token)
  {
    if token[0] == '-' then 0 - Value(token[1..]) else Value(token)
  }

  function ParseInteger(token: string): Option<int> {
    if !Canonical(token) then None
    else
      var value := IntegerOf(token);
      if MIN_INT32 <= value <= MAX_INT32 then Some(value) else None
  }

  /** A digit run without a leading zero denotes a positive number and is what printing it gives. */
  lemma {:induction false} DigitsOfValue(run: string)
    requires NonZeroRun(run)
    ensures Value(run) > 0 && Digits(Value(run)) == run
  {
    var front, d := run[..|run| - 1], DigitValue(run[|run| - 1]);
    assert run == front + [DigitChar(d)];
    if front == "" {
      assert Value(run) == d;
    } else {
      DigitsOfValue(front);
      var v := Value(front);
      assert Value(run) == 10 * v + d && (10 * v + d) / 10 == v && (10 * v + d) % 10 == d;
    }
  }

  lemma PrintingParses(value: int)
    requires MIN_INT32 <= value <= MAX_INT32
    ensures ParseInteger(Print(value)) == Some(value)
  {
    if value < 0 {
      var run := Digits(-value);
      assert Print(value)[0] == '-' && Print(value)[1..] == run;
      assert NonZeroRun(run);
      assert IntegerOf(Print(value)) == value;
    } else {
      assert Print(value) == Digits(value) && IsDigit(Digits(value)[0]);
      assert value != 0 ==> NonZeroRun(Digits(value));
    }
  }

  lemma ParsedWasPrinted(token: string)
    requires ParseInteger(token).Some?
    ensures token == Print(ParseInteger(token).value)
  {
    if token[0] == '-' {
      DigitsOfValue(token[1..]);
      assert token == "-" + token[1..];
    } else if token == "0" {
      assert token[..0] == "" && Value(token) == 0;
      assert Digits(0) == "0";
    } else {
      DigitsOfValue(token);
    }
  }

  /** Parsing accepts exactly the texts printing produces, with the value that was printed. */
  lemma ParseAcceptsExactlyPrinted(token: string, value: int)
    ensures ParseInteger(token) == Some(value) <==> MIN_INT32 <= value <= MAX_INT32 && token == Print(value)
  {
    if MIN_INT32 <= value <= MAX_INT32 {
      PrintingParses(value);
    }
    if ParseInteger(token).Some? {
      ParsedWasPrinted(token);
    }
  }

  lemma PrintedLength(n: nat, digits: nat)
    requires digits == 1 ==> n < 10
    requires digits == 3 ==> n < 1000
    requires digits == 5 ==> n < 100000
    requires digits in {1, 3, 5}
    ensures |Print(n)| <= digits
  {
    if digits == 5 && n >= 1000 {
      assert n / 10 / 10 < 1000;
      PrintedLength(n / 10 / 10, 3);
      assert Digits(n) == Digits(n / 10) + [DigitChar(n % 10)];
      assert Digits(n / 10) == Digits(n / 10 / 10) + [DigitChar(n / 10 % 10)];
    } else if digits == 3 && n >= 10 {
      assert Digits(n) == Digits(n / 10) + [DigitChar(n % 10)];
      if n >= 100 {
        assert Digits(n / 10) == Digits(n / 10 / 10) + [DigitChar(n / 10 % 10)];
      }
    } else if digits == 5 {
      PrintedLength(n, 3);
    }
  }

  /** A prefix of a digit run never denotes a larger number than the run. */
  lemma {:induction false} PrefixBelow(digits: string, k: nat)
    requires AllDigits(digits) && k <= |digits|
    ensures Value(digits[..k]) <= Value(digits)
    decreases |digits|
  {
    if k == |digits| {
      assert digits[..k] == digits;
    } else {
      var front := digits[..|digits| - 1];
      PrefixBelow(front, k);
      assert front[..k] == digits[..k];
    }
  }

  /**
   The firmware's strict integer parser: one pass over the digits with a 32-bit magnitude.
   The fixed-width types make every intermediate value provably representable.
   */
  method ParseInt32Strict(token: string) returns (parsed: Option<int32>)
    ensures parsed.Some? == ParseInteger(token).Some?
    ensures parsed.Some? ==> parsed.value as int == ParseInteger(token).value
  {
    if token == "" || token[0] == '+' {
      return None;
    }
    var negative := token[0] == '-';
    var digits := if negative then token[1..] else token;
    if digits == "" {
      return None;
    }
    if digits[0] == '0' && |digits| > 1 {
      return None;
    }
    if negative && digits[0] == '0' {
      return None;
    }
    var limit: uint32 := if negative then 2147483648 else 2147483647;
    var magnitude: uint32 := 0;
    var cursor := 0;
    while cursor < |digits|
      invariant 0 <= cursor <= |digits|
      invariant AllDigits(digits[..cursor])
      invariant magnitude as int == Value(digits[..cursor]) && magnitude <= limit
    {
      assert digits[..cursor + 1][..cursor] == digits[..cursor];
      if digits[cursor] < '0' || digits[cursor] > '9' {
        assert !AllDigits(digits) && !IsDigit(digits[cursor]);
        return None;
      }
      var digit := DigitValue(digits[cursor]) as uint32;
      assert Value(digits[..cursor + 1]) == 10 * magnitude as int + digit as int;
      if magnitude > (limit - digit) / 10 {
        if AllDigits(digits) {
          PrefixBelow(digits, cursor + 1);
        }
        return None;
      }
      magnitude := magnitude * 10 + digit;
      cursor := cursor + 1;
    }
    assert digits[..cursor] == digits;
    if token != "0" {
      assert NonZeroRun(digits);
    }
    if !negative {
      return Some(magnitude as int32);
    } else if magnitude == 2147483648 {
      return Some(-2147483647 - 1);
    } else {
      return Some(-(magnitude as int32));
    }
  }
}
