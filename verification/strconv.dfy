/** Go's `int` and the decimal conversions the core uses: `strconv.Atoi` when a
    stored quantity is read back, and the decimal text an integer column turns into
    when the engine concatenates it into a string (the same text `strconv.Itoa`
    produces). Go's `int` is taken to be 64 bits wide. */
module Strconv {
  import opened Wrappers

  const MinInt: int := -0x8000_0000_0000_0000
  const MaxInt: int := 0x7FFF_FFFF_FFFF_FFFF

  /** Go's `int`. */
  type Int = x: int | MinInt <= x <= MaxInt

  /** strconv.ErrSyntax and strconv.ErrRange. */
  datatype NumError = ErrSyntax | ErrRange

  predicate IsDigit(c: char)
  {
    '0' <= c <= '9'
  }

  predicate AllDigits(s: string)
  {
    forall i :: 0 <= i < |s| ==> IsDigit(s[i])
  }

  /** The value of a string of decimal digits, most significant first. */
  function DigitsValue(s: string): nat
    requires AllDigits(s)
    decreases |s|
  {
    if s == [] then 0
    else DigitsValue(s[..|s| - 1]) * 10 + (s[|s| - 1] as int - '0' as int)
  }

  /** Decimal text as strconv.Atoi reads it: digits, where the first character may
      instead be a sign when at least one digit follows. */
  predicate IsDecimalText(s: string)
  {
    && |s| > 0
    && forall i :: 0 <= i < |s| ==> IsDigit(s[i]) || (i == 0 && |s| > 1 && (s[i] == '-' || s[i] == '+'))
  }

  /** strconv.Atoi: an optional '+' or '-' followed by one or more decimal digits,
      whose value must fit in `Int`. */
  function Atoi(s: string): (r: Result<Int, NumError>)
    ensures r != Err(ErrSyntax) <==> IsDecimalText(s)
    ensures r.Ok? && r.value < 0 ==> s[0] == '-'
    ensures |s| > 0 && AllDigits(s) ==>
      && (r.Ok? <==> DigitsValue(s) <= MaxInt)
      && (r.Ok? ==> r.value == DigitsValue(s))
  {
    var signed := |s| > 0 && (s[0] == '-' || s[0] == '+');
    var digits := if signed then s[1..] else s;
    if |digits| == 0 || !AllDigits(digits) then Err(ErrSyntax)
    else
      var v: int := if signed && s[0] == '-' then 0 - DigitsValue(digits) as int else DigitsValue(digits);
      if MinInt <= v <= MaxInt then Ok(v) else Err(ErrRange)
  }

  function DigitChar(d: nat): char
    requires d < 10
  {
    ('0' as int + d) as char
  }

  /** The decimal digits of `n`, without leading zeros. */
  function Digits(n: nat): string
    decreases n
  {
    if n < 10 then [DigitChar(n)] else Digits(n / 10) + [DigitChar(n % 10)]
  }

  /** strconv.Itoa, which is also how the engine renders an integer column as text. */
  function Itoa(n: int): string
  {
    if n < 0 then "-" + Digits(-n) else Digits(n)
  }

  lemma {:induction false} DigitsSpec(n: nat)
    ensures |Digits(n)| >= 1 && AllDigits(Digits(n)) && DigitsValue(Digits(n)) == n
    decreases n
  {
    if n >= 10 {
      DigitsSpec(n / 10);
      var s := Digits(n);
      assert s[..|s| - 1] == Digits(n / 10);
    }
  }

  /** Reading back the decimal text of any `Int` gives the same `Int`. */
  lemma AtoiItoa(n: Int)
    ensures Atoi(Itoa(n)) == Ok(n)
  {
    var m: int := n;
    var s := Itoa(m);
    if m < 0 {
      DigitsSpec(-m);
      assert s[0] == '-';
      assert s[1..] == Digits(-m);
      assert DigitsValue(s[1..]) == -m;
    } else {
      DigitsSpec(m);
      assert s == Digits(m);
      assert IsDigit(s[0]);
    }
  }

  /** The decimal text of an integer holds only digits and '-', so it never
      contains a separator character such as ',' or '='. */
  lemma ItoaCharacters(n: int)
    ensures forall i :: 0 <= i < |Itoa(n)| ==> IsDigit(Itoa(n)[i]) || Itoa(n)[i] == '-'
  {
    if n < 0 {
      DigitsSpec(-n);
      assert forall i :: 1 <= i < |Itoa(n)| ==> Itoa(n)[i] == Digits(-n)[i - 1];
    } else {
      DigitsSpec(n);
    }
  }
}
