/** Decimal printing (`format!("{n}")`) and parsing (`str::parse::<u64>`). */
module Decimal {
  import opened Prelude

  const U64_LIMIT: nat := 0x1_0000_0000_0000_0000

  predicate IsDigit(c: char) {
    '0' <= c <= '9'
  }

  predicate AllDigits(s: string) {
    forall i :: 0 <= i < |s| ==> IsDigit(s[i])
  }

  function DigitChar(d: nat): (c: char)
    requires d < 10
    ensures IsDigit(c) && DigitValue(c) == d
  {
    ('0' as int + d) as char
  }

  function DigitValue(c: char): (d: nat)
    requires IsDigit(c)
    ensures d < 10
  {
    c as int - '0' as int
  }

  function Print(n: nat): (s: string)
    ensures |s| > 0 && AllDigits(s)
  {
    if n < 10 then [DigitChar(n)] else Print(n / 10) + [DigitChar(n % 10)]
  }

  function Value(s: string): nat
    requires AllDigits(s)
  {
    if s == [] then 0 else Value(s[..|s| - 1]) * 10 + DigitValue(s[|s| - 1])
  }

  /** An optional `+`, at least one digit, and a value below 2^64. */
  function ParseU64(s: string): Option<nat> {
    var digits := if |s| > 0 && s[0] == '+' then s[1..] else s;
    if digits != [] && AllDigits(digits) && Value(digits) < U64_LIMIT then Some(Value(digits)) else None
  }

  lemma {:induction false} ValueOfPrint(n: nat)
    ensures Value(Print(n)) == n
  {
    if n >= 10 {
      ValueOfPrint(n / 10);
      assert Print(n)[..|Print(n)| - 1] == Print(n / 10);
    }
  }

  /** Parsing what was printed gives the number back, for every u64. */
  lemma PrintParse(n: nat)
    ensures ParseU64(Print(n)) == if n < U64_LIMIT then Some(n) else None
  {
    ValueOfPrint(n);
    assert IsDigit(Print(n)[0]);
  }

  /** Exactly what parses: digits, perhaps behind a plus sign, with a value that fits. */
  lemma ParseExactly(digits: string, plus: bool)
    requires AllDigits(digits)
    ensures ParseU64((if plus then "+" else "") + digits) ==
            if digits != [] && Value(digits) < U64_LIMIT then Some(Value(digits)) else None
  {
    var s := (if plus then "+" else "") + digits;
    if plus {
      assert s[1..] == digits;
    } else {
      assert s == digits;
      assert digits != [] ==> IsDigit(digits[0]);
    }
  }

  lemma PrintInjective(m: nat, n: nat)
    requires Print(m) == Print(n)
    ensures m == n
  {
    ValueOfPrint(m);
    ValueOfPrint(n);
  }
}
