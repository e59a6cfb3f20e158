/** Decimal numbers as text, and reading them back. */
module Decimals {
  import opened Characters

  /** What was read from the front of a text, and the text after it. */
  datatype Read<T> = Read(value: T, rest: string)

  function Digit(d: nat): char
    requires d < 16
  {
    if d < 10 then ('0' as int + d) as char else ('a' as int + d - 10) as char
  }

  function Digits(n: nat): (s: string)
    ensures s != [] && '0' <= s[0] <= '9'
  {
    if n < 10 then [Digit(n)] else Digits(n / 10) + [Digit(n % 10)]
  }

  function Decimal(n: int): string {
    if n < 0 then ['-'] + Digits(-n) else Digits(n)
  }

  function ReadDigits(s: string, n: nat): (r: Read<nat>)
    ensures |r.rest| <= |s|
    decreases |s|
  {
    if s == [] || !IsDigit(s[0]) then Read(n, s)
    else ReadDigits(s[1..], 10 * n + (s[0] as int - '0' as int))
  }

  /** The text does not go on with a digit. */
  predicate Ends(rest: string) {
    rest == [] || !IsDigit(rest[0])
  }

  lemma {:induction false} ReadDecimalDigits(n: nat, rest: string)
    ensures ReadDigits(Digits(n) + rest, 0) == ReadDigits(rest, n)
  {
    var last := [Digit(n % 10)];
    assert (last + rest)[1..] == rest;
    if n < 10 {
      assert Digits(n) == last;
    } else {
      ReadDecimalDigits(n / 10, last + rest);
      assert Digits(n) + rest == Digits(n / 10) + (last + rest);
    }
  }

  lemma FirstDigit(s: string)
    requires s != [] && IsDigit(s[0])
    ensures ReadDigits(s, 0) == ReadDigits(s[1..], s[0] as int - '0' as int)
  {
  }

  lemma NoMoreDigits(rest: string, n: nat)
    requires Ends(rest)
    ensures ReadDigits(rest, n) == Read(n, rest)
  {
  }
}
