/** Decimal text: the digits that Python's int() reads and str() writes. */
module Decimals {
  /** int() refuses decimal text of more digits than this: sys.int_info.default_max_str_digits, leading zeros counted,
      signs and underscores not. */
  const MAX_DIGITS: nat := 4300

  predicate IsDigit(c: char) {
    '0' <= c <= '9'
  }

  predicate AllDigits(s: string) {
    forall i :: 0 <= i < |s| ==> IsDigit(s[i])
  }

  function DigitValue(c: char): (d: nat)
    requires IsDigit(c)
    ensures d < 10
  {
    c as int - '0' as int
  }

  function DigitChar(d: nat): (c: char)
    requires d < 10
    ensures IsDigit(c) && DigitValue(c) == d
  {
    (d + '0' as int) as char
  }

  function Value(s: string): nat
    requires AllDigits(s)
  {
    if s == "" then 0 else 10 * Value(s[..|s| - 1]) + DigitValue(s[|s| - 1])
  }

  function Show(n: nat): string {
    if n < 10 then [DigitChar(n)] else Show(n / 10) + [DigitChar(n % 10)]
  }

  /** A number written without a leading zero. */
  predicate IsPlain(s: string) {
    s != "" && AllDigits(s) && s[0] != '0'
  }

  lemma {:induction false} ShowReadsBack(n: nat)
    ensures Show(n) != "" && AllDigits(Show(n)) && Value(Show(n)) == n
    ensures n > 0 ==> IsPlain(Show(n))
  {
    if n < 10 {
      assert Show(n)[..0] == "";
    } else {
      ShowReadsBack(n / 10);
      assert Show(n)[..|Show(n)| - 1] == Show(n / 10);
    }
  }

  /** A larger number is never written shorter. */
  lemma {:induction false} ShowGrows(a: nat, b: nat)
    requires a <= b
    ensures |Show(a)| <= |Show(b)|
  {
    if a >= 10 {
      ShowGrows(a / 10, b / 10);
    }
  }

  /** Writing a number again drops leading zeros and adds nothing. */
  lemma {:induction false} ShowOfValue(s: string)
    requires AllDigits(s) && s != ""
    ensures |Show(Value(s))| <= |s|
  {
    var front := s[..|s| - 1];
    if front == "" {
      assert Value(front) == 0;
    } else {
      ShowOfValue(front);
      assert Value(s) / 10 == Value(front);
    }
  }

  lemma {:induction false} PlainWritesBack(s: string)
    requires IsPlain(s)
    ensures Value(s) > 0 && Show(Value(s)) == s
  {
    var front := s[..|s| - 1];
    if front == "" {
      assert Value(front) == 0;
      assert s == [s[0]];
    } else {
      PlainWritesBack(front);
      assert s == front + [s[|s| - 1]];
      assert Value(s) / 10 == Value(front) && Value(s) % 10 == DigitValue(s[|s| - 1]);
    }
  }
}
