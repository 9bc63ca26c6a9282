/** The per-run secret code: a random integer in 0..9999 written with
    the `04d` format (zero-padded to four digits). The random draw is the parameter `n`. */
module SecretCode {

  predicate IsDigit(c: char) {
    '0' <= c <= '9'
  }

  /** Exactly four ASCII decimal digits. */
  predicate IsSecretCode(s: string) {
    |s| == 4 && forall i :: 0 <= i < 4 ==> IsDigit(s[i])
  }

  function DigitChar(d: int): (c: char)
    requires 0 <= d <= 9
    ensures IsDigit(c) && c as int - '0' as int == d
  {
    ('0' as int + d) as char
  }

  function DigitValue(c: char): (d: int)
    requires IsDigit(c)
    ensures 0 <= d <= 9 && DigitChar(d) == c
  {
    c as int - '0' as int
  }

  /** The number a four-digit string denotes. */
  function CodeValue(s: string): int
    requires IsSecretCode(s)
  {
    DigitValue(s[0]) * 1000 + DigitValue(s[1]) * 100 + DigitValue(s[2]) * 10 + DigitValue(s[3])
  }

  /** `new_secret_code`: the drawn integer, zero-padded to four digits. */
  function NewSecretCode(n: int): (code: string)
    requires 0 <= n <= 9999
    ensures IsSecretCode(code) && CodeValue(code) == n
  {
    var code := [DigitChar(n / 1000), DigitChar(n / 100 % 10), DigitChar(n / 10 % 10), DigitChar(n % 10)];
    DecimalSplit(n);
    code
  }

  lemma DecimalSplit(n: int)
    requires 0 <= n <= 9999
    ensures n / 1000 * 1000 + n / 100 % 10 * 100 + n / 10 % 10 * 10 + n % 10 == n
  {
    var a, b, c, d := n / 1000, n / 100 % 10, n / 10 % 10, n % 10;
    assert n == 10 * (n / 10) + d;
    assert n / 10 == 10 * (n / 100) + c;
    assert n / 100 == 10 * a + b;
  }

  /** Every four-digit string is the code of exactly one draw: the code is
      the draw written back, so `NewSecretCode` is onto the four-digit
      strings and the digits determine the draw. */
  lemma {:induction false} NewSecretCodeOfValue(s: string)
    requires IsSecretCode(s)
    ensures 0 <= CodeValue(s) <= 9999 && NewSecretCode(CodeValue(s)) == s
  {
    var n := CodeValue(s);
    var d0, d1, d2, d3 := DigitValue(s[0]), DigitValue(s[1]), DigitValue(s[2]), DigitValue(s[3]);
    assert n / 1000 == d0;
    assert n / 100 % 10 == d1 by {
      assert n / 100 == d0 * 10 + d1;
    }
    assert n / 10 % 10 == d2 by {
      assert n / 10 == d0 * 100 + d1 * 10 + d2;
    }
    assert n % 10 == d3;
    assert NewSecretCode(n) == [s[0], s[1], s[2], s[3]];
  }

  /** Distinct draws give distinct codes. */
  lemma NewSecretCodeInjective(m: int, n: int)
    requires 0 <= m <= 9999 && 0 <= n <= 9999
    requires NewSecretCode(m) == NewSecretCode(n)
    ensures m == n
  {
  }

  /** Zero padding: a draw below 1000 still gives four characters, the
      first of them `0`. */
  lemma ZeroPadded(n: int)
    requires 0 <= n < 1000
    ensures NewSecretCode(n)[0] == '0'
  {
  }
}
