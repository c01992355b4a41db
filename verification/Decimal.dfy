// The text form of a log number: what sprintf writes with "%d" and what atoi reads back.

module Decimal {

  function DigitChar(d: nat): char
    requires d < 10
  {
    '0' + d as char
  }

  predicate IsDigit(c: char) { '0' <= c <= '9' }

  function DigitValue(c: char): int
    requires IsDigit(c)
  {
    c as int - '0' as int
  }

  function Digits(n: nat): string {
    if n < 10 then [DigitChar(n)] else Digits(n / 10) + [DigitChar(n % 10)]
  }

  function Itoa(n: int): string {
    if n < 0 then ['-'] + Digits(-n) else Digits(n)
  }

  /** Reads digits up to the first character that is not one. */
  function Scan(s: string, acc: int): int {
    if s == [] || !IsDigit(s[0]) then acc else Scan(s[1..], 10 * acc + DigitValue(s[0]))
  }

  predicate IsSpace(c: char) { c == ' ' || '\t' <= c <= '\r' }

  function Atoi(s: string): int {
    if s == [] then 0
    else if IsSpace(s[0]) then Atoi(s[1..])
    else if s[0] == '-' then -Scan(s[1..], 0)
    else if s[0] == '+' then Scan(s[1..], 0)
    else Scan(s, 0)
  }

  lemma {:induction false} ScanDigits(n: nat, rest: string)
    ensures |Digits(n)| > 0 && IsDigit(Digits(n)[0])
    ensures Scan(Digits(n) + rest, 0) == Scan(rest, n)
  {
    var last := [DigitChar(n % 10)];
    assert (last + rest)[1..] == rest;
    if n >= 10 {
      ScanDigits(n / 10, last + rest);
      assert Digits(n) + rest == Digits(n / 10) + (last + rest);
    } else {
      assert Digits(n) + rest == last + rest;
    }
  }

  /** Decimal digits, the highest first, behind a minus sign for a negative number. */
  lemma ItoaDigits(n: nat, d: nat)
    requires d < 10
    ensures Itoa(10 * n + d) == (if n == 0 then "" else Itoa(n)) + ["0123456789"[d]]
    ensures n > 0 ==> Itoa(0 - n) == "-" + Itoa(n)
  {
    assert (10 * n + d) / 10 == n && (10 * n + d) % 10 == d;
  }

  lemma AtoiInvertsItoa(n: int)
    ensures Atoi(Itoa(n)) == n && Itoa(n) != ""
  {
    var m := if n < 0 then -n else n;
    ScanDigits(m, []);
    assert Digits(m) + [] == Digits(m);
    assert (['-'] + Digits(m))[1..] == Digits(m);
  }
}
