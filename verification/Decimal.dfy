/** Decimal texts: the canonical text of an integer, and reading one back. */
module Decimal {

  function DigitChar(d: nat): (c: char)
    requires d < 10
    ensures '0' <= c <= '9' && c as int == '0' as int + d
  {
    ('0' as int + d) as char
  }

  /** Most significant digit first. */
  function Digits(n: nat): (s: string)
    ensures s != ""
  {
    if n < 10 then [DigitChar(n)] else Digits(n / 10) + [DigitChar(n % 10)]
  }

  function Abs(n: int): nat {
    if n < 0 then -n else n
  }

  function Text(n: int): string {
    if n < 0 then "-" + Digits(Abs(n)) else Digits(n)
  }

  // ----- Reading

  ghost predicate AllDigits(s: string) {
    forall i :: 0 <= i < |s| ==> '0' <= s[i] <= '9'
  }

  ghost function DigitsValue(s: string): nat
    requires AllDigits(s)
  {
    if s == "" then 0 else 10 * DigitsValue(s[..|s| - 1]) + (s[|s| - 1] as int - '0' as int)
  }

  ghost function Magnitude(s: string): string {
    if s != "" && s[0] == '-' then s[1..] else s
  }

  ghost predicate IsNumber(s: string) {
    AllDigits(Magnitude(s)) && Magnitude(s) != ""
  }

  ghost function Value(s: string): int
    requires IsNumber(s)
  {
    var m: int := DigitsValue(Magnitude(s));
    if s[0] == '-' then -m else m
  }

  /** No leading zero, and no minus sign in front of zero. */
  ghost predicate IsCanonical(s: string) {
    IsNumber(s) && (Magnitude(s)[0] == '0' ==> s == "0")
  }

  lemma {:induction false} DigitsRead(n: nat)
    ensures AllDigits(Digits(n)) && DigitsValue(Digits(n)) == n
    ensures Digits(n)[0] == '0' ==> n == 0
  {
    if n >= 10 {
      DigitsRead(n / 10);
      assert Digits(n)[..|Digits(n)| - 1] == Digits(n / 10);
    } else {
      assert Digits(n)[..0] == "";
    }
  }

  /** Reading the text of a number gives the number, and the text is canonical. */
  lemma TextRead(n: int)
    ensures IsCanonical(Text(n)) && Value(Text(n)) == n
  {
    DigitsRead(Abs(n));
    assert Magnitude(Text(n)) == Digits(Abs(n));
  }

  lemma {:induction false} DigitsUnique(s: string)
    requires s != "" && AllDigits(s) && (s[0] == '0' ==> |s| == 1)
    ensures s == Digits(DigitsValue(s))
    ensures s[0] != '0' ==> DigitsValue(s) > 0
    decreases |s|
  {
    var front, last := s[..|s| - 1], s[|s| - 1];
    if front != "" {
      DigitsUnique(front);
      LastDigit(DigitsValue(front), last);
      assert s == front + [last];
    } else {
      assert DigitsValue(front) == 0;
    }
  }

  lemma LastDigit(n: nat, last: char)
    requires n > 0 && '0' <= last <= '9'
    ensures var d := last as int - '0' as int;
            Digits(10 * n + d) == Digits(n) + [last]
  {
    var d := last as int - '0' as int;
    assert (10 * n + d) / 10 == n && (10 * n + d) % 10 == d;
  }

  /** A canonical text that reads as a number is the text of that number. */
  lemma TextUnique(s: string)
    requires IsCanonical(s)
    ensures s == Text(Value(s))
  {
    DigitsUnique(Magnitude(s));
  }

  // ----- Length

  function Pow10(k: nat): nat {
    if k == 0 then 1 else 10 * Pow10(k - 1)
  }

  lemma {:induction false} DigitsLength(n: nat, k: nat)
    requires k >= 1 && n < Pow10(k)
    ensures |Digits(n)| <= k
  {
    if n >= 10 {
      assert k >= 2;
      DigitsLength(n / 10, k - 1);
    }
  }

  /** A signed or unsigned 64-bit value takes at most 20 characters. */
  lemma TextLength(n: int)
    requires -0x8000_0000_0000_0000 <= n < 0x1_0000_0000_0000_0000
    ensures |Text(n)| <= 20
  {
    assert Pow10(4) == 10_000;
    assert Pow10(8) == 100_000_000;
    assert Pow10(12) == 1_000_000_000_000;
    assert Pow10(16) == 10_000_000_000_000_000;
    assert Pow10(19) == 10_000_000_000_000_000_000;
    assert Pow10(20) == 100_000_000_000_000_000_000;
    DigitsLength(Abs(n), if n < 0 then 19 else 20);
  }
}
