/** Decimal text: printing naturals and reading them back from the head of a stream. */
module Decimal {

  predicate IsDigit(c: char) { '0' <= c <= '9' }

  predicate AllDigits(s: string) { forall i :: 0 <= i < |s| ==> IsDigit(s[i]) }

  function DigitValue(c: char): (d: nat)
    requires IsDigit(c)
    ensures d < 10
  {
    c as int - '0' as int
  }

  function DigitChar(d: nat): (c: char)
    requires d < 10
    ensures IsDigit(c) && DigitValue(c) == d
  {
    (d + '0' as int) as char
  }

  /** The number a digit string denotes. */
  function Value(s: string): nat
    requires AllDigits(s)
  {
    if s == "" then 0 else 10 * Value(s[..|s| - 1]) + DigitValue(s[|s| - 1])
  }

  function Print(n: nat): (s: string)
    ensures s != "" && AllDigits(s)
  {
    if n < 10 then [DigitChar(n)] else Print(n / 10) + [DigitChar(n % 10)]
  }

  lemma {:induction false} PrintValue(n: nat)
    ensures Value(Print(n)) == n
  {
    if n < 10 {
      assert Print(n)[..0] == "";
    } else {
      PrintValue(n / 10);
      assert Print(n)[..|Print(n)| - 1] == Print(n / 10);
    }
  }

  /** The digits count up from nought, and a number is printed without needless ones in front. */
  lemma {:induction false} DigitsCount(c: char, n: nat)
    ensures DigitValue('0') == 0 && Value("0") == 0 && Print(0) == "0"
    ensures '0' <= c < '9' ==> DigitValue((c as int + 1) as char) == DigitValue(c) + 1
    ensures n > 0 ==> Print(n)[0] != '0'
  {
    assert "0"[..0] == "";
    if n >= 10 { DigitsCount(c, n / 10); }
  }

  lemma ValueStep(s: string, c: char)
    requires AllDigits(s) && IsDigit(c)
    ensures AllDigits(s + [c]) && Value(s + [c]) == 10 * Value(s) + (c as int - '0' as int)
  {
    assert (s + [c])[..|s|] == s;
  }

  function Pow10(k: nat): nat { if k == 0 then 1 else 10 * Pow10(k - 1) }

  /** k digits suffice below the k-th power of ten. */
  lemma {:induction false} PrintFits(n: nat, k: nat)
    requires k > 0 && n < Pow10(k)
    ensures |Print(n)| <= k
  {
    if n >= 10 {
      assert k > 1;
      PrintFits(n / 10, k - 1);
    }
  }

  lemma Print32Fits(n: nat)
    requires n < 0x1_0000_0000
    ensures |Print(n)| <= 10
  {
    assert Pow10(10) == 10 * Pow10(9) && Pow10(9) == 10 * Pow10(8) && Pow10(8) == 10 * Pow10(7);
    assert Pow10(7) == 10 * Pow10(6) && Pow10(6) == 10 * Pow10(5) && Pow10(5) == 10 * Pow10(4);
    assert Pow10(4) == 10 * Pow10(3) && Pow10(3) == 10 * Pow10(2) && Pow10(2) == 10 * Pow10(1) == 100;
    PrintFits(n, 10);
  }

  /** The digits at the head of a stream. */
  function DigitRun(s: string): (n: nat)
    ensures n <= |s| && AllDigits(s[..n]) && (n < |s| ==> !IsDigit(s[n]))
  {
    if s == "" || !IsDigit(s[0]) then 0 else 1 + DigitRun(s[1..])
  }

  lemma {:induction false} DigitRunOf(d: string, rest: string)
    requires AllDigits(d) && (rest != "" ==> !IsDigit(rest[0]))
    ensures DigitRun(d + rest) == |d|
    decreases |d|
  {
    if d == "" {
      assert d + rest == rest;
    } else {
      assert (d + rest)[1..] == d[1..] + rest;
      DigitRunOf(d[1..], rest);
    }
  }

  /** A printed number is read back whatever non-digit follows it. */
  lemma PrintReadsBack(n: nat, rest: string)
    requires rest != "" ==> !IsDigit(rest[0])
    ensures var s, k := Print(n) + rest, DigitRun(Print(n) + rest);
            k == |Print(n)| && s[..k] == Print(n) && Value(s[..k]) == n && s[k..] == rest
  {
    DigitRunOf(Print(n), rest);
    PrintValue(n);
    assert (Print(n) + rest)[..|Print(n)|] == Print(n);
  }
}
