/** Integer columns: bounded accumulation of decimal digits. */
module CsvNumber {
  import opened Decimal

  datatype Policy = ThrowOnOverflow | IgnoreOverflow | SetToMaxOnOverflow

  datatype Result = Number(x: int) | NoDigit | IntegerOverflow | IntegerUnderflow

  /** The limits of an integer type; a column's digits fit the smallest of them. */
  datatype Limits = Limits(min: int, max: int)

  predicate Wide(t: Limits) { t.min <= 0 && t.max >= 9 && (t.min < 0 ==> t.min <= -10) }

  predicate Fits(t: Limits, x: int) { t.min <= x <= t.max }

  /** Integer division as C++ does it: towards zero. */
  function DivTowardsZero(a: int, b: int): int
    requires b > 0
  {
    if a >= 0 then a / b else -((-a) / b)
  }

  // ----- the reference

  /** The value of the longest prefix that stays within the limit. */
  function Kept(digits: string, limit: nat): nat
    requires AllDigits(digits)
  {
    if Value(digits) <= limit || digits == "" then Value(digits) else Kept(digits[..|digits| - 1], limit)
  }

  function Beyond(policy: Policy, limit: int, kept: int, error: Result): Result {
    match policy
    case ThrowOnOverflow => error
    case IgnoreOverflow => Number(kept)
    case SetToMaxOnOverflow => Number(limit)
  }

  /** The digits decide before what follows them is looked at. */
  function Unsigned(policy: Policy, max: nat, s: string): Result {
    var k := DigitRun(s);
    if Value(s[..k]) > max then Beyond(policy, max, Kept(s[..k], max), IntegerOverflow)
    else if k < |s| then NoDigit
    else Number(Value(s))
  }

  function Negative(policy: Policy, min: int, s: string): Result
    requires min <= 0
  {
    var k := DigitRun(s);
    if 0 - Value(s[..k]) < min then Beyond(policy, min, 0 - Kept(s[..k], -min), IntegerUnderflow)
    else if k < |s| then NoDigit
    else Number(0 - Value(s))
  }

  function Signed(policy: Policy, t: Limits, s: string): Result
    requires Wide(t)
  {
    if s != "" && s[0] == '-' then Negative(policy, t.min, s[1..])
    else if s != "" && s[0] == '+' then Unsigned(policy, t.max, s[1..])
    else Unsigned(policy, t.max, s)
  }

  // ----- what that means for well-formed text

  predicate HasSign(s: string) { s != "" && (s[0] == '-' || s[0] == '+') }

  function Digits(s: string): string { if HasSign(s) then s[1..] else s }

  /** The number written by an optional sign and digits; no digits count as zero. */
  function Denoted(s: string): int
    requires AllDigits(Digits(s))
  {
    if s != "" && s[0] == '-' then 0 - Value(Digits(s)) else Value(Digits(s))
  }

  function Clamp(t: Limits, x: int): int { if x < t.min then t.min else if x > t.max then t.max else x }

  lemma WholeRun(s: string)
    ensures DigitRun(s) == |s| <==> AllDigits(s)
  {
    assert s[..|s|] == s;
  }

  /** Exact at the limits. */
  lemma SignedIsExact(t: Limits, s: string, policy: Policy)
    requires Wide(t) && AllDigits(Digits(s))
    ensures var v, r := Denoted(s), Signed(policy, t, s);
            && (Fits(t, v) ==> r == Number(v))
            && (policy.SetToMaxOnOverflow? ==> r == Number(Clamp(t, v)))
            && (policy.ThrowOnOverflow? && v > t.max ==> r == IntegerOverflow)
            && (policy.ThrowOnOverflow? && v < t.min ==> r == IntegerUnderflow)
  {
    var d := Digits(s);
    WholeRun(d);
    assert d[..|d|] == d;
  }

  predicate IsSign(sign: string) { sign == "" || sign == "+" || sign == "-" }

  /** Letter by letter: a sign or none, and digits. A value beyond the limits is an error, the limit, or what the
      digits come to before the limit is passed, by policy. */
  lemma SignedTexts(t: Limits, sign: string, d: string, policy: Policy)
    requires Wide(t) && AllDigits(d) && IsSign(sign)
    ensures var v := if sign == "-" then 0 - Value(d) else Value(d);
            Signed(policy, t, sign + d) ==
            if t.min <= v <= t.max then Number(v)
            else match policy
              case ThrowOnOverflow => if v > t.max then IntegerOverflow else IntegerUnderflow
              case SetToMaxOnOverflow => Number(if v > t.max then t.max else t.min)
              case IgnoreOverflow => Number(if v > t.max then Kept(d, t.max) else 0 - Kept(d, -t.min))
  {
    hide Unsigned, Negative, Signed, Value, Kept, AllDigits;
    SignIsRead(policy, t, sign, d);
    if sign == "-" { NegativeDigits(t, d, policy); } else { UnsignedDigits(t, d, policy); }
  }

  lemma SignIsRead(policy: Policy, t: Limits, sign: string, d: string)
    requires Wide(t) && AllDigits(d) && IsSign(sign)
    ensures Signed(policy, t, sign + d) == if sign == "-" then Negative(policy, t.min, d) else Unsigned(policy, t.max, d)
  {
    hide Unsigned, Negative, Value;
    if sign == "" {
      assert sign + d == d;
    } else {
      assert (sign + d)[1..] == d && (sign + d)[0] == sign[0];
    }
  }

  lemma UnsignedDigits(t: Limits, d: string, policy: Policy)
    requires Wide(t) && AllDigits(d)
    ensures Unsigned(policy, t.max, d) ==
            if Value(d) <= t.max then Number(Value(d)) else Beyond(policy, t.max, Kept(d, t.max), IntegerOverflow)
  {
    hide Value, DigitRun, Kept, Beyond;
    WholeRun(d);
    assert d[..|d|] == d;
  }

  lemma NegativeDigits(t: Limits, d: string, policy: Policy)
    requires Wide(t) && AllDigits(d)
    ensures Negative(policy, t.min, d) ==
            if t.min <= 0 - Value(d) then Number(0 - Value(d))
            else Beyond(policy, t.min, 0 - Kept(d, -t.min), IntegerUnderflow)
  {
    hide Value, DigitRun, Kept, Beyond;
    WholeRun(d);
    assert d[..|d|] == d;
  }

  /** Other text is refused, unless its leading digits are already out of range. */
  lemma NoDigitIff(t: Limits, s: string, policy: Policy)
    requires Wide(t)
    ensures var d := Digits(s);
            var v := Value(d[..DigitRun(d)]);
            Signed(policy, t, s) == NoDigit <==>
              !AllDigits(d) && (if s != "" && s[0] == '-' then t.min <= 0 - v else v <= t.max)
  {
    WholeRun(Digits(s));
  }

  // ----- the loops

  lemma {:induction false} RunReaches(s: string, n: nat)
    requires n <= |s| && AllDigits(s[..n])
    ensures n <= DigitRun(s) && (n == |s| || !IsDigit(s[n]) ==> DigitRun(s) == n)
    decreases n
  {
    if n > 0 {
      assert s[0] == s[..n][0] && s[1..][..n - 1] == s[..n][1..];
      RunReaches(s[1..], n - 1);
    }
  }

  lemma ValueNext(s: string, n: nat)
    requires n < |s| && AllDigits(s[..n + 1])
    ensures AllDigits(s[..n]) && Value(s[..n + 1]) == 10 * Value(s[..n]) + DigitValue(s[n])
  {
    assert s[..n + 1][..n] == s[..n];
  }

  lemma {:induction false} KeptIs(digits: string, n: nat, limit: nat)
    requires AllDigits(digits) && n < |digits|
    requires Value(digits[..n]) <= limit < Value(digits[..n + 1])
    ensures Value(digits) > limit && Kept(digits, limit) == Value(digits[..n])
    decreases |digits|
  {
    var shorter := digits[..|digits| - 1];
    if n + 1 == |digits| {
      assert digits[..n + 1] == digits && digits[..n] == shorter;
    } else {
      assert shorter[..n] == digits[..n] && shorter[..n + 1] == digits[..n + 1];
      KeptIs(shorter, n, limit);
      ValueNext(digits, |digits| - 1);
      assert digits[..|digits|] == digits;
    }
  }

  /** The same digits, seen from the text they start. */
  lemma KeptInRun(s: string, n: nat, limit: nat)
    requires n < |s| && AllDigits(s[..n + 1]) && Value(s[..n]) <= limit < Value(s[..n + 1])
    ensures var k := DigitRun(s); Value(s[..k]) > limit && Kept(s[..k], limit) == Value(s[..n])
  {
    RunReaches(s, n + 1);
    var digits := s[..DigitRun(s)];
    assert digits[..n] == s[..n] && digits[..n + 1] == s[..n + 1];
    KeptIs(digits, n, limit);
  }

  /** parse_unsigned_integer; every value it computes fits the type. */
  method ParseUnsigned(policy: Policy, t: Limits, col: string) returns (r: Result)
    requires Wide(t)
    ensures r == Unsigned(policy, t.max, col)
  {
    hide Value, DigitRun, Kept;
    var x := 0;
    var i := 0;
    ZeroDigits(col);
    while i < |col|
      invariant i <= |col| && AllDigits(col[..i]) && x == Value(col[..i]) && Fits(t, x)
    {
      if !IsDigit(col[i]) {
        RunReaches(col, i);
        return NoDigit;
      }
      var y := DigitValue(col[i]);
      assert col[..i + 1] == col[..i] + [col[i]];
      ValueNext(col, i);
      assert Fits(t, t.max - y);
      if x > (t.max - y) / 10 {
        KeptInRun(col, i, t.max);
        return match policy
          case ThrowOnOverflow => IntegerOverflow
          case IgnoreOverflow => Number(x)
          case SetToMaxOnOverflow => Number(t.max);
      }
      assert Fits(t, 10 * x) && Fits(t, 10 * x + y);
      x := 10 * x + y;
      i := i + 1;
    }
    RunReaches(col, |col|);
    assert col[..|col|] == col;
    r := Number(x);
  }

  lemma ZeroDigits(s: string)
    ensures AllDigits(s[..0]) && Value(s[..0]) == 0
  {
  }

  /** parse_signed_integer, behind a minus sign. */
  method ParseNegative(policy: Policy, t: Limits, col: string) returns (r: Result)
    requires Wide(t) && t.min < 0
    ensures r == Negative(policy, t.min, col)
  {
    hide Value, DigitRun, Kept;
    var x := 0;
    var i := 0;
    ZeroDigits(col);
    while i < |col|
      invariant i <= |col| && AllDigits(col[..i]) && x == 0 - Value(col[..i]) && Fits(t, x)
    {
      if !IsDigit(col[i]) {
        RunReaches(col, i);
        return NoDigit;
      }
      var y := DigitValue(col[i]);
      assert col[..i + 1] == col[..i] + [col[i]];
      ValueNext(col, i);
      assert Fits(t, t.min + y);
      if x < DivTowardsZero(t.min + y, 10) {
        KeptInRun(col, i, -t.min);
        return match policy
          case ThrowOnOverflow => IntegerUnderflow
          case IgnoreOverflow => Number(x)
          case SetToMaxOnOverflow => Number(t.min);
      }
      assert Fits(t, 10 * x) && Fits(t, 10 * x - y);
      x := 10 * x - y;
      i := i + 1;
    }
    RunReaches(col, |col|);
    assert col[..|col|] == col;
    r := Number(x);
  }

  /** parse_signed_integer. */
  method ParseSigned(policy: Policy, t: Limits, col: string) returns (r: Result)
    requires Wide(t) && t.min < 0
    ensures r == Signed(policy, t, col)
  {
    if col != "" && col[0] == '-' {
      r := ParseNegative(policy, t, col[1..]);
    } else if col != "" && col[0] == '+' {
      r := ParseUnsigned(policy, t, col[1..]);
    } else {
      r := ParseUnsigned(policy, t, col);
    }
  }
}
