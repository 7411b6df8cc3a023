/** Floating-point columns, over exact reals. */
module CsvFloat {
  import opened Decimal
  import opened CsvNumber

  const INT_LIMITS: Limits := Limits(-0x8000_0000, 0x7fff_ffff)

  /** NegatedMin: the exponent is the least int, whose negation is undefined. */
  datatype Float = Real(x: real) | NotAFloat | NegatedMin

  // ----- powers

  function Pow(b: real, n: nat): real { if n == 0 then 1.0 else b * Pow(b, n - 1) }

  function TenTo(e: int): real { if e >= 0 then Pow(10.0, e) else Pow(0.1, -e) }

  lemma {:induction false} PowSquare(b: real, n: nat)
    ensures Pow(b, 2 * n) == Pow(b * b, n)
  {
    if n > 0 {
      PowSquare(b, n - 1);
      var rest := Pow(b, 2 * n - 2);
      assert Pow(b, 2 * n) == b * Pow(b, 2 * n - 1) == b * (b * rest);
      assert b * (b * rest) == (b * b) * rest;
    }
  }

  lemma PowStep(x: real, b: real, n: nat)
    requires n > 0
    ensures x * Pow(b, n) == (x * b) * Pow(b, n - 1)
  {
  }

  lemma {:induction false} TenToSum(a: int, b: int)
    ensures TenTo(a + b) == TenTo(a) * TenTo(b)
    decreases if a >= 0 then a else -a
  {
    if a > 0 {
      TenToSum(a - 1, b);
      TenToNext(a - 1);
      TenToNext(a + b - 1);
      assert 10.0 * (TenTo(a - 1) * TenTo(b)) == (10.0 * TenTo(a - 1)) * TenTo(b);
    } else if a < 0 {
      TenToSum(a + 1, b);
      TenToNext(a);
      TenToNext(a + b);
      assert 10.0 * (TenTo(a) * TenTo(b)) == (10.0 * TenTo(a)) * TenTo(b);
    }
  }

  lemma TenToNext(e: int)
    ensures TenTo(e + 1) == 10.0 * TenTo(e)
  {
    if e < 0 {
      var p := Pow(0.1, -e - 1);
      assert Pow(0.1, -e) == 0.1 * p;
      assert 10.0 * (0.1 * p) == p;
    }
  }

  // ----- the reference

  predicate IsPoint(c: char) { c == '.' || c == ',' }

  predicate IsExponent(c: char) { c == 'e' || c == 'E' }

  function Whole(s: string): (digits: string)
    ensures AllDigits(digits)
  {
    s[..DigitRun(s)]
  }

  function AfterWhole(s: string): string { s[DigitRun(s)..] }

  predicate HasPoint(s: string) { AfterWhole(s) != "" && IsPoint(AfterWhole(s)[0]) }

  function Fraction(s: string): (digits: string)
    ensures AllDigits(digits)
  {
    if HasPoint(s) then Whole(AfterWhole(s)[1..]) else ""
  }

  /** What follows the mantissa. */
  function Tail(s: string): string {
    if HasPoint(s) then AfterWhole(AfterWhole(s)[1..]) else AfterWhole(s)
  }

  /** All digits of the mantissa as one integer. */
  function Mantissa(s: string): nat { Value(AllOf(s)) }

  function AllOf(s: string): (digits: string)
    ensures AllDigits(digits)
  {
    Whole(s) + Fraction(s)
  }

  /** The text without its sign. */
  function Body(col: string): string { if HasSign(col) then col[1..] else col }

  predicate Negated(col: string) { col != "" && col[0] == '-' }

  /** Multiplications are kept apart from the rest of the proofs. */
  function Times(a: real, b: real): real { a * b }

  /** Mantissa times ten to the exponent; the digits behind the point count against the exponent. */
  function Magnitude(body: string, e: int): real { Times(Mantissa(body) as real, TenTo(e - |Fraction(body)|)) }

  function Scientific(col: string, e: int): real {
    if Negated(col) then -Magnitude(Body(col), e) else Magnitude(Body(col), e)
  }

  function Parsed(col: string): Float {
    var tail := Tail(Body(col));
    if tail == "" then Real(Scientific(col, 0))
    else if !IsExponent(tail[0]) then NotAFloat
    else
      match Signed(SetToMaxOnOverflow, INT_LIMITS, tail[1..])
      case NoDigit => NotAFloat
      case Number(e) => if e == INT_LIMITS.min then NegatedMin else Real(Scientific(col, e))
      case _ => NotAFloat
  }

  /** For well-formed text that is the number the text denotes; an exponent outside the int range counts as
      the nearest int. */
  lemma ParsedIsDenoted(col: string)
    requires var tail := Tail(Body(col)); tail != "" ==> IsExponent(tail[0]) && AllDigits(Digits(tail[1..]))
    ensures var tail := Tail(Body(col));
            var e := Clamp(INT_LIMITS, if tail == "" then 0 else Denoted(tail[1..]));
            Parsed(col) == if e == INT_LIMITS.min then NegatedMin else Real(Scientific(col, e))
  {
    var tail := Tail(Body(col));
    if tail != "" { SignedIsExact(INT_LIMITS, tail[1..], SetToMaxOnOverflow); }
  }

  /** A mantissa without its sign: digits, perhaps a point and digits behind it. */
  function MantissaText(whole: string, point: string, fraction: string): string { whole + point + fraction }

  predicate IsMantissa(whole: string, point: string, fraction: string) {
    AllDigits(whole) && AllDigits(fraction) && point in {"", ".", ","} && (point == "" ==> fraction == "")
  }

  /** Nothing behind the mantissa, or something that cannot belong to it. */
  predicate EndsMantissa(rest: string) { rest == "" || (!IsDigit(rest[0]) && !IsPoint(rest[0])) }

  lemma WholeIs(digits: string, rest: string)
    requires AllDigits(digits) && (rest == "" || !IsDigit(rest[0]))
    ensures Whole(digits + rest) == digits && AfterWhole(digits + rest) == rest
  {
    DigitRunOf(digits, rest);
    assert (digits + rest)[..|digits|] == digits && (digits + rest)[|digits|..] == rest;
  }

  lemma MantissaIsRead(whole: string, point: string, fraction: string, rest: string)
    requires IsMantissa(whole, point, fraction) && EndsMantissa(rest)
    ensures var s := MantissaText(whole, point, fraction) + rest;
            Tail(s) == rest && Fraction(s) == fraction && AllOf(s) == whole + fraction
  {
    var s := MantissaText(whole, point, fraction) + rest;
    var behind := if point == "" then rest else point + (fraction + rest);
    SplitMantissa(whole, point, fraction, rest);
    WholeIs(whole, behind);
    WholeIs(fraction, rest);
    hide Whole, AfterWhole, MantissaText, AllDigits;
    assert HasPoint(s) <==> point != "";
  }

  lemma SplitMantissa(whole: string, point: string, fraction: string, rest: string)
    requires point in {"", ".", ","} && (point == "" ==> fraction == "")
    ensures MantissaText(whole, point, fraction) + rest ==
            whole + (if point == "" then rest else point + (fraction + rest))
    ensures point != "" ==> (point + (fraction + rest))[0] == point[0] && (point + (fraction + rest))[1..] == fraction + rest
  {
  }

  lemma SignIsTaken(sign: string, s: string)
    requires IsSign(sign) && (sign == "" ==> !HasSign(s))
    ensures Body(sign + s) == s && (Negated(sign + s) <==> sign == "-")
  {
    if sign == "" {
      assert sign + s == s;
    } else {
      assert (sign + s)[1..] == s && (sign + s)[0] == sign[0];
    }
  }

  lemma NoSignAhead(whole: string, point: string, fraction: string, rest: string)
    requires IsMantissa(whole, point, fraction) && (rest == "" || IsExponent(rest[0]))
    ensures !HasSign(MantissaText(whole, point, fraction) + rest) && EndsMantissa(rest)
  {
    FirstOfText(whole, point, fraction, rest);
    hide MantissaText;
  }

  /** What a text without its sign starts with. */
  lemma FirstOfText(whole: string, point: string, fraction: string, rest: string)
    requires point == "" ==> fraction == ""
    ensures var s := MantissaText(whole, point, fraction) + rest;
            && (whole != "" ==> s != "" && s[0] == whole[0])
            && (whole == "" && point != "" ==> s != "" && s[0] == point[0])
            && (whole == "" && point == "" ==> s == rest)
  {
  }

  /** The number a text means, letter by letter: without an exponent, the digits as one integer, scaled down by those
      behind the point. */
  lemma PlainFloat(sign: string, whole: string, point: string, fraction: string)
    requires IsSign(sign) && IsMantissa(whole, point, fraction)
    ensures AllDigits(whole + fraction)
    ensures var v := Times(Value(whole + fraction) as real, TenTo(-|fraction|));
            Parsed(sign + (whole + point + fraction)) == Real(if sign == "-" then -v else v)
  {
    hide AllOf, Fraction, Tail, Body, Negated, Value, TenTo, Times, HasSign, Parsed;
    var s := MantissaText(whole, point, fraction);
    assert s == whole + point + fraction && s + "" == s;
    NoSignAhead(whole, point, fraction, "");
    MantissaIsRead(whole, point, fraction, "");
    hide MantissaText, IsMantissa;
    SignIsTaken(sign, s);
    PlainParsed(sign + s);
  }

  lemma PlainParsed(col: string)
    requires Tail(Body(col)) == ""
    ensures var v := Times(Value(AllOf(Body(col))) as real, TenTo(-|Fraction(Body(col))|));
            Parsed(col) == Real(if Negated(col) then -v else v)
  {
    hide AllOf, Fraction, Tail, Body, Negated, Value, TenTo, Times;
  }

  /** With one: the letter, and behind it what an int column is read as that clamps. */
  lemma ExponentFloat(col: string, sign: string, whole: string, point: string, fraction: string, tail: string, e: int)
    requires col == sign + (whole + point + fraction + tail) && IsSign(sign) && IsMantissa(whole, point, fraction)
    requires tail != "" && (tail[0] == 'e' || tail[0] == 'E')
    requires Signed(SetToMaxOnOverflow, INT_LIMITS, tail[1..]) == Number(e)
    ensures AllDigits(whole + fraction)
    ensures var v := Times(Value(whole + fraction) as real, TenTo(e - |fraction|));
            Parsed(col) == if e == -0x8000_0000 then NegatedMin else Real(if sign == "-" then -v else v)
  {
    hide AllOf, Fraction, Tail, Body, Negated, Value, TenTo, Times, HasSign, Parsed, Signed, IsMantissa;
    TailIsRead(sign, whole, point, fraction, tail);
    ExponentParsed(col, whole + fraction, |fraction|, e);
  }

  /** That is the number its digits mean, brought into the range of int. */
  lemma ExponentIs(sign: string, digits: string)
    requires IsSign(sign) && AllDigits(digits)
    ensures var n := if sign == "-" then 0 - Value(digits) else Value(digits);
            Signed(SetToMaxOnOverflow, INT_LIMITS, sign + digits) ==
            Number(if n < -0x8000_0000 then -0x8000_0000 else if n > 0x7fff_ffff then 0x7fff_ffff else n)
  {
    SignedTexts(INT_LIMITS, sign, digits, SetToMaxOnOverflow);
    hide Value, Signed;
  }

  /** The parts of a text with an exponent. */
  lemma TailIsRead(sign: string, whole: string, point: string, fraction: string, tail: string)
    requires IsSign(sign) && IsMantissa(whole, point, fraction) && tail != "" && IsExponent(tail[0])
    ensures var col := sign + (whole + point + fraction + tail);
            && Tail(Body(col)) == tail && Fraction(Body(col)) == fraction && AllOf(Body(col)) == whole + fraction
            && (Negated(col) <==> sign == "-")
  {
    hide AllOf, Fraction, Tail, Body, Negated, HasSign;
    var s := MantissaText(whole, point, fraction);
    assert s == whole + point + fraction;
    NoSignAhead(whole, point, fraction, tail);
    MantissaIsRead(whole, point, fraction, tail);
    hide MantissaText, IsMantissa;
    SignIsTaken(sign, s + tail);
  }

  lemma ExponentParsed(col: string, all: string, behind: nat, e: int)
    requires var tail := Tail(Body(col));
             tail != "" && IsExponent(tail[0]) && Signed(SetToMaxOnOverflow, INT_LIMITS, tail[1..]) == Number(e)
    requires AllOf(Body(col)) == all && |Fraction(Body(col))| == behind
    ensures AllDigits(all)
    ensures var v := Times(Value(all) as real, TenTo(e - behind));
            Parsed(col) == if e == -0x8000_0000 then NegatedMin else Real(if Negated(col) then -v else v)
  {
    hide AllOf, Fraction, Tail, Body, Negated, Value, TenTo, Times, Signed;
  }

  /** Text that goes on with anything else is refused. */
  lemma OtherFloat(sign: string, whole: string, point: string, fraction: string, rest: string)
    requires IsSign(sign) && IsMantissa(whole, point, fraction) && rest != "" && EndsMantissa(rest)
    requires rest[0] != 'e' && rest[0] != 'E' && (sign + whole + point == "" ==> rest[0] != '+' && rest[0] != '-')
    ensures Parsed(sign + (whole + point + fraction + rest)) == NotAFloat
  {
    var s := MantissaText(whole, point, fraction) + rest;
    MantissaIsRead(whole, point, fraction, rest);
    FirstOfText(whole, point, fraction, rest);
    assert s == whole + point + fraction + rest;
    hide MantissaText;
    SignIsTaken(sign, s);
    hide MantissaText, AllOf, Fraction, Tail, Body, Negated, Value, TenTo, IsMantissa, Scientific;
  }

  // ----- the loops

  function Shifted(v: nat, n: nat): nat { v * Pow10(n) }

  lemma ShiftedNext(v: nat, n: nat)
    ensures Shifted(v, 0) == v && Shifted(v, n + 1) == 10 * Shifted(v, n)
  {
  }

  lemma {:induction false} ValueConcat(a: string, b: string)
    requires AllDigits(a) && AllDigits(b)
    ensures AllDigits(a + b) && Value(a + b) == Shifted(Value(a), |b|) + Value(b)
    decreases |b|
  {
    hide Shifted;
    if b == "" {
      assert a + b == a;
      ShiftedNext(Value(a), 0);
    } else {
      var c, d := b[..|b| - 1], b[|b| - 1];
      assert (a + b)[..|a + b| - 1] == a + c;
      ValueConcat(a, c);
      ShiftedNext(Value(a), |c|);
    }
  }

  lemma {:induction false} ShiftedIsTimes(v: nat, n: nat)
    ensures Shifted(v, n) as real == Times(v as real, TenTo(n))
  {
    if n > 0 {
      ShiftedIsTimes(v, n - 1);
      ShiftedNext(v, n - 1);
      TenToNext(n - 1);
      hide Shifted, TenTo;
      assert Times(v as real, 10.0 * TenTo(n - 1)) == 10.0 * Times(v as real, TenTo(n - 1));
    }
  }

  lemma ValueConcatReal(a: string, b: string)
    requires AllDigits(a) && AllDigits(b)
    ensures Value(a + b) as real == Times(Value(a) as real, TenTo(|b|)) + Value(b) as real
  {
    ValueConcat(a, b);
    ShiftedIsTimes(Value(a), |b|);
    hide Value, TenTo, Shifted, Times;
  }

  lemma TenToInverse(n: int)
    ensures Times(TenTo(n), TenTo(-n)) == 1.0
  {
    TenToSum(n, -n);
    TenToZero();
    hide TenTo;
  }

  lemma Distribute(v: real, up: real, f: real, down: real)
    requires Times(up, down) == 1.0
    ensures v + Times(f, down) == Times(Times(v, up) + f, down)
  {
    assert v * (up * down) == (v * up) * down;
  }

  function Num(digits: string): real
    requires AllDigits(digits)
  {
    Value(digits) as real
  }

  /** Digits with the last n of them behind the point. */
  function Pointed(digits: string, n: nat): real
    requires AllDigits(digits)
  {
    Times(Num(digits), TenTo(0 - n))
  }

  /** The mantissa in two parts, as the code adds it up. */
  lemma MantissaParts(whole: string, fraction: string)
    requires AllDigits(whole) && AllDigits(fraction)
    ensures Num(whole) + Pointed(fraction, |fraction|) == Pointed(whole + fraction, |fraction|)
  {
    ValueConcatReal(whole, fraction);
    TenToInverse(|fraction|);
    hide Value, TenTo, Times;
    Distribute(Num(whole), TenTo(|fraction|), Num(fraction), TenTo(-|fraction|));
  }

  /** The digits of col from position from on; x accumulates them. */
  method ReadWhole(col: string, from: nat) returns (x: real, i: nat)
    requires from <= |col|
    ensures from <= i <= |col| && col[i..] == AfterWhole(col[from..])
    ensures x == Num(Whole(col[from..]))
  {
    hide Value, DigitRun;
    ghost var s := col[from..];
    x, i := 0.0, from;
    ZeroDigits(s);
    while i < |col| && IsDigit(col[i])
      invariant from <= i <= |col| && AllDigits(s[..i - from]) && x == Value(s[..i - from]) as real
    {
      var y := DigitValue(col[i]);
      assert s[..i - from + 1] == s[..i - from] + [s[i - from]];
      ValueNext(s, i - from);
      x := x * 10.0;
      x := x + y as real;
      i := i + 1;
    }
    RunReaches(s, i - from);
  }

  /** The digits behind the point, each a tenth of the one before. */
  method ReadFraction(col: string, from: nat, whole: real) returns (x: real, i: nat)
    requires from <= |col|
    ensures from <= i <= |col| && col[i..] == AfterWhole(col[from..])
    ensures x == whole + Pointed(Whole(col[from..]), |Whole(col[from..])|)
  {
    hide Value, DigitRun, TenTo;
    ghost var s := col[from..];
    var pos := 1.0;
    x, i := whole, from;
    ZeroDigits(s);
    assert TenTo(0) == 1.0 by { TenToZero(); }
    while i < |col| && IsDigit(col[i])
      invariant from <= i <= |col| && AllDigits(s[..i - from]) && pos == TenTo(-(i - from))
      invariant x == whole + Value(s[..i - from]) as real * pos
    {
      ghost var n := i - from;
      assert s[..n + 1] == s[..n] + [s[n]];
      ValueNext(s, n);
      TenToNext(-n - 1);
      pos := pos / 10.0;
      var y := DigitValue(col[i]);
      i := i + 1;
      x := x + y as real * pos;
      Regroup(whole, Value(s[..n]) as real, y as real, pos);
    }
    RunReaches(s, i - from);
  }

  lemma TenToZero()
    ensures TenTo(0) == 1.0
  {
  }

  lemma Regroup(w: real, v: real, y: real, pos: real)
    ensures w + v * (10.0 * pos) + y * pos == w + (10.0 * v + y) * pos
  {
  }

  /** Scaling by repeated squaring: x times base to the power e stays the same while e falls to one. */
  method Scale(whole: real, exponent: int) returns (x: real)
    requires exponent != 0
    ensures x == Times(whole, TenTo(exponent))
  {
    x := whole;
    var e, base := exponent, 10.0;
    if e < 0 {
      base, e := 0.1, -e;
    }
    assert x * Pow(base, e) == whole * TenTo(exponent);
    while e != 1
      invariant e >= 1 && x * Pow(base, e) == whole * TenTo(exponent)
      decreases e
    {
      if e % 2 == 0 {
        PowSquare(base, e / 2);
        base := base * base;
        e := e / 2;
      } else {
        PowStep(x, base, e);
        x := x * base;
        e := e - 1;
      }
    }
    PowStep(x, base, 1);
    assert Pow(base, 0) == 1.0;
    x := x * base;
  }

  lemma MantissaSum(body: string)
    ensures HasPoint(body) ==>
              Pointed(AllOf(body), |Fraction(body)|) == Num(Whole(body)) + Pointed(Fraction(body), |Fraction(body)|)
    ensures !HasPoint(body) ==> Pointed(AllOf(body), |Fraction(body)|) == Num(Whole(body))
  {
    MantissaParts(Whole(body), Fraction(body));
    if !HasPoint(body) {
      assert Value(Fraction(body)) == 0;
      TimesNothing(TenTo(0));
    }
    hide Value, TenTo, Times, Whole;
  }

  /** Both runs of digits. */
  method ReadMantissa(col: string, from: nat) returns (x: real, i: nat)
    requires from <= |col|
    ensures from <= i <= |col| && col[i..] == Tail(col[from..])
    ensures x == Pointed(AllOf(col[from..]), |Fraction(col[from..])|)
  {
    ghost var body := col[from..];
    MantissaSum(body);
    hide Num, Pointed, AllOf, Whole, AfterWhole, HasPoint, Fraction, Tail;
    x, i := ReadWhole(col, from);
    PointAt(col, body, i);
    if i < |col| && (col[i] == '.' || col[i] == ',') {
      x, i := ReadFraction(col, i + 1, x);
    }
  }

  lemma PointAt(col: string, body: string, i: nat)
    requires i <= |col| && col[i..] == AfterWhole(body)
    ensures HasPoint(body) <==> i < |col| && (col[i] == '.' || col[i] == ',')
    ensures HasPoint(body) ==> Fraction(body) == Whole(col[i + 1..]) && Tail(body) == AfterWhole(col[i + 1..])
    ensures !HasPoint(body) ==> Tail(body) == col[i..]
  {
    hide Whole, AfterWhole;
    if i < |col| { assert col[i..][0] == col[i] && col[i..][1..] == col[i + 1..]; }
  }

  lemma TimesNothing(b: real)
    ensures Times(0.0, b) == 0.0
  {
  }

  lemma TimesAssociates(a: real, b: real, c: real)
    ensures Times(Times(a, b), c) == Times(a, Times(b, c))
  {
  }

  lemma ScaledMantissa(body: string, e: int)
    ensures Times(Pointed(AllOf(body), |Fraction(body)|), TenTo(e)) == Magnitude(body, e)
  {
    hide TenTo, AllOf, Fraction, Value;
    var n := |Fraction(body)|;
    TenToSum(0 - n, e);
    assert Times(TenTo(0 - n), TenTo(e)) == TenTo(e - n);
    hide Times;
    TimesAssociates(Num(AllOf(body)), TenTo(0 - n), TenTo(e));
  }

  /** parse_float. */
  method ParseFloat(col: string) returns (r: Float)
    ensures r == Parsed(col)
  {
    hide TenTo, Times, Pointed, AllOf, Fraction, Tail, Signed, Magnitude;
    var negative := col != "" && col[0] == '-';
    var i := if HasSign(col) then 1 else 0;
    ghost var body := Body(col);
    assert col[i..] == body;
    var x;
    x, i := ReadMantissa(col, i);
    ghost var tail := Tail(body);
    if i < |col| && (col[i] == 'e' || col[i] == 'E') {
      assert col[i + 1..] == tail[1..] && tail[0] == col[i];
      var parsed := ParseSigned(SetToMaxOnOverflow, INT_LIMITS, col[i + 1..]);
      if !parsed.Number? {
        return NotAFloat;
      }
      var e := parsed.x;
      if e == INT_LIMITS.min {
        return NegatedMin;
      }
      TimesOne(x);
      ScaledMantissa(body, e);
      if e != 0 {
        x := Scale(x, e);
      }
    } else if i < |col| {
      assert tail[0] == col[i];
      return NotAFloat;
    } else {
      TimesOne(x);
      ScaledMantissa(body, 0);
    }
    if negative {
      x := -x;
    }
    r := Real(x);
  }

  lemma TimesOne(x: real)
    ensures Times(x, TenTo(0)) == x
  {
  }
}
