/**
 Exact decimals: the number grammar of section 6 of RFC 8259, and numbers compared by value
 (ext-pi/src/manager/json.ts).
 */
module Decimals {
  import opened Prelude

  predicate AllDigits(s: string) { forall i :: 0 <= i < |s| ==> IsDigit(s[i]) }

  // ---- The grammar ----

  datatype Power = Power(letter: char, sign: string, digits: string)

  /** The parts that the number expression captures; an absent part is `None`. */
  datatype Number = Number(negative: bool, whole: string, fraction: Option<string>, power: Option<Power>)

  predicate IsWhole(s: string) { IsDecimal(s) }

  predicate IsLetter(c: char) { c == 'e' || c == 'E' }

  predicate IsFraction(fraction: Option<string>) {
    fraction.Some? ==> fraction.value != "" && AllDigits(fraction.value)
  }

  predicate IsPower(power: Option<Power>) {
    power.Some? ==>
      && IsLetter(power.value.letter)
      && (power.value.sign == "" || power.value.sign == "+" || power.value.sign == "-")
      && power.value.digits != "" && AllDigits(power.value.digits)
  }

  predicate InGrammar(n: Number) { IsWhole(n.whole) && IsFraction(n.fraction) && IsPower(n.power) }

  /** The text of a number, as the grammar writes it. */
  function Text(n: Number): string {
    (if n.negative then "-" else "") + UnsignedText(n)
  }

  function UnsignedText(n: Number): string { n.whole + (FractionText(n.fraction) + PowerText(n.power)) }

  /** An absent fraction has no digits. */
  function FractionDigits(fraction: Option<string>): string {
    match fraction case None => "" case Some(digits) => digits
  }

  function FractionText(fraction: Option<string>): string {
    match fraction case None => "" case Some(digits) => "." + digits
  }

  function PowerText(power: Option<Power>): string {
    match power case None => "" case Some(p) => [p.letter] + p.sign + p.digits
  }

  // ---- The matcher ----

  /** The number of leading digits. */
  function DigitRun(s: string): (n: nat)
    ensures n <= |s| && AllDigits(s[..n]) && (n < |s| ==> !IsDigit(s[n]))
  {
    if s == "" || !IsDigit(s[0]) then 0
    else
      var n := 1 + DigitRun(s[1..]);
      assert forall i :: 0 < i < n ==> s[..n][i] == s[1..][..n - 1][i - 1];
      n
  }

  function MatchPower(s: string): Option<Option<Power>> {
    if s == "" then Some(None)
    else if !IsLetter(s[0]) then None
    else
      var sign := if |s| > 1 && (s[1] == '+' || s[1] == '-') then [s[1]] else "";
      var digits := s[1 + |sign|..];
      if digits != "" && DigitRun(digits) == |digits| then Some(Some(Power(s[0], sign, digits))) else None
  }

  function MatchFraction(s: string): Option<(Option<string>, string)> {
    if s == "" || s[0] != '.' then Some((None, s))
    else
      var n := DigitRun(s[1..]);
      if n == 0 then None else Some((Some(s[1..][..n]), s[1..][n..]))
  }

  function MatchWhole(s: string): Option<(string, string)> {
    var n := if s != "" && s[0] == '0' then 1 else DigitRun(s);
    if n == 0 then None else Some((s[..n], s[n..]))
  }

  function MatchUnsigned(negative: bool, s: string): Option<Number> {
    match MatchWhole(s)
    case None => None
    case Some((whole, rest)) =>
      match MatchFraction(rest)
      case None => None
      case Some((fraction, more)) =>
        match MatchPower(more)
        case None => None
        case Some(power) => Some(Number(negative, whole, fraction, power))
  }

  /** The expression that captures sign, whole part, fraction and power; `None` when a text is not a number. */
  function Match(s: string): Option<Number> {
    if s != "" && s[0] == '-' then MatchUnsigned(true, s[1..]) else MatchUnsigned(false, s)
  }

  lemma {:induction false} DigitRunIs(a: string, b: string)
    requires AllDigits(a) && (b != "" ==> !IsDigit(b[0]))
    ensures DigitRun(a + b) == |a|
  {
    if a == "" {
      assert a + b == b;
    } else {
      assert IsDigit(a[0]) && (a + b)[1..] == a[1..] + b;
      DigitRunIs(a[1..], b);
    }
  }

  lemma MatchPowerIs(power: Option<Power>)
    requires IsPower(power)
    ensures MatchPower(PowerText(power)) == Some(power)
    ensures PowerText(power) != "" ==> IsLetter(PowerText(power)[0])
  {
    if power.Some? {
      var p := power.value;
      var s := PowerText(power);
      assert s[1..] == p.sign + p.digits;
      assert p.sign == "" ==> IsDigit(s[1]);
      assert s[1 + |p.sign|..] == p.digits;
      DigitRunIs(p.digits, "");
      assert p.digits + "" == p.digits;
    }
  }

  lemma MatchFractionIs(fraction: Option<string>, more: string)
    requires IsFraction(fraction)
    requires more != "" ==> IsLetter(more[0])
    ensures MatchFraction(FractionText(fraction) + more) == Some((fraction, more))
    ensures FractionText(fraction) + more != "" ==> !IsDigit((FractionText(fraction) + more)[0])
  {
    match fraction
    case None => assert "" + more == more;
    case Some(digits) =>
      DigitRunIs(digits, more);
      assert (FractionText(fraction) + more)[1..] == digits + more;
      assert (digits + more)[..|digits|] == digits && (digits + more)[|digits|..] == more;
  }

  lemma MatchWholeIs(whole: string, rest: string)
    requires IsWhole(whole) && (rest != "" ==> !IsDigit(rest[0]))
    ensures MatchWhole(whole + rest) == Some((whole, rest))
  {
    assert IsDigit(whole[0]) && (whole + rest)[0] == whole[0];
    DigitRunIs(whole, rest);
    assert (whole + rest)[..|whole|] == whole && (whole + rest)[|whole|..] == rest;
  }

  lemma WholeIsMatched(s: string)
    requires MatchWhole(s).Some?
    ensures IsWhole(MatchWhole(s).value.0) && s == MatchWhole(s).value.0 + MatchWhole(s).value.1
  {
    var n := DigitRun(s);
    assert AllDigits(s[..n]);
    assert s[..n][0] == s[0];
  }

  lemma FractionIsMatched(s: string)
    requires MatchFraction(s).Some?
    ensures IsFraction(MatchFraction(s).value.0)
    ensures s == FractionText(MatchFraction(s).value.0) + MatchFraction(s).value.1
  {
  }

  lemma PowerIsMatched(s: string)
    requires MatchPower(s).Some?
    ensures IsPower(MatchPower(s).value) && s == PowerText(MatchPower(s).value)
  {
    if s != "" {
      var sign := if |s| > 1 && (s[1] == '+' || s[1] == '-') then [s[1]] else "";
      var digits := s[1 + |sign|..];
      assert digits[..|digits|] == digits;
      assert s == [s[0]] + sign + digits;
    }
  }

  /** A text of the grammar is matched, part by part. */
  lemma UnsignedIsMatched(n: Number)
    requires InGrammar(n)
    ensures MatchUnsigned(n.negative, UnsignedText(n)) == Some(n)
  {
    MatchPowerIs(n.power);
    MatchFractionIs(n.fraction, PowerText(n.power));
    MatchWholeIs(n.whole, FractionText(n.fraction) + PowerText(n.power));
    hide MatchPower, MatchFraction, MatchWhole, PowerText, FractionText, IsWhole, IsFraction, IsPower;
  }

  lemma GrammarIsMatched(n: Number)
    requires InGrammar(n)
    ensures Match(Text(n)) == Some(n)
  {
    UnsignedIsMatched(n);
    var rest := UnsignedText(n);
    assert IsDigit(n.whole[0]) && rest[0] == n.whole[0];
    hide MatchUnsigned, UnsignedText;
    assert (if n.negative then Text(n)[1..] else Text(n)) == rest;
  }

  lemma UnsignedIsInGrammar(negative: bool, s: string)
    requires MatchUnsigned(negative, s).Some?
    ensures var n := MatchUnsigned(negative, s).value; InGrammar(n) && n.negative == negative && UnsignedText(n) == s
  {
    WholeIsMatched(s);
    FractionIsMatched(MatchWhole(s).value.1);
    PowerIsMatched(MatchFraction(MatchWhole(s).value.1).value.1);
    hide MatchPower, MatchFraction, MatchWhole, PowerText, FractionText, IsWhole, IsFraction, IsPower;
  }

  lemma MatchedIsInGrammar(s: string)
    requires Match(s).Some?
    ensures InGrammar(Match(s).value) && Text(Match(s).value) == s
  {
    var negative := s != "" && s[0] == '-';
    UnsignedIsInGrammar(negative, if negative then s[1..] else s);
    hide MatchUnsigned, UnsignedText, InGrammar;
  }

  /** The matcher accepts exactly the texts of the grammar, and a text has one reading only. */
  lemma MatchIsGrammar(s: string, n: Number)
    ensures Match(s) == Some(n) <==> InGrammar(n) && Text(n) == s
  {
    hide Match, Text, InGrammar;
    if InGrammar(n) && Text(n) == s { GrammarIsMatched(n); }
    if Match(s) == Some(n) { MatchedIsInGrammar(s); }
  }

  predicate IsNumber(s: string) { Match(s).Some? }

  // ---- Values ----

  /** x times ten to the power e. */
  function Scaled(x: real, e: int): real
    decreases if e < 0 then -e else e
  {
    if e == 0 then x else if e > 0 then 10.0 * Scaled(x, e - 1) else Scaled(x, e + 1) / 10.0
  }

  /** The value of the digits after a decimal point. */
  function FractionValue(s: string): real
    requires AllDigits(s)
  {
    if s == "" then 0.0 else assert IsDigit(s[0]); ((s[0] as int - '0' as int) as real + FractionValue(s[1..])) / 10.0
  }

  function PowerValue(power: Option<Power>): int
    requires power.Some? ==> AllDigits(power.value.digits)
  {
    match power case None => 0 case Some(p) => if p.sign == "-" then 0 - DigitsValue(p.digits)
                                               else DigitsValue(p.digits)
  }

  /** The real number that a number text denotes: whole part and fraction, scaled by its power of ten. */
  function Value(n: Number): real
    requires InGrammar(n)
  {
    var magnitude := Scaled(DigitsValue(n.whole) as real + FractionValue(FractionDigits(n.fraction)),
                            PowerValue(n.power));
    if n.negative then -magnitude else magnitude
  }

  lemma ScaledNext(x: real, e: int)
    ensures Scaled(x, e + 1) == 10.0 * Scaled(x, e)
  {
  }

  lemma {:induction false} ScaledTwice(x: real, a: int, b: int)
    ensures Scaled(Scaled(x, a), b) == Scaled(x, a + b)
    decreases if b < 0 then -b else b
  {
    if b > 0 {
      ScaledTwice(x, a, b - 1);
      ScaledNext(x, a + b - 1);
    } else if b < 0 {
      ScaledTwice(x, a, b + 1);
      ScaledNext(x, a + b);
    }
  }

  lemma {:induction false} ScaledSum(x: real, y: real, e: int)
    ensures Scaled(x + y, e) == Scaled(x, e) + Scaled(y, e)
    decreases if e < 0 then -e else e
  {
    if e > 0 { ScaledSum(x, y, e - 1); } else if e < 0 { ScaledSum(x, y, e + 1); }
  }

  /** Scaling keeps zero and the sign, so it is injective. */
  lemma {:induction false} ScaledSign(x: real, e: int)
    ensures (x > 0.0 <==> Scaled(x, e) > 0.0) && (x < 0.0 <==> Scaled(x, e) < 0.0)
    decreases if e < 0 then -e else e
  {
    if e > 0 { ScaledSign(x, e - 1); } else if e < 0 { ScaledSign(x, e + 1); }
  }

  lemma ScaledInjective(x: real, y: real, e: int)
    requires Scaled(x, e) == Scaled(y, e)
    ensures x == y
  {
    ScaledSum(x, -y, e);
    ScaledSum(y, -y, e);
    ScaledSign(x - y, e);
    ScaledSign(y - y, e);
  }

  lemma {:induction false} DigitsAppend(a: string, b: string)
    requires AllDigits(a) && AllDigits(b)
    ensures AllDigits(a + b)
    ensures DigitsValue(a + b) as real == Scaled(DigitsValue(a) as real, |b|) + DigitsValue(b) as real
  {
    if b == "" {
      assert a + b == a;
    } else {
      var init := b[..|b| - 1];
      assert (a + b)[..|a + b| - 1] == a + init;
      DigitsAppend(a, init);
    }
  }

  lemma {:induction false} FractionIsDigits(s: string)
    requires AllDigits(s)
    ensures FractionValue(s) == Scaled(DigitsValue(s) as real, -|s|)
  {
    if s != "" {
      FractionIsDigits(s[1..]);
      DigitsAppend([s[0]], s[1..]);
      assert [s[0]] + s[1..] == s && [s[0]][..0] == "";
      var d, f, n := (s[0] as int - '0' as int) as real, DigitsValue(s[1..]) as real, |s| - 1;
      assert DigitsValue([s[0]]) as real == d;
      ScaledSum(Scaled(d, n), f, -n);
      ScaledTwice(d, n, -n);
      ScaledNext(DigitsValue(s) as real, -|s|);
    }
  }

  // ---- Normal forms ----

  datatype Decimal = Decimal(negative: bool, digits: string, exponent: int)

  function DecimalValue(d: Decimal): real
    requires AllDigits(d.digits)
  {
    var magnitude := Scaled(DigitsValue(d.digits) as real, d.exponent);
    if d.negative then -magnitude else magnitude
  }

  function DropLeadingZeros(s: string): (r: string)
    ensures AllDigits(s) ==> AllDigits(r)
    ensures r != "" ==> r[0] != '0'
    ensures |r| <= |s|
  {
    if s != "" && s[0] == '0' then DropLeadingZeros(s[1..]) else s
  }

  function DropTrailingZeros(s: string): (r: string)
    ensures r <= s
    ensures r != "" ==> r[|r| - 1] != '0'
    ensures forall i :: |r| <= i < |s| ==> s[i] == '0'
  {
    if s != "" && s[|s| - 1] == '0' then DropTrailingZeros(s[..|s| - 1]) else s
  }

  /** Strip the zeros of a coefficient on both sides; a coefficient of zeros is zero, without a sign. */
  function Normalized(negative: bool, coefficient: string, exponent: int): Decimal {
    var digits := DropLeadingZeros(coefficient);
    if digits == "" then Decimal(false, "0", 0)
    else Decimal(negative, DropTrailingZeros(digits), exponent + |digits| - |DropTrailingZeros(digits)|)
  }

  function DecimalOf(n: Number): Decimal
    requires InGrammar(n)
  {
    var fraction := FractionDigits(n.fraction);
    Normalized(n.negative, n.whole + fraction, PowerValue(n.power) - |fraction|)
  }

  predicate Normal(d: Decimal) {
    && AllDigits(d.digits) && d.digits != ""
    && (d.digits == "0" ==> !d.negative && d.exponent == 0)
    && (d.digits != "0" ==> d.digits[0] != '0' && d.digits[|d.digits| - 1] != '0')
  }

  lemma {:induction false} LeadingZerosAreNothing(s: string)
    requires AllDigits(s)
    ensures DigitsValue(DropLeadingZeros(s)) == DigitsValue(s)
  {
    if s != "" && s[0] == '0' {
      LeadingZerosAreNothing(s[1..]);
      assert [s[0]] + s[1..] == s && [s[0]][..0] == "";
      DigitsAppend([s[0]], s[1..]);
      assert DigitsValue([s[0]]) == 0;
      ScaledSign(0.0, |s| - 1);
    }
  }

  lemma {:induction false} TrailingZerosScale(s: string)
    requires AllDigits(s)
    ensures DigitsValue(s) as real == Scaled(DigitsValue(DropTrailingZeros(s)) as real, |s| - |DropTrailingZeros(s)|)
  {
    if s != "" && s[|s| - 1] == '0' {
      TrailingZerosScale(s[..|s| - 1]);
    }
  }

  lemma {:induction false} ValueIsPositive(s: string)
    requires AllDigits(s) && s != "" && s[0] != '0'
    ensures DigitsValue(s) > 0
  {
    assert IsDigit(s[0]);
    if |s| > 1 { ValueIsPositive(s[..|s| - 1]); }
  }

  lemma NormalizedKeepsValue(negative: bool, coefficient: string, exponent: int)
    requires AllDigits(coefficient)
    ensures Normal(Normalized(negative, coefficient, exponent))
    ensures DecimalValue(Normalized(negative, coefficient, exponent))
            == DecimalValue(Decimal(negative, coefficient, exponent))
  {
    var digits := DropLeadingZeros(coefficient);
    LeadingZerosAreNothing(coefficient);
    if digits == "" {
      ZeroIsZero();
      ScaledSign(0.0, exponent);
    } else {
      TrailingZerosAreScaling(digits, exponent);
      var kept := DropTrailingZeros(digits);
      assert kept != "" by { assert digits[0] != '0'; }
      assert kept[0] == digits[0];
    }
  }

  /** The normal form of a number keeps its value exactly. */
  lemma DecimalKeepsValue(n: Number)
    requires InGrammar(n)
    ensures Normal(DecimalOf(n)) && DecimalValue(DecimalOf(n)) == Value(n)
  {
    var fraction, power := FractionDigits(n.fraction), PowerValue(n.power);
    PointIsScaling(n.whole, fraction, power);
    NormalizedKeepsValue(n.negative, n.whole + fraction, power - |fraction|);
    hide Normalized, FractionValue, DigitsValue, Scaled, PowerValue;
  }

  /** Whole part and fraction are the digits without the point, scaled down by the length of the fraction. */
  lemma PointIsScaling(whole: string, fraction: string, power: int)
    requires AllDigits(whole) && AllDigits(fraction)
    ensures AllDigits(whole + fraction)
    ensures Scaled(DigitsValue(whole + fraction) as real, power - |fraction|)
            == Scaled(DigitsValue(whole) as real + FractionValue(fraction), power)
  {
    var w, f, n := DigitsValue(whole) as real, DigitsValue(fraction) as real, |fraction|;
    DigitsAppend(whole, fraction);
    FractionIsDigits(fraction);
    ScaledSum(Scaled(w, n), f, -n);
    ScaledTwice(w, n, -n);
    ScaledTwice(DigitsValue(whole + fraction) as real, -n, power);
  }

  lemma TrailingZerosAreScaling(digits: string, exponent: int)
    requires AllDigits(digits)
    ensures var kept := DropTrailingZeros(digits);
            Scaled(DigitsValue(kept) as real, exponent + |digits| - |kept|)
              == Scaled(DigitsValue(digits) as real, exponent)
  {
    TrailingZerosScale(digits);
    ScaledTwice(DigitsValue(DropTrailingZeros(digits)) as real, |digits| - |DropTrailingZeros(digits)|, exponent);
  }

  // ---- Uniqueness ----

  /** Digits without a leading zero are determined by their value. */
  lemma {:induction false} DigitsAreUnique(a: string, b: string)
    requires AllDigits(a) && AllDigits(b)
    requires a != "" ==> a[0] != '0'
    requires b != "" ==> b[0] != '0'
    requires DigitsValue(a) == DigitsValue(b)
    ensures a == b
  {
    if a == "" || b == "" {
      if a != "" { ValueIsPositive(a); }
      if b != "" { ValueIsPositive(b); }
    } else {
      assert IsDigit(a[|a| - 1]) && IsDigit(b[|b| - 1]);
      DigitsAreUnique(a[..|a| - 1], b[..|b| - 1]);
      assert a == a[..|a| - 1] + [a[|a| - 1]] && b == b[..|b| - 1] + [b[|b| - 1]];
    }
  }

  function TimesPow10(d: int, n: nat): int {
    if n == 0 then d else 10 * TimesPow10(d, n - 1)
  }

  lemma {:induction false} ScaledInteger(d: int, n: nat)
    ensures Scaled(d as real, n) == TimesPow10(d, n) as real
  {
    if n > 0 { ScaledInteger(d, n - 1); }
  }

  /** With equal value, neither exponent can be the greater: the other coefficient would end in zero. */
  lemma ExponentsAgree(x: Decimal, y: Decimal)
    requires Normal(x) && Normal(y) && x.digits != "0" && y.digits != "0"
    requires Scaled(DigitsValue(x.digits) as real, x.exponent) == Scaled(DigitsValue(y.digits) as real, y.exponent)
    ensures x.exponent >= y.exponent
  {
    if x.exponent < y.exponent {
      var gap: nat := y.exponent - x.exponent;
      var a, b := DigitsValue(x.digits), DigitsValue(y.digits);
      LastDigit(x.digits);
      MultipleOfTen(b, gap);
      ScaledInteger(b, gap);
      ScaledTwice(b as real, gap, x.exponent);
      ScaledInjective(a as real, Scaled(b as real, gap), x.exponent);
    }
  }

  lemma LastDigit(s: string)
    requires AllDigits(s) && s != ""
    ensures DigitsValue(s) % 10 == s[|s| - 1] as int - '0' as int
  {
    assert IsDigit(s[|s| - 1]);
  }

  lemma MultipleOfTen(d: int, n: nat)
    requires n > 0
    ensures TimesPow10(d, n) % 10 == 0
  {
  }

  /** Two normal forms of the same value are the same. */
  lemma NormalFormIsUnique(x: Decimal, y: Decimal)
    requires Normal(x) && Normal(y) && DecimalValue(x) == DecimalValue(y)
    ensures x == y
  {
    ZeroIsZero();
    if x.digits != "0" { NormalIsNotZero(x); }
    if y.digits != "0" { NormalIsNotZero(y); }
    if x.digits != "0" && y.digits != "0" {
      ExponentsAgree(x, y);
      ExponentsAgree(y, x);
      ScaledInjective(DigitsValue(x.digits) as real, DigitsValue(y.digits) as real, x.exponent);
      DigitsAreUnique(x.digits, y.digits);
    }
  }

  lemma ZeroIsZero()
    ensures DigitsValue("0") == 0
  {
    assert "0"[..0] == "";
  }

  lemma NormalIsNotZero(d: Decimal)
    requires Normal(d) && d.digits != "0"
    ensures Scaled(DigitsValue(d.digits) as real, d.exponent) > 0.0
  {
    ValueIsPositive(d.digits);
    ScaledSign(DigitsValue(d.digits) as real, d.exponent);
  }

  /** Equality by normal form is equality of value. */
  lemma NumberEqualIsValueEqual(a: Number, b: Number)
    requires InGrammar(a) && InGrammar(b)
    ensures DecimalOf(a) == DecimalOf(b) <==> Value(a) == Value(b)
  {
    DecimalKeepsValue(a);
    DecimalKeepsValue(b);
    if Value(a) == Value(b) { NormalFormIsUnique(DecimalOf(a), DecimalOf(b)); }
  }

  // ---- Integers in a range ----

  function DigitText(n: nat): (s: string)
    ensures AllDigits(s) && s != "" && DigitsValue(s) == n && (n > 0 ==> s[0] != '0')
  {
    if n < 10 then
      assert [('0' as int + n) as char][..0] == "";
      [('0' as int + n) as char]
    else
      var s := DigitText(n / 10) + [('0' as int + n % 10) as char];
      assert s[..|s| - 1] == DigitText(n / 10);
      s
  }

  /** The decimal text of an integer, as `toString` writes it. */
  function IntegerText(v: int): string {
    if v < 0 then "-" + DigitText(-v) else DigitText(v)
  }

  function Magnitude(d: Decimal): int
    requires AllDigits(d.digits) && d.exponent >= 0
  {
    TimesPow10(DigitsValue(d.digits), d.exponent)
  }

  /** The integer in the closed range that a number denotes, if any, without computing large powers. */
  function BoundedInteger(n: Number, minimum: int, maximum: int): Option<int>
    requires InGrammar(n)
  {
    var d := DecimalOf(n);
    DecimalKeepsValue(n);
    if d.exponent < 0 then None
    else
      var a, b := |IntegerText(minimum)|, |IntegerText(maximum)|;
      var limit := if a < b then b else a;
      if |d.digits| + d.exponent > limit then None
      else
        var v := if d.negative then 0 - Magnitude(d) else Magnitude(d);
        if minimum <= v <= maximum then Some(v) else None
  }

  /** Digits without a leading zero are at least the power of ten of their length; any digits are below the next one. */
  lemma {:induction false} DigitsBounds(s: string)
    requires AllDigits(s) && s != ""
    ensures DigitsValue(s) < TimesPow10(1, |s|)
    ensures s[0] != '0' ==> DigitsValue(s) >= TimesPow10(1, |s| - 1)
  {
    var init := s[..|s| - 1];
    assert IsDigit(s[|s| - 1]) && DigitsValue(s) <= 10 * DigitsValue(init) + 9;
    if |s| > 1 { DigitsBounds(init); }
  }

  lemma {:induction false} TimesPow10Add(d: int, a: nat, b: nat)
    ensures TimesPow10(TimesPow10(d, a), b) == TimesPow10(d, a + b)
  {
    if b > 0 { TimesPow10Add(d, a, b - 1); }
  }

  lemma {:induction false} TimesPow10Monotone(c: int, d: int, n: nat)
    requires c <= d
    ensures TimesPow10(c, n) <= TimesPow10(d, n)
  {
    if n > 0 { TimesPow10Monotone(c, d, n - 1); }
  }

  lemma {:induction false} Pow10Monotone(a: nat, b: nat)
    requires a <= b
    ensures 1 <= TimesPow10(1, a) <= TimesPow10(1, b)
  {
    if b > a { Pow10Monotone(a, b - 1); } else if a > 0 { Pow10Monotone(a - 1, b - 1); }
  }

  lemma IntegerTextBound(v: int)
    ensures -TimesPow10(1, |IntegerText(v)|) < v < TimesPow10(1, |IntegerText(v)|)
  {
    var digits := DigitText(if v < 0 then -v else v);
    DigitsBounds(digits);
    Pow10Monotone(|digits|, |IntegerText(v)|);
  }

  lemma MagnitudeIsLong(d: Decimal)
    requires Normal(d) && d.exponent >= 0 && d.digits != "0"
    ensures Magnitude(d) >= TimesPow10(1, |d.digits| + d.exponent - 1)
  {
    DigitsBounds(d.digits);
    TimesPow10Monotone(TimesPow10(1, |d.digits| - 1), DigitsValue(d.digits), d.exponent);
    TimesPow10Add(1, |d.digits| - 1, d.exponent);
  }

  lemma BoundIsShort(magnitude: int, length: nat, bound: int)
    requires magnitude >= TimesPow10(1, length) && length >= |IntegerText(bound)|
    ensures magnitude > bound && -magnitude < bound
  {
    IntegerTextBound(bound);
    Pow10Monotone(|IntegerText(bound)|, length);
    hide IntegerText;
  }

  /** A coefficient longer than every bound of the range lies outside of it, so the cut-off rejects nothing in range. */
  lemma LongIsOutside(d: Decimal, v: int, minimum: int, maximum: int)
    requires Normal(d) && d.exponent >= 0 && minimum <= v <= maximum
    requires v == (if d.negative then 0 - Magnitude(d) else Magnitude(d))
    ensures |d.digits| + d.exponent <= |IntegerText(minimum)| || |d.digits| + d.exponent <= |IntegerText(maximum)|
  {
    if d.digits != "0" {
      var length, m := |d.digits| + d.exponent, Magnitude(d);
      assert v == m || v == -m;
      MagnitudeIsLong(d);
      hide Normal, Magnitude, IntegerText, TimesPow10, AllDigits;
      if length > |IntegerText(minimum)| && length > |IntegerText(maximum)| {
        BoundIsShort(m, length - 1, minimum);
        BoundIsShort(m, length - 1, maximum);
      }
    } else {
      IntegerTextIsText(minimum);
    }
  }

  lemma IntegerTextIsText(v: int)
    ensures IntegerText(v) != ""
  {
  }

  /**
   A number that has an integer value has no negative exponent in its normal form, and the magnitude is that integer's.
   */
  lemma IntegralNormalForm(d: Decimal, v: int)
    requires Normal(d) && DecimalValue(d) == v as real
    ensures d.exponent >= 0 && v == (if d.negative then 0 - Magnitude(d) else Magnitude(d))
  {
    var c := DigitsValue(d.digits);
    if d.exponent < 0 {
      var gap: nat := -d.exponent;
      var magnitude := if d.negative then -v else v;
      LastDigit(d.digits);
      MultipleOfTen(magnitude, gap);
      ScaledInteger(magnitude, gap);
      ScaledTwice(c as real, d.exponent, gap);
    } else {
      ScaledInteger(c, d.exponent);
    }
  }

  lemma InRangeIsFound(n: Number, minimum: int, maximum: int, v: int)
    requires InGrammar(n) && Value(n) == v as real && minimum <= v <= maximum
    ensures BoundedInteger(n, minimum, maximum) == Some(v)
  {
    hide DecimalOf, Value, DecimalValue, Normal, IntegerText, Magnitude;
    DecimalKeepsValue(n);
    var d := DecimalOf(n);
    IntegralNormalForm(d, v);
    LongIsOutside(d, v, minimum, maximum);
  }

  lemma FoundIsInRange(n: Number, minimum: int, maximum: int)
    requires InGrammar(n) && BoundedInteger(n, minimum, maximum).Some?
    ensures var v := BoundedInteger(n, minimum, maximum).value; Value(n) == v as real && minimum <= v <= maximum
  {
    DecimalKeepsValue(n);
    var d := DecimalOf(n);
    hide DecimalOf, Value, Normal, IntegerText;
    ScaledInteger(DigitsValue(d.digits), d.exponent);
  }

  /** The bounded integer is v exactly when the value is the integer v and v lies in the range. */
  lemma BoundedIntegerIsExact(n: Number, minimum: int, maximum: int, v: int)
    requires InGrammar(n)
    ensures BoundedInteger(n, minimum, maximum) == Some(v) <==> Value(n) == v as real && minimum <= v <= maximum
  {
    hide Value, BoundedInteger, InGrammar;
    if Value(n) == v as real && minimum <= v <= maximum { InRangeIsFound(n, minimum, maximum, v); }
    if BoundedInteger(n, minimum, maximum) == Some(v) { FoundIsInRange(n, minimum, maximum); }
  }

  function IntegerNumber(v: int): Number {
    Number(v < 0, DigitText(if v < 0 then -v else v), None, None)
  }

  lemma IntegerNumberText(v: int)
    ensures InGrammar(IntegerNumber(v)) && Text(IntegerNumber(v)) == IntegerText(v)
  {
    DigitTextIsDecimal(if v < 0 then -v else v);
    hide DigitText, DigitsValue, IsDecimal;
  }

  lemma IntegerNumberValue(v: int)
    requires InGrammar(IntegerNumber(v))
    ensures Value(IntegerNumber(v)) == v as real
  {
    var magnitude := if v < 0 then -v else v;
    var digits := DigitText(magnitude);
    assert DigitsValue(digits) == magnitude;
    hide DigitText, DigitsValue, InGrammar;
    assert FractionValue("") == 0.0;
  }

  lemma DigitTextIsDecimal(n: nat)
    ensures IsDecimal(DigitText(n))
  {
    assert n == 0 ==> DigitText(n) == "0";
  }

  /** The number of an integer, and the way back. */
  lemma IntegerRoundTrip(v: int, minimum: int, maximum: int)
    requires minimum <= v <= maximum
    ensures IsNumber(IntegerText(v)) && BoundedInteger(Match(IntegerText(v)).value, minimum, maximum) == Some(v)
  {
    var n := IntegerNumber(v);
    IntegerNumberText(v);
    IntegerNumberValue(v);
    hide IntegerNumber, IntegerText, Match, Text, BoundedInteger, Value, InGrammar;
    MatchIsGrammar(IntegerText(v), n);
    BoundedIntegerIsExact(n, minimum, maximum, v);
  }
}
