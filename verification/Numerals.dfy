/** Numbers as expr.c reads them: strlong (expr.c:1551-1636), with octal, hexadecimal and base#digits. */
module Numerals {
  import opened Wrappers
  import opened Int64
  import opened Decimal

  datatype NumError = InvalidNumber | InvalidBase | InvalidConstant | TooGreatForBase

  predicate IsLower(c: char) { 'a' <= c <= 'z' }

  predicate IsUpper(c: char) { 'A' <= c <= 'Z' }

  predicate ValidNumChar(c: char) {
    IsDigit(c) || IsLower(c) || IsUpper(c) || c == '_' || c == '@'
  }

  /** What a character counts for. Up to base 36 both cases are alike; above, capitals follow the small
      letters, then come @ and _. */
  function DigitOf(c: char, base: int): (d: nat)
    requires ValidNumChar(c)
    ensures d < 64
  {
    if IsDigit(c) then c as int - '0' as int
    else if IsLower(c) then c as int - 'a' as int + 10
    else if IsUpper(c) then c as int - 'A' as int + if base <= 36 then 10 else 36
    else if c == '@' then 62
    else 63
  }

  /** The loop, from character `i` on. */
  function ReadFrom(s: string, i: nat, base: int, foundbase: bool, val: int64): Result<int64, NumError>
    requires i <= |s|
    decreases |s| - i
  {
    if i == |s| then Ok(val)
    else
      var c := s[i];
      if c == '#' then
        if foundbase then Err(InvalidNumber)
        else if val < 2 || val > 64 then Err(InvalidBase)
        else if i + 1 == |s| || !ValidNumChar(s[i + 1]) then Err(InvalidConstant)
        else ReadFrom(s, i + 1, val, true, 0)
      else if ValidNumChar(c) then
        var d := DigitOf(c, base);
        if d >= base then Err(TooGreatForBase)
        else ReadFrom(s, i + 1, base, foundbase, Wrap(val * base + d))
      else Ok(val)
  }

  function ReadNumber(num: string): Result<int64, NumError> {
    if num != "" && num[0] == '0' then
      if |num| == 1 then Ok(0)
      else if num[1] == 'x' || num[1] == 'X' then ReadFrom(num, 2, 16, true, 0)
      else ReadFrom(num, 1, 8, true, 0)
    else ReadFrom(num, 0, 10, false, 0)
  }

  method StrLong(num: string) returns (r: Result<int64, NumError>)
    ensures r == ReadNumber(num)
  {
    hide Wrap, ValidNumChar;
    var s, base, foundbase := 0, 10, false;
    if num != "" && num[0] == '0' {
      s := 1;
      if s == |num| {
        return Ok(0);
      }
      if num[s] == 'x' || num[s] == 'X' {
        base, s := 16, s + 1;
      } else {
        base := 8;
      }
      foundbase := true;
    }
    var val: int64 := 0;
    while s < |num|
      invariant s <= |num| && ReadFrom(num, s, base, foundbase, val) == ReadNumber(num)
    {
      var c := num[s];
      s := s + 1;
      if c == '#' {
        if foundbase {
          return Err(InvalidNumber);
        }
        if val < 2 || val > 64 {
          return Err(InvalidBase);
        }
        base, val := val, 0;
        foundbase := true;
        if s == |num| || !ValidNumChar(num[s]) {
          return Err(InvalidConstant);
        }
      } else if ValidNumChar(c) {
        var d := DigitOf(c, base);
        if d >= base {
          return Err(TooGreatForBase);
        }
        val := Wrap(val * base + d);
      } else {
        break;
      }
    }
    return Ok(val);
  }

  // ---------------------------------------------------------------- what numerals mean

  /** Every character is a digit of the base. */
  predicate InBase(s: string, base: int) {
    forall i :: 0 <= i < |s| ==> ValidNumChar(s[i]) && DigitOf(s[i], base) < base
  }

  /** The number the digits stand for, by place value: the last digit counts units. */
  function PlaceValue(s: string, base: int): int
    requires InBase(s, base)
  {
    if s == "" then 0 else PlaceValue(s[..|s| - 1], base) * base + DigitOf(s[|s| - 1], base)
  }

  /** Reading digits from `i` on, with those before it read, gives the whole number modulo 2^64. */
  lemma {:induction false} DigitsAreRead(s: string, p: nat, i: nat, base: int, found: bool, val: int64)
    requires p <= i <= |s| && InBase(s[p..], base)
    requires Congruent(val, PlaceValue(s[p..i], base))
    ensures ReadFrom(s, i, base, found, val) == Ok(Wrap(PlaceValue(s[p..], base)))
    decreases |s| - i
  {
    hide Wrap, Congruent, DigitOf, ValidNumChar;
    if i == |s| {
      assert s[p..i] == s[p..];
      WrapUnique(val, PlaceValue(s[p..], base));
    } else {
      var before, upto := s[p..i], s[p..i + 1];
      assert s[p..][i - p] == s[i];
      assert upto[..|upto| - 1] == before && upto[|upto| - 1] == s[i];
      var d := DigitOf(s[i], base);
      NotNumberSign(s[i]);
      OneMore(val, PlaceValue(before, base), base, d);
      DigitsAreRead(s, p, i + 1, base, found, Wrap(val * base + d));
    }
  }

  lemma NotNumberSign(c: char)
    ensures ValidNumChar(c) ==> c != '#'
  {
  }

  lemma OneMore(val: int64, v: int, base: int, d: int)
    requires Congruent(val, v)
    ensures Congruent(Wrap(val * base + d), v * base + d)
  {
    hide Wrap, Congruent;
    Same(base);
    Same(d);
    CongruentMul(val, v, base, base);
    CongruentAdd(val * base, v * base, d, d);
    WrapCongruent(val * base + d);
    Chain(Wrap(val * base + d), val * base + d, v * base + d);
  }

  lemma Same(a: int)
    ensures Congruent(a, a)
  {
  }

  lemma Chain(a: int, b: int, c: int)
    requires Congruent(a, b) && Congruent(b, c)
    ensures Congruent(a, c)
  {
    var k := MultipleOf(a, b);
    var j := MultipleOf(b, c);
    CongruentBy(a, c, k + j);
  }

  /** A plain numeral: octal behind a 0, else decimal. */
  lemma PlainNumeralRead(s: string, base: int)
    requires s != "" && InBase(s, base) && base == (if s[0] == '0' then 8 else 10)
    ensures ReadNumber(s) == Ok(Wrap(PlaceValue(s, base)))
  {
    hide Wrap, Congruent;
    Same(0);
    assert s[0..0] == "" && s[0..] == s;
    if s[0] == '0' {
      assert s[..1] == "0" && "0"[..0] == "";
      assert PlaceValue("", 8) == 0;
      assert PlaceValue(s[0..1], 8) == 0;
      if |s| == 1 {
        assert s == "0";
        WrapUnique(0, 0);
      } else {
        assert ValidNumChar(s[1]) && DigitOf(s[1], 8) < 8;
        DigitsAreRead(s, 0, 1, 8, true, 0);
      }
    } else {
      DigitsAreRead(s, 0, 0, 10, false, 0);
    }
  }

  lemma HexNumeralRead(s: string, x: char)
    requires InBase(s, 16) && (x == 'x' || x == 'X')
    ensures ReadNumber(['0', x] + s) == Ok(Wrap(PlaceValue(s, 16)))
  {
    hide Wrap, Congruent;
    var t := ['0', x] + s;
    assert t[2..] == s && t[2..2] == "";
    Same(0);
    DigitsAreRead(t, 2, 2, 16, true, 0);
  }

  /** `base#digits`, for every base from 2 to 64. */
  lemma BasedNumeralRead(base: nat, s: string)
    requires 2 <= base <= 64 && s != "" && InBase(s, base)
    ensures ReadNumber(Itos(base) + "#" + s) == Ok(Wrap(PlaceValue(s, base)))
  {
    hide Wrap, Congruent;
    var b := Itos(base);
    var t := b + "#" + s;
    BaseText(base);
    Same(0);
    assert t[..|b|] == b && t[|b|] == '#' && t[|b| + 1..] == s && t[|b| + 1..|b| + 1] == "";
    assert t[|b| + 1] == s[0];
    assert t[0] == b[0] && (|b| == 2 ==> t[1] == b[1]);
    BaseIsRead(t, base, b);
    DigitsAreRead(t, |b| + 1, |b| + 1, base, true, 0);
  }

  /** The one or two decimal digits of a base. */
  lemma BaseText(base: nat)
    requires 2 <= base <= 64
    ensures var b := Itos(base);
      && 1 <= |b| <= 2 && Digits(b) && b[0] != '0'
      && base == if |b| == 1 then DigitOf(b[0], 10) else DigitOf(b[0], 10) * 10 + DigitOf(b[1], 10)
  {
    if base < 10 {
      assert NatText(base) == [Digit(base)];
    } else {
      assert NatText(base / 10) == [Digit(base / 10)];
      assert NatText(base) == [Digit(base / 10), Digit(base % 10)];
    }
  }

  lemma BaseIsRead(t: string, base: nat, b: string)
    requires 2 <= base <= 64 && b == Itos(base) && |t| > |b| + 1 && t[|b|] == '#' && ValidNumChar(t[|b| + 1])
    requires t[..|b|] == b
    ensures ReadNumber(t) == ReadFrom(t, |b| + 1, base, true, 0)
  {
    BaseText(base);
    assert b[0] in b && (|b| == 2 ==> b[1] in b);
    assert t[0] == t[..|b|][0] && (|b| == 2 ==> t[1] == t[..|b|][1]);
    assert ReadFrom(t, |b|, 10, false, base) == ReadFrom(t, |b| + 1, base, true, 0);
    if |b| == 2 {
      assert ReadFrom(t, 1, 10, false, DigitOf(b[0], 10)) == ReadFrom(t, 2, 10, false, base);
    }
  }

  lemma {:induction false} DecimalPlaces(n: nat)
    ensures var s := NatText(n);
      InBase(s, 10) && PlaceValue(s, 10) == n && (s[0] == '0' <==> n == 0)
  {
    var s := NatText(n);
    if n >= 10 {
      DecimalPlaces(n / 10);
      assert s[..|s| - 1] == NatText(n / 10);
      assert s[0] == NatText(n / 10)[0];
    } else {
      assert s[..0] == "" && PlaceValue("", 10) == 0;
    }
  }

  /** Decimal text of every 64-bit value reads back as itself: its digits, negated if it has a sign. */
  lemma DecimalRoundTrip(v: int64)
    ensures var digits := NatText(if v < 0 then 0 - v else v);
      var r := ReadNumber(digits);
      r.Ok? && v == if v < 0 then Wrap(0 - r.value) else r.value
  {
    var n: nat := if v < 0 then 0 - v else v;
    DecimalPlaces(n);
    if n > 0 {
      PlainNumeralRead(NatText(n), 10);
    }
  }
}
