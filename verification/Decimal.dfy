/** Decimal text of integers: what itos writes (lib/sh/itos.c:40-47), and the number a decimal text
    stands for, defined without it. */
module Decimal {

  function Digit(d: nat): char
    requires d < 10
  {
    '0' + d as char
  }

  predicate IsDigit(c: char) { '0' <= c <= '9' }

  predicate Digits(s: string) { forall c <- s :: IsDigit(c) }

  function NatText(n: nat): (s: string)
    ensures s != "" && Digits(s)
  {
    if n < 10 then [Digit(n)] else NatText(n / 10) + [Digit(n % 10)]
  }

  function Itos(n: int): (s: string)
    ensures s != ""
  {
    if n < 0 then "-" + NatText(-n) else NatText(n)
  }

  /** The number written in the digits of `s`. */
  function NatValue(s: string): nat
    requires Digits(s)
  {
    if s == "" then 0
    else
      var init, last := s[..|s| - 1], s[|s| - 1];
      assert last in s && IsDigit(last) && last as int >= '0' as int;
      10 * NatValue(init) + (last as int - '0' as int)
  }

  predicate IsNumeral(s: string) {
    var digits := if s != "" && s[0] == '-' then s[1..] else s;
    digits != "" && Digits(digits)
  }

  function Value(s: string): int
    requires IsNumeral(s)
  {
    if s[0] == '-' then -(NatValue(s[1..]) as int) else NatValue(s)
  }

  lemma {:induction false} NatTextValue(n: nat)
    ensures NatValue(NatText(n)) == n
  {
    var s := NatText(n);
    if n >= 10 {
      NatTextValue(n / 10);
      assert s[..|s| - 1] == NatText(n / 10);
    } else {
      assert s[..0] == "";
      assert NatValue(s[..|s| - 1]) == 0;
    }
  }

  lemma ItosValue(n: int)
    ensures IsNumeral(Itos(n)) && Value(Itos(n)) == n
  {
    if n < 0 {
      NatTextValue(-n);
      assert Itos(n)[1..] == NatText(-n);
    } else {
      NatTextValue(n);
      assert NatText(n)[0] in NatText(n);
    }
  }

  function Zeros(n: nat): (s: string)
    ensures |s| == n && Digits(s)
  {
    seq(n, _ => '0')
  }

  lemma {:induction false} LeadingZeros(n: nat, s: string)
    requires Digits(s)
    ensures Digits(Zeros(n) + s)
    ensures NatValue(Zeros(n) + s) == NatValue(s)
    decreases n + |s|
  {
    var z := Zeros(n) + s;
    if s != "" {
      assert z[..|z| - 1] == Zeros(n) + s[..|s| - 1];
      LeadingZeros(n, s[..|s| - 1]);
    } else if n > 0 {
      assert z[..|z| - 1] == Zeros(n - 1) + "";
      LeadingZeros(n - 1, "");
    } else {
      assert z == "";
    }
  }
}
