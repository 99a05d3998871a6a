/** The terms of `{x..y..incr}`: mkseq (braces.c:372-476), with its 64-bit arithmetic. */
module BraceSequence {
  import opened Wrappers
  import opened Seqs
  import opened Int64
  import opened Decimal

  datatype TermType = StInt | StChar | StZint

  /** stdckdint's ckd_sub: whether the difference overflows, and its low 64 bits. */
  function CkdSub(a: int64, b: int64): (bool, int64) {
    (!Fits(a - b), Wrap(a - b))
  }

  function Abs(x: int): nat { if x < 0 then -x else x }

  /** The step of the sequence: the increment's size, in the direction of `end`. */
  function Stride(start: int, end: int, incr: int): int {
    var a := if incr == 0 then 1 else Abs(incr);
    if start < end then a else -a
  }

  function Count(start: int, end: int, incr: int): nat {
    Abs(end - start) / Abs(Stride(start, end, incr)) + 1
  }

  function Term(n: int64, kind: TermType, width: nat): string {
    match kind
    case StInt => Itos(n)
    case StZint => Padded(n, width)
    case StChar => [(n % 256) as char]
  }

  /** Zeros go between the sign and the digits. */
  function Padded(n: int, width: nat): string {
    var t := Itos(n);
    if width <= |t| then t
    else if n < 0 then "-" + Zeros(width - |t|) + t[1..]
    else Zeros(width - |t|) + t
  }

  /** The padding, in a buffer as wide as asked for. */
  method ZeroPad(n: int64, width: nat) returns (t: string)
    ensures t == Padded(n, width)
  {
    t := Itos(n);
    var tlen := |t|;
    if tlen < width {
      var buf := new char[width](i => if 0 <= i < tlen then t[i] else '0');
      var shift, from := width - tlen, if n < 0 then 1 else 0;
      forall i | 0 <= i < tlen {
        buf[shift + i] := t[i];
      }
      assert buf[from + shift..] == t[from..];
      forall i | from <= i < from + shift {
        buf[i] := '0';
      }
      assert buf[..from] == t[..from];
      assert buf[from..from + shift] == Zeros(shift);
      PaddedIs(n, width, buf[..], from);
      t := buf[..];
    }
  }

  lemma PaddedIs(n: int, width: nat, s: string, from: nat)
    requires |Itos(n)| < width == |s| && from == if n < 0 then 1 else 0
    requires var shift := width - |Itos(n)|;
      && s[..from] == Itos(n)[..from] && s[from..from + shift] == Zeros(shift)
      && s[from + shift..] == Itos(n)[from..]
    ensures s == Padded(n, width)
  {
    var t, shift := Itos(n), width - |Itos(n)|;
    assert s == s[..from] + s[from..from + shift] + s[from + shift..];
    Units(Zeros(shift));
  }

  /** `memory` says whether the vector can be had, and `room(k)` whether the k-th term can. */
  method MkSeq(start: int64, end: int64, incr: int64, kind: TermType, width: nat, memory: bool, room: nat -> bool)
    returns (result: Option<seq<string>>)
    ensures result.None? <==>
      (incr == INTMAX_MIN || Abs(end - start) > INTMAX_MAX || !memory || Lacks(room, Count(start, end, incr)))
    ensures result.Some? ==>
      |result.value| == Count(start, end, incr) &&
      forall k :: 0 <= k < |result.value| ==>
        var n := Nth(start, Stride(start, end, incr), k);
        Fits(n) && result.value[k] == Term(n, kind, width)
  {
    hide Term, Count, Wrap, TermIs, Nth;
    var step: int64 := if incr == 0 then 1 else incr;
    var absIncr: int64 := step;
    if step < 0 {
      var ckd := CkdSub(0, step);
      if ckd.0 {
        return None;
      }
      absIncr := ckd.1;
    }
    if (start < end) == (step < 0) {
      var ckd := CkdSub(0, step);
      if ckd.0 {
        return None;
      }
      step := ckd.1;
    }
    assert step == Stride(start, end, incr) && absIncr == Abs(step);
    var ckd := if start < end then CkdSub(end, start) else CkdSub(start, end);
    if ckd.0 {
      return None;
    }
    var prevn := ckd.1;
    var nelem := prevn / absIncr + 2;
    QuotientFits(prevn, absIncr);
    if nelem >= TWO64 || !memory {
      return None;
    }
    CountIs(start, end, incr, nelem - 1);
    result := FillTerms(start, end, incr, step, kind, width, room, nelem);
    if result.Some? {
      TermsAre(result.value, start, end, incr, kind, width);
    }
  }

  lemma CountIs(start: int, end: int, incr: int, n: nat)
    requires n == Abs(end - start) / Abs(Stride(start, end, incr)) + 1
    ensures n == Count(start, end, incr)
  {
  }

  lemma TermsAre(terms: seq<string>, start: int, end: int, incr: int, kind: TermType, width: nat)
    requires forall k :: 0 <= k < |terms| ==> TermIs(terms[k], k, start, Stride(start, end, incr), kind, width)
    ensures forall k :: 0 <= k < |terms| ==>
      var n := Nth(start, Stride(start, end, incr), k);
      Fits(n) && terms[k] == Term(n, kind, width)
  {
    forall k | 0 <= k < |terms|
      ensures var n := Nth(start, Stride(start, end, incr), k); Fits(n) && terms[k] == Term(n, kind, width)
    {
      assert TermIs(terms[k], k, start, Stride(start, end, incr), kind, width);
    }
  }

  /** The loop: it goes round at least once, so `{3..3}` is 3. */
  method FillTerms(start: int64, end: int64, ghost incr: int64, step: int64, kind: TermType, width: nat,
                   room: nat -> bool, nelem: nat)
    returns (result: Option<seq<string>>)
    requires step == Stride(start, end, incr) && nelem == Count(start, end, incr) + 1
    ensures result.None? <==> Lacks(room, nelem - 1)
    ensures result.Some? ==>
      && |result.value| == nelem - 1
      && forall k :: 0 <= k < |result.value| ==> TermIs(result.value[k], k, start, step, kind, width)
  {
    hide Term, Stride, Count, Padded, Nth;
    Inside(start, end, incr, 0);
    var terms := [];
    var i: nat, n: int64 := 0, start;
    NthZero(start, step);
    while true
      invariant 0 <= i == |terms| < nelem - 1
      invariant n == Nth(start, step, i) && forall k :: 0 <= k < i ==> room(k)
      invariant forall k :: 0 <= k < i ==> TermIs(terms[k], k, start, step, kind, width)
      decreases nelem - i
    {
      var t;
      if kind == StZint {
        t := ZeroPad(n, width);
        ZintTerm(n, width);
      } else {
        t := Term(n, kind, width);
      }
      if !room(i) {
        return None;
      }
      terms := terms + [t];
      assert TermIs(terms[i], i, start, step, kind, width);
      i := i + 1;
      if i >= nelem - 1 {
        break;
      }
      Inside(start, end, incr, i);
      NthNext(start, step, i - 1);
      n := n + step;
    }
    result := Some(terms);
  }

  /** One of the first n terms cannot be had. */
  ghost predicate Lacks(room: nat -> bool, n: nat) { exists k: nat :: k < n && !room(k) }

  lemma ZintTerm(n: int64, width: nat)
    ensures Term(n, StZint, width) == Padded(n, width)
  {
  }

  predicate TermIs(t: string, k: nat, start: int, step: int, kind: TermType, width: nat) {
    var n := Nth(start, step, k);
    Fits(n) && t == Term(n, kind, width)
  }

  /** The k-th term's number. */
  function Nth(start: int, step: int, k: nat): int { start + k * step }

  lemma NthZero(start: int, step: int)
    ensures Nth(start, step, 0) == start
  {
  }

  lemma NthNext(start: int, step: int, k: nat)
    ensures Nth(start, step, k) + step == Nth(start, step, k + 1)
  {
    assert (k + 1) * step == k * step + step;
  }

  lemma Division(a: nat, b: nat)
    requires b > 0
    ensures 0 <= a / b && a == a / b * b + a % b
  {
  }

  lemma Times(k: nat, q: nat, b: nat)
    requires k <= q
    ensures k * b <= q * b && (b > 0 ==> q <= q * b)
  {
  }

  lemma QuotientFits(a: nat, b: nat)
    requires b > 0
    ensures 0 <= a / b <= a
  {
    Division(a, b);
    Times(0, a / b, b);
  }

  lemma QuotientBounds(k: nat, a: nat, b: nat)
    requires b > 0
    ensures 0 <= a / b && (k <= a / b <==> k * b <= a)
  {
    Division(a, b);
    var q := a / b;
    if k <= q {
      Times(k, q, b);
    } else {
      Times(q + 1, k, b);
      assert (q + 1) * b == q * b + b;
    }
  }

  /** Every term lies between the two ends, so adding the step never leaves the 64-bit range; and no
      further term would: the sequence has all it should have. */
  lemma Inside(start: int, end: int, incr: int, k: nat)
    ensures var n := Nth(start, Stride(start, end, incr), k);
      && (k < Count(start, end, incr) <==> if start < end then n <= end else end <= n)
      && if start < end then start <= n else n <= start
  {
    var s := Stride(start, end, incr);
    var a := Abs(s);
    QuotientBounds(k, Abs(end - start), a);
    Times(0, k, a);
    Negated(k, a);
  }

  lemma Negated(k: int, a: int)
    ensures k * -a == -(k * a)
  {
  }

  /** Padding keeps the number, and gives at least the width asked for. */
  lemma PaddedValue(n: int, width: nat)
    ensures var p := Padded(n, width);
      IsNumeral(p) && Value(p) == n && |p| == if |Itos(n)| < width then width else |Itos(n)|
  {
    hide Zeros, Itos, NatText;
    var t := Itos(n);
    ItosValue(n);
    if |t| < width {
      var z := width - |t|;
      SignOfText(n);
      if n < 0 {
        LeadingZeros(z, t[1..]);
        PaddedNumeral("-" + Zeros(z) + t[1..], Zeros(z) + t[1..]);
      } else {
        LeadingZeros(z, t);
        PlainNumeral(Zeros(z) + t);
      }
    }
  }

  lemma SignOfText(n: int)
    ensures (n < 0 <==> Itos(n)[0] == '-') && (n >= 0 ==> Digits(Itos(n)))
  {
    assert n >= 0 ==> NatText(n)[0] in NatText(n);
  }

  lemma PaddedNumeral(s: string, digits: string)
    requires s == "-" + digits && digits != "" && Digits(digits)
    ensures IsNumeral(s) && Value(s) == -(NatValue(digits) as int)
  {
    assert s[1..] == digits;
  }

  lemma PlainNumeral(s: string)
    requires s != "" && Digits(s)
    ensures IsNumeral(s) && Value(s) == NatValue(s)
  {
    assert s[0] in s;
  }
}
