/** Completion into braces (bracecomp.c): a sorted list of names is folded into one brace word, which
    the expander must unfold into the same list. */
module BraceComplete {
  import opened BraceScan
  import opened BraceWords
  import opened BraceExpansion
  import opened Quoting
  import opened Seqs

  // ---------------------------------------------------------------- order and common prefixes

  /** The length of the longest common prefix, `i` characters of which are known. */
  function LcpFrom(a: string, b: string, i: nat): (r: nat)
    requires i <= |a| && i <= |b| && a[..i] == b[..i]
    ensures i <= r <= |a| && r <= |b| && a[..r] == b[..r]
    ensures r < |a| && r < |b| ==> a[r] != b[r]
    decreases |a| - i
  {
    if i < |a| && i < |b| && a[i] == b[i] then
      assert a[..i + 1] == a[..i] + [a[i]] == b[..i + 1];
      LcpFrom(a, b, i + 1)
    else i
  }

  function Lcp(a: string, b: string): (r: nat)
    ensures r <= |a| && r <= |b| && a[..r] == b[..r]
    ensures r < |a| && r < |b| ==> a[r] != b[r]
  {
    LcpFrom(a, b, 0)
  }

  method StringGcd(s1: string, s2: string) returns (i: nat)
    ensures i == Lcp(s1, s2)
  {
    i := 0;
    while i < |s1| && i < |s2|
      invariant i <= |s1| && i <= |s2| && s1[..i] == s2[..i]
      invariant LcpFrom(s1, s2, i) == Lcp(s1, s2)
    {
      if s1[i] != s2[i] {
        break;
      }
      assert s1[..i + 1] == s1[..i] + [s1[i]] == s2[..i + 1];
      i := i + 1;
    }
  }

  /** A byte as the C type char has it, and as strcmp compares it; 0 ends a string. */
  function SignedByte(s: string, i: nat): int {
    var c := CharAt(s, i) as int;
    if c < 128 then c else c - 256
  }

  function UnsignedByte(s: string, i: nat): int { CharAt(s, i) as int }

  function StrcmpFrom(a: string, b: string, i: nat): int
    decreases |a| - i
  {
    if i >= |a| || CharAt(a, i) != CharAt(b, i) then UnsignedByte(a, i) - UnsignedByte(b, i)
    else StrcmpFrom(a, b, i + 1)
  }

  /** _strcompare: the first bytes compared as signed, then strcmp. */
  function StrCompare(a: string, b: string): int {
    var d := SignedByte(a, 0) - SignedByte(b, 0);
    if d != 0 then d else StrcmpFrom(a, b, 0)
  }

  predicate Sorted(names: seq<string>) {
    forall i, j :: 0 <= i < j < |names| ==> StrCompare(names[i], names[j]) <= 0
  }

  lemma LcpWhole(a: string, b: string)
    ensures Lcp(a, b) == |a| == |b| ==> a == b
  {
    Whole(a);
    Whole(b);
  }

  lemma {:induction false} StrcmpAtDifference(a: string, b: string, i: nat)
    requires CString(a) && CString(b) && i <= Lcp(a, b) && a != b
    ensures var m := Lcp(a, b);
      StrcmpFrom(a, b, i) == UnsignedByte(a, m) - UnsignedByte(b, m) && CharAt(a, m) != CharAt(b, m)
    decreases Lcp(a, b) - i
  {
    var m := Lcp(a, b);
    LcpWhole(a, b);
    assert m < |a| ==> a[m] in a;
    assert m < |b| ==> b[m] in b;
    if i < m {
      assert a[i] == a[..m][i] == b[..m][i] == b[i];
      StrcmpAtDifference(a, b, i + 1);
    }
  }

  /** `a` is smaller at place `m`. */
  predicate Smaller(a: string, b: string, m: nat) {
    if m == 0 then SignedByte(a, m) < SignedByte(b, m) else UnsignedByte(a, m) < UnsignedByte(b, m)
  }

  /** Different strings are ordered by the place where they first differ, so one way or the other. */
  lemma ByPlace(a: string, b: string)
    requires CString(a) && CString(b)
    ensures a == b ==> StrCompare(a, b) == 0
    ensures a != b ==> StrCompare(a, b) != 0 && (StrCompare(a, b) < 0 <==> Smaller(a, b, Lcp(a, b)))
    ensures a != b ==> CharAt(a, Lcp(a, b)) != CharAt(b, Lcp(a, b))
  {
    if a == b {
      StrcmpSame(a, 0);
    } else {
      StrcmpAtDifference(a, b, 0);
      var m := Lcp(a, b);
      assert |a| > 0 ==> a[0] in a;
      assert |b| > 0 ==> b[0] in b;
      if m > 0 {
        assert a[0] == a[..m][0] == b[..m][0] == b[0];
      }
    }
  }

  lemma {:induction false} StrcmpSame(a: string, i: nat)
    ensures StrcmpFrom(a, a, i) == 0
    decreases |a| - i
  {
    if i < |a| {
      StrcmpSame(a, i + 1);
    }
  }

  /** In sorted lists the common prefix with a name can only get shorter further on. */
  lemma LcpShrinks(a: string, b: string, c: string)
    requires CString(a) && CString(b) && CString(c)
    requires StrCompare(a, b) <= 0 && StrCompare(b, c) <= 0
    ensures Nested(a, b, c)
  {
    var m, n := Lcp(a, b), Lcp(a, c);
    if m < n {
      assert a[..n][..m] == a[..m] && c[..n][..m] == c[..m];
      assert a[m] == a[..n][m] == c[..n][m] == c[m];
      ByPlace(a, b);
      assert c[m] in c && (m < |b| ==> b[m] in b);
      LcpIs(b, c, m);
      ByPlace(b, c);
      assert false;
    }
  }

  lemma LcpIs(a: string, b: string, m: nat)
    requires m <= |a| && m <= |b| && a[..m] == b[..m]
    requires CharAt(a, m) != CharAt(b, m) || (m == |a| && m == |b|)
    ensures Lcp(a, b) == m
  {
    LcpFromIs(a, b, 0, m);
  }

  lemma {:induction false} LcpFromIs(a: string, b: string, i: nat, m: nat)
    requires i <= m <= |a| && m <= |b| && a[..m] == b[..m] && a[..i] == b[..i]
    requires CharAt(a, m) != CharAt(b, m) || (m == |a| && m == |b|)
    ensures LcpFrom(a, b, i) == m
    decreases m - i
  {
    if i < m {
      assert a[i] == a[..m][i] == b[..m][i] == b[i];
      assert a[..i + 1] == a[..m][..i + 1] == b[..m][..i + 1] == b[..i + 1];
      LcpFromIs(a, b, i + 1, m);
    }
  }

  // ---------------------------------------------------------------- the tree of a list of names

  /** What stands in memory g characters behind the start of name k, where that is beyond the name's end: some C
      string. */
  type Memory = (nat, nat) -> string

  ghost predicate CStrings(names: seq<string>, beyond: Memory) {
    (forall s <- names :: CString(s)) && forall k, g :: CString(beyond(k, g))
  }

  /** Name k from its g-th character on, as the code reads it. */
  function Tail(names: seq<string>, beyond: Memory, k: nat, g: nat): string
    requires k < |names|
  {
    if g <= |names[k]| then names[k][g..] else beyond(k, g)
  }

  /** The end of the run of names from `start` on that share more than `g` characters with it. */
  function GroupEnd(names: seq<string>, start: nat, end: nat, hi: nat, g: nat): (r: nat)
    requires 1 <= start < end <= hi <= |names|
    ensures end <= r <= hi
    ensures forall k :: end <= k < r ==> Lcp(names[start], names[k]) > g
    ensures r < hi ==> Lcp(names[start], names[r]) <= g
    decreases hi - end
  {
    if end == hi || Lcp(names[start], names[end]) <= g then end
    else GroupEnd(names, start, end + 1, hi, g)
  }

  /** The alternatives the names from `lo` to below `hi` fold into, after their first `g` characters. */
  function Fold(names: seq<string>, beyond: Memory, lo: nat, hi: nat, g: nat): Alternatives
    requires 1 <= lo < hi <= |names|
    decreases hi - lo, |names[lo]| - g, 1
  {
    var e := GroupEnd(names, lo, lo + 1, hi, g);
    if e == hi then Last(FoldGroup(names, beyond, lo, e, g))
    else Next(FoldGroup(names, beyond, lo, e, g), Fold(names, beyond, e, hi, g))
  }

  /** A run of names as one word: the name itself, or what its first and last name share and a group for the rest. */
  function FoldGroup(names: seq<string>, beyond: Memory, lo: nat, e: nat, g: nat): Word
    requires 1 <= lo < e <= |names|
    requires e > lo + 1 ==> Lcp(names[lo], names[e - 1]) > g
    decreases e - lo, |names[lo]| - g, 0
  {
    if e == lo + 1 then Plain(Quote(Tail(names, beyond, lo, g)))
    else
      var gcd := Lcp(names[lo], names[e - 1]);
      Braces(Quote(names[lo][g..gcd]), Fold(names, beyond, lo, e, gcd), Plain(""))
  }

  /** All matches, folded: between braces unless one run covers them all. */
  function FoldTop(names: seq<string>, beyond: Memory, lo: nat): Word
    requires 1 <= lo < |names|
  {
    var a := Fold(names, beyond, lo, |names|, 0);
    if a.Last? then a.word else Braces("", a, Plain(""))
  }

  /** What a completion list is replaced with. Without matches entry 0 stands for itself. */
  function CompletionText(names: seq<string>, beyond: Memory): string
    requires |names| > 0
  {
    if |names| == 1 then Quote(names[0]) else Print(FoldTop(names, beyond, 1))
  }

  // ---------------------------------------------------------------- the code

  /** What is still to be written when the names from `start` on are left, every item with its comma. */
  ghost function Remaining(names: seq<string>, beyond: Memory, start: nat, hi: nat, g: nat): string
    requires 1 <= start <= hi <= |names|
  {
    if start == hi then "" else PrintAll(Fold(names, beyond, start, hi, g)) + ","
  }

  lemma RemainingStep(names: seq<string>, beyond: Memory, start: nat, hi: nat, g: nat)
    requires 1 <= start < hi <= |names|
    ensures var e := GroupEnd(names, start, start + 1, hi, g);
      && (e > start + 1 ==> Lcp(names[start], names[e - 1]) > g)
      && (Fold(names, beyond, start, hi, g).Next? <==> e < hi)
      && Remaining(names, beyond, start, hi, g)
        == Print(FoldGroup(names, beyond, start, e, g)) + "," + Remaining(names, beyond, e, hi, g)
  {
    hide Lcp, Quote, FoldGroup, Print;
    var e := GroupEnd(names, start, start + 1, hi, g);
    if e < hi {
      var word, rest := Print(FoldGroup(names, beyond, start, e, g)), PrintAll(Fold(names, beyond, e, hi, g));
      assert word + "," + rest + "," == word + "," + (rest + ",");
    }
  }

  lemma GroupText(names: seq<string>, beyond: Memory, lo: nat, e: nat, g: nat)
    requires 1 <= lo && lo + 1 < e <= |names| && Lcp(names[lo], names[e - 1]) > g
    ensures var gcd := Lcp(names[lo], names[e - 1]);
      && g < gcd <= |names[lo]|
      && Print(FoldGroup(names, beyond, lo, e, g))
        == Quote(names[lo][g..gcd]) + "{" + PrintAll(Fold(names, beyond, lo, e, gcd)) + "}"
  {
    hide Lcp, Quote, Fold, PrintAll;
    var gcd := Lcp(names[lo], names[e - 1]);
    assert Print(Plain("")) == "";
    var inner := PrintAll(Fold(names, beyond, lo, e, gcd));
    assert Quote(names[lo][g..gcd]) + "{" + inner + "}" + "" == Quote(names[lo][g..gcd]) + "{" + inner + "}";
  }

  lemma TopText(names: seq<string>, beyond: Memory, lo: nat)
    requires 1 <= lo < |names|
    ensures var whole := Fold(names, beyond, lo, |names|, 0);
      Print(FoldTop(names, beyond, lo)) == if whole.Next? then "{" + PrintAll(whole) + "}" else PrintAll(whole)
  {
    hide Lcp, Quote, FoldGroup, Fold, GroupEnd;
    var whole := Fold(names, beyond, lo, |names|, 0);
    assert "" + "{" + PrintAll(whole) + "}" + "" == "{" + PrintAll(whole) + "}";
  }

  /** The run of names that starts at `start`, with the length of what its ends have in common. */
  method FindRun(names: seq<string>, start: nat, realEnd: nat, gcdZero: nat) returns (gcd: nat, end: nat)
    requires 1 <= start < realEnd <= |names|
    ensures end + 1 == GroupEnd(names, start, start + 1, realEnd, gcdZero)
    ensures gcd == if end == start then |names[start]| else Lcp(names[start], names[end])
    ensures start <= end && (end > start ==> gcd > gcdZero)
  {
    gcd, end := |names[start]|, start + 1;
    while end < realEnd
      invariant start < end <= realEnd
      invariant GroupEnd(names, start, end, realEnd, gcdZero) == GroupEnd(names, start, start + 1, realEnd, gcdZero)
      invariant gcd == if end == start + 1 then |names[start]| else Lcp(names[start], names[end - 1])
      invariant end > start + 1 ==> gcd > gcdZero
    {
      var temp := StringGcd(names[start], names[end]);
      if temp <= gcdZero {
        break;
      }
      gcd := temp;
      end := end + 1;
    }
    end := end - 1;
  }

  /** One item of the result, with its comma. */
  method MungeItem(names: seq<string>, beyond: Memory, start: nat, end: nat, realEnd: nat, gcdZero: nat, gcd: nat)
    returns (item: string)
    requires 1 <= start <= end < realEnd <= |names|
    requires gcd == if end == start then |names[start]| else Lcp(names[start], names[end])
    requires end > start ==> gcd > gcdZero
    ensures item == Print(FoldGroup(names, beyond, start, end + 1, gcdZero)) + ","
    decreases realEnd - start, |names[start]| - gcdZero, 0
  {
    hide *;
    if start == end {
      SingleText(names, beyond, start, gcdZero);
      item := BackslashQuote(Tail(names, beyond, start, gcdZero));
    } else {
      GroupText(names, beyond, start, end + 1, gcdZero);
      ghost var inner := PrintAll(Fold(names, beyond, start, end + 1, gcd));
      item := BackslashQuote(names[start][gcdZero..gcd]);
      item := item + "{";
      var subterm := ReallyMungeBraces(names, beyond, start, end + 1, gcd);
      ReplaceComma(item, inner);
      subterm := subterm[..|subterm| - 1] + "}";
      Assoc(item, inner, "}");
      item := item + subterm;
    }
    item := item + ",";
  }

  lemma SingleText(names: seq<string>, beyond: Memory, lo: nat, g: nat)
    requires 1 <= lo < |names|
    ensures Print(FoldGroup(names, beyond, lo, lo + 1, g)) == Quote(Tail(names, beyond, lo, g))
  {
  }

  /** The text for any names in any order. */
  method ReallyMungeBraces(names: seq<string>, beyond: Memory, realStart: nat, realEnd: nat, gcdZero: nat)
    returns (result: string)
    requires |names| > 0 && 1 <= realStart <= realEnd <= |names|
    requires gcdZero == 0 ==> realEnd == |names|
    ensures realStart == realEnd ==>
      result == Quote(if realStart < |names| then Tail(names, beyond, realStart, gcdZero) else names[0])
    ensures realStart < realEnd && gcdZero > 0 ==>
      result == PrintAll(Fold(names, beyond, realStart, realEnd, gcdZero)) + ","
    ensures realStart < realEnd && gcdZero == 0 ==> result == Print(FoldTop(names, beyond, realStart))
    decreases realEnd - realStart, if realStart < realEnd then |names[realStart]| - gcdZero else 0, 2
  {
    hide PrintAll, Print, GroupEnd, Fold, FoldGroup, Lcp, Quote, FoldTop, QuoteFrom, LcpFrom;
    if realStart == realEnd {
      if realStart < |names| {
        result := BackslashQuote(Tail(names, beyond, realStart, gcdZero));
      } else {
        result := BackslashQuote(names[0]);
      }
      return;
    }
    var flag;
    result, flag := MungeItems(names, beyond, realStart, realEnd, gcdZero);
    ghost var whole := Fold(names, beyond, realStart, realEnd, gcdZero);
    Units(PrintAll(whole) + ",");
    if gcdZero == 0 {
      TopText(names, beyond, realStart);
      ReplaceComma(if flag then "{" else "", PrintAll(whole));
      Units(PrintAll(whole));
      result := result[..|result| - 1] + if flag then "}" else "";
    }
  }

  /** The loop over the runs: every item with its comma, behind an open brace when there are several
      runs at the top level. */
  method MungeItems(names: seq<string>, beyond: Memory, realStart: nat, realEnd: nat, gcdZero: nat)
    returns (result: string, flag: bool)
    requires 1 <= realStart < realEnd <= |names|
    ensures var whole := Fold(names, beyond, realStart, realEnd, gcdZero);
      && flag == (gcdZero == 0 && whole.Next?)
      && result == (if flag then "{" else "") + (PrintAll(whole) + ",")
    decreases realEnd - realStart, |names[realStart]| - gcdZero, 1
  {
    hide *;
    result := "";
    var start := realStart;
    flag := false;
    ghost var whole := Fold(names, beyond, realStart, realEnd, gcdZero);
    ghost var several := gcdZero == 0 && whole.Next?;
    ghost var items := "";
    RemainingEnds(names, beyond, realStart, realEnd, gcdZero);
    Units(PrintAll(whole) + ",");
    while start < realEnd
      invariant realStart <= start <= realEnd
      invariant start == realStart ==> items == result == "" && !flag
      invariant start > realStart ==> result == (if flag then "{" else "") + items && flag == several
      invariant items + Remaining(names, beyond, start, realEnd, gcdZero) == PrintAll(whole) + ","
      decreases realEnd - start
    {
      var gcd, end := FindRun(names, start, realEnd, gcdZero);
      RemainingStep(names, beyond, start, realEnd, gcdZero);
      if gcdZero == 0 && start == realStart && end != realEnd - 1 {
        result := "{";
        flag := true;
      }
      var item := MungeItem(names, beyond, start, end, realEnd, gcdZero, gcd);
      Assoc(items, item, Remaining(names, beyond, end + 1, realEnd, gcdZero));
      Assoc(if flag then "{" else "", items, item);
      Units(if flag then "{" else "");
      result := result + item;
      items := items + item;
      start := end + 1;
    }
    Units(items);
  }

  lemma RemainingEnds(names: seq<string>, beyond: Memory, lo: nat, hi: nat, g: nat)
    requires 1 <= lo < hi <= |names|
    ensures Remaining(names, beyond, lo, hi, g) == PrintAll(Fold(names, beyond, lo, hi, g)) + ","
    ensures Remaining(names, beyond, hi, hi, g) == ""
  {
  }

  lemma ReplaceComma(lead: string, body: string)
    ensures var all := lead + (body + ",");
      && all[..|all| - 1] + "}" == lead + body + "}" && (lead == "" ==> all[..|all| - 1] + "" == body)
      && (body + ",")[..|body|] + "}" == body + "}"
  {
    var all := lead + (body + ",");
    assert all[..|all| - 1] == lead + body;
  }

  /** hack_braces_completion. In a multibyte locale the matches are sorted here, else they stay in the order in
      which they arrive; `matches` is the list as it is then. */
  method HackBracesCompletion(names: seq<string>, beyond: Memory, multibyte: bool)
    returns (temp: string, matches: seq<string>)
    requires |names| > 0 && forall s <- names :: CString(s)
    ensures |matches| == |names| && matches[0] == names[0] && multiset(matches[1..]) == multiset(names[1..])
    ensures temp == CompletionText(matches, beyond)
    ensures if multibyte then Sorted(matches[1..]) else matches == names
  {
    hide CompletionText, Sorted;
    matches := names;
    if multibyte && |names| > 2 {
      var rest := Qsort(names[1..]);
      matches := [names[0]] + rest;
      assert matches[1..] == rest;
      SameNames(names, matches);
    } else {
      FewSorted(names[1..]);
    }
    temp := ReallyMungeBraces(matches, beyond, 1, |matches|, 0);
    TextOf(matches, beyond);
  }

  lemma FewSorted(l: seq<string>)
    ensures |l| <= 1 ==> Sorted(l)
  {
  }

  lemma TextOf(names: seq<string>, beyond: Memory)
    requires |names| > 0
    ensures CompletionText(names, beyond) ==
      if |names| > 1 then Print(FoldTop(names, beyond, 1)) else Quote(names[0])
  {
  }

  lemma SameNames(names: seq<string>, matches: seq<string>)
    requires |names| > 0 && |matches| > 0 && matches[0] == names[0]
    requires multiset(matches[1..]) == multiset(names[1..]) && forall s <- names :: CString(s)
    ensures |matches| == |names| && forall s <- matches :: CString(s)
  {
    assert |multiset(matches[1..])| == |matches[1..]| && |multiset(names[1..])| == |names[1..]|;
    forall s | s in matches
      ensures CString(s)
    {
      if s != matches[0] {
        assert matches == [matches[0]] + matches[1..];
        assert s in multiset(matches[1..]);
        assert s in names[1..];
      }
    }
  }

  /** qsort with _strcompare: the same strings, in order. */
  method Qsort(l: seq<string>) returns (r: seq<string>)
    requires forall s <- l :: CString(s)
    ensures Sorted(r) && multiset(r) == multiset(l)
  {
    hide StrCompare, CString;
    r := [];
    for i := 0 to |l|
      invariant Sorted(r) && multiset(r) == multiset(l[..i]) && forall s <- r :: CString(s)
    {
      assert l[i] in l;
      TakeOne(l, i);
      var k := 0;
      while k < |r| && StrCompare(r[k], l[i]) <= 0
        invariant 0 <= k <= |r| && forall j :: 0 <= j < k ==> StrCompare(r[j], l[i]) <= 0
      {
        k := k + 1;
      }
      assert r == r[..k] + r[k..];
      Inserted(r, k, l[i]);
      r := r[..k] + [l[i]] + r[k..];
    }
    Whole(l);
  }

  lemma Inserted(r: seq<string>, k: nat, x: string)
    requires Sorted(r) && k <= |r| && CString(x) && forall s <- r :: CString(s)
    requires forall j :: 0 <= j < k ==> StrCompare(r[j], x) <= 0
    requires k < |r| ==> StrCompare(r[k], x) > 0
    ensures Sorted(r[..k] + [x] + r[k..]) && forall s <- r[..k] + [x] + r[k..] :: CString(s)
  {
    hide StrCompare, CString;
    forall j | k <= j < |r|
      ensures StrCompare(x, r[j]) <= 0
    {
      assert r[k] in r && r[j] in r;
      OneWay(r[k], x);
      if j > k {
        InOrder(x, r[k], r[j]);
      }
    }
  }

  lemma OneWay(a: string, b: string)
    requires CString(a) && CString(b) && StrCompare(a, b) > 0
    ensures StrCompare(b, a) <= 0
  {
    hide StrCompare, Lcp;
    ByPlace(a, b);
    ByPlace(b, a);
    LcpFlips(a, b);
    var m := Lcp(a, b);
    assert m < |a| ==> a[m] in a;
    assert m < |b| ==> b[m] in b;
  }

  lemma LcpFlips(a: string, b: string)
    requires CString(a) && CString(b) && a != b
    ensures Lcp(b, a) == Lcp(a, b)
  {
    hide StrCompare;
    ByPlace(a, b);
    LcpIs(b, a, Lcp(a, b));
  }

  /** The order is transitive. */
  lemma InOrder(a: string, b: string, c: string)
    requires CString(a) && CString(b) && CString(c)
    requires StrCompare(a, b) <= 0 && StrCompare(b, c) <= 0
    ensures StrCompare(a, c) <= 0
  {
    hide StrCompare;
    ByPlace(a, b);
    ByPlace(b, c);
    ByPlace(a, c);
    if a != b && b != c && a != c {
      var m, n := Lcp(a, b), Lcp(b, c);
      var k := if m < n then m else n;
      assert a[..m][..k] == a[..k] && b[..m][..k] == b[..k] && b[..n][..k] == b[..k] && c[..n][..k] == c[..k];
      if m < n {
        assert b[m] == b[..n][m] == c[..n][m] == c[m];
      } else if n < m {
        assert a[n] == a[..m][n] == b[..m][n] == b[n];
      }
      LcpIs(a, c, k);
    }
  }

  // ---------------------------------------------------------------- the round trip

  /** The names from `lo` to below `hi` have their first `g` characters in common. */
  predicate Share(names: seq<string>, lo: nat, hi: nat, g: nat)
    requires 1 <= lo < hi <= |names|
  {
    && g <= |names[lo]|
    && forall k :: lo <= k < hi ==> g <= |names[k]| && names[k][..g] == names[lo][..g]
  }

  /** In each run, at every depth, all names start with what the first and the last of the run share. */
  predicate Uniform(names: seq<string>, lo: nat, hi: nat, g: nat)
    requires 1 <= lo < hi <= |names|
    decreases hi - lo, |names[lo]| - g, 1
  {
    var e := GroupEnd(names, lo, lo + 1, hi, g);
    UniformRun(names, lo, e, g) && (e < hi ==> Uniform(names, e, hi, g))
  }

  predicate UniformRun(names: seq<string>, lo: nat, e: nat, g: nat)
    requires 1 <= lo < e <= |names| && (e > lo + 1 ==> Lcp(names[lo], names[e - 1]) > g)
    decreases e - lo, |names[lo]| - g, 0
  {
    e > lo + 1 ==>
      var gcd := Lcp(names[lo], names[e - 1]);
      Share(names, lo, e, gcd) && Uniform(names, lo, e, gcd)
  }

  /** `words`, once their quoting is removed, are the names from `lo` on without `g` characters. */
  predicate StandFor(names: seq<string>, lo: nat, hi: nat, g: nat, words: seq<string>)
    requires 1 <= lo < hi <= |names| && Share(names, lo, hi, g)
  {
    |words| == hi - lo && forall k :: 0 <= k < |words| ==> Dequote(words[k]) == names[lo + k][g..]
  }

  /** Whatever the names, the fold is a tree of as many words as there are names. */
  lemma {:induction false} FoldCounts(names: seq<string>, beyond: Memory, lo: nat, hi: nat, g: nat)
    requires CStrings(names, beyond) && 1 <= lo < hi <= |names|
    ensures var a := Fold(names, beyond, lo, hi, g);
      WellFormedAll(a) && |DenoteAll(a)| == hi - lo && (a.Next? <==> GroupEnd(names, lo, lo + 1, hi, g) < hi)
    decreases hi - lo, |names[lo]| - g, 1
  {
    hide Lcp, Quote, FoldGroup, WellFormed, Denote;
    var e := GroupEnd(names, lo, lo + 1, hi, g);
    GroupCounts(names, beyond, lo, e, g);
    if e < hi {
      FoldCounts(names, beyond, e, hi, g);
    }
  }

  lemma {:induction false} GroupCounts(names: seq<string>, beyond: Memory, lo: nat, e: nat, g: nat)
    requires CStrings(names, beyond) && 1 <= lo < e <= |names|
    requires e > lo + 1 ==> Lcp(names[lo], names[e - 1]) > g
    ensures var w := FoldGroup(names, beyond, lo, e, g);
      WellFormed(w) && |Denote(w)| == e - lo
    decreases e - lo, |names[lo]| - g, 0
  {
    hide Lcp, Quote, Fold, GroupEnd, WellFormedAll, Escaped, DenoteAll;
    if e == lo + 1 {
      TailIsString(names, beyond, lo, g);
      QuoteRoundTrip(Tail(names, beyond, lo, g));
    } else {
      var gcd := Lcp(names[lo], names[e - 1]);
      FoldCounts(names, beyond, lo, e, gcd);
      FirstRunShort(names, lo, e, gcd);
      EmptyIsEscaped();
      SliceIsString(names, lo, g, gcd);
      QuoteRoundTrip(names[lo][g..gcd]);
      GroupWords(names, beyond, lo, e, g);
    }
  }

  /** The run inside a run does not reach its last name. */
  lemma {:induction false} FirstRunShort(names: seq<string>, lo: nat, e: nat, g: nat)
    requires 1 <= lo && lo + 1 < e <= |names| && Lcp(names[lo], names[e - 1]) <= g
    ensures GroupEnd(names, lo, lo + 1, e, g) < e
  {
  }

  lemma GroupWords(names: seq<string>, beyond: Memory, lo: nat, e: nat, g: nat)
    requires 1 <= lo && lo + 1 < e <= |names| && Lcp(names[lo], names[e - 1]) > g
    ensures var gcd := Lcp(names[lo], names[e - 1]);
      Denote(FoldGroup(names, beyond, lo, e, g))
        == Row(Quote(names[lo][g..gcd]), DenoteAll(Fold(names, beyond, lo, e, gcd)))
  {
    hide Lcp, Quote, Fold, DenoteAll;
    var gcd := Lcp(names[lo], names[e - 1]);
    var q, inner := Quote(names[lo][g..gcd]), DenoteAll(Fold(names, beyond, lo, e, gcd));
    ProductOfOne(q, inner);
    ProductUnitRight(Row(q, inner));
  }

  /** The folded names stand for the names, in order, duplicates and all, if and only if the runs are uniform. */
  lemma {:induction false} FoldMeans(names: seq<string>, beyond: Memory, lo: nat, hi: nat, g: nat)
    requires CStrings(names, beyond) && 1 <= lo < hi <= |names| && Share(names, lo, hi, g)
    ensures StandFor(names, lo, hi, g, DenoteAll(Fold(names, beyond, lo, hi, g))) <==> Uniform(names, lo, hi, g)
    decreases hi - lo, |names[lo]| - g, 1
  {
    hide Lcp, Quote, FoldGroup, GroupEnd, Dequote, Denote, UniformRun;
    var e := GroupEnd(names, lo, lo + 1, hi, g);
    SharePart(names, lo, e, hi, g);
    GroupMeans(names, beyond, lo, e, g);
    GroupCounts(names, beyond, lo, e, g);
    if e < hi {
      FoldMeans(names, beyond, e, hi, g);
      FoldCounts(names, beyond, e, hi, g);
      StandBoth(names, lo, e, hi, g, Denote(FoldGroup(names, beyond, lo, e, g)),
                DenoteAll(Fold(names, beyond, e, hi, g)));
    }
  }

  lemma StandBoth(names: seq<string>, lo: nat, e: nat, hi: nat, g: nat, a: seq<string>, b: seq<string>)
    requires 1 <= lo < e < hi <= |names| && Share(names, lo, hi, g) && |a| == e - lo && |b| == hi - e
    ensures Share(names, lo, e, g) && Share(names, e, hi, g)
    ensures StandFor(names, lo, hi, g, a + b) <==> StandFor(names, lo, e, g, a) && StandFor(names, e, hi, g, b)
  {
    hide Dequote;
    var w := a + b;
    if StandFor(names, lo, hi, g, w) {
      forall k | 0 <= k < |b|
        ensures Dequote(b[k]) == names[e + k][g..]
      {
        assert w[|a| + k] == b[k];
      }
      forall k | 0 <= k < |a|
        ensures Dequote(a[k]) == names[lo + k][g..]
      {
        assert w[k] == a[k];
      }
    }
  }

  lemma SharePart(names: seq<string>, lo: nat, e: nat, hi: nat, g: nat)
    requires 1 <= lo < e <= hi <= |names| && Share(names, lo, hi, g)
    ensures Share(names, lo, e, g) && (e < hi ==> Share(names, e, hi, g))
  {
  }

  lemma {:induction false} GroupMeans(names: seq<string>, beyond: Memory, lo: nat, e: nat, g: nat)
    requires CStrings(names, beyond) && 1 <= lo < e <= |names| && Share(names, lo, e, g)
    requires e > lo + 1 ==> Lcp(names[lo], names[e - 1]) > g
    ensures StandFor(names, lo, e, g, Denote(FoldGroup(names, beyond, lo, e, g))) <==> UniformRun(names, lo, e, g)
    decreases e - lo, |names[lo]| - g, 0
  {
    hide Lcp, Quote, Fold, GroupEnd, Dequote, DenoteAll, Uniform;
    if e == lo + 1 {
      TailIsString(names, beyond, lo, g);
      QuoteRoundTrip(names[lo][g..]);
    } else {
      var gcd := Lcp(names[lo], names[e - 1]);
      FirstRunShort(names, lo, e, gcd);
      GroupWords(names, beyond, lo, e, g);
      FoldCounts(names, beyond, lo, e, gcd);
      SliceIsString(names, lo, g, gcd);
      QuoteRoundTrip(names[lo][g..gcd]);
      var q, inner := Quote(names[lo][g..gcd]), DenoteAll(Fold(names, beyond, lo, e, gcd));
      forall k | 0 <= k < e - lo
        ensures Dequote(Row(q, inner)[k]) == names[lo][g..gcd] + Dequote(inner[k])
      {
        DequoteConcat(q, inner[k]);
      }
      if Share(names, lo, e, gcd) {
        FoldMeans(names, beyond, lo, e, gcd);
      }
      PrefixedStand(names, lo, e, g, gcd, Row(q, inner), inner);
    }
  }

  /** Words behind a prefix stand for the names just if all names have that prefix and the words stand for what is
      left of them. */
  lemma PrefixedStand(names: seq<string>, lo: nat, e: nat, g: nat, gcd: nat, words: seq<string>, inner: seq<string>)
    requires 1 <= lo < e <= |names| && Share(names, lo, e, g) && g < gcd <= |names[lo]|
    requires |words| == |inner| == e - lo
    requires forall k :: 0 <= k < e - lo ==> Dequote(words[k]) == names[lo][g..gcd] + Dequote(inner[k])
    ensures StandFor(names, lo, e, g, words) <==>
      (Share(names, lo, e, gcd) && StandFor(names, lo, e, gcd, inner))
  {
    hide Dequote;
    var p := names[lo][g..gcd];
    if StandFor(names, lo, e, g, words) {
      forall k | lo <= k < e
        ensures gcd <= |names[k]| && names[k][..gcd] == names[lo][..gcd]
        ensures Dequote(inner[k - lo]) == names[k][gcd..]
      {
        assert Dequote(words[k - lo]) == names[lo + (k - lo)][g..];
        Peeled(names[k], names[lo], g, gcd, Dequote(inner[k - lo]));
      }
      assert forall k :: 0 <= k < |inner| ==> Dequote(inner[k]) == names[lo + k][gcd..];
    }
    if Share(names, lo, e, gcd) && StandFor(names, lo, e, gcd, inner) {
      forall k | 0 <= k < |words|
        ensures Dequote(words[k]) == names[lo + k][g..]
      {
        Joined(names[lo + k], names[lo], g, gcd);
      }
    }
  }

  lemma Peeled(n: string, first: string, g: nat, gcd: nat, rest: string)
    requires g <= gcd <= |first| && g <= |n| && n[..g] == first[..g] && n[g..] == first[g..gcd] + rest
    ensures gcd <= |n| && n[..gcd] == first[..gcd] && n[gcd..] == rest
  {
    assert n == n[..g] + n[g..];
    assert first[..gcd] == first[..g] + first[g..gcd];
    assert n == first[..gcd] + rest;
  }

  lemma Joined(n: string, first: string, g: nat, gcd: nat)
    requires g <= gcd <= |first| && gcd <= |n| && n[..gcd] == first[..gcd]
    ensures n[g..] == first[g..gcd] + n[gcd..]
  {
    assert n[g..gcd] == n[..gcd][g..] == first[..gcd][g..] == first[g..gcd];
    assert n[g..] == n[g..gcd] + n[gcd..];
  }

  lemma EmptyIsEscaped()
    ensures Escaped("")
  {
  }

  lemma TailIsString(names: seq<string>, beyond: Memory, k: nat, g: nat)
    requires CStrings(names, beyond) && k < |names|
    ensures CString(Tail(names, beyond, k, g))
  {
    if g <= |names[k]| {
      SliceIsString(names, k, g, |names[k]|);
      assert names[k][g..] == names[k][g..|names[k]|];
    }
  }

  lemma SliceIsString(names: seq<string>, i: nat, from: nat, to: nat)
    requires (forall s <- names :: CString(s)) && i < |names| && from <= to <= |names[i]|
    ensures CString(names[i][from..to])
  {
    var name := names[i];
    assert name in names;
    forall c | c in name[from..to]
      ensures c in name
    {
      var k :| 0 <= k < to - from && name[from..to][k] == c;
      assert name[from + k] == c;
    }
  }

  lemma ProductOfOne(x: string, ys: seq<string>)
    ensures Product([x], ys) == Row(x, ys)
  {
    assert Product([x][1..], ys) == [];
  }

  lemma TopMeans(a: Alternatives, w: Word)
    requires WellFormedAll(a) && w == if a.Last? then a.word else Braces("", a, Plain(""))
    ensures WellFormed(w) && Denote(w) == DenoteAll(a)
  {
    ProductUnitLeft(DenoteAll(a));
    ProductUnitRight(DenoteAll(a));
    EmptyIsEscaped();
  }

  function DequoteAll(words: seq<string>): seq<string> {
    seq(|words|, k requires 0 <= k < |words| => Dequote(words[k]))
  }

  /** What the text that completion leaves expands to: the folded words. */
  lemma CompletionExpands(names: seq<string>, beyond: Memory, rules: SeqRules)
    requires |names| > 1 && CStrings(names, beyond)
    ensures BraceExpand(CompletionText(names, beyond), rules) == DenoteAll(Fold(names, beyond, 1, |names|, 0))
  {
    hide Lcp, Quote, Fold, GroupEnd, WellFormedAll, DenoteAll, BraceExpand;
    FoldCounts(names, beyond, 1, |names|, 0);
    var a, w := Fold(names, beyond, 1, |names|, 0), FoldTop(names, beyond, 1);
    TopMeans(a, w);
    ExpandPrinted(w, rules);
  }

  /** Expanding the text completion leaves in the line and removing the quotes gives back exactly the matches, in
      order, duplicates and names that are prefixes of others included, if and only if the runs are uniform. */
  lemma RoundTripIff(names: seq<string>, beyond: Memory, rules: SeqRules)
    requires |names| > 1 && CStrings(names, beyond)
    ensures DequoteAll(BraceExpand(CompletionText(names, beyond), rules)) == names[1..] <==>
      Uniform(names, 1, |names|, 0)
  {
    hide Lcp, Fold, Uniform, Dequote, DenoteAll, BraceExpand, CompletionText;
    CompletionExpands(names, beyond, rules);
    FoldMeans(names, beyond, 1, |names|, 0);
    FoldCounts(names, beyond, 1, |names|, 0);
    var words := DenoteAll(Fold(names, beyond, 1, |names|, 0));
    if DequoteAll(words) == names[1..] {
      forall k | 0 <= k < |words|
        ensures Dequote(words[k]) == names[1 + k][0..]
      {
        assert DequoteAll(words)[k] == names[1..][k] && names[1 + k][0..] == names[1 + k];
      }
    }
    if StandFor(names, 1, |names|, 0, words) {
      forall k | 0 <= k < |words|
        ensures DequoteAll(words)[k] == names[1..][k]
      {
        assert names[1 + k][0..] == names[1 + k];
      }
      assert DequoteAll(words) == names[1..];
    }
  }

  /** Without matches, entry 0 comes back. */
  lemma AloneRoundTrip(name: string, beyond: Memory, rules: SeqRules)
    requires CString(name)
    ensures DequoteAll(BraceExpand(CompletionText([name], beyond), rules)) == [name]
  {
    QuoteRoundTrip(name);
    ExpandPrinted(Plain(Quote(name)), rules);
  }

  // ---------------------------------------------------------------- orders in which it holds

  predicate Nested(a: string, b: string, c: string) { Lcp(a, c) <= Lcp(a, b) }

  /** A completion list: entry 0 is what the matches have in common, entries 1 and on are the matches, ordered so
      that common prefixes only get shorter further on. */
  predicate Names(names: seq<string>) {
    && (forall s <- names :: CString(s))
    && (forall i, j, k :: 1 <= i <= j <= k < |names| ==> Nested(names[i], names[j], names[k]))
  }

  lemma SortedNames(names: seq<string>)
    requires |names| > 0 && (forall s <- names :: CString(s)) && Sorted(names[1..])
    ensures Names(names)
  {
    forall i, j, k | 1 <= i <= j <= k < |names|
      ensures Nested(names[i], names[j], names[k])
    {
      assert names[i] in names && names[j] in names && names[k] in names;
      if i == j {
        LcpIs(names[i], names[i], |names[i]|);
      } else if j < k {
        var m := names[1..];
        assert StrCompare(m[i - 1], m[j - 1]) <= 0 && StrCompare(m[j - 1], m[k - 1]) <= 0;
        LcpShrinks(names[i], names[j], names[k]);
      }
    }
  }

  lemma RunShares(names: seq<string>, lo: nat, e: nat)
    requires Names(names) && 1 <= lo < e <= |names|
    ensures Share(names, lo, e, Lcp(names[lo], names[e - 1]))
  {
    var gcd := Lcp(names[lo], names[e - 1]);
    forall k | lo <= k < e
      ensures gcd <= |names[k]| && names[k][..gcd] == names[lo][..gcd]
    {
      var n := Lcp(names[lo], names[k]);
      assert Nested(names[lo], names[k], names[e - 1]);
      assert names[k][..n][..gcd] == names[k][..gcd] && names[lo][..n][..gcd] == names[lo][..gcd];
    }
  }

  /** Where common prefixes only get shorter the runs are uniform. */
  lemma {:induction false} NamesUniform(names: seq<string>, lo: nat, hi: nat, g: nat)
    requires Names(names) && 1 <= lo < hi <= |names|
    ensures Uniform(names, lo, hi, g)
    decreases hi - lo, |names[lo]| - g
  {
    hide Names, Share;
    var e := GroupEnd(names, lo, lo + 1, hi, g);
    if e > lo + 1 {
      var gcd := Lcp(names[lo], names[e - 1]);
      RunShares(names, lo, e);
      NamesUniform(names, lo, e, gcd);
    }
    if e < hi {
      NamesUniform(names, e, hi, g);
    }
  }

  /** Sorted matches come back, as do all others whose common prefixes only get shorter further on. */
  lemma CompletionRoundTrip(names: seq<string>, beyond: Memory, rules: SeqRules)
    requires |names| > 0 && Names(names) && CStrings(names, beyond)
    ensures DequoteAll(BraceExpand(CompletionText(names, beyond), rules))
      == if |names| == 1 then names else names[1..]
  {
    hide CompletionText, BraceExpand, Uniform, Dequote, Names;
    if |names| == 1 {
      assert names[0] in names && names == [names[0]];
      AloneRoundTrip(names[0], beyond, rules);
    } else {
      NamesUniform(names, 1, |names|, 0);
      RoundTripIff(names, beyond, rules);
    }
  }

  // ---------------------------------------------------------------- orders in which it fails

  /** Three names that share no more than g characters one with the next are three alternatives. */
  lemma ThreeApart(names: seq<string>, beyond: Memory, g: nat)
    requires |names| == 4 && Lcp(names[1], names[2]) <= g && Lcp(names[2], names[3]) <= g
    ensures Fold(names, beyond, 1, 4, g) ==
      Next(Plain(Quote(Tail(names, beyond, 1, g))),
           Next(Plain(Quote(Tail(names, beyond, 2, g))), Last(Plain(Quote(Tail(names, beyond, 3, g))))))
    ensures Uniform(names, 1, 4, g)
  {
    hide Lcp, Quote;
    assert GroupEnd(names, 1, 2, 4, g) == 2 && GroupEnd(names, 2, 3, 4, g) == 3 && GroupEnd(names, 3, 4, 4, g) == 4;
    assert Fold(names, beyond, 3, 4, g) == Last(Plain(Quote(Tail(names, beyond, 3, g))));
    assert Fold(names, beyond, 2, 4, g) ==
      Next(Plain(Quote(Tail(names, beyond, 2, g))), Fold(names, beyond, 3, 4, g));
    assert Uniform(names, 3, 4, g) && Uniform(names, 2, 4, g);
  }

  /** Three names of which the first shares something with both others: one run. */
  lemma ThreeInRun(names: seq<string>, beyond: Memory, gcd: nat)
    requires |names| == 4 && gcd == Lcp(names[1], names[3]) > 0
    requires 0 < Lcp(names[1], names[2]) <= gcd && Lcp(names[2], names[3]) <= gcd
    ensures FoldTop(names, beyond, 1) ==
      Braces(Quote(names[1][..gcd]),
             Next(Plain(Quote(Tail(names, beyond, 1, gcd))),
                  Next(Plain(Quote(Tail(names, beyond, 2, gcd))), Last(Plain(Quote(Tail(names, beyond, 3, gcd)))))),
             Plain(""))
    ensures Uniform(names, 1, 4, 0) <==> gcd <= |names[2]| && names[2][..gcd] == names[1][..gcd]
  {
    hide Lcp, Quote;
    ThreeApart(names, beyond, gcd);
    assert GroupEnd(names, 1, 4, 4, 0) == 4 && GroupEnd(names, 1, 3, 4, 0) == 4 && GroupEnd(names, 1, 2, 4, 0) == 4;
    assert names[1][0..gcd] == names[1][..gcd];
    hide Fold, Uniform;
    assert Fold(names, beyond, 1, 4, 0) == Last(FoldGroup(names, beyond, 1, 4, 0)) by {
      RunIsAll(names, beyond);
    }
    RunUniform(names, gcd);
  }

  lemma RunIsAll(names: seq<string>, beyond: Memory)
    requires |names| == 4 && GroupEnd(names, 1, 2, 4, 0) == 4
    ensures Fold(names, beyond, 1, 4, 0) == Last(FoldGroup(names, beyond, 1, 4, 0))
  {
  }

  lemma RunUniform(names: seq<string>, gcd: nat)
    requires |names| == 4 && GroupEnd(names, 1, 2, 4, 0) == 4 && Uniform(names, 1, 4, gcd)
    requires gcd == Lcp(names[1], names[3]) > 0
    ensures Uniform(names, 1, 4, 0) <==> gcd <= |names[2]| && names[2][..gcd] == names[1][..gcd]
  {
    hide Lcp, GroupEnd;
    assert Uniform(names, 1, 4, 0) == UniformRun(names, 1, 4, 0);
    assert UniformRun(names, 1, 4, 0) <==> Share(names, 1, 4, gcd);
    assert names[3][..gcd] == names[1][..gcd];
  }

  /** Nothing to quote. */
  predicate Ordinary(s: string) { forall c <- s :: !InTable(c) && c != '#' && c != NUL && c < 256 as char }

  lemma {:induction false} OrdinaryQuote(s: string, i: nat)
    requires Ordinary(s) && i <= |s|
    ensures QuoteFrom(s, i) == s[i..]
    decreases |s| - i
  {
    if i < |s| {
      assert s[i] in s && s[i..] == [s[i]] + s[i + 1..];
      OrdinaryQuote(s, i + 1);
    }
  }

  lemma OrdinaryWord(s: string)
    requires Ordinary(s)
    ensures Quote(s) == s && Escaped(s) && Dequote(s) == s
  {
    hide QuoteFrom, Dequote, Escaped, InTable;
    OrdinaryQuote(s, 0);
    Whole(s);
    assert CString(s);
    QuoteRoundTrip(s);
  }

  lemma OrdinaryBoth(a: string, b: string)
    requires Ordinary(a) && Ordinary(b)
    ensures Ordinary(a + b)
  {
  }

  /** Three ordinary alternatives behind an ordinary text. */
  function Three(p: string, a: string, b: string, c: string): Word {
    Braces(p, Next(Plain(a), Next(Plain(b), Last(Plain(c)))), Plain(""))
  }

  lemma ThreeExpand(p: string, a: string, b: string, c: string, rules: SeqRules)
    requires Ordinary(p) && Ordinary(a) && Ordinary(b) && Ordinary(c)
    ensures Print(Three(p, a, b, c)) == p + "{" + a + "," + b + "," + c + "}"
    ensures DequoteAll(BraceExpand(Print(Three(p, a, b, c)), rules)) == [p + a, p + b, p + c]
  {
    hide BraceExpand, Ordinary, Dequote, Quote, Escaped;
    var word, words := Three(p, a, b, c), [p + a, p + b, p + c];
    OrdinaryWord(p);
    OrdinaryWord(a);
    OrdinaryWord(b);
    OrdinaryWord(c);
    EmptyIsEscaped();
    ThreeText(p, a, b, c);
    ThreeFormed(p, a, b, c);
    ExpandPrinted(word, rules);
    OrdinaryBoth(p, a);
    OrdinaryBoth(p, b);
    OrdinaryBoth(p, c);
    OrdinaryWord(p + a);
    OrdinaryWord(p + b);
    OrdinaryWord(p + c);
    assert DequoteAll(words) == words;
  }

  lemma ThreeText(p: string, a: string, b: string, c: string)
    ensures Print(Three(p, a, b, c)) == p + "{" + a + "," + b + "," + c + "}"
    ensures Denote(Three(p, a, b, c)) == [p + a, p + b, p + c]
  {
    var alts := Next(Plain(a), Next(Plain(b), Last(Plain(c))));
    assert PrintAll(Last(Plain(c))) == c && DenoteAll(Last(Plain(c))) == [c];
    assert PrintAll(alts.rest) == b + "," + c && DenoteAll(alts.rest) == [b, c];
    assert PrintAll(alts) == a + "," + (b + "," + c) == a + "," + b + "," + c;
    assert p + "{" + (a + "," + b + "," + c) + "}" + "" == p + "{" + a + "," + b + "," + c + "}";
    assert DenoteAll(alts) == [a, b, c];
    ProductOfOne(p, [a, b, c]);
    ProductUnitRight(Row(p, [a, b, c]));
    assert Row(p, [a, b, c]) == [p + a, p + b, p + c];
  }

  lemma ThreeFormed(p: string, a: string, b: string, c: string)
    requires Escaped(p) && Escaped(a) && Escaped(b) && Escaped(c)
    ensures WellFormed(Three(p, a, b, c))
  {
    hide Escaped;
    EmptyIsEscaped();
    var rest := Next(Plain(b), Last(Plain(c)));
    assert WellFormedAll(rest.rest) && WellFormedAll(rest) && WellFormedAll(Next(Plain(a), rest));
  }

  /** "xab", "xAc", "xad" is the order of a collation that ignores case: the second name comes back as "xac". */
  lemma CaseIgnored(beyond: Memory, rules: SeqRules)
    ensures var names := ["", "xab", "xAc", "xad"];
      && CompletionText(names, beyond) == "xa{b,c,d}" && !Uniform(names, 1, 4, 0)
      && DequoteAll(BraceExpand(CompletionText(names, beyond), rules)) == ["xab", "xac", "xad"]
  {
    hide Lcp, FoldTop, Uniform, BraceExpand, Fold, Quote, Print, Three;
    var names := ["", "xab", "xAc", "xad"];
    LcpIs("xab", "xAc", 1);
    LcpIs("xab", "xad", 2);
    LcpIs("xAc", "xad", 1);
    ThreeInRun(names, beyond, 2);
    assert names[1][..2] == "xa" && names[2][..2] == "xA" && "xa"[1] != "xA"[1];
    assert Tail(names, beyond, 1, 2) == "b" && Tail(names, beyond, 2, 2) == "c" && Tail(names, beyond, 3, 2) == "d";
    AreThree("xa", "b", "c", "d");
    ThreeExpand("xa", "b", "c", "d", rules);
    assert "xa" + "{" + "b" + "," + "c" + "," + "d" + "}" == "xa{b,c,d}";
    assert "xa" + "b" == "xab" && "xa" + "c" == "xac" && "xa" + "d" == "xad";
  }

  lemma AreThree(p: string, a: string, b: string, c: string)
    requires Ordinary(p) && Ordinary(a) && Ordinary(b) && Ordinary(c)
    ensures Braces(Quote(p), Next(Plain(Quote(a)), Next(Plain(Quote(b)), Last(Plain(Quote(c))))), Plain(""))
      == Three(p, a, b, c)
  {
    hide Quote, Ordinary;
    OrdinaryWord(p);
    OrdinaryWord(a);
    OrdinaryWord(b);
    OrdinaryWord(c);
  }

  /** "a-b", "ab", "a-c" is the order of a collation that ignores hyphens: "ab" is lost. */
  lemma HyphensIgnored(beyond: Memory, rules: SeqRules)
    ensures var names := ["", "a-b", "ab", "a-c"];
      && CompletionText(names, beyond) == "a-{b,,c}" && !Uniform(names, 1, 4, 0)
      && DequoteAll(BraceExpand(CompletionText(names, beyond), rules)) == ["a-b", "a-", "a-c"]
  {
    hide Lcp, FoldTop, Uniform, BraceExpand, Fold, Quote, Print, Three;
    var names := ["", "a-b", "ab", "a-c"];
    LcpIs("a-b", "ab", 1);
    LcpIs("a-b", "a-c", 2);
    LcpIs("ab", "a-c", 1);
    ThreeInRun(names, beyond, 2);
    assert names[1][..2] == "a-" && names[2][..2] == "ab" && "a-"[1] != "ab"[1];
    assert Tail(names, beyond, 1, 2) == "b" && Tail(names, beyond, 2, 2) == "" && Tail(names, beyond, 3, 2) == "c";
    AreThree("a-", "b", "", "c");
    ThreeExpand("a-", "b", "", "c", rules);
    assert "a-" + "{" + "b" + "," + "" + "," + "c" + "}" == "a-{b,,c}";
    assert "a-" + "b" == "a-b" && "a-" + "" == "a-" && "a-" + "c" == "a-c";
  }

  /** The order may be another one and the list come back all the same: "ab", "Ac", "ad". */
  lemma UnorderedUniform()
    ensures var names := ["", "ab", "Ac", "ad"];
      !Names(names) && Uniform(names, 1, 4, 0)
  {
    hide Lcp;
    var names := ["", "ab", "Ac", "ad"];
    LcpIs("ab", "Ac", 0);
    LcpIs("Ac", "ad", 0);
    LcpIs("ab", "ad", 1);
    ThreeApart(names, (k, g) => "", 0);
    assert !Nested(names[1], names[2], names[3]);
  }
}
