/** `{x..y}` and `{x..y..incr}` as text: valid_seqterm and expand_seqterm (braces.c:479-622), which make the terms of
    a sequence expression from what stands between the braces. */
module SeqTerm {
  import opened Wrappers
  import opened Seqs
  import opened Int64
  import opened Decimal
  import opened BraceScan
  import opened BraceWords
  import opened BraceExpansion
  import opened BraceSequence

  // ---------------------------------------------------------------- numbers in text

  predicate Space(c: char) { c == ' ' || '\t' <= c <= '\r' }

  predicate Sign(c: char) { c == '+' || c == '-' }

  predicate Alpha(c: char) { 'a' <= c <= 'z' || 'A' <= c <= 'Z' }

  function SpacesEnd(s: string, k: nat): (e: nat)
    requires k <= |s|
    ensures k <= e <= |s|
    decreases |s| - k
  {
    if k < |s| && Space(s[k]) then SpacesEnd(s, k + 1) else k
  }

  function DigitsEnd(s: string, k: nat): (e: nat)
    requires k <= |s|
    ensures k <= e <= |s| && Digits(s[k..e])
    decreases |s| - k
  {
    if k < |s| && IsDigit(s[k]) then
      var e := DigitsEnd(s, k + 1);
      assert s[k..e] == [s[k]] + s[k + 1..e];
      e
    else k
  }

  /** The number, where its text ends, and whether it was out of range. */
  datatype Parsed = Parsed(value: int64, end: nat, range: bool)

  /** strtoimax in base 10, from byte k on; without digits nothing is taken. */
  function StrToImax(s: string, k: nat): (p: Parsed)
    requires k <= |s|
    ensures k <= p.end <= |s|
  {
    var a := SpacesEnd(s, k);
    var b := if a < |s| && Sign(s[a]) then a + 1 else a;
    var e := DigitsEnd(s, b);
    if e == b then Parsed(0, k, false)
    else
      var n := NatValue(s[b..e]);
      var v: int := if s[a] == '-' then -(n as int) else n;
      if v < INTMAX_MIN then Parsed(INTMAX_MIN, e, true)
      else if v > INTMAX_MAX then Parsed(INTMAX_MAX, e, true)
      else Parsed(v, e, false)
  }

  /** valid_number. */
  function ValidNumber(s: string): Option<int64> {
    var p := StrToImax(s, 0);
    if p.range || p.end == 0 || SpacesEnd(s, p.end) < |s| then None else Some(p.value)
  }

  // ---------------------------------------------------------------- the two functions

  /** strstr for "..". */
  function Dots(a: string, k: nat): (t: Option<nat>)
    requires k <= |a|
    ensures t.Some? ==> k <= t.value <= |a| - 2 && a[t.value] == a[t.value + 1] == '.'
    ensures forall i :: k <= i < |a| - 1 && a[i] == a[i + 1] == '.' ==> t.Some? && t.value <= i
    decreases |a| - k
  {
    if k + 1 >= |a| then None else if a[k] == a[k + 1] == '.' then Some(k) else Dots(a, k + 1)
  }

  predicate Numeric(c: char, next: char) { IsDigit(c) || (Sign(c) && IsDigit(next)) }

  /** valid_seqterm: both ends look like integers, or both like letters. Behind the text is the closing brace. */
  predicate ValidSeqTerm(a: string) {
    var t := Dots(a, 0);
    t.Some? &&
    var b, r := a + ['}', NUL], t.value + 2;
    && b[0] != '.' && b[r] != '}'
    && ((Numeric(b[0], b[1]) && Numeric(b[r], b[r + 1]))
        || (Alpha(b[0]) && b[1] == '.' && Alpha(b[r]) && b[r + 1] in {'}', '.'}))
  }

  /** What a sequence expression says. */
  datatype Ends = Ends(start: int64, end: int64, incr: int64, kind: TermType, width: nat)

  /** The increment behind the right end, if what is there is one. */
  function Increment(rhs: string, k: nat): Option<int64>
    requires k <= |rhs|
  {
    if k + 2 < |rhs| && rhs[k] == rhs[k + 1] == '.' then
      var p := StrToImax(rhs, k + 2);
      if p.range || p.end < |rhs| then None else Some(p.value)
    else if k < |rhs| then None
    else Some(1)
  }

  predicate LeadingZero(s: string) { (|s| > 1 && s[0] == '0') || (|s| > 2 && s[0] == '-' && s[1] == '0') }

  /** expand_seqterm up to the call of mkseq. Terms are padded as soon as one end has a leading zero, to the longer
      of the two texts. */
  function ParseTerm(a: string): Option<Ends> {
    match Dots(a, 0)
    case None => None
    case Some(t) =>
      var lhs, rhs := a[..t], a[t + 2..];
      if lhs == "" || rhs == "" then None
      else if Numeric(rhs[0], CharAt(rhs, 1)) then
        var p := StrToImax(rhs, 0);
        if p.range || ValidNumber(lhs) == None || Increment(rhs, p.end) == None then None
        else
          var pad := LeadingZero(lhs) || LeadingZero(rhs[..p.end]);
          Some(Ends(ValidNumber(lhs).value, p.value, Increment(rhs, p.end).value, if pad then StZint else StInt,
                    if pad then Longer(|lhs|, p.end) else 0))
      else if Alpha(rhs[0]) && CharAt(rhs, 1) in {NUL, '.'} then
        if |lhs| != 1 || !Alpha(lhs[0]) || Increment(rhs, 1) == None then None
        else Some(Ends(lhs[0] as int, rhs[0] as int, Increment(rhs, 1).value, StChar, 1))
      else None
  }

  function Longer(a: nat, b: nat): nat { if a < b then b else a }

  /** The terms that mkseq makes. */
  function Sequence(e: Ends): Option<seq<string>> {
    if e.incr == INTMAX_MIN || Abs(e.end - e.start) > INTMAX_MAX then None
    else Some(seq(Count(e.start, e.end, e.incr), k requires k >= 0 => TermAt(e, k)))
  }

  function TermAt(e: Ends, k: nat): string {
    var n := Nth(e.start, Stride(e.start, e.end, e.incr), k);
    if Fits(n) then Term(n, e.kind, e.width) else ""
  }

  /** All terms are there, each in the range between the ends. */
  lemma SequenceIs(e: Ends)
    requires Sequence(e).Some?
    ensures var words, s := Sequence(e).value, Stride(e.start, e.end, e.incr);
      && |words| == Count(e.start, e.end, e.incr)
      && forall k :: 0 <= k < |words| ==>
           Fits(Nth(e.start, s, k)) && words[k] == Term(Nth(e.start, s, k), e.kind, e.width)
  {
    hide Term, Count, Nth, Stride;
    var s := Stride(e.start, e.end, e.incr);
    forall k | 0 <= k < |Sequence(e).value|
      ensures Fits(Nth(e.start, s, k))
    {
      Inside(e.start, e.end, e.incr, k);
    }
  }

  function Terms(a: string): Option<seq<string>> {
    match ParseTerm(a)
    case None => None
    case Some(e) => Sequence(e)
  }

  /** expand_seqterm, with the memory that it needs. */
  method ExpandSeqTerm(a: string, memory: bool, room: nat -> bool) returns (result: Option<seq<string>>)
    ensures memory && (forall k: nat :: room(k)) ==> result == Terms(a)
    ensures result.Some? ==> result == Terms(a)
  {
    hide Term, Count, Nth, Stride;
    var e := ParseTerm(a);
    if e == None {
      return None;
    }
    var x := e.value;
    result := MkSeq(x.start, x.end, x.incr, x.kind, x.width, memory, room);
    if result.Some? {
      assert result.value == Sequence(x).value;
    }
  }

  /** What bash makes of sequence expressions. */
  const BASH: SeqRules := SeqRules((a: string) => ValidSeqTerm(a), (a: string) => Terms(a))

  // ---------------------------------------------------------------- numbers are read

  lemma {:induction false} DigitsRun(s: string, k: nat, e: nat)
    requires k <= e <= |s| && Digits(s[k..e]) && (e < |s| ==> !IsDigit(s[e]))
    ensures DigitsEnd(s, k) == e
    decreases e - k
  {
    if k < e {
      assert s[k..e][0] == s[k] && s[k..e][0] in s[k..e];
      assert forall c <- s[k + 1..e] :: c in s[k..e] by {
        assert s[k..e] == [s[k]] + s[k + 1..e];
      }
      DigitsRun(s, k + 1, e);
    }
  }

  /** Decimal digits, perhaps with a sign in front. */
  predicate Integer(s: string) { s != "" && AfterSign(s) != "" && Digits(AfterSign(s)) }

  function AfterSign(s: string): string
    requires s != ""
  {
    if Sign(s[0]) then s[1..] else s
  }

  function IntegerValue(s: string): int
    requires Integer(s)
  {
    if s[0] == '-' then -(NatValue(AfterSign(s)) as int) else NatValue(AfterSign(s))
  }

  predicate Blank(s: string) { forall c <- s :: Space(c) }

  lemma NumeralIsInteger(num: string)
    requires IsNumeral(num)
    ensures Integer(num) && IntegerValue(num) == Value(num)
  {
    assert num[0] == '-' || num[0] in num;
  }

  lemma {:induction false} SpacesRun(s: string, k: nat, e: nat)
    requires k <= e <= |s| && Blank(s[k..e]) && (e < |s| ==> !Space(s[e]))
    ensures SpacesEnd(s, k) == e
    decreases e - k
  {
    if k < e {
      assert s[k] == s[k..e][0];
      assert forall c <- s[k + 1..e] :: c in s[k..e] by {
        assert s[k..e] == [s[k]] + s[k + 1..e];
      }
      SpacesRun(s, k + 1, e);
    }
  }

  /** An integer, perhaps behind white space, with no digit behind it. */
  lemma NumeralRead(pre: string, blanks: string, num: string, post: string)
    requires Blank(blanks) && Integer(num) && (post != "" ==> !IsDigit(post[0])) && Fits(IntegerValue(num))
    ensures StrToImax(pre + blanks + num + post, |pre|)
      == Parsed(IntegerValue(num), |pre| + |blanks| + |num|, false)
  {
    hide Blank, Digits, Integer, NatValue;
    IntegerChars(num);
    var s, k := pre + blanks + num + post, |pre| + |blanks|;
    var b := if Sign(num[0]) then k + 1 else k;
    Places(pre, blanks, num, post);
    SpacesRun(s, |pre|, k);
    DigitsRun(s, b, k + |num|);
  }

  /** Where the parts of the text are. */
  lemma Places(pre: string, blanks: string, num: string, post: string)
    requires Integer(num)
    ensures var s, k := pre + blanks + num + post, |pre| + |blanks|;
      var b := if Sign(num[0]) then k + 1 else k;
      && s[|pre|..k] == blanks && s[k] == num[0] && s[b..k + |num|] == AfterSign(num) && b < k + |num| <= |s|
      && Digits(AfterSign(num)) && (k + |num| < |s| ==> post != "" && s[k + |num|] == post[0])
  {
  }

  lemma IntegerChars(num: string)
    requires Integer(num)
    ensures forall i :: 0 <= i < |num| ==> IsDigit(num[i]) || (i == 0 && Sign(num[i]))
    ensures num != "" && Numeric(num[0], CharAt(num, 1)) && !Space(num[0])
  {
    var d := AfterSign(num);
    var n := |num| - |d|;
    forall i | 0 <= i < |num|
      ensures IsDigit(num[i]) || (i == 0 && Sign(num[i]))
    {
      if i >= n {
        assert num[i] == d[i - n] && d[i - n] in d;
      }
    }
    if Sign(num[0]) {
      assert num[1] == d[0] && d[0] in d;
    }
  }

  /** What stands in a sequence of integers: two ends and perhaps an increment. */
  function Written(lhs: string, rhs: string, incr: Option<string>): string {
    lhs + ".." + rhs + if incr.Some? then ".." + incr.value else ""
  }

  lemma {:induction false} FirstDots(lhs: string, rest: string, k: nat)
    requires k <= |lhs| && forall i :: 0 <= i < |lhs| ==> lhs[i] != '.'
    ensures Dots(lhs + ".." + rest, k) == Some(|lhs|)
    decreases |lhs| - k
  {
    var a := lhs + ".." + rest;
    if k < |lhs| {
      assert a[k] == lhs[k];
      FirstDots(lhs, rest, k + 1);
    }
  }

  /** An integer with white space on one side, where the code lets it stand. */
  predicate LeftEnd(lhs: string, num: string) {
    Integer(num) && |num| <= |lhs| && lhs[..|num|] == num && Blank(lhs[|num|..])
  }

  predicate IncrText(incr: string, num: string) {
    Integer(num) && |num| <= |incr| && incr[|incr| - |num|..] == num && Blank(incr[..|incr| - |num|])
  }

  /** Integer ends are read as the numbers they stand for, and so is the increment, with either sign, with white
      space behind the left end and in front of the increment. */
  lemma IntegersParse(lhs: string, x: string, rhs: string, incr: Option<string>, z: string)
    requires LeftEnd(lhs, x) && Integer(rhs) && (incr.Some? ==> IncrText(incr.value, z))
    requires Fits(IntegerValue(x)) && Fits(IntegerValue(rhs)) && (incr.Some? ==> Fits(IntegerValue(z)))
    ensures var a := Written(lhs, rhs, incr);
      var pad := LeadingZero(lhs) || LeadingZero(rhs);
      && ValidSeqTerm(a)
      && ParseTerm(a) == Some(Ends(IntegerValue(x), IntegerValue(rhs), if incr.Some? then IntegerValue(z) else 1,
                                   if pad then StZint else StInt, if pad then Longer(|lhs|, |rhs|) else 0))
  {
    hide Integer, IntegerValue, StrToImax, ValidNumber, Increment, ValidSeqTerm, Dots, LeadingZero, Numeric, CharAt;
    hide ParseTerm, IsDigit, LeftEnd, IncrText;
    var tail := if incr.Some? then ".." + incr.value else "";
    var a, t := Written(lhs, rhs, incr), |lhs|;
    assert a == lhs + ".." + (rhs + tail);
    LeftRead(lhs, x);
    FirstDots(lhs, rhs + tail, 0);
    Whole(a);
    assert a[..t] == lhs && a[t + 2..] == rhs + tail;
    RightRead(rhs, tail);
    IncrementRead(rhs, incr, z);
    IntegerChars(rhs);
    LooksRight(a, lhs, rhs, tail);
    ParseIs(a, t, lhs, rhs + tail, StrToImax(rhs + tail, 0));
  }

  /** What parsing gives once its parts are known. */
  lemma ParseIs(a: string, t: nat, lhs: string, right: string, p: Parsed)
    requires Dots(a, 0) == Some(t) && lhs == a[..t] && right == a[t + 2..] && lhs != "" && right != ""
    requires Numeric(right[0], CharAt(right, 1)) && p == StrToImax(right, 0) && !p.range
    requires ValidNumber(lhs).Some? && Increment(right, p.end).Some?
    ensures var pad := LeadingZero(lhs) || LeadingZero(right[..p.end]);
      ParseTerm(a) == Some(Ends(ValidNumber(lhs).value, p.value, Increment(right, p.end).value,
                                if pad then StZint else StInt, if pad then Longer(|lhs|, p.end) else 0))
  {
    hide StrToImax, ValidNumber, Increment, Dots, LeadingZero, Numeric, CharAt;
  }

  lemma LeftRead(lhs: string, x: string)
    requires LeftEnd(lhs, x) && Fits(IntegerValue(x))
    ensures ValidNumber(lhs) == Some(IntegerValue(x)) && lhs != "" && Numeric(lhs[0], CharAt(lhs, 1))
    ensures forall i :: 0 <= i < |lhs| ==> lhs[i] != '.'
  {
    hide Integer, IntegerValue, StrToImax, Blank;
    var after := lhs[|x|..];
    IntegerChars(x);
    BlankChars(after);
    assert lhs == x + after && lhs[0] == x[0] && "" + "" + x + after == lhs;
    NoBlank();
    NumeralRead("", "", x, after);
    assert lhs[|x|..|lhs|] == after;
    SpacesRun(lhs, |x|, |lhs|);
    NoDots(lhs, x, after);
  }

  lemma NoDots(lhs: string, x: string, after: string)
    requires lhs == x + after && Integer(x) && Blank(after)
    ensures forall i :: 0 <= i < |lhs| ==> lhs[i] != '.'
  {
    hide Integer, Blank;
    IntegerChars(x);
    BlankChars(after);
  }

  lemma BlankChars(s: string)
    requires Blank(s)
    ensures forall i :: 0 <= i < |s| ==> Space(s[i]) && s[i] != '.' && !IsDigit(s[i])
  {
  }

  lemma NoBlank()
    ensures Blank("")
  {
  }

  lemma RightRead(rhs: string, tail: string)
    requires Integer(rhs) && Fits(IntegerValue(rhs)) && (tail != "" ==> tail[0] == '.')
    ensures StrToImax(rhs + tail, 0) == Parsed(IntegerValue(rhs), |rhs|, false) && (rhs + tail)[..|rhs|] == rhs
    ensures rhs != "" && rhs + tail != "" && (rhs + tail)[0] == rhs[0]
    ensures Numeric((rhs + tail)[0], CharAt(rhs + tail, 1))
  {
    hide Integer, IntegerValue, StrToImax;
    NoBlank();
    NumeralRead("", "", rhs, tail);
    IntegerChars(rhs);
    assert "" + "" + rhs + tail == rhs + tail;
  }

  lemma IncrementRead(rhs: string, incr: Option<string>, z: string)
    requires incr.Some? ==> IncrText(incr.value, z) && Fits(IntegerValue(z))
    ensures var tail := if incr.Some? then ".." + incr.value else "";
      Increment(rhs + tail, |rhs|) == Some(if incr.Some? then IntegerValue(z) else 1)
  {
    hide Integer, IntegerValue, StrToImax, Blank;
    if incr.Some? {
      var before := incr.value[..|incr.value| - |z|];
      IntegerChars(z);
      NumeralRead(rhs + "..", before, z, "");
      assert incr.value == before + z;
      assert rhs + ".." + before + z + "" == rhs + (".." + incr.value);
    }
  }

  lemma LooksRight(a: string, lhs: string, rhs: string, tail: string)
    requires a == lhs + ".." + rhs + tail && lhs != "" && rhs != "" && Dots(a, 0) == Some(|lhs|)
    requires Numeric(lhs[0], CharAt(lhs, 1)) && Numeric(rhs[0], CharAt(rhs, 1))
    ensures ValidSeqTerm(a)
  {
    var b, r := a + ['}', NUL], |lhs| + 2;
    assert b[0] == lhs[0] && b[r] == rhs[0];
    assert Sign(lhs[0]) && !IsDigit(lhs[0]) ==> b[1] == lhs[1];
    assert Sign(rhs[0]) && !IsDigit(rhs[0]) ==> b[r + 1] == rhs[1];
  }

  lemma {:induction false} NoLeadingZero(n: nat)
    ensures NatText(n)[0] == '0' <==> n == 0
  {
    if n >= 10 {
      NoLeadingZero(n / 10);
    }
  }

  lemma ItosPlain(n: int)
    ensures !LeadingZero(Itos(n))
  {
    NoLeadingZero(if n < 0 then -n else n);
    if n < 0 {
      assert Itos(n)[1] == NatText(-n)[0];
    } else {
      assert NatText(n)[0] in NatText(n) && |NatText(0)| == 1;
    }
  }

  lemma PaddedLeads(n: int, width: nat)
    requires |Itos(n)| < width
    ensures LeadingZero(Padded(n, width))
  {
    hide NatText;
    var t := Itos(n);
    var zeros := Zeros(width - |t|);
    assert zeros[0] == '0';
    var p := Padded(n, width);
    if n < 0 {
      assert |t| > 1 && p == "-" + zeros + t[1..];
      assert |p| == width && p[0] == '-' && p[1] == zeros[0];
    } else {
      assert p == zeros + t;
      assert |p| == width && p[0] == zeros[0];
    }
  }

  // ---------------------------------------------------------------- the brace word

  /** No quoting, no brace and no comma: the scanner passes over it. */
  predicate Safe(c: char) { c !in {NUL, '\\', '$', '"', '\'', '`', '{', '}', ','} }

  /** The scanner at byte i of the text between the braces, which begins at `from` and has its first dots at `t`. */
  function On(from: nat, i: nat, t: nat): Scan {
    Scan(from + i, NUL, 0, if i > t then 1 else 0, false, if i > t then BraceSeq else BraceNone)
  }

  lemma {:induction false} ScanDots(text: string, from: nat, a: string, i: nat)
    requires WrittenAt(text, from, a + "}") && i <= |a|
    requires (forall c <- a :: Safe(c)) && Dots(a, 0).Some? && Dots(a, 0).value + 2 < |a|
    ensures var t := Dots(a, 0).value;
      Gobble(text, On(from, i, t), '}') == On(from, |a|, t)
    decreases |a| - i
  {
    hide Dots;
    var t, b := Dots(a, 0).value, a + "}";
    DotsAre(a);
    WrittenChar(text, from, b, i);
    if i < |a| {
      WrittenChar(text, from, b, i + 1);
      assert a[i] in a && a[t + 2] in a;
      if i == t {
        WrittenChar(text, from, b, i + 2);
      }
      ScanDots(text, from, a, i + 1);
    }
  }

  lemma WrittenChar(text: string, from: nat, b: string, i: nat)
    requires WrittenAt(text, from, b) && i < |b|
    ensures from + i < |text| && text[from + i] == b[i]
  {
    assert text[from..from + |b|][i] == b[i];
  }

  lemma DotsAre(a: string)
    ensures var t := Dots(a, 0);
      && (t.Some? ==> t.value + 1 < |a| && a[t.value] == a[t.value + 1] == '.')
      && forall i :: 0 <= i < |a| - 1 && a[i] == a[i + 1] == '.' ==> t.Some? && t.value <= i
  {
  }

  /** A sequence expression in braces, with a text in front that has no braces and anything behind it: the text
      goes before each of the terms, and what the rest expands to behind each of those. Without terms, the braces
      stay as they are. */
  lemma SequenceInWord(pre: string, a: string, post: string)
    requires Escaped(pre) && (forall c <- a :: Safe(c)) && ValidSeqTerm(a)
    ensures var text, terms := pre + "{" + a + "}" + post, Terms(a);
      var words := Product([pre], if terms.Some? then terms.value else ["{" + a + "}"]);
      BraceExpand(text, BASH) ==
        if terms == None && post == "" then [text]
        else if post == "" then words
        else Product(words, BraceExpand(post, BASH))
  {
    hide Terms, Gobble, Dots, Escaped, ValidSeqTerm, Product;
    var text, n := pre + "{" + a + "}" + post, |pre|;
    SafeStart(a);
    PartsOfWord(pre, a, post);
    var s := ScanEscaped(text, Start(0, '{'), pre, '{');
    BraceBegins(text, s, |a|);
    BraceExpansion.Ends(text, s, '{');
    ScanDots(text, n + 1, a, 0);
    ExpandsHere(text, n, n + 1 + |a|);
  }

  lemma PartsOfWord(pre: string, a: string, post: string)
    requires a != ""
    ensures var text, n := pre + "{" + a + "}" + post, |pre|;
      var end := n + 1 + |a|;
      && WrittenAt(text, 0, pre) && text[n] == '{' && text[n + 1..n + 1 + |a|][0] == a[0]
      && WrittenAt(text, n + 1, a + "}") && text[..n] == pre && text[n + 1..end] == a
      && text[n..end + 1] == "{" + a + "}" && text[end + 1..] == post && end < |text|
  {
    var text, n := pre + "{" + a + "}" + post, |pre|;
    assert text[n + 1..n + 1 + |a + "}"|] == a + "}";
  }

  lemma ExpandsHere(text: string, n: nat, end: nat)
    requires n < end < |text| && Gobble(text, Start(0, '{'), '{').i == n && ValidSeqTerm(text[n + 1..end])
    requires var t := Gobble(text, Start(n + 1, '}'), '}'); t.i == end && t.btype == BraceSeq
    ensures var terms := Terms(text[n + 1..end]);
      var words := Product([text[..n]], if terms.Some? then terms.value else [text[n..end + 1]]);
      BraceExpand(text, BASH) ==
        if terms == None && end + 1 == |text| then [text]
        else if end + 1 == |text| then words
        else Product(words, BraceExpand(text[end + 1..], BASH))
  {
    hide Terms, Gobble, ValidSeqTerm, Product, FindBrace, BraceExpand;
    FoundHere(text, n, end);
    ExpandsAt(text, n, end, BASH);
  }

  lemma ExpandsAt(text: string, n: nat, end: nat, rules: SeqRules)
    requires n < end < |text| && FindBrace(text, 0, rules) == n
    requires var t := Gobble(text, Start(n + 1, '}'), '}'); t.i == end && t.btype == BraceSeq
    ensures var terms := rules.terms(text[n + 1..end]);
      var words := Product([text[..n]], if terms.Some? then terms.value else [text[n..end + 1]]);
      BraceExpand(text, rules) ==
        if terms == None && end + 1 == |text| then [text]
        else if end + 1 == |text| then words
        else Product(words, BraceExpand(text[end + 1..], rules))
  {
    hide Gobble, Product, FindBrace, ExpandAmble;
  }

  lemma FoundHere(text: string, n: nat, end: nat)
    requires n < end < |text| && Gobble(text, Start(0, '{'), '{').i == n && ValidSeqTerm(text[n + 1..end])
    requires var t := Gobble(text, Start(n + 1, '}'), '}'); t.i == end && t.btype == BraceSeq
    ensures FindBrace(text, 0, BASH) == n
  {
    hide Gobble, ValidSeqTerm;
  }

  /** In braces alone it expands to its terms, or stays as it is if it has none. */
  lemma SequenceExpands(a: string)
    requires (forall c <- a :: Safe(c)) && ValidSeqTerm(a)
    ensures BraceExpand("{" + a + "}", BASH) == match Terms(a) case Some(words) => words case None => ["{" + a + "}"]
  {
    hide Terms, BraceExpand, ValidSeqTerm, Product;
    assert Escaped("");
    SequenceInWord("", a, "");
    assert "" + "{" + a + "}" + "" == "{" + a + "}";
    if Terms(a).Some? {
      ProductUnitLeft(Terms(a).value);
    }
  }

  lemma SafeStart(a: string)
    requires (forall c <- a :: Safe(c)) && ValidSeqTerm(a)
    ensures a != "" && Dots(a, 0).Some? && Dots(a, 0).value + 2 < |a| && Dots(a, 0).value > 0
    ensures !BraceWhitespace(a[0]) && a[0] != '}'
  {
    hide Dots;
    DotsAre(a);
    assert a[0] in a;
  }

  lemma SafeWritten(lhs: string, x: string, rhs: string, incr: Option<string>, z: string)
    requires LeftEnd(lhs, x) && Integer(rhs) && (incr.Some? ==> IncrText(incr.value, z))
    ensures forall c <- Written(lhs, rhs, incr) :: Safe(c)
  {
    hide Integer;
    IntegerChars(x);
    IntegerChars(rhs);
    forall c | c in lhs
      ensures Safe(c)
    {
      assert lhs == lhs[..|x|] + lhs[|x|..];
    }
    if incr.Some? {
      IntegerChars(z);
      var n := |incr.value| - |z|;
      forall c | c in incr.value
        ensures Safe(c)
      {
        assert incr.value == incr.value[..n] + incr.value[n..];
      }
    }
  }

  lemma NumeralAlone(num: string)
    requires IsNumeral(num)
    ensures LeftEnd(num, num) && IncrText(num, num) && IntegerValue(num) == Value(num)
  {
    hide Integer, IntegerValue;
    NumeralIsInteger(num);
    Whole(num);
    assert num[|num| - |num|..] == num && num[..|num| - |num|] == "";
  }

  /** Integers as the code takes them, with either sign and white space in its places. */
  lemma WrittenExpand(lhs: string, x: string, rhs: string, incr: Option<string>, z: string)
    requires LeftEnd(lhs, x) && Integer(rhs) && (incr.Some? ==> IncrText(incr.value, z))
    requires Fits(IntegerValue(x)) && Fits(IntegerValue(rhs)) && (incr.Some? ==> Fits(IntegerValue(z)))
    ensures var word := "{" + Written(lhs, rhs, incr) + "}";
      var pad := LeadingZero(lhs) || LeadingZero(rhs);
      BraceExpand(word, BASH) ==
        match Sequence(Ends(IntegerValue(x), IntegerValue(rhs), if incr.Some? then IntegerValue(z) else 1,
                            if pad then StZint else StInt, if pad then Longer(|lhs|, |rhs|) else 0))
        case Some(words) => words
        case None => [word]
  {
    hide ParseTerm, ValidSeqTerm, Sequence, BraceExpand, LeadingZero, Written, LeftEnd, IncrText, Integer, IntegerValue;
    IntegersParse(lhs, x, rhs, incr, z);
    SafeWritten(lhs, x, rhs, incr, z);
    SequenceExpands(Written(lhs, rhs, incr));
  }

  /** For all 64-bit integers, `{x..y..z}` expands to the numbers from x to y in steps of the size of z, in decimal;
      it stays as it is only if z is the least integer or the ends are too far apart. */
  lemma IntegersExpand(x: int64, y: int64, z: int64)
    ensures var word := "{" + Written(Itos(x), Itos(y), Some(Itos(z))) + "}";
      BraceExpand(word, BASH) ==
        match Sequence(Ends(x, y, z, StInt, 0))
        case Some(words) => words
        case None => [word]
  {
    hide Itos, Sequence, BraceExpand, LeadingZero, Written, Integer, IntegerValue, LeftEnd, IncrText;
    ItosValue(x);
    ItosValue(y);
    ItosValue(z);
    ItosPlain(x);
    ItosPlain(y);
    NumeralAlone(Itos(x));
    NumeralIsInteger(Itos(y));
    NumeralAlone(Itos(z));
    WrittenExpand(Itos(x), Itos(x), Itos(y), Some(Itos(z)), Itos(z));
  }

  /** Ends padded to the same width give terms of that width: `{001..010}`. */
  lemma PaddedExpand(x: int64, y: int64, width: nat)
    requires |Itos(x)| < width && |Itos(y)| <= width
    ensures var word := "{" + Written(Padded(x, width), Padded(y, width), None) + "}";
      BraceExpand(word, BASH) ==
        match Sequence(Ends(x, y, 1, StZint, width))
        case Some(words) => words
        case None => [word]
  {
    hide Itos, Padded, Sequence, BraceExpand, LeadingZero, Written, Integer, IntegerValue, LeftEnd, IncrText;
    var lhs, rhs := Padded(x, width), Padded(y, width);
    PaddedValue(x, width);
    PaddedValue(y, width);
    PaddedLeads(x, width);
    NumeralAlone(lhs);
    NumeralIsInteger(rhs);
    WrittenExpand(lhs, lhs, rhs, None, "");
  }

  /** `{a..e}`: the letters, or whatever else lies between them. */
  lemma LettersExpand(x: char, y: char)
    requires Alpha(x) && Alpha(y)
    ensures var word := "{" + [x] + ".." + [y] + "}";
      BraceExpand(word, BASH) ==
        match Sequence(Ends(x as int, y as int, 1, StChar, 1))
        case Some(words) => words
        case None => [word]
  {
    hide BraceExpand, Sequence;
    var a := [x] + ".." + [y];
    assert a == [x, '.', '.', y];
    assert a[..1] == [x] && a[3..] == [y];
    assert Dots(a, 0) == Some(1) by {
      assert Dots(a, 1) == Some(1);
    }
    assert "{" + [x] + ".." + [y] + "}" == "{" + a + "}";
    SequenceExpands(a);
  }
}
