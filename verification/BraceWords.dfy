/** Words as trees: the language brace expansion is for, how a tree is written and what list of
    words it stands for. The denotation never looks at text, so it is independent of the code. */
module BraceWords {
  import opened BraceScan

  /** `pre{alternatives}post`, or a word without any brace. */
  datatype Word =
    | Plain(text: string)
    | Braces(pre: string, alts: Alternatives, post: Word)

  datatype Alternatives =
    | Last(word: Word)
    | Next(word: Word, rest: Alternatives)

  /** Characters the scanner or the shell's parser gives a meaning to. */
  predicate Special(c: char) {
    c in {NUL, '\\', '$', '"', '\'', '`', '{', '}', ',', '<', '>', '(', ' ', '\t', '\n'}
  }

  /** Every special character stands behind a backslash, and no backslash is left over. */
  predicate Escaped(e: string) {
    || e == []
    || (|e| >= 2 && e[0] == '\\' && Escaped(e[2..]))
    || (!Special(e[0]) && Escaped(e[1..]))
  }

  /** A brace group has two or more alternatives. */
  predicate WellFormed(w: Word) {
    match w
    case Plain(t) => Escaped(t)
    case Braces(pre, alts, post) => Escaped(pre) && alts.Next? && WellFormedAll(alts) && WellFormed(post)
  }

  predicate WellFormedAll(a: Alternatives) {
    match a
    case Last(w) => WellFormed(w)
    case Next(w, rest) => WellFormed(w) && WellFormedAll(rest)
  }

  function Print(w: Word): string {
    match w
    case Plain(t) => t
    case Braces(pre, alts, post) => pre + "{" + PrintAll(alts) + "}" + Print(post)
  }

  function PrintAll(a: Alternatives): string {
    match a
    case Last(w) => Print(w)
    case Next(w, rest) => Print(w) + "," + PrintAll(rest)
  }

  /** Each string of `xs` followed by each string of `ys`, row by row. */
  function Product(xs: seq<string>, ys: seq<string>): (r: seq<string>)
    ensures |r| == |xs| * |ys|
  {
    if xs == [] then [] else Row(xs[0], ys) + Product(xs[1..], ys)
  }

  function Row(x: string, ys: seq<string>): (r: seq<string>)
    ensures |r| == |ys|
  {
    seq(|ys|, j requires 0 <= j < |ys| => x + ys[j])
  }

  /** The words a tree stands for. */
  function Denote(w: Word): seq<string> {
    match w
    case Plain(t) => [t]
    case Braces(pre, alts, post) => Product(Product([pre], DenoteAll(alts)), Denote(post))
  }

  function DenoteAll(a: Alternatives): seq<string> {
    match a
    case Last(w) => Denote(w)
    case Next(w, rest) => Denote(w) + DenoteAll(rest)
  }

  // ---------------------------------------------------------------- scanning printed words

  /** `e` is written in `text` from position `i` on. */
  predicate WrittenAt(text: string, i: nat, e: string) {
    i + |e| <= |text| && text[i..i + |e|] == e
  }

  lemma WrittenSplit(text: string, i: nat, a: string, b: string)
    requires WrittenAt(text, i, a + b)
    ensures WrittenAt(text, i, a) && WrittenAt(text, i + |a|, b)
  {
    assert text[i..i + |a|] == (a + b)[..|a|];
    assert text[i + |a|..i + |a| + |b|] == (a + b)[|a|..];
  }

  /** The scanner is between two characters, outside all quotes. */
  predicate Clear(s: Scan) {
    s.quoted == NUL && !s.passNext
  }

  /** `t` is a state the scanner passes through after `s` without changing its mind about how many
      separators it saw, except that a search for a close brace at level 0 may have seen more. */
  ghost predicate Passes(text: string, s: Scan, t: Scan, satisfy: char, len: nat) {
    && Clear(t) && t.i == s.i + len <= |text| && t.level == s.level
    && Gobble(text, s, satisfy) == Gobble(text, t, satisfy)
    && s.commas <= t.commas
    && (s.btype == BraceComma ==> t.btype == BraceComma)
    && (satisfy != '}' || s.level > 0 ==> t.commas == s.commas && t.btype == s.btype)
  }

  lemma OverEscape(text: string, s: Scan, satisfy: char)
    requires Clear(s) && s.i + 1 < |text| && text[s.i] == '\\'
    ensures Passes(text, s, s.(i := s.i + 2), satisfy, 2)
  {
    var s1 := Step(text, s, satisfy);
    assert Step(text, s1, satisfy) == s.(i := s.i + 2);
  }

  lemma OverOrdinary(text: string, s: Scan, satisfy: char) returns (t: Scan)
    requires Clear(s) && s.i < |text| && !Special(text[s.i]) && satisfy in {'{', '}', ','}
    ensures Passes(text, s, t, satisfy, 1)
  {
    t := Step(text, s, satisfy);
  }

  lemma OverOpen(text: string, s: Scan, satisfy: char)
    requires Clear(s) && s.i < |text| && text[s.i] == '{' && (satisfy == '{' ==> s.level > 0)
    ensures Gobble(text, s, satisfy) == Gobble(text, s.(i := s.i + 1, level := s.level + 1), satisfy)
  {
  }

  lemma OverClose(text: string, s: Scan, satisfy: char)
    requires Clear(s) && s.i < |text| && text[s.i] == '}' && s.level > 0
    ensures Gobble(text, s, satisfy) == Gobble(text, s.(i := s.i + 1, level := s.level - 1), satisfy)
  {
  }

  lemma OverComma(text: string, s: Scan, satisfy: char) returns (t: Scan)
    requires Clear(s) && s.i < |text| && text[s.i] == ','
    requires satisfy == '}' || (satisfy in {'{', ','} && s.level > 0)
    ensures Passes(text, s, t, satisfy, 1)
    ensures satisfy == '}' && s.level == 0 ==> t.btype == BraceComma && t.commas > 0
  {
    t := Step(text, s, satisfy);
  }

  lemma {:induction false} ScanEscaped(text: string, s: Scan, e: string, satisfy: char) returns (t: Scan)
    requires Clear(s) && WrittenAt(text, s.i, e) && Escaped(e) && satisfy in {'{', '}', ','}
    ensures Passes(text, s, t, satisfy, |e|)
    decreases |e|
  {
    hide Gobble;
    if e == [] {
      t := s;
    } else {
      var k := if e[0] == '\\' then 2 else 1;
      assert e == e[..k] + e[k..];
      WrittenSplit(text, s.i, e[..k], e[k..]);
      assert text[s.i] == text[s.i..s.i + |e|][0];
      if k == 2 {
        OverEscape(text, s, satisfy);
        t := ScanEscaped(text, s.(i := s.i + 2), e[2..], satisfy);
      } else {
        t := OverOrdinary(text, s, satisfy);
        t := ScanEscaped(text, t, e[1..], satisfy);
      }
    }
  }

  lemma WrittenBraces(text: string, i: nat, w: Word)
    requires w.Braces? && WrittenAt(text, i, Print(w))
    ensures var inner := i + |w.pre| + 1; var after := inner + |PrintAll(w.alts)|;
      && WrittenAt(text, i, w.pre) && WrittenAt(text, inner, PrintAll(w.alts))
      && WrittenAt(text, after + 1, Print(w.post))
      && text[inner - 1] == '{' && text[after] == '}'
      && |Print(w)| == |w.pre| + |PrintAll(w.alts)| + |Print(w.post)| + 2
  {
    var inner := i + |w.pre| + 1;
    WrittenSplit(text, i, w.pre + "{" + PrintAll(w.alts) + "}", Print(w.post));
    WrittenSplit(text, i, w.pre + "{" + PrintAll(w.alts), "}");
    WrittenSplit(text, i, w.pre + "{", PrintAll(w.alts));
    WrittenSplit(text, i, w.pre, "{");
    assert text[inner - 1..inner][0] == text[inner - 1];
    assert text[inner + |PrintAll(w.alts)|..inner + |PrintAll(w.alts)| + 1][0] == text[inner + |PrintAll(w.alts)|];
  }

  /** The scanner walks over a whole printed word, unless it looks for its open brace. */
  lemma {:induction false} ScanWord(text: string, s: Scan, w: Word, satisfy: char) returns (t: Scan)
    requires Clear(s) && WellFormed(w) && WrittenAt(text, s.i, Print(w))
    requires satisfy in {'}', ','} || (satisfy == '{' && s.level > 0)
    ensures Passes(text, s, t, satisfy, |Print(w)|)
    decreases w, 1
  {
    match w
    case Plain(e) =>
      t := ScanEscaped(text, s, e, satisfy);
    case Braces(pre, alts, post) =>
      WrittenBraces(text, s.i, w);
      t := ScanBraces(text, s, w, satisfy);
      t := ScanWord(text, t, post, satisfy);
  }

  /** ... over the part up to and including the close brace ... */
  lemma {:induction false} ScanBraces(text: string, s: Scan, w: Word, satisfy: char) returns (t: Scan)
    requires Clear(s) && w.Braces? && WellFormed(w) && WrittenAt(text, s.i, Print(w))
    requires satisfy in {'}', ','} || (satisfy == '{' && s.level > 0)
    ensures Passes(text, s, t, satisfy, |w.pre| + 1 + |PrintAll(w.alts)| + 1)
    decreases w, 0
  {
    hide Gobble, Print, PrintAll, WrittenAt;
    WrittenBraces(text, s.i, w);
    var s1 := ScanEscaped(text, s, w.pre, satisfy);
    OverOpen(text, s1, satisfy);
    var s2 := s1.(i := s1.i + 1, level := s1.level + 1);
    var s3 := ScanAll(text, s2, w.alts, satisfy);
    OverClose(text, s3, satisfy);
    t := s3.(i := s3.i + 1, level := s3.level - 1);
  }

  /** Likewise for a list of alternatives; a search for the close brace counts their commas. */
  lemma {:induction false} ScanAll(text: string, s: Scan, a: Alternatives, satisfy: char) returns (t: Scan)
    requires Clear(s) && WellFormedAll(a) && WrittenAt(text, s.i, PrintAll(a))
    requires satisfy == '}' || (satisfy in {'{', ','} && s.level > 0)
    ensures Passes(text, s, t, satisfy, |PrintAll(a)|)
    ensures satisfy == '}' && s.level == 0 && a.Next? ==> t.btype == BraceComma && t.commas > 0
    decreases a
  {
    hide Gobble, Print, WrittenAt;
    match a
    case Last(w) =>
      t := ScanWord(text, s, w, satisfy);
    case Next(w, rest) =>
      WrittenNext(text, s.i, w, rest);
      t := ScanWord(text, s, w, satisfy);
      t := OverComma(text, t, satisfy);
      t := ScanAll(text, t, rest, satisfy);
  }

  lemma WrittenNext(text: string, i: nat, w: Word, rest: Alternatives)
    requires WrittenAt(text, i, PrintAll(Next(w, rest)))
    ensures var comma := i + |Print(w)|;
      WrittenAt(text, i, Print(w)) && text[comma] == ',' && WrittenAt(text, comma + 1, PrintAll(rest))
  {
    WrittenSplit(text, i, Print(w) + ",", PrintAll(rest));
    WrittenSplit(text, i, Print(w), ",");
    assert text[i + |Print(w)|..i + |Print(w)| + 1][0] == text[i + |Print(w)|];
  }
}
