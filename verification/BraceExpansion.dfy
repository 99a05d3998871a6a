/** brace_expand, expand_amble and array_concat (braces.c:103-293, 299-365, 812-873). */
module BraceExpansion {
  import opened Wrappers
  import opened BraceScan
  import opened BraceWords
  import opened Seqs

  /** What the code makes of `{x..y}`: whether valid_seqterm lets the text between the braces pass,
      and the terms expand_seqterm finds in it, if any. Every theorem here holds for any such rules. */
  datatype SeqRules = SeqRules(valid: string -> bool, terms: string -> Option<seq<string>>)

  /** The position of the first brace that begins an expansion, or the length of the text. */
  function FindBrace(text: string, from: nat, rules: SeqRules): (r: nat)
    requires from <= |text|
    ensures from <= r <= |text|
    decreases |text| - from
  {
    var s := Gobble(text, Start(from, '{'), '{');
    if s.i == |text| then |text|
    else if Opens(text, s.i, rules) then s.i
    else FindBrace(text, s.i + 1, rules)
  }

  predicate Opens(text: string, i: nat, rules: SeqRules)
    requires i < |text|
  {
    var t := Gobble(text, Start(i + 1, '}'), '}');
    t.i < |text| && (t.btype == BraceSeq ==> rules.valid(text[i + 1..t.i]))
  }

  function BraceExpand(text: string, rules: SeqRules): seq<string>
    decreases |text|, 0, 0
  {
    var i := FindBrace(text, 0, rules);
    if i == |text| then [text]
    else
      var t := Gobble(text, Start(i + 1, '}'), '}');
      if t.i == |text| then [text]
      else
        var amble := text[i + 1..t.i];
        var tack := if t.btype == BraceSeq then rules.terms(amble) else Some(ExpandAmble(amble, 0, rules));
        if tack.None? && t.i + 1 == |text| then [text]
        else
          var words := if tack.Some? then tack.value else [text[i..t.i + 1]];
          var result := Product([text[..i]], words);
          if t.i + 1 == |text| then result
          else Product(result, BraceExpand(text[t.i + 1..], rules))
  }

  /** The alternatives from position `from` on, each expanded, one after the other. */
  function ExpandAmble(text: string, from: nat, rules: SeqRules): seq<string>
    requires from <= |text|
    decreases |text|, 1, |text| - from
  {
    var s := Gobble(text, Start(from, ','), ',');
    var partial := BraceExpand(text[from..s.i], rules);
    if s.i == |text| then partial else partial + ExpandAmble(text, s.i + 1, rules)
  }

  // ---------------------------------------------------------------- the code

  /** Appending each string of `arr2` to each of `arr1`, None standing for a null array. The short
      cuts for a single empty string change nothing. */
  method ArrayConcat(arr1: Option<seq<string>>, arr2: Option<seq<string>>) returns (result: Option<seq<string>>)
    ensures arr1.None? ==> result == arr2
    ensures arr2.None? ==> result == arr1
    ensures arr1.Some? && arr2.Some? ==> result == Some(Product(arr1.value, arr2.value))
  {
    if arr1.None? {
      return arr2;
    }
    if arr2.None? {
      return arr1;
    }
    var a1, a2 := arr1.value, arr2.value;
    if |a1| == 1 && a1[0] == "" {
      ProductUnitLeft(a2);
      return arr2;
    }
    if |a2| == 1 && a2[0] == "" {
      assert a2 == [""];
      ProductUnitRight(a1);
      return arr1;
    }
    hide Product, Row;
    var out := [];
    var i := 0;
    Whole(a1);
    Units(Product(a1, a2));
    while i < |a1|
      invariant i <= |a1|
      invariant out + Product(a1[i..], a2) == Product(a1, a2)
    {
      ProductStep(a1, i, a2);
      Assoc(out, Row(a1[i], a2), Product(a1[i + 1..], a2));
      ghost var before := out;
      var j := 0;
      Units(before);
      while j < |a2|
        invariant j <= |a2|
        invariant out == before + Row(a1[i], a2)[..j]
      {
        TakeOne(Row(a1[i], a2), j);
        Assoc(before, Row(a1[i], a2)[..j], [a1[i] + a2[j]]);
        RowAt(a1[i], a2, j);
        out := out + [a1[i] + a2[j]];
        j := j + 1;
      }
      Whole(Row(a1[i], a2));
      i := i + 1;
    }
    ProductNone(a2);
    Units(out);
    return Some(out);
  }

  lemma ProductStep(xs: seq<string>, i: nat, ys: seq<string>)
    requires i < |xs|
    ensures Product(xs[i..], ys) == Row(xs[i], ys) + Product(xs[i + 1..], ys)
  {
    DropOne(xs, i);
  }

  lemma ProductNone(ys: seq<string>)
    ensures Product([], ys) == []
  {
  }

  lemma RowAt(x: string, ys: seq<string>, j: nat)
    requires j < |ys|
    ensures Row(x, ys)[j] == x + ys[j]
  {
  }

  method FindBraceIn(text: string, rules: SeqRules) returns (i: nat, c: char)
    ensures i == FindBrace(text, 0, rules) && c == (if i < |text| then '{' else NUL)
  {
    hide Gobble, Step, Stops;
    var typep, etype, c1, j;
    i := 0;
    while true
      invariant i <= |text| && FindBrace(text, i, rules) == FindBrace(text, 0, rules)
      decreases |text| - i
    {
      i, c, typep := BraceGobbler(text, i, '{');
      if i >= |text| {
        return;
      }
      j, c1, etype := BraceGobbler(text, i + 1, '}');
      if c1 != NUL && etype == BraceSeq && !rules.valid(text[i + 1..j]) {
        c1 := NUL;
      }
      if c1 != NUL {
        return;
      }
      i := i + 1;
      if i == |text| {
        assert FindBrace(text, i, rules) == |text|;
        return i, NUL;
      }
    }
  }

  /** The array of strings `text` expands to. */
  method BraceExpandText(text: string, rules: SeqRules) returns (result: seq<string>)
    ensures result == BraceExpand(text, rules)
    decreases |text|, 0, 0
  {
    hide Gobble, FindBrace, ExpandAmble, Product;
    var i, c := FindBraceIn(text, rules);
    if c != '{' {
      return [text];
    }
    var preamble, start := text[..i], i + 1;
    var etype;
    i, c, etype := BraceGobbler(text, start, '}');
    if c == NUL {
      return [text];
    }
    var amble := text[start..i];
    var tack;
    if etype == BraceSeq {
      tack := rules.terms(amble);
      if tack.None? {
        if i + 1 < |text| {
          tack := Some([text[start - 1..i + 1]]);
        } else {
          return [text];
        }
      }
    } else {
      var words := ExpandAmbleText(amble, rules);
      tack := Some(words);
    }
    var total := ArrayConcat(Some([preamble]), tack);
    if i + 1 < |text| {
      var postamble := BraceExpandText(text[i + 1..], rules);
      total := ArrayConcat(total, Some(postamble));
    }
    result := total.value;
  }

  method ExpandAmbleText(text: string, rules: SeqRules) returns (result: seq<string>)
    ensures result == ExpandAmble(text, 0, rules)
    decreases |text|, 1, 0
  {
    hide Gobble, BraceExpand, ExpandAmble;
    AmbleStep(text, 0, rules);
    Whole(text);
    var i, c, typep := BraceGobbler(text, 0, ',');
    result := BraceExpandText(text[0..i], rules);
    while c != NUL
      invariant i <= |text| && (c != NUL ==> i < |text|)
      invariant ExpandAmble(text, 0, rules) ==
                if c == NUL then result else result + ExpandAmble(text, i + 1, rules)
      decreases |text| - i, c != NUL
    {
      var start := i + 1;
      AmbleStep(text, start, rules);
      i, c, typep := BraceGobbler(text, start, ',');
      var partial := BraceExpandText(text[start..i], rules);
      Assoc(result, partial, if c == NUL then [] else ExpandAmble(text, i + 1, rules));
      result := result + partial;
    }
  }

  lemma AmbleStep(text: string, from: nat, rules: SeqRules)
    requires from <= |text|
    ensures var i := Gobble(text, Start(from, ','), ',').i;
      ExpandAmble(text, from, rules) == BraceExpand(text[from..i], rules)
                                        + if i == |text| then [] else ExpandAmble(text, i + 1, rules)
  {
  }

  // ---------------------------------------------------------------- products

  lemma {:induction false} ProductUnitLeft(ys: seq<string>)
    ensures Product([""], ys) == ys
  {
    assert Product([""][1..], ys) == [];
    assert forall j :: 0 <= j < |ys| ==> "" + ys[j] == ys[j];
    assert Row("", ys) == ys;
  }

  lemma {:induction false} ProductUnitRight(xs: seq<string>)
    ensures Product(xs, [""]) == xs
  {
    if xs != [] {
      ProductUnitRight(xs[1..]);
      assert xs[0] + "" == xs[0];
      assert Row(xs[0], [""]) == [xs[0]];
    }
  }

  // ---------------------------------------------------------------- expanding printed words

  /** What follows an open brace that begins a group is never white space or a close brace. */
  lemma FirstOfGroup(a: Alternatives)
    requires WellFormedAll(a) && a.Next?
    ensures |PrintAll(a)| > 0 && !BraceWhitespace(PrintAll(a)[0]) && PrintAll(a)[0] != '}'
  {
    FirstOfWord(a.word);
  }

  lemma FirstOfWord(w: Word)
    requires WellFormed(w)
    ensures Print(w) != "" ==> !BraceWhitespace(Print(w)[0]) && Print(w)[0] != '}'
  {
  }

  /** In a printed word the search for an expansion ends at the brace of its first group. */
  lemma {:induction false} FindFirstGroup(w: Word, rules: SeqRules)
    requires WellFormed(w)
    ensures FindBrace(Print(w), 0, rules) == if w.Plain? then |Print(w)| else |w.pre|
    ensures w.Braces? ==>
      var t := Gobble(Print(w), Start(|w.pre| + 1, '}'), '}');
      t.i == |w.pre| + 1 + |PrintAll(w.alts)| && t.btype == BraceComma
  {
    hide Gobble, FindBrace, Stops;
    var text, s := Print(w), Start(0, '{');
    match w
    case Plain(e) =>
      var t := ScanEscaped(text, s, e, '{');
      Ends(text, t, '{');
      FindNone(text, rules);
    case Braces(pre, alts, post) =>
      hide Print, PrintAll, Escaped, WrittenAt;
      WrittenBraces(text, 0, w);
      var t := ScanEscaped(text, s, pre, '{');
      FirstOfGroup(alts);
      BraceBegins(text, t, |PrintAll(alts)|);
      Ends(text, t, '{');
      var u := ScanAll(text, Start(|pre| + 1, '}'), alts, '}');
      CloseEnds(text, u);
      FindHere(text, |pre|, rules);
  }

  lemma FindNone(text: string, rules: SeqRules)
    requires Gobble(text, Start(0, '{'), '{').i == |text|
    ensures FindBrace(text, 0, rules) == |text|
  {
  }

  lemma FindHere(text: string, i: nat, rules: SeqRules)
    requires i < |text| && Gobble(text, Start(0, '{'), '{').i == i
    requires var t := Gobble(text, Start(i + 1, '}'), '}'); t.i < |text| && t.btype == BraceComma
    ensures FindBrace(text, 0, rules) == i
  {
  }

  lemma CloseEnds(text: string, s: Scan)
    requires s.i < |text| && Clear(s) && text[s.i] == '}' && s.level == 0 && s.commas > 0
    ensures Gobble(text, s, '}') == s
  {
  }

  lemma Ends(text: string, s: Scan, satisfy: char)
    requires s.i == |text| || (s.i < |text| && Stops(text, s, satisfy))
    ensures Gobble(text, s, satisfy) == s
  {
  }

  /** An open brace that has no white space and no close brace behind it stops the search. */
  lemma BraceBegins(text: string, s: Scan, n: nat)
    requires Clear(s) && s.level == 0 && s.commas > 0 && s.i + 1 + n < |text| && n > 0
    requires text[s.i] == '{' && var c := text[s.i + 1..s.i + 1 + n][0]; !BraceWhitespace(c) && c != '}'
    ensures Stops(text, s, '{')
  {
  }

  /** Looking for a comma from the start of a printed alternative ends behind that alternative. */
  lemma {:induction false} NextComma(text: string, from: nat, w: Word, tail: string)
    requires WellFormed(w) && WrittenAt(text, from, Print(w) + tail)
    requires from + |Print(w)| + |tail| == |text| && (tail != "" ==> tail[0] == ',')
    ensures Gobble(text, Start(from, ','), ',').i == from + |Print(w)|
    ensures text[from..from + |Print(w)|] == Print(w)
  {
    hide Gobble, Step;
    WrittenSplit(text, from, Print(w), tail);
    var t := ScanWord(text, Start(from, ','), w, ',');
    if tail != "" {
      assert text[t.i..t.i + |tail|][0] == ',';
    }
    Ends(text, t, ',');
  }

  /** Splitting a printed list of alternatives at its commas gives the alternatives back. */
  lemma {:induction false} ExpandPrintedAll(text: string, from: nat, a: Alternatives, rules: SeqRules)
    requires WellFormedAll(a) && from <= |text| && text[from..] == PrintAll(a)
    ensures ExpandAmble(text, from, rules) == DenoteAll(a)
    decreases a
  {
    hide Gobble, BraceExpand, WellFormed, Denote, Print, PrintAll;
    ExpandPrinted(a.word, rules);
    AmbleParts(text, from, a);
    if a.Next? {
      ExpandPrintedAll(text, from + |Print(a.word)| + 1, a.rest, rules);
    }
  }

  lemma AmbleParts(text: string, from: nat, a: Alternatives)
    requires WellFormedAll(a) && from <= |text| && text[from..] == PrintAll(a)
    ensures var comma := from + |Print(a.word)|;
      && comma <= |text| && (comma == |text| <==> a.Last?)
      && Gobble(text, Start(from, ','), ',').i == comma && text[from..comma] == Print(a.word)
      && (a.Next? ==> text[comma + 1..] == PrintAll(a.rest))
  {
    hide Gobble;
    var word := Print(a.word);
    var tail := if a.Last? then "" else "," + PrintAll(a.rest);
    assert PrintAll(a) == word + tail;
    assert text[from..from + |word + tail|] == text[from..];
    NextComma(text, from, a.word, tail);
    assert a.Next? ==> text[from + |word| + 1..] == text[from..][|word| + 1..] == PrintAll(a.rest);
  }

  /** The expansion of a printed tree is the list the tree stands for, in row-major order. */
  lemma {:induction false} ExpandPrinted(w: Word, rules: SeqRules)
    requires WellFormed(w)
    ensures BraceExpand(Print(w), rules) == Denote(w)
    decreases w
  {
    hide Gobble, FindBrace, ExpandAmble, Product, PrintAll, DenoteAll, WrittenAt, Escaped;
    FindFirstGroup(w, rules);
    if w.Braces? {
      var text := Print(w);
      var end := |w.pre| + 1 + |PrintAll(w.alts)|;
      WrittenBraces(text, 0, w);
      var amble := text[|w.pre| + 1..end];
      ExpandPrintedAll(amble, 0, w.alts, rules);
      ExpandPrinted(w.post, rules);
      assert text[..|w.pre|] == w.pre;
      assert text[end + 1..] == Print(w.post);
      if end + 1 == |text| {
        EmptyPrint(w.post);
        ProductUnitRight(Product([w.pre], DenoteAll(w.alts)));
      }
    }
  }

  lemma EmptyPrint(w: Word)
    requires Print(w) == ""
    ensures w == Plain("")
  {
  }
}
