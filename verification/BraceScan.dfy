/** The scanner of brace expansion, brace_gobbler (braces.c:637-805): it walks a word, minding
    backslashes, quotes and nested braces, until it meets the character it was asked for.
    Words are C strings, so NUL stands for "past the end". */
module BraceScan {
  const NUL: char := '\0'

  datatype BraceType = BraceNone | BraceComma | BraceSeq

  /** The scanner's local variables. `quoted` is NUL or the quote character that is open. */
  datatype Scan = Scan(i: nat, quoted: char, level: nat, commas: nat, passNext: bool, btype: BraceType)

  function CharAt(text: string, i: nat): char {
    if i < |text| then text[i] else NUL
  }

  predicate BraceWhitespace(c: char) {
    c == NUL || c == ' ' || c == '\t' || c == '\n'
  }

  function Start(i: nat, satisfy: char): Scan {
    Scan(i, NUL, 0, if satisfy == '}' then 0 else 1, false, BraceNone)
  }

  /** An open brace between white space, or an empty pair of braces after white space, is text. */
  predicate LooseBrace(text: string, i: nat) {
    && (i == 0 || BraceWhitespace(CharAt(text, i - 1)))
    && (BraceWhitespace(CharAt(text, i + 1)) || CharAt(text, i + 1) == '}')
  }

  predicate SeqSpecifier(text: string, i: nat) {
    CharAt(text, i) == '.' && CharAt(text, i + 1) == '.'
  }

  predicate Stops(text: string, s: Scan, satisfy: char)
    requires s.i < |text|
  {
    var c := text[s.i];
    && !s.passNext
    && !(c == '\\' && s.quoted in {NUL, '"', '`'})
    && !(c == '$' && CharAt(text, s.i + 1) == '{' && s.quoted != '\'')
    && s.quoted == NUL
    && c !in {'"', '\'', '`'}
    && c == satisfy && s.level == 0 && s.commas > 0
    && !(c == '{' && LooseBrace(text, s.i))
  }

  /** What one turn of the loop does to the variables when it does not stop. */
  function Step(text: string, s: Scan, satisfy: char): (r: Scan)
    requires s.i < |text|
    ensures r.i == s.i + 1
  {
    var c := text[s.i];
    var n := s.(i := s.i + 1);
    if s.passNext then n.(passNext := false)
    else if c == '\\' && s.quoted in {NUL, '"', '`'} then n.(passNext := true)
    else if c == '$' && CharAt(text, s.i + 1) == '{' && s.quoted != '\'' then
      n.(passNext := true, level := if s.quoted == NUL then s.level + 1 else s.level)
    else if s.quoted != NUL then n.(quoted := if c == s.quoted then NUL else s.quoted)
    else if c in {'"', '\'', '`'} then n.(quoted := c)
    else if c == satisfy && s.level == 0 && s.commas > 0 then n
    else if c == '{' then n.(level := s.level + 1)
    else if c == '}' && s.level > 0 then n.(level := s.level - 1)
    else if satisfy == '}' && c == ',' && s.level == 0 then
      n.(btype := BraceComma, commas := s.commas + 1)
    else if satisfy == '}' && SeqSpecifier(text, s.i) && CharAt(text, s.i + 2) != satisfy
            && s.level == 0 && s.btype == BraceNone then
      n.(btype := BraceSeq, commas := s.commas + 1)
    else n
  }

  /** The state in which the loop ends: at the character asked for, or at the end of the text. */
  function Gobble(text: string, s: Scan, satisfy: char): (r: Scan)
    requires s.i <= |text|
    ensures s.i <= r.i <= |text|
    ensures r.i < |text| ==> Stops(text, r, satisfy)
    decreases |text| - s.i
  {
    if s.i == |text| || Stops(text, s, satisfy) then s
    else Gobble(text, Step(text, s, satisfy), satisfy)
  }

  /** The scanner itself. `c` is the character found, NUL for none. */
  method BraceGobbler(text: string, indx: nat, satisfy: char)
    returns (i: nat, c: char, typep: BraceType)
    requires indx <= |text|
    ensures var r := Gobble(text, Start(indx, satisfy), satisfy);
      i == r.i && typep == r.btype && c == (if r.i < |text| then satisfy else NUL)
  {
    var quoted, level, commas, passNext := NUL, 0, if satisfy == '}' then 0 else 1, false;
    typep, i := BraceNone, indx;
    ghost var end := Gobble(text, Start(indx, satisfy), satisfy);
    while i < |text|
      invariant i <= |text| && level >= 0 && commas >= 0
      invariant Gobble(text, Scan(i, quoted, level, commas, passNext, typep), satisfy) == end
    {
      c := text[i];
      if passNext {
        passNext, i := false, i + 1;
        continue;
      }
      if c == '\\' && (quoted == NUL || quoted == '"' || quoted == '`') {
        passNext, i := true, i + 1;
        continue;
      }
      if c == '$' && CharAt(text, i + 1) == '{' && quoted != '\'' {
        if quoted == NUL {
          level := level + 1;
        }
        passNext, i := true, i + 1;
        continue;
      }
      if quoted != NUL {
        if c == quoted {
          quoted := NUL;
        }
        i := i + 1;
        continue;
      }
      if c == '"' || c == '\'' || c == '`' {
        quoted, i := c, i + 1;
        continue;
      }
      if c == satisfy && level == 0 && quoted == NUL && commas > 0 {
        if c == '{' && LooseBrace(text, i) {
          i := i + 1;
          continue;
        }
        return;
      }
      if c == '{' {
        level := level + 1;
      } else if c == '}' && level > 0 {
        level := level - 1;
      } else if satisfy == '}' && c == ',' && level == 0 {
        typep, commas := BraceComma, commas + 1;
      } else if satisfy == '}' && SeqSpecifier(text, i) && CharAt(text, i + 2) != satisfy
                && level == 0 && typep == BraceNone {
        typep, commas := BraceSeq, commas + 1;
      }
      i := i + 1;
    }
    c := NUL;
  }
}
