/** Backslash quoting for completion (sh_backslash_quote, lib/sh/shquote.c:257-306, with the default
    table and no flags) and its removal (bash_dequote_filename, bashline.c:4210-4251). Bytes above
    127 pass through both unchanged. */
module Quoting {
  import opened BraceScan
  import opened BraceWords
  import opened Seqs

  /** The characters bstab marks (shquote.c:43-73). */
  predicate InTable(c: char) {
    c in {'\t', '\n', ' ', '!', '"', '$', '&', '\'', '(', ')', '*', ',', ';', '<', '>', '?',
          '[', '\\', ']', '^', '`', '{', '|', '}'}
  }

  /** What quoting makes of the characters from position `i` on. */
  function QuoteFrom(s: string, i: nat): string
    requires i <= |s|
    decreases |s| - i
  {
    if i == |s| then ""
    else QuoteAt(s, i) + QuoteFrom(s, i + 1)
  }

  /** A number sign is special at the start only. */
  function QuoteAt(s: string, i: nat): string
    requires i < |s|
  {
    if InTable(s[i]) || (s[i] == '#' && i == 0) then ['\\', s[i]] else [s[i]]
  }

  function Quote(s: string): string { QuoteFrom(s, 0) }

  method BackslashQuote(s: string) returns (r: string)
    ensures r == Quote(s)
  {
    hide QuoteFrom;
    r := "";
    var i := 0;
    Units(QuoteFrom(s, 0));
    while i < |s|
      invariant i <= |s| && r + QuoteFrom(s, i) == Quote(s)
    {
      QuoteStep(s, i);
      Assoc(r, QuoteAt(s, i), QuoteFrom(s, i + 1));
      Assoc(r, "\\", [s[i]]);
      if InTable(s[i]) {
        r := r + "\\";
      } else if s[i] == '#' && i == 0 {
        r := r + "\\";
      }
      r := r + [s[i]];
      i := i + 1;
    }
    QuoteStep(s, i);
    Units(r);
  }

  lemma QuoteStep(s: string, i: nat)
    requires i <= |s|
    ensures QuoteFrom(s, i) == if i == |s| then "" else QuoteAt(s, i) + QuoteFrom(s, i + 1)
    ensures i < |s| && |QuoteAt(s, i)| == 2 ==> QuoteAt(s, i) == "\\" + [s[i]]
  {
  }

  /** Quote removal with `quoted` open (NUL for no quote). A backslash inside double quotes stays
      unless it stands before one of the characters it can escape there. */
  function DequoteFrom(text: string, quoted: char): string {
    if text == "" then ""
    else
      var c := text[0];
      if quoted != '\'' && c == '\\' then
        if |text| == 1 then KeptBackslash(text, 0, quoted)
        else KeptBackslash(text, 0, quoted) + [text[1]] + DequoteFrom(text[2..], quoted)
      else if quoted != NUL && c == quoted then DequoteFrom(text[1..], NUL)
      else if quoted == NUL && c in {'\'', '"'} then DequoteFrom(text[1..], c)
      else [c] + DequoteFrom(text[1..], quoted)
  }

  function KeptBackslash(text: string, p: nat, quoted: char): string {
    if quoted == '"' && CharAt(text, p + 1) !in {'\\', '"', '$', '`', '\n'} then "\\" else ""
  }

  function Dequote(text: string): string { DequoteFrom(text, NUL) }

  method BashDequoteFilename(text: string, quoteChar: char) returns (ret: string)
    ensures ret == DequoteFrom(text, quoteChar)
  {
    hide DequoteFrom;
    ret := "";
    var p, quoted := 0, quoteChar;
    Whole(text);
    Units(DequoteFrom(text, quoteChar));
    while p < |text|
      invariant p <= |text|
      invariant ret + DequoteFrom(text[p..], quoted) == DequoteFrom(text, quoteChar)
    {
      DequoteStep(text, p, quoted);
      DropOne(text, p);
      var c := text[p];
      if quoted != '\'' && c == '\\' {
        ghost var kept := KeptBackslash(text, p, quoted);
        Units(ret);
        if p + 1 < |text| {
          Assoc(ret, kept, [text[p + 1]]);
          Assoc(ret, kept + [text[p + 1]], DequoteFrom(text[p + 2..], quoted));
        }
        if quoted == '"' && CharAt(text, p + 1) !in {'\\', '"', '$', '`', '\n'} {
          ret := ret + "\\";
        }
        p := p + 1;
        if p == |text| {
          return;
        }
        ret := ret + [text[p]];
      } else if quoted != NUL && c == quoted {
        quoted := NUL;
      } else if quoted == NUL && (c == '\'' || c == '"') {
        quoted := c;
      } else {
        Assoc(ret, [c], DequoteFrom(text[p + 1..], quoted));
        ret := ret + [c];
      }
      p := p + 1;
    }
    DequoteNothing(quoted);
    Units(ret);
  }

  lemma DequoteNothing(quoted: char)
    ensures DequoteFrom("", quoted) == ""
  {
  }

  /** One character, or one escaped pair, of quote removal in the middle of a text. */
  lemma DequoteStep(text: string, p: nat, quoted: char)
    requires p < |text|
    ensures var c := text[p];
      DequoteFrom(text[p..], quoted) ==
      if quoted != '\'' && c == '\\' then
        if p + 1 == |text| then KeptBackslash(text, p, quoted)
        else KeptBackslash(text, p, quoted) + [text[p + 1]] + DequoteFrom(text[p + 2..], quoted)
      else if quoted != NUL && c == quoted then DequoteFrom(text[p + 1..], NUL)
      else if quoted == NUL && c in {'\'', '"'} then DequoteFrom(text[p + 1..], c)
      else [c] + DequoteFrom(text[p + 1..], quoted)
  {
    DropOne(text, p);
    assert KeptBackslash(text[p..], 0, quoted) == KeptBackslash(text, p, quoted);
    if p + 1 < |text| {
      assert text[p..][2..] == text[p + 2..];
    }
  }

  /** A name as the kernel hands it out: bytes other than NUL. */
  predicate CString(s: string) {
    forall c <- s :: c != NUL && c < 256 as char
  }

  lemma {:induction false} QuoteEscapesFrom(s: string, i: nat)
    requires i <= |s| && CString(s)
    ensures Escaped(QuoteFrom(s, i))
    decreases |s| - i
  {
    if i < |s| {
      QuoteEscapesFrom(s, i + 1);
      assert s[i] in s;
      var q, rest := QuoteFrom(s, i), QuoteFrom(s, i + 1);
      if q[0] == '\\' {
        assert q[2..] == rest;
      } else {
        assert q[1..] == rest;
      }
    }
  }

  /** Removal treats escaped text piece by piece. */
  lemma {:induction false} DequoteConcat(a: string, b: string)
    requires Escaped(a)
    ensures Dequote(a + b) == Dequote(a) + Dequote(b)
  {
    if a == "" {
      Units(b);
      Units(Dequote(b));
    } else {
      var k := if a[0] == '\\' then 2 else 1;
      assert (a + b)[k..] == a[k..] + b;
      DequoteConcat(a[k..], b);
      Assoc([a[k - 1]], Dequote(a[k..]), Dequote(b));
      Units([a[k - 1]]);
    }
  }

  lemma {:induction false} DequoteQuoteFrom(s: string, i: nat)
    requires i <= |s| && CString(s)
    ensures Dequote(QuoteFrom(s, i)) == s[i..]
    decreases |s| - i
  {
    if i < |s| {
      DequoteQuoteFrom(s, i + 1);
      var piece, rest := QuoteAt(s, i), QuoteFrom(s, i + 1);
      assert Escaped(piece) && Dequote(piece) == [s[i]] by {
        assert s[i] in s && Escaped("") && Dequote("") == "";
        assert |piece| == 2 ==> piece[2..] == "";
        assert |piece| == 1 ==> piece[1..] == "";
      }
      DequoteConcat(piece, rest);
      DropOne(s, i);
    }
  }

  /** Quoting is undone by quote removal, and its result is escaped text: the scanner sees nothing
      special in it. */
  lemma QuoteRoundTrip(s: string)
    requires CString(s)
    ensures Escaped(Quote(s)) && Dequote(Quote(s)) == s
  {
    QuoteEscapesFrom(s, 0);
    DequoteQuoteFrom(s, 0);
    Whole(s);
  }
}
