/** The one-line terminal a stream is run through: a text, a cursor in it, and the state of the escape scanner. */
module LineTerminal {
  import opened Seqs

  type byte = x: int | 0 <= x < 256

  const CAP := 8192
  const ROOM := CAP - 11
  const ESC: byte := 0x1b
  const NL: byte := 0x0a
  const TAB: byte := 0x09
  const BLANK: byte := 0x20

  /** What is put at the end of a line that is broken because it got too long: " [wrapped]". */
  function WrapMark(): (s: seq<byte>)
    ensures |s| == 10 && Clean(s, false)
  {
    [0x20, 0x5b, 0x77, 0x72, 0x61, 0x70, 0x70, 0x65, 0x64, 0x5d]
  }

  datatype Scan = Normal | Esc | Csi(n: nat, more: bool, priv: bool) | Osc | OscEsc

  datatype Term = Term(text: seq<byte>, cur: nat, moved: bool, scan: Scan) {
    predicate Valid() { cur <= |text| < CAP }
  }

  /** The terminal after some input and the lines that came out on the way. */
  datatype Out = Out(t: Term, lines: seq<seq<byte>>)

  /** Displayable: no control characters, but for tabs if they are allowed. */
  predicate Clean(s: seq<byte>, tabs: bool) { forall c <- s :: (c >= 0x20 || (tabs && c == TAB)) && c != 0x7f }

  // ---------------------------------------------------------------- edits

  /** The first edit after the cursor left the line starts an empty one. */
  function Fresh(t: Term): Term {
    if t.moved then t.(text := [], cur := 0, moved := false) else t
  }

  /** A character over what is at the cursor, or behind the end. */
  function Overwrite(s: seq<byte>, cur: nat, c: byte): seq<byte>
    requires cur <= |s|
  {
    s[..cur] + [c] + if cur < |s| then s[cur + 1..] else []
  }

  function Put(t: Term, c: byte): Out
    requires t.Valid()
  {
    var u := Fresh(t);
    if u.cur >= ROOM then Out(u.(text := [c], cur := 1), [u.text + WrapMark()])
    else Out(u.(text := Overwrite(u.text, u.cur, c), cur := u.cur + 1), [])
  }

  function Min(a: int, b: int): int { if a < b then a else b }

  predicate Leaves(c: byte) {
    || c == 'A' as int || c == 'B' as int || c == 'E' as int || c == 'F' as int || c == 'H' as int
    || c == 'J' as int || c == 'S' as int || c == 'T' as int || c == 'd' as int || c == 'f' as int || c == 'r' as int
  }

  predicate Edits(c: byte) {
    || c == 'K' as int || c == 'C' as int || c == 'D' as int || c == 'G' as int || c == 'P' as int
    || c == '@' as int || c == 'X' as int
  }

  /** The control functions of ECMA-48 (EL, CUF, CUB, CHA, DCH, ICH, ECH) on a line; `nn` is the parameter, at
      least 1. Blanks are inserted only while the buffer has room. */
  function Edit(t: Term, c: byte, nn: nat): (r: Term)
    requires t.Valid() && nn >= 1
    ensures r.Valid()
  {
    var tail := |t.text| - t.cur;
    if c == 'K' as int then t.(text := t.text[..t.cur])
    else if c == 'C' as int then t.(cur := Min(t.cur + nn, |t.text|))
    else if c == 'D' as int then t.(cur := if nn > t.cur then 0 else t.cur - nn)
    else if c == 'G' as int then t.(cur := Min(nn - 1, |t.text|))
    else if c == 'P' as int then t.(text := t.text[..t.cur] + t.text[t.cur + Min(nn, tail)..])
    else if c == '@' as int then
      t.(text := t.text[..t.cur] + Blanks(Min(nn, CAP - 1 - |t.text|)) + t.text[t.cur..])
    else if c == 'X' as int then t.(text := t.text[..t.cur] + Blanks(Min(nn, tail)) + t.text[t.cur + Min(nn, tail)..])
    else t
  }

  function Blanks(n: nat): (s: seq<byte>)
    ensures |s| == n
  {
    seq(n, _ => BLANK)
  }

  // ---------------------------------------------------------------- the scanner

  function OnNormal(t: Term, c: byte): Out
    requires t.Valid()
  {
    if c == ESC then Out(t.(scan := Esc), [])
    else if c == NL then
      if t.moved then Out(Fresh(t), []) else Out(t.(text := [], cur := 0), [t.text])
    else if c == 0x0d then Out(Fresh(t).(cur := 0), [])
    else if c == 0x08 then
      var u := Fresh(t);
      Out(if u.cur > 0 then u.(cur := u.cur - 1) else u, [])
    else if c == TAB then Put(t, TAB)
    else if c < 0x20 || c == 0x7f then Out(t, [])
    else Put(t, c)
  }

  function OnEsc(t: Term, c: byte): Term {
    if c == '[' as int then t.(scan := Csi(0, false, false))
    else if c == ']' as int then t.(scan := Osc)
    else if 0x20 <= c <= 0x2f then t
    else t.(moved := t.moved || c == '8' as int || c == 'D' as int || c == 'M' as int, scan := Normal)
  }

  function OnCsi(t: Term, c: byte): Term
    requires t.Valid() && t.scan.Csi?
  {
    var s := t.scan;
    if '0' as int <= c <= '9' as int && !s.more then t.(scan := s.(n := s.n * 10 + (c - '0' as int)))
    else if c == ';' as int then t.(scan := s.(more := true))
    else if c == '?' as int then t.(scan := s.(priv := true))
    else if 0x40 <= c <= 0x7e then OnFinal(t, c, s.n).(scan := Normal)
    else t
  }

  function OnFinal(t: Term, c: byte, n: nat): Term
    requires t.Valid()
  {
    if Leaves(c) then t.(moved := true)
    else if Edits(c) then Edit(Fresh(t), c, if n > 0 then n else 1)
    else t
  }

  function OnOsc(t: Term, c: byte): Term {
    if c == 0x07 then t.(scan := Normal) else if c == ESC then t.(scan := OscEsc) else t
  }

  function OnOscEsc(t: Term, c: byte): Term {
    if c == '\\' as int then t.(scan := Normal) else if c != ESC then t.(scan := Osc) else t
  }

  function Feed(t: Term, c: byte): (r: Out)
    requires t.Valid()
    ensures r.t.Valid()
  {
    hide Leaves, Edits;
    match t.scan
    case Normal => OnNormal(t, c)
    case Esc => Out(OnEsc(t, c), [])
    case Csi(_, _, _) => Out(OnCsi(t, c), [])
    case Osc => Out(OnOsc(t, c), [])
    case OscEsc => Out(OnOscEsc(t, c), [])
  }

  /** A full-screen program announces itself: alternate screen or focus tracking. */
  predicate Triggers(t: Term, c: byte) {
    && t.scan.Csi? && c == 'h' as int && t.scan.priv
    && (t.scan.n == 1049 || t.scan.n == 1047 || t.scan.n == 47 || t.scan.n == 1004)
  }

  /** A character that goes onto the line. */
  predicate Puts(t: Term, c: byte) { t.scan.Normal? && (c == TAB || c >= 0x20) && c != 0x7f }

  /** The line is to be broken, but the mark would not fit behind it. */
  predicate Overflows(t: Term, c: byte) {
    Puts(t, c) && Fresh(t).cur >= ROOM && |Fresh(t).text| + |WrapMark()| > CAP
  }

  function Run(t: Term, buf: seq<byte>): (r: Out)
    requires t.Valid()
    ensures r.t.Valid()
  {
    if buf == [] then Out(t, [])
    else
      var before := Run(t, buf[..|buf| - 1]);
      var last := Feed(before.t, buf[|buf| - 1]);
      Out(last.t, before.lines + last.lines)
  }

  /** Wherever a line is broken the mark fits: exactly then the byte loop stays inside its buffer. */
  predicate MarkFits(t: Term, buf: seq<byte>)
    requires t.Valid()
  {
    forall i :: 0 <= i < |buf| ==> !OverflowsAt(t, buf, i)
  }

  predicate OverflowsAt(t: Term, buf: seq<byte>, i: nat)
    requires t.Valid() && i < |buf|
  {
    Overflows(Run(t, buf[..i]).t, buf[i])
  }

  /** Blanks are inserted. */
  predicate InsertsAt(t: Term, buf: seq<byte>, i: nat)
    requires t.Valid() && i < |buf|
  {
    Run(t, buf[..i]).t.scan.Csi? && buf[i] == '@' as int
  }

  predicate TriggersAt(t: Term, buf: seq<byte>, i: nat)
    requires t.Valid() && i < |buf|
  {
    Triggers(Run(t, buf[..i]).t, buf[i])
  }

  /** End of a stream: a last line without newline comes out, an abandoned paint does not. */
  function Flush(t: Term): (r: Out)
    ensures r.t.Valid()
  {
    Out(Term([], 0, false, Normal), if !t.moved && t.text != [] then [t.text] else [])
  }

  /** Enter at the keyboard relay completes the pending line: its text is part of the relay's record. */
  function Emptied(t: Term): Term { t.(text := [], cur := 0) }

  const START := Term([], 0, false, Normal)

  type LineTerm = t: Term | t.Valid() witness START

  // ---------------------------------------------------------------- chunks do not matter

  lemma RunMore(t: Term, buf: seq<byte>, i: nat)
    requires t.Valid() && i < |buf|
    ensures var b := Run(t, buf[..i]);
      Run(t, buf[..i + 1]) == Out(Feed(b.t, buf[i]).t, b.lines + Feed(b.t, buf[i]).lines)
  {
    hide Feed;
    var more := buf[..i + 1];
    assert more[..|more| - 1] == buf[..i] && more[|more| - 1] == buf[i];
  }

  lemma RunNothing(t: Term)
    requires t.Valid()
    ensures Run(t, []) == Out(t, [])
  {
  }

  lemma OverflowsLater(t: Term, buf: seq<byte>, i: nat, j: nat)
    requires t.Valid() && i + j < |buf|
    ensures OverflowsAt(Run(t, buf[..i]).t, buf[i..], j) == OverflowsAt(t, buf, i + j)
  {
    hide Run, Overflows;
    RunSplit(t, buf[..i], buf[i..][..j]);
    assert buf[..i] + buf[i..][..j] == buf[..i + j];
  }

  lemma MarkFitsRest(t: Term, buf: seq<byte>, i: nat)
    requires t.Valid() && MarkFits(t, buf) && i <= |buf|
    ensures MarkFits(Run(t, buf[..i]).t, buf[i..])
  {
    hide Run, OverflowsAt;
    forall j | 0 <= j < |buf[i..]|
      ensures !OverflowsAt(Run(t, buf[..i]).t, buf[i..], j)
    {
      OverflowsLater(t, buf, i, j);
    }
  }

  lemma FeedShort(t: Term, c: byte)
    requires t.Valid() && |t.text| <= ROOM && !(t.scan.Csi? && c == '@' as int)
    ensures |Feed(t, c).t.text| <= ROOM && !Overflows(t, c)
  {
  }

  /** Only inserted blanks can make a line so long that the mark does not fit. */
  lemma {:induction false} ShortFits(t: Term, buf: seq<byte>)
    requires t.Valid() && |t.text| <= ROOM && forall i :: 0 <= i < |buf| ==> !InsertsAt(t, buf, i)
    ensures MarkFits(t, buf) && |Run(t, buf).t.text| <= ROOM
  {
    hide Feed, Overflows;
    if buf != [] {
      var init, c := buf[..|buf| - 1], buf[|buf| - 1];
      forall i | 0 <= i < |init|
        ensures !InsertsAt(t, init, i) && OverflowsAt(t, buf, i) == OverflowsAt(t, init, i)
      {
        assert init[..i] == buf[..i] && !InsertsAt(t, buf, i);
      }
      ShortFits(t, init);
      assert !InsertsAt(t, buf, |init|);
      FeedShort(Run(t, init).t, c);
      assert !OverflowsAt(t, buf, |init|);
    }
  }

  /** The text is longer than where a line is broken. */
  predicate LongAt(t: Term, buf: seq<byte>, k: nat)
    requires t.Valid() && k <= |buf|
  {
    |Run(t, buf[..k]).t.text| > ROOM
  }

  /** The last place, up to the i-th byte, at which the text was no longer than that. */
  lemma {:induction false} LastShort(t: Term, buf: seq<byte>, i: nat) returns (j: nat)
    requires t.Valid() && |t.text| <= ROOM && i <= |buf|
    ensures j <= i && !LongAt(t, buf, j) && forall k :: j < k <= i ==> LongAt(t, buf, k)
  {
    hide LongAt;
    j := i;
    if LongAt(t, buf, i) {
      if i == 0 {
        ShortAtFirst(t, buf);
      } else {
        j := LastShort(t, buf, i - 1);
      }
    }
  }

  lemma ShortAtFirst(t: Term, buf: seq<byte>)
    requires t.Valid() && |t.text| <= ROOM
    ensures !LongAt(t, buf, 0)
  {
    RunNothing(t);
  }

  /** Where the mark does not fit, blanks were inserted into the line when it was last no longer than where lines are
      broken, and it has been longer ever since. */
  lemma MarkMissedSince(t: Term, buf: seq<byte>, i: nat) returns (j: nat)
    requires t.Valid() && |t.text| <= ROOM && i < |buf| && OverflowsAt(t, buf, i)
    ensures j < i && InsertsAt(t, buf, j) && !LongAt(t, buf, j) && forall k :: j < k <= i ==> LongAt(t, buf, k)
  {
    hide Run, Feed, LongAt;
    j := LastShort(t, buf, i);
    OverflowIsLong(t, buf, i);
    GetsLong(t, buf, j);
  }

  lemma GetsLong(t: Term, buf: seq<byte>, j: nat)
    requires t.Valid() && j < |buf| && !LongAt(t, buf, j) && LongAt(t, buf, j + 1)
    ensures InsertsAt(t, buf, j)
  {
    hide Run, Feed;
    RunMore(t, buf, j);
    if !InsertsAt(t, buf, j) {
      FeedShort(Run(t, buf[..j]).t, buf[j]);
    }
  }

  lemma OverflowIsLong(t: Term, buf: seq<byte>, i: nat)
    requires t.Valid() && i < |buf| && OverflowsAt(t, buf, i)
    ensures LongAt(t, buf, i)
  {
    hide Run;
  }

  const LETTER: byte := 0x78

  function Letters(n: nat): (s: seq<byte>)
    ensures |s| == n
  {
    seq(n, _ => LETTER)
  }

  lemma {:induction false} LettersRun(n: nat)
    requires n <= ROOM
    ensures Run(START, Letters(n)) == Out(Term(Letters(n), n, false, Normal), [])
  {
    hide Feed;
    if n > 0 {
      LettersRun(n - 1);
      assert Letters(n)[..n - 1] == Letters(n - 1) && Letters(n - 1) + [LETTER] == Letters(n);
      FeedLetter(n - 1);
    }
  }

  lemma FeedLetter(n: nat)
    requires n < ROOM
    ensures Feed(Term(Letters(n), n, false, Normal), LETTER)
      == Out(Term(Letters(n) + [LETTER], n + 1, false, Normal), [])
  {
    hide Letters;
    Units(Letters(n) + [LETTER]);
    Whole(Letters(n));
  }

  /** ESC [ 1 0 @: ten blanks. */
  const TEN_BLANKS: seq<byte> := [0x1b, 0x5b, 0x31, 0x30, 0x40]

  lemma RunOne(t: Term, buf: seq<byte>, c: byte)
    requires t.Valid()
    ensures Run(t, buf + [c]).t == Feed(Run(t, buf).t, c).t
  {
    hide Feed;
    assert (buf + [c])[..|buf|] == buf;
  }

  lemma TenBlanks(buf: seq<byte>)
    requires Run(START, buf).t == Term(Letters(ROOM), ROOM, false, Normal)
    ensures Run(START, buf + TEN_BLANKS).t == Term(Letters(ROOM) + Blanks(10), ROOM, false, Normal)
  {
    hide Run;
    var t, b := TEN_BLANKS, Letters(ROOM);
    RunOne(START, buf, t[0]);
    RunOne(START, buf + t[..1], t[1]);
    RunOne(START, buf + t[..2], t[2]);
    RunOne(START, buf + t[..3], t[3]);
    RunOne(START, buf + t[..4], t[4]);
    assert buf + t[..1] == buf + [t[0]] && buf + t[..1] + [t[1]] == buf + t[..2];
    assert buf + t[..2] + [t[2]] == buf + t[..3] && buf + t[..3] + [t[3]] == buf + t[..4];
    assert buf + t[..4] + [t[4]] == buf + t;
    var u := Run(START, buf + t[..4]).t;
    assert u == Term(b, ROOM, false, Csi(10, false, false));
    InsertedBehind(u);
  }

  lemma InsertedBehind(u: Term)
    requires u.Valid() && u.cur == |u.text| == ROOM && !u.moved && u.scan == Csi(10, false, false)
    ensures Feed(u, '@' as int).t == Term(u.text + Blanks(10), ROOM, false, Normal)
  {
    Whole(u.text);
    Units(u.text + Blanks(10));
  }

  /** A line that is just full, ten blanks at its end, and one more character: there the mark does not fit. */
  lemma MarkMissed()
    ensures !MarkFits(START, Letters(ROOM) + TEN_BLANKS + [LETTER])
  {
    hide Run;
    LettersRun(ROOM);
    TenBlanks(Letters(ROOM));
    var head := Letters(ROOM) + TEN_BLANKS;
    assert (head + [LETTER])[..|head|] == head;
    assert OverflowsAt(START, head + [LETTER], |head|);
  }

  /** Splitting the input anywhere changes neither the line nor what comes out. */
  lemma {:induction false} RunSplit(t: Term, a: seq<byte>, b: seq<byte>)
    requires t.Valid()
    ensures var r := Run(t, a);
      Run(t, a + b) == Out(Run(r.t, b).t, r.lines + Run(r.t, b).lines)
    decreases |b|
  {
    hide Feed;
    var r := Run(t, a);
    if b == [] {
      Units(a);
      Units(r.lines);
    } else {
      var init, c := b[..|b| - 1], b[|b| - 1];
      RunSplit(t, a, init);
      assert (a + b)[..|a + b| - 1] == a + init;
      var s := Run(r.t, init);
      Assoc(r.lines, s.lines, Feed(s.t, c).lines);
    }
  }

  // ---------------------------------------------------------------- nothing but displayable characters

  lemma CleanPart(a: seq<byte>, i: nat, tabs: bool)
    requires Clean(a, tabs) && i <= |a|
    ensures Clean(a[..i], tabs) && Clean(a[i..], tabs)
  {
    assert forall c <- a[..i] :: c in a;
    assert forall c <- a[i..] :: c in a;
  }

  lemma CleanBoth(a: seq<byte>, b: seq<byte>, tabs: bool)
    requires Clean(a, tabs) && Clean(b, tabs)
    ensures Clean(a + b, tabs)
  {
    assert forall c <- a + b :: c in a || c in b;
  }

  lemma EditClean(t: Term, c: byte, nn: nat, tabs: bool)
    requires t.Valid() && nn >= 1 && Clean(t.text, tabs)
    ensures Clean(Edit(t, c, nn).text, tabs)
  {
    hide Clean;
    var gone, room := Min(nn, |t.text| - t.cur), Min(nn, CAP - 1 - |t.text|);
    CleanPart(t.text, t.cur, tabs);
    CleanPart(t.text, t.cur + gone, tabs);
    BlanksClean(gone, tabs);
    BlanksClean(room, tabs);
    var left, right := t.text[..t.cur], t.text[t.cur + gone..];
    CleanBoth(left, right, tabs);
    CleanBoth(left, Blanks(gone), tabs);
    CleanBoth(left + Blanks(gone), right, tabs);
    CleanBoth(left, Blanks(room), tabs);
    CleanBoth(left + Blanks(room), t.text[t.cur..], tabs);
  }

  lemma BlanksClean(n: nat, tabs: bool)
    ensures Clean(Blanks(n), tabs)
  {
  }

  lemma PutClean(t: Term, c: byte, tabs: bool)
    requires t.Valid() && Clean(t.text, tabs) && Clean([c], tabs)
    ensures Clean(Put(t, c).t.text, tabs) && forall l <- Put(t, c).lines :: Clean(l, tabs)
  {
    hide Clean;
    NoneClean(tabs);
    var u := Fresh(t);
    var left, right := u.text[..u.cur], if u.cur < |u.text| then u.text[u.cur + 1..] else [];
    MarkClean(tabs);
    CleanBoth(u.text, WrapMark(), tabs);
    CleanPart(u.text, u.cur, tabs);
    if u.cur < |u.text| {
      CleanPart(u.text, u.cur + 1, tabs);
    }
    CleanBoth(left, [c], tabs);
    CleanBoth(left + [c], right, tabs);
  }

  lemma MarkClean(tabs: bool)
    ensures Clean(WrapMark(), tabs)
  {
    hide WrapMark;
  }

  lemma NoneClean(tabs: bool)
    ensures Clean([], tabs)
  {
  }

  lemma OneClean(c: byte, tabs: bool)
    requires (c >= 0x20 || (tabs && c == TAB)) && c != 0x7f
    ensures Clean([c], tabs)
  {
  }

  lemma FeedClean(t: Term, c: byte, tabs: bool)
    requires t.Valid() && Clean(t.text, tabs) && (tabs || c != TAB)
    ensures Clean(Feed(t, c).t.text, tabs) && forall l <- Feed(t, c).lines :: Clean(l, tabs)
  {
    hide Clean, Edit, Put, Leaves, Edits;
    NoneClean(tabs);
    if t.scan.Normal? {
      if (c >= 0x20 || c == TAB) && c != 0x7f {
        OneClean(c, tabs);
        PutClean(t, c, tabs);
      }
    } else if t.scan.Csi? {
      EditClean(Fresh(t), c, if t.scan.n > 0 then t.scan.n else 1, tabs);
    }
  }

  /** Whatever the input, no line that comes out, and no partial line, has a control character but tabs; nor
      tabs, if there were none in the input. */
  lemma {:induction false} RunClean(t: Term, buf: seq<byte>, tabs: bool)
    requires t.Valid() && Clean(t.text, tabs) && (tabs || TAB !in buf)
    ensures Clean(Run(t, buf).t.text, tabs) && forall l <- Run(t, buf).lines :: Clean(l, tabs)
  {
    hide Feed, Clean;
    if buf != [] {
      var init := buf[..|buf| - 1];
      assert buf == init + [buf[|buf| - 1]];
      RunClean(t, init, tabs);
      FeedClean(Run(t, init).t, buf[|buf| - 1], tabs);
    }
  }

  // ---------------------------------------------------------------- nothing lost

  predicate Plain(c: byte) { (c >= 0x20 && c != 0x7f) || c == TAB || c == NL }

  /** The pieces between newlines, the last one without. */
  function Split(buf: seq<byte>): (r: seq<seq<byte>>)
    ensures |r| >= 1
  {
    if buf == [] then [[]]
    else
      var before, c := Split(buf[..|buf| - 1]), buf[|buf| - 1];
      var n := |before| - 1;
      if c == NL then before + [[]] else before[..n] + [before[n] + [c]]
  }

  /** Only a forced break makes a line this long. */
  predicate Forced(line: seq<byte>) { |line| == ROOM + 10 }

  datatype Joined = Joined(done: seq<seq<byte>>, carry: seq<byte>)

  /** Forced breaks undone: the mark goes and the line continues. */
  function Join(lines: seq<seq<byte>>): Joined {
    if lines == [] then Joined([], [])
    else
      var j, l := Join(lines[..|lines| - 1]), lines[|lines| - 1];
      if Forced(l) then Joined(j.done, j.carry + l[..ROOM]) else Joined(j.done + [j.carry + l], [])
  }

  lemma JoinOne(lines: seq<seq<byte>>, l: seq<byte>)
    ensures var j := Join(lines);
      Join(lines + [l]) == if Forced(l) then Joined(j.done, j.carry + l[..ROOM]) else Joined(j.done + [j.carry + l], [])
  {
    assert (lines + [l])[..|lines|] == lines;
  }

  /** On plain text the terminal only appends, and breaks at newlines or when the line is full. */
  lemma FeedPlain(t: Term, c: byte)
    requires t.Valid() && Plain(c) && t.scan == Normal && !t.moved && t.cur == |t.text| <= ROOM
    ensures var r := Feed(t, c);
      && r.t.scan == Normal && !r.t.moved && r.t.cur == |r.t.text| <= ROOM
      && if c == NL then r.t.text == [] && r.lines == [t.text]
         else if t.cur >= ROOM then r.t.text == [c] && r.lines == [t.text + WrapMark()]
         else r.t.text == t.text + [c] && r.lines == []
  {
    Units(t.text + [c]);
  }

  /** Plain text comes out whole: the lines, forced breaks undone, and the partial line are the input split at
      its newlines. */
  lemma {:induction false} RunReassembles(buf: seq<byte>)
    requires forall c <- buf :: Plain(c)
    ensures var r := Run(START, buf);
      && r.t.scan == Normal && !r.t.moved && r.t.cur == |r.t.text| <= ROOM
      && Join(r.lines).done + [Join(r.lines).carry + r.t.text] == Split(buf)
  {
    hide Feed, Join, WrapMark;
    if buf == [] {
      JoinNothing();
      Units<byte>([]);
    } else {
      var init, c := buf[..|buf| - 1], buf[|buf| - 1];
      RunReassembles(init);
      var b := Run(START, init);
      assert c in buf;
      FeedPlain(b.t, c);
      var j := Join(b.lines);
      SplitOne(init, c, j.done, j.carry + b.t.text);
      if c == NL {
        JoinOne(b.lines, b.t.text);
        Units<byte>([]);
      } else if b.t.cur >= ROOM {
        JoinOne(b.lines, b.t.text + WrapMark());
        assert (b.t.text + WrapMark())[..ROOM] == b.t.text;
      } else {
        Assoc(j.carry, b.t.text, [c]);
        Units(b.lines);
      }
    }
  }

  lemma JoinNothing()
    ensures Join([]) == Joined([], [])
  {
  }

  lemma SplitOne(init: seq<byte>, c: byte, done: seq<seq<byte>>, last: seq<byte>)
    requires Split(init) == done + [last]
    ensures Split(init + [c]) == if c == NL then done + [last] + [[]] else done + [last + [c]]
  {
    assert (init + [c])[..|init|] == init;
    assert (done + [last])[..|done|] == done;
  }
}
