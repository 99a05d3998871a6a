/** The state of basht_display.c and the calls on it, writing to a terminal of fixed width. */
module Console {
  import opened Wrappers
  import opened Seqs
  import opened LineTerminal
  import opened Screen
  import opened Display

  // ---------------------------------------------------------------- what is written

  /** The row after blanks over its first n cells, with the cursor back at its start. */
  function Wiped(s: Screen, n: nat): (t: Screen)
    requires s.Valid() && n <= |s.row|
    ensures t.Valid() && |t.row| == |s.row|
  {
    if n == 0 then s else Screen(s.rows, EmptyRow(n) + s.row[n..], 0)
  }

  /** What fits of a text, and backspaces over as many columns as are counted from byte `at` on. */
  function Drawn(s: Screen, out: seq<byte>, at: nat, budget: nat): (t: Screen)
    requires s.Valid() && at <= |out|
    ensures t.Valid() && |t.row| == |s.row|
  {
    var drawn := Fit(out, budget);
    var t := Written(s, out[..drawn]);
    t.(col := Back(t.col, ColsBehind(out, at, drawn)))
  }

  function Back(col: nat, n: nat): nat { if n < col then col - n else 0 }

  // ---------------------------------------------------------------- what is to be seen

  /** The text of a stream's bottom row: tag, with the number the line will get, and partial line. */
  function BottomText(ts: Stream, counters: map<nat, int>, p: Partial): seq<byte> {
    Tag(ts, Count(ts, counters, 1)) + p.text
  }

  /** The number of the line that many lines on; 0 for a stream that counts none. */
  function Count(ts: Stream, counters: map<nat, int>, more: int): int {
    if ts.task == None then 0 else if ts.task.value in counters then counters[ts.task.value] + more else more
  }

  function Counted(ts: Stream, counters: map<nat, int>): map<nat, int> {
    if ts.task == None then counters else counters[ts.task.value := Count(ts, counters, 1)]
  }

  function PartialOf(ts: Stream, partials: map<Stream, Partial>): Partial {
    if ts in partials then partials[ts] else Partial([], 0)
  }

  /** The byte of the bottom row's text that the stream's cursor is on. */
  function CursorIn(out: seq<byte>, p: Partial): (at: nat)
    requires |p.text| <= |out|
    ensures p.cur <= |p.text| ==> at <= |out|
  {
    |out| - |p.text| + p.cur
  }

  /** The columns that are counted from byte `at` to the end of what fits. */
  function ColsBehind(out: seq<byte>, at: nat, drawn: nat): nat
    requires drawn <= |out|
  {
    if at < drawn then Cols(out[at..drawn]) else 0
  }

  /** The bottom row shows as much of the text as fits, laid out with its tabs, and the cursor is so many columns
      back from its end as are counted behind the stream's own. */
  ghost predicate ShowsStream(s: Screen, ts: Stream, counters: map<nat, int>, p: Partial)
    requires s.Valid()
  {
    var w, out := |s.row|, BottomText(ts, counters, p);
    var drawn := Fit(out, w - 1);
    var (full, last) := Laid(out[..drawn], w);
    full == [] && s.row == Padded(last, w) && s.col == Back(|last|, ColsBehind(out, CursorIn(out, p), drawn))
  }

  /** Drawn on an empty row of that width, the text stays in it, and neither a character nor the cursor is beyond
      the columns that are counted. */
  predicate StaysTidy(out: seq<byte>, at: nat, width: nat)
    requires width > 0
  {
    var drawn := Fit(out, width - 1);
    var (full, last) := Laid(out[..drawn], width);
    var n := Cols(out[..drawn]);
    full == [] && Back(|last|, ColsBehind(out, at, drawn)) <= n && forall k :: n <= k < |last| ==> last[k] == EMPTY
  }

  class Console {
    const cols: nat
    var screen: Screen
    var bot: Option<Stream>
    var def: Option<Stream>
    var shown: nat
    var dirty: bool
    /** `*lines` of each task, and the line buffer of each stream as of its last call. */
    var counters: map<nat, int>
    var partials: map<Stream, Partial>

    ghost predicate Valid()
      reads this
    {
      && screen.Valid() && |screen.row| == cols && shown < cols
      && (forall p <- partials :: partials[p].Valid())
      && (forall t <- counters :: 0 <= counters[t] < INT_MAX)
      && (bot.Some? ==> bot.value.Valid()) && (def.Some? ==> def.value.Valid())
    }

    /** The bottom row has nothing beyond the columns that were counted when it was drawn. */
    ghost predicate Tidy()
      requires Valid()
      reads this
    {
      screen.col <= shown && forall k :: shown <= k < cols ==> screen.row[k] == EMPTY
    }

    /** What is to be drawn leaves the row tidy. */
    predicate WillBeTidy()
      reads this
    {
      Owner().Some? && cols > 0 ==>
        var p := PartialOf(Owner().value, partials);
        var out := BottomText(Owner().value, counters, p);
        StaysTidy(out, CursorIn(out, p), cols)
    }

    /** The owner, else the default stream. */
    function Owner(): Option<Stream>
      reads this
    {
      if bot.Some? then bot else def
    }

    ghost predicate Shows()
      requires screen.Valid()
      reads this
    {
      match Owner()
      case None => screen.row == EmptyRow(|screen.row|) && screen.col == 0
      case Some(ts) => ShowsStream(screen, ts, counters, PartialOf(ts, partials))
    }

    /** What is on the bottom row is up to date, or will be redrawn. */
    ghost predicate Settled()
      requires screen.Valid()
      reads this
    {
      dirty || Shows()
    }

    constructor (cols: nat)
      requires cols > 0
      ensures Valid() && Tidy() && Settled() && screen == Screen([], EmptyRow(cols), 0) && this.cols == cols
      ensures bot == def == None && counters == map[] && partials == map[] && shown == 0
    {
      this.cols := cols;
      screen := Screen([], EmptyRow(cols), 0);
      bot, def, shown, dirty, counters, partials := None, None, 0, false, map[], map[];
    }

    method WriteAll(out: seq<byte>)
      requires screen.Valid()
      modifies this`screen
      ensures screen == Written(old(screen), out)
    {
      screen := Written(screen, out);
    }

    /** Blanks over as many columns as were counted, and the cursor back at the start. */
    method EraseBottom()
      requires Valid()
      modifies this`screen, this`shown
      ensures Valid() && shown == 0 && screen == Wiped(old(screen), old(shown))
      ensures old(Tidy()) ==> screen == Screen(old(screen).rows, EmptyRow(cols), 0)
    {
      hide Written;
      if shown == 0 {
        if Tidy() {
          AllEmpty(screen.row);
        }
        return;
      }
      var pad := Blanks(128);
      ghost var was := screen;
      WriteAll([CR]);
      WrittenOne(was, CR);
      ghost var home := was.(col := 0);
      ghost var gone := 0;
      WrittenNothing(home);
      var n := shown;
      while n > 0
        invariant 0 <= n <= shown == old(shown) && gone == shown - n && screen == Written(home, Blanks(gone))
      {
        var k := if n < |pad| then n else |pad|;
        WrittenSplit(home, Blanks(gone), pad[..k]);
        assert Blanks(gone) + pad[..k] == Blanks(gone + k);
        WriteAll(pad[..k]);
        n, gone := n - k, gone + k;
      }
      WrittenBlanks(home, shown);
      ghost var blank := screen;
      WriteAll([CR]);
      WrittenOne(blank, CR);
      if old(Tidy()) {
        AllEmpty(screen.row);
      }
      shown := 0;
    }

    method SetDefault(ts: Option<Stream>)
      requires Valid() && (ts.Some? ==> ts.value.Valid())
      modifies this`def, this`dirty
      ensures Valid() && def == ts && (old(Settled()) ==> Settled())
      ensures dirty == (old(dirty) || old(def) != ts)
    {
      if def == ts {
        return;
      }
      def := ts;
      dirty := true;
    }

    method SetOwner(ts: Option<Stream>)
      requires Valid() && (ts.Some? ==> ts.value.Valid())
      modifies this`bot, this`dirty
      ensures Valid() && bot == ts && (old(Settled()) ==> Settled())
      ensures dirty == (old(dirty) || old(bot) != ts)
    {
      if bot == ts {
        return;
      }
      bot := ts;
      dirty := true;
    }

    /** The stream's line buffer changed, and basht_display_partial is told: the stream takes the bottom row,
        or, with nothing on its line, gives it up. */
    method PartialChanged(ts: Stream, p: Partial)
      requires Valid() && ts.Valid() && p.Valid()
      modifies this`partials, this`bot, this`dirty
      ensures Valid() && dirty && Settled() && PartialOf(ts, partials) == p
      ensures partials == old(partials)[ts := p]
      ensures bot == if p.text != [] then Some(ts) else if old(bot) == Some(ts) then None else old(bot)
    {
      partials := partials[ts := p];
      if |p.text| > 0 {
        bot := Some(ts);
      } else if bot == Some(ts) {
        bot := None;
      }
      dirty := true;
    }

    /** A stream goes away. Losing the default stream alone does not redraw: what it drew stays until the next
        change, so the row is up to date afterwards unless just that happened while its text was shown. */
    method StreamGone(ts: Stream)
      requires Valid()
      modifies this`bot, this`def, this`dirty
      ensures Valid() && dirty == (old(dirty) || old(bot) == Some(ts))
      ensures bot == (if old(bot) == Some(ts) then None else old(bot))
      ensures def == (if old(def) == Some(ts) then None else old(def))
      ensures old(Settled()) ==>
        (Settled() <==> !(old(bot) == None && old(def) == Some(ts) && !old(dirty) && cols > 1))
    {
      hide ShowsStream, EmptyRow;
      ghost var settled := Settled();
      if cols == 1 && settled && !dirty && def == Some(ts) && bot == None {
        ShowsNothing(screen, ts, counters, PartialOf(ts, partials));
      }
      if bot == Some(ts) {
        bot := None;
        dirty := true;
      }
      if def == Some(ts) {
        if settled && !dirty && bot == None && cols > 1 {
          NotEmpty(screen, ts, counters, PartialOf(ts, partials));
        }
        def := None;
      }
    }

    /** A completed line: through the bottom row, tagged and counted. */
    method DisplayLine(ts: Stream, text: seq<byte>)
      requires Valid() && ts.Valid() && Tabbed(text) && |text| <= CAP && Count(ts, counters, 1) < INT_MAX
      modifies this`screen, this`shown, this`dirty, this`counters
      ensures Valid() && Tidy() && dirty && Settled() && counters == Counted(ts, old(counters))
      ensures screen == Written(Wiped(old(screen), old(shown)), Tag(ts, Count(ts, old(counters), 1)) + text + [NL])
      ensures screen.row == EmptyRow(cols) && screen.col == 0
      ensures old(Tidy()) ==>
        screen.rows == old(screen).rows + RowsOf(Tag(ts, Count(ts, old(counters), 1)) + text, cols)
    {
      hide Written, Tag, RowsOf, EmptyRow, Wiped, ShowsStream;
      var ln := 0;
      if ts.task != None {
        counters := Counted(ts, counters);
        ln := counters[ts.task.value];
      }
      var tag := Tag(ts, ln);
      TagFits(ts, ln);
      EraseBottom();
      dirty := true;
      var off := |tag|;
      var len := |text|;
      if len > OUT - off - 1 {
        len := OUT - off - 1;
      }
      Whole(text);
      ghost var was := screen;
      WriteAll(tag + text[..len] + [NL]);
      WrittenNewline(was, tag + text);
      EmptyCells(cols);
      if old(Tidy()) {
        WrittenLine(was, tag + text);
      }
    }

    /** basht_display_event: a line of the stream's, with the event mark; the message is cut at 255 bytes. */
    method DisplayEvent(ts: Stream, msg: seq<byte>)
      requires Valid() && ts.Valid() && Tabbed(msg) && Count(ts, counters, 1) < INT_MAX
      modifies this`screen, this`shown, this`dirty, this`counters
      ensures Valid() && Tidy() && dirty && Settled() && counters == Counted(ts, old(counters))
      ensures screen.row == EmptyRow(cols) && screen.col == 0
      ensures old(Tidy()) ==>
        screen.rows == old(screen).rows + RowsOf(Tag(EventOf(ts), Count(ts, old(counters), 1)) + EventText(msg), cols)
    {
      hide Tag, RowsOf, EmptyRow, Wiped, Written, ShowsStream;
      DisplayLine(EventOf(ts), EventText(msg));
    }

    /** Draw the bottom row if anything changed. A tidy row stays so, with nothing scrolled up, exactly if the text
        to be drawn lets it; it then shows what it should. */
    method Sync()
      requires Valid()
      modifies this`screen, this`shown, this`dirty
      ensures Valid() && !dirty
      ensures !old(dirty) ==> screen == old(screen) && shown == old(shown)
      ensures old(dirty) ==>
        match Owner()
        case None => shown == 0 && screen == Wiped(old(screen), old(shown))
        case Some(ts) =>
          var p := PartialOf(ts, partials);
          var out := BottomText(ts, counters, p);
          && p.Valid() && shown == Cols(out[..Fit(out, cols - 1)])
          && screen == Drawn(Wiped(old(screen), old(shown)), out, CursorIn(out, p), cols - 1)
      ensures old(Tidy()) ==> (Tidy() && screen.rows == old(screen).rows <==> (old(dirty) ==> WillBeTidy()))
      ensures old(Tidy()) && (old(dirty) ==> WillBeTidy()) && old(Settled()) ==> Shows()
    {
      hide Written, Fit, Cells, Filled, EmptyRow, Tag, Cols, Wiped, ShowsStream, StaysTidy, Drawn, Padded;
      if !dirty {
        return;
      }
      dirty := false;
      EraseBottom();
      var owner := Owner();
      if owner == None {
        NothingShown(this);
        return;
      }
      var ts, p := owner.value, PartialOf(owner.value, partials);
      var tag := Tag(ts, if ts.task != None then Count(ts, counters, 1) else 0);
      TagFits(ts, Count(ts, counters, 1));
      var off, len := |tag|, |p.text|;
      if len > OUT - off {
        len := OUT - off;
      }
      Whole(p.text);
      var out := tag + p.text[..len];
      assert out == BottomText(ts, counters, p);
      ghost var clean := screen;
      DrawBottom(out, off + p.cur);
      if old(Tidy()) {
        BothTabbed(tag, p.text);
        TabDrawn(clean, out, off + p.cur);
        if StaysTidy(out, off + p.cur, cols) {
          ShowsDrawn(clean, screen, ts, counters, p);
        }
      }
    }

    /** One row, no more: what fits of `out`, then backspaces to the place of byte `at`. */
    method DrawBottom(out: seq<byte>, at: nat)
      requires Valid() && at <= |out|
      modifies this`screen, this`shown
      ensures Valid() && shown == Cols(out[..Fit(out, cols - 1)])
      ensures screen == Drawn(old(screen), out, at, cols - 1)
    {
      hide Written, Fit, Cells, Filled, EmptyRow, Cols;
      var drawn;
      drawn, shown := ClampCols(out, cols - 1);
      WriteAll(out[..drawn]);
      if at < drawn {
        var n := CountCols(out[at..drawn]);
        Backspace(n);
      }
    }

    method Backspace(n: nat)
      requires Valid()
      modifies this`screen
      ensures Valid() && screen == old(screen).(col := Back(old(screen).col, n))
    {
      hide Written;
      var bs := Backs(128);
      ghost var was := screen;
      var n' := n;
      ghost var back := 0;
      WrittenNothing(was);
      while n' > 0
        invariant 0 <= n' <= n && back == n - n' && screen == Written(was, Backs(back))
      {
        var k := if n' < |bs| then n' else |bs|;
        WrittenSplit(was, Backs(back), bs[..k]);
        assert Backs(back) + bs[..k] == Backs(back + k);
        WriteAll(bs[..k]);
        n', back := n' - k, back + k;
      }
      WrittenBacks(was, n);
    }
  }

  /** The last prompt of a default stream stays on the screen when the stream goes away. */
  method StaleDefault(ts: Stream) returns (c: Console)
    requires ts.Valid()
    ensures c.Valid() && c.Owner() == None && !c.dirty && !c.Shows()
  {
    hide ShowsStream, EmptyRow, Tag, Fit, Padded, Cols, Wiped, Drawn, Written;
    c := new Console(80);
    c.SetDefault(Some(ts));
    TagStaysTidy(c, ts);
    c.Sync();
    c.StreamGone(ts);
  }

  lemma TagStaysTidy(c: Console, ts: Stream)
    requires c.Valid() && ts.Valid() && c.Owner() == Some(ts) && c.partials == map[] && c.counters == map[]
    ensures c.WillBeTidy()
  {
    hide Tag, Fit, StaysTidy;
    var tag := Tag(ts, Count(ts, map[], 1));
    TagFits(ts, Count(ts, map[], 1));
    assert BottomText(ts, map[], Partial([], 0)) == tag;
    PlainTidy(tag, |tag|, c.cols);
  }

  lemma AllEmpty(row: seq<Cell>)
    requires forall k :: 0 <= k < |row| ==> row[k] == EMPTY
    ensures row == EmptyRow(|row|)
  {
  }

  lemma WrittenNothing(s: Screen)
    requires s.Valid()
    ensures Written(s, []) == s
  {
  }

  lemma WrittenOne(s: Screen, b: byte)
    requires s.Valid()
    ensures Written(s, [b]) == Type(s, b)
  {
    assert [b][..0] == [];
    WrittenNothing(s);
  }

  lemma {:induction false} WrittenBlanks(s: Screen, n: nat)
    requires s.Valid() && s.col == 0 && n <= |s.row|
    ensures Written(s, Blanks(n)) == Screen(s.rows, EmptyRow(n) + s.row[n..], n)
  {
    if n > 0 {
      WrittenBlanks(s, n - 1);
      assert Blanks(n)[..n - 1] == Blanks(n - 1);
      assert EmptyRow(n - 1) + s.row[n - 1..] == EmptyRow(n - 1) + [s.row[n - 1]] + s.row[n..];
    }
  }

  /** In a single column there is no room for anything. */
  lemma ShowsNothing(s: Screen, ts: Stream, counters: map<nat, int>, p: Partial)
    requires s.Valid() && ShowsStream(s, ts, counters, p) && |s.row| == 1
    ensures s.row == EmptyRow(1) && s.col == 0
  {
    hide Fit, Laid, Padded, Cols;
    var out := BottomText(ts, counters, p);
    NothingFits(out);
    assert out[..0] == [];
    NothingLaid(1);
  }

  lemma NothingFits(out: seq<byte>)
    requires out != [] && Lead(out[0])
    ensures Fit(out, 0) == 0
  {
    FitIs(out, 0, 0);
  }

  /** A row that shows a stream is not empty: there is room for the start of a tag. */
  lemma NotEmpty(s: Screen, ts: Stream, counters: map<nat, int>, p: Partial)
    requires s.Valid() && ShowsStream(s, ts, counters, p) && |s.row| > 1
    ensures s.row != EmptyRow(|s.row|)
  {
    hide Fit, Laid, Padded;
    var w, out := |s.row|, BottomText(ts, counters, p);
    FitsOne(out, w - 1);
    var seen := out[..Fit(out, w - 1)];
    FirstLaid(seen, w);
    PaddedCells(Laid(seen, w).1, w);
    assert EmptyRow(w)[0] == EMPTY && EMPTY[0] == BLANK;
  }

  lemma {:induction false} FitsOne(s: seq<byte>, budget: nat)
    requires s != [] && budget >= 1
    ensures Fit(s, budget) >= 1
  {
    var init := s[..|s| - 1];
    if Cols(s) > budget {
      if init != [] {
        FitsOne(init, budget);
      }
    }
  }

  /** The character a text starts with stays the first of its row while the row is not full. */
  lemma {:induction false} FirstLaid(s: seq<byte>, w: nat)
    requires w > 0 && s != [] && Lead(s[0]) && s[0] != TAB && Laid(s, w).0 == []
    ensures var last := Laid(s, w).1;
      last != [] && last[0] != [] && last[0][0] == s[0]
  {
    hide Stop, EmptyRow;
    if |s| > 1 {
      FirstLaid(s[..|s| - 1], w);
    }
  }

  /** A line and a newline at the start of an empty row: its rows go up, and an empty row follows. */
  lemma WrittenLine(s: Screen, line: seq<byte>)
    requires AtStart(s) && Tabbed(line)
    ensures Written(s, line + [NL]) == Screen(s.rows + RowsOf(line, |s.row|), EmptyRow(|s.row|), 0)
  {
    hide Written, Laid, Padded, EmptyRow;
    WrittenSplit(s, line, [NL]);
    WrittenLaid(s, line);
    WrittenOne(Written(s, line), NL);
    var (full, last) := Laid(line, |s.row|);
    Assoc(s.rows, full, [Padded(last, |s.row|)]);
  }

  lemma WrittenNewline(s: Screen, line: seq<byte>)
    requires s.Valid()
    ensures var t := Written(s, line + [NL]);
      t.row == EmptyRow(|s.row|) && t.col == 0
  {
    hide Written, EmptyRow;
    WrittenSplit(s, line, [NL]);
    WrittenOne(Written(s, line), NL);
  }

  lemma EmptyCells(width: nat)
    ensures forall k :: 0 <= k < width ==> EmptyRow(width)[k] == EMPTY
  {
  }

  lemma NothingShown(c: Console)
    requires c.Valid() && c.Owner() == None
    ensures c.shown == 0 && c.screen == Screen(c.screen.rows, EmptyRow(c.cols), 0) ==> c.Tidy() && c.Shows()
  {
  }

  lemma BothTabbed(a: seq<byte>, b: seq<byte>)
    requires Text(a) && Tabbed(b)
    ensures Tabbed(a + b)
  {
  }

  /** Text without tabs, drawn on an empty row: one row, nothing beyond the columns counted, the cursor where it
      should be. */
  lemma PlainDrawn(s: Screen, out: seq<byte>, at: nat)
    requires AtStart(s) && at <= |out|
    requires Text(out[..Fit(out, |s.row| - 1)])
    ensures var drawn := Fit(out, |s.row| - 1);
      && Cols(out[..drawn]) == |Cells(out[..drawn])| < |s.row|
      && Drawn(s, out, at, |s.row| - 1)
        == Screen(s.rows, Padded(Cells(out[..drawn]), |s.row|), Cols(out[..Min(at, drawn)]))
      && forall k :: Cols(out[..drawn]) <= k < |s.row| ==> Padded(Cells(out[..drawn]), |s.row|)[k] == EMPTY
  {
    hide Written, Fit, Cells, Filled, EmptyRow, Cols;
    var drawn, cols := Fit(out, |s.row| - 1), |s.row|;
    var seen := out[..drawn];
    CellsAreCols(seen);
    WrittenText(s, seen);
    FitsInRow(Cells(seen), cols);
    PaddedEmpty(Cells(seen), cols);
    Units(s.rows);
    if at < drawn {
      ColsGrow(seen, at, drawn);
      assert seen[..at] == out[..at] && seen[at..drawn] == out[at..drawn] && seen[..drawn] == seen;
    }
  }

  lemma ShowsDrawn(clean: Screen, s: Screen, ts: Stream, counters: map<nat, int>, p: Partial)
    requires AtStart(clean) && p.Valid() && ts.Valid() && -INT_MAX <= Count(ts, counters, 1) <= INT_MAX
    requires var out := BottomText(ts, counters, p);
      StaysTidy(out, CursorIn(out, p), |clean.row|) && s == Drawn(clean, out, CursorIn(out, p), |clean.row| - 1)
    ensures s.Valid() && ShowsStream(s, ts, counters, p)
  {
    hide Fit, Tag, Padded, Laid, Drawn, Written, Cols, EmptyRow;
    var out := BottomText(ts, counters, p);
    TagFits(ts, Count(ts, counters, 1));
    BothTabbed(Tag(ts, Count(ts, counters, 1)), p.text);
    TabDrawn(clean, out, CursorIn(out, p));
  }

  /** Whatever is drawn on an empty row, tabs included, is laid out from its start. The row is tidy afterwards if and
      only if that stays in the row and puts neither a character nor the cursor beyond the columns counted. */
  lemma TabDrawn(s: Screen, out: seq<byte>, at: nat)
    requires AtStart(s) && at <= |out| && Tabbed(out)
    ensures var w, drawn := |s.row|, Fit(out, |s.row| - 1);
      var n, t := Cols(out[..drawn]), Drawn(s, out, at, |s.row| - 1);
      var (full, last) := Laid(out[..drawn], w);
      && t == Screen(s.rows + full, Padded(last, w), Back(|last|, ColsBehind(out, at, drawn)))
      && ((t.rows == s.rows && t.col <= n && forall k :: n <= k < w ==> t.row[k] == EMPTY)
          <==> StaysTidy(out, at, w))
  {
    hide Written, Fit, EmptyRow, Cols, Laid, Padded, ColsBehind;
    var w, drawn := |s.row|, Fit(out, |s.row| - 1);
    assert forall b <- out[..drawn] :: b in out;
    WrittenLaid(s, out[..drawn]);
    var (full, last) := Laid(out[..drawn], w);
    PaddedCells(last, w);
    if full != [] {
      assert s.rows + full != s.rows by {
        assert |s.rows + full| != |s.rows|;
      }
    } else {
      Units(s.rows);
    }
  }

  /** Text without tabs stays tidy wherever the cursor is: each character takes the column counted for it. */
  lemma PlainTidy(out: seq<byte>, at: nat, width: nat)
    requires width > 0 && Text(out[..Fit(out, width - 1)])
    ensures StaysTidy(out, at, width)
  {
    hide Fit, Cells, Filled, Laid, Cols, ColsBehind;
    var seen := out[..Fit(out, width - 1)];
    LaidText(seen, width);
    CellsAreCols(seen);
    FitsInRow(Cells(seen), width);
  }

  /** Text behind byte `at` that stays in the row and has no tab there takes the columns counted for it. */
  lemma {:induction false} NoTabBehind(out: seq<byte>, at: nat, w: nat)
    requires w > 0 && at <= |out| && TAB !in out[at..] && Laid(out, w).0 == []
    ensures Laid(out[..at], w).0 == [] && |Laid(out, w).1| == |Laid(out[..at], w).1| + Cols(out[at..])
    decreases |out| - at
  {
    hide Stop, EmptyRow;
    if at == |out| {
      Whole(out);
    } else {
      var init := out[..|out| - 1];
      assert out[|out| - 1] == out[at..][|out| - 1 - at];
      assert init[..at] == out[..at] && init[at..] == out[at..][..|out| - 1 - at];
      assert forall b <- init[at..] :: b in out[at..];
      NoTabBehind(init, at, w);
    }
  }

  /** With no tab to be seen behind it, the cursor of a row that shows a stream is in the stream's own column; if that
      is not visible, it is behind the text. */
  lemma CursorShown(s: Screen, ts: Stream, counters: map<nat, int>, p: Partial)
    requires s.Valid() && p.Valid() && ShowsStream(s, ts, counters, p)
    requires var out := BottomText(ts, counters, p);
      var drawn := Fit(out, |s.row| - 1);
      TAB !in out[Min(CursorIn(out, p), drawn)..drawn]
    ensures var out := BottomText(ts, counters, p);
      s.col == |Laid(out[..Min(CursorIn(out, p), Fit(out, |s.row| - 1))], |s.row|).1|
  {
    hide Fit, Laid, Cols, Padded, Tag;
    var out := BottomText(ts, counters, p);
    var drawn, at := Fit(out, |s.row| - 1), CursorIn(out, p);
    if at < drawn {
      var seen := out[..drawn];
      assert seen[at..] == out[at..drawn] && seen[..at] == out[..at];
      NoTabBehind(seen, at, |s.row|);
    }
  }

  lemma PaddedCells(cells: seq<Cell>, width: nat)
    requires |cells| <= width
    ensures forall k :: 0 <= k < width ==>
      Padded(cells, width)[k] == if k < |cells| then cells[k] else EMPTY
  {
  }

  const MARK: byte := 0x78

  /** The display counts a tab as one column: a partial line with two tabs leaves a character on the row that is
      still there when the row has been erased. */
  method TabResidue(ts: Stream) returns (c: Console)
    requires ts.Valid()
    ensures c.Valid() && c.shown == 0 && c.screen.row != EmptyRow(c.cols)
  {
    hide ShowsStream, EmptyRow, Tag, Fit, Padded, Cols, Wiped, Drawn, Written, Laid, Count;
    c := new Console(200);
    c.PartialChanged(ts, Partial([TAB, TAB, MARK], 3));
    ghost var clean := c.screen;
    c.Sync();
    Residue(ts, clean, c.screen, c.shown);
    ghost var drawn := c.screen;
    c.EraseBottom();
    StillThere(drawn, c.screen, 200);
  }

  ghost predicate Leaves(s: Screen, n: nat) { exists k :: n <= k < |s.row| && s.row[k] == [MARK] }

  lemma StillThere(s: Screen, t: Screen, w: nat)
    requires s.Valid() && |s.row| == w && exists n: nat :: n <= w && Leaves(s, n) && t == Wiped(s, n)
    ensures t.row != EmptyRow(w)
  {
    var n: nat :| n <= w && Leaves(s, n) && t == Wiped(s, n);
    var k :| n <= k < |s.row| && s.row[k] == [MARK];
    assert t.row[k] == [MARK] && EmptyRow(w)[k] == EMPTY && [MARK][0] != EMPTY[0];
  }

  lemma Residue(ts: Stream, clean: Screen, s: Screen, n: nat)
    requires ts.Valid() && clean == Screen([], EmptyRow(200), 0)
    requires var out := BottomText(ts, map[], Partial([TAB, TAB, MARK], 3));
      n == Cols(out[..Fit(out, 199)]) && s == Drawn(Wiped(clean, 0), out, |out|, 199)
    ensures Leaves(s, n)
  {
    hide Tag, Fit, Cols, Drawn, Written, Laid, Padded, Count;
    var line := Count(ts, map[], 1);
    assert line <= 1 && line >= 0 by {
      CountOfNone(ts);
    }
    var tag := Tag(ts, line);
    TagFits(ts, line);
    var out := tag + [TAB, TAB, MARK];
    ResidueLaid(tag);
    WholeFits(out, 199);
    Whole(out);
    assert Tabbed(out) by {
      assert forall b <- out :: b in tag || b == TAB || b == MARK;
    }
    TabDrawn(clean, out, |out|);
    var (full, last) := Laid(out, 200);
    PaddedCells(last, 200);
    assert s.row[|last| - 1] == [MARK];
  }

  lemma CountOfNone(ts: Stream)
    ensures 0 <= Count(ts, map[], 1) <= 1
  {
  }

  lemma WholeFits(out: seq<byte>, budget: nat)
    requires Cols(out) <= budget
    ensures Fit(out, budget) == |out|
  {
  }

  lemma {:induction false} ColsAtMost(s: seq<byte>)
    ensures Cols(s) <= |s|
  {
    if s != [] {
      ColsAtMost(s[..|s| - 1]);
    }
  }

  lemma ResidueLaid(tag: seq<byte>)
    requires Text(tag) && |tag| <= 112
    ensures var out := tag + [TAB, TAB, MARK];
      var (full, last) := Laid(out, 200);
      && Cols(out) <= 115 && full == [] && Cols(out) < |last| && last[|last| - 1] == [MARK]
  {
    hide Cells;
    var a, b, c := tag + [TAB], tag + [TAB, TAB], tag + [TAB, TAB, MARK];
    assert a[..|a| - 1] == tag && b[..|b| - 1] == a && c[..|c| - 1] == b;
    ColsAtMost(tag);
    CellsAreCols(tag);
    LaidText(tag, 200);
    FitsInRow(Cells(tag), 200);
    var n := Cols(tag);
    var s := Stop(n, 200);
    var t := Stop(s, 200);
    assert Cols(a) == n + 1 && Cols(b) == n + 2 && Cols(c) == n + 3;
    assert Laid(a, 200).0 == [] && |Laid(a, 200).1| == s;
    assert Laid(b, 200).0 == [] && |Laid(b, 200).1| == t;
    assert Laid(c, 200) == ([], Laid(b, 200).1 + [[MARK]]);
  }

  function EventOf(ts: Stream): Stream { ts.(mark := Some('*' as int)) }

  function EventText(msg: seq<byte>): seq<byte> { if |msg| > 255 then msg[..255] else msg }

  function Backs(n: nat): (r: seq<byte>)
    ensures |r| == n
  {
    seq(n, _ => BS)
  }

  lemma {:induction false} WrittenBacks(s: Screen, n: nat)
    requires s.Valid()
    ensures Written(s, Backs(n)) == s.(col := Back(s.col, n))
  {
    if n > 0 {
      WrittenBacks(s, n - 1);
      assert Backs(n)[..n - 1] == Backs(n - 1);
    }
  }

  /** Fewer characters than columns fill no row. */
  lemma {:induction false} FitsInRow(cells: seq<Cell>, width: nat)
    requires |cells| < width
    ensures Filled(cells, width) == ([], cells)
  {
    if cells != [] {
      var init := cells[..|cells| - 1];
      FitsInRow(init, width);
      assert cells == init + [cells[|cells| - 1]];
    }
  }

  lemma PaddedEmpty(cells: seq<Cell>, width: nat)
    requires |cells| <= width
    ensures forall k :: |cells| <= k < width ==> Padded(cells, width)[k] == EMPTY
  {
  }
}
