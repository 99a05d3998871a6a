/** The streams that share the display: runs of whatever their line filters, the relay and the shell do to it. */
module Multiplexer {
  import opened Wrappers
  import opened Seqs
  import opened LineTerminal
  import opened LineFilter
  import opened Screen
  import opened Display
  import opened Console

  /** On filtered stream `k`: bytes to filter, its end, its pending line taken over by the relay's record. On any
      stream: a line, an event, a partial line. On the display: draw, the default stream, the owner, a stream
      that goes away. */
  datatype Call =
    | Bytes(k: nat, buf: seq<byte>)
    | End(k: nat)
    | Take(k: nat)
    | Line(ts: Stream, text: seq<byte>)
    | Event(ts: Stream, text: seq<byte>)
    | Part(ts: Stream, p: Partial)
    | Draw
    | Default(s: Option<Stream>)
    | Own(s: Option<Stream>)
    | Gone(ts: Stream)
  {
    predicate On(n: nat) { Bytes? || End? || Take? ==> k < n }
  }

  // ---------------------------------------------------------------- the book of a run

  /** A line that came up. */
  datatype Record = Record(ts: Stream, number: int, text: seq<byte>)

  /** What the run amounts to, on paper. `stale` says that the bottom row is not what it should be. */
  datatype Book = Book(
    terms: seq<LineTerm>, counters: map<nat, int>, partials: map<Stream, Partial>, records: seq<Record>,
    bot: Option<Stream>, def: Option<Stream>, dirty: bool, stale: bool)

  function AddLine(b: Book, ts: Stream, text: seq<byte>): Book {
    b.(counters := Counted(ts, b.counters), records := b.records + [Record(ts, Count(ts, b.counters, 1), text)],
       dirty := true, stale := false)
  }

  function AddLines(b: Book, ts: Stream, lines: seq<seq<byte>>): (r: Book)
    ensures r.terms == b.terms
  {
    if lines == [] then b else AddLine(AddLines(b, ts, lines[..|lines| - 1]), ts, lines[|lines| - 1])
  }

  function Tell(b: Book, ts: Stream, p: Partial): Book {
    b.(partials := b.partials[ts := p],
       bot := if p.text != [] then Some(ts) else if b.bot == Some(ts) then None else b.bot,
       dirty := true, stale := false)
  }

  /** Lines and the new partial line of a stream. */
  function Deal(b: Book, ts: Stream, r: Out): (s: Book)
    ensures s.terms == b.terms
  {
    Tell(AddLines(b, ts, r.lines), ts, Partial(r.t.text, r.t.cur))
  }

  /** What a call on a filtered stream makes of its terminal. */
  function Heard(t: LineTerm, call: Call): (r: Out)
    requires call.Bytes? || call.End? || call.Take?
    ensures r.t.Valid()
  {
    match call
    case Bytes(_, buf) => Run(t, buf)
    case End(_) => Flush(t)
    case Take(_) => Out(Emptied(t), [])
  }

  /** Only the loss of a default stream that is on the row, with nothing to be redrawn, leaves the row stale. */
  function Step(b: Book, streams: seq<Stream>, cols: nat, call: Call): (s: Book)
    requires |b.terms| == |streams| && call.On(|streams|)
    ensures |s.terms| == |b.terms|
  {
    match call
    case Line(ts, text) => AddLine(b, ts, text)
    case Event(ts, msg) => AddLine(b, EventOf(ts), EventText(msg))
    case Part(ts, p) => Tell(b, ts, p)
    case Draw => b.(dirty := false)
    case Default(s) => if b.def == s then b else b.(def := s, dirty := true, stale := false)
    case Own(s) => if b.bot == s then b else b.(bot := s, dirty := true, stale := false)
    case Gone(ts) =>
      var owned := b.bot == Some(ts);
      b.(bot := if owned then None else b.bot, def := if b.def == Some(ts) then None else b.def,
         dirty := b.dirty || owned,
         stale := !owned && (b.stale || (b.bot == None && b.def == Some(ts) && !b.dirty && cols > 1)))
    case _ =>
      var r := Heard(b.terms[call.k], call);
      Deal(b, streams[call.k], r).(terms := b.terms[call.k := r.t])
  }

  function Booked(b: Book, streams: seq<Stream>, cols: nat, calls: seq<Call>): (s: Book)
    requires |b.terms| == |streams| && forall call <- calls :: call.On(|streams|)
    ensures |s.terms| == |b.terms|
  {
    if calls == [] then b
    else Step(Booked(b, streams, cols, calls[..|calls| - 1]), streams, cols, calls[|calls| - 1])
  }

  lemma BookedMore(b: Book, streams: seq<Stream>, cols: nat, calls: seq<Call>, i: nat)
    requires |b.terms| == |streams| && (forall call <- calls :: call.On(|streams|)) && i < |calls|
    ensures Booked(b, streams, cols, calls[..i + 1])
      == Step(Booked(b, streams, cols, calls[..i]), streams, cols, calls[i])
  {
    hide Step;
    assert calls[..i + 1][..i] == calls[..i];
  }

  /** The rows that records take, one record after the other. */
  function AllRows(records: seq<Record>, width: nat): seq<seq<Cell>>
    requires width > 0
  {
    if records == [] then []
    else AllRows(records[..|records| - 1], width) + RowsOf(Shown(records[|records| - 1]), width)
  }

  function Shown(r: Record): seq<byte> { Tag(r.ts, r.number) + r.text }

  lemma AllRowsMore(records: seq<Record>, r: Record, width: nat)
    requires width > 0
    ensures AllRows(records + [r], width) == AllRows(records, width) + RowsOf(Shown(r), width)
  {
    assert (records + [r])[..|records|] == records;
  }

  lemma NoRows(width: nat)
    requires width > 0
    ensures AllRows([], width) == []
  {
  }

  // ---------------------------------------------------------------- what the calls ask for

  /** No counter overflows in `k` more lines. */
  predicate Room(counters: map<nat, int>, k: int) {
    k < INT_MAX && forall t <- counters :: 0 <= counters[t] < INT_MAX - k
  }

  /** The lines that a call brings up at most. */
  function Weight(call: Call): nat {
    if call.Bytes? then |call.buf| else if call.End? || call.Line? || call.Event? then 1 else 0
  }

  function Weights(calls: seq<Call>): nat {
    if calls == [] then 0 else Weight(calls[0]) + Weights(calls[1..])
  }

  predicate Texts(b: Book) { forall t <- b.terms :: Tabbed(t.text) }

  /** What would be drawn leaves the row tidy. */
  predicate DrawsTidily(b: Book, cols: nat) {
    var owner := if b.bot.Some? then b.bot else b.def;
    owner.Some? && cols > 0 ==>
      var p := PartialOf(owner.value, b.partials);
      var out := BottomText(owner.value, b.counters, p);
      StaysTidy(out, CursorIn(out, p), cols)
  }

  /** Text may have tabs, but what is drawn on the bottom row has to leave it tidy. */
  predicate Ready(b: Book, streams: seq<Stream>, cols: nat, call: Call)
    requires |b.terms| == |streams| && call.On(|streams|)
  {
    match call
    case Bytes(k, buf) => MarkFits(b.terms[k], buf)
    case Line(ts, text) => ts.Valid() && Tabbed(text) && |text| <= CAP
    case Event(ts, msg) => ts.Valid() && Tabbed(msg)
    case Draw => b.dirty ==> DrawsTidily(b, cols)
    case Part(ts, p) => ts.Valid() && p.Valid()
    case Default(s) => s.Some? ==> s.value.Valid()
    case Own(s) => s.Some? ==> s.value.Valid()
    case _ => true
  }

  // ---------------------------------------------------------------- the display and the line buffers

  /** The console is as the book has it, with the book's records on top of `rows`. */
  ghost predicate Agrees(c: Console, rows: seq<seq<Cell>>, b: Book)
    reads c
  {
    && c.Valid() && c.Tidy() && c.counters == b.counters && c.partials == b.partials && c.bot == b.bot && c.def == b.def
    && c.dirty == b.dirty && (c.Settled() <==> !b.stale) && (b.stale ==> b.bot == b.def == None)
    && c.screen.rows == rows + AllRows(b.records, c.cols)
  }

  ghost predicate Holds(lbs: seq<LineBuffer>, b: Book)
    reads lbs, set lb <- lbs :: lb.data
  {
    |lbs| == |b.terms| && forall k :: 0 <= k < |lbs| ==> lbs[k].Valid() && lbs[k].View() == b.terms[k]
  }

  predicate Separate(lbs: seq<LineBuffer>) {
    forall i, j :: 0 <= i < j < |lbs| ==> lbs[i] != lbs[j] && lbs[i].data != lbs[j].data
  }

  method ShowLine(c: Console, ts: Stream, text: seq<byte>, ghost rows: seq<seq<Cell>>, ghost b: Book)
    requires Agrees(c, rows, b) && ts.Valid() && Tabbed(text) && |text| <= CAP && Room(c.counters, 1)
    modifies c`screen, c`shown, c`dirty, c`counters
    ensures Agrees(c, rows, AddLine(b, ts, text))
  {
    hide Tag, RowsOf, ShowsStream, EmptyRow, AllRows;
    ghost var r := Record(ts, Count(ts, b.counters, 1), text);
    c.DisplayLine(ts, text);
    AllRowsMore(b.records, r, c.cols);
    Assoc(rows, AllRows(b.records, c.cols), RowsOf(Shown(r), c.cols));
  }

  method TellPartial(c: Console, ts: Stream, p: Partial, ghost rows: seq<seq<Cell>>, ghost b: Book)
    requires Agrees(c, rows, b) && ts.Valid() && p.Valid()
    modifies c`partials, c`bot, c`dirty
    ensures Agrees(c, rows, Tell(b, ts, p))
  {
    hide Tag, ShowsStream, EmptyRow, AllRows;
    c.PartialChanged(ts, p);
  }

  method ShowLines(c: Console, ts: Stream, lines: seq<seq<byte>>, ghost rows: seq<seq<Cell>>, ghost b: Book)
    requires Agrees(c, rows, b) && ts.Valid() && Room(c.counters, |lines|)
    requires forall l <- lines :: Tabbed(l) && |l| <= CAP
    modifies c`screen, c`shown, c`dirty, c`counters
    ensures Agrees(c, rows, AddLines(b, ts, lines))
  {
    hide Agrees, AllRows, Tabbed;
    for k := 0 to |lines|
      invariant Agrees(c, rows, AddLines(b, ts, lines[..k])) && Room(c.counters, |lines| - k)
    {
      ghost var before := AddLines(b, ts, lines[..k]);
      assert lines[k] in lines;
      AgreedCounters(c, rows, before);
      RoomAfter(before, ts, lines[k], |lines| - k);
      ShowLine(c, ts, lines[k], rows, before);
      AgreedCounters(c, rows, AddLine(before, ts, lines[k]));
      assert lines[..k + 1][..k] == lines[..k];
    }
    Whole(lines);
  }

  lemma AgreedCounters(c: Console, rows: seq<seq<Cell>>, b: Book)
    requires Agrees(c, rows, b)
    ensures c.Valid() && c.counters == b.counters
  {
  }

  lemma RoomAfter(b: Book, ts: Stream, text: seq<byte>, k: int)
    requires Room(b.counters, k) && k > 0
    ensures Room(AddLine(b, ts, text).counters, k - 1)
  {
  }

  lemma {:induction false} RoomAfterLines(b: Book, ts: Stream, lines: seq<seq<byte>>, k: int)
    requires Room(b.counters, k) && k >= |lines|
    ensures Room(AddLines(b, ts, lines).counters, k - |lines|)
  {
    hide Room, AddLine;
    if lines != [] {
      var init, last := lines[..|lines| - 1], lines[|lines| - 1];
      RoomAfterLines(b, ts, init, k);
      RoomAfter(AddLines(b, ts, init), ts, last, k - |init|);
    }
  }

  /** A line is at most as long as the buffer, if the mark always fits. */
  lemma LineBounded(t: Term, c: byte)
    requires t.Valid() && !Overflows(t, c)
    ensures |Feed(t, c).lines| <= 1 && forall l <- Feed(t, c).lines :: |l| <= CAP
  {
  }

  lemma {:induction false} LinesBounded(t: Term, buf: seq<byte>)
    requires t.Valid() && MarkFits(t, buf)
    ensures |Run(t, buf).lines| <= |buf|
    ensures forall l <- Run(t, buf).lines :: |l| <= CAP
  {
    hide Feed, Overflows;
    if buf != [] {
      var init := buf[..|buf| - 1];
      forall i | 0 <= i < |init|
        ensures !OverflowsAt(t, init, i)
      {
        assert init[..i] == buf[..i] && !OverflowsAt(t, buf, i);
      }
      LinesBounded(t, init);
      assert !OverflowsAt(t, buf, |init|);
      LineBounded(Run(t, init).t, buf[|buf| - 1]);
    }
  }

  lemma MarkFitsInit(t: Term, buf: seq<byte>, n: nat)
    requires t.Valid() && MarkFits(t, buf) && n <= |buf|
    ensures MarkFits(t, buf[..n])
  {
    hide Run, Overflows;
    forall i | 0 <= i < n
      ensures !OverflowsAt(t, buf[..n], i)
    {
      assert buf[..n][..i] == buf[..i] && !OverflowsAt(t, buf, i);
    }
  }

  lemma TextIsClean(s: seq<byte>)
    ensures Tabbed(s) <==> Clean(s, true)
  {
  }

  /** What a filter hands on can be displayed. */
  lemma RunTexts(t: Term, buf: seq<byte>)
    requires t.Valid() && Tabbed(t.text) && MarkFits(t, buf)
    ensures var r := Run(t, buf);
      Tabbed(r.t.text) && |r.lines| <= |buf| && forall l <- r.lines :: Tabbed(l) && |l| <= CAP
  {
    hide Run, MarkFits, Tabbed, Clean;
    TextIsClean(t.text);
    RunClean(t, buf, true);
    LinesBounded(t, buf);
    TextIsClean(Run(t, buf).t.text);
    forall l <- Run(t, buf).lines
      ensures Tabbed(l)
    {
      TextIsClean(l);
    }
  }

  /** What came out of the buffer since `before` goes to the display, then the partial line is told. */
  method HandOn(c: Console, lb: LineBuffer, ts: Stream, before: nat, ghost r: Out, ghost rows: seq<seq<Cell>>,
                ghost b: Book)
    requires Agrees(c, rows, b) && lb.Valid() && ts.Valid() && Room(c.counters, |r.lines|)
    requires lb.View() == r.t && Tabbed(r.t.text) && before <= |lb.lines| && lb.lines[before..] == r.lines
    requires forall l <- r.lines :: Tabbed(l) && |l| <= CAP
    modifies c`screen, c`shown, c`dirty, c`counters, c`partials, c`bot
    ensures Agrees(c, rows, Deal(b, ts, r))
  {
    hide Agrees, AllRows, Tabbed, AddLines;
    ShowLines(c, ts, lb.lines[before..], rows, b);
    TellPartial(c, ts, Partial(lb.data[..lb.len], lb.cur), rows, AddLines(b, ts, r.lines));
  }

  /** A stream's bytes through its filter onto the display: exactly the lines that the terminal model gives come
      up, tagged and numbered on; then the stream has the bottom row if its line is not empty, and gives it up
      if it is. */
  method Deliver(c: Console, lb: LineBuffer, ts: Stream, buf: seq<byte>, stop: bool, ghost rows: seq<seq<Cell>>,
                 ghost b: Book) returns (took: nat, trigger: bool)
    requires Agrees(c, rows, b) && lb.Valid() && ts.Valid() && MarkFits(lb.View(), buf)
    requires Tabbed(lb.View().text) && Room(c.counters, |buf|)
    modifies c`screen, c`shown, c`dirty, c`counters, c`partials, c`bot, lb, lb.data
    ensures lb.Valid() && took <= |buf| && Tabbed(lb.View().text)
    ensures lb.View() == Run(old(lb.View()), buf[..took]).t
    ensures Agrees(c, rows, Deal(b, ts, Run(old(lb.View()), buf[..took])))
    ensures trigger ==> stop && took > 0 && TriggersAt(old(lb.View()), buf, took - 1)
    ensures !trigger ==> took == |buf|
  {
    hide Run, MarkFits, Tabbed, Agrees, TriggersAt, Deal;
    ghost var t, before := lb.View(), lb.lines;
    var n := |lb.lines|;
    took, trigger := lb.FilterBytes(buf, stop);
    MarkFitsInit(t, buf, took);
    RunTexts(t, buf[..took]);
    ghost var r := Run(t, buf[..took]);
    assert (before + r.lines)[n..] == r.lines;
    HandOn(c, lb, ts, n, r, rows, b);
  }

  /** The end of a stream: its last line comes up, and it gives up the bottom row. */
  method DeliverEnd(c: Console, lb: LineBuffer, ts: Stream, ghost rows: seq<seq<Cell>>, ghost b: Book)
    requires Agrees(c, rows, b) && lb.Valid() && ts.Valid() && Tabbed(lb.View().text) && Room(c.counters, 1)
    modifies c`screen, c`shown, c`dirty, c`counters, c`partials, c`bot
    modifies lb`len, lb`cur, lb`moved, lb`fs, lb`lines
    ensures lb.Valid() && lb.View() == Flush(old(lb.View())).t
    ensures Agrees(c, rows, Deal(b, ts, Flush(old(lb.View()))))
  {
    hide Tabbed, Agrees, Deal;
    ghost var t, before := lb.View(), lb.lines;
    var n := |lb.lines|;
    NoText();
    lb.FlushLine();
    ghost var r := Flush(t);
    assert (before + r.lines)[n..] == r.lines;
    HandOn(c, lb, ts, n, r, rows, b);
  }

  lemma NoText()
    ensures Tabbed([])
  {
  }

  /** Enter at the keyboard relay completes the task's pending line: its text is part of the relay's record. */
  method DeliverTake(c: Console, lb: LineBuffer, ts: Stream, ghost rows: seq<seq<Cell>>, ghost b: Book)
    requires Agrees(c, rows, b) && lb.Valid() && ts.Valid()
    modifies c`partials, c`bot, c`dirty, lb`len, lb`cur
    ensures lb.Valid() && lb.View() == Emptied(old(lb.View()))
    ensures Agrees(c, rows, Deal(b, ts, Out(Emptied(old(lb.View())), [])))
  {
    hide Agrees;
    lb.len, lb.cur := 0, 0;
    TellPartial(c, ts, Partial([], 0), rows, b);
  }

  // ---------------------------------------------------------------- runs

  method PerformOnStream(c: Console, lb: LineBuffer, ts: Stream, call: Call, ghost rows: seq<seq<Cell>>,
                         ghost b: Book)
    requires call.Bytes? || call.End? || call.Take?
    requires lb.Valid() && (call.Bytes? ==> MarkFits(lb.View(), call.buf))
    requires Agrees(c, rows, b) && ts.Valid() && Tabbed(lb.View().text) && Room(c.counters, Weight(call))
    modifies c, lb, lb.data
    ensures lb.Valid() && lb.View() == Heard(old(lb.View()), call).t && Tabbed(lb.View().text)
    ensures Agrees(c, rows, Deal(b, ts, Heard(old(lb.View()), call)))
  {
    hide Agrees, Deal, Run, MarkFits, Tabbed, TriggersAt;
    NoText();
    match call
    case Bytes(_, buf) =>
      var took, trigger := Deliver(c, lb, ts, buf, false, rows, b);
      Whole(buf);
    case End(_) => DeliverEnd(c, lb, ts, rows, b);
    case Take(_) => DeliverTake(c, lb, ts, rows, b);
  }

  method DrawNow(c: Console, ghost rows: seq<seq<Cell>>, ghost b: Book)
    requires Agrees(c, rows, b) && (b.dirty ==> DrawsTidily(b, c.cols))
    modifies c`screen, c`shown, c`dirty
    ensures Agrees(c, rows, b.(dirty := false))
  {
    hide Tag, ShowsStream, EmptyRow, AllRows, StaysTidy, Wiped, Fit, Cols;
    SameDraw(c, rows, b);
    c.Sync();
  }

  method PerformOnDisplay(c: Console, call: Call, ghost streams: seq<Stream>, ghost rows: seq<seq<Cell>>,
                          ghost b: Book)
    requires !call.Bytes? && !call.End? && !call.Take? && |b.terms| == |streams|
    requires Agrees(c, rows, b) && Ready(b, streams, c.cols, call) && Room(c.counters, Weight(call))
    modifies c
    ensures Agrees(c, rows, Step(b, streams, c.cols, call))
  {
    hide Tag, RowsOf, ShowsStream, EmptyRow, AllRows, DrawsTidily;
    match call
    case Line(ts, text) => ShowLine(c, ts, text, rows, b);
    case Event(ts, msg) =>
      ghost var r := Record(EventOf(ts), Count(ts, b.counters, 1), EventText(msg));
      c.DisplayEvent(ts, msg);
      AllRowsMore(b.records, r, c.cols);
      Assoc(rows, AllRows(b.records, c.cols), RowsOf(Shown(r), c.cols));
    case Part(ts, p) => TellPartial(c, ts, p, rows, b);
    case Draw => DrawNow(c, rows, b);
    case Default(s) => c.SetDefault(s);
    case Own(s) => c.SetOwner(s);
    case Gone(ts) => c.StreamGone(ts);
  }

  /** The book of a console and its line buffers, with no records yet. */
  ghost function Opened(c: Console, lbs: seq<LineBuffer>): (b: Book)
    requires c.Valid() && forall lb <- lbs :: lb.Valid()
    reads c, lbs, set lb <- lbs :: lb.data
    ensures |b.terms| == |lbs|
  {
    Book(seq(|lbs|, k requires 0 <= k < |lbs| reads lbs, set lb <- lbs :: lb.data => ViewOf(lbs[k])), c.counters,
         c.partials, [], c.bot, c.def, c.dirty, !c.Settled())
  }

  ghost function ViewOf(lb: LineBuffer): LineTerm
    reads lb, lb.data
  {
    if lb.Valid() then lb.View() else START
  }

  method PerformFiltered(c: Console, lbs: seq<LineBuffer>, streams: seq<Stream>, call: Call,
                         ghost rows: seq<seq<Cell>>, ghost b: Book)
    requires call.Bytes? || call.End? || call.Take?
    requires |lbs| == |streams| == |b.terms| && call.On(|streams|) && Separate(lbs)
    requires Agrees(c, rows, b) && Holds(lbs, b) && Texts(b) && streams[call.k].Valid()
    requires Ready(b, streams, c.cols, call) && Room(c.counters, Weight(call))
    modifies c, lbs[call.k], lbs[call.k].data
    ensures var s := Step(b, streams, c.cols, call);
      Agrees(c, rows, s) && Holds(lbs, s) && Texts(s)
  {
    hide Agrees, Deal, Tabbed, MarkFits, Heard, Room;
    var k := call.k;
    assert b.terms[k] in b.terms;
    PerformOnStream(c, lbs[k], streams[k], call, rows, b);
    ghost var r := Heard(b.terms[k], call);
    AgreesAnyTerms(c, rows, Deal(b, streams[k], r), b.terms[k := r.t]);
  }

  method PerformOne(c: Console, lbs: seq<LineBuffer>, streams: seq<Stream>, call: Call,
                    ghost rows: seq<seq<Cell>>, ghost b: Book)
    requires |lbs| == |streams| == |b.terms| && call.On(|streams|) && Separate(lbs)
    requires Agrees(c, rows, b) && Holds(lbs, b) && Texts(b) && (forall ts <- streams :: ts.Valid())
    requires Ready(b, streams, c.cols, call) && Room(c.counters, Weight(call))
    modifies c, lbs, set lb <- lbs :: lb.data
    ensures var s := Step(b, streams, c.cols, call);
      Agrees(c, rows, s) && Holds(lbs, s) && Texts(s)
  {
    hide Agrees, Step, Ready, Room, Tabbed;
    if call.Bytes? || call.End? || call.Take? {
      assert streams[call.k] in streams;
      PerformFiltered(c, lbs, streams, call, rows, b);
    } else {
      PerformOnDisplay(c, call, streams, rows, b);
      TermsKept(b, streams, c.cols, call);
    }
  }

  lemma SameDraw(c: Console, rows: seq<seq<Cell>>, b: Book)
    requires Agrees(c, rows, b)
    ensures c.WillBeTidy() <==> DrawsTidily(b, c.cols)
  {
    hide StaysTidy, ShowsStream;
  }

  lemma AgreesAnyTerms(c: Console, rows: seq<seq<Cell>>, b: Book, terms: seq<LineTerm>)
    requires Agrees(c, rows, b)
    ensures Agrees(c, rows, b.(terms := terms))
  {
  }

  lemma TermsKept(b: Book, streams: seq<Stream>, cols: nat, call: Call)
    requires |b.terms| == |streams| && !call.Bytes? && !call.End? && !call.Take?
    ensures Step(b, streams, cols, call).terms == b.terms
  {
  }

  /** Each call finds what it asks for. */
  predicate AllReady(b: Book, streams: seq<Stream>, cols: nat, calls: seq<Call>)
    requires |b.terms| == |streams| && forall call <- calls :: call.On(|streams|)
  {
    forall i :: 0 <= i < |calls| ==> Ready(Booked(b, streams, cols, calls[..i]), streams, cols, calls[i])
  }

  /** Any run of calls, the filters' included, on consoles of all widths: the rows gone up are those of the book's
      records, in the order of the calls, and nothing else, so that no erased partial line leaves a trace; each line
      buffer holds what its own calls make of it; and after a sync the bottom row is as it should be, unless
      the default stream was lost while it was shown and nothing changed since. */
  method Perform(c: Console, lbs: seq<LineBuffer>, streams: seq<Stream>, calls: seq<Call>)
    requires c.Valid() && c.Tidy() && (c.Settled() || c.bot == c.def == None) && (forall lb <- lbs :: lb.Valid())
    requires |lbs| == |streams| && Separate(lbs) && (forall ts <- streams :: ts.Valid())
    requires (forall call <- calls :: call.On(|streams|)) && Texts(Opened(c, lbs))
    requires AllReady(Opened(c, lbs), streams, c.cols, calls) && Room(c.counters, Weights(calls))
    modifies c, lbs, set lb <- lbs :: lb.data
    ensures var s := Booked(old(Opened(c, lbs)), streams, c.cols, calls);
      && Agrees(c, old(c.screen.rows), s) && Holds(lbs, s)
      && (calls != [] && calls[|calls| - 1].Draw? ==> (c.Shows() <==> !s.stale))
  {
    hide Agrees, Holds, Step, Ready, Room, Texts, AllRows, ShowsStream, EmptyRow, Weight, Separate;
    ghost var b, rows, cols := Opened(c, lbs), c.screen.rows, c.cols;
    AgreesOpened(c, lbs);
    Whole(calls);
    for k := 0 to |calls|
      invariant var s := Booked(b, streams, cols, calls[..k]);
        Agrees(c, rows, s) && Holds(lbs, s) && Texts(s) && Room(s.counters, Weights(calls[k..]))
    {
      ghost var s := Booked(b, streams, cols, calls[..k]);
      assert calls[k] in calls;
      DropOne(calls, k);
      AgreedCounters(c, rows, s);
      RoomLess(s.counters, Weights(calls[k..]), Weight(calls[k]));
      PerformOne(c, lbs, streams, calls[k], rows, s);
      RoomAfterCall(s, streams, cols, calls[k], Weights(calls[k..]));
      BookedMore(b, streams, cols, calls, k);
    }
    if calls != [] && calls[|calls| - 1].Draw? {
      BookedMore(b, streams, cols, calls, |calls| - 1);
      Drawn(c, rows, Booked(b, streams, cols, calls[..|calls| - 1]), streams);
    }
  }

  lemma AgreesOpened(c: Console, lbs: seq<LineBuffer>)
    requires c.Valid() && c.Tidy() && (c.Settled() || c.bot == c.def == None) && forall lb <- lbs :: lb.Valid()
    ensures Agrees(c, c.screen.rows, Opened(c, lbs)) && Holds(lbs, Opened(c, lbs))
  {
    hide ShowsStream, EmptyRow;
    NoRows(c.cols);
    Units(c.screen.rows);
  }

  lemma RoomLess(counters: map<nat, int>, k: int, j: int)
    requires Room(counters, k) && j <= k
    ensures Room(counters, j)
  {
  }

  lemma RoomAfterCall(b: Book, streams: seq<Stream>, cols: nat, call: Call, k: int)
    requires |b.terms| == |streams| && call.On(|streams|) && Ready(b, streams, cols, call) && Texts(b)
    requires Room(b.counters, k) && k >= Weight(call)
    ensures Room(Step(b, streams, cols, call).counters, k - Weight(call))
  {
    hide Room, Run, MarkFits, Tabbed;
    match call
    case Line(ts, text) => RoomAfter(b, ts, text, k);
    case Event(ts, msg) => RoomAfter(b, EventOf(ts), EventText(msg), k);
    case Bytes(_, _) => RoomAfterDeal(b, streams, cols, call, k);
    case End(_) => RoomAfterDeal(b, streams, cols, call, k);
    case Take(_) => RoomAfterDeal(b, streams, cols, call, k);
    case _ =>
  }

  lemma RoomAfterDeal(b: Book, streams: seq<Stream>, cols: nat, call: Call, k: int)
    requires |b.terms| == |streams| && call.On(|streams|) && Ready(b, streams, cols, call) && Texts(b)
    requires (call.Bytes? || call.End? || call.Take?) && Room(b.counters, k) && k >= Weight(call)
    ensures Room(Deal(b, streams[call.k], Heard(b.terms[call.k], call)).counters, k - Weight(call))
  {
    hide Room, Run, MarkFits, Tabbed, AddLines;
    var t := b.terms[call.k];
    assert t in b.terms;
    if call.Bytes? {
      RunTexts(t, call.buf);
    }
    var lines := Heard(t, call).lines;
    RoomAfterLines(b, streams[call.k], lines, k);
    RoomLess(AddLines(b, streams[call.k], lines).counters, k - |lines|, k - Weight(call));
  }

  lemma Drawn(c: Console, rows: seq<seq<Cell>>, b: Book, streams: seq<Stream>)
    requires |b.terms| == |streams| && Agrees(c, rows, Step(b, streams, c.cols, Draw))
    ensures c.Valid() && (c.Shows() <==> !Step(b, streams, c.cols, Draw).stale)
  {
  }
}
