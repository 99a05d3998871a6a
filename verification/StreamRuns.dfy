/** What the book of a run says of each stream by itself, whatever the others do in between. */
module StreamRuns {
  import opened Wrappers
  import opened Seqs
  import opened LineTerminal
  import opened Display
  import opened Console
  import opened Multiplexer

  predicate Concerns(call: Call, k: nat) { (call.Bytes? || call.End? || call.Take?) && call.k == k }

  /** Stream k's own calls, one after the other, as if it were alone. */
  function OwnRun(t: LineTerm, k: nat, calls: seq<Call>): (r: Out)
    ensures r.t.Valid()
  {
    if calls == [] then Out(t, [])
    else
      var before, call := OwnRun(t, k, calls[..|calls| - 1]), calls[|calls| - 1];
      if Concerns(call, k) then
        var h := Heard(before.t, call);
        Out(h.t, before.lines + h.lines)
      else before
  }

  function OwnBytes(k: nat, calls: seq<Call>): seq<byte> {
    if calls == [] then []
    else
      var call := calls[|calls| - 1];
      OwnBytes(k, calls[..|calls| - 1]) + if call.Bytes? && call.k == k then call.buf else []
  }

  /** The lines that came up under a stream's tag. */
  function LinesOf(records: seq<Record>, ts: Stream): seq<seq<byte>> {
    if records == [] then []
    else
      var r := records[|records| - 1];
      LinesOf(records[..|records| - 1], ts) + if r.ts == ts then [r.text] else []
  }

  /** The numbers that a task's lines got, those of its events and of the relay included. */
  function NumbersOf(records: seq<Record>, task: nat): seq<int> {
    if records == [] then []
    else
      var r := records[|records| - 1];
      NumbersOf(records[..|records| - 1], task) + if r.ts.task == Some(task) then [r.number] else []
  }

  /** The filtered streams are different ones, none has the event mark, and other calls use other streams. */
  predicate Apart(streams: seq<Stream>, calls: seq<Call>) {
    && (forall i, j :: 0 <= i < j < |streams| ==> streams[i] != streams[j])
    && (forall ts <- streams :: ts.mark != Some('*' as int))
    && (forall call <- calls :: (call.Line? || call.Part? ==> call.ts !in streams))
  }

  predicate Known(b: Book, streams: seq<Stream>, k: nat)
    requires k < |streams| == |b.terms|
  {
    PartialOf(streams[k], b.partials) == Partial(b.terms[k].text, b.terms[k].cur)
  }

  // ---------------------------------------------------------------- its lines

  lemma {:induction false} LinesOfAdded(b: Book, ts: Stream, lines: seq<seq<byte>>, own: Stream)
    ensures LinesOf(AddLines(b, ts, lines).records, own)
      == LinesOf(b.records, own) + if ts == own then lines else []
    ensures AddLines(b, ts, lines).partials == b.partials
  {
    if lines == [] {
      Units(LinesOf(b.records, own));
    } else {
      var init, last := lines[..|lines| - 1], lines[|lines| - 1];
      LinesOfAdded(b, ts, init, own);
      LinesOfOne(AddLines(b, ts, init), ts, last, own);
      assert lines == init + [last];
      Assoc(LinesOf(b.records, own), init, [last]);
    }
  }

  lemma LinesOfOne(b: Book, ts: Stream, text: seq<byte>, own: Stream)
    ensures LinesOf(AddLine(b, ts, text).records, own) == LinesOf(b.records, own) + if ts == own then [text] else []
    ensures AddLine(b, ts, text).partials == b.partials && AddLine(b, ts, text).terms == b.terms
  {
    var records := AddLine(b, ts, text).records;
    assert records[..|records| - 1] == b.records;
    Units(LinesOf(b.records, own));
  }

  lemma OwnStep(b: Book, streams: seq<Stream>, cols: nat, call: Call, k: nat)
    requires k < |streams| == |b.terms| && call.On(|streams|) && Apart(streams, [call])
    ensures var s, own := Step(b, streams, cols, call), streams[k];
      if Concerns(call, k) then
        var h := Heard(b.terms[k], call);
        s.terms[k] == h.t && LinesOf(s.records, own) == LinesOf(b.records, own) + h.lines && Known(s, streams, k)
      else
        && s.terms[k] == b.terms[k] && LinesOf(s.records, own) == LinesOf(b.records, own)
        && (Known(b, streams, k) ==> Known(s, streams, k))
  {
    hide AddLine, Deal, LinesOf, Heard, Counted, Count;
    var own := streams[k];
    assert call in [call] && own in streams;
    Units(LinesOf(b.records, own));
    match call
    case Line(ts, text) => LinesOfOne(b, ts, text, own);
    case Event(ts, msg) => LinesOfOne(b, EventOf(ts), EventText(msg), own);
    case Bytes(j, _) => OwnDeal(b, streams[j], Heard(b.terms[j], call), own);
    case End(j) => OwnDeal(b, streams[j], Heard(b.terms[j], call), own);
    case Take(j) => OwnDeal(b, streams[j], Heard(b.terms[j], call), own);
    case _ =>
  }

  lemma OwnDeal(b: Book, ts: Stream, r: Out, own: Stream)
    ensures var s := Deal(b, ts, r);
      && LinesOf(s.records, own) == LinesOf(b.records, own) + (if ts == own then r.lines else [])
      && PartialOf(own, s.partials) ==
        if ts == own then Partial(r.t.text, r.t.cur) else PartialOf(own, b.partials)
  {
    hide AddLines, LinesOf;
    LinesOfAdded(b, ts, r.lines, own);
  }

  /** However the calls on the streams are mixed, the lines under a stream's tag, in order, and its partial line
      are those of its own calls alone; and what the display knows of its partial line is up to date. */
  lemma {:induction false} OwnLines(b: Book, streams: seq<Stream>, cols: nat, calls: seq<Call>, k: nat)
    requires k < |streams| == |b.terms| && (forall call <- calls :: call.On(|streams|)) && Apart(streams, calls)
    requires Known(b, streams, k)
    ensures var s, r := Booked(b, streams, cols, calls), OwnRun(b.terms[k], k, calls);
      && s.terms[k] == r.t && LinesOf(s.records, streams[k]) == LinesOf(b.records, streams[k]) + r.lines
      && Known(s, streams, k)
  {
    hide Step, LinesOf, Heard, Known;
    var own := streams[k];
    if calls == [] {
      Units(LinesOf(b.records, own));
    } else {
      var init, call := calls[..|calls| - 1], calls[|calls| - 1];
      assert call in calls && forall c <- init :: c in calls;
      OwnLines(b, streams, cols, init, k);
      OwnStep(Booked(b, streams, cols, init), streams, cols, call, k);
      var r := OwnRun(b.terms[k], k, init);
      if Concerns(call, k) {
        Assoc(LinesOf(b.records, own), r.lines, Heard(r.t, call).lines);
      }
    }
  }

  /** Without end or takeover, a stream's own calls are one filtering of all its bytes. */
  lemma {:induction false} OwnRunIsRun(t: LineTerm, k: nat, calls: seq<Call>)
    requires forall call <- calls :: Concerns(call, k) ==> call.Bytes?
    ensures OwnRun(t, k, calls) == Run(t, OwnBytes(k, calls))
  {
    hide Run;
    if calls == [] {
      RunNothing(t);
    } else {
      var init, call := calls[..|calls| - 1], calls[|calls| - 1];
      assert call in calls && forall c <- init :: c in calls;
      OwnRunIsRun(t, k, init);
      Units(OwnBytes(k, init));
      if Concerns(call, k) {
        RunSplit(t, OwnBytes(k, init), call.buf);
      }
    }
  }

  /** From an empty line on, a stream's plain output is on the display whole and in order, however it was cut and
      whatever the other streams did meanwhile: the lines under its tag, forced breaks undone, and its partial
      line are its bytes split at newlines. */
  lemma StreamReassembles(b: Book, streams: seq<Stream>, cols: nat, calls: seq<Call>, k: nat)
    requires k < |streams| == |b.terms| && (forall call <- calls :: call.On(|streams|)) && Apart(streams, calls)
    requires Known(b, streams, k) && b.terms[k] == START && b.records == []
    requires forall call <- calls :: Concerns(call, k) ==> call.Bytes?
    requires forall c <- OwnBytes(k, calls) :: Plain(c)
    ensures var s := Booked(b, streams, cols, calls);
      var j := Join(LinesOf(s.records, streams[k]));
      j.done + [j.carry + PartialOf(streams[k], s.partials).text] == Split(OwnBytes(k, calls))
  {
    hide Booked, OwnRun, OwnBytes, Run, Join, Split, Plain;
    OwnLines(b, streams, cols, calls, k);
    OwnRunIsRun(START, k, calls);
    RunReassembles(OwnBytes(k, calls));
    Units(Run(START, OwnBytes(k, calls)).lines);
  }

  // ---------------------------------------------------------------- its numbers

  function CountOf(counters: map<nat, int>, task: nat): int {
    if task in counters then counters[task] else 0
  }

  /** The numbers given so far go on from `from` one by one, and the counter is the last of them. */
  predicate Counting(b: Book, task: nat, from: int) {
    var ns := NumbersOf(b.records, task);
    CountOf(b.counters, task) == from + |ns| && forall i :: 0 <= i < |ns| ==> ns[i] == from + 1 + i
  }

  lemma CountingOne(b: Book, ts: Stream, text: seq<byte>, task: nat, from: int)
    requires Counting(b, task, from)
    ensures Counting(AddLine(b, ts, text), task, from)
  {
    var records := AddLine(b, ts, text).records;
    assert records[..|records| - 1] == b.records;
  }

  lemma {:induction false} CountingMore(b: Book, ts: Stream, lines: seq<seq<byte>>, task: nat, from: int)
    requires Counting(b, task, from)
    ensures Counting(AddLines(b, ts, lines), task, from)
  {
    hide Counting, AddLine;
    if lines != [] {
      CountingMore(b, ts, lines[..|lines| - 1], task, from);
      CountingOne(AddLines(b, ts, lines[..|lines| - 1]), ts, lines[|lines| - 1], task, from);
    }
  }

  /** The lines of a task, its two streams, its events and its typed lines together, are numbered one by one in
      the order in which they come up. */
  lemma {:induction false} Numbered(b: Book, streams: seq<Stream>, cols: nat, calls: seq<Call>, task: nat)
    requires |b.terms| == |streams| && (forall call <- calls :: call.On(|streams|)) && b.records == []
    ensures Counting(Booked(b, streams, cols, calls), task, CountOf(b.counters, task))
  {
    hide AddLine, AddLines, Heard, CountOf, NumbersOf;
    var from := CountOf(b.counters, task);
    if calls == [] {
      NoNumbers(task);
    } else {
      var init, call := calls[..|calls| - 1], calls[|calls| - 1];
      assert call in calls && forall c <- init :: c in calls;
      Numbered(b, streams, cols, init, task);
      var s := Booked(b, streams, cols, init);
      match call
      case Line(ts, text) => CountingOne(s, ts, text, task, from);
      case Event(ts, msg) => CountingOne(s, EventOf(ts), EventText(msg), task, from);
      case Bytes(j, _) => CountingMore(s, streams[j], Heard(s.terms[j], call).lines, task, from);
      case End(j) => CountingMore(s, streams[j], Heard(s.terms[j], call).lines, task, from);
      case Take(j) => CountingMore(s, streams[j], Heard(s.terms[j], call).lines, task, from);
      case _ =>
    }
  }

  lemma NoNumbers(task: nat)
    ensures NumbersOf([], task) == []
  {
  }

  // ---------------------------------------------------------------- the bottom row

  predicate MidLine(b: Book) { b.bot.Some? ==> PartialOf(b.bot.value, b.partials).text != [] }

  lemma {:induction false} LinesLeave(b: Book, ts: Stream, lines: seq<seq<byte>>)
    ensures var s := AddLines(b, ts, lines);
      s.bot == b.bot && s.partials == b.partials
  {
    if lines != [] {
      LinesLeave(b, ts, lines[..|lines| - 1]);
    }
  }

  /** Unless the user picks one, only a stream that is in the middle of a line owns the bottom row. */
  lemma {:induction false} OwnerMidLine(b: Book, streams: seq<Stream>, cols: nat, calls: seq<Call>)
    requires |b.terms| == |streams| && (forall call <- calls :: call.On(|streams|)) && MidLine(b)
    requires forall call <- calls :: !call.Own?
    ensures MidLine(Booked(b, streams, cols, calls))
  {
    hide AddLines, Heard;
    if calls != [] {
      var init, call := calls[..|calls| - 1], calls[|calls| - 1];
      assert call in calls && forall c <- init :: c in calls;
      OwnerMidLine(b, streams, cols, init);
      var s := Booked(b, streams, cols, init);
      if call.Bytes? || call.End? || call.Take? {
        LinesLeave(s, streams[call.k], Heard(s.terms[call.k], call).lines);
      }
    }
  }

  /** As long as no stream that goes away is the default, the bottom row never gets stale. */
  lemma {:induction false} NotStale(b: Book, streams: seq<Stream>, cols: nat, calls: seq<Call>)
    requires |b.terms| == |streams| && (forall call <- calls :: call.On(|streams|)) && !b.stale
    requires forall i :: 0 <= i < |calls| ==> !LosesDefault(b, streams, cols, calls, i)
    ensures !Booked(b, streams, cols, calls).stale
  {
    hide AddLines, Heard;
    if calls != [] {
      var init, last := calls[..|calls| - 1], |calls| - 1;
      assert calls[last] in calls && forall c <- init :: c in calls;
      forall i | 0 <= i < |init|
        ensures !LosesDefault(b, streams, cols, init, i)
      {
        assert init[..i] == calls[..i] && !LosesDefault(b, streams, cols, calls, i);
      }
      NotStale(b, streams, cols, init);
      assert !LosesDefault(b, streams, cols, calls, last);
    }
  }

  predicate LosesDefault(b: Book, streams: seq<Stream>, cols: nat, calls: seq<Call>, i: nat)
    requires |b.terms| == |streams| && (forall call <- calls :: call.On(|streams|)) && i < |calls|
  {
    calls[i].Gone? && Booked(b, streams, cols, calls[..i]).def == Some(calls[i].ts)
  }
}
