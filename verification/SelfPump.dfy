/** The self pump of basht.c: a thread that moves what the shell prints from the master of its pty into chunks,
    and the main thread that takes the chunks and displays them, with a pipe to wake it. */
module SelfPump {
  import opened Seqs
  import opened LineTerminal

  const SELF_CHUNK_SZ := 65536
  /** A chunk begins with a pointer and a length, of 8 bytes each. */
  const SELF_CHUNK_CAP := SELF_CHUNK_SZ - 16
  const READ_MAX := 4096
  const JUNK := 64

  type Chunk = seq<byte>

  datatype Mutex = Free | ByPump | ByMain

  datatype Pump = Reading | Got(buf: seq<byte>) | Appending(rest: seq<byte>) | WakeDue | Over

  datatype Main = Elsewhere | ReadingWake | Taking | Locked | Showing(held: seq<Chunk>)

  /** `fetched` and `displayed` are what was read from the master and what went to the filter so far; `wake` is
      the number of bytes in the wake pipe, which holds at most `room`. */
  datatype State = State(
    fetched: seq<byte>, displayed: seq<byte>, queue: seq<Chunk>, wake: nat, room: nat, mutex: Mutex, pump: Pump,
    main: Main)

  /** What either thread can do next. A step stands for one system call or one piece of a critical section. */
  datatype Step =
    | Read(b: seq<byte>)
    | ReadEnd
    | PumpLock
    | NewChunk
    | Copy
    | PumpUnlock
    | Wake
    | StartDrain
    | ReadWake(n: nat)
    | WakeEmpty
    | MainLock
    | Take
    | Show
    | EndDrain

  function Last<T>(s: seq<T>): T
    requires s != []
  {
    s[|s| - 1]
  }

  predicate Enabled(s: State, step: Step) {
    match step
    case Read(b) => s.pump == Reading && 0 < |b| <= READ_MAX
    case ReadEnd => s.pump == Reading
    case PumpLock => s.pump.Got? && s.mutex == Free
    case NewChunk => s.pump.Appending? && s.pump.rest != [] && (s.queue == [] || |Last(s.queue)| == SELF_CHUNK_CAP)
    case Copy => s.pump.Appending? && s.pump.rest != [] && s.queue != [] && |Last(s.queue)| < SELF_CHUNK_CAP
    case PumpUnlock => s.pump == Appending([])
    case Wake => s.pump == WakeDue
    case StartDrain => s.main == Elsewhere
    case ReadWake(n) => s.main == ReadingWake && 0 < n <= JUNK && n <= s.wake
    case WakeEmpty => s.main == ReadingWake && s.wake == 0
    case MainLock => s.main == Taking && s.mutex == Free
    case Take => s.main == Locked
    case Show => s.main.Showing? && s.main.held != []
    case EndDrain => s.main == Showing([])
  }

  function Least(a: nat, b: nat): nat { if a < b then a else b }

  function Do(s: State, step: Step): State
    requires Enabled(s, step)
  {
    match step
    case Read(b) => s.(fetched := s.fetched + b, pump := Got(b))
    case ReadEnd => s.(pump := Over)
    case PumpLock => s.(mutex := ByPump, pump := Appending(s.pump.buf))
    case NewChunk => s.(queue := s.queue + [[]])
    case Copy =>
      var tail := Last(s.queue);
      var k := Least(SELF_CHUNK_CAP - |tail|, |s.pump.rest|);
      s.(queue := s.queue[..|s.queue| - 1] + [tail + s.pump.rest[..k]], pump := Appending(s.pump.rest[k..]))
    case PumpUnlock => s.(mutex := Free, pump := WakeDue)
    case Wake => s.(wake := Least(s.wake + 1, s.room), pump := Reading)
    case StartDrain => s.(main := ReadingWake)
    case ReadWake(n) => s.(wake := s.wake - n)
    case WakeEmpty => s.(main := Taking)
    case MainLock => s.(mutex := ByMain, main := Locked)
    case Take => s.(mutex := Free, main := Showing(s.queue), queue := [])
    case Show => s.(displayed := s.displayed + s.main.held[0], main := Showing(s.main.held[1..]))
    case EndDrain => s.(main := Elsewhere)
  }

  function Start(room: nat): State { State([], [], [], 0, room, Free, Reading, Elsewhere) }

  /** The state after steps in some interleaving of the threads; each must have been possible in its place. */
  ghost predicate Reaches(s: State, steps: seq<Step>, t: State) {
    if steps == [] then t == s
    else exists u :: Reaches(s, steps[..|steps| - 1], u) && Leads(u, Last(steps), t)
  }

  predicate Leads(u: State, step: Step, t: State) { Enabled(u, step) && t == Do(u, step) }

  function ByPumpHeld(p: Pump): seq<byte> {
    match p
    case Got(buf) => buf
    case Appending(rest) => rest
    case _ => []
  }

  function ByMainHeld(m: Main): seq<Chunk> {
    if m.Showing? then m.held else []
  }

  /** No byte is lost, doubled or moved: those fetched are, in order, those displayed, those the main thread has
      in hand, those in the queue, and those the pump has in hand. */
  predicate Conserved(s: State) {
    s.fetched == s.displayed + Flat(ByMainHeld(s.main)) + Flat(s.queue) + ByPumpHeld(s.pump)
  }

  /** Each thread holds the mutex just while it works on the queue. */
  predicate Exclusive(s: State) {
    && (s.mutex == ByPump <==> s.pump.Appending?)
    && (s.mutex == ByMain <==> s.main == Locked)
  }

  /** While there are chunks the main thread will be woken, or is on its way to take them. */
  predicate Signalled(s: State) {
    s.queue != [] ==>
      || s.wake > 0 || s.pump.Appending? || s.pump == WakeDue
      || s.main == ReadingWake || s.main == Taking || s.main == Locked
  }

  /** Chunks are full except the last; only the pump at work leaves an empty one. */
  predicate Packed(s: State) {
    && (forall k :: 0 <= k < |s.queue| ==> |s.queue[k]| <= SELF_CHUNK_CAP)
    && (forall k :: 0 <= k < |s.queue| - 1 ==> |s.queue[k]| == SELF_CHUNK_CAP)
  }

  predicate Inv(s: State) { Conserved(s) && Exclusive(s) && Signalled(s) && Packed(s) && s.room > 0 }

  lemma StepConserves(s: State, step: Step)
    requires Inv(s) && Enabled(s, step)
    ensures Conserved(Do(s, step))
  {
    hide Flat;
    var t := Do(s, step);
    FlatNone<byte>();
    var d, m, q := s.displayed, Flat(ByMainHeld(s.main)), Flat(s.queue);
    match step
    case Read(b) =>
      Units(d + m + q);
    case NewChunk =>
      FlatMore(s.queue, []);
      Units(q);
    case Copy =>
      var init, tail := s.queue[..|s.queue| - 1], Last(s.queue);
      var k := Least(SELF_CHUNK_CAP - |tail|, |s.pump.rest|);
      assert s.queue == init + [tail] && s.pump.rest == s.pump.rest[..k] + s.pump.rest[k..];
      FlatMore(init, tail);
      FlatMore(init, tail + s.pump.rest[..k]);
      Assoc(Flat(init), tail, s.pump.rest[..k]);
      Assoc(d + m + q, s.pump.rest[..k], s.pump.rest[k..]);
      Assoc(d + m, q, s.pump.rest[..k]);
    case Take =>
      Units(d);
      Units(d + q);
    case Show =>
      FlatFirst(s.main.held);
      Assoc(d, s.main.held[0], Flat(s.main.held[1..]));
    case _ =>
  }

  lemma StepKeeps(s: State, step: Step)
    requires Inv(s) && Enabled(s, step)
    ensures Inv(Do(s, step))
  {
    hide Flat, Conserved, Exclusive, Signalled, Packed, Do, Enabled;
    StepConserves(s, step);
    StepExcludes(s, step);
    StepSignals(s, step);
    StepPacks(s, step);
    RoomStays(s, step);
  }

  lemma StepExcludes(s: State, step: Step)
    requires Exclusive(s) && Enabled(s, step)
    ensures Exclusive(Do(s, step))
  {
  }

  lemma StepSignals(s: State, step: Step)
    requires Exclusive(s) && Signalled(s) && s.room > 0 && Enabled(s, step)
    ensures Signalled(Do(s, step))
  {
  }

  lemma StepPacks(s: State, step: Step)
    requires Packed(s) && Enabled(s, step)
    ensures Packed(Do(s, step))
  {
  }

  lemma RoomStays(s: State, step: Step)
    requires Enabled(s, step)
    ensures Do(s, step).room == s.room
  {
  }

  /** In every interleaving all of it holds, and once the main thread has nothing to wake it or to do and the
      pump nothing in hand, all that was fetched is displayed. */
  lemma {:induction false} PumpSafe(room: nat, steps: seq<Step>, t: State)
    requires room > 0 && Reaches(Start(room), steps, t)
    ensures Inv(t)
    ensures t.main == Elsewhere && t.wake == 0 && (t.pump == Reading || t.pump == Over) ==> t.displayed == t.fetched
    decreases |steps|
  {
    if steps == [] {
      FlatNone<byte>();
    } else {
      var u :| Reaches(Start(room), steps[..|steps| - 1], u) && Leads(u, Last(steps), t);
      PumpSafe(room, steps[..|steps| - 1], u);
      StepKeeps(u, Last(steps));
    }
    FlatNone<byte>();
    Units(t.displayed);
  }

  predicate PackedChunks(queue: seq<Chunk>) {
    && (forall k :: 0 <= k < |queue| ==> 0 < |queue[k]| <= SELF_CHUNK_CAP)
    && (forall k :: 0 <= k < |queue| - 1 ==> |queue[k]| == SELF_CHUNK_CAP)
  }

  /** The list of chunks that the mutex guards. */
  class ChunkList {
    var chunks: seq<Chunk>

    constructor ()
      ensures chunks == []
    {
      chunks := [];
    }

    /** The pump's critical section: fill up the last chunk, then add new ones. */
    method Append(buf: seq<byte>)
      requires PackedChunks(chunks)
      modifies this
      ensures PackedChunks(chunks) && Flat(chunks) == old(Flat(chunks)) + buf
    {
      hide Flat;
      var off := 0;
      Units(Flat(chunks));
      ghost var was := Flat(chunks);
      while off < |buf|
        invariant 0 <= off <= |buf| && PackedChunks(chunks) && Flat(chunks) == was + buf[..off]
      {
        if chunks == [] || |Last(chunks)| == SELF_CHUNK_CAP {
          FlatMore(chunks, []);
          Units(Flat(chunks));
          chunks := chunks + [[]];
        }
        var tail := Last(chunks);
        ghost var init := chunks[..|chunks| - 1];
        assert chunks == init + [tail];
        var k := SELF_CHUNK_CAP - |tail|;
        if k > |buf| - off {
          k := |buf| - off;
        }
        var part := buf[off..off + k];
        FlatMore(init, tail);
        FlatMore(init, tail + part);
        Assoc(Flat(init), tail, part);
        Assoc(was, buf[..off], part);
        assert buf[..off] + part == buf[..off + k];
        chunks := chunks[..|chunks| - 1] + [tail + part];
        off := off + k;
      }
      Whole(buf);
    }

    /** The end of drain_self: take the chunks and hand them to the filter one by one. */
    method Drain() returns (displayed: seq<byte>)
      modifies this
      ensures chunks == [] && displayed == old(Flat(chunks))
    {
      hide Flat;
      var c := chunks;
      chunks := [];
      displayed := [];
      Units(Flat(c));
      ghost var all := Flat(c);
      while c != []
        invariant all == displayed + Flat(c) && chunks == []
        decreases |c|
      {
        FlatFirst(c);
        Assoc(displayed, c[0], Flat(c[1..]));
        displayed := displayed + c[0];
        c := c[1..];
      }
      FlatNone<byte>();
      Units(displayed);
    }
  }
}
