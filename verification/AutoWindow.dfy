/** A captured task of basht.c whose output goes through its filter until a full-screen program shows, and then,
    if a window comes up, to the window: as functions on states, and as an object that goes through them. */
module AutoWindow {
  import opened Seqs
  import opened LineTerminal

  const PRE_MAX := 2048
  const DEADLINE := 5

  // ---------------------------------------------------------------- the prefix as it is replayed

  /** Is this the start of a control sequence? */
  predicate Starts(s: seq<byte>, i: nat) { i + 1 < |s| && s[i] == ESC && s[i + 1] == '[' as int }

  predicate IsFinal(b: byte) { 0x40 <= b <= 0x7e }

  /** The place of the first final byte from `j` on. */
  function FinalFrom(s: seq<byte>, j: nat): (k: nat)
    requires j <= |s|
    ensures j <= k <= |s| && (k < |s| ==> IsFinal(s[k])) && forall i :: j <= i < k ==> !IsFinal(s[i])
    decreases |s| - j
  {
    if j == |s| || IsFinal(s[j]) then j else FinalFrom(s, j + 1)
  }

  predicate Query(s: seq<byte>, k: nat) { k < |s| && (s[k] == 'n' as int || s[k] == 'c' as int) }

  /** The text without terminal queries, that is control sequences that end in n or c. */
  function Scrubbed(s: seq<byte>, i: nat): (r: seq<byte>)
    requires i <= |s|
    ensures |r| <= |s| - i
    decreases |s| - i
  {
    if i == |s| then []
    else if Starts(s, i) then
      var k := FinalFrom(s, i + 2);
      if Query(s, k) then Scrubbed(s, k + 1)
      else
        var next := if k < |s| then k + 1 else k;
        s[i..next] + Scrubbed(s, next)
    else [s[i]] + Scrubbed(s, i + 1)
  }

  method ScrubQueries(s: seq<byte>) returns (out: seq<byte>)
    ensures out == Scrubbed(s, 0)
  {
    out := [];
    var i := 0;
    Units(Scrubbed(s, 0));
    while i < |s|
      invariant 0 <= i <= |s| && out + Scrubbed(s, i) == Scrubbed(s, 0)
      decreases |s| - i
    {
      if Starts(s, i) {
        var j := i + 2;
        while j < |s| && !IsFinal(s[j])
          invariant i + 2 <= j <= |s| && FinalFrom(s, j) == FinalFrom(s, i + 2)
        {
          j := j + 1;
        }
        if Query(s, j) {
          i := j + 1;
          continue;
        }
        if j < |s| {
          j := j + 1;
        }
        Assoc(out, s[i..j], Scrubbed(s, j));
        out := out + s[i..j];
        i := j;
        continue;
      }
      Assoc(out, [s[i]], Scrubbed(s, i + 1));
      out := out + [s[i]];
      i := i + 1;
    }
    Units(out);
  }

  /** Nothing is scrubbed from text without control sequences. */
  lemma {:induction false} ScrubbedPlain(s: seq<byte>, i: nat)
    requires i <= |s| && forall k :: i <= k < |s| ==> !Starts(s, k)
    ensures Scrubbed(s, i) == s[i..]
    decreases |s| - i
  {
    if i < |s| {
      ScrubbedPlain(s, i + 1);
      assert s[i..] == [s[i]] + s[i + 1..];
    }
  }

  // ---------------------------------------------------------------- the task

  /** What the keyboard side of the window says when it is read. */
  datatype Keys = Nothing | End | Error

  /** What happens around one pass over the tasks: a report from the window, the time, the keyboard side, what
      the task has written since the last pass, in the pieces in which it will be read, whether it is gone,
      whether a terminal can be started, how often the window will take bytes; lines typed to the task, lines on
      its standard error, and the echo of its terminal, which goes through the same filter. */
  datatype Pass = Pass(
    report: bool, now: int, keys: Keys, output: seq<seq<byte>>, gone: bool, launch: bool, room: nat, typed: nat,
    errors: nat, echo: seq<byte>)

  /** What was read for the console, what went through the filter, what was passed on to the window; which of the
      bytes read were not to be filtered, from `cut` on, up to `resume`; how often a window was launched. */
  datatype Log = Log(
    got: seq<byte>, filtered: seq<byte>, direct: seq<byte>, cut: nat, resume: nat, launches: nat)

  /** `queue` is what waits in the task's terminal, `toWindow` what the window was sent. */
  datatype State = State(
    queue: seq<seq<byte>>, open: bool, alive: bool, pre: seq<byte>, nfilt: nat, nbytes: nat, windowed: bool,
    wUp: bool, wHinted: bool, wIn: bool, wT0: int, lines: nat, term: LineTerm, toWindow: seq<byte>, log: Log)

  function Start(alive: bool): State {
    State([], true, alive, [], 0, 0, false, false, false, false, 0, 0, START, [], Log([], [], [], 0, 0, 0))
  }

  /** The bytes up to and including the first trigger from byte `i` on. */
  function Taken(t: LineTerm, buf: seq<byte>, i: nat): (n: nat)
    requires i <= |buf|
    ensures i <= n <= |buf| && (i < |buf| ==> i < n)
    ensures forall j :: i <= j < n && TriggersAt(t, buf, j) ==> j == n - 1
    ensures n < |buf| ==> TriggersAt(t, buf, n - 1)
    decreases |buf| - i
  {
    hide TriggersAt;
    if i == |buf| then i else if TriggersAt(t, buf, i) then i + 1 else Taken(t, buf, i + 1)
  }

  function Filter(s: State, buf: seq<byte>): State {
    var r := Run(s.term, buf);
    s.(term := r.t, lines := s.lines + |r.lines|, log := s.log.(filtered := s.log.filtered + buf))
  }

  function Hinted(s: State): State {
    if s.wHinted then s else s.(wHinted := true, lines := s.lines + 1)
  }

  /** window_try: at the task's first breath only. */
  predicate Launches(s: State, launch: bool) {
    launch && !s.windowed && !s.wHinted && s.alive && s.nbytes <= PRE_MAX && s.lines == 0
  }

  function Launched(s: State, now: int): State {
    s.(windowed := true, wIn := true, wT0 := now,
       log := s.log.(launches := s.log.launches + 1, cut := s.nfilt, resume := |s.log.got|))
  }

  /** What was read goes through the filter, trigger by trigger, until a window is launched. */
  function FilterUntil(s: State, buf: seq<byte>, launch: bool, now: int): (r: State)
    ensures r.queue == s.queue && r.alive == s.alive
    decreases |buf|
  {
    hide TriggersAt, Run;
    if buf == [] then s
    else
      var n := Taken(s.term, buf, 0);
      var f := Filter(s, buf[..n]).(nfilt := s.nfilt + n);
      if !TriggersAt(s.term, buf, n - 1) then f
      else if Launches(f, launch) then Launched(f, now)
      else FilterUntil(Hinted(f), buf[n..], launch, now)
  }

  /** The prefix as far as there is room for it. */
  function Kept(pre: seq<byte>, buf: seq<byte>): seq<byte> {
    (pre + buf)[..Min(|pre| + |buf|, if |pre| > PRE_MAX then |pre| else PRE_MAX)]
  }

  function Read(s: State, buf: seq<byte>): State {
    s.(pre := Kept(s.pre, buf), nbytes := s.nbytes + |buf|, log := s.log.(got := s.log.got + buf))
  }

  /** The end of the task's output. */
  function Ended(s: State): State {
    s.(open := false, lines := s.lines + |Flush(s.term).lines|, term := Flush(s.term).t)
  }

  /** drain_cap_out: everything that waits is read, unless a window is launched on the way. */
  function DrainOut(s: State, p: Pass): (r: State)
    ensures r.alive == s.alive
    decreases |s.queue|
  {
    hide Run;
    if !s.open || s.windowed then s
    else if s.queue == [] then if p.gone then Ended(s) else s
    else DrainOut(FilterUntil(Read(s.(queue := s.queue[1..]), s.queue[0]), s.queue[0], p.launch, p.now), p)
  }

  /** The first report of the window: the bytes so far are replayed and the move is announced. */
  function CameUp(s: State): State {
    s.(toWindow := s.toWindow + Scrubbed(s.pre, 0), wUp := true, lines := s.lines + 1)
  }

  /** No report by the deadline: the console is back, and what the filter has not had yet goes through it. */
  function GaveUp(s: State): State {
    var c := s.(windowed := false, wIn := false, wHinted := true, lines := s.lines + 1,
                log := s.log.(cut := s.log.resume));
    if s.nfilt < |s.pre| then Filter(c, s.pre[s.nfilt..]) else c
  }

  /** The keyboard side says that the window is gone. */
  function HungUp(s: State): State { s.(windowed := false, wIn := false, lines := s.lines + 1) }

  /** The task's output goes to the window, as long as that has room. */
  function Shown(s: State, gone: bool, room: nat): (r: State)
    ensures r.alive == s.alive
    decreases room
  {
    if !s.open || room == 0 then s
    else if s.queue == [] then if gone then s.(open := false) else s
    else Shown(Passed(s), gone, room - 1)
  }

  function Passed(s: State): State
    requires s.queue != []
  {
    s.(queue := s.queue[1..], toWindow := s.toWindow + s.queue[0],
       log := s.log.(direct := s.log.direct + s.queue[0]))
  }

  /** shuttle_windowed. */
  function Shuttled(s: State, p: Pass): State {
    var u := if p.report && !s.wUp then CameUp(s) else s;
    if !u.wUp && p.now - u.wT0 >= DEADLINE then GaveUp(u)
    else if u.wIn && (p.keys == Error || (p.keys == End && u.wUp)) then HungUp(u)
    else if u.wUp then Shown(u, p.gone, p.room)
    else u
  }

  /** What comes up from standard error and from the echo of the task's terminal. */
  function Beside(s: State, p: Pass): State {
    var r := Run(s.term, p.echo);
    s.(lines := s.lines + p.errors + |r.lines|, term := r.t)
  }

  function Before(s: State, p: Pass): State {
    s.(queue := s.queue + p.output, lines := s.lines + p.typed, term := if p.typed > 0 then Emptied(s.term) else s.term)
  }

  /** drain_caps, for one task. */
  function Drained(s: State, p: Pass): (r: State)
    ensures r.alive == s.alive
  {
    hide Scrubbed, Run;
    var a := Before(s, p);
    var b := if a.windowed then Shuttled(a, p) else a;
    if b.windowed then b
    else
      var c := DrainOut(b, p);
      if c.windowed then c else Beside(c, p)
  }

  function Ran(s: State, passes: seq<Pass>): (r: State)
    ensures r.alive == s.alive
  {
    hide Drained;
    if passes == [] then s else Drained(Ran(s, passes[..|passes| - 1]), passes[|passes| - 1])
  }

  // ---------------------------------------------------------------- in place

  class Task {
    const pre: array<byte>
    var prelen: nat
    var nfilt: nat
    var nbytes: nat
    var mOut: bool
    var alive: bool
    var windowed: bool
    var wUp: bool
    var wHinted: bool
    var wIn: bool
    var wT0: int
    var lines: nat
    /** The line that the stdout filter has, and what waits in the terminal. */
    var term: LineTerm
    var queue: seq<seq<byte>>
    var toWindow: seq<byte>
    /** What the prefix holds. */
    ghost var held: seq<byte>
    ghost var log: Log

    ghost predicate Valid()
      reads this, pre
    {
      && pre.Length == PRE_MAX && prelen == Min(nbytes, PRE_MAX) && pre[..prelen] == held
      && nfilt <= nbytes && (windowed ==> nbytes <= PRE_MAX)
    }

    ghost function View(): State
      reads this
    {
      State(queue, mOut, alive, held, nfilt, nbytes, windowed, wUp, wHinted, wIn, wT0, lines, term,
            toWindow, log)
    }

    constructor (alive: bool)
      ensures Valid() && fresh(pre) && View() == Start(alive)
    {
      pre := new byte[PRE_MAX](_ => 0);
      prelen, nfilt, nbytes, lines := 0, 0, 0, 0;
      this.mOut, this.alive, windowed, wUp, wHinted, wIn, wT0 := true, alive, false, false, false, false, 0;
      term, queue, toWindow := START, [], [];
      held, log := [], Log([], [], [], 0, 0, 0);
    }

    /** The filter takes all, or up to a trigger if those are asked for. */
    method FilterBytes(buf: seq<byte>, stop: bool) returns (took: nat, trigger: bool)
      requires Valid()
      modifies this`log, this`lines, this`term
      ensures took <= |buf| && took == (if stop then Taken(old(term), buf, 0) else |buf|)
      ensures Valid() && View() == Filter(old(View()), buf[..took])
      ensures trigger == (stop && took > 0 && TriggersAt(old(term), buf, took - 1))
    {
      hide Run, TriggersAt;
      took := if stop then Taken(term, buf, 0) else |buf|;
      trigger := stop && took > 0 && TriggersAt(term, buf, took - 1);
      var r := Run(term, buf[..took]);
      term, lines := r.t, lines + |r.lines|;
      log := log.(filtered := log.filtered + buf[..took]);
    }

    method DisplayEvent()
      modifies this`lines
      ensures lines == old(lines) + 1
    {
      lines := lines + 1;
    }

    /** window_try. Whatever is missing for a launch, nothing changes. */
    method WindowTry(now: int, launch: bool) returns (ok: bool)
      requires Valid()
      modifies this`windowed, this`wIn, this`wT0, this`log
      ensures Valid() && ok == Launches(old(View()), launch)
      ensures View() == if ok then Launched(old(View()), now) else old(View())
    {
      hide Launched;
      ok := !windowed && !wHinted && alive;
      if ok && (nbytes > PRE_MAX || lines != 0) {
        ok := false;
      }
      ok := ok && launch;
      if ok {
        Launch(now);
      }
    }

    method Launch(now: int)
      requires Valid() && nbytes <= PRE_MAX
      modifies this`windowed, this`wIn, this`wT0, this`log
      ensures Valid() && View() == Launched(old(View()), now)
    {
      wIn, wT0, windowed := true, now, true;
      log := log.(launches := log.launches + 1, cut := nfilt, resume := |log.got|);
    }

    /** Tell the user, once, that the program would like a window. */
    method Hint()
      requires Valid()
      modifies this`wHinted, this`lines
      ensures Valid() && View() == Hinted(old(View()))
    {
      if !wHinted {
        wHinted := true;
        DisplayEvent();
      }
    }

    method WindowClose()
      modifies this`windowed, this`wIn
      ensures !windowed && !wIn
    {
      windowed, wIn := false, false;
    }

    /** memcpy to the end of the prefix. */
    method Append(buf: seq<byte>, k: nat)
      requires pre.Length == PRE_MAX && prelen + k <= PRE_MAX && k <= |buf|
      modifies pre
      ensures pre[..prelen + k] == old(pre[..prelen]) + buf[..k]
    {
      var i := 0;
      while i < k
        invariant 0 <= i <= k && pre[..prelen + i] == old(pre[..prelen]) + buf[..i]
      {
        pre[prelen + i] := buf[i];
        i := i + 1;
      }
    }

    /** What was read is remembered as far as there is room for it. */
    method Keep(buf: seq<byte>)
      requires Valid() && !windowed
      modifies this`prelen, this`nbytes, this`log, this`held, pre
      ensures Valid() && nbytes == old(nbytes) + |buf| && View() == Read(old(View()), buf)
    {
      hide Kept;
      KeptIs(held, buf);
      Whole(buf);
      if prelen < PRE_MAX {
        var k := PRE_MAX - prelen;
        if k > |buf| {
          k := |buf|;
        }
        Append(buf, k);
        prelen := prelen + k;
      }
      nbytes := nbytes + |buf|;
      log, held := log.(got := log.got + buf), Kept(held, buf);
    }

    /** One buffer, read and filtered. */
    method DrainBuffer(buf: seq<byte>, p: Pass)
      requires Valid() && !windowed
      modifies this, pre
      ensures Valid() && View() == FilterUntil(Read(old(View()), buf), buf, p.launch, p.now)
      ensures queue == old(queue) && mOut == old(mOut)
    {
      hide FilterUntil, Read;
      Keep(buf);
      FilterBuffer(buf, p);
    }

    /** Bytes to the filter, up to a trigger. */
    method FilterPiece(buf: seq<byte>) returns (took: nat, trigger: bool)
      requires Valid() && nfilt + |buf| <= nbytes
      modifies this`log, this`lines, this`term, this`nfilt
      ensures took == Taken(old(View()).term, buf, 0)
      ensures trigger == (took > 0 && TriggersAt(old(View()).term, buf, took - 1))
      ensures Valid() && nfilt == old(nfilt) + took
      ensures View() == Filter(old(View()), buf[..took]).(nfilt := old(View()).nfilt + took)
    {
      hide Run, TriggersAt;
      took, trigger := FilterBytes(buf, true);
      nfilt := nfilt + took;
    }

    method FilterBuffer(buf: seq<byte>, p: Pass)
      requires Valid() && nfilt + |buf| <= nbytes
      modifies this`log, this`lines, this`term, this`nfilt, this`wHinted, this`windowed, this`wIn, this`wT0
      ensures Valid() && View() == FilterUntil(old(View()), buf, p.launch, p.now)
    {
      hide Filter, Launches, Launched, Hinted, Run, TriggersAt, View;
      ghost var s := View();
      Whole(buf);
      var done := 0;
      while done < |buf|
        invariant 0 <= done <= |buf| && Valid() && nfilt + |buf| - done <= nbytes
        invariant FilterUntil(View(), buf[done..], p.launch, p.now) == FilterUntil(s, buf, p.launch, p.now)
      {
        var rest := buf[done..];
        var took, trig := FilterPiece(rest);
        assert buf[done + took..] == rest[took..];
        done := done + took;
        if trig {
          var ok := WindowTry(p.now, p.launch);
          if ok {
            return;
          }
          Hint();
        }
      }
    }

    /** drain_cap_out: everything that waits is read, unless a window is launched on the way. */
    method DrainCapOut(p: Pass)
      requires Valid()
      modifies this, pre
      ensures Valid() && View() == DrainOut(old(View()), p)
    {
      hide FilterUntil, Read, Ended;
      ghost var s := View();
      while mOut && !windowed
        invariant Valid() && DrainOut(View(), p) == DrainOut(s, p)
        decreases |queue|, mOut
      {
        if |queue| > 0 {
          var buf := queue[0];
          DropOne(queue, 0);
          Take();
          DrainBuffer(buf, p);
          continue;
        }
        if !p.gone {
          return;
        }
        Finish();
      }
    }

    /** What was read is out of the terminal's queue. */
    method Take()
      requires Valid() && queue != []
      modifies this`queue
      ensures Valid() && View() == old(View()).(queue := old(queue)[1..])
    {
      queue := queue[1..];
    }

    method Finish()
      requires Valid()
      modifies this`mOut, this`lines, this`term
      ensures Valid() && !mOut && View() == Ended(old(View()))
    {
      hide Flush;
      var r := Flush(term);
      mOut, lines, term := false, lines + |r.lines|, r.t;
    }

    /** The first report of the window: the bytes so far are replayed and the move is announced. */
    method ComeUp()
      requires Valid()
      modifies this`toWindow, this`wUp, this`lines
      ensures Valid() && View() == CameUp(old(View()))
    {
      hide Scrubbed;
      var rep := ScrubQueries(pre[..prelen]);
      toWindow := toWindow + rep;
      wUp := true;
      DisplayEvent();
    }

    /** No report by the deadline: the console is back, and what the filter has not had yet goes through it. */
    method GiveUp()
      requires Valid()
      modifies this`windowed, this`wIn, this`wHinted, this`lines, this`log, this`term
      ensures Valid() && View() == GaveUp(old(View()))
    {
      hide Run;
      var k := nfilt;
      WindowClose();
      wHinted := true;
      DisplayEvent();
      log := log.(cut := log.resume);
      if k < prelen {
        var rest := pre[k..prelen];
        Whole(rest);
        var took, trig := FilterBytes(rest, false);
      }
    }

    /** The keyboard side says that the window is gone. */
    method HangUp()
      requires Valid()
      modifies this`windowed, this`wIn, this`lines
      ensures Valid() && View() == HungUp(old(View()))
    {
      WindowClose();
      DisplayEvent();
    }

    /** The task's output goes to the window. */
    method ToWindow(p: Pass)
      requires Valid()
      modifies this`toWindow, this`mOut, this`queue, this`log
      ensures Valid() && View() == Shown(old(View()), p.gone, p.room)
    {
      ghost var s := View();
      var room := p.room;
      while mOut && room > 0
        invariant Valid() && Shown(View(), p.gone, room) == Shown(s, p.gone, p.room)
        decreases room, mOut
      {
        if |queue| > 0 {
          PassOn();
          room := room - 1;
          continue;
        }
        if !p.gone {
          return;
        }
        mOut := false;
      }
    }

    method PassOn()
      requires Valid() && queue != []
      modifies this`toWindow, this`queue, this`log
      ensures Valid() && View() == Passed(old(View()))
    {
      toWindow, log := toWindow + queue[0], log.(direct := log.direct + queue[0]);
      queue := queue[1..];
    }

    /** shuttle_windowed. */
    method ShuttleWindowed(p: Pass)
      requires Valid() && windowed
      modifies this
      ensures Valid() && View() == Shuttled(old(View()), p)
    {
      hide CameUp, GaveUp, HungUp, Shown;
      if p.report && !wUp {
        ComeUp();
      }
      if !wUp && p.now - wT0 >= DEADLINE {
        GiveUp();
        return;
      }
      if wIn && (p.keys == Error || (p.keys == End && wUp)) {
        HangUp();
        return;
      }
      if wUp {
        ToWindow(p);
      }
    }

    /** What happens between the passes and beside them. */
    method Arrive(p: Pass)
      requires Valid()
      modifies this`queue, this`lines, this`term
      ensures Valid() && View() == Before(old(View()), p)
    {
      queue, lines := queue + p.output, lines + p.typed;
      if p.typed > 0 {
        term := Emptied(term);
      }
    }

    method DrainBeside(p: Pass)
      requires Valid()
      modifies this`lines, this`term
      ensures Valid() && View() == Beside(old(View()), p)
    {
      hide Run;
      var r := Run(term, p.echo);
      lines, term := lines + p.errors + |r.lines|, r.t;
    }

    /** drain_caps, for one task. */
    method DrainCap(p: Pass)
      requires Valid()
      modifies this, pre
      ensures Valid() && View() == Drained(old(View()), p)
    {
      hide Before, Shuttled, DrainOut, Beside;
      Arrive(p);
      if windowed {
        ShuttleWindowed(p);
      }
      if !windowed {
        DrainCapOut(p);
        if windowed {
          return;
        }
        DrainBeside(p);
      }
    }

    /** Any run of passes. */
    method DrainCaps(passes: seq<Pass>)
      requires Valid()
      modifies this, pre
      ensures Valid() && View() == Ran(old(View()), passes)
    {
      hide Drained;
      for k := 0 to |passes|
        invariant Valid() && View() == Ran(old(View()), passes[..k])
      {
        assert passes[..k + 1][..k] == passes[..k];
        DrainCap(passes[k]);
      }
      Whole(passes);
    }
  }

  lemma KeptIs(pre: seq<byte>, buf: seq<byte>)
    ensures Kept(pre, buf) ==
      if |pre| >= PRE_MAX then pre else if |buf| <= PRE_MAX - |pre| then pre + buf else pre + buf[..PRE_MAX - |pre|]
  {
  }
}
