/** Where the bytes of a captured task go over any run of passes: through the filter, to the window, or nowhere. */
module WindowRuns {
  import opened Seqs
  import opened LineTerminal
  import opened AutoWindow

  /** The record and the log fit together when the first `n` of the bytes read are out of the loop's hands. */
  predicate Sounding(s: State, n: nat) {
    var l := s.log;
    && s.nbytes == |l.got| && s.pre == l.got[..Min(|l.got|, PRE_MAX)]
    && l.cut <= l.resume <= n <= |l.got| && l.filtered == l.got[..l.cut] + l.got[l.resume..n]
    && s.toWindow == (if s.wUp then Scrubbed(l.got[..l.resume], 0) else []) + l.direct
    && (!s.wUp ==> l.direct == []) && Once(s)
    && (l.launches == 0 ==> s.nfilt == n && l.cut == l.resume == 0 && !s.wUp)
    && (s.windowed ==> l.resume == |l.got| && s.nfilt == l.cut && s.wIn)
  }

  /** A window is launched at most once, for a live task, with all that was read in the prefix; afterwards the task
      has a line displayed or a hint given. */
  predicate Once(s: State) {
    && s.log.launches <= 1 && (s.windowed ==> s.log.launches == 1)
    && (s.log.launches == 1 ==> s.alive && s.log.resume <= PRE_MAX && (s.windowed || s.wHinted || s.lines != 0))
  }

  predicate Sound(s: State) { Sounding(s, |s.log.got|) }

  /** All that the task has written: what was read before the window took over, what that got, what was read since,
      and what waits. */
  predicate Accounts(s: State, all: seq<byte>)
    requires s.log.resume <= |s.log.got|
  {
    all == s.log.got[..s.log.resume] + s.log.direct + s.log.got[s.log.resume..] + Flat(s.queue)
  }

  /** Bytes that were read never came up. */
  predicate Lost(s: State) { !s.windowed && !s.wUp && s.log.cut < s.log.resume }

  /** The keyboard side fails while the window is not up yet and the deadline has not passed, and some of what was
      read stands behind the trigger. */
  predicate Loses(s: State, p: Pass) {
    && s.windowed && !s.wUp && !p.report && p.now - s.wT0 < DEADLINE && p.keys == Error && s.nfilt < |s.pre|
  }

  predicate ComesUp(s: State, p: Pass) { s.windowed && p.report }

  // ---------------------------------------------------------------- one pass

  lemma Start0(alive: bool)
    ensures Sound(Start(alive)) && Accounts(Start(alive), []) && !Lost(Start(alive))
  {
  }

  /** The next piece of what was read goes through the filter. */
  lemma FilterSound(s: State, n: nat, k: nat)
    requires Sounding(s, n) && !s.windowed && n + k <= |s.log.got|
    ensures Sounding(Filter(s, s.log.got[n..n + k]).(nfilt := s.nfilt + k), n + k)
  {
    hide Run, Scrubbed;
    var l := s.log;
    assert l.got[l.resume..n] + l.got[n..n + k] == l.got[l.resume..n + k];
    Assoc(l.got[..l.cut], l.got[l.resume..n], l.got[n..n + k]);
  }

  lemma HintSound(s: State, n: nat)
    requires Sounding(s, n)
    ensures Sounding(Hinted(s), n)
  {
    hide Scrubbed;
  }

  lemma LaunchSound(s: State, n: nat, launch: bool, now: int)
    requires Sounding(s, n) && Launches(s, launch)
    ensures Sound(Launched(s, now)) && s.log.launches == 0 && s.log.direct == []
  {
    hide Scrubbed;
    var l := s.log;
    Whole(l.got);
    assert l.got[..0] + l.got[0..n] == l.got[..n];
    Units(l.got[..n]);
  }

  /** The members that the filter's loop leaves alone. */
  predicate Apart(s: State, r: State) {
    && r.queue == s.queue && r.open == s.open && r.alive == s.alive && r.wUp == s.wUp && r.log.got == s.log.got
    && r.log.direct == s.log.direct
    && (s.log.launches == 1 ==>
          r.log.launches == 1 && !r.windowed && r.log.cut == s.log.cut && r.log.resume == s.log.resume)
    && (s.log.launches == 0 && !r.windowed ==> r.log.launches == 0)
  }

  lemma {:induction false} UntilSound(s: State, n: nat, buf: seq<byte>, launch: bool, now: int)
    requires Sounding(s, n) && !s.windowed && n <= |s.log.got| && buf == s.log.got[n..]
    ensures var r := FilterUntil(s, buf, launch, now);
      Sound(r) && Apart(s, r)
    decreases |buf|
  {
    hide Sounding, Once, Run, TriggersAt, Scrubbed, Filter, Launches, Launched, Hinted;
    if buf != [] {
      var k := Taken(s.term, buf, 0);
      var f := Filter(s, buf[..k]).(nfilt := s.nfilt + k);
      Piece(s.log.got, n, k);
      FilterSound(s, n, k);
      FilterApart(s, buf[..k], s.nfilt + k);
      if TriggersAt(s.term, buf, k - 1) {
        if Launches(f, launch) {
          LaunchSound(f, n + k, launch, now);
          LaunchApart(f, now);
        } else {
          HintSound(f, n + k);
          HintApart(f);
          UntilSound(Hinted(f), n + k, buf[k..], launch, now);
        }
      }
    }
  }

  lemma Piece(got: seq<byte>, n: nat, k: nat)
    requires n + k <= |got|
    ensures got[n..][..k] == got[n..n + k] && got[n..][k..] == got[n + k..]
  {
  }

  lemma FilterApart(s: State, buf: seq<byte>, nfilt: nat)
    requires !s.windowed
    ensures Apart(s, Filter(s, buf).(nfilt := nfilt)) && !Filter(s, buf).windowed
    ensures Filter(s, buf).log.launches == s.log.launches
  {
    hide Run;
  }

  lemma HintApart(s: State)
    requires !s.windowed
    ensures Apart(s, Hinted(s)) && !Hinted(s).windowed && Hinted(s).log == s.log
  {
  }

  lemma LaunchApart(s: State, now: int)
    requires s.log.launches == 0
    ensures Apart(s, Launched(s, now)) && Launched(s, now).windowed
  {
  }

  /** One piece from the queue. */
  function Next(s: State): State
    requires s.queue != []
  {
    Read(s.(queue := s.queue[1..]), s.queue[0])
  }

  lemma ReadSound(s: State)
    requires Sound(s) && !s.windowed && s.queue != []
    ensures Sounding(Next(s), |s.log.got|)
  {
    hide Scrubbed;
    var got, buf, resume := s.log.got, s.queue[0], s.log.resume;
    var more := got + buf;
    assert more[..resume] == got[..resume] && more[resume..|got|] == got[resume..];
    assert more[..s.log.cut] == got[..s.log.cut];
    KeptMore(got, buf);
  }

  lemma ReadAccounts(s: State, all: seq<byte>)
    requires Sound(s) && s.queue != [] && Accounts(s, all)
    ensures Accounts(Next(s), all)
  {
    hide Flat, Scrubbed;
    var got, buf, resume := s.log.got, s.queue[0], s.log.resume;
    var more := got + buf;
    assert more[..resume] == got[..resume] && more[resume..] == got[resume..] + buf;
    FlatFirst(s.queue);
    Assoc(got[..resume] + s.log.direct + got[resume..], buf, Flat(s.queue[1..]));
    Assoc(got[..resume] + s.log.direct, got[resume..], buf);
  }

  lemma KeptMore(got: seq<byte>, buf: seq<byte>)
    ensures Kept(got[..Min(|got|, PRE_MAX)], buf) == (got + buf)[..Min(|got + buf|, PRE_MAX)]
  {
  }

  /** Where the window takes over or not, the account stays right. */
  lemma AccountKept(s: State, n: nat, r: State, all: seq<byte>)
    requires Sounding(s, n) && Accounts(s, all) && Sound(r) && Apart(s, r)
    ensures Accounts(r, all)
  {
    hide Scrubbed, Flat;
    if s.log.launches == 0 {
      Whole(s.log.got);
      Units(s.log.got);
      assert s.log.direct == [];
      if r.windowed {
        assert r.log.got[..r.log.resume] == s.log.got && r.log.got[r.log.resume..] == [];
      }
    }
  }

  /** drain_cap_out reads all there is, unless a window is launched. */
  lemma {:induction false} DrainOutSound(s: State, p: Pass, all: seq<byte>)
    requires Sound(s) && Accounts(s, all)
    ensures var r := DrainOut(s, p);
      && Sound(r) && Accounts(r, all) && r.wUp == s.wUp && (s.windowed ==> r == s)
      && (Lost(r) <==> Lost(s)) && (!r.windowed && s.open ==> r.queue == []) && (r.open ==> s.open)
    decreases |s.queue|
  {
    hide Sounding, Once, Accounts, Scrubbed, FilterUntil, Flush, Read;
    if s.open && !s.windowed {
      if s.queue == [] {
        EndSound(s, all);
      } else {
        ReadSound(s);
        ReadAccounts(s, all);
        ReadIs(s);
        var n, f := Next(s), FilterUntil(Next(s), s.queue[0], p.launch, p.now);
        UntilSound(n, |s.log.got|, s.queue[0], p.launch, p.now);
        AccountKept(n, |s.log.got|, f, all);
        LostKept(s, n, f);
        DrainOutSound(f, p, all);
      }
    }
  }

  lemma ReadIs(s: State)
    requires s.queue != []
    ensures var n := Next(s);
      && n.windowed == s.windowed && n.open == s.open && |n.log.got| == |s.log.got| + |s.queue[0]|
      && n.log.got[|s.log.got|..] == s.queue[0] && n.queue == s.queue[1..]
      && n.wUp == s.wUp && n.log.cut == s.log.cut && n.log.resume == s.log.resume && n.log.launches == s.log.launches
  {
  }

  lemma LostKept(s: State, n: State, f: State)
    requires s.queue != [] && n == Next(s) && !s.windowed && Sound(s) && Sound(f) && Apart(n, f)
    ensures (Lost(f) <==> Lost(s)) && f.wUp == s.wUp && |f.queue| < |s.queue|
  {
    hide Scrubbed;
  }

  lemma EndSound(s: State, all: seq<byte>)
    requires Sound(s) && Accounts(s, all)
    ensures Sound(Ended(s)) && Accounts(Ended(s), all) && (Lost(Ended(s)) <==> Lost(s))
  {
    hide Scrubbed, Flat, Flush;
  }

  // ---------------------------------------------------------------- the window's side

  lemma ComeUpSound(s: State, all: seq<byte>)
    requires Sound(s) && Accounts(s, all) && s.windowed && !s.wUp
    ensures Sound(CameUp(s)) && Accounts(CameUp(s), all)
  {
    hide Scrubbed, Flat;
    Whole(s.log.got);
    Units(Scrubbed(s.pre, 0));
  }

  lemma GiveUpSound(s: State, all: seq<byte>)
    requires Sound(s) && Accounts(s, all) && s.windowed
    ensures Sound(GaveUp(s)) && Accounts(GaveUp(s), all) && !Lost(GaveUp(s))
  {
    hide Scrubbed, Flat, Run, Once, Sounding;
    GaveUpIs(s);
    OnceGivenUp(s);
    SoundGivenUp(s, GaveUp(s));
  }

  lemma SoundGivenUp(s: State, g: State)
    requires Sound(s) && s.windowed && Once(g) && !g.windowed
    requires g.log == s.log.(filtered := s.log.got, cut := |s.log.got|)
    requires g.pre == s.pre && g.nbytes == s.nbytes && g.toWindow == s.toWindow && g.wUp == s.wUp
    ensures Sound(g)
  {
    hide Scrubbed;
    Whole(s.log.got);
    Units(s.log.got);
  }

  lemma GaveUpIs(s: State)
    requires Sound(s) && s.windowed
    ensures var g := GaveUp(s);
      && !g.windowed && g.log == s.log.(filtered := s.log.got, cut := |s.log.got|) && s.log.resume == |s.log.got|
      && g.pre == s.pre && g.nbytes == s.nbytes && g.toWindow == s.toWindow && g.wUp == s.wUp && g.queue == s.queue
  {
    hide Scrubbed, Run;
    var got := s.log.got;
    Whole(got);
    assert got[..s.nfilt] + got[s.nfilt..] == got;
    Units(s.log.filtered);
  }

  lemma OnceGivenUp(s: State)
    requires Sound(s) && s.windowed
    ensures Once(GaveUp(s))
  {
    hide Scrubbed, Run;
  }

  lemma HangUpSound(s: State, all: seq<byte>)
    requires Sound(s) && Accounts(s, all) && s.windowed
    ensures Sound(HungUp(s)) && Accounts(HungUp(s), all)
    ensures Lost(HungUp(s)) <==> !s.wUp && s.nfilt < |s.pre|
  {
    hide Scrubbed, Flat;
    Whole(s.log.got);
  }

  lemma {:induction false} ShowSound(s: State, gone: bool, room: nat, all: seq<byte>)
    requires Sound(s) && Accounts(s, all) && s.windowed && s.wUp
    ensures var r := Shown(s, gone, room);
      Sound(r) && Accounts(r, all) && r.windowed && r.wUp
    decreases room
  {
    hide Sounding, Accounts, Scrubbed, Flat;
    if s.open && room > 0 && s.queue != [] {
      PassSound(s, all);
      ShowSound(Passed(s), gone, room - 1, all);
    } else {
      OpenSound(s, all);
    }
  }

  lemma OpenSound(s: State, all: seq<byte>)
    requires Sound(s) && Accounts(s, all)
    ensures Sound(s.(open := false)) && Accounts(s.(open := false), all)
  {
    hide Scrubbed, Flat;
  }

  lemma PassSound(s: State, all: seq<byte>)
    requires Sound(s) && Accounts(s, all) && s.windowed && s.wUp && s.queue != []
    ensures Sound(Passed(s)) && Accounts(Passed(s), all) && Passed(s).windowed && Passed(s).wUp
  {
    hide Scrubbed, Flat;
    var l, buf := s.log, s.queue[0];
    Whole(l.got);
    FlatFirst(s.queue);
    Units(l.got + l.direct);
    Units(l.got + (l.direct + buf));
    Assoc(l.got, l.direct, buf);
    Assoc(l.got + l.direct, buf, Flat(s.queue[1..]));
    Assoc(Scrubbed(l.got, 0), l.direct, buf);
  }

  lemma ShuttleSound(s: State, p: Pass, all: seq<byte>)
    requires Sound(s) && Accounts(s, all) && s.windowed
    ensures var r := Shuttled(s, p);
      && Sound(r) && Accounts(r, all) && r.wUp == (s.wUp || p.report) && (Lost(r) <==> Loses(s, p))
      && (!r.windowed ==> r.open == s.open)
  {
    hide Sounding, Accounts, Scrubbed, Flat, CameUp, GaveUp, HungUp, Shown;
    if p.report && !s.wUp {
      ComeUpSound(s, all);
    }
    ShuttleParts(s, p);
    var u := if p.report && !s.wUp then CameUp(s) else s;
    if !u.wUp && p.now - u.wT0 >= DEADLINE {
      GiveUpSound(u, all);
    } else if p.keys == Error || (p.keys == End && u.wUp) {
      HangUpSound(u, all);
    } else if u.wUp {
      ShowSound(u, p.gone, p.room, all);
    }
  }

  lemma ShuttleParts(s: State, p: Pass)
    requires Sound(s) && s.windowed
    ensures CameUp(s).wUp && CameUp(s).windowed && CameUp(s).wIn && s.wIn
    ensures !HungUp(s).windowed && HungUp(s).wUp == s.wUp && HungUp(CameUp(s)).wUp
    ensures !GaveUp(s).windowed && GaveUp(s).wUp == s.wUp
    ensures CameUp(s).open == HungUp(s).open == GaveUp(s).open == s.open && HungUp(CameUp(s)).open == s.open
  {
    hide Scrubbed, Run;
  }

  // ---------------------------------------------------------------- passes

  lemma BeforeSound(s: State, p: Pass, all: seq<byte>)
    requires Sound(s) && Accounts(s, all)
    ensures Sound(Before(s, p)) && Accounts(Before(s, p), all + Flat(p.output))
    ensures (Lost(Before(s, p)) <==> Lost(s)) && (Loses(Before(s, p), p) <==> Loses(s, p))
  {
    hide Scrubbed, Flat;
    FlatBoth(s.queue, p.output);
    Assoc(s.log.got[..s.log.resume] + s.log.direct + s.log.got[s.log.resume..], Flat(s.queue), Flat(p.output));
  }

  lemma BesideSound(s: State, p: Pass, all: seq<byte>)
    requires Sound(s) && Accounts(s, all)
    ensures Sound(Beside(s, p)) && Accounts(Beside(s, p), all) && (Lost(Beside(s, p)) <==> Lost(s))
    ensures Beside(s, p).wUp == s.wUp && Beside(s, p).windowed == s.windowed
  {
    hide Scrubbed, Flat, Run;
  }

  lemma DrainedSound(s: State, p: Pass, all: seq<byte>)
    requires Sound(s) && Accounts(s, all)
    ensures var r := Drained(s, p);
      && Sound(r) && Accounts(r, all + Flat(p.output)) && (r.wUp <==> s.wUp || ComesUp(s, p))
      && (Lost(r) <==> Lost(s) || Loses(s, p)) && (!r.windowed && s.open ==> r.queue == [])
  {
    hide Sounding, Accounts, Scrubbed, Flat, Shuttled, DrainOut, Run;
    var more := all + Flat(p.output);
    BeforeSound(s, p, all);
    var a := Before(s, p);
    if a.windowed {
      ShuttleSound(a, p, more);
    }
    var b := if a.windowed then Shuttled(a, p) else a;
    if !b.windowed {
      DrainOutSound(b, p, more);
      var c := DrainOut(b, p);
      if !c.windowed {
        BesideSound(c, p, more);
      }
    }
  }

  /** All that the task has written. */
  function Output(passes: seq<Pass>): seq<byte> {
    if passes == [] then [] else Output(passes[..|passes| - 1]) + Flat(passes[|passes| - 1].output)
  }

  predicate LosesAt(alive: bool, passes: seq<Pass>, k: nat)
    requires k < |passes|
  {
    Loses(Ran(Start(alive), passes[..k]), passes[k])
  }

  predicate ComesUpAt(alive: bool, passes: seq<Pass>, k: nat)
    requires k < |passes|
  {
    ComesUp(Ran(Start(alive), passes[..k]), passes[k])
  }

  /** The task's output was not at its end yet when the last pass began. */
  predicate OpenBefore(alive: bool, passes: seq<Pass>)
    requires passes != []
  {
    Ran(Start(alive), passes[..|passes| - 1]).open
  }

  /** Over any run of passes every byte that the task has written is accounted for. */
  lemma {:induction false} RunSound(alive: bool, passes: seq<Pass>)
    ensures var s := Ran(Start(alive), passes);
      && Sound(s) && Accounts(s, Output(passes))
      && (s.wUp <==> exists k :: 0 <= k < |passes| && ComesUpAt(alive, passes, k))
      && (Lost(s) <==> exists k :: 0 <= k < |passes| && LosesAt(alive, passes, k))
      && (!s.windowed && (passes == [] || OpenBefore(alive, passes)) ==> s.queue == [])
  {
    hide Sounding, Accounts, Drained, Lost, Loses, ComesUp;
    if passes == [] {
      Start0(alive);
    } else {
      var init, last := passes[..|passes| - 1], |passes| - 1;
      RunSound(alive, init);
      DrainedSound(Ran(Start(alive), init), passes[last], Output(init));
      forall k | 0 <= k < last
        ensures LosesAt(alive, passes, k) == LosesAt(alive, init, k)
        ensures ComesUpAt(alive, passes, k) == ComesUpAt(alive, init, k)
      {
        assert init[..k] == passes[..k];
      }
      assert LosesAt(alive, passes, last) <==> Loses(Ran(Start(alive), init), passes[last]);
      assert ComesUpAt(alive, passes, last) <==> ComesUp(Ran(Start(alive), init), passes[last]);
    }
  }

  // ---------------------------------------------------------------- what follows for the user

  /** What the filter has not had yet while a window is being launched. */
  function Pending(s: State): seq<byte> {
    if s.windowed && s.nfilt <= |s.pre| then s.pre[s.nfilt..] else []
  }

  /** As long as no window came up, the filter has had, or will have, exactly the bytes that the task wrote, each
      once and in order, if and only if the keyboard side never failed while a window was launched with bytes
      pending. */
  lemma NothingLost(alive: bool, passes: seq<Pass>)
    ensures var s := Ran(Start(alive), passes);
      && (s.wUp <==> exists k :: 0 <= k < |passes| && ComesUpAt(alive, passes, k))
      && (!s.wUp ==>
            (s.log.filtered + Pending(s) + Flat(s.queue) == Output(passes)
             <==> !exists k :: 0 <= k < |passes| && LosesAt(alive, passes, k)))
      && (!s.windowed && (passes == [] || OpenBefore(alive, passes)) ==> s.queue == [])
  {
    hide Scrubbed, Flat, Ran, Output, LosesAt, ComesUpAt, Sounding, Accounts, Pending, Lost;
    RunSound(alive, passes);
    var s := Ran(Start(alive), passes);
    if !s.wUp {
      HeldOrLost(s, Output(passes));
    }
  }

  lemma HeldOrLost(s: State, all: seq<byte>)
    requires Sound(s) && !s.wUp && Accounts(s, all)
    ensures s.log.filtered + Pending(s) + Flat(s.queue) == all <==> !Lost(s)
  {
    hide Scrubbed, Flat, Pending, Lost;
    var l := s.log;
    Units(l.got[..l.resume]);
    assert l.got[..l.resume] + l.got[l.resume..] == l.got;
    Held(s);
    SameTail(l.filtered + Pending(s), l.got, Flat(s.queue));
  }

  lemma Held(s: State)
    requires Sound(s) && !s.wUp
    ensures s.log.filtered + Pending(s) == s.log.got <==> !Lost(s)
  {
    hide Scrubbed;
    var l := s.log;
    if s.windowed {
      Whole(l.got);
      Units(l.got[..l.cut]);
      assert l.got[..l.cut] + l.got[l.cut..] == l.got;
    } else {
      Units(l.filtered);
      Whole(l.got);
    }
  }

  lemma SameTail(a: seq<byte>, b: seq<byte>, tail: seq<byte>)
    ensures a + tail == b + tail <==> a == b
  {
    if a + tail == b + tail {
      assert (a + tail)[..|a|] == a && (b + tail)[..|b|] == b;
    }
  }

  /** Once a window is up it is sent all that was read till then, without the queries, and then what the task
      writes; the filter gets what was written before the trigger and after the window. A window is launched at
      most once. */
  lemma WindowGets(alive: bool, passes: seq<Pass>)
    ensures var s := Ran(Start(alive), passes);
      var l := s.log;
      && l.launches <= 1 && l.cut <= l.resume <= |l.got| && (l.launches == 1 ==> alive && l.resume <= PRE_MAX)
      && (s.windowed || s.wUp ==> l.launches == 1) && (!s.wUp ==> l.direct == [])
      && Output(passes) == l.got[..l.resume] + l.direct + l.got[l.resume..] + Flat(s.queue)
      && l.filtered == l.got[..l.cut] + l.got[l.resume..]
      && s.toWindow == if s.wUp then Scrubbed(l.got[..l.resume], 0) + l.direct else []
  {
    hide Scrubbed, Flat, Ran, Output, LosesAt, ComesUpAt;
    RunSound(alive, passes);
    Whole(Ran(Start(alive), passes).log.got);
  }

  // ---------------------------------------------------------------- bytes that are lost

  /** ESC [ ? 1 0 4 9 h: the alternate screen. */
  const ALTERNATE: seq<byte> := [0x1b, 0x5b, 0x3f, 0x31, 0x30, 0x34, 0x39, 0x68]

  /** The terminal after the first bytes of the sequence. */
  function Seen(i: nat): LineTerm {
    if i == 0 || i >= 8 then START
    else if i == 1 then START.(scan := Esc)
    else START.(scan := Csi([0, 0, 1, 10, 104, 1049][i - 2], false, i > 2))
  }

  lemma {:induction false} AlternateRun(i: nat)
    requires i <= 8
    ensures Run(START, ALTERNATE[..i]) == Out(Seen(i), [])
  {
    if i > 0 {
      AlternateRun(i - 1);
      assert ALTERNATE[..i][..i - 1] == ALTERNATE[..i - 1];
      SeenNext(i - 1);
    }
  }

  lemma SeenNext(i: nat)
    requires i < 8
    ensures Feed(Seen(i), ALTERNATE[i]) == Out(Seen(i + 1), []) && (Triggers(Seen(i), ALTERNATE[i]) <==> i == 7)
  {
  }

  /** Only the last byte of the sequence is a trigger. */
  lemma {:induction false} AlternateTriggers(more: seq<byte>, i: nat)
    requires i < 8
    ensures Taken(START, ALTERNATE + more, i) == 8 && TriggersAt(START, ALTERNATE + more, 7)
    decreases 8 - i
  {
    hide Run, Triggers, Seen;
    var buf := ALTERNATE + more;
    assert buf[..i] == ALTERNATE[..i] && buf[i] == ALTERNATE[i];
    AlternateRun(i);
    SeenNext(i);
    if i < 7 {
      AlternateTriggers(more, i + 1);
    }
  }

  const LAUNCH := Pass(false, 0, Nothing, [], false, true, 0, 0, 0, [])
  const FAIL := LAUNCH.(keys := Error)

  /** The task has written the sequence and something behind it, and a window is being launched. */
  function Waiting(b: seq<byte>): State {
    State([], true, true, b, 8, |b|, true, false, false, true, 0, 0, START, [], Log(b, ALTERNATE, [], 8, |b|, 1))
  }

  lemma LaunchPass(text: seq<byte>)
    requires 8 + |text| <= PRE_MAX
    ensures Drained(Start(true), LAUNCH.(output := [ALTERNATE + text])) == Waiting(ALTERNATE + text)
  {
    hide Run, TriggersAt, Taken;
    var b, p := ALTERNATE + text, LAUNCH.(output := [ALTERNATE + text]);
    var a := Before(Start(true), p);
    assert a == Start(true).(queue := [b]);
    KeptMore([], b);
    Units(b);
    var n := Start(true).(pre := b, nbytes := |b|, log := Start(true).log.(got := b));
    assert Next(a) == n;
    LaunchFilter(n, text);
    hide FilterUntil;
    assert DrainOut(Waiting(b), p) == Waiting(b);
    assert DrainOut(a, p) == DrainOut(FilterUntil(Next(a), b, true, 0), p);
  }

  lemma LaunchFilter(n: State, text: seq<byte>)
    requires 8 + |text| <= PRE_MAX
    requires var b := ALTERNATE + text;
      n == Start(true).(pre := b, nbytes := |b|, log := Start(true).log.(got := b))
    ensures FilterUntil(n, ALTERNATE + text, true, 0) == Waiting(ALTERNATE + text)
  {
    hide Run, TriggersAt, Taken;
    AlternateTriggers(text, 0);
    AlternateRun(8);
    Whole(ALTERNATE);
    assert (ALTERNATE + text)[..8] == ALTERNATE;
    assert Filter(n, ALTERNATE) == n.(log := n.log.(filtered := ALTERNATE));
  }

  /** A task writes the sequence and a text, a terminal is started for it, and the keyboard side fails at once: the
      text was read and comes up nowhere. */
  lemma TextLost(text: seq<byte>)
    requires text != [] && 8 + |text| <= PRE_MAX
    ensures var passes := [LAUNCH.(output := [ALTERNATE + text]), FAIL];
      var s := Ran(Start(true), passes);
      && Output(passes) == ALTERNATE + text && s.queue == [] && !s.windowed && s.toWindow == []
      && s.log.filtered == ALTERNATE
  {
    hide Drained, Flat;
    var b, first := ALTERNATE + text, LAUNCH.(output := [ALTERNATE + text]);
    var passes := [first, FAIL];
    LaunchPass(text);
    FailPass(b);
    assert passes[..1] == [first] && [first][..0] == [];
    assert Ran(Start(true), [first]) == Drained(Ran(Start(true), []), first);
    assert Ran(Start(true), passes) == Drained(Ran(Start(true), [first]), FAIL);
    FlatMore([], b);
    FlatNone<byte>();
    Units(b);
    assert [] + [b] == [b];
    assert Output([first]) == Output([]) + Flat([b]);
    assert Output(passes) == Output([first]) + Flat<byte>([]);
  }

  lemma FailPass(b: seq<byte>)
    ensures var s := Drained(Waiting(b), FAIL);
      s.queue == [] && !s.windowed && s.toWindow == [] && s.log.filtered == ALTERNATE
  {
    hide Scrubbed;
    Units<seq<byte>>([]);
  }
}
