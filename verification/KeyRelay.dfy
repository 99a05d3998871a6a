/** The keyboard relay of basht.c: keys become a line with the task's prompt in front, edited in place and sent
    to the task on Enter, or pass unedited to a task that reads keystrokes. */
module KeyRelay {
  import opened Seqs
  import opened LineTerminal

  const CR: byte := 0x0d
  const BS: byte := 0x08
  const DEL: byte := 0x7f
  const EOT: byte := 0x04
  const INTR: byte := 0x03
  const SUSP: byte := 0x1a

  // ---------------------------------------------------------------- escape sequences

  datatype KeyScan = Plain | AfterEsc | AfterSs3 | InCsi(n: nat, n2: nat, more: bool)

  datatype Key = None | Eat | Up | Down | Cycle(dir: int)

  /** key_escape: the next scanner state, and what the byte was. */
  function KeyEscape(st: KeyScan, c: byte, cycles: bool): (KeyScan, Key) {
    match st
    case AfterEsc =>
      if c == '[' as int then (InCsi(0, 0, false), Eat)
      else if c == 'O' as int then (AfterSs3, Eat)
      else (Plain, Eat)
    case AfterSs3 => (Plain, if c == 'A' as int then Up else if c == 'B' as int then Down else Eat)
    case InCsi(n, n2, more) =>
      if '0' as int <= c <= '9' as int then
        (if more then InCsi(n, n2 * 10 + (c - '0' as int), more) else InCsi(n * 10 + (c - '0' as int), n2, more), Eat)
      else if c == ';' as int then (InCsi(n, n2, true), Eat)
      else if 0x40 <= c <= 0x7e then
        (Plain,
         if cycles && n == 1 && n2 == 3 && (c == 'C' as int || c == 'D' as int) then
           Cycle(if c == 'C' as int then 1 else -1)
         else if n == 0 && !more && c == 'A' as int then Up
         else if n == 0 && !more && c == 'B' as int then Down
         else Eat)
      else (st, Eat)
    case Plain => if c == ESC then (AfterEsc, Eat) else (Plain, None)
  }

  /** A key, or new partial lines on the task's two output streams. */
  datatype Input = Pressed(c: byte) | Partials(out: seq<byte>, err: seq<byte>)

  function Keys(keys: seq<byte>): (r: seq<Input>)
    ensures |r| == |keys|
  {
    seq(|keys|, k requires 0 <= k < |keys| => Pressed(keys[k]))
  }

  function KeysOf(inputs: seq<Input>): seq<byte> {
    if inputs == [] then []
    else
      var i := inputs[|inputs| - 1];
      KeysOf(inputs[..|inputs| - 1]) + if i.Pressed? then [i.c] else []
  }

  function Scanned(inputs: seq<Input>, cycles: bool): KeyScan {
    if inputs == [] then Plain
    else
      var before, i := Scanned(inputs[..|inputs| - 1], cycles), inputs[|inputs| - 1];
      if i.Pressed? then KeyEscape(before, i.c, cycles).0 else before
  }

  /** The inputs without the keys that belong to escape sequences. */
  function PlainInputs(inputs: seq<Input>, cycles: bool): seq<Input> {
    if inputs == [] then []
    else
      var init, i := inputs[..|inputs| - 1], inputs[|inputs| - 1];
      PlainInputs(init, cycles)
        + if i.Partials? || KeyEscape(Scanned(init, cycles), i.c, cycles).1 == None then [i] else []
  }

  // ---------------------------------------------------------------- lines

  /** What the task or its process group gets. */
  datatype Item = Line(text: seq<byte>) | Byte(c: byte) | Signal(c: byte)

  /** The line being typed behind its prompt, the task's own partial lines, what was sent to it and what was
      shown as its completed lines. */
  datatype Desk = Desk(
    prefix: seq<byte>, typed: seq<byte>, out: seq<byte>, err: seq<byte>, sent: seq<Item>, shown: seq<seq<byte>>)
  {
    predicate Valid() {
      |prefix| <= CAP / 2 && |prefix| + |typed| <= CAP - 2
    }
  }

  /** The task's prompt: its partial line, cut to leave room for typing. */
  function Prompt(d: Desk): (p: seq<byte>)
    ensures |p| <= CAP / 2
  {
    var src := if d.out != [] then d.out else d.err;
    if |src| > CAP / 2 then src[..CAP / 2] else src
  }

  /** relay_prefix: a line starts with the prompt. */
  function Started(d: Desk): Desk {
    if d.prefix != [] || d.typed != [] then d else d.(prefix := Prompt(d))
  }

  predicate Typable(c: byte) { c == TAB || (c >= 0x20 && c != DEL) }

  predicate IsEnter(c: byte) { c == CR || c == NL }

  /** Enter sends the line, shows it with its prompt and completes the task's own partial line. */
  function Entered(d: Desk): (r: Desk)
    ensures r.Valid()
  {
    var s := Started(d);
    Desk([], [], if d.out != [] then [] else d.out, if d.out == [] then [] else d.err, d.sent + [Line(s.typed)],
         d.shown + [s.prefix + s.typed])
  }

  function Rubbed(d: Desk): Desk {
    if d.typed == [] then d else d.(typed := d.typed[..|d.typed| - 1])
  }

  function Added(d: Desk, c: byte): (r: Desk)
    requires d.Valid()
    ensures r.Valid()
  {
    var s := Started(d);
    if |s.prefix| + |s.typed| < CAP - 2 then s.(typed := s.typed + [c]) else s
  }

  /** relay_chars, for a key that belongs to no escape sequence; `here` says that signal keys become signals. */
  function OnKey(d: Desk, c: byte, here: bool): (r: Desk)
    requires d.Valid()
    ensures r.Valid()
  {
    if c == INTR || c == SUSP then d.(sent := d.sent + [if here then Signal(c) else Byte(c)])
    else if c == EOT then d.(sent := d.sent + [Byte(EOT)])
    else if IsEnter(c) then Entered(d)
    else if c == DEL || c == BS then Rubbed(d)
    else if Typable(c) then Added(d, c)
    else d
  }

  function OnInput(d: Desk, i: Input, here: bool): (r: Desk)
    requires d.Valid()
    ensures r.Valid()
  {
    match i
    case Pressed(c) => OnKey(d, c, here)
    case Partials(out, err) => d.(out := out, err := err)
  }

  function OnInputs(d: Desk, inputs: seq<Input>, here: bool): (r: Desk)
    requires d.Valid()
    ensures r.Valid()
  {
    if inputs == [] then d else OnInput(OnInputs(d, inputs[..|inputs| - 1], here), inputs[|inputs| - 1], here)
  }

  // ---------------------------------------------------------------- what is sent

  /** The keys since the last Enter. */
  function LineKeys(keys: seq<byte>): seq<byte> {
    if keys == [] || IsEnter(keys[|keys| - 1]) then [] else LineKeys(keys[..|keys| - 1]) + [keys[|keys| - 1]]
  }

  /** Text typed, with what was deleted gone. */
  function Edited(keys: seq<byte>): seq<byte> {
    if keys == [] then []
    else
      var before, c := Edited(keys[..|keys| - 1]), keys[|keys| - 1];
      if c == DEL || c == BS then if before == [] then [] else before[..|before| - 1]
      else if Typable(c) then before + [c]
      else before
  }

  /** For each Enter the line as edited; for each control key what it stands for. */
  function Sent(keys: seq<byte>, here: bool): seq<Item> {
    if keys == [] then []
    else
      var init, c := keys[..|keys| - 1], keys[|keys| - 1];
      Sent(init, here) +
      if c == INTR || c == SUSP then [if here then Signal(c) else Byte(c)]
      else if c == EOT then [Byte(EOT)]
      else if IsEnter(c) then [Line(Edited(LineKeys(init)))]
      else []
  }

  lemma EditedMore(keys: seq<byte>, c: byte)
    ensures var before := Edited(keys);
      Edited(keys + [c]) ==
        if c == DEL || c == BS then (if before == [] then [] else before[..|before| - 1])
        else if Typable(c) then before + [c]
        else before
  {
    assert (keys + [c])[..|keys|] == keys;
  }

  /** There is room on the line for one more character. */
  predicate Fits(d: Desk) { |Started(d).prefix| + |d.typed| < CAP - 2 }

  /** The desk before input k. */
  function At(d: Desk, inputs: seq<Input>, here: bool, k: nat): (r: Desk)
    requires d.Valid() && k <= |inputs|
    ensures r.Valid()
  {
    OnInputs(d, inputs[..k], here)
  }

  /** The line on the desk is what the keys since the last Enter make. */
  predicate True(d: Desk, inputs: seq<Input>, here: bool, k: nat)
    requires d.Valid() && k <= |inputs|
  {
    At(d, inputs, here, k).typed == Edited(LineKeys(KeysOf(inputs[..k])))
  }

  predicate Dropped(d: Desk, inputs: seq<Input>, here: bool, k: nat)
    requires d.Valid() && k < |inputs|
  {
    inputs[k].Pressed? && Typable(inputs[k].c) && !Fits(At(d, inputs, here, k))
  }

  lemma NothingTyped()
    ensures Edited([]) == [] && KeysOf([]) == [] && LineKeys([]) == []
  {
  }

  lemma AtNext(d: Desk, inputs: seq<Input>, here: bool, k: nat)
    requires d.Valid() && k < |inputs|
    ensures At(d, inputs, here, k + 1) == OnInput(At(d, inputs, here, k), inputs[k], here)
    ensures KeysOf(inputs[..k + 1]) == KeysOf(inputs[..k]) + if inputs[k].Pressed? then [inputs[k].c] else []
  {
    hide OnInput;
    assert inputs[..k + 1][..k] == inputs[..k];
  }

  lemma LineKeysMore(keys: seq<byte>, c: byte)
    ensures LineKeys(keys + [c]) == if IsEnter(c) then [] else LineKeys(keys) + [c]
  {
    assert (keys + [c])[..|keys|] == keys;
  }

  lemma SentMore(keys: seq<byte>, c: byte, here: bool)
    ensures Sent(keys + [c], here) == Sent(keys, here) +
      if c == INTR || c == SUSP then [if here then Signal(c) else Byte(c)]
      else if c == EOT then [Byte(EOT)]
      else if IsEnter(c) then [Line(Edited(LineKeys(keys)))]
      else []
  {
    assert (keys + [c])[..|keys|] == keys;
  }

  /** One input keeps the line true unless its key is dropped. */
  lemma TrueNext(d: Desk, inputs: seq<Input>, here: bool, k: nat)
    requires d.Valid() && k < |inputs| && True(d, inputs, here, k)
    ensures True(d, inputs, here, k + 1) <==> !Dropped(d, inputs, here, k)
    ensures Sent(KeysOf(inputs[..k]), here) <= Sent(KeysOf(inputs[..k + 1]), here)
    ensures At(d, inputs, here, k + 1).sent == At(d, inputs, here, k).sent
      + Sent(KeysOf(inputs[..k + 1]), here)[|Sent(KeysOf(inputs[..k]), here)|..]
  {
    hide Edited, At, KeysOf, Sent, LineKeys;
    AtNext(d, inputs, here, k);
    NothingTyped();
    var e, keys := At(d, inputs, here, k), KeysOf(inputs[..k]);
    Units(keys);
    Units(e.sent);
    if inputs[k].Pressed? {
      EditedMore(LineKeys(keys), inputs[k].c);
      LineKeysMore(keys, inputs[k].c);
      SentMore(keys, inputs[k].c, here);
    }
  }

  /** As long as no key was dropped the line is true, and what was sent is the lines as they were edited. */
  lemma {:induction false} TrueTill(d: Desk, inputs: seq<Input>, here: bool, k: nat)
    requires d.Valid() && d.typed == [] && k <= |inputs|
    requires forall i :: 0 <= i < k ==> !Dropped(d, inputs, here, i)
    ensures True(d, inputs, here, k)
    ensures At(d, inputs, here, k).sent == d.sent + Sent(KeysOf(inputs[..k]), here)
  {
    hide Edited, Dropped, Sent, LineKeys;
    if k == 0 {
      NothingTyped();
      NothingSent(here);
      Units(d.sent);
    } else {
      TrueTill(d, inputs, here, k - 1);
      TrueNext(d, inputs, here, k - 1);
      var before, after := Sent(KeysOf(inputs[..k - 1]), here), Sent(KeysOf(inputs[..k]), here);
      Assoc(d.sent, before, after[|before|..]);
    }
  }

  lemma NothingSent(here: bool)
    ensures Sent([], here) == []
  {
  }

  /** Whatever the prompts are and become: the line on the desk is all the while what the keys since the last
      Enter make, if and only if no character is typed on a full line; and then the task gets, on each Enter, the
      line as it was edited, never the prompt. */
  lemma KeysAreSent(d: Desk, inputs: seq<Input>, here: bool)
    requires d.Valid() && d.typed == []
    ensures (forall k :: 0 <= k <= |inputs| ==> True(d, inputs, here, k))
      <==> forall k :: 0 <= k < |inputs| ==> !Dropped(d, inputs, here, k)
    ensures (forall k :: 0 <= k < |inputs| ==> !Dropped(d, inputs, here, k)) ==>
      OnInputs(d, inputs, here).sent == d.sent + Sent(KeysOf(inputs), here)
  {
    hide True, Dropped, Sent, OnInputs;
    if forall k :: 0 <= k < |inputs| ==> !Dropped(d, inputs, here, k) {
      forall k | 0 <= k <= |inputs|
        ensures True(d, inputs, here, k)
      {
        TrueTill(d, inputs, here, k);
      }
      TrueTill(d, inputs, here, |inputs|);
      Whole(inputs);
    } else {
      var k :| 0 <= k < |inputs| && Dropped(d, inputs, here, k);
      if True(d, inputs, here, k) {
        TrueNext(d, inputs, here, k);
      }
    }
  }

  /** Lines of at most half a buffer of keys always fit. */
  lemma ShortLinesFit(d: Desk, inputs: seq<Input>, here: bool)
    requires d.Valid() && d.typed == []
    requires forall k :: 0 <= k <= |inputs| ==> |LineKeys(KeysOf(inputs[..k]))| <= CAP / 2 - 3
    ensures forall k :: 0 <= k < |inputs| ==> !Dropped(d, inputs, here, k)
  {
    hide LineKeys, KeysOf, Edited, OnInputs, True;
    for k := 0 to |inputs|
      invariant forall i :: 0 <= i < k ==> !Dropped(d, inputs, here, i)
    {
      TrueTill(d, inputs, here, k);
      TrueIs(d, inputs, here, k);
      EditedShort(LineKeys(KeysOf(inputs[..k])));
    }
  }

  lemma TrueIs(d: Desk, inputs: seq<Input>, here: bool, k: nat)
    requires d.Valid() && k <= |inputs| && True(d, inputs, here, k)
    ensures At(d, inputs, here, k).typed == Edited(LineKeys(KeysOf(inputs[..k])))
  {
  }

  lemma {:induction false} EditedShort(keys: seq<byte>)
    ensures |Edited(keys)| <= |keys|
  {
    if keys != [] {
      EditedShort(keys[..|keys| - 1]);
    }
  }

  function Times(c: byte, n: nat): (r: seq<byte>)
    ensures |r| == n
  {
    seq(n, _ => c)
  }

  /** On an empty line without prompt there is room for all but two of the bytes of the buffer: from then on what is
      typed is dropped. */
  lemma {:induction false} FullLine(c: byte, n: nat, here: bool)
    requires Typable(c) && c != BS && !IsEnter(c)
    ensures OnInputs(Desk([], [], [], [], [], []), Keys(Times(c, n)), here)
      == Desk([], Times(c, if n < CAP - 2 then n else CAP - 2), [], [], [], [])
  {
    hide OnInput, Times, Typable, IsEnter;
    if n == 0 {
      NoTimes(c);
    } else {
      FullLine(c, n - 1, here);
      KeysBefore(c, n);
      OneMore(c, if n - 1 < CAP - 2 then n - 1 else CAP - 2, here);
      KeyLast(c, n);
    }
  }

  lemma NoTimes(c: byte)
    ensures Times(c, 0) == [] && Keys([]) == []
  {
  }

  lemma KeysBefore(c: byte, n: nat)
    requires n > 0
    ensures Keys(Times(c, n))[..n - 1] == Keys(Times(c, n - 1))
  {
  }

  lemma KeyLast(c: byte, n: nat)
    requires n > 0
    ensures Keys(Times(c, n)) != [] && Keys(Times(c, n))[n - 1] == Pressed(c)
  {
  }

  lemma OneMore(c: byte, n: nat, here: bool)
    requires Typable(c) && c != BS && !IsEnter(c) && n <= CAP - 2
    ensures OnInput(Desk([], Times(c, n), [], [], [], []), Pressed(c), here)
      == Desk([], Times(c, if n < CAP - 2 then n + 1 else n), [], [], [], [])
  {
    if n < CAP - 2 {
      assert Times(c, n + 1) == Times(c, n) + [c];
    }
  }

  // ---------------------------------------------------------------- what is shown

  predicate Blank(d: Desk) { d.prefix == [] && d.typed == [] }

  /** Of the desks up to input e, j is the last on which the line was blank. */
  predicate Opening(d: Desk, inputs: seq<Input>, here: bool, j: nat, e: nat)
    requires d.Valid() && e <= |inputs|
  {
    j <= e && Blank(At(d, inputs, here, j)) && forall m :: j < m <= e ==> !Blank(At(d, inputs, here, m))
  }

  /** The line begins with the prompt as it was when the line was last blank. */
  lemma {:induction false} PromptOf(d: Desk, inputs: seq<Input>, here: bool, e: nat) returns (j: nat)
    requires d.Valid() && Blank(d) && e <= |inputs|
    ensures Opening(d, inputs, here, j, e)
    ensures Started(At(d, inputs, here, e)).prefix == Prompt(At(d, inputs, here, j))
  {
    hide At;
    j := e;
    if e == 0 {
      AtNone(d, inputs, here);
    } else if !Blank(At(d, inputs, here, e)) {
      j := PromptOf(d, inputs, here, e - 1);
      AtNext(d, inputs, here, e - 1);
    }
  }

  lemma AtNone(d: Desk, inputs: seq<Input>, here: bool)
    requires d.Valid()
    ensures At(d, inputs, here, 0) == d
  {
  }

  predicate EnterAt(inputs: seq<Input>, e: nat)
    requires e < |inputs|
  {
    inputs[e].Pressed? && IsEnter(inputs[e].c)
  }

  function Enters(inputs: seq<Input>): nat {
    if inputs == [] then 0
    else Enters(inputs[..|inputs| - 1]) + if EnterAt(inputs, |inputs| - 1) then 1 else 0
  }

  /** The lines among what was sent. */
  function LinesOf(items: seq<Item>): seq<seq<byte>> {
    if items == [] then []
    else
      var i := items[|items| - 1];
      LinesOf(items[..|items| - 1]) + if i.Line? then [i.text] else []
  }

  lemma LinesOfMore(items: seq<Item>, i: Item)
    ensures LinesOf(items + [i]) == LinesOf(items) + if i.Line? then [i.text] else []
  {
    assert (items + [i])[..|items|] == items;
  }

  /** What one input adds to the record. */
  lemma ShownNext(d: Desk, i: Input, here: bool)
    requires d.Valid()
    ensures var r, enter := OnInput(d, i, here), i.Pressed? && IsEnter(i.c);
      && r.shown == (if enter then d.shown + [Started(d).prefix + d.typed] else d.shown)
      && LinesOf(r.sent) == (if enter then LinesOf(d.sent) + [d.typed] else LinesOf(d.sent))
  {
    hide LinesOf;
    Units(LinesOf(d.sent));
    var sent := OnInput(d, i, here).sent;
    if sent != d.sent {
      LinesOfMore(d.sent, sent[|d.sent|]);
      assert sent == d.sent + [sent[|d.sent|]];
    }
  }

  /** Records are only added, one for each Enter. */
  lemma {:induction false} ShownGrows(d: Desk, inputs: seq<Input>, here: bool, lo: nat, hi: nat)
    requires d.Valid() && lo <= hi <= |inputs|
    ensures var f, t := At(d, inputs, here, lo), At(d, inputs, here, hi);
      && f.shown <= t.shown && LinesOf(f.sent) <= LinesOf(t.sent)
      && |t.shown| + Enters(inputs[..lo]) == |f.shown| + Enters(inputs[..hi])
      && |LinesOf(t.sent)| + Enters(inputs[..lo]) == |LinesOf(f.sent)| + Enters(inputs[..hi])
    decreases hi - lo
  {
    hide At, LinesOf, OnInput;
    if lo < hi {
      ShownGrows(d, inputs, here, lo, hi - 1);
      AtNext(d, inputs, here, hi - 1);
      ShownNext(At(d, inputs, here, hi - 1), inputs[hi - 1], here);
      assert inputs[..hi][..hi - 1] == inputs[..hi - 1];
    }
  }

  /** Over any run: each Enter sends one line and brings up one record, and the k-th record is the prompt that the
      task had when the line was begun, followed by the k-th line sent. */
  lemma RecordsShown(d: Desk, inputs: seq<Input>, here: bool, e: nat) returns (j: nat)
    requires d.Valid() && Blank(d) && e < |inputs| && EnterAt(inputs, e)
    ensures Opening(d, inputs, here, j, e)
    ensures var r, lines := OnInputs(d, inputs, here), LinesOf(d.sent);
      var all := LinesOf(r.sent);
      && |r.shown| == |d.shown| + Enters(inputs) && |all| == |lines| + Enters(inputs)
      && Enters(inputs[..e]) < Enters(inputs)
      && r.shown[|d.shown| + Enters(inputs[..e])]
        == Prompt(At(d, inputs, here, j)) + all[|lines| + Enters(inputs[..e])]
  {
    hide At, LinesOf, OnInput, OnInputs, Opening;
    j := PromptOf(d, inputs, here, e);
    AtNext(d, inputs, here, e);
    ShownNext(At(d, inputs, here, e), inputs[e], here);
    ShownGrows(d, inputs, here, 0, e);
    ShownGrows(d, inputs, here, e + 1, |inputs|);
    AtNone(d, inputs, here);
    AtAll(d, inputs, here);
    EntersNext(inputs, e);
    Whole(inputs);
  }

  lemma AtAll(d: Desk, inputs: seq<Input>, here: bool)
    requires d.Valid()
    ensures At(d, inputs, here, |inputs|) == OnInputs(d, inputs, here)
  {
    Whole(inputs);
  }

  lemma EntersNext(inputs: seq<Input>, e: nat)
    requires e < |inputs| && EnterAt(inputs, e)
    ensures Enters(inputs[..e + 1]) == Enters(inputs[..e]) + 1 && Enters([]) == 0
  {
    assert inputs[..e + 1][..e] == inputs[..e];
  }

  // ---------------------------------------------------------------- the scanner and the desk together

  datatype Relayed = Relayed(st: KeyScan, d: Desk)

  function Relay(st: KeyScan, d: Desk, inputs: seq<Input>, cycles: bool, here: bool): (r: Relayed)
    requires d.Valid()
    ensures r.d.Valid()
  {
    if inputs == [] then Relayed(st, d)
    else RelayOne(Relay(st, d, inputs[..|inputs| - 1], cycles, here), inputs[|inputs| - 1], cycles, here)
  }

  function RelayOne(r: Relayed, i: Input, cycles: bool, here: bool): (s: Relayed)
    requires r.d.Valid()
    ensures s.d.Valid()
  {
    if i.Partials? then Relayed(r.st, OnInput(r.d, i, here))
    else
      var (st, key) := KeyEscape(r.st, i.c, cycles);
      Relayed(st, if key == None then OnInput(r.d, i, here) else r.d)
  }

  lemma RelayMore(st: KeyScan, d: Desk, inputs: seq<Input>, i: nat, cycles: bool, here: bool)
    requires d.Valid() && i < |inputs|
    ensures Relay(st, d, inputs[..i + 1], cycles, here)
      == RelayOne(Relay(st, d, inputs[..i], cycles, here), inputs[i], cycles, here)
  {
    hide RelayOne;
    assert inputs[..i + 1][..i] == inputs[..i];
  }

  /** How the keys arrive in pieces does not matter. */
  lemma {:induction false} RelaySplit(st: KeyScan, d: Desk, a: seq<Input>, b: seq<Input>, cycles: bool, here: bool)
    requires d.Valid()
    ensures var r := Relay(st, d, a, cycles, here);
      Relay(st, d, a + b, cycles, here) == Relay(r.st, r.d, b, cycles, here)
    decreases |b|
  {
    hide RelayOne;
    if b == [] {
      Units(a);
    } else {
      RelaySplit(st, d, a, b[..|b| - 1], cycles, here);
      assert (a + b)[..|a + b| - 1] == a + b[..|b| - 1];
    }
  }

  /** Escape sequences leave no trace in the line: the desk is what the other keys make of it. */
  lemma {:induction false} RelayIsPlain(d: Desk, inputs: seq<Input>, cycles: bool, here: bool)
    requires d.Valid()
    ensures Relay(Plain, d, inputs, cycles, here)
      == Relayed(Scanned(inputs, cycles), OnInputs(d, PlainInputs(inputs, cycles), here))
  {
    hide OnInput, KeyEscape;
    if inputs != [] {
      var init, i := inputs[..|inputs| - 1], inputs[|inputs| - 1];
      RelayIsPlain(d, init, cycles, here);
      var plain := PlainInputs(init, cycles);
      assert (plain + [i])[..|plain|] == plain;
      Units(plain);
    }
  }

  /** All keys, escape sequences among them, from an empty line on. */
  lemma RelaySends(d: Desk, inputs: seq<Input>, cycles: bool, here: bool)
    requires d.Valid() && d.typed == []
    ensures var plain := PlainInputs(inputs, cycles);
      (forall k :: 0 <= k < |plain| ==> !Dropped(d, plain, here, k)) ==>
        Relay(Plain, d, inputs, cycles, here).d.sent == d.sent + Sent(KeysOf(plain), here)
  {
    hide Sent, Dropped, OnInputs, Relay, PlainInputs, True;
    RelayIsPlain(d, inputs, cycles, here);
    KeysAreSent(d, PlainInputs(inputs, cycles), here);
  }

  /** Keys as they are read, or new partial lines of the task. */
  datatype Event = Typed(buf: seq<byte>) | Changed(out: seq<byte>, err: seq<byte>)

  function InputsOf(e: Event): seq<Input> {
    match e
    case Typed(buf) => Keys(buf)
    case Changed(out, err) => [Partials(out, err)]
  }

  function Inputs(events: seq<Event>): seq<Input> {
    if events == [] then [] else Inputs(events[..|events| - 1]) + InputsOf(events[|events| - 1])
  }

  lemma RelayEvent(st: KeyScan, d: Desk, events: seq<Event>, k: nat, cycles: bool, here: bool)
    requires d.Valid() && k < |events|
    ensures var r := Relay(st, d, Inputs(events[..k]), cycles, here);
      Relay(st, d, Inputs(events[..k + 1]), cycles, here) == Relay(r.st, r.d, InputsOf(events[k]), cycles, here)
  {
    hide Relay;
    assert events[..k + 1][..k] == events[..k];
    RelaySplit(st, d, Inputs(events[..k]), InputsOf(events[k]), cycles, here);
  }

  lemma RelayPartials(st: KeyScan, d: Desk, out: seq<byte>, err: seq<byte>, cycles: bool, here: bool)
    requires d.Valid()
    ensures Relay(st, d, [Partials(out, err)], cycles, here) == Relayed(st, d.(out := out, err := err))
  {
    assert [Partials(out, err)][..0] == [];
  }

  // ---------------------------------------------------------------- in place

  datatype FiltState = BfNormal | BfEsc | BfCsi | BfOsc

  class RelayLine {
    const data: array<byte>
    var len: nat
    var cur: nat
    /** The prefix that belongs to the prompt. */
    var fix: nat
    var fs: FiltState
    var csiN: nat
    var csiN2: nat
    var csiMore: bool
    /** The partial lines of the task's two output streams. */
    var out: seq<byte>
    var err: seq<byte>
    var sent: seq<Item>
    var shown: seq<seq<byte>>

    ghost predicate Valid()
      reads this
    {
      data.Length == CAP && fix <= len == cur <= CAP - 2 && fix <= CAP / 2
    }

    ghost function View(): (d: Desk)
      requires Valid()
      reads this, data
      ensures d.Valid()
    {
      Desk(data[..fix], data[fix..len], out, err, sent, shown)
    }

    ghost function Scanning(): KeyScan
      reads this
    {
      match fs
      case BfNormal => Plain
      case BfEsc => AfterEsc
      case BfOsc => AfterSs3
      case BfCsi => InCsi(csiN, csiN2, csiMore)
    }

    constructor (out: seq<byte>, err: seq<byte>)
      ensures Valid() && fresh(data) && Scanning() == Plain && View() == Desk([], [], out, err, [], [])
    {
      data := new byte[CAP](_ => 0);
      len, cur, fix, fs, csiN, csiN2, csiMore := 0, 0, 0, BfNormal, 0, 0, false;
      this.out, this.err, sent, shown := out, err, [], [];
    }

    method Escape(c: byte, cycles: bool) returns (key: Key)
      modifies this`fs, this`csiN, this`csiN2, this`csiMore
      ensures (Scanning(), key) == KeyEscape(old(Scanning()), c, cycles)
    {
      if fs == BfEsc {
        if c == '[' as int {
          fs, csiN, csiN2, csiMore := BfCsi, 0, 0, false;
        } else if c == 'O' as int {
          fs := BfOsc;
        } else {
          fs := BfNormal;
        }
        return Eat;
      }
      if fs == BfOsc {
        fs := BfNormal;
        return if c == 'A' as int then Up else if c == 'B' as int then Down else Eat;
      }
      if fs == BfCsi {
        if '0' as int <= c <= '9' as int {
          if csiMore {
            csiN2 := csiN2 * 10 + (c - '0' as int);
          } else {
            csiN := csiN * 10 + (c - '0' as int);
          }
        } else if c == ';' as int {
          csiMore := true;
        } else if 0x40 <= c <= 0x7e {
          fs := BfNormal;
          if cycles && csiN == 1 && csiN2 == 3 && (c == 'C' as int || c == 'D' as int) {
            return Cycle(if c == 'C' as int then 1 else -1);
          }
          if csiN == 0 && !csiMore {
            if c == 'A' as int {
              return Up;
            }
            if c == 'B' as int {
              return Down;
            }
          }
        }
        return Eat;
      }
      if c == ESC {
        fs := BfEsc;
        return Eat;
      }
      key := None;
    }

    method RelayPrefix()
      requires Valid()
      modifies this`len, this`cur, this`fix, data
      ensures Valid() && View() == Started(old(View()))
    {
      if len > 0 || fix > 0 {
        assert data[..fix] != [] || data[fix..len] != [];
        return;
      }
      if |out| == 0 && |err| == 0 {
        return;
      }
      var src := if |out| > 0 then out else err;
      var n := |src|;
      if n > CAP / 2 {
        n := CAP / 2;
      }
      var i := 0;
      while i < n
        invariant 0 <= i <= n && data[..i] == src[..i]
        invariant len == fix == cur == 0
      {
        data[i] := src[i];
        i := i + 1;
      }
      len, cur, fix := n, n, n;
      Whole(src);
    }

    method Enter()
      requires Valid()
      modifies this`len, this`cur, this`fix, this`sent, this`shown, this`out, this`err, data
      ensures Valid() && View() == Entered(old(View()))
    {
      hide Started;
      RelayPrefix();
      ghost var s := View();
      shown := shown + [data[..len]];
      assert data[..len] == s.prefix + s.typed;
      data[len] := NL;
      sent := sent + [Line(data[fix..len])];
      len, cur, fix := 0, 0, 0;
      if |out| > 0 {
        out := [];
      } else if |err| > 0 {
        err := [];
      }
    }

    method Rub()
      requires Valid()
      modifies this`len, this`cur
      ensures Valid() && View() == Rubbed(old(View()))
    {
      if len > fix {
        ghost var was := data[fix..len];
        len := len - 1;
        cur := len;
        assert data[fix..len] == was[..|was| - 1];
      }
    }

    method Add(c: byte)
      requires Valid()
      modifies this`len, this`cur, this`fix, data
      ensures Valid() && View() == Added(old(View()), c)
    {
      hide Started;
      RelayPrefix();
      if len < CAP - 2 {
        ghost var prefix, typed := data[..fix], data[fix..len];
        data[len] := c;
        len := len + 1;
        cur := len;
        assert data[fix..len] == typed + [c] && data[..fix] == prefix;
      }
    }

    method Press(c: byte, here: bool)
      requires Valid()
      modifies this`len, this`cur, this`fix, this`sent, this`shown, this`out, this`err, data
      ensures Valid() && View() == OnKey(old(View()), c, here)
    {
      hide Entered, Rubbed, Added;
      if c == INTR || c == SUSP {
        sent := sent + [if here then Signal(c) else Byte(c)];
      } else if c == EOT {
        sent := sent + [Byte(EOT)];
      } else if c == CR || c == NL {
        Enter();
      } else if c == DEL || c == BS {
        Rub();
      } else if c == TAB || c >= 0x20 {
        Add(c);
      }
    }

    /** relay_chars. */
    method RelayChars(buf: seq<byte>, cycles: bool, here: bool)
      requires Valid()
      modifies this, data
      ensures Valid()
      ensures Relayed(Scanning(), View()) == Relay(old(Scanning()), old(View()), Keys(buf), cycles, here)
    {
      hide OnKey, KeyEscape, Relay;
      ghost var st, d := Scanning(), View();
      RelayNothing(st, d, cycles, here);
      for k := 0 to |buf|
        invariant Valid() && Relayed(Scanning(), View()) == Relay(st, d, Keys(buf)[..k], cycles, here)
      {
        RelayMore(st, d, Keys(buf), k, cycles, here);
        var key := Escape(buf[k], cycles);
        if key == None {
          Press(buf[k], here);
        }
      }
      Whole(Keys(buf));
    }

    /** The task's filters have new partial lines. */
    method Filtered(out: seq<byte>, err: seq<byte>)
      requires Valid()
      modifies this`out, this`err
      ensures Valid() && View() == old(View()).(out := out, err := err)
    {
      this.out, this.err := out, err;
    }

    /** A line's life: keys in pieces as they are read, and between them new partial lines. From an empty line on, the
        task gets the lines as they were edited, unless a key is dropped on a full line. */
    method Serve(events: seq<Event>, cycles: bool, here: bool)
      requires Valid()
      modifies this, data
      ensures Valid()
      ensures Relayed(Scanning(), View()) == Relay(old(Scanning()), old(View()), Inputs(events), cycles, here)
      ensures var d, plain := old(View()), PlainInputs(Inputs(events), cycles);
        old(Scanning()) == Plain && d.typed == [] && (forall k :: 0 <= k < |plain| ==> !Dropped(d, plain, here, k)) ==>
          sent == d.sent + Sent(KeysOf(plain), here)
    {
      hide Relay, InputsOf, PlainInputs, Dropped, Sent, KeysOf;
      ghost var st, d := Scanning(), View();
      RelayNothing(st, d, cycles, here);
      for k := 0 to |events|
        invariant Valid() && Relayed(Scanning(), View()) == Relay(st, d, Inputs(events[..k]), cycles, here)
      {
        RelayEvent(st, d, events, k, cycles, here);
        ServeOne(events[k], cycles, here);
      }
      Whole(events);
      if st == Plain && d.typed == [] {
        RelaySends(d, Inputs(events), cycles, here);
      }
    }

    method ServeOne(e: Event, cycles: bool, here: bool)
      requires Valid()
      modifies this, data
      ensures Valid()
      ensures Relayed(Scanning(), View()) == Relay(old(Scanning()), old(View()), InputsOf(e), cycles, here)
    {
      hide Relay;
      match e
      case Typed(buf) => RelayChars(buf, cycles, here);
      case Changed(out, err) =>
        RelayPartials(Scanning(), View(), out, err, cycles, here);
        Filtered(out, err);
    }
  }

  lemma RelayNothing(st: KeyScan, d: Desk, cycles: bool, here: bool)
    requires d.Valid()
    ensures Relay(st, d, [], cycles, here) == Relayed(st, d)
  {
  }

  // ---------------------------------------------------------------- keystrokes unedited

  /** The console's own key, alt-left or alt-right. */
  predicate ConsoleKey(buf: seq<byte>, k: nat) {
    && k + 5 < |buf| && buf[k] == ESC && buf[k + 1] == '[' as int && buf[k + 2] == '1' as int
    && buf[k + 3] == ';' as int && buf[k + 4] == '3' as int && (buf[k + 5] == 'C' as int || buf[k + 5] == 'D' as int)
  }

  predicate SignalKey(c: byte) { c == INTR || c == SUSP }

  /** A byte written to the task, the console's key, a key that becomes a signal. */
  datatype Piece = Written(c: byte) | Cycled(dir: int) | Signalled(c: byte)

  function Runs(buf: seq<byte>): (r: seq<Piece>)
    ensures |r| == |buf|
  {
    seq(|buf|, k requires 0 <= k < |buf| => Written(buf[k]))
  }

  /** What becomes of the keys from byte k on. */
  function Pieces(buf: seq<byte>, k: nat, cycles: bool, emul: bool): seq<Piece>
    requires k <= |buf|
    decreases |buf| - k
  {
    if k == |buf| then []
    else if cycles && ConsoleKey(buf, k) then
      [Cycled(if buf[k + 5] == 'C' as int then 1 else -1)] + Pieces(buf, k + 6, cycles, emul)
    else if emul && SignalKey(buf[k]) then [Signalled(buf[k])] + Pieces(buf, k + 1, cycles, emul)
    else [Written(buf[k])] + Pieces(buf, k + 1, cycles, emul)
  }

  /** relay_raw: whole runs of bytes are written between the keys that are withheld. */
  method RelayRaw(buf: seq<byte>, cycles: bool, emul: bool) returns (done: seq<Piece>)
    ensures done == Pieces(buf, 0, cycles, emul)
  {
    done := [];
    var k, mark := 0, 0;
    Units(Pieces(buf, 0, cycles, emul));
    while k < |buf|
      invariant 0 <= mark <= k <= |buf|
      invariant done + Runs(buf[mark..k]) + Pieces(buf, k, cycles, emul) == Pieces(buf, 0, cycles, emul)
      decreases |buf| - k
    {
      if cycles && ConsoleKey(buf, k) {
        if k > mark {
          done := done + Runs(buf[mark..k]);
        }
        var piece := Cycled(if buf[k + 5] == 'C' as int then 1 else -1);
        Withheld(done, buf, mark, k, piece, Pieces(buf, k + 6, cycles, emul));
        done := done + [piece];
        k := k + 6;
        mark := k;
        continue;
      }
      if emul && SignalKey(buf[k]) {
        if k > mark {
          done := done + Runs(buf[mark..k]);
        }
        Withheld(done, buf, mark, k, Signalled(buf[k]), Pieces(buf, k + 1, cycles, emul));
        done := done + [Signalled(buf[k])];
        k := k + 1;
        mark := k;
        continue;
      }
      assert Runs(buf[mark..k + 1]) == Runs(buf[mark..k]) + [Written(buf[k])];
      Assoc(done, Runs(buf[mark..k]), [Written(buf[k])]);
      Assoc(done + Runs(buf[mark..k]), [Written(buf[k])], Pieces(buf, k + 1, cycles, emul));
      k := k + 1;
    }
    if k > mark {
      done := done + Runs(buf[mark..k]);
    }
    Units(done);
  }

  lemma Withheld(done: seq<Piece>, buf: seq<byte>, mark: nat, k: nat, piece: Piece, rest: seq<Piece>)
    requires mark <= k <= |buf|
    ensures done + [piece] + rest == done + ([piece] + rest) && Runs(buf[k..k]) == []
    ensures mark == k ==> done + Runs(buf[mark..k]) == done
    ensures done + [piece] + Runs(buf[k..k]) + rest == done + [piece] + rest
  {
    Units(done + [piece]);
    Units(done);
  }

  /** The keys that pieces stand for. */
  function KeysFor(pieces: seq<Piece>): seq<byte> {
    if pieces == [] then []
    else
      (match pieces[0]
       case Written(c) => [c]
       case Signalled(c) => [c]
       case Cycled(dir) =>
         [ESC, '[' as int, '1' as int, ';' as int, '3' as int, if dir == 1 then 'C' as int else 'D' as int])
      + KeysFor(pieces[1..])
  }

  lemma CycledKeys(buf: seq<byte>, k: nat, rest: seq<Piece>)
    requires ConsoleKey(buf, k)
    ensures KeysFor([Cycled(if buf[k + 5] == 'C' as int then 1 else -1)] + rest) == buf[k..k + 6] + KeysFor(rest)
  {
    var pieces := [Cycled(if buf[k + 5] == 'C' as int then 1 else -1)] + rest;
    assert pieces[1..] == rest;
    assert buf[k..k + 6] == [buf[k], buf[k + 1], buf[k + 2], buf[k + 3], buf[k + 4], buf[k + 5]];
  }

  lemma OneKey(piece: Piece, rest: seq<Piece>)
    requires !piece.Cycled?
    ensures KeysFor([piece] + rest) == [piece.c] + KeysFor(rest)
  {
    assert ([piece] + rest)[1..] == rest;
  }

  /** What was written and what was withheld are together the input, in order. Only the console's keys are
      withheld, and signal keys if they become signals: none of these is written. */
  lemma {:induction false} PiecesAreKeys(buf: seq<byte>, k: nat, cycles: bool, emul: bool)
    requires k <= |buf|
    ensures KeysFor(Pieces(buf, k, cycles, emul)) == buf[k..]
    ensures forall p <- Pieces(buf, k, cycles, emul) ::
      (p.Cycled? ==> cycles) && (p.Signalled? ==> emul && SignalKey(p.c)) && (p.Written? ==> !emul || !SignalKey(p.c))
    decreases |buf| - k
  {
    hide KeysFor;
    if k == |buf| {
      NoKeys();
    } else if cycles && ConsoleKey(buf, k) {
      PiecesAreKeys(buf, k + 6, cycles, emul);
      CycledKeys(buf, k, Pieces(buf, k + 6, cycles, emul));
      assert buf[k..] == buf[k..k + 6] + buf[k + 6..];
    } else {
      PiecesAreKeys(buf, k + 1, cycles, emul);
      OneKey(if emul && SignalKey(buf[k]) then Signalled(buf[k]) else Piece.Written(buf[k]),
             Pieces(buf, k + 1, cycles, emul));
      assert buf[k..] == [buf[k]] + buf[k + 1..];
    }
  }

  lemma NoKeys()
    ensures KeysFor([]) == []
  {
  }
}
