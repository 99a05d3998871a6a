/** basht_filter.c: a stream's line buffer, edited in place, and the byte loop of basht_filter_bytes. */
module LineFilter {
  import opened Seqs
  import opened LineTerminal

  datatype FiltState = BfNormal | BfEsc | BfCsi | BfOsc | BfOscEsc

  class LineBuffer {
    const data: array<byte>
    var len: nat
    var cur: nat
    var moved: bool
    var fs: FiltState
    var csiN: nat
    var csiMore: bool
    var csiPriv: bool
    /** The lines handed to the display so far. */
    var lines: seq<seq<byte>>

    ghost predicate Valid()
      reads this
    {
      data.Length == CAP && cur <= len < CAP
    }

    /** The buffer as a terminal. */
    ghost function View(): Term
      requires Valid()
      reads this, data
    {
      Term(data[..len], cur, moved, Scanning())
    }

    ghost function Scanning(): Scan
      reads this
    {
      match fs
      case BfNormal => Normal
      case BfEsc => Esc
      case BfCsi => Csi(csiN, csiMore, csiPriv)
      case BfOsc => Osc
      case BfOscEsc => OscEsc
    }

    constructor ()
      ensures Valid() && fresh(data) && View() == START && lines == []
    {
      data := new byte[CAP](_ => 0);
      len, cur, moved, lines := 0, 0, false, [];
      fs, csiN, csiMore, csiPriv := BfNormal, 0, false, false;
    }

    method Emit()
      requires data.Length == CAP && len <= CAP
      modifies this`len, this`cur, this`lines
      ensures lines == old(lines) + [data[..old(len)]] && len == cur == 0
    {
      lines := lines + [data[..len]];
      len, cur := 0, 0;
    }

    method FreshLine()
      requires Valid()
      modifies this`len, this`cur, this`moved
      ensures Valid() && View() == Fresh(old(View())) && !moved
    {
      if moved {
        len, cur := 0, 0;
        moved := false;
      }
    }

    /** memcpy of the wrap mark to the end of the text. */
    method AppendMark()
      requires data.Length == CAP && len + 10 <= CAP
      modifies data, this`len
      ensures len == old(len) + 10 && data[..len] == old(data[..len]) + WrapMark()
    {
      var mark := WrapMark();
      var i := 0;
      while i < 10
        invariant 0 <= i <= 10 && len == old(len) && data[..len + i] == old(data[..len]) + mark[..i]
      {
        data[len + i] := mark[i];
        i := i + 1;
      }
      assert mark[..10] == mark;
      len := len + 10;
    }

    method Putch(c: byte)
      requires Valid() && (Fresh(View()).cur >= ROOM ==> |Fresh(View()).text| + 10 <= CAP)
      modifies this`len, this`cur, this`moved, this`lines, data
      ensures Valid() && Follows(Put(old(View()), c), View(), old(lines), lines)
    {
      FreshLine();
      if cur >= ROOM {
        AppendMark();
        Emit();
      }
      ghost var was, at := data[..len], cur;
      data[cur] := c;
      cur := cur + 1;
      if cur > len {
        len := cur;
      }
      assert data[..len] == Overwrite(was, at, c);
    }

    /** memmove to a lower place. */
    method MoveDown(to: nat, from: nat, n: nat)
      requires to <= from && from + n <= data.Length
      modifies data
      ensures data[..to] == old(data[..to]) && data[to..to + n] == old(data[from..from + n])
    {
      ghost var was := data[..];
      var i := 0;
      while i < n
        invariant 0 <= i <= n
        invariant forall k :: 0 <= k < to ==> data[k] == was[k]
        invariant forall k :: to <= k < to + i ==> data[k] == was[k - to + from]
        invariant forall k :: to + i <= k < data.Length ==> data[k] == was[k]
      {
        data[to + i] := data[from + i];
        i := i + 1;
      }
    }

    /** memset with blanks. */
    method Fill(at: nat, n: nat)
      requires at + n <= data.Length
      modifies data
      ensures data[..] == old(data[..at]) + Blanks(n) + old(data[at + n..])
    {
      var i := 0;
      while i < n
        invariant 0 <= i <= n
        invariant forall k :: 0 <= k < data.Length ==> data[k] == if at <= k < at + i then BLANK else old(data[k])
      {
        data[at + i] := BLANK;
        i := i + 1;
      }
    }

    /** memmove to a higher place, from the end on. */
    method MoveUp(from: nat, to: nat, n: nat)
      requires from <= to && to + n <= data.Length
      modifies data
      ensures data[..from] == old(data[..from]) && data[to..to + n] == old(data[from..from + n])
    {
      ghost var was := data[..];
      var i := n;
      while i > 0
        invariant 0 <= i <= n
        invariant forall k :: 0 <= k < to + i ==> data[k] == was[k]
        invariant forall k :: to + i <= k < to + n ==> data[k] == was[k - to + from]
      {
        i := i - 1;
        data[to + i] := data[from + i];
      }
    }

    /** Blanks at the cursor; what stands there moves up. */
    method OpenGap(n: nat)
      requires Valid() && len + n < CAP
      modifies data
      ensures data[..len + n] == old(data[..cur]) + Blanks(n) + old(data[cur..len])
    {
      var tail := len - cur;
      ghost var was := data[..len];
      Parted(data[..], cur, len);
      MoveUp(cur, cur + n, tail);
      ghost var moved := data[..];
      Fill(cur, n);
      Opened(data[..], moved, was, cur, Blanks(n), tail);
    }

    /** Insert blanks at the cursor, as many as fit. */
    method Insert(nn: nat)
      requires Valid() && nn >= 1
      modifies this`len, data
      ensures Valid() && View() == Edit(old(View()), '@' as int, nn)
    {
      hide Edit;
      InsertIs(View(), nn);
      var n := nn;
      if n > CAP - 1 - len {
        n := CAP - 1 - len;
      }
      Parted(data[..], cur, len);
      OpenGap(n);
      len := len + n;
    }

    /** What stands behind a gap at the cursor moves down onto it. */
    method CloseGap(n: nat)
      requires Valid() && cur + n <= len
      modifies data
      ensures data[..len - n] == old(data[..cur]) + old(data[cur + n..len])
    {
      MoveDown(cur, cur + n, len - cur - n);
      Parted(data[..], cur, len - n);
    }

    /** Delete characters at the cursor. */
    method Delete(nn: nat)
      requires Valid() && nn >= 1
      modifies this`len, data
      ensures Valid() && View() == Edit(old(View()), 'P' as int, nn)
    {
      hide Edit;
      DeleteIs(View(), nn);
      var tail := len - cur;
      var n := if nn > tail then tail else nn;
      Parted(data[..], cur, len);
      Parted(data[..], cur + n, len);
      CloseGap(n);
      len := len - n;
    }

    /** Erase characters in place. */
    method Erase(nn: nat)
      requires Valid() && nn >= 1
      modifies data
      ensures Valid() && View() == Edit(old(View()), 'X' as int, nn)
    {
      var tail := len - cur;
      var n := if nn > tail then tail else nn;
      ghost var was := data[..len];
      Fill(cur, n);
      assert data[..len] == was[..cur] + Blanks(n) + was[cur + n..];
    }

    /** The final byte of a control sequence. */
    method Final(c: byte)
      requires Valid() && fs == BfCsi
      modifies this`len, this`cur, this`moved, this`fs, data
      ensures Valid() && View() == OnFinal(old(View()), c, csiN).(scan := Normal)
    {
      hide Leaves, Edits;
      var nn := if csiN > 0 then csiN else 1;
      if Leaves(c) {
        moved := true;
      } else if Edits(c) {
        FreshLine();
        EditLine(c, nn);
      }
      fs := BfNormal;
    }

    method EditLine(c: byte, nn: nat)
      requires Valid() && nn >= 1
      modifies this`len, this`cur, data
      ensures Valid() && View() == Edit(old(View()), c, nn)
    {
      if c == 'K' as int {
        assert data[..cur] == data[..len][..cur];
        len := cur;
      } else if c == 'C' as int {
        cur := if cur + nn > len then len else cur + nn;
      } else if c == 'D' as int {
        cur := if nn > cur then 0 else cur - nn;
      } else if c == 'G' as int {
        cur := if nn - 1 > len then len else nn - 1;
      } else if c == 'P' as int {
        Delete(nn);
      } else if c == '@' as int {
        Insert(nn);
      } else if c == 'X' as int {
        Erase(nn);
      }
    }

    method Normally(c: byte)
      requires Valid() && fs == BfNormal && !Overflows(View(), c)
      modifies this, data
      ensures Valid() && Follows(OnNormal(old(View()), c), View(), old(lines), lines)
    {
      hide Put;
      if c == ESC {
        fs := BfEsc;
      } else if c == NL {
        if moved {
          FreshLine();
        } else {
          Emit();
        }
      } else if c == 0x0d {
        FreshLine();
        cur := 0;
      } else if c == 0x08 {
        FreshLine();
        if cur > 0 {
          cur := cur - 1;
        }
      } else if c == TAB {
        Putch(TAB);
      } else if c < 0x20 || c == 0x7f {
      } else {
        Putch(c);
      }
    }

    method InEscape(c: byte)
      requires Valid() && fs == BfEsc
      modifies this`fs, this`moved, this`csiN, this`csiMore, this`csiPriv
      ensures Valid() && View() == OnEsc(old(View()), c)
    {
      if c == '[' as int {
        fs, csiN, csiMore, csiPriv := BfCsi, 0, false, false;
      } else if c == ']' as int {
        fs := BfOsc;
      } else if 0x20 <= c <= 0x2f {
      } else {
        if c == '8' as int || c == 'D' as int || c == 'M' as int {
          moved := true;
        }
        fs := BfNormal;
      }
    }

    /** Tells whether the byte ends a sequence that only a full-screen program sends. */
    method InCsi(c: byte) returns (trigger: bool)
      requires Valid() && fs == BfCsi
      modifies this, data
      ensures Valid() && View() == OnCsi(old(View()), c) && lines == old(lines)
      ensures trigger == Triggers(old(View()), c)
    {
      hide OnFinal;
      trigger := false;
      if '0' as int <= c <= '9' as int && !csiMore {
        csiN := csiN * 10 + (c - '0' as int);
      } else if c == ';' as int {
        csiMore := true;
      } else if c == '?' as int {
        csiPriv := true;
      } else if 0x40 <= c <= 0x7e {
        Final(c);
        trigger := c == 'h' as int && csiPriv && (csiN == 1049 || csiN == 1047 || csiN == 47 || csiN == 1004);
      }
    }

    method FilterByte(c: byte) returns (trigger: bool)
      requires Valid() && !Overflows(View(), c)
      modifies this, data
      ensures Valid() && Follows(Feed(old(View()), c), View(), old(lines), lines)
      ensures trigger == Triggers(old(View()), c)
    {
      hide OnNormal, OnEsc, OnCsi;
      trigger := false;
      match fs {
        case BfNormal => Normally(c);
        case BfEsc => InEscape(c);
        case BfCsi => trigger := InCsi(c);
        case BfOsc =>
          if c == 0x07 {
            fs := BfNormal;
          } else if c == ESC {
            fs := BfOscEsc;
          }
        case BfOscEsc =>
          if c == '\\' as int {
            fs := BfNormal;
          } else if c != ESC {
            fs := BfOsc;
          }
      }
    }

    /** basht_filter_bytes: takes all of the input, or everything up to and including the first trigger. */
    method FilterBytes(buf: seq<byte>, stop: bool) returns (took: nat, trigger: bool)
      requires Valid() && MarkFits(View(), buf)
      modifies this, data
      ensures Valid() && took <= |buf| && Follows(Run(old(View()), buf[..took]), View(), old(lines), lines)
      ensures !trigger ==> took == |buf|
      ensures trigger ==> stop && took > 0 && TriggersAt(old(View()), buf, took - 1)
      ensures forall i :: 0 <= i < took && stop && TriggersAt(old(View()), buf, i) ==> trigger && i == took - 1
    {
      hide Run, Feed, Overflows, Triggers;
      ghost var t := View();
      ghost var was := lines;
      RunNothing(t);
      Units(lines);
      var i := 0;
      while i < |buf|
        invariant 0 <= i <= |buf| && Valid() && Follows(Run(t, buf[..i]), View(), was, lines)
        invariant forall j :: 0 <= j < i && stop ==> !TriggersAt(t, buf, j)
      {
        RunMore(t, buf, i);
        ghost var r := Run(t, buf[..i]);
        assert !OverflowsAt(t, buf, i);
        var hit := FilterByte(buf[i]);
        Assoc(was, r.lines, Feed(r.t, buf[i]).lines);
        i := i + 1;
        if hit && stop {
          return i, true;
        }
      }
      took, trigger := |buf|, false;
    }

    /** The loop of drain_cap_out: stopping at each trigger and going on behind it is filtering all at once. */
    method FilterAll(buf: seq<byte>) returns (triggers: nat)
      requires Valid() && MarkFits(View(), buf)
      modifies this, data
      ensures Valid() && Follows(Run(old(View()), buf), View(), old(lines), lines)
    {
      hide Run, Feed, Overflows, Triggers;
      ghost var t := View();
      ghost var was := lines;
      RunNothing(t);
      Units(lines);
      var done := 0;
      triggers := 0;
      while done < |buf|
        invariant 0 <= done <= |buf| && Valid() && Follows(Run(t, buf[..done]), View(), was, lines)
      {
        ghost var r := Run(t, buf[..done]);
        MarkFitsRest(t, buf, done);
        var took, trig := FilterBytes(buf[done..], true);
        RunSplit(t, buf[..done], buf[done..][..took]);
        assert buf[..done] + buf[done..][..took] == buf[..done + took];
        Assoc(was, r.lines, Run(r.t, buf[done..][..took]).lines);
        done := done + took;
        if trig {
          triggers := triggers + 1;
        }
      }
      assert buf[..done] == buf;
    }

    /** basht_filter_flush. */
    method FlushLine()
      requires Valid()
      modifies this`len, this`cur, this`moved, this`fs, this`lines
      ensures Valid() && Follows(Flush(old(View())), View(), old(lines), lines)
    {
      if moved {
        len, cur := 0, 0;
      } else if len > 0 {
        Emit();
      }
      moved := false;
      fs := BfNormal;
    }
  }

  lemma InsertIs(t: Term, nn: nat)
    requires t.Valid() && nn >= 1
    ensures Edit(t, '@' as int, nn)
      == t.(text := t.text[..t.cur] + Blanks(Min(nn, CAP - 1 - |t.text|)) + t.text[t.cur..])
  {
  }

  lemma DeleteIs(t: Term, nn: nat)
    requires t.Valid() && nn >= 1
    ensures Edit(t, 'P' as int, nn) == t.(text := t.text[..t.cur] + t.text[t.cur + Min(nn, |t.text| - t.cur)..])
  {
  }

  /** A piece of the buffer as its two sides. */
  lemma Parted(d: seq<byte>, i: nat, n: nat)
    requires i <= n <= |d|
    ensures d[..n] == d[..i] + d[i..n] && d[..n][..i] == d[..i] && d[..n][i..] == d[i..n]
  {
  }

  /** What stood behind the cursor is moved up, and a gap filled. */
  lemma Opened(now: seq<byte>, moved: seq<byte>, was: seq<byte>, cur: nat, gap: seq<byte>, tail: nat)
    requires cur + |gap| + tail <= |moved| && |was| == cur + tail
    requires now == moved[..cur] + gap + moved[cur + |gap|..]
    requires moved[..cur] == was[..cur] && moved[cur + |gap|..cur + |gap| + tail] == was[cur..]
    ensures now[..cur + |gap| + tail] == was[..cur] + gap + was[cur..]
  {
    assert moved[cur + |gap|..][..tail] == moved[cur + |gap|..cur + |gap| + tail];
  }

  ghost predicate Follows(r: Out, t: Term, was: seq<seq<byte>>, lines: seq<seq<byte>>) {
    t == r.t && lines == was + r.lines
  }
}
