/** The real terminal as the display sees it: rows that have scrolled up, the row the cursor is on, and the
    cursor's column. Every character is one column wide. */
module Screen {
  import opened Seqs
  import opened LineTerminal

  /** A character: its first byte and the continuation bytes of UTF-8 behind it. */
  type Cell = seq<byte>

  const CR: byte := 0x0d
  const BS: byte := 0x08
  const EMPTY: Cell := [BLANK]

  predicate Lead(b: byte) { !(0x80 <= b < 0xc0) }

  /** A byte of a character, no control. */
  predicate Printable(b: byte) { b >= 0x20 && b != 0x7f }

  predicate Text(s: seq<byte>) { forall b <- s :: Printable(b) }

  /** Tabs may be in it as well. */
  predicate Tabbed(s: seq<byte>) { forall b <- s :: Printable(b) || b == TAB }

  datatype Screen = Screen(rows: seq<seq<Cell>>, row: seq<Cell>, col: nat) {
    predicate Valid() { col <= |row| && |row| > 0 }
  }

  function EmptyRow(width: nat): (r: seq<Cell>)
    ensures |r| == width
  {
    seq(width, _ => EMPTY)
  }

  /** The column that a tab leads to from column `c`: every eighth is a tab stop, and the last one. */
  function Stop(c: nat, width: nat): (t: nat)
    ensures c <= t && (c < width ==> t < width)
  {
    if c >= width then c else if c / 8 * 8 + 8 < width then c / 8 * 8 + 8 else width - 1
  }

  /** One byte arrives. A row that is full breaks when the next character comes. A tab only moves the cursor. */
  function Type(s: Screen, b: byte): (t: Screen)
    requires s.Valid()
    ensures t.Valid() && |t.row| == |s.row|
  {
    if b == CR then s.(col := 0)
    else if b == BS then s.(col := if s.col > 0 then s.col - 1 else 0)
    else if b == NL then Screen(s.rows + [s.row], EmptyRow(|s.row|), 0)
    else if b == TAB then s.(col := Stop(s.col, |s.row|))
    else if !Lead(b) then if s.col > 0 then s.(row := s.row[s.col - 1 := s.row[s.col - 1] + [b]]) else s
    else if s.col == |s.row| then Screen(s.rows + [s.row], EmptyRow(|s.row|)[0 := [b]], 1)
    else s.(row := s.row[s.col := [b]], col := s.col + 1)
  }

  function Written(s: Screen, out: seq<byte>): (t: Screen)
    requires s.Valid()
    ensures t.Valid() && |t.row| == |s.row|
  {
    if out == [] then s else Type(Written(s, out[..|out| - 1]), out[|out| - 1])
  }

  /** The characters of a text. */
  function Cells(s: seq<byte>): seq<Cell> {
    if s == [] then []
    else
      var before, b := Cells(s[..|s| - 1]), s[|s| - 1];
      if Lead(b) then before + [[b]]
      else if before == [] then []
      else before[|before| - 1 := before[|before| - 1] + [b]]
  }

  /** Columns, counted as the display does. */
  function Cols(s: seq<byte>): nat {
    if s == [] then 0 else Cols(s[..|s| - 1]) + if Lead(s[|s| - 1]) then 1 else 0
  }

  /** Characters filled into rows: those that are full, and the one behind them. */
  function Filled(cells: seq<Cell>, width: nat): (r: (seq<seq<Cell>>, seq<Cell>))
    requires width > 0
    ensures |r.1| <= width && (cells != [] ==> r.1 != [])
  {
    if cells == [] then ([], [])
    else
      var (full, last) := Filled(cells[..|cells| - 1], width);
      if |last| == width then (full + [last], [cells[|cells| - 1]]) else (full, last + [cells[|cells| - 1]])
  }

  function Padded(cells: seq<Cell>, width: nat): (r: seq<Cell>)
    requires |cells| <= width
    ensures |r| == width
  {
    cells + EmptyRow(width - |cells|)
  }

  /** A text laid out in rows: those that are full, and the cells of the one behind them. */
  function Laid(s: seq<byte>, width: nat): (r: (seq<seq<Cell>>, seq<Cell>))
    requires width > 0
    ensures |r.1| <= width
  {
    if s == [] then ([], []) else LaidOne(Laid(s[..|s| - 1], width), s[|s| - 1], width)
  }

  function LaidOne(p: (seq<seq<Cell>>, seq<Cell>), b: byte, width: nat): (r: (seq<seq<Cell>>, seq<Cell>))
    requires width > 0 && |p.1| <= width
    ensures |r.1| <= width
  {
    var (full, last) := p;
    if b == TAB then (full, last + EmptyRow(Stop(|last|, width) - |last|))
    else if Lead(b) then if |last| == width then (full + [last], [[b]]) else (full, last + [[b]])
    else if last == [] then p
    else (full, last[|last| - 1 := last[|last| - 1] + [b]])
  }

  /** The rows that a line takes. */
  function RowsOf(line: seq<byte>, width: nat): seq<seq<Cell>>
    requires width > 0
  {
    var (full, last) := Laid(line, width);
    full + [Padded(last, width)]
  }

  lemma FilledNone(w: nat)
    requires w > 0
    ensures Filled([], w) == ([], [])
  {
  }

  lemma FilledMore(cells: seq<Cell>, c: Cell, w: nat)
    requires w > 0
    ensures var (full, last) := Filled(cells, w);
      Filled(cells + [c], w) == if |last| == w then (full + [last], [c]) else (full, last + [c])
  {
    assert (cells + [c])[..|cells|] == cells;
  }

  /** They are the line's characters, in order: full rows and a last one. */
  lemma {:induction false} FilledHolds(cells: seq<Cell>, width: nat)
    requires width > 0
    ensures var (full, last) := Filled(cells, width);
      Flat(full) + last == cells && forall row <- full :: |row| == width
  {
    hide Filled, Flat;
    if cells == [] {
      FilledNone(width);
      assert Flat<Cell>([]) == [] by {
        FlatNone<Cell>();
      }
    } else {
      var init, c := cells[..|cells| - 1], cells[|cells| - 1];
      assert cells == init + [c];
      FilledHolds(init, width);
      FilledMore(init, c, width);
      var (full, last) := Filled(init, width);
      FlatMore(full, last);
      Assoc(Flat(full), last, [c]);
    }
  }

  lemma {:induction false} CellsAreCols(s: seq<byte>)
    ensures |Cells(s)| == Cols(s)
  {
    if s != [] {
      CellsAreCols(s[..|s| - 1]);
    }
  }

  lemma {:induction false} ColsSplit(a: seq<byte>, b: seq<byte>)
    ensures Cols(a + b) == Cols(a) + Cols(b)
    decreases |b|
  {
    if b == [] {
      Units(a);
    } else {
      ColsSplit(a, b[..|b| - 1]);
      assert (a + b)[..|a + b| - 1] == a + b[..|b| - 1];
    }
  }

  lemma ColsGrow(s: seq<byte>, i: nat, j: nat)
    requires i <= j <= |s|
    ensures Cols(s[..i]) <= Cols(s[..j]) && Cols(s[..j]) - Cols(s[..i]) == Cols(s[i..j])
  {
    assert s[..j] == s[..i] + s[i..j];
    ColsSplit(s[..i], s[i..j]);
  }

  lemma {:induction false} WrittenSplit(s: Screen, a: seq<byte>, b: seq<byte>)
    requires s.Valid()
    ensures Written(s, a + b) == Written(Written(s, a), b)
    decreases |b|
  {
    hide Type;
    if b == [] {
      Units(a);
    } else {
      WrittenSplit(s, a, b[..|b| - 1]);
      assert (a + b)[..|a + b| - 1] == a + b[..|b| - 1];
    }
  }

  /** A screen whose cursor is at the start of an empty row. */
  predicate AtStart(s: Screen) { s.Valid() && s.col == 0 && s.row == EmptyRow(|s.row|) }

  /** Writing text from the start of an empty row lays it out there. */
  lemma {:induction false} WrittenLaid(s: Screen, text: seq<byte>)
    requires AtStart(s) && Tabbed(text)
    ensures var w := |s.row|;
      var (full, last) := Laid(text, w);
      Written(s, text) == Screen(s.rows + full, Padded(last, w), |last|)
  {
    hide LaidOne, EmptyRow, Padded;
    var w := |s.row|;
    if text == [] {
      NothingLaid(w);
      Units(s.rows);
    } else {
      var init, b := text[..|text| - 1], text[|text| - 1];
      assert b in text && forall x <- init :: x in text;
      WrittenLaid(s, init);
      var (full, last) := Laid(init, w);
      LaidTyped(s.rows, full, last, b, w);
    }
  }

  lemma NothingLaid(w: nat)
    requires w > 0
    ensures Laid([], w) == ([], []) && Padded([], w) == EmptyRow(w)
  {
  }

  lemma LaidTyped(rows: seq<seq<Cell>>, full: seq<seq<Cell>>, last: seq<Cell>, b: byte, w: nat)
    requires 0 < w && |last| <= w && (Printable(b) || b == TAB)
    ensures var r := LaidOne((full, last), b, w);
      Type(Screen(rows + full, Padded(last, w), |last|), b) == Screen(rows + r.0, Padded(r.1, w), |r.1|)
  {
    hide EmptyRow, Padded;
    Assoc(rows, full, [last]);
    if b == TAB {
      PaddedMore(last, Stop(|last|, w) - |last|, w);
    } else {
      Typed(rows + full, last, b, w);
    }
  }

  lemma PaddedMore(last: seq<Cell>, k: nat, w: nat)
    requires |last| + k <= w
    ensures Padded(last + EmptyRow(k), w) == Padded(last, w) && |EmptyRow(k)| == k
  {
  }

  /** Text without tabs simply fills the rows with its characters. */
  lemma {:induction false} LaidText(text: seq<byte>, w: nat)
    requires Text(text) && w > 0
    ensures Laid(text, w) == Filled(Cells(text), w)
  {
    hide Filled, Cells;
    if text == [] {
      NothingFilled(w);
    } else {
      var init, b := text[..|text| - 1], text[|text| - 1];
      assert b in text && (forall x <- init :: x in text) && text == init + [b];
      LaidText(init, w);
      TextMore(init, b, w);
    }
  }

  /** The text with each tab replaced by the blanks that it stands for. */
  function Expanded(s: seq<byte>, width: nat): seq<byte>
    requires width > 0
  {
    if s == [] then []
    else
      var init, b := s[..|s| - 1], s[|s| - 1];
      var c := |Laid(init, width).1|;
      Expanded(init, width) + if b == TAB then Blanks(Stop(c, width) - c) else [b]
  }

  /** Tabs are laid out as the blanks up to their tab stops: the rows of any line are filled with the characters
      of the line with its tabs expanded. */
  lemma {:induction false} LaidExpanded(s: seq<byte>, w: nat)
    requires Tabbed(s) && w > 0
    ensures Text(Expanded(s, w)) && Laid(Expanded(s, w), w) == Laid(s, w)
    ensures Laid(s, w) == Filled(Cells(Expanded(s, w)), w)
  {
    hide Filled, Cells, Text, Stop, LaidOne;
    NoText();
    if s != [] {
      var init, b := s[..|s| - 1], s[|s| - 1];
      assert b in s && forall x <- init :: x in s;
      LaidExpanded(init, w);
      var e := Expanded(init, w);
      var (full, last) := Laid(init, w);
      if b == TAB {
        var k := Stop(|last|, w) - |last|;
        TabLaid(full, last, w);
        LaidBlanks(e, k, w);
        TextBoth(e, Blanks(k));
      } else {
        TextBoth(e, [b]);
        assert (e + [b])[..|e|] == e;
      }
    }
    LaidText(Expanded(s, w), w);
  }

  lemma NoText()
    ensures Text([])
  {
  }

  lemma TabLaid(full: seq<seq<Cell>>, last: seq<Cell>, w: nat)
    requires 0 < w && |last| <= w
    ensures var k := Stop(|last|, w) - |last|;
      LaidOne((full, last), TAB, w) == (full, last + EmptyRow(k)) && |last| + k <= w && Text(Blanks(k))
  {
  }

  lemma TextBoth(a: seq<byte>, b: seq<byte>)
    requires Text(a) && forall x <- b :: Printable(x)
    ensures Text(a + b)
  {
  }

  lemma {:induction false} LaidBlanks(s: seq<byte>, k: nat, w: nat)
    requires w > 0 && |Laid(s, w).1| + k <= w
    ensures var (full, last) := Laid(s, w);
      Laid(s + Blanks(k), w) == (full, last + EmptyRow(k))
  {
    var (full, last) := Laid(s, w);
    if k == 0 {
      Units(s);
      Units(last);
    } else {
      LaidBlanks(s, k - 1, w);
      assert (s + Blanks(k))[..|s + Blanks(k)| - 1] == s + Blanks(k - 1);
      assert last + EmptyRow(k - 1) + [EMPTY] == last + EmptyRow(k);
    }
  }

  /** Writing text without tabs from the start of an empty row fills rows with its characters. */
  lemma WrittenText(s: Screen, text: seq<byte>)
    requires AtStart(s) && Text(text)
    ensures var w := |s.row|;
      var (full, last) := Filled(Cells(text), w);
      Written(s, text) == Screen(s.rows + full, Padded(last, w), |last|)
  {
    hide Filled, Cells, EmptyRow, Padded, Laid, Written;
    WrittenLaid(s, text);
    LaidText(text, |s.row|);
  }

  lemma NothingFilled(w: nat)
    requires w > 0
    ensures Filled(Cells([]), w) == ([], []) && Padded([], w) == EmptyRow(w)
  {
  }

  /** What one more byte does to filled rows. */
  lemma TextMore(init: seq<byte>, b: byte, w: nat)
    requires w > 0
    ensures var (full, last) := Filled(Cells(init), w);
      Filled(Cells(init + [b]), w) ==
        if Lead(b) then (if |last| == w then (full + [last], [[b]]) else (full, last + [[b]]))
        else if last == [] then (full, last)
        else (full, last[|last| - 1 := last[|last| - 1] + [b]])
  {
    hide Filled;
    var before := Cells(init);
    assert (init + [b])[..|init|] == init;
    if Lead(b) {
      FilledMore(before, [b], w);
    } else if before == [] {
      FilledNone(w);
    } else {
      var n := |before| - 1;
      FilledMore(before[..n], before[n], w);
      FilledMore(before[..n], before[n] + [b], w);
      var (full0, last0) := Filled(before[..n], w);
      var x := before[n] + [b];
      assert [before[n]][0 := x] == [x] && (last0 + [before[n]])[|last0| := x] == last0 + [x];
      assert before == before[..n] + [before[n]];
      assert before[n := before[n] + [b]] == before[..n] + [before[n] + [b]];
    }
  }

  /** What typing it does to the row. */
  lemma Typed(rows: seq<seq<Cell>>, last: seq<Cell>, b: byte, w: nat)
    requires 0 < w && |last| <= w && Printable(b)
    ensures Type(Screen(rows, Padded(last, w), |last|), b) ==
      if Lead(b) then
        (if |last| == w then Screen(rows + [last], Padded([[b]], w), 1)
         else Screen(rows, Padded(last + [[b]], w), |last| + 1))
      else if last == [] then Screen(rows, Padded(last, w), |last|)
      else Screen(rows, Padded(last[|last| - 1 := last[|last| - 1] + [b]], w), |last|)
  {
    var row := Padded(last, w);
    if Lead(b) {
      if |last| == w {
        Units(last);
        assert EmptyRow(w)[0 := [b]] == Padded([[b]], w);
      } else {
        assert row[|last| := [b]] == Padded(last + [[b]], w);
      }
    } else if last != [] {
      var k := |last| - 1;
      assert row[k := row[k] + [b]] == Padded(last[k := last[k] + [b]], w);
    }
  }
}
