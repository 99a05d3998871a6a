/** basht_display.c: tagged lines through a bottom row that one stream owns. */
module Display {
  import opened Wrappers
  import opened Seqs
  import opened Decimal
  import opened LineTerminal
  import opened Screen

  const NAME_MAX := 64
  const OUT := CAP + NAME_MAX + 64
  const INT_MAX := 0x7fff_ffff

  /** A stream as the display knows it: which one it is, what its tag says, and the task whose lines it counts. */
  datatype Stream = Stream(slot: nat, name: seq<byte>, id: int, mark: Option<byte>, pid: int, task: Option<nat>) {
    predicate Valid() {
      && |name| < NAME_MAX && Text(name) && (mark.Some? ==> Printable(mark.value))
      && -INT_MAX <= id <= INT_MAX && -INT_MAX <= pid <= INT_MAX
    }
  }

  /** The line that a stream is in the middle of. */
  datatype Partial = Partial(text: seq<byte>, cur: nat) {
    predicate Valid() { cur <= |text| < CAP && Tabbed(text) }
  }

  function Ascii(s: string): (r: seq<byte>)
    ensures |r| == |s|
  {
    seq(|s|, k requires 0 <= k < |s| => if 0x20 <= s[k] as int < 0x7f then s[k] as int else '?' as int)
  }

  /** "[name:id:pid:line] ", the mark right behind the id. */
  function Tag(ts: Stream, line: int): seq<byte> {
    Ascii("[") + ts.name + Ascii(":" + Itos(ts.id)) + (if ts.mark.Some? then [ts.mark.value] else [])
      + Ascii(":" + Itos(ts.pid) + ":" + Itos(line) + "] ")
  }

  lemma {:induction false} NatTextLength(n: nat, k: nat, limit: nat)
    requires n < limit && k >= 1 && limit == Power10(k)
    ensures |NatText(n)| <= k
    decreases k
  {
    if n >= 10 {
      NatTextLength(n / 10, k - 1, Power10(k - 1));
    }
  }

  function Power10(k: nat): nat {
    if k == 0 then 1 else 10 * Power10(k - 1)
  }

  lemma ItosLength(n: int)
    requires -INT_MAX <= n <= INT_MAX
    ensures |Itos(n)| <= 11
  {
    assert Power10(10) == 1_00000_00000 by {
      assert Power10(5) == 1_00000;
      assert Power10(10) == 10 * Power10(9) && Power10(9) == 10 * Power10(8) && Power10(8) == 10 * Power10(7)
        && Power10(7) == 10 * Power10(6) && Power10(6) == 10 * Power10(5);
    }
    NatTextLength(if n < 0 then -n else n, 10, 1_00000_00000);
  }

  lemma TagFits(ts: Stream, line: int)
    requires ts.Valid() && -INT_MAX <= line <= INT_MAX
    ensures Text(Tag(ts, line)) && 8 <= |Tag(ts, line)| <= 112
    ensures Tag(ts, line)[0] == '[' as int
  {
    hide Itos;
    ItosLength(ts.id);
    ItosLength(ts.pid);
    ItosLength(line);
  }

  /** The longest prefix that fits into so many columns. */
  function Fit(s: seq<byte>, budget: nat): (i: nat)
    ensures i <= |s| && Cols(s[..i]) <= budget
  {
    if Cols(s) <= budget then
      Whole(s);
      |s|
    else
      var init := s[..|s| - 1];
      assert forall j :: 0 <= j <= |init| ==> init[..j] == s[..j];
      Fit(init, budget)
  }

  lemma {:induction false} FitIs(s: seq<byte>, budget: nat, i: nat)
    requires i <= |s| && Cols(s[..i]) <= budget && (i < |s| ==> Cols(s[..i + 1]) > budget)
    ensures Fit(s, budget) == i
  {
    Whole(s);
    if i < |s| {
      ColsGrow(s, i + 1, |s|);
      var init := s[..|s| - 1];
      assert init[..i] == s[..i] && (i < |init| ==> init[..i + 1] == s[..i + 1]);
      FitIs(init, budget, i);
    }
  }

  method CountCols(s: seq<byte>) returns (c: nat)
    ensures c == Cols(s)
  {
    var i := 0;
    c := 0;
    while i < |s|
      invariant 0 <= i <= |s| && c == Cols(s[..i])
    {
      assert s[..i + 1][..i] == s[..i];
      if Lead(s[i]) {
        c := c + 1;
      }
      i := i + 1;
    }
    Whole(s);
  }

  method ClampCols(s: seq<byte>, budget: nat) returns (i: nat, c: nat)
    ensures i == Fit(s, budget) && c == Cols(s[..i])
  {
    i, c := 0, 0;
    while i < |s|
      invariant 0 <= i <= |s| && c == Cols(s[..i]) <= budget
    {
      assert s[..i + 1][..i] == s[..i];
      if Lead(s[i]) {
        if c == budget {
          break;
        }
        c := c + 1;
      }
      i := i + 1;
    }
    Whole(s);
    FitIs(s, budget, i);
  }
}
