/** Sequences of operations on arrays: both representations do what the entries, and a plain map, say. */
module ArrayRuns {
  import opened Wrappers
  import opened ArraySpec
  import ElementRing
  import SparseArray
  import DenseArray

  datatype Op =
    | Insert(i: nat, v: Value)
    | Remove(at: int)
    | Reference(of: int)
    | Shift(n: int, dispose: bool)
    | RShift(n: int, first: Value)
    | Copy

  datatype Outcome = Done | Removed(e: Option<Entry>) | Looked(v: Value) | Counted(n: int)

  /** The operations that both representations share. */
  predicate Common(op: Op) { op.Insert? || op.Remove? || op.Reference? }

  // ---------------------------------------------------------------- on entries

  function After(s: seq<Entry>, op: Op): seq<Entry> {
    match op
    case Insert(i, v) => Put(s, i, v)
    case Remove(i) => Unset(s, i)
    case Reference(_) => s
    case Shift(n, _) => Shifted(s, n)
    case RShift(n, v) => RShifted(s, n, v)
    case Copy => s
  }

  function Answer(s: seq<Entry>, op: Op): Outcome {
    match op
    case Insert(_, _) => Done
    case Remove(i) => Removed(match Find(s, i) case Some(v) => Some(Entry(i, v)) case None => None)
    case Reference(i) => Looked(match Find(s, i) case Some(v) => v case None => None)
    case Shift(_, _) => Done
    case RShift(n, v) => Counted(|RShifted(s, n, v)|)
    case Copy => Done
  }

  function Final(s: seq<Entry>, ops: seq<Op>): seq<Entry> {
    if ops == [] then s else After(Final(s, ops[..|ops| - 1]), ops[|ops| - 1])
  }

  function Answers(s: seq<Entry>, ops: seq<Op>): seq<Outcome> {
    if ops == [] then []
    else Answers(s, ops[..|ops| - 1]) + [Answer(Final(s, ops[..|ops| - 1]), ops[|ops| - 1])]
  }

  // ---------------------------------------------------------------- on maps

  /** How many indices are smaller. */
  ghost function Lower(m: map<int, Value>, i: int): nat {
    |set x | x in m && x < i|
  }

  /** The indices that are `n` higher in `d`. */
  ghost function Lowered(d: set<int>, n: int): (r: set<int>)
    ensures forall y :: y in r <==> y + n in d
  {
    var r := set x | x in d :: x - n;
    assert forall y | y + n in d :: y in r by {
      forall y | y + n in d
        ensures y in r
      {
        assert (y + n) - n == y;
      }
    }
    r
  }

  /** The n smallest indices go, the others move n down. */
  ghost function MapShifted(m: map<int, Value>, n: int): map<int, Value> {
    map y | y in Lowered(m.Keys, n) && Lower(m, y + n) >= n :: m[y + n]
  }

  /** All indices move d down. */
  ghost function MapMoved(m: map<int, Value>, d: int): map<int, Value> {
    map y | y in Lowered(m.Keys, d) :: m[y + d]
  }

  ghost function MapAfter(m: map<int, Value>, op: Op): map<int, Value> {
    match op
    case Insert(i, v) => m[i := v]
    case Remove(i) => m - {i}
    case Reference(_) => m
    case Shift(n, _) => if n <= 0 then m else MapShifted(m, n)
    case RShift(n, v) => if n <= 0 then m else if v == None then MapMoved(m, -n) else MapMoved(m, -n)[0 := v]
    case Copy => m
  }

  ghost function MapAnswer(m: map<int, Value>, op: Op): Outcome {
    match op
    case Insert(_, _) => Done
    case Remove(i) => Removed(if i in m then Some(Entry(i, m[i])) else None)
    case Reference(i) => Looked(if i in m then m[i] else None)
    case Shift(_, _) => Done
    case RShift(n, v) => Counted(|MapAfter(m, op)|)
    case Copy => Done
  }

  ghost function MapFinal(m: map<int, Value>, ops: seq<Op>): map<int, Value> {
    if ops == [] then m else MapAfter(MapFinal(m, ops[..|ops| - 1]), ops[|ops| - 1])
  }

  ghost function MapAnswers(m: map<int, Value>, ops: seq<Op>): seq<Outcome> {
    if ops == [] then []
    else MapAnswers(m, ops[..|ops| - 1]) + [MapAnswer(MapFinal(m, ops[..|ops| - 1]), ops[|ops| - 1])]
  }

  /** The first k indices. */
  ghost function Firsts(s: seq<Entry>, k: nat): set<int>
    requires k <= |s|
  {
    if k == 0 then {} else Firsts(s, k - 1) + {s[k - 1].ind}
  }

  lemma {:induction false} FirstsAre(s: seq<Entry>, k: nat)
    requires Ascending(s) && k <= |s|
    ensures |Firsts(s, k)| == k
    ensures forall j :: 0 <= j < k ==> s[j].ind in Firsts(s, k)
    ensures forall x <- Firsts(s, k) :: exists j :: 0 <= j < k && s[j].ind == x
  {
    if k > 0 {
      FirstsAre(s, k - 1);
    }
  }

  lemma LowerIsPlace(s: seq<Entry>, k: nat)
    requires Ascending(s) && k < |s|
    ensures Lower(MapOf(s), s[k].ind) == k
  {
    hide MapOf, Firsts;
    var m, i := MapOf(s), s[k].ind;
    FirstsAre(s, k);
    forall x | x in m && x < i
      ensures x in Firsts(s, k)
    {
      var j := FromMap(s, x);
    }
    forall x | x in Firsts(s, k)
      ensures x in m && x < i
    {
      var j :| 0 <= j < k && s[j].ind == x;
      InMap(s, j);
    }
    assert (set x | x in m && x < i) == Firsts(s, k);
  }

  lemma SizeOfMap(s: seq<Entry>)
    requires Ascending(s)
    ensures |MapOf(s)| == |s|
  {
    hide MapOf, Firsts;
    var m := MapOf(s);
    FirstsAre(s, |s|);
    forall x | x in m
      ensures x in Firsts(s, |s|)
    {
      var j := FromMap(s, x);
    }
    forall x | x in Firsts(s, |s|)
      ensures x in m
    {
      var j :| 0 <= j < |s| && s[j].ind == x;
      InMap(s, j);
    }
    assert m.Keys == Firsts(s, |s|);
  }

  lemma ShiftIsMap(s: seq<Entry>, n: int)
    requires Ascending(s) && n > 0
    ensures Ascending(Shifted(s, n)) && MapOf(Shifted(s, n)) == MapShifted(MapOf(s), n)
  {
    hide Shifted, MapOf, Lower, Lowered, Ascending;
    ShiftedAscending(s, n);
    var t, m := Shifted(s, n), MapOf(s);
    var r := MapShifted(m, n);
    ShiftedPlaces(s, n);
    forall y | y in MapOf(t)
      ensures y in r && r[y] == MapOf(t)[y]
    {
      var k := FromMap(t, y);
      InMap(t, k);
      InMap(s, k + n);
      LowerIsPlace(s, k + n);
    }
    forall y | y in r
      ensures y in MapOf(t)
    {
      var k := FromMap(s, y + n);
      LowerIsPlace(s, k);
      InMap(t, k - n);
    }
  }

  lemma RShiftIsMap(s: seq<Entry>, n: int, v: Value)
    requires Ascending(s) && n > 0
    ensures Ascending(RShifted(s, n, v)) && MapOf(RShifted(s, n, v)) == MapAfter(MapOf(s), RShift(n, v))
  {
    hide MapOf, RShifted, MapAfter, Ascending;
    RShiftedAscending(s, n, v);
    var t, r := RShifted(s, n, v), MapAfter(MapOf(s), RShift(n, v));
    forall y | y in MapOf(t)
      ensures y in r && r[y] == MapOf(t)[y]
    {
      RaisedInMap(s, n, v, y);
    }
    forall y | y in r
      ensures y in MapOf(t)
    {
      RaisedFromMap(s, n, v, y);
    }
  }

  lemma RaisedInMap(s: seq<Entry>, n: int, v: Value, y: int)
    requires Ascending(s) && n > 0 && Ascending(RShifted(s, n, v)) && y in MapOf(RShifted(s, n, v))
    ensures y in MapAfter(MapOf(s), RShift(n, v))
    ensures MapAfter(MapOf(s), RShift(n, v))[y] == MapOf(RShifted(s, n, v))[y]
  {
    hide MapOf, RShifted, MapAfter, Ascending;
    RShiftedPlaces(s, n, v);
    MapRaised(MapOf(s), n, v, y);
    var k := FromMap(RShifted(s, n, v), y);
    InMap(RShifted(s, n, v), k);
    var d := if v == None then 0 else 1;
    if k >= d {
      InMap(s, k - d);
      NotNegative(s, k - d);
    }
  }

  lemma RaisedFromMap(s: seq<Entry>, n: int, v: Value, y: int)
    requires Ascending(s) && n > 0 && Ascending(RShifted(s, n, v)) && y in MapAfter(MapOf(s), RShift(n, v))
    ensures y in MapOf(RShifted(s, n, v))
  {
    hide MapOf, RShifted, MapAfter, Ascending;
    RShiftedPlaces(s, n, v);
    MapRaised(MapOf(s), n, v, y);
    if v != None && y == 0 {
      InMap(RShifted(s, n, v), 0);
    } else {
      var k := FromMap(s, y - n);
      InMap(RShifted(s, n, v), if v == None then k else k + 1);
    }
  }

  lemma MapRaised(m: map<int, Value>, n: int, v: Value, y: int)
    requires n > 0
    ensures var r := MapAfter(m, RShift(n, v));
      && (y in r <==> (v != None && y == 0) || y - n in m)
      && (y in r ==> r[y] == if v != None && y == 0 then v else m[y - n])
  {
    hide Lowered;
  }

  lemma NotNegative(s: seq<Entry>, k: nat)
    requires Ascending(s) && k < |s|
    ensures s[k].ind >= 0
  {
  }

  /** Each operation does to the map what it does to the entries. */
  lemma AfterIsMap(s: seq<Entry>, op: Op)
    requires Ascending(s)
    ensures Ascending(After(s, op))
    ensures MapOf(After(s, op)) == MapAfter(MapOf(s), op)
    ensures Answer(s, op) == MapAnswer(MapOf(s), op)
  {
    hide MapOf, Put, Unset, Find, Ascending, MapMoved, MapShifted;
    match op
    case Insert(i, v) =>
      PutIsUpdate(s, i, v);
    case Remove(i) =>
      UnsetIsRemoval(s, i);
      FindIsLookup(s, i);
    case Reference(i) =>
      FindIsLookup(s, i);
    case Shift(n, _) =>
      if n > 0 {
        ShiftIsMap(s, n);
      }
    case RShift(n, v) =>
      if n > 0 {
        RShiftIsMap(s, n, v);
      }
      SizeOfMap(After(s, op));
    case Copy =>
  }

  /** Over any sequence of operations the entries and the map stay the same array and give the same answers. */
  lemma {:induction false} RunIsMap(s: seq<Entry>, ops: seq<Op>)
    requires Ascending(s)
    ensures Ascending(Final(s, ops)) && MapOf(Final(s, ops)) == MapFinal(MapOf(s), ops)
    ensures Answers(s, ops) == MapAnswers(MapOf(s), ops)
  {
    hide MapOf, After, Answer, MapAfter, MapAnswer, Ascending;
    if ops != [] {
      var init := ops[..|ops| - 1];
      RunIsMap(s, init);
      AfterIsMap(Final(s, init), ops[|ops| - 1]);
    }
  }

  // ---------------------------------------------------------------- on both representations

  lemma FinalOfMore(s: seq<Entry>, ops: seq<Op>, k: nat)
    requires k < |ops|
    ensures Final(s, ops[..k + 1]) == After(Final(s, ops[..k]), ops[k])
    ensures Answers(s, ops[..k + 1]) == Answers(s, ops[..k]) + [Answer(Final(s, ops[..k]), ops[k])]
  {
    assert ops[..k + 1][..k] == ops[..k];
  }

  /** Run operations on the linked list. */
  method RunSparse(ops: seq<Op>) returns (answers: seq<Outcome>, values: seq<Value>, keys: seq<string>, size: int)
    ensures answers == Answers([], ops)
    ensures values == Values(Final([], ops)) && keys == KeyTexts(Final([], ops)) && size == |Final([], ops)|
  {
    hide After, Answer, Put, Unset, Find, Shifted, RShifted;
    hide ElementRing.Linked, ElementRing.Held, ElementRing.Ordered;
    var a := new SparseArray.Array();
    answers := [];
    for k := 0 to |ops|
      invariant a.Valid() && fresh(a) && fresh(a.ring)
      invariant a.Entries() == Final([], ops[..k]) && answers == Answers([], ops[..k])
    {
      FinalOfMore([], ops, k);
      var answer;
      a, answer := StepSparse(a, ops[k]);
      answers := answers + [answer];
    }
    assert ops[..|ops|] == ops;
    values := a.ToWordList();
    keys := a.KeysToWordList();
    size := a.numElements;
  }

  method StepSparse(a: SparseArray.Array, op: Op) returns (b: SparseArray.Array, answer: Outcome)
    requires a.Valid()
    modifies a, a.ring
    ensures b.Valid() && (b == a || fresh(b))
    ensures forall k :: 0 <= k < |b.ring| ==> b.ring[k] in old(a.ring) || fresh(b.ring[k])
    ensures b.Entries() == After(old(a.Entries()), op) && answer == Answer(old(a.Entries()), op)
  {
    hide Put, Unset, Find, Shifted, RShifted;
    hide ElementRing.Linked, ElementRing.Held, ElementRing.Ordered;
    b, answer := a, Done;
    match op {
    case Insert(i, v) =>
      var r := a.Insert(i, v);
    case Remove(i) =>
      var r := a.Remove(i);
      answer := Removed(if r == null then None else Some(Entry(r.ind, r.value)));
    case Reference(i) =>
      var v := a.Reference(i);
      answer := Looked(v);
    case Shift(n, dispose) =>
      var ret, gone := a.Shift(n, dispose);
    case RShift(n, v) =>
      var c := a.RShift(n, v);
      answer := Counted(c);
    case Copy =>
      b := a.Copy();
    }
    assert forall k :: 0 <= k < |b.ring| ==> b.ring[k] in b.ring;
  }

  method StepDense(a: DenseArray.Array, op: Op) returns (answer: Outcome)
    requires a.Valid() && Common(op)
    modifies a, a.elements
    ensures a.Valid() && (a.elements == old(a.elements) || fresh(a.elements))
    ensures a.Entries() == After(old(a.Entries()), op) && answer == Answer(old(a.Entries()), op)
  {
    hide Put, Unset, Find, DenseArray.Present, DenseArray.Bounded, DenseArray.Numbered;
    answer := Done;
    if op.Insert? {
      var r := a.Insert(op.i, op.v);
    } else if op.Remove? {
      var r := a.Remove(op.at);
      answer := Removed(r);
    } else {
      var v := a.Reference(op.of);
      answer := Looked(v);
    }
  }

  /** Run the common operations on the vector. */
  method RunDense(ops: seq<Op>) returns (answers: seq<Outcome>, values: seq<Value>, keys: seq<string>, size: int)
    requires forall op <- ops :: Common(op)
    ensures answers == Answers([], ops)
    ensures values == Values(Final([], ops)) && keys == KeyTexts(Final([], ops)) && size == |Final([], ops)|
  {
    hide After, Answer, Put, Unset, Find, DenseArray.Present, DenseArray.Bounded, DenseArray.Numbered;
    var a := new DenseArray.Array();
    answers := [];
    for k := 0 to |ops|
      invariant a.Valid() && fresh(a) && fresh(a.elements)
      invariant a.Entries() == Final([], ops[..k]) && answers == Answers([], ops[..k])
    {
      FinalOfMore([], ops, k);
      var answer := StepDense(a, ops[k]);
      answers := answers + [answer];
    }
    assert ops[..|ops|] == ops;
    values := a.ToWordList();
    keys := a.KeysToWordList();
    size := a.numElements;
  }
}
