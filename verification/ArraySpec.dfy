/** What a sparse array is, for both representations: indices in ascending order, each with a value. */
module ArraySpec {
  import opened Wrappers
  import opened Decimal

  type Value = Option<string>

  datatype Entry = Entry(ind: int, value: Value)

  predicate Ascending(s: seq<Entry>) {
    && (forall k :: 0 <= k < |s| ==> s[k].ind >= 0)
    && forall j, k :: 0 <= j < k < |s| ==> s[j].ind < s[k].ind
  }

  /** The array as a map from indices. */
  ghost function MapOf(s: seq<Entry>): map<int, Value>
    requires Ascending(s)
  {
    map k | 0 <= k < |s| :: s[k].ind := s[k].value
  }

  /** How many indices are smaller than `i`. */
  function Rank(s: seq<Entry>, i: int): (k: nat)
    ensures k <= |s| && (forall j :: 0 <= j < k ==> s[j].ind < i) && (k < |s| ==> s[k].ind >= i)
  {
    RankFrom(s, i, 0)
  }

  function RankFrom(s: seq<Entry>, i: int, from: nat): (k: nat)
    requires from <= |s| && forall j :: 0 <= j < from ==> s[j].ind < i
    ensures k <= |s| && (forall j :: 0 <= j < k ==> s[j].ind < i) && (k < |s| ==> s[k].ind >= i)
    decreases |s| - from
  {
    if from < |s| && s[from].ind < i then RankFrom(s, i, from + 1) else from
  }

  predicate HitAt(s: seq<Entry>, k: nat, i: int) { k < |s| && s[k].ind == i }

  /** a[i] = v */
  function Put(s: seq<Entry>, i: int, v: Value): seq<Entry> {
    var k := Rank(s, i);
    s[..k] + [Entry(i, v)] + if HitAt(s, k, i) then s[k + 1..] else s[k..]
  }

  /** unset a[i] */
  function Unset(s: seq<Entry>, i: int): seq<Entry> {
    var k := Rank(s, i);
    if HitAt(s, k, i) then s[..k] + s[k + 1..] else s
  }

  /** a[i], if it is set */
  function Find(s: seq<Entry>, i: int): Option<Value> {
    var k := Rank(s, i);
    if HitAt(s, k, i) then Some(s[k].value) else None
  }

  function Moved(s: seq<Entry>, d: int): seq<Entry> {
    seq(|s|, k requires 0 <= k < |s| => Entry(s[k].ind + d, s[k].value))
  }

  /** Shift by n to the left: the first n elements go, the others move n down. */
  function Shifted(s: seq<Entry>, n: int): seq<Entry> {
    if n <= 0 then s else if n >= |s| then [] else Moved(s[n..], -n)
  }

  /** Shift by n to the right, with a new element 0 if a value is given. */
  function RShifted(s: seq<Entry>, n: int, v: Value): seq<Entry> {
    if n <= 0 then s else (if v.Some? then [Entry(0, v)] else []) + Moved(s, n)
  }

  function Values(s: seq<Entry>): seq<Value> {
    seq(|s|, k requires 0 <= k < |s| => s[k].value)
  }

  /** The indices in decimal. */
  function KeyTexts(s: seq<Entry>): seq<string> {
    seq(|s|, k requires 0 <= k < |s| => Itos(s[k].ind))
  }

  /** Words at 0, 1, 2, ..., each overwriting what was there. */
  function Assigned(s: seq<Entry>, words: seq<string>): seq<Entry> {
    if words == [] then s
    else
      var n := |words| - 1;
      Put(Assigned(s, words[..n]), n, Some(words[n]))
  }

  /** Nothing but the words. */
  function Listed(words: seq<string>): seq<Entry> {
    seq(|words|, k requires 0 <= k < |words| => Entry(k, Some(words[k])))
  }

  // ---------------------------------------------------------------- entries and maps

  /** Only one position separates the smaller indices from the others. */
  lemma RankIs(s: seq<Entry>, k: nat, i: int)
    requires Ascending(s) && k <= |s|
    requires (k > 0 ==> s[k - 1].ind < i) && (k < |s| ==> s[k].ind >= i)
    ensures Rank(s, i) == k
  {
    assert forall j :: 0 <= j < k ==> s[j].ind < i;
    RankFromIs(s, k, i, 0);
  }

  lemma {:induction false} RankFromIs(s: seq<Entry>, k: nat, i: int, from: nat)
    requires from <= k <= |s| && (forall j :: 0 <= j < k ==> s[j].ind < i) && (k < |s| ==> s[k].ind >= i)
    ensures RankFrom(s, i, from) == k
    decreases k - from
  {
    if from < k {
      RankFromIs(s, k, i, from + 1);
    }
  }

  lemma InMap(s: seq<Entry>, k: nat)
    requires Ascending(s) && k < |s|
    ensures s[k].ind in MapOf(s) && MapOf(s)[s[k].ind] == s[k].value
  {
  }

  lemma FromMap(s: seq<Entry>, x: int) returns (k: nat)
    requires Ascending(s) && x in MapOf(s)
    ensures k < |s| && s[k].ind == x
  {
    k :| 0 <= k < |s| && s[k].ind == x;
  }

  /** Putting a value moves the entries behind a new one by one place and leaves all others. */
  lemma PutPlaces(s: seq<Entry>, i: int, v: Value)
    ensures var t, k := Put(s, i, v), Rank(s, i);
      var d := if HitAt(s, k, i) then 0 else 1;
      && |t| == |s| + d && t[k] == Entry(i, v)
      && (forall j :: 0 <= j < k ==> t[j] == s[j])
      && (forall j :: k + 1 - d <= j < |s| ==> t[j + d] == s[j])
      && (forall j :: k < j < |t| ==> t[j] == s[j - d])
  {
    hide Rank;
    var k := Rank(s, i);
    var rest := if HitAt(s, k, i) then s[k + 1..] else s[k..];
    SplicePlaces(s[..k], Entry(i, v), rest);
  }

  lemma SplicePlaces<T>(a: seq<T>, x: T, b: seq<T>)
    ensures var t := a + [x] + b;
      && |t| == |a| + 1 + |b| && t[|a|] == x
      && (forall j :: 0 <= j < |a| ==> t[j] == a[j])
      && (forall j :: |a| < j < |t| ==> t[j] == b[j - |a| - 1])
  {
  }

  /** `t` is `s` with `x` at place k. */
  ghost predicate InsertedAt<T>(s: seq<T>, k: nat, x: T, t: seq<T>) {
    && k <= |s| && |t| == |s| + 1 && t[k] == x
    && (forall j :: 0 <= j < k ==> t[j] == s[j])
    && (forall j :: k < j < |t| ==> t[j] == s[j - 1])
  }

  /** `t` is `s` without place k. */
  ghost predicate RemovedAt<T>(s: seq<T>, k: nat, t: seq<T>) {
    && k < |s| == |t| + 1
    && (forall j :: 0 <= j < k ==> t[j] == s[j])
    && (forall j :: k <= j < |t| ==> t[j] == s[j + 1])
  }

  lemma InsertAt<T>(s: seq<T>, k: nat, x: T)
    requires k <= |s|
    ensures InsertedAt(s, k, x, s[..k] + [x] + s[k..])
  {
    SplicePlaces(s[..k], x, s[k..]);
  }

  lemma RemoveAt<T>(s: seq<T>, k: nat)
    requires k < |s|
    ensures RemovedAt(s, k, s[..k] + s[k + 1..])
  {
  }

  /** A sequence with the new entry in its place is what Put makes. */
  lemma PutBy(s: seq<Entry>, k: nat, i: int, v: Value, t: seq<Entry>)
    requires Ascending(s) && InsertedAt(s, k, Entry(i, v), t)
    requires (k > 0 ==> s[k - 1].ind < i) && (k < |s| ==> i < s[k].ind)
    ensures t == Put(s, i, v)
  {
    hide Put, Rank;
    RankIs(s, k, i);
    PutPlaces(s, i, v);
  }

  /** Likewise for a new value at an index that is set already. */
  lemma PutOver(s: seq<Entry>, k: nat, v: Value, t: seq<Entry>)
    requires Ascending(s) && k < |s| == |t| && t[k] == Entry(s[k].ind, v)
    requires forall j :: 0 <= j < |s| && j != k ==> t[j] == s[j]
    ensures t == Put(s, s[k].ind, v)
  {
    hide Put, Rank;
    RankIs(s, k, s[k].ind);
    PutPlaces(s, s[k].ind, v);
  }

  /** Likewise for an entry taken out. */
  lemma UnsetBy(s: seq<Entry>, k: nat, t: seq<Entry>)
    requires Ascending(s) && RemovedAt(s, k, t)
    ensures t == Unset(s, s[k].ind) && Find(s, s[k].ind) == Some(s[k].value)
  {
    hide Unset, Rank;
    RankIs(s, k, s[k].ind);
    UnsetPlaces(s, s[k].ind);
  }

  /** Between two neighbours there is nothing. */
  lemma NothingAt(s: seq<Entry>, k: nat, i: int)
    requires Ascending(s) && k <= |s| && (k > 0 ==> s[k - 1].ind < i) && (k < |s| ==> i < s[k].ind)
    ensures Unset(s, i) == s && Find(s, i) == None
  {
    hide Rank;
    RankIs(s, k, i);
  }

  lemma PutAscending(s: seq<Entry>, i: int, v: Value)
    requires Ascending(s) && i >= 0
    ensures Ascending(Put(s, i, v))
  {
    hide Put, Rank;
    PutPlaces(s, i, v);
    var k := Rank(s, i);
    assert forall j :: k < j < |s| ==> s[k].ind < s[j].ind;
  }

  /** The operations on entries are those on maps. */
  lemma PutIsUpdate(s: seq<Entry>, i: int, v: Value)
    requires Ascending(s) && i >= 0
    ensures Ascending(Put(s, i, v)) && MapOf(Put(s, i, v)) == MapOf(s)[i := v]
  {
    hide Put, Rank, MapOf, Ascending;
    PutAscending(s, i, v);
    PutPlaces(s, i, v);
    var t, m, k := Put(s, i, v), MapOf(s)[i := v], Rank(s, i);
    var d := if HitAt(s, k, i) then 0 else 1;
    forall x | x in m
      ensures x in MapOf(t) && MapOf(t)[x] == m[x]
    {
      if x == i {
        InMap(t, k);
      } else {
        var j := FromMap(s, x);
        InMap(s, j);
        InMap(t, if j < k then j else j + d);
      }
    }
    forall x | x in MapOf(t)
      ensures x in m
    {
      var j := FromMap(t, x);
      if j != k {
        InMap(s, if j < k then j else j - d);
      }
    }
  }

  lemma UnsetPlaces(s: seq<Entry>, i: int)
    ensures var t, k := Unset(s, i), Rank(s, i);
      if HitAt(s, k, i) then
        && |t| == |s| - 1
        && (forall j :: 0 <= j < k ==> t[j] == s[j])
        && (forall j :: k < j < |s| ==> t[j - 1] == s[j])
        && (forall j :: k <= j < |t| ==> t[j] == s[j + 1])
      else t == s
  {
    hide Rank;
  }

  lemma UnsetAscending(s: seq<Entry>, i: int)
    requires Ascending(s)
    ensures Ascending(Unset(s, i))
  {
    hide Unset, Rank;
    UnsetPlaces(s, i);
  }

  /** No index is `i` if the one at its place is not. */
  lemma MissMeansAbsent(s: seq<Entry>, i: int, j: nat)
    requires Ascending(s) && j < |s| && s[j].ind == i
    ensures Rank(s, i) == j && HitAt(s, j, i)
  {
    RankIs(s, j, i);
  }

  lemma UnsetIsRemoval(s: seq<Entry>, i: int)
    requires Ascending(s)
    ensures Ascending(Unset(s, i)) && MapOf(Unset(s, i)) == MapOf(s) - {i}
  {
    hide Unset, Rank, MapOf, Ascending;
    UnsetAscending(s, i);
    UnsetPlaces(s, i);
    var t, m, k := Unset(s, i), MapOf(s) - {i}, Rank(s, i);
    forall x | x in m
      ensures x in MapOf(t) && MapOf(t)[x] == m[x]
    {
      var j := FromMap(s, x);
      InMap(s, j);
      InMap(t, if j > k && HitAt(s, k, i) then j - 1 else j);
    }
    forall x | x in MapOf(t)
      ensures x in m
    {
      var j := FromMap(t, x);
      var j' := if HitAt(s, k, i) && j >= k then j + 1 else j;
      InMap(s, j');
      if x == i {
        MissMeansAbsent(s, i, j');
        assert false;
      }
    }
  }

  lemma FindIsLookup(s: seq<Entry>, i: int)
    requires Ascending(s)
    ensures Find(s, i) == if i in MapOf(s) then Some(MapOf(s)[i]) else None
  {
    hide Rank, MapOf;
    var k := Rank(s, i);
    if i in MapOf(s) {
      var j := FromMap(s, i);
      MissMeansAbsent(s, i, j);
      InMap(s, j);
    } else if HitAt(s, k, i) {
      InMap(s, k);
      assert false;
    }
  }

  /** A new array made from a list of words lists exactly these words. */
  lemma {:induction false} AssignedIsListed(words: seq<string>)
    ensures Assigned([], words) == Listed(words)
    ensures Values(Listed(words)) == seq(|words|, k requires 0 <= k < |words| => Some(words[k]))
  {
    hide Put;
    if words != [] {
      var n := |words| - 1;
      AssignedIsListed(words[..n]);
      PutBy(Listed(words[..n]), n, n, Some(words[n]), Listed(words));
    }
  }

  // ---------------------------------------------------------------- shifting

  /** The k-th index is at least k, so taking n elements from the front leaves room to move n down. */
  lemma {:induction false} IndexAtLeast(s: seq<Entry>, k: nat)
    requires Ascending(s) && k < |s|
    ensures s[k].ind >= k
  {
    if k > 0 {
      IndexAtLeast(s, k - 1);
    }
  }

  lemma ShiftedAscending(s: seq<Entry>, n: int)
    requires Ascending(s)
    ensures Ascending(Shifted(s, n))
    ensures 0 <= n <= |s| ==> |Shifted(s, n)| == |s| - n
    ensures forall k :: 0 <= n && n + k < |s| && 0 <= k ==>
      k < |Shifted(s, n)| && Shifted(s, n)[k] == Entry(s[n + k].ind - n, s[n + k].value)
  {
    if 0 < n < |s| {
      forall k | 0 <= k < |s| - n
        ensures Shifted(s, n)[k].ind >= 0
      {
        IndexAtLeast(s, n + k);
      }
    }
  }

  lemma RShiftedAscending(s: seq<Entry>, n: int, v: Value)
    requires Ascending(s)
    ensures Ascending(RShifted(s, n, v))
  {
  }

  /** Where everything is after a shift. */
  lemma ShiftedPlaces(s: seq<Entry>, n: int)
    requires n > 0
    ensures |Shifted(s, n)| == if n < |s| then |s| - n else 0
    ensures forall k :: 0 <= k < |Shifted(s, n)| ==> Shifted(s, n)[k] == Entry(s[k + n].ind - n, s[k + n].value)
  {
  }

  lemma MovedPlaces(s: seq<Entry>, n: int)
    ensures |Moved(s, n)| == |s|
    ensures forall j :: 0 <= j < |s| ==> Moved(s, n)[j] == Entry(s[j].ind + n, s[j].value)
  {
  }

  lemma RShiftedPlaces(s: seq<Entry>, n: int, v: Value)
    requires n > 0
    ensures var t, d := RShifted(s, n, v), if v == None then 0 else 1;
      && |t| == |s| + d && (d == 1 ==> t[0] == Entry(0, v))
      && forall k :: d <= k < |t| ==> t[k] == Entry(s[k - d].ind + n, s[k - d].value)
  {
    hide Moved;
    MovedPlaces(s, n);
    var t, d := RShifted(s, n, v), if v == None then 0 else 1;
    forall k | d <= k < |t|
      ensures t[k] == Entry(s[k - d].ind + n, s[k - d].value)
    {
      assert t[k] == Moved(s, n)[k - d];
    }
  }

  lemma NotShifted(s: seq<Entry>, n: int, v: Value)
    requires n <= 0
    ensures RShifted(s, n, v) == s
  {
  }

  /** push and pop, as array.h defines them, are inverse: an array is a stack. */
  lemma PopAfterPush(s: seq<Entry>, v: Value)
    requires Ascending(s) && v.Some?
    ensures Shifted(RShifted(s, 1, v), 1) == s
    ensures RShifted(s, 1, v)[0] == Entry(0, v)
  {
    var t := RShifted(s, 1, v);
    if s != [] {
      assert t[1..] == Moved(s, 1);
      assert Moved(Moved(s, 1), -1) == s;
    }
  }
}
