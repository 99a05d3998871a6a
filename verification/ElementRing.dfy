/** The elements of array.c: a circular doubly linked list behind a dummy head, in ascending order of indices,
    and the steps that change it. */
module ElementRing {
  import opened Wrappers
  import opened ArraySpec

  class Element {
    var ind: int
    var value: Value
    var next: Element?
    var prev: Element?

    constructor (ind: int, value: Value)
      ensures this.ind == ind && this.value == value && next == null && prev == null
    {
      this.ind, this.value, next, prev := ind, value, null, null;
    }
  }

  /** `ring` is linked in both directions, its last element to its first. */
  ghost predicate Linked(ring: seq<Element>)
    reads ring`next, ring`prev
  {
    && |ring| > 0
    && (forall j, k :: 0 <= j < k < |ring| ==> ring[j] != ring[k])
    && (forall k :: 0 <= k < |ring| - 1 ==> ring[k].next == ring[k + 1])
    && (forall k :: 1 <= k < |ring| ==> ring[k].prev == ring[k - 1])
    && ring[|ring| - 1].next == ring[0] && ring[0].prev == ring[|ring| - 1]
  }

  /** Indices ascend; the dummy head's is -1. */
  ghost predicate Ordered(ring: seq<Element>)
    requires |ring| > 0
    reads ring`ind
  {
    && ring[0].ind == -1
    && (forall j, k :: 0 <= j < k < |ring| ==> ring[j].ind < ring[k].ind)
  }

  /** What the elements behind the head hold. */
  ghost function Held(ring: seq<Element>): (s: seq<Entry>)
    requires |ring| > 0
    reads ring`ind, ring`value
    ensures |s| == |ring| - 1
    ensures forall k :: 0 <= k < |s| ==> s[k] == Entry(ring[k + 1].ind, ring[k + 1].value)
  {
    if |ring| == 1 then []
    else
      var last := ring[|ring| - 1];
      Held(ring[..|ring| - 1]) + [Entry(last.ind, last.value)]
  }

  /** `ae` is element k; going on from the last element leads to the head again. */
  ghost predicate AtPlace(ring: seq<Element>, k: nat, ae: Element?) {
    k <= |ring| && |ring| > 0 && ae == if k < |ring| then ring[k] else ring[0]
  }

  /** ADD_BEFORE: `e` goes before element k of the ring, or before the head to become the last. */
  method AddBefore(ae: Element, e: Element, ghost ring: seq<Element>, ghost k: nat, ghost after: seq<Element>)
    requires Linked(ring) && 1 <= k <= |ring| && AtPlace(ring, k, ae)
    requires e !in ring && InsertedAt(ring, k, e, after)
    modifies ring`next, ring`prev, e`next, e`prev
    ensures Linked(after)
  {
    assert ae.prev == ring[k - 1];
    ae.prev.next := e;
    e.prev := ae.prev;
    ae.prev := e;
    e.next := ae;
  }

  /** ADD_AFTER: `e` goes behind element k - 1 of the ring. */
  method AddAfter(ae: Element, e: Element, ghost ring: seq<Element>, ghost k: nat, ghost after: seq<Element>)
    requires Linked(ring) && 1 <= k <= |ring| && ae == ring[k - 1]
    requires e !in ring && InsertedAt(ring, k, e, after)
    modifies ring`next, ring`prev, e`next, e`prev
    ensures Linked(after)
  {
    assert ae.next == if k < |ring| then ring[k] else ring[0];
    ae.next.prev := e;
    e.next := ae.next;
    e.prev := ae;
    ae.next := e;
  }

  /** Linked, ordered and counted: everything but `lastref` and the bookkeeping fields. */
  ghost predicate Sound(ring: seq<Element>)
    reads ring
  {
    |ring| > 0 && Linked(ring) && Ordered(ring)
  }

  /** `s` is what the ring holds; the links do not matter. */
  ghost predicate Holds(ring: seq<Element>, s: seq<Entry>)
    reads ring`ind, ring`value
  {
    && |ring| > 0 && ring[0].ind == -1 && Ascending(s) && |s| == |ring| - 1
    && forall k :: 0 <= k < |s| ==> s[k].ind == ring[k + 1].ind && s[k].value == ring[k + 1].value
  }

  lemma RingHolds(ring: seq<Element>)
    requires Sound(ring)
    ensures Holds(ring, Held(ring))
  {
    hide Held, Linked;
    assert forall k :: 1 <= k < |ring| ==> ring[0].ind < ring[k].ind;
  }

  lemma HoldsIs(ring: seq<Element>, s: seq<Entry>)
    requires Holds(ring, s)
    ensures Ordered(ring) && Held(ring) == s
  {
    assert forall k :: 1 <= k < |ring| ==> ring[k].ind == s[k - 1].ind;
  }

  /** A ring with a new element in its place holds what putting a value makes of the old one. */
  lemma Grown(ring: seq<Element>, e: Element, k: nat, after: seq<Element>, s: seq<Entry>)
    requires Holds(ring, s) && 1 <= k && InsertedAt(ring, k, e, after) && e.ind >= 0
    requires ring[k - 1].ind < e.ind && (k < |ring| ==> e.ind < ring[k].ind)
    ensures Ordered(after) && Held(after) == Put(s, e.ind, e.value)
  {
    hide Put, Rank;
    var t := Put(s, e.ind, e.value);
    RankIs(s, k - 1, e.ind);
    PutPlaces(s, e.ind, e.value);
    PutAscending(s, e.ind, e.value);
    HoldsIs(after, t);
  }

  /** The last index is the greatest. */
  lemma AtMostLast(ring: seq<Element>, k: nat)
    requires |ring| > 0 && Ordered(ring)
    ensures k < |ring| ==> ring[k].ind <= ring[|ring| - 1].ind
  {
  }

  /** The neighbours of element k. */
  lemma Neighbours(ring: seq<Element>, k: nat)
    requires Linked(ring) && k < |ring|
    ensures ring[k].next == (if k + 1 < |ring| then ring[k + 1] else ring[0])
    ensures ring[k].prev == (if k > 0 then ring[k - 1] else ring[|ring| - 1])
    ensures k > 0 ==> ring[k] != ring[0]
  {
  }

  lemma InOrder(ring: seq<Element>, j: nat, k: nat)
    requires |ring| > 0 && Ordered(ring)
    ensures ring[0].ind == -1
    ensures j < k < |ring| ==> ring[j].ind < ring[k].ind
  {
  }

  /** Behind its head, `copy` holds what `ring` does from place j on. */
  ghost predicate Copied(ring: seq<Element>, j: nat, copy: seq<Element>)
    reads ring`ind, ring`value, copy`ind, copy`value
  {
    && 1 <= |copy| && 1 <= j && |copy| + j - 1 <= |ring|
    && forall m :: 1 <= m < |copy| ==> copy[m].ind == ring[m + j - 1].ind && copy[m].value == ring[m + j - 1].value
  }

  lemma CopiedNothing(ring: seq<Element>, j: nat, head: Element)
    requires 1 <= j <= |ring| && head !in ring
    ensures Copied(ring, j, [head]) && Apart(ring, [head])
  {
  }

  method AppendCopy(head: Element, ae: Element, ghost ring: seq<Element>, ghost j: nat, ghost m: nat,
                    ghost copy: seq<Element>)
    returns (e: Element, ghost longer: seq<Element>)
    requires Linked(ring) && Linked(copy) && Apart(ring, copy) && Copied(ring, j, copy) && copy[0] == head
    requires j <= m < |ring| && |copy| == m - j + 1 && ae == ring[m]
    modifies copy`next, copy`prev
    ensures fresh(e) && e.ind == ae.ind && longer == copy + [e]
    ensures Linked(ring) && Linked(longer) && Apart(ring, longer) && Copied(ring, j, longer)
  {
    hide Linked;
    e := new Element(ae.ind, ae.value);
    longer := copy + [e];
    assert forall x <- ring :: x !in copy && x != e;
    AddBefore(head, e, copy, |copy|, longer);
    assert forall x <- ring :: x.next == old(x.next) && x.prev == old(x.prev);
  }

  /** Copies of the elements from place j up to k, hooked in one by one behind the others. Tells which is
      the copy of `cached`, how many there are and what index the last one has. */
  method CopyElements(head: Element, first: Element, end: Element, cached: Element?, ghost ring: seq<Element>,
                      ghost j: nat, ghost k: nat, ghost c: nat)
    returns (copied: Element?, i: int, mi: int, ghost copy: seq<Element>)
    requires Linked([head]) && head !in ring && Linked(ring)
    requires 1 <= j <= k && AtPlace(ring, j, first) && AtPlace(ring, k, end)
    requires c <= |ring| && cached == if c < |ring| then ring[c] else null
    modifies head`next, head`prev
    ensures Linked(copy) && |copy| == k - j + 1 == i + 1 && copy[0] == head && j + |copy| - 1 <= |ring|
    ensures forall x <- copy :: x == head || fresh(x)
    ensures Copied(ring, j, copy)
    ensures copied != null ==> copied in copy && copied != head
    ensures (copied != null <==> j <= c < k) && (copied != null ==> copied.ind == cached.ind)
    ensures mi == if j < k then copy[k - j].ind else 0
  {
    hide Linked, Copied, Apart;
    assert Copied(ring, j, [head]) && Apart(ring, [head]) by {
      CopiedNothing(ring, j, head);
    }
    copied, copy := null, [head];
    i, mi := 0, 0;
    var ae := first;
    ghost var m := j;
    Meet(ring, m, k);
    while ae != end
      invariant j <= m <= k && i == m - j && AtPlace(ring, m, ae) && (ae == end <==> m == k)
      invariant Linked(ring) && Linked(copy) && |copy| == m - j + 1 && copy[0] == head && Apart(ring, copy)
      invariant forall i :: 1 <= i < |copy| ==> fresh(copy[i])
      invariant Copied(ring, j, copy)
      invariant copied != null ==> copied in copy && copied != head
      invariant (copied != null <==> j <= c < m) && (copied != null ==> copied.ind == cached.ind)
      invariant mi == if j < m then copy[m - j].ind else 0
      decreases k - m
    {
      Neighbours(ring, m);
      Distinct(ring, m);
      assert forall x <- copy :: x == head || fresh(x);
      var e;
      e, copy := AppendCopy(head, ae, ring, j, m, copy);
      if ae == cached {
        copied := e;
      }
      i, mi := i + 1, e.ind;
      ae, m := ae.next, m + 1;
      Meet(ring, m, k);
    }
  }

  ghost predicate Apart<T>(s: seq<T>, t: seq<T>) { forall x <- t :: x !in s }

  /** Two places of a ring, not both at the head, are the same element only if they are the same place. */
  lemma Meet(ring: seq<Element>, m: nat, k: nat)
    requires Linked(ring) && 1 <= m <= |ring| && 1 <= k <= |ring|
    ensures (if m < |ring| then ring[m] else ring[0]) == (if k < |ring| then ring[k] else ring[0]) <==> m == k
  {
  }

  lemma AscendingPart(s: seq<Entry>, j: nat, k: nat)
    requires Ascending(s) && j <= k <= |s|
    ensures Ascending(s[j..k])
  {
  }

  predicate IsPart(t: seq<Entry>, s: seq<Entry>, lo: int, hi: int) { 0 <= lo <= hi <= |s| && t == s[lo..hi] }

  lemma Part(s: seq<Entry>, lo: nat, hi: nat) returns (t: seq<Entry>)
    requires lo <= hi <= |s| && Ascending(s)
    ensures IsPart(t, s, lo, hi) && Ascending(t) && |t| == hi - lo
    ensures forall m :: 0 <= m < |t| ==> t[m] == s[m + lo]
  {
    hide Ascending;
    AscendingPart(s, lo, hi);
    t := s[lo..hi];
  }

  /** A copy of the elements from place j on holds the same. */
  lemma SameHeld(ring: seq<Element>, copy: seq<Element>, j: nat, s: seq<Entry>)
    requires Holds(ring, s) && Copied(ring, j, copy) && copy[0].ind == -1
    ensures Ordered(copy) && IsPart(Held(copy), s, j - 1, j + |copy| - 2)
    ensures |copy| > 1 ==> copy[|copy| - 1].ind == ring[|copy| + j - 2].ind
  {
    hide Held, Ordered, Ascending, Copied, Holds, IsPart;
    CopiedSize(ring, j, copy);
    HoldsSize(ring, s);
    var t := Part(s, j - 1, j + |copy| - 2);
    forall m | 0 <= m < |t|
      ensures t[m] == Entry(copy[m + 1].ind, copy[m + 1].value)
    {
      CopiedAt(ring, copy, j, s, m);
    }
    if |copy| > 1 {
      CopiedAt(ring, copy, j, s, |copy| - 2);
    }
    HoldsThese(copy, t);
  }

  lemma HoldsSize(ring: seq<Element>, s: seq<Entry>)
    requires Holds(ring, s)
    ensures |s| == |ring| - 1 && Ascending(s)
  {
  }

  lemma HoldsThese(ring: seq<Element>, s: seq<Entry>)
    requires |ring| == |s| + 1 && ring[0].ind == -1 && Ascending(s)
    requires forall k :: 0 <= k < |s| ==> s[k] == Entry(ring[k + 1].ind, ring[k + 1].value)
    ensures Ordered(ring) && Held(ring) == s
  {
    hide Held, Ordered, Ascending;
    HoldsIs(ring, s);
  }

  lemma CopiedSize(ring: seq<Element>, j: nat, copy: seq<Element>)
    requires Copied(ring, j, copy)
    ensures 1 <= |copy| && 1 <= j && |copy| + j - 1 <= |ring|
  {
  }

  lemma CopiedAt(ring: seq<Element>, copy: seq<Element>, j: nat, s: seq<Entry>, m: nat)
    requires Holds(ring, s) && Copied(ring, j, copy) && m < |copy| - 1
    ensures s[m + j - 1] == Entry(copy[m + 1].ind, copy[m + 1].value)
    ensures copy[m + 1].ind == ring[m + j].ind
  {
    hide Ascending;
    var i := m + j - 1;
    assert s[i].ind == ring[i + 1].ind && s[i].value == ring[i + 1].value;
  }

  /** The four links around an element, changed past it. */
  method UnlinkLinks(ae: Element, ghost ring: seq<Element>, ghost k: nat, ghost after: seq<Element>)
    requires Linked(ring) && 1 <= k < |ring| && ae == ring[k] && RemovedAt(ring, k, after)
    modifies ring`next, ring`prev
    ensures Linked(after) && ae !in after
    ensures ae.next == old(ae.next) && ae.prev == old(ae.prev)
  {
    Neighbours(ring, k);
    ae.next.prev := ae.prev;
    ae.prev.next := ae.next;
  }

  /** A ring without an element holds what unsetting its index makes of the old one. */
  lemma Shrunk(ring: seq<Element>, k: nat, after: seq<Element>, s: seq<Entry>)
    requires Holds(ring, s) && 1 <= k && RemovedAt(ring, k, after)
    ensures |after| > 0 && Ordered(after) && Held(after) == Unset(s, ring[k].ind)
    ensures Find(s, ring[k].ind) == Some(ring[k].value)
  {
    hide Unset, Rank, Find;
    var i := ring[k].ind;
    MissMeansAbsent(s, i, k - 1);
    UnsetPlaces(s, i);
    UnsetAscending(s, i);
    HoldsIs(after, Unset(s, i));
    FoundAt(s, k - 1, i);
  }

  lemma InsertedEnds<T>(s: seq<T>, k: nat, x: T, t: seq<T>)
    requires InsertedAt(s, k, x, t) && 1 <= k
    ensures |t| == |s| + 1 && t[0] == s[0] && x in t && t[|t| - 1] == if k < |s| then s[|s| - 1] else x
    ensures x !in s ==> x != t[0]
    ensures forall y <- t :: y in s || y == x
  {
  }

  lemma StillThere<T>(s: seq<T>, k: nat, t: seq<T>)
    requires RemovedAt(s, k, t) && 1 <= k
    ensures t[0] == s[0] && s[k - 1] in t && (k + 1 < |s| ==> s[k + 1] in t)
    ensures t[|t| - 1] == if k + 1 < |s| then s[|s| - 1] else s[k - 1]
    ensures forall x <- t :: x in s
  {
    assert t[k - 1] == s[k - 1];
    if k + 1 < |s| {
      assert t[k] == s[k + 1];
    }
  }

  lemma FoundAt(s: seq<Entry>, k: nat, i: int)
    requires Rank(s, i) == k && HitAt(s, k, i)
    ensures Find(s, i) == Some(s[k].value)
  {
  }

  lemma Distinct(ring: seq<Element>, k: nat)
    requires Linked(ring) && k < |ring|
    ensures forall j :: 0 <= j < |ring| && j != k ==> ring[j] != ring[k]
  {
  }

  lemma Changed(ring: seq<Element>, k: nat, v: Value, s: seq<Entry>)
    requires 1 <= k < |ring| && ring[0].ind == -1 && Ascending(s) && |s| == |ring| - 1
    requires forall j :: 0 <= j < |s| ==> s[j].ind == ring[j + 1].ind
    requires forall j :: 0 <= j < |s| && j != k - 1 ==> s[j].value == ring[j + 1].value
    requires ring[k].value == v
    ensures Held(ring) == Put(s, ring[k].ind, v)
  {
    hide Put, Held;
    PutOver(s, k - 1, v, Held(ring));
  }

  /** `first` leads through `chain` to null. */
  ghost predicate Chained(first: Element?, chain: seq<Element>)
    reads chain`next
  {
    && (first == if chain == [] then null else chain[0])
    && (forall k :: 0 <= k < |chain| - 1 ==> chain[k].next == chain[k + 1])
    && (chain != [] ==> chain[|chain| - 1].next == null)
  }

  /** The element behind the first `n`, the head if there is none. */
  method Skip(head: Element, ghost ring: seq<Element>, n: int) returns (ae: Element, ghost k: nat)
    requires Linked(ring) && |ring| > 0 && head == ring[0] && n >= 0
    ensures AtPlace(ring, k, ae) && (ae == head <==> k == |ring|)
    ensures k == if n < |ring| then n + 1 else |ring|
  {
    hide Linked;
    var i := 0;
    Neighbours(ring, 0);
    ae, k := head.next, 1;
    DistinctHead(ring, k);
    while ae != head && i < n
      invariant k == i + 1 && i <= n && AtPlace(ring, k, ae) && (k < |ring| ==> ae != head)
      decreases n - i
    {
      Neighbours(ring, k);
      ae, i, k := ae.next, i + 1, k + 1;
      DistinctHead(ring, k);
    }
  }

  /** All elements go; the head stays alone. */
  method CutAll(ret: Element, head: Element, ghost ring: seq<Element>, ghost gone: seq<Element>)
    requires Linked(ring) && |ring| > 1 && head == ring[0] && ret == ring[1] && gone == ring[1..]
    modifies ring`next, ring`prev
    ensures Chained(ret, gone) && Linked([head])
  {
    var ae := ret;
    ghost var k := 1;
    while ae.next != head
      invariant 1 <= k < |ring| && ae == ring[k]
      decreases |ring| - k
    {
      ae, k := ae.next, k + 1;
    }
    Neighbours(ring, k);
    DistinctHead(ring, k + 1);
    ae.next := null;
    head.next, head.prev := head, head;
  }

  /** The elements before `ae` go, ending in null; the others close up behind the head. */
  method CutFront(head: Element, ae: Element, ghost ring: seq<Element>, ghost k: nat, ghost gone: seq<Element>,
                  ghost after: seq<Element>)
    requires Linked(ring) && 2 <= k < |ring| && head == ring[0] && ae == ring[k]
    requires gone == ring[1..k] && after == [head] + ring[k..]
    modifies ring`next, ring`prev
    ensures Chained(gone[0], gone) && Linked(after)
  {
    assert ae.prev == ring[k - 1];
    ae.prev.next := null;
    head.next := ae;
    ae.prev := head;
  }

  /** The elements from `ae` on stay, renumbered. */
  method Retain(head: Element, ae: Element, n: int, ghost ring: seq<Element>, ghost gone: seq<Element>,
                ghost after: seq<Element>, ghost s: seq<Entry>)
    requires Linked(ring) && Holds(ring, s) && 0 < n < |s| && head == ring[0] && ae == ring[n + 1]
    requires gone == ring[1..n + 1] && after == [head] + ring[n + 1..]
    modifies ring`next, ring`prev, after`ind
    ensures Linked(after) && Ordered(after) && Held(after) == Shifted(s, n)
    ensures Chained(gone[0], gone)
  {
    hide Held, Linked, Ordered, Shifted, Moved, Ascending, Chained;
    assert forall x <- after :: x in ring;
    CutFront(head, ae, ring, n + 1, gone, after);
    Renumber(head, ae, 0 - n, after, 1);
    Kept(after, n, s);
  }

  lemma FrontApart(ring: seq<Element>, n: nat, after: seq<Element>)
    requires Linked(ring) && n + 1 < |ring| && after == [ring[0]] + ring[n + 1..]
    ensures forall x <- ring[1..n + 1] :: x !in after
  {
  }

  /** Walk a chain and free its elements: all of them, each one once. */
  method DisposeChain(first: Element?, ghost chain: seq<Element>) returns (ghost freed: seq<Element>)
    requires Chained(first, chain)
    ensures freed == chain
  {
    var ae := first;
    freed := [];
    while ae != null
      invariant |freed| <= |chain| && freed == chain[..|freed|]
      invariant ae == if |freed| < |chain| then chain[|freed|] else null
      decreases |chain| - |freed|
    {
      freed := freed + [ae];
      ae := ae.next;
    }
  }

  /** Renumber element k and those behind it. */
  method Renumber(head: Element, first: Element, d: int, ghost ring: seq<Element>, ghost k: nat)
    requires Linked(ring) && head == ring[0] && 1 <= k && AtPlace(ring, k, first)
    modifies ring`ind
    ensures forall j :: 0 <= j < |ring| ==> ring[j].ind == old(ring[j].ind) + if j < k then 0 else d
  {
    hide Linked;
    var ae := first;
    ghost var m := k;
    DistinctHead(ring, m);
    while ae != head
      invariant k <= m && AtPlace(ring, m, ae) && (m < |ring| ==> ae != head)
      invariant forall j :: 0 <= j < |ring| ==> ring[j].ind == old(ring[j].ind) + if k <= j < m then d else 0
      decreases |ring| - m
    {
      Distinct(ring, m);
      Neighbours(ring, m);
      ae.ind := ae.ind + d;
      ae, m := ae.next, m + 1;
      DistinctHead(ring, m);
    }
  }

  lemma DistinctHead(ring: seq<Element>, k: nat)
    requires Linked(ring)
    ensures 1 <= k < |ring| ==> ring[k] != ring[0]
  {
  }

  lemma NoChain()
    ensures Chained(null, [])
  {
  }

  lemma Alone(head: Element)
    requires head.ind == -1
    ensures Ordered([head]) && Held([head]) == []
  {
    HoldsIs([head], []);
  }

  lemma AloneWith(ring: seq<Element>, n: int, v: Value)
    requires |ring| == 2 && ring[0].ind == -1 && ring[1].ind == 0 && ring[1].value == v && v != None && n > 0
    ensures Ordered(ring) && Held(ring) == RShifted([], n, v)
  {
    hide Held;
    HoldsIs(ring, [Entry(0, v)]);
  }

  lemma ShiftedNothing(s: seq<Entry>, n: int)
    requires n <= 0 || s == []
    ensures Shifted(s, n) == s
  {
  }

  lemma ShiftedAll(s: seq<Entry>, n: int)
    requires 0 < n && |s| <= n
    ensures Shifted(s, n) == []
  {
  }

  /** What the kept elements hold. */
  lemma Kept(after: seq<Element>, n: int, s: seq<Entry>)
    requires Ascending(s) && 0 < n < |s| && |after| == |s| - n + 1 && after[0].ind == -1
    requires forall j :: 1 <= j < |after| ==>
      after[j].ind == s[n + j - 1].ind - n && after[j].value == s[n + j - 1].value
    ensures Ordered(after) && Held(after) == Shifted(s, n)
  {
    hide Shifted, Held, Ordered, Moved;
    ShiftedAscending(s, n);
    var t := Shifted(s, n);
    assert forall j :: 0 <= j < |t| ==> t[j] == Entry(s[n + j].ind - n, s[n + j].value);
    HoldsIs(after, t);
  }

  /** The elements from place k on hold `s`; in front of them may be a new element 0. */
  ghost predicate Lifted(ring: seq<Element>, k: nat, s: seq<Entry>, v: Value)
    reads ring`ind, ring`value
  {
    && Ascending(s) && |ring| == |s| + k && k == (if v == None then 1 else 2) && ring[0].ind == -1
    && (forall j :: k <= j < |ring| ==> ring[j].ind == s[j - k].ind && ring[j].value == s[j - k].value)
    && (k == 2 ==> ring[1].ind == 0 && ring[1].value == v)
  }

  method RenumberAll(head: Element, ae: Element, n: int, ghost ring: seq<Element>, ghost k: nat,
                     ghost s: seq<Entry>, ghost v: Value)
    requires Linked(ring) && Lifted(ring, k, s, v) && head == ring[0] && AtPlace(ring, k, ae) && n > 0
    modifies ring`ind
    ensures Ordered(ring) && Held(ring) == RShifted(s, n, v)
  {
    hide Held, Linked, Ordered, RShifted, Moved, Ascending;
    Renumber(head, ae, n, ring, k);
    Raised(ring, n, k, s, v);
  }

  /** What the renumbered elements hold. */
  lemma Raised(ring: seq<Element>, n: int, k: nat, s: seq<Entry>, v: Value)
    requires Ascending(s) && |ring| == |s| + k && k == (if v == None then 1 else 2) && n > 0 && ring[0].ind == -1
    requires forall j :: k <= j < |ring| ==> ring[j].ind == s[j - k].ind + n && ring[j].value == s[j - k].value
    requires k == 2 ==> ring[1].ind == 0 && ring[1].value == v
    ensures Ordered(ring) && Held(ring) == RShifted(s, n, v)
  {
    hide Held, Ordered, RShifted, Moved, Ascending;
    ShiftedRight(s, n, v);
    HoldsIs(ring, RShifted(s, n, v));
  }

  /** Where everything is after a shift to the right. */
  lemma ShiftedRight(s: seq<Entry>, n: int, v: Value)
    requires Ascending(s)
    ensures var t, d := RShifted(s, n, v), if v == None then 0 else 1;
      && Ascending(t) && (n <= 0 ==> t == s) && (s == [] && v == None ==> t == [])
      && (n > 0 ==> |t| == |s| + d)
      && (n > 0 && d == 1 ==> t[0] == Entry(0, v))
      && (n > 0 ==> forall j :: d <= j < |t| ==> t[j] == Entry(s[j - d].ind + n, s[j - d].value))
  {
    hide Ascending, RShifted;
    RShiftedAscending(s, n, v);
    if n > 0 {
      RShiftedPlaces(s, n, v);
    } else {
      NotShifted(s, n, v);
    }
  }
}
