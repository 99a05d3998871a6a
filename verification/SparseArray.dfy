/** array.c: sparse arrays as a list of elements, with `lastref` pointing at the element last used. */
module SparseArray {
  import opened Wrappers
  import opened Seqs
  import opened Decimal
  import opened ArraySpec
  import opened ElementRing

  class Array {
    var maxIndex: int
    var numElements: int
    var head: Element
    var lastref: Element?
    ghost var ring: seq<Element>

    ghost predicate Valid()
      reads this, ring
    {
      && Sound(ring) && ring[0] == head
      && maxIndex == ring[|ring| - 1].ind
      && numElements == |ring| - 1
      && (lastref != null ==> lastref in ring && lastref != head)
    }

    /** The indices and values, in order. */
    ghost function Entries(): seq<Entry>
      requires Valid()
      reads this, ring
    {
      Held(ring)
    }

    constructor ()
      ensures Valid() && Entries() == [] && ring == [head] && fresh(head) && head.ind == -1
    {
      maxIndex, numElements, lastref := -1, 0, null;
      var h := new Element(-1, None);
      head := h;
      new;
      h.prev, h.next := h, h;
      ring := [h];
    }

    /** Where a search for `i` starts and which way it goes: LASTREF and the strategy all three searches
        share. */
    method SearchStart(i: int) returns (start: Element, forward: bool, ghost k: nat)
      requires Valid() && i >= 0 && |ring| > 1 && ring[1].ind <= i <= maxIndex
      ensures 1 <= k < |ring| && start == ring[k] && Searching(k, i, forward)
      ensures if forward then start.ind <= i else i < start.ind
    {
      hide Held;
      start := if lastref != null then lastref else head.next;
      var startind := start.ind;
      k :| 1 <= k < |ring| && ring[k] == start;
      if i < startind / 2 {
        start, forward, k := head.next, true, 1;
      } else {
        forward := i >= startind;
      }
    }

    /** Everything between the start and place k was too small, or too great. */
    ghost predicate Searching(k: nat, i: int, forward: bool)
      reads this, ring`ind
    {
      if forward then 1 <= k <= |ring| && ring[k - 1].ind < i
      else k < |ring| && (k + 1 < |ring| ==> i < ring[k + 1].ind)
    }

    /** A search never comes round to the head: what it looks for lies between two elements. */
    lemma SearchInside(k: nat, i: int, forward: bool)
      requires Valid() && i >= 0 && |ring| > 1 && ring[1].ind <= i <= maxIndex && Searching(k, i, forward)
      ensures 1 <= k < |ring|
    {
      hide Held, Linked;
    }

    /** The element at which the loop of array_insert stops, place k, and how it was reached. It always
        stops: the return with -1 behind the loop is never taken. */
    method InsertSearch(i: int) returns (ae: Element, forward: bool, ghost k: nat)
      requires Valid() && i >= 0 && |ring| > 1 && ring[1].ind <= i <= maxIndex
      ensures 1 <= k < |ring| && ae == ring[k]
      ensures ring[k].ind == i || (if forward then ring[k - 1].ind < i < ring[k].ind
                                   else ring[k].ind < i && k + 1 < |ring| && i < ring[k + 1].ind)
    {
      hide Held, Linked, Ordered;
      ae, forward, k := SearchStart(i);
      while ae != head
        invariant AtPlace(ring, k, ae) && Searching(k, i, forward)
        decreases if forward then |ring| - k else k
      {
        SearchInside(k, i, forward);
        Neighbours(ring, k);
        if ae.ind == i || (forward && ae.ind > i) || (!forward && ae.ind < i) {
          return;
        }
        ae, k := if forward then ae.next else ae.prev, if forward then k + 1 else k - 1;
      }
      SearchInside(k, i, forward);
      Neighbours(ring, k);
      assert false;
    }

    method Insert(i: int, v: Value) returns (r: int)
      requires Valid() && i >= 0
      modifies this, ring
      ensures Valid() && Entries() == Put(old(Entries()), i, v)
      ensures r == 0 && lastref != null && lastref.ind == i
      ensures forall x <- ring :: x in old(ring) || fresh(x)
    {
      hide Held, Put, Linked, Ordered;
      var e := new Element(i, v);
      Neighbours(ring, 0);
      InOrder(ring, 0, 1);
      InOrder(ring, 0, |ring| - 1);
      if i > maxIndex {
        InsertBefore(head, e, |ring|);
      } else if i < head.next.ind {
        InsertAfter(head, e, 1);
      } else {
        var ae, forward, k := InsertSearch(i);
        if k + 1 < |ring| {
          InOrder(ring, k, k + 1);
        }
        if ae.ind == i {
          Replace(ae, e, k);
        } else if forward {
          InsertBefore(ae, e, k);
        } else {
          InsertAfter(ae, e, k + 1);
        }
      }
      r := 0;
    }

    /** Hook the new element in before `ae`; behind all others it has the greatest index. */
    method InsertBefore(ae: Element, e: Element, ghost k: nat)
      requires Valid() && 1 <= k && AtPlace(ring, k, ae)
      requires e !in ring && ring[k - 1].ind < e.ind && e.ind >= 0 && (k < |ring| ==> e.ind < ring[k].ind)
      modifies this, ring`next, ring`prev, e`next, e`prev
      ensures Valid() && Entries() == Put(old(Entries()), e.ind, e.value) && lastref == e
      ensures InsertedAt(old(ring), k, e, ring) && (forall x <- ring :: x in old(ring) || x == e)
    {
      hide Held, Put, Linked, Ordered, Ascending, InsertedAt;
      ghost var was, after := ring, ring[..k] + [e] + ring[k..];
      InsertAt(ring, k, e);
      InsertedEnds(ring, k, e, after);
      RingHolds(ring);
      ghost var s := Held(ring);
      AtMostLast(ring, k);
      AddBefore(ae, e, ring, k, after);
      maxIndex := if e.ind > maxIndex then e.ind else maxIndex;
      ring := after;
      numElements := numElements + 1;
      lastref := e;
      Grown(was, e, k, after, s);
    }

    method InsertAfter(ae: Element, e: Element, ghost k: nat)
      requires Valid() && 1 <= k < |ring| && ae == ring[k - 1]
      requires e !in ring && e.ind >= 0 && ring[k - 1].ind < e.ind < ring[k].ind
      modifies this, ring`next, ring`prev, e`next, e`prev
      ensures Valid() && Entries() == Put(old(Entries()), e.ind, e.value) && lastref == e
      ensures InsertedAt(old(ring), k, e, ring) && (forall x <- ring :: x in old(ring) || x == e)
    {
      hide Held, Put, Linked, Ordered, Ascending, InsertedAt;
      ghost var was, after := ring, ring[..k] + [e] + ring[k..];
      InsertAt(ring, k, e);
      InsertedEnds(ring, k, e, after);
      RingHolds(ring);
      ghost var s := Held(ring);
      AddAfter(ae, e, ring, k, after);
      ring := after;
      numElements := numElements + 1;
      lastref := e;
      Grown(was, e, k, after, s);
    }

    /** The element for that index is there already: it takes over the value. */
    method Replace(ae: Element, e: Element, ghost k: nat)
      requires Valid() && 1 <= k < |ring| && ae == ring[k] && e !in ring && e.ind == ae.ind
      modifies this`lastref, ae`value, e`value
      ensures Valid() && Entries() == Put(old(Entries()), e.ind, old(e.value)) && lastref == ae
    {
      hide Held, Put, Linked, Ordered, Ascending;
      RingHolds(ring);
      Neighbours(ring, k);
      ghost var s := Held(ring);
      Distinct(ring, k);
      ae.value := e.value;
      e.value := None;
      lastref := ae;
      Changed(ring, k, ae.value, s);
    }

    /** Take element k out of the ring; it keeps its own links. */
    method Unlink(ae: Element, ghost k: nat)
      requires Valid() && 1 <= k < |ring| && ae == ring[k]
      modifies this, ring`next, ring`prev
      ensures Valid() && Entries() == Unset(old(Entries()), ae.ind)
      ensures Find(old(Entries()), ae.ind) == Some(ae.value)
      ensures RemovedAt(old(ring), k, ring) && ae !in ring
    {
      hide Held, Unset, Find, Linked, Ordered, Ascending;
      RingHolds(ring);
      ghost var was, s, after := ring, Held(ring), ring[..k] + ring[k + 1..];
      RemoveAt(ring, k);
      StillThere(ring, k, after);
      Neighbours(ring, k);
      InOrder(ring, k, |ring| - 1);
      DistinctHead(ring, k - 1);
      UnlinkLinks(ae, ring, k, after);
      numElements := numElements - 1;
      if ae.ind == maxIndex {
        maxIndex := ae.prev.ind;
      }
      if ae.next != head {
        lastref := ae.next;
      } else if ae.prev != head {
        lastref := ae.prev;
      } else {
        lastref := null;
      }
      ring := after;
      Shrunk(was, k, after, s);
    }

    /** The element at which the searches of array_remove and array_reference stop: the one with index `i`,
        or the first one past the gap where it would be. Neither search ever comes round to the head. */
    method Search(i: int) returns (ae: Element, found: bool, ghost k: nat)
      requires Valid() && i >= 0 && |ring| > 1 && ring[1].ind <= i <= maxIndex
      ensures 1 <= k < |ring| && ae in ring && ae != head
      ensures if found then ae == ring[k] && ae.ind == i else ring[k - 1].ind < i < ring[k].ind
    {
      hide Held, Linked, Ordered;
      var forward;
      ae, forward, k := SearchStart(i);
      while ae != head
        invariant 1 <= k < |ring| && ae == ring[k] && if forward then ae.ind <= i else i <= ae.ind
        decreases if forward then |ring| - k else k
      {
        Neighbours(ring, k);
        if ae.ind == i {
          found := true;
          return;
        }
        ae, k := if forward then ae.next else ae.prev, if forward then k + 1 else k - 1;
        Neighbours(ring, k);
        if forward && ae.ind > i {
          found := false;
          return;
        } else if !forward && ae.ind < i {
          found, k := false, k + 1;
          return;
        }
      }
      Neighbours(ring, k);
      assert false;
    }

    /** Is there any chance to find `i`? */
    predicate InRange(i: int)
      requires Valid()
      reads this, ring
    {
      Neighbours(ring, 0);
      numElements != 0 && head.next.ind <= i <= maxIndex
    }

    /** Nothing is found outside the range, nor in a gap. */
    lemma Absent(i: int, k: nat)
      requires Valid() && 1 <= k <= |ring| && ring[k - 1].ind < i && (k < |ring| ==> i < ring[k].ind)
      ensures Unset(Entries(), i) == Entries() && Find(Entries(), i) == None
    {
      hide Held, Unset, Find, Linked, Ordered;
      RingHolds(ring);
      NothingAt(Held(ring), k - 1, i);
    }

    lemma Outside(i: int)
      requires Valid() && !InRange(i)
      ensures Unset(Entries(), i) == Entries() && Find(Entries(), i) == None
    {
      hide Held, Unset, Find, Linked, Ordered, Ascending;
      Neighbours(ring, 0);
      RingHolds(ring);
      InOrder(ring, 0, 1);
      if i > maxIndex {
        NothingAt(Held(ring), |ring| - 1, i);
      } else {
        NothingAt(Held(ring), 0, i);
      }
    }

    /** array_remove: the element for index `i`, if there is one, out of the ring and into the caller's hands. */
    method Remove(i: int) returns (r: Element?)
      requires Valid()
      modifies this, ring`next, ring`prev
      ensures Valid() && Entries() == Unset(old(Entries()), i)
      ensures Find(old(Entries()), i) == if r == null then None else Some(r.value)
      ensures r != null ==> r in old(ring) && r !in ring && r.ind == i
      ensures forall x <- ring :: x in old(ring)
    {
      hide Held, Unset, Find, Linked, Ordered;
      if !InRange(i) {
        Outside(i);
        return null;
      }
      Neighbours(ring, 0);
      InOrder(ring, 0, 1);
      var ae, found, k := Search(i);
      if found {
        Unlink(ae, k);
        r := ae;
      } else {
        Absent(i, k);
        r := null;
      }
    }

    /** The value of a[i], null where there is none; `lastref` moves to where it would be. */
    method Reference(i: int) returns (v: Value)
      requires Valid()
      modifies this`lastref
      ensures Valid() && Entries() == old(Entries())
      ensures v == match Find(Entries(), i) case Some(w) => w case None => None
    {
      hide Held, Unset, Find, Linked, Ordered;
      if !InRange(i) {
        Outside(i);
        return None;
      }
      Neighbours(ring, 0);
      InOrder(ring, 0, 1);
      var ae, found, k := Search(i);
      lastref := ae;
      if found {
        RingHolds(ring);
        MissMeansAbsent(Held(ring), i, k - 1);
        FoundAt(Held(ring), k - 1, i);
        v := ae.value;
      } else {
        Absent(i, k);
        v := None;
      }
    }

    /** array_flush. */
    method Flush()
      requires Valid()
      modifies this, ring`next, ring`prev
      ensures Valid() && Entries() == [] && lastref == null && ring == [old(head)]
    {
      head.next, head.prev := head, head;
      maxIndex, numElements, lastref := -1, 0, null;
      ring := [head];
    }

    /** array_shift: the others move down by `n` behind the first `n` elements, which leave as a chain that still has
        their indices and values, or are disposed of. */
    method Shift(n: int, dispose: bool) returns (ret: Element?, ghost gone: seq<Element>)
      requires Valid()
      modifies this, ring
      ensures Valid() && Entries() == Shifted(old(Entries()), n)
      ensures gone == if n <= 0 then [] else if n < |old(ring)| then old(ring)[1..n + 1] else old(ring)[1..]
      ensures if dispose then ret == null else Chained(ret, gone)
      ensures forall x <- gone :: x.ind == old(x.ind) && x.value == old(x.value)
      ensures n > 0 ==> lastref == null
      ensures forall x <- ring :: x in old(ring)
    {
      hide Held, Linked, Ordered, Shifted, Moved, Ascending, Chained;
      RingHolds(ring);
      ghost var s := Held(ring);
      Neighbours(ring, 0);
      if numElements == 0 || n <= 0 {
        ShiftedNothing(s, n);
        NoChain();
        return null, [];
      }
      lastref := null;
      ret := head.next;
      var ae, k := Skip(head, ring, n);
      if ae == head {
        gone := ring[1..];
        ShiftedAll(s, n);
        if dispose {
          Flush();
          ret := null;
        } else {
          Empty(ret, gone);
        }
      } else {
        gone := ring[1..k];
        KeepFrom(ae, n, gone, s);
        if dispose {
          ghost var freed := DisposeChain(ret, gone);
          ret := null;
        }
      }
    }

    /** All elements leave, as a chain. */
    method Empty(ret: Element, ghost gone: seq<Element>)
      requires Valid() && |ring| > 1 && ret == ring[1] && gone == ring[1..] && lastref == null
      modifies this`ring, this`numElements, this`maxIndex, ring`next, ring`prev
      ensures Valid() && Entries() == [] && Chained(ret, gone) && ring == [old(head)]
    {
      hide Held, Linked, Ordered, Ascending, Chained;
      InOrder(ring, 0, 1);
      CutAll(ret, head, ring, gone);
      maxIndex, numElements := -1, 0;
      ring := [head];
      Alone(head);
    }

    /** The elements from `ae` on stay, renumbered. */
    method KeepFrom(ae: Element, n: int, ghost gone: seq<Element>, ghost s: seq<Entry>)
      requires Valid() && s == Entries() && 0 < n < |s| && ae == ring[n + 1] && lastref == null
      requires gone == ring[1..n + 1]
      modifies this`ring, this`numElements, this`maxIndex, ring`next, ring`prev, ring`ind
      ensures Valid() && Entries() == Shifted(s, n) && Chained(gone[0], gone)
      ensures forall x <- gone :: x.ind == old(x.ind)
      ensures ring == [head] + old(ring)[n + 1..] && head == old(head)
    {
      hide Held, Linked, Ordered, Shifted, Moved, Ascending, Chained;
      RingHolds(ring);
      ghost var after := [head] + ring[n + 1..];
      FrontApart(ring, n, after);
      Retain(head, ae, n, ring, gone, after, s);
      forall x | x in gone
        ensures x.ind == old(x.ind)
      {
        assert x !in after;
      }
      ring := after;
      numElements := numElements - n;
      Neighbours(ring, 0);
      maxIndex := head.prev.ind;
    }

    /** Every element moves up by n places, behind a first element for the value, if one is given. */
    method RShift(n: int, v: Value) returns (count: int)
      requires Valid()
      modifies this, ring
      ensures Valid() && Entries() == RShifted(old(Entries()), n, v)
      ensures count == numElements == |Entries()|
      ensures forall x <- ring :: x in old(ring) || fresh(x)
    {
      hide Held, Linked, Ordered, RShifted, Moved, Ascending;
      RingHolds(ring);
      ghost var s := Held(ring);
      Neighbours(ring, 0);
      ShiftedRight(s, n, v);
      if numElements == 0 && v == None {
        return 0;
      } else if n <= 0 {
        return numElements;
      }
      if v == None {
        Raise(head.next, n, 1, s, v);
      } else {
        var ae := head.next;
        var e := new Element(0, v);
        ghost var after := ring[..1] + [e] + ring[1..];
        InsertAt(ring, 1, e);
        AddBefore(ae, e, ring, 1, after);
        numElements := numElements + 1;
        ring := after;
        if numElements == 1 {
          maxIndex := 0;
          AloneWith(ring, n, v);
          return 1;
        }
        Raise(ae, n, 2, s, v);
      }
      count := numElements;
    }

    /** The end of array_rshift: renumber the elements from place k on and reset the rest. */
    method Raise(ae: Element, n: int, ghost k: nat, ghost s: seq<Entry>, ghost v: Value)
      requires Linked(ring) && Lifted(ring, k, s, v) && head == ring[0] && AtPlace(ring, k, ae) && n > 0
      requires numElements == |ring| - 1
      modifies this`maxIndex, this`lastref, ring`ind
      ensures Valid() && Entries() == RShifted(s, n, v)
    {
      hide Held, Linked, Ordered, RShifted, Moved, Ascending, Lifted;
      RenumberAll(head, ae, n, ring, k, s, v);
      Neighbours(ring, 0);
      maxIndex := head.prev.ind;
      lastref := null;
    }

    /** array_to_word_list: the values, collected front to back onto a list that is then turned round. */
    method ToWordList() returns (list: seq<Value>)
      requires Valid()
      ensures list == Values(Entries())
    {
      hide Linked, Ordered;
      if numElements == 0 {
        return [];
      }
      Neighbours(ring, 0);
      var ae, reversed := head.next, [];
      ghost var k := 1;
      DistinctHead(ring, k);
      while ae != head
        invariant 1 <= k && AtPlace(ring, k, ae) && (k < |ring| ==> ae != head)
        invariant |reversed| == k - 1 && forall j :: 1 <= j < k ==> reversed[k - 1 - j] == ring[j].value
        decreases |ring| - k
      {
        Neighbours(ring, k);
        reversed := [ae.value] + reversed;
        ae, k := ae.next, k + 1;
        DistinctHead(ring, k);
      }
      list := Reverse(reversed);
      assert forall j :: 0 <= j < |list| ==> list[j] == reversed[k - 1 - (j + 1)] == ring[j + 1].value;
    }

    /** array_keys_to_word_list: the indices in decimal. */
    method KeysToWordList() returns (list: seq<string>)
      requires Valid()
      ensures list == KeyTexts(Entries())
    {
      hide Linked, Ordered, Itos;
      if numElements == 0 {
        return [];
      }
      Neighbours(ring, 0);
      var ae, reversed := head.next, [];
      ghost var k := 1;
      DistinctHead(ring, k);
      while ae != head
        invariant 1 <= k && AtPlace(ring, k, ae) && (k < |ring| ==> ae != head)
        invariant |reversed| == k - 1 && forall j :: 1 <= j < k ==> reversed[k - 1 - j] == Itos(ring[j].ind)
        decreases |ring| - k
      {
        Neighbours(ring, k);
        reversed := [Itos(ae.ind)] + reversed;
        ae, k := ae.next, k + 1;
        DistinctHead(ring, k);
      }
      list := Reverse(reversed);
      assert forall j :: 0 <= j < |list| ==> list[j] == reversed[k - 1 - (j + 1)] == Itos(ring[j + 1].ind);
    }

    lemma CachedPlace(cached: Element) returns (k: nat)
      requires Valid() && cached == if lastref != null then lastref else head.next
      ensures k < |ring| && ring[k] == cached && (|ring| > 1 ==> k >= 1)
      ensures lastref == null ==> k == if |ring| > 1 then 1 else 0
    {
      hide Held, Ordered;
      if lastref == null {
        k := if |ring| > 1 then 1 else 0;
      } else {
        k :| 0 <= k < |ring| && ring[k] == cached;
      }
    }

    /** array_copy: new elements with the same contents, and `lastref` at the same place. */
    method Copy() returns (c: Array)
      requires Valid()
      ensures c.Valid() && fresh(c) && (forall x <- c.ring :: fresh(x)) && c.Entries() == Entries()
      ensures |ring| > 1 ==>
        c.lastref != null && c.lastref.ind == (if lastref != null then lastref else ring[1]).ind
    {
      hide Held, Linked, Ordered, Holds, Copied;
      Neighbours(ring, 0);
      RingHolds(ring);
      InOrder(ring, 0, 0);
      ghost var s := Held(ring);
      c := new Array();
      var cached := if lastref != null then lastref else head.next;
      ghost var k := CachedPlace(cached);
      ghost var copy;
      var copied, i, mi;
      copied, i, mi, copy := CopyElements(c.head, head.next, head, cached, ring, 1, |ring|, k);
      SameHeld(ring, copy, 1, s);
      c.maxIndex, c.numElements, c.lastref, c.ring := maxIndex, numElements, copied, copy;
    }

    /** array_slice: the elements from `s` up to, not including, `e`. An empty slice comes with 0 as its
        greatest index and is no proper array. */
    method Slice(s: Element, e: Element, ghost j: nat, ghost k: nat) returns (c: Array)
      requires Valid() && 1 <= j <= k && AtPlace(ring, j, s) && AtPlace(ring, k, e)
      ensures fresh(c) && (forall x <- c.ring :: fresh(x)) && (c.Valid() <==> j < k)
      ensures j < k ==> c.Entries() == Entries()[j - 1..k - 1]
    {
      hide Held, Linked, Ordered, Holds, Copied;
      RingHolds(ring);
      c := new Array();
      ghost var copy;
      var copied;
      copied, c.numElements, c.maxIndex, copy := CopyElements(c.head, s, e, null, ring, j, k, |ring|);
      c.ring := copy;
      SameHeld(ring, copy, j, Held(ring));
      assert c.maxIndex == copy[|copy| - 1].ind <==> j < k;
    }

    /** array_assign_list: the words become the values at 0, 1, 2, ... */
    method AssignList(words: seq<string>)
      requires Valid()
      modifies this, ring
      ensures Valid() && Entries() == Assigned(old(Entries()), words)
      ensures forall x <- ring :: x in old(ring) || fresh(x)
    {
      hide Held, Linked, Ordered, Put;
      for i := 0 to |words|
        invariant Valid() && Entries() == Assigned(old(Entries()), words[..i])
        invariant forall x <- ring :: x in old(ring) || fresh(x)
      {
        assert words[..i + 1][..i] == words[..i];
        assert forall k :: 0 <= k < |ring| ==> ring[k] in ring;
        var r := Insert(i, Some(words[i]));
      }
      assert words[..|words|] == words;
    }
  }

  /** array_from_word_list: null for no words. */
  method FromWordList(words: seq<string>) returns (a: Array?)
    ensures a == null <==> words == []
    ensures a != null ==> a.Valid() && fresh(a) && a.Entries() == Listed(words)
  {
    hide Held, Linked, Ordered, Assigned;
    if words == [] {
      return null;
    }
    a := new Array();
    a.AssignList(words);
    AssignedIsListed(words);
  }
}
