/** array2.c: the same arrays as a vector of slots, grown by doubling, with the first and the greatest index
    in use kept beside it. */
module DenseArray {
  import opened Wrappers
  import opened Seqs
  import opened Decimal
  import opened ArraySpec

  const ARRAY_DEFAULT_SIZE := 1024
  const ARRAY_MAX_DOUBLE := 16777216

  type Slot = Option<Entry>

  /** The elements in use, in order. */
  ghost function Present(slots: seq<Slot>): (s: seq<Entry>)
    ensures |s| <= |slots|
  {
    if slots == [] then []
    else
      var last := slots[|slots| - 1];
      Present(slots[..|slots| - 1]) + if last.Some? then [last.value] else []
  }

  /** An element knows the index of its slot; the slots count from `from`. */
  ghost predicate Numbered(slots: seq<Slot>, from: nat) {
    forall k :: 0 <= k < |slots| && slots[k].Some? ==> slots[k].value.ind == from + k
  }

  predicate Unused(slots: seq<Slot>) { forall k :: 0 <= k < |slots| ==> slots[k] == None }

  function One(slot: Slot): seq<Entry> {
    if slot.Some? then [slot.value] else []
  }

  lemma {:induction false} PresentSplit(a: seq<Slot>, b: seq<Slot>)
    ensures Present(a + b) == Present(a) + Present(b)
    decreases |b|
  {
    if b == [] {
      Units(a);
      Units(Present(a));
    } else {
      var init, last := b[..|b| - 1], b[|b| - 1];
      assert (a + b)[..|a + b| - 1] == a + init;
      PresentSplit(a, init);
      Assoc(Present(a), Present(init), One(last));
    }
  }

  lemma {:induction false} UnusedPresent(slots: seq<Slot>)
    requires Unused(slots)
    ensures Present(slots) == []
  {
    if slots != [] {
      UnusedPresent(slots[..|slots| - 1]);
    }
  }

  lemma UnusedTail(slots: seq<Slot>, tail: seq<Slot>)
    requires Unused(tail)
    ensures Present(slots + tail) == Present(slots)
  {
    PresentSplit(slots, tail);
    UnusedPresent(tail);
  }

  /** The elements in use ascend, each within the slots. */
  lemma {:induction false} PresentAscends(slots: seq<Slot>, from: nat)
    requires Numbered(slots, from)
    ensures Ascending(Present(slots))
    ensures forall e <- Present(slots) :: from <= e.ind < from + |slots|
  {
    if slots != [] {
      PresentAscends(slots[..|slots| - 1], from);
    }
  }

  /** What is before, in and behind a slot. */
  lemma Around(a: seq<Slot>, slot: Slot, b: seq<Slot>)
    ensures Present(a + [slot] + b) == Present(a) + One(slot) + Present(b)
  {
    hide Present, One;
    PresentSplit(a + [slot], b);
    PresentSplit(a, [slot]);
    PresentOne(slot);
  }

  /** The slots as those before, in and behind place i, and what becomes of them by setting that slot. */
  lemma Cut(slots: seq<Slot>, i: nat, slot: Slot)
    requires Numbered(slots, 0) && i < |slots|
    ensures var a, b := slots[..i], slots[i + 1..];
      && slots == a + [slots[i]] + b && slots[i := slot] == a + [slot] + b
      && Numbered(a, 0) && Numbered(b, i + 1)
  {
  }

  /** Numbers below `i`, then those above. */
  ghost predicate Beside(a: seq<Entry>, i: int, b: seq<Entry>) {
    (forall e <- a :: e.ind < i) && forall e <- b :: e.ind > i
  }

  lemma PresentOne(slot: Slot)
    ensures Present([slot]) == One(slot)
  {
    assert [slot][..0] == [];
  }

  /** There are elements if and only if a slot is used. */
  lemma InUse(slots: seq<Slot>, i: nat)
    requires i < |slots| && slots[i].Some?
    ensures Present(slots) != []
  {
    Whole(slots);
    assert slots == slots[..i] + [slots[i]] + slots[i + 1..];
    Around(slots[..i], slots[i], slots[i + 1..]);
  }

  /** Filling slot i is putting a value at index i. */
  lemma PutSlot(slots: seq<Slot>, i: nat, v: Value)
    requires Numbered(slots, 0) && i < |slots|
    ensures var after := slots[i := Some(Entry(i, v))];
      && Numbered(after, 0) && Present(after) == Put(Present(slots), i, v)
      && |Present(after)| == |Present(slots)| + if slots[i].Some? then 0 else 1
  {
    hide Put, Present, Ascending;
    var slot, a, b := Some(Entry(i, v)), slots[..i], slots[i + 1..];
    Cut(slots, i, slot);
    Around(a, slots[i], b);
    Around(a, slot, b);
    PresentAscends(slots, 0);
    PresentAscends(a, 0);
    PresentAscends(b, i + 1);
    PutBetween(Present(a), Present(b), slots[i], i, v);
  }

  lemma PutBetween(a: seq<Entry>, b: seq<Entry>, slot: Slot, i: int, v: Value)
    requires Ascending(a + One(slot) + b) && Beside(a, i, b) && (slot.Some? ==> slot.value.ind == i)
    ensures Put(a + One(slot) + b, i, v) == a + [Entry(i, v)] + b
  {
    hide Put, Ascending;
    if slot.Some? {
      PutOver(a + [slot.value] + b, |a|, v, a + [Entry(i, v)] + b);
    } else {
      Units(a);
      PutBy(a + b, |a|, i, v, a + [Entry(i, v)] + b);
    }
  }

  /** Emptying slot i is unsetting index i, and what the slot held is what was there. */
  lemma UnsetSlot(slots: seq<Slot>, i: nat)
    requires Numbered(slots, 0) && i < |slots|
    ensures var after := slots[i := None];
      && Numbered(after, 0) && Present(after) == Unset(Present(slots), i)
      && |Present(after)| == |Present(slots)| - if slots[i].Some? then 1 else 0
    ensures Find(Present(slots), i) == if slots[i].Some? then Some(slots[i].value.value) else None
  {
    hide Unset, Find, Present, Ascending;
    var a, b := slots[..i], slots[i + 1..];
    Cut(slots, i, None);
    Around(a, slots[i], b);
    Around(a, None, b);
    PresentAscends(slots, 0);
    PresentAscends(a, 0);
    PresentAscends(b, i + 1);
    UnsetBetween(Present(a), Present(b), slots[i], i);
  }

  lemma UnsetBetween(a: seq<Entry>, b: seq<Entry>, slot: Slot, i: int)
    requires Ascending(a + One(slot) + b) && Beside(a, i, b) && (slot.Some? ==> slot.value.ind == i)
    ensures Unset(a + One(slot) + b, i) == a + One(None) + b
    ensures Find(a + One(slot) + b, i) == if slot.Some? then Some(slot.value.value) else None
  {
    hide Unset, Find, Ascending;
    Units(a);
    if slot.Some? {
      UnsetBy(a + [slot.value] + b, |a|, a + b);
    } else {
      NothingAt(a + b, |a|, i);
    }
  }

  /** Nothing is used outside the slots. */
  lemma NoSlot(slots: seq<Slot>, i: int)
    requires Numbered(slots, 0) && (0 <= i < |slots| ==> slots[i] == None)
    ensures Find(Present(slots), i) == None && Unset(Present(slots), i) == Present(slots)
  {
    hide Unset, Find, Present;
    PresentAscends(slots, 0);
    if 0 <= i < |slots| {
      UnsetSlot(slots, i);
      assert slots[i := None] == slots;
    } else {
      NothingAt(Present(slots), if i < 0 then 0 else |Present(slots)|, i);
    }
  }

  /** `max` is the greatest index in use, -1 if there is none. `first` is only a lower bound: removing the last
      element leaves 0 there. */
  ghost predicate Bounded(slots: seq<Slot>, first: int, max: int) {
    && -1 <= max < |slots| && (max == -1 || (slots[max].Some? && first >= 0))
    && forall k :: 0 <= k < |slots| && slots[k].Some? ==> first <= k <= max
  }

  lemma TooShort(slots: seq<Slot>, first: int, max: int)
    requires max >= |slots|
    ensures !Bounded(slots, first, max)
  {
  }

  lemma MaxInUse(slots: seq<Slot>, first: int, max: int)
    requires Bounded(slots, first, max)
    ensures Present(slots) == [] <==> max == -1
    ensures -1 <= max < |slots| && (max >= 0 ==> first >= 0)
    ensures forall i :: i < first || i > max ==> 0 <= i < |slots| ==> slots[i] == None
  {
    hide Present;
    if max == -1 {
      UnusedPresent(slots);
    } else {
      InUse(slots, max);
    }
  }

  lemma PutBounded(slots: seq<Slot>, first: int, max: int, i: nat, e: Entry)
    requires Bounded(slots, first, max) && i < |slots|
    ensures Bounded(slots[i := Some(e)], if first < 0 || i < first then i else first, if i > max then i else max)
  {
  }

  lemma GrownBounded(slots: seq<Slot>, tail: seq<Slot>, first: int, max: int)
    requires Bounded(slots, first, max) && Numbered(slots, 0) && Unused(tail)
    ensures Bounded(slots + tail, first, max) && Numbered(slots + tail, 0)
  {
  }

  /** Where the two searches after a removal may start. */
  lemma EmptiedBounded(slots: seq<Slot>, first: int, max: int, i: nat)
    requires Bounded(slots, first, max) && i < |slots| && slots[i].Some?
    ensures var after := slots[i := None];
      var f := if Present(after) == [] then 0 else first;
      && 0 <= f <= i && (Present(after) == [] ==> Unused(after))
      && (forall k :: 0 <= k < |after| && after[k].Some? ==> f <= k <= max)
      && (Present(after) != [] ==> exists k :: f <= k <= max && after[k].Some?)
  {
    hide Present;
    var after := slots[i := None];
    if Unused(after) {
      UnusedPresent(after);
    } else {
      var k :| 0 <= k < |after| && after[k] != None;
      InUse(after, k);
    }
  }

  lemma MaxStays(slots: seq<Slot>, first: int, max: int, i: nat)
    requires Bounded(slots, first, max) && i < |slots| && slots[i].Some?
    ensures i <= max && (i == max || slots[i := None][max].Some?)
  {
  }

  class Array {
    var elements: array<Slot>
    var allocSize: int
    var maxIndex: int
    var firstIndex: int
    var numElements: int

    ghost predicate Valid()
      reads this, elements
    {
      && allocSize == elements.Length && Numbered(elements[..], 0)
      && numElements == |Present(elements[..])|
      && Bounded(elements[..], firstIndex, maxIndex)
    }

    ghost function Entries(): seq<Entry>
      requires Valid()
      reads this, elements
    {
      Present(elements[..])
    }

    constructor ()
      ensures Valid() && fresh(elements) && Entries() == []
    {
      maxIndex, firstIndex, numElements, allocSize := -1, -1, 0, 0;
      elements := new Slot[0];
    }

    /** array_resize: the slots are copied, the new ones unused; a vector that is large enough stays as it is. It
        is still an array unless the size is less than the greatest index, which then is out of bounds. */
    method Resize(n: int)
      requires Valid() && n >= 0
      modifies this`elements, this`allocSize
      ensures Valid() <==> n >= maxIndex
      ensures n >= maxIndex ==>
        && Entries() == old(Entries())
        && allocSize == if 0 < old(allocSize) && n <= old(allocSize) then old(allocSize) else n
      ensures n < maxIndex ==> allocSize == n == elements.Length && elements[..] == old(elements[..])[..n]
      ensures elements == old(elements) || fresh(elements)
    {
      hide Present, Numbered, Bounded;
      MaxInUse(elements[..], firstIndex, maxIndex);
      if allocSize > 0 && n >= maxIndex && n <= allocSize {
        return;
      }
      if n < maxIndex {
        var part := new Slot[n](k reads this, elements requires 0 <= k < elements.Length => elements[k]);
        assert part[..] == elements[..][..n];
        TooShort(part[..], firstIndex, maxIndex);
        elements := part;
        allocSize := n;
        return;
      }
      ghost var was := elements[..];
      var e := new Slot[n](k reads this, elements requires k >= 0 => if k < elements.Length then elements[k] else None);
      ghost var tail := e[elements.Length..];
      assert e[..] == was + tail;
      UnusedTail(was, tail);
      GrownBounded(was, tail, firstIndex, maxIndex);
      elements := e;
      allocSize := n;
    }

    /** array_expand: room for index `n`, by doubling up to a limit. */
    method Expand(n: int)
      requires Valid() && n >= 0
      modifies this`elements, this`allocSize
      ensures Valid() && Entries() == old(Entries()) && n < allocSize && (elements == old(elements) || fresh(elements))
    {
      if n >= allocSize {
        var nsize := if allocSize != 0 then allocSize else ARRAY_DEFAULT_SIZE;
        while n >= nsize
          invariant nsize > 0 && nsize >= allocSize
          decreases n - nsize
        {
          nsize := nsize * 2;
        }
        if nsize > ARRAY_MAX_DOUBLE {
          nsize := n + ARRAY_DEFAULT_SIZE;
        }
        Resize(nsize);
      }
    }

    /** a[i] = v; 0 if there was a value, -1 for a new element. */
    method Insert(i: int, v: Value) returns (r: int)
      requires Valid() && i >= 0
      modifies this, elements
      ensures Valid() && Entries() == Put(old(Entries()), i, v)
      ensures r == (if Find(old(Entries()), i) == None then -1 else 0)
      ensures elements == old(elements) || fresh(elements)
    {
      hide Present, Numbered, Bounded, Put, Find;
      if i >= allocSize {
        Expand(i);
      }
      ghost var was := elements[..];
      PutSlot(was, i, v);
      UnsetSlot(was, i);
      PutBounded(was, firstIndex, maxIndex, i, Entry(i, v));
      var oldSlot := elements[i];
      if i > maxIndex {
        maxIndex := i;
      }
      if firstIndex < 0 || i < firstIndex {
        firstIndex := i;
      }
      elements[i] := Some(Entry(i, v));
      assert elements[..] == was[i := Some(Entry(i, v))];
      if oldSlot.Some? {
        r := 0;
      } else {
        numElements := numElements + 1;
        r := -1;
      }
    }

    /** The search for a new greatest index; -1 if nothing is in use. */
    method LastUsed(i: int) returns (ind: int)
      requires 0 <= firstIndex <= i < elements.Length
      requires forall k :: 0 <= k < elements.Length && elements[k].Some? ==> firstIndex <= k <= i
      requires firstIndex == 0 || exists k :: firstIndex <= k <= i && elements[k].Some?
      ensures -1 <= ind <= i && (ind >= 0 ==> elements[ind].Some?)
      ensures forall k :: 0 <= k < elements.Length && elements[k].Some? ==> firstIndex <= k <= ind
    {
      ind := i;
      while ind >= firstIndex
        invariant firstIndex - 1 <= ind <= i
        invariant forall k :: 0 <= k < elements.Length && elements[k].Some? ==> firstIndex <= k <= ind
      {
        if elements[ind].Some? {
          break;
        }
        ind := ind - 1;
      }
    }

    /** The search for a new first index. */
    method FirstUsed(i: int) returns (ind: int)
      requires 0 <= i && maxIndex < elements.Length
      requires forall k :: 0 <= k < elements.Length && elements[k].Some? ==> i <= k <= maxIndex
      ensures i <= ind && forall k :: 0 <= k < elements.Length && elements[k].Some? ==> ind <= k <= maxIndex
    {
      ind := i;
      while ind <= maxIndex
        invariant i <= ind && forall k :: 0 <= k < elements.Length && elements[k].Some? ==> ind <= k <= maxIndex
      {
        if elements[ind].Some? {
          break;
        }
        ind := ind + 1;
      }
    }

    method Remove(i: int) returns (r: Slot)
      requires Valid()
      modifies this, elements
      ensures Valid() && Entries() == Unset(old(Entries()), i) && elements == old(elements)
      ensures r == match Find(old(Entries()), i) case Some(v) => Some(Entry(i, v)) case None => None
    {
      hide Present, Bounded, Unset, Find;
      ghost var was := elements[..];
      MaxInUse(was, firstIndex, maxIndex);
      if numElements == 0 || i > maxIndex || i < firstIndex {
        NoSlot(was, i);
        return None;
      }
      UnsetSlot(was, i);
      r := elements[i];
      elements[i] := None;
      assert elements[..] == was[i := None];
      if r.Some? {
        EmptiedBounded(was, firstIndex, maxIndex, i);
        MaxStays(was, firstIndex, maxIndex, i);
        Removed(i, was[i := None]);
      } else {
        assert was[i := None] == was;
      }
    }

    /** The bookkeeping of a removal. */
    method Removed(i: int, ghost after: seq<Slot>)
      requires 0 <= i <= maxIndex < elements.Length && after == elements[..] && numElements == |Present(after)| + 1
      requires var f := if Present(after) == [] then 0 else firstIndex;
        && 0 <= f <= i
        && (forall k :: 0 <= k < |after| && after[k].Some? ==> f <= k <= maxIndex)
        && (Present(after) == [] ==> Unused(after))
        && (Present(after) != [] ==> exists k :: f <= k <= maxIndex && after[k].Some?)
      requires i == maxIndex || after[maxIndex].Some?
      modifies this`firstIndex, this`maxIndex, this`numElements
      ensures Bounded(after, firstIndex, maxIndex) && numElements == |Present(after)|
    {
      hide Present;
      numElements := numElements - 1;
      if numElements == 0 {
        firstIndex := if maxIndex == -1 then 1 else 0;
      }
      if i == maxIndex {
        maxIndex := LastUsed(i);
      }
      if i == firstIndex {
        firstIndex := FirstUsed(i);
      }
    }

    method Reference(i: int) returns (v: Value)
      requires Valid()
      ensures v == match Find(Entries(), i) case Some(w) => w case None => None
    {
      hide Present, Numbered, Bounded, Find;
      MaxInUse(elements[..], firstIndex, maxIndex);
      if numElements == 0 || i > maxIndex || i < firstIndex {
        NoSlot(elements[..], i);
        return None;
      }
      UnsetSlot(elements[..], i);
      var ae := elements[i];
      v := if ae.Some? then ae.value.value else None;
    }

    /** array_to_word_list: the values of the slots in use, collected onto a list that is then turned round. */
    method ToWordList() returns (list: seq<Value>)
      requires Valid()
      ensures list == Values(Entries())
    {
      hide Present, Numbered, Bounded;
      ghost var slots := elements[..];
      MaxInUse(slots, firstIndex, maxIndex);
      if numElements == 0 {
        return [];
      }
      var i, reversed := firstIndex, [];
      BelowFirst(slots, firstIndex, maxIndex);
      while i <= maxIndex
        invariant 0 <= i <= maxIndex + 1 && Reverse(reversed) == Values(Present(slots[..i]))
      {
        TakeSlot(slots, i);
        var ae := elements[i];
        if ae.Some? {
          ReverseOnto(ae.value.value, reversed);
          reversed := [ae.value.value] + reversed;
        }
        i := i + 1;
      }
      AboveMax(slots, firstIndex, maxIndex);
      list := Reverse(reversed);
    }

    /** array_keys_to_word_list: the indices in decimal. */
    method KeysToWordList() returns (list: seq<string>)
      requires Valid()
      ensures list == KeyTexts(Entries())
    {
      hide Present, Numbered, Bounded, Itos;
      ghost var slots := elements[..];
      MaxInUse(slots, firstIndex, maxIndex);
      if numElements == 0 {
        return [];
      }
      var ind, reversed := firstIndex, [];
      BelowFirst(slots, firstIndex, maxIndex);
      while ind <= maxIndex
        invariant 0 <= ind <= maxIndex + 1 && Reverse(reversed) == KeyTexts(Present(slots[..ind]))
      {
        TakeSlot(slots, ind);
        var ae := elements[ind];
        if ae.Some? {
          ReverseOnto(Itos(ae.value.ind), reversed);
          reversed := [Itos(ae.value.ind)] + reversed;
        }
        ind := ind + 1;
      }
      AboveMax(slots, firstIndex, maxIndex);
      list := Reverse(reversed);
    }
  }

  lemma BelowFirst(slots: seq<Slot>, first: int, max: int)
    requires Bounded(slots, first, max) && max >= 0
    ensures 0 <= first <= max && Present(slots[..first]) == []
  {
    hide Present;
    UnusedPresent(slots[..first]);
  }

  lemma AboveMax(slots: seq<Slot>, first: int, max: int)
    requires Bounded(slots, first, max)
    ensures Present(slots[..max + 1]) == Present(slots)
  {
    hide Present;
    assert slots == slots[..max + 1] + slots[max + 1..];
    UnusedTail(slots[..max + 1], slots[max + 1..]);
  }

  lemma TakeSlot(slots: seq<Slot>, i: nat)
    requires i < |slots|
    ensures Present(slots[..i + 1]) == Present(slots[..i]) + One(slots[i])
    ensures slots[i] == None ==> Present(slots[..i + 1]) == Present(slots[..i])
  {
    hide Present;
    TakeOne(slots, i);
    PresentSplit(slots[..i], [slots[i]]);
    PresentOne(slots[i]);
    Units(Present(slots[..i]));
  }
}
