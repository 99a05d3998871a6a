/** Regrouping of sequences, kept out of the proofs that need it. */
module Seqs {
  function Reverse<T>(a: seq<T>): seq<T> {
    seq(|a|, k requires 0 <= k < |a| => a[|a| - 1 - k])
  }

  lemma ReverseOnto<T>(x: T, a: seq<T>)
    ensures Reverse([x] + a) == Reverse(a) + [x]
  {
  }

  lemma Assoc<T>(a: seq<T>, b: seq<T>, c: seq<T>)
    ensures (a + b) + c == a + (b + c)
  {
  }

  lemma Units<T>(a: seq<T>)
    ensures a + [] == a && [] + a == a
  {
  }

  lemma DropOne<T>(a: seq<T>, i: nat)
    requires i < |a|
    ensures a[i..] != [] && a[i..][0] == a[i] && a[i..][1..] == a[i + 1..]
  {
  }

  lemma TakeOne<T>(a: seq<T>, i: nat)
    requires i < |a|
    ensures a[..i + 1] == a[..i] + [a[i]]
  {
  }

  lemma Whole<T>(a: seq<T>)
    ensures a[..|a|] == a && a[0..] == a && a[|a|..] == []
  {
  }

  /** Parts put together. */
  function Flat<T>(parts: seq<seq<T>>): seq<T> {
    if parts == [] then [] else Flat(parts[..|parts| - 1]) + parts[|parts| - 1]
  }

  lemma FlatNone<T>()
    ensures Flat<T>([]) == []
  {
  }

  lemma FlatMore<T>(parts: seq<seq<T>>, part: seq<T>)
    ensures Flat(parts + [part]) == Flat(parts) + part
  {
    assert (parts + [part])[..|parts|] == parts;
  }

  lemma {:induction false} FlatBoth<T>(a: seq<seq<T>>, b: seq<seq<T>>)
    ensures Flat(a + b) == Flat(a) + Flat(b)
    decreases |b|
  {
    if b == [] {
      Units(a);
      Units(Flat(a));
    } else {
      var init, last := b[..|b| - 1], b[|b| - 1];
      FlatBoth(a, init);
      assert (a + b)[..|a + b| - 1] == a + init;
      Assoc(Flat(a), Flat(init), last);
    }
  }

  lemma {:induction false} FlatFirst<T>(parts: seq<seq<T>>)
    requires parts != []
    ensures Flat(parts) == parts[0] + Flat(parts[1..])
    decreases |parts|
  {
    hide Flat;
    var init, last := parts[..|parts| - 1], parts[|parts| - 1];
    assert parts == init + [last];
    FlatMore(init, last);
    FlatNone<T>();
    if init == [] {
      assert parts[1..] == [];
      Units(last);
    } else {
      FlatFirst(init);
      assert parts[1..] == init[1..] + [last];
      FlatMore(init[1..], last);
      Assoc(init[0], Flat(init[1..]), last);
    }
  }
}
