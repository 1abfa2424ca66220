/** Sequences without duplicates, reversal, and insertion. */
module Sequences {

  ghost predicate NoDup<T>(q: seq<T>) {
    forall i, j | 0 <= i < j < |q| :: q[i] != q[j]
  }

  ghost function Elements<T>(q: seq<T>): set<T> {
    set x | x in q
  }

  function Reversed<T>(s: seq<T>): (r: seq<T>)
    ensures |r| == |s|
  {
    if s == [] then [] else Reversed(s[1..]) + [s[0]]
  }

  lemma NoDupEmpty<T>()
    ensures NoDup<T>([])
  {
  }

  lemma NoDupCons<T>(x: T, q: seq<T>)
    requires NoDup(q) && x !in q
    ensures NoDup([x] + q)
  {
    forall i, j | 0 <= i < j < |q| + 1
      ensures ([x] + q)[i] != ([x] + q)[j]
    {
      assert ([x] + q)[j] == q[j - 1] && q[j - 1] in q;
      if i > 0 {
        assert ([x] + q)[i] == q[i - 1];
      }
    }
  }

  lemma NoDupSnoc<T>(q: seq<T>, x: T)
    requires NoDup(q) && x !in q
    ensures NoDup(q + [x])
  {
  }

  lemma NoDupApart<T>(q: seq<T>, i: nat)
    requires NoDup(q) && i < |q|
    ensures forall k | 0 <= k < |q| && k != i :: q[k] != q[i]
  {
  }

  lemma NoDupCut<T>(q: seq<T>, i: nat)
    requires NoDup(q) && i < |q|
    ensures NoDup(q[..i] + q[i + 1..])
  {
    var cut := q[..i] + q[i + 1..];
    assert forall k | 0 <= k < |cut| :: cut[k] == q[if k < i then k else k + 1];
  }

  lemma {:induction false} NoDupElements<T>(q: seq<T>)
    requires NoDup(q)
    ensures |Elements(q)| == |q|
  {
    if q == [] {
      assert Elements(q) == {};
    } else {
      NoDupElements(q[1..]);
      assert Elements(q) == {q[0]} + Elements(q[1..]);
      assert q[0] !in q[1..];
    }
  }

  lemma {:induction false} ReversedMembers<T>(q: seq<T>, x: T)
    ensures x in Reversed(q) <==> x in q
  {
    if q != [] {
      ReversedMembers(q[1..], x);
      assert x in q <==> x == q[0] || x in q[1..];
    }
  }

  lemma {:induction false} ReversedSnoc<T>(q: seq<T>, x: T)
    ensures Reversed(q + [x]) == [x] + Reversed(q)
  {
    if q != [] {
      ReversedSnoc(q[1..], x);
      assert (q + [x])[1..] == q[1..] + [x];
    }
  }

  lemma {:induction false} ReversedElements<T>(q: seq<T>)
    ensures Elements(Reversed(q)) == Elements(q)
    ensures NoDup(q) ==> NoDup(Reversed(q))
  {
    if q != [] {
      ReversedElements(q[1..]);
      assert forall x :: x in Reversed(q[1..]) <==> x in Elements(Reversed(q[1..]));
      assert forall x :: x in q[1..] <==> x in Elements(q[1..]);
      assert Elements(q) == {q[0]} + Elements(q[1..]);
      assert Elements(Reversed(q)) == Elements(Reversed(q[1..])) + {q[0]};
    }
  }

  // ----- Insertion and position -----

  function InsertAt<T>(q: seq<T>, i: nat, x: T): seq<T>
    requires i <= |q|
  {
    q[..i] + [x] + q[i..]
  }

  lemma InsertLength<T>(q: seq<T>, i: nat, x: T)
    requires i <= |q|
    ensures |InsertAt(q, i, x)| == |q| + 1
  {
  }

  lemma InsertMembers<T>(q: seq<T>, i: nat, x: T)
    requires i <= |q|
    ensures forall y :: y in InsertAt(q, i, x) <==> y in q || y == x
  {
    var r := InsertAt(q, i, x);
    assert r[i] == x;
    assert forall k | 0 <= k < |q| :: q[k] == r[if k < i then k else k + 1];
    assert forall k | 0 <= k < |r| && k != i :: r[k] == q[if k < i then k else k - 1];
  }

  lemma NoDupInsert<T>(q: seq<T>, i: nat, x: T)
    requires NoDup(q) && i <= |q| && x !in q
    ensures NoDup(InsertAt(q, i, x))
  {
    var r := InsertAt(q, i, x);
    assert forall k | 0 <= k < |q| :: q[k] in q;
    assert forall k | 0 <= k < |r| && k != i :: r[k] == q[if k < i then k else k - 1];
  }

  lemma NoDupConcat<T>(q: seq<T>, r: seq<T>)
    requires NoDup(q) && NoDup(r) && forall x :: x in q ==> x !in r
    ensures NoDup(q + r)
  {
    forall i, j | 0 <= i < j < |q| + |r|
      ensures (q + r)[i] != (q + r)[j]
    {
      if i < |q| <= j {
        assert q[i] in q && r[j - |q|] in r;
      }
    }
  }

  lemma {:induction false} ReversedAt<T>(q: seq<T>, k: nat)
    requires k < |q|
    ensures Reversed(q)[k] == q[|q| - 1 - k]
  {
    if k < |q| - 1 {
      ReversedAt(q[1..], k);
    }
  }

  ghost function IndexOf<T>(q: seq<T>, x: T): (i: nat)
    requires x in q
    ensures i < |q| && q[i] == x
  {
    if q[0] == x then 0 else 1 + IndexOf(q[1..], x)
  }

  lemma IndexUnique<T>(q: seq<T>, i: nat)
    requires NoDup(q) && i < |q|
    ensures IndexOf(q, q[i]) == i
  {
    NoDupApart(q, i);
  }

  /** Copying a source one element at a time: forward behind `front`, or
      backward before `back`. */
  lemma InsertNext<T>(front: seq<T>, source: seq<T>, back: seq<T>, k: nat)
    requires k < |source|
    ensures InsertAt(front + source[..k] + back, |front| + k, source[k]) == front + source[..k + 1] + back
  {
    assert (front + source[..k] + back)[..|front| + k] == front + source[..k];
    assert (front + source[..k] + back)[|front| + k..] == back;
  }

  lemma InsertPrevious<T>(front: seq<T>, source: seq<T>, back: seq<T>, k: nat)
    requires k < |source|
    ensures InsertAt(front + source[k + 1..] + back, |front|, source[k]) == front + source[k..] + back
  {
    assert (front + source[k + 1..] + back)[..|front|] == front;
    assert (front + source[k + 1..] + back)[|front|..] == source[k + 1..] + back;
    assert source[k..] == [source[k]] + source[k + 1..];
  }
}
