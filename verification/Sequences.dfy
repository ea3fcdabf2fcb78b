/** Facts about sequences without repetition, used for the coroutine rings. */
module Sequences {

  ghost predicate NoDuplicates<T>(q: seq<T>) {
    forall i, j :: 0 <= i < j < |q| ==> q[i] != q[j]
  }

  function IndexOf<T(==)>(q: seq<T>, x: T): (i: nat)
    requires x in q
    ensures i < |q| && q[i] == x && x !in q[..i]
  {
    if q[0] == x then 0 else 1 + IndexOf(q[1..], x)
  }

  function RemoveAt<T>(q: seq<T>, k: nat): seq<T>
    requires k < |q|
  {
    q[..k] + q[k + 1..]
  }

  function Remove<T(==)>(q: seq<T>, x: T): seq<T>
    requires x in q
  {
    RemoveAt(q, IndexOf(q, x))
  }

  function InsertAt<T>(q: seq<T>, k: nat, x: T): seq<T>
    requires k <= |q|
  {
    q[..k] + [x] + q[k..]
  }

  /** What is left of the sequence, in the same order, without the elements of `gone`. */
  ghost function Without<T>(q: seq<T>, gone: set<T>): seq<T> {
    if q == [] then [] else (if q[0] in gone then [] else [q[0]]) + Without(q[1..], gone)
  }

  lemma {:induction false} WithoutMembers<T>(q: seq<T>, gone: set<T>)
    ensures forall x :: x in Without(q, gone) <==> x in q && x !in gone
  {
    if q != [] {
      WithoutMembers(q[1..], gone);
    }
  }

  lemma {:induction false} WithoutNone<T>(q: seq<T>, gone: set<T>)
    requires forall x :: x in q ==> x !in gone
    ensures Without(q, gone) == q
  {
    if q != [] {
      WithoutNone(q[1..], gone);
    }
  }

  lemma WithoutCons<T>(x: T, q: seq<T>, gone: set<T>)
    ensures Without([x] + q, gone) == (if x in gone then [] else [x]) + Without(q, gone)
  {
    assert ([x] + q)[1..] == q;
  }

  lemma {:induction false} WithoutTwice<T>(q: seq<T>, a: set<T>, b: set<T>)
    ensures Without(Without(q, a), b) == Without(q, a + b)
  {
    if q != [] {
      WithoutTwice(q[1..], a, b);
      if q[0] in a {
        assert Without(q, a) == Without(q[1..], a);
      } else {
        WithoutCons(q[0], Without(q[1..], a), b);
      }
    }
  }

  lemma {:induction false} RemoveIsWithout<T>(q: seq<T>, x: T)
    requires NoDuplicates(q) && x in q
    ensures Remove(q, x) == Without(q, {x})
  {
    if q[0] == x {
      WithoutNone(q[1..], {x});
    } else {
      RemoveIsWithout(q[1..], x);
      assert Remove(q, x) == [q[0]] + Remove(q[1..], x);
    }
  }

  lemma RemoveAtBag<T>(q: seq<T>, k: nat)
    requires k < |q|
    ensures multiset(RemoveAt(q, k)) == multiset(q) - multiset{q[k]}
    ensures multiset(q) == multiset(RemoveAt(q, k)) + multiset{q[k]}
  {
    assert q == q[..k] + [q[k]] + q[k + 1..];
    assert multiset(q) == multiset(q[..k]) + multiset{q[k]} + multiset(q[k + 1..]);
    assert multiset(RemoveAt(q, k)) == multiset(q[..k]) + multiset(q[k + 1..]);
  }

  lemma RemoveMembers<T>(q: seq<T>, x: T)
    requires NoDuplicates(q) && x in q
    ensures forall y :: y in Remove(q, x) <==> y in q && y != x
  {
    var k := IndexOf(q, x);
    assert q == q[..k] + [x] + q[k + 1..];
    assert forall j :: k < j < |q| ==> q[j] != x;
  }

  /** A sequence that draws its elements from a set, each at most once, repeats none. */
  lemma BagOfSet<T>(q: seq<T>, s: set<T>)
    requires multiset(q) <= multiset(s)
    ensures NoDuplicates(q)
    ensures forall x :: x in q ==> x in s
    ensures |q| <= |s|
  {
    forall i, j | 0 <= i < j < |q|
      ensures q[i] != q[j]
    {
      assert q == q[..i] + [q[i]] + q[i + 1..j] + [q[j]] + q[j + 1..];
      assert multiset(s)[q[i]] <= 1;
    }
    assert forall x :: x in q ==> x in multiset(q);
    assert |multiset(q) + (multiset(s) - multiset(q))| == |s| by {
      assert multiset(q) + (multiset(s) - multiset(q)) == multiset(s);
    }
  }

  lemma NoDuplicatesBag<T>(q: seq<T>, s: set<T>)
    requires NoDuplicates(q)
    requires forall x :: x in q <==> x in s
    ensures multiset(q) == multiset(s)
    ensures |q| == |s|
  {
    if q != [] {
      var k := |q| - 1;
      assert q == q[..k] + [q[k]];
      NoDuplicatesBag(q[..k], s - {q[k]});
    }
  }
}
