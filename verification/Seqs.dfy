/**
 Sequence facts shared by the queue-based models: duplicate-free sequences,
 removal of one element, and filtering by a set of elements to drop.
 */
module Seqs {

  datatype Option<+T> = None | Some(value: T)

  ghost predicate NoDup<T(!new)>(q: seq<T>) {
    forall i, j :: 0 <= i < j < |q| ==> q[i] != q[j]
  }

  ghost function Elems<T>(q: seq<T>): set<T> {
    set x | x in q
  }

  /** `q` without the elements of `drop`, order kept. */
  function Without<T(==,!new)>(q: seq<T>, drop: set<T>): (r: seq<T>)
    ensures |r| <= |q|
    ensures forall x :: x in r <==> x in q && x !in drop
  {
    if q == [] then []
    else if q[0] in drop then Without(q[1..], drop)
    else [q[0]] + Without(q[1..], drop)
  }

  lemma {:induction false} WithoutNoDup<T(!new)>(q: seq<T>, drop: set<T>)
    requires NoDup(q)
    ensures NoDup(Without(q, drop))
  {
    if q != [] {
      WithoutNoDup(q[1..], drop);
      assert forall x :: x in Without(q[1..], drop) ==> x in q[1..];
      assert q[0] !in q[1..];
    }
  }

  lemma {:induction false} WithoutAppend<T(!new)>(a: seq<T>, b: seq<T>, drop: set<T>)
    ensures Without(a + b, drop) == Without(a, drop) + Without(b, drop)
  {
    if a == [] {
      assert a + b == b;
    } else {
      assert (a + b)[1..] == a[1..] + b;
      WithoutAppend(a[1..], b, drop);
    }
  }

  lemma {:induction false} WithoutNothing<T(!new)>(q: seq<T>, drop: set<T>)
    requires forall x :: x in q ==> x !in drop
    ensures Without(q, drop) == q
  {
    if q != [] {
      WithoutNothing(q[1..], drop);
    }
  }

  lemma RotateNoDup<T(!new)>(q: seq<T>, j: nat)
    requires j <= |q| && NoDup(q)
    ensures NoDup(q[j..] + q[..j])
    ensures forall x :: x in q[j..] + q[..j] <==> x in q
  {
    assert q == q[..j] + q[j..];
  }

  lemma AppendNoDup<T(!new)>(q: seq<T>, x: T)
    requires NoDup(q) && x !in q
    ensures NoDup(q + [x])
    ensures forall y :: y in q + [x] <==> y in q || y == x
  {
  }

  lemma TailNoDup<T(!new)>(q: seq<T>)
    requires q != [] && NoDup(q)
    ensures NoDup(q[1..])
    ensures forall x :: x in q[1..] <==> x in q && x != q[0]
  {
    forall x | x in q && x != q[0]
      ensures x in q[1..]
    {
      var i :| 0 <= i < |q| && q[i] == x;
      assert q[1..][i - 1] == x;
    }
  }
}
