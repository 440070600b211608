/** Sequence vocabulary shared by the models: filtering, duplicates and deletion. */
module Seqs {

  predicate NoDup<T(==)>(xs: seq<T>) {
    forall i, j | 0 <= i < j < |xs| :: xs[i] != xs[j]
  }

  function ToSet<T>(xs: seq<T>): set<T> {
    set x | x in xs
  }

  function Filter<T>(xs: seq<T>, p: T -> bool): (r: seq<T>)
    ensures forall x | x in r :: x in xs && p(x)
    ensures forall x | x in xs && p(x) :: x in r
    ensures |r| <= |xs|
  {
    if xs == [] then []
    else if p(xs[0]) then [xs[0]] + Filter(xs[1..], p)
    else Filter(xs[1..], p)
  }

  function NotEq<T(==)>(x: T): T -> bool { (y: T) => y != x }

  function Without<T(==)>(xs: seq<T>, x: T): seq<T> {
    Filter(xs, NotEq(x))
  }

  function DeleteAt<T>(xs: seq<T>, i: nat): seq<T>
    requires i < |xs|
  {
    xs[..i] + xs[i + 1..]
  }

  /** The first position of x. */
  function IndexOf<T(==)>(xs: seq<T>, x: T): (i: nat)
    requires x in xs
    ensures i < |xs| && xs[i] == x && x !in xs[..i]
  {
    if xs[0] == x then 0
    else
      assert xs == [xs[0]] + xs[1..];
      var i := 1 + IndexOf(xs[1..], x);
      assert xs[..i] == [xs[0]] + xs[1..][..i - 1];
      i
  }

  /** The last n elements, or all of them. */
  function Suffix<T>(xs: seq<T>, n: nat): seq<T> {
    if |xs| <= n then xs else xs[|xs| - n..]
  }

  lemma ConcatAssoc<T>(a: seq<T>, b: seq<T>, c: seq<T>)
    ensures (a + b) + c == a + (b + c)
  {
  }

  lemma DeleteMultiset<T>(xs: seq<T>, i: nat)
    requires i < |xs|
    ensures multiset(xs) == multiset{xs[i]} + multiset(DeleteAt(xs, i))
  {
    assert xs == xs[..i] + ([xs[i]] + xs[i + 1..]);
  }

  lemma SuffixRest<T>(xs: seq<T>, n: nat)
    requires |xs| > n
    ensures Suffix(xs, n) == Suffix(xs[1..], n)
  {
  }

  lemma SuffixOfConcat<T>(a: seq<T>, b: seq<T>, n: nat)
    requires n <= |b|
    ensures Suffix(a + b, n) == Suffix(b, n)
  {
  }

  lemma PrefixSnoc<T>(xs: seq<T>, i: nat)
    requires i < |xs|
    ensures xs[..i + 1] == xs[..i] + [xs[i]]
  {
  }

  lemma ToSetSnoc<T>(xs: seq<T>, x: T)
    ensures ToSet(xs + [x]) == ToSet(xs) + {x}
  {
  }

  lemma {:induction false} FilterConcat<T>(a: seq<T>, b: seq<T>, p: T -> bool)
    ensures Filter(a + b, p) == Filter(a, p) + Filter(b, p)
  {
    if a == [] {
      assert a + b == b;
    } else {
      FilterCons(a[0], a[1..], p);
      FilterCons(a[0], a[1..] + b, p);
      assert a == [a[0]] + a[1..];
      ConcatAssoc([a[0]], a[1..], b);
      FilterConcat(a[1..], b, p);
      ConcatAssoc([a[0]], Filter(a[1..], p), Filter(b, p));
    }
  }

  lemma FilterCons<T>(x: T, rest: seq<T>, p: T -> bool)
    ensures Filter([x] + rest, p) == if p(x) then [x] + Filter(rest, p) else Filter(rest, p)
  {
    assert ([x] + rest)[1..] == rest;
  }

  lemma FilterSnoc<T>(a: seq<T>, x: T, p: T -> bool)
    ensures Filter(a + [x], p) == if p(x) then Filter(a, p) + [x] else Filter(a, p)
  {
    FilterConcat(a, [x], p);
  }

  lemma {:induction false} FilterAll<T>(a: seq<T>, p: T -> bool)
    requires forall x | x in a :: p(x)
    ensures Filter(a, p) == a
  {
    if a != [] {
      FilterAll(a[1..], p);
    }
  }

  lemma {:induction false} FilterNone<T>(a: seq<T>, p: T -> bool)
    requires forall x | x in a :: !p(x)
    ensures Filter(a, p) == []
  {
    if a != [] {
      FilterNone(a[1..], p);
    }
  }

  /** Two filters one after the other are the filter by the conjunction. */
  lemma {:induction false} FilterTwice<T>(a: seq<T>, p: T -> bool, q: T -> bool, both: T -> bool)
    requires forall x | x in a :: both(x) == (p(x) && q(x))
    ensures Filter(Filter(a, p), q) == Filter(a, both)
  {
    if a != [] {
      FilterTwice(a[1..], p, q, both);
    }
  }

  lemma {:induction false} FilterMultiset<T>(a: seq<T>, p: T -> bool, notP: T -> bool)
    requires forall x | x in a :: notP(x) == !p(x)
    ensures multiset(a) == multiset(Filter(a, p)) + multiset(Filter(a, notP))
  {
    if a != [] {
      assert a == [a[0]] + a[1..];
      FilterMultiset(a[1..], p, notP);
    }
  }

  /** p holds of every element but the one at position i. */
  ghost predicate AllBut<T>(a: seq<T>, i: nat, p: T -> bool)
    requires i < |a|
  {
    !p(a[i]) && (forall x | x in a[..i] :: p(x)) && (forall x | x in a[i + 1..] :: p(x))
  }

  lemma AllButRest<T>(a: seq<T>, i: nat, p: T -> bool)
    requires 0 < i < |a| && AllBut(a, i, p)
    ensures p(a[0]) && AllBut(a[1..], i - 1, p)
  {
    assert a[0] == a[..i][0];
    assert a[1..][..i - 1] == a[..i][1..];
    assert a[1..][i..] == a[i + 1..];
  }

  lemma DeleteRest<T>(a: seq<T>, i: nat)
    requires 0 < i < |a|
    ensures DeleteAt(a, i) == [a[0]] + DeleteAt(a[1..], i - 1)
  {
  }

  /** Filtering out the one element at position i deletes that position. */
  lemma {:induction false} FilterDeletes<T>(a: seq<T>, i: nat, p: T -> bool)
    requires i < |a| && AllBut(a, i, p)
    ensures Filter(a, p) == DeleteAt(a, i)
  {
    if i == 0 {
      FilterAll(a[1..], p);
    } else {
      AllButRest(a, i, p);
      DeleteRest(a, i);
      FilterDeletes(a[1..], i - 1, p);
    }
  }

  lemma NoDupAllBut<T>(a: seq<T>, i: nat)
    requires NoDup(a) && i < |a|
    ensures AllBut(a, i, NotEq(a[i]))
  {
  }

  lemma ThreeDistinct<T>(x: T, y: T, z: T)
    requires NoDup([x, y, z])
    ensures x != y && x != z && y != z
  {
    var xs := [x, y, z];
    assert xs[0] != xs[1] && xs[0] != xs[2] && xs[1] != xs[2];
  }

  lemma {:induction false} FilterNoDup<T>(a: seq<T>, p: T -> bool)
    requires NoDup(a)
    ensures NoDup(Filter(a, p))
  {
    if a != [] {
      FilterNoDup(a[1..], p);
      assert a[0] !in a[1..];
    }
  }

  lemma {:induction false} NoDupCard<T>(xs: seq<T>)
    requires NoDup(xs)
    ensures |ToSet(xs)| == |xs|
  {
    if xs != [] {
      NoDupCard(xs[1..]);
      assert ToSet(xs) == {xs[0]} + ToSet(xs[1..]);
    }
  }

  lemma CountTwice<T>(xs: seq<T>, i: nat, j: nat)
    requires i < j < |xs| && xs[i] == xs[j]
    ensures multiset(xs)[xs[i]] >= 2
  {
    assert xs == xs[..j] + xs[j..];
    assert xs[i] == xs[..j][i] && xs[j] == xs[j..][0];
    assert xs[i] in multiset(xs[..j]) && xs[i] in multiset(xs[j..]);
  }

  lemma {:induction false} NoDupCountsOnce<T>(xs: seq<T>, x: T)
    requires NoDup(xs)
    ensures multiset(xs)[x] <= 1
  {
    if xs != [] {
      assert xs == [xs[0]] + xs[1..];
      NoDupCountsOnce(xs[1..], x);
      assert xs[0] !in xs[1..];
    }
  }
}
