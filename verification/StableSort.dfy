/** The stable sort behind Python's `sorted`, over any total preorder `le`.

    `Sort` is insertion sort; `SortIsPython` states what `sorted` promises of its result: a
    permutation, ordered, with tied elements left in their input order.
 */
module StableSort {

  ghost predicate TotalPreorder<T(!new)>(le: (T, T) -> bool) {
    && (forall x, y :: le(x, y) || le(y, x))
    && (forall x, y, z :: le(x, y) && le(y, z) ==> le(x, z))
  }

  ghost predicate Ordered<T>(le: (T, T) -> bool, xs: seq<T>) {
    forall i, j :: 0 <= i < j < |xs| ==> le(xs[i], xs[j])
  }

  function Insert<T>(le: (T, T) -> bool, x: T, xs: seq<T>): (r: seq<T>)
    ensures |r| == |xs| + 1
  {
    if xs == [] || le(x, xs[0]) then [x] + xs else [xs[0]] + Insert(le, x, xs[1..])
  }

  function Sort<T>(le: (T, T) -> bool, xs: seq<T>): (r: seq<T>)
    ensures |r| == |xs|
  {
    if xs == [] then [] else Insert(le, xs[0], Sort(le, xs[1..]))
  }

  lemma SortCons<T>(le: (T, T) -> bool, x: T, xs: seq<T>)
    ensures Sort(le, [x] + xs) == Insert(le, x, Sort(le, xs))
  {
    assert ([x] + xs)[1..] == xs;
  }

  lemma {:induction false} InsertPermutes<T>(le: (T, T) -> bool, x: T, xs: seq<T>)
    ensures multiset(Insert(le, x, xs)) == multiset(xs) + multiset{x}
  {
    if xs != [] && !le(x, xs[0]) {
      InsertPermutes(le, x, xs[1..]);
      assert xs == [xs[0]] + xs[1..];
    }
  }

  lemma {:induction false} SortPermutes<T>(le: (T, T) -> bool, xs: seq<T>)
    ensures multiset(Sort(le, xs)) == multiset(xs)
  {
    if xs != [] {
      SortPermutes(le, xs[1..]);
      InsertPermutes(le, xs[0], Sort(le, xs[1..]));
      assert xs == [xs[0]] + xs[1..];
    }
  }

  lemma SortKeepsMembers<T>(le: (T, T) -> bool, xs: seq<T>, x: T)
    ensures x in Sort(le, xs) <==> x in xs
  {
    SortPermutes(le, xs);
    assert x in multiset(Sort(le, xs)) <==> x in multiset(xs);
  }

  /** The elements satisfying `p`, in order. */
  function Filter<T(!new)>(p: T -> bool, xs: seq<T>): (r: seq<T>)
    ensures |r| <= |xs|
    ensures forall x :: x in r <==> x in xs && p(x)
  {
    if xs == [] then
      []
    else
      assert xs == [xs[0]] + xs[1..];
      if p(xs[0]) then [xs[0]] + Filter(p, xs[1..]) else Filter(p, xs[1..])
  }

  lemma {:induction false} FilterMultiplicity<T(!new)>(p: T -> bool, xs: seq<T>, x: T)
    ensures multiset(Filter(p, xs))[x] == if p(x) then multiset(xs)[x] else 0
  {
    if xs != [] {
      FilterMultiplicity(p, xs[1..], x);
      assert xs == [xs[0]] + xs[1..];
    }
  }

  lemma {:induction false} FilterSnoc<T(!new)>(p: T -> bool, xs: seq<T>, x: T)
    ensures Filter(p, xs + [x]) == Filter(p, xs) + (if p(x) then [x] else [])
  {
    if xs == [] {
      assert [] + [x] == [x] && [x][1..] == [];
    } else {
      assert (xs + [x])[1..] == xs[1..] + [x];
      FilterSnoc(p, xs[1..], x);
    }
  }

  lemma {:induction false} FilterConcat<T(!new)>(p: T -> bool, xs: seq<T>, ys: seq<T>)
    ensures Filter(p, xs + ys) == Filter(p, xs) + Filter(p, ys)
    decreases |ys|
  {
    hide Filter;
    if ys == [] {
      FilterNone(p, xs);
    } else {
      var n := |ys| - 1;
      FilterConcat(p, xs, ys[..n]);
      FilterSnoc(p, xs + ys[..n], ys[n]);
      FilterSnoc(p, ys[..n], ys[n]);
      LastApart(xs, ys);
      Regrouped(Filter(p, xs), Filter(p, ys[..n]), if p(ys[n]) then [ys[n]] else []);
    }
  }

  lemma FilterNone<T(!new)>(p: T -> bool, xs: seq<T>)
    ensures Filter(p, xs + []) == Filter(p, xs) + Filter(p, [])
  {
    assert xs + [] == xs;
  }

  lemma Regrouped<T>(a: seq<T>, b: seq<T>, c: seq<T>)
    ensures a + b + c == a + (b + c)
  {
  }

  lemma LastApart<T>(xs: seq<T>, ys: seq<T>)
    requires ys != []
    ensures xs + ys[..|ys| - 1] + [ys[|ys| - 1]] == xs + ys
    ensures ys[..|ys| - 1] + [ys[|ys| - 1]] == ys
  {
  }

  lemma FilterPermutes<T(!new)>(p: T -> bool, xs: seq<T>, ys: seq<T>)
    requires multiset(xs) == multiset(ys)
    ensures multiset(Filter(p, xs)) == multiset(Filter(p, ys))
    ensures |Filter(p, xs)| == |Filter(p, ys)|
  {
    var a, b := multiset(Filter(p, xs)), multiset(Filter(p, ys));
    forall x ensures a[x] == b[x] {
      FilterMultiplicity(p, xs, x);
      FilterMultiplicity(p, ys, x);
    }
    assert a == b;
    assert |a| == |Filter(p, xs)| && |b| == |Filter(p, ys)|;
  }

  lemma {:induction false} InsertOrdered<T(!new)>(le: (T, T) -> bool, x: T, xs: seq<T>)
    requires TotalPreorder(le) && Ordered(le, xs)
    ensures Ordered(le, Insert(le, x, xs))
  {
    if xs == [] || le(x, xs[0]) {
    } else {
      InsertOrdered(le, x, xs[1..]);
      InsertPermutes(le, x, xs[1..]);
      var tail := Insert(le, x, xs[1..]);
      forall y | y in tail ensures le(xs[0], y) {
        assert y in multiset(tail);
        assert y == x || y in xs[1..];
      }
    }
  }

  lemma {:induction false} SortOrdered<T(!new)>(le: (T, T) -> bool, xs: seq<T>)
    requires TotalPreorder(le)
    ensures Ordered(le, Sort(le, xs))
  {
    if xs != [] {
      SortOrdered(le, xs[1..]);
      InsertOrdered(le, xs[0], Sort(le, xs[1..]));
    }
  }

  /** Where `Insert` puts an element: at the first position whose element is not strictly below it. */
  lemma {:induction false} InsertAt<T>(le: (T, T) -> bool, x: T, xs: seq<T>, p: nat)
    requires p <= |xs|
    requires forall i :: 0 <= i < p ==> !le(x, xs[i])
    requires p < |xs| ==> le(x, xs[p])
    ensures Insert(le, x, xs) == xs[..p] + [x] + xs[p..]
  {
    if p > 0 {
      InsertAt(le, x, xs[1..], p - 1);
      assert xs[..p] == [xs[0]] + xs[1..][..p - 1];
      assert xs[p..] == xs[1..][p - 1..];
    }
  }

  ghost function Tied<T>(le: (T, T) -> bool, k: T): T -> bool {
    x => le(x, k) && le(k, x)
  }

  lemma {:induction false} InsertStable<T(!new)>(le: (T, T) -> bool, x: T, xs: seq<T>, k: T)
    requires TotalPreorder(le)
    ensures Filter(Tied(le, k), Insert(le, x, xs)) == Filter(Tied(le, k), [x] + xs)
  {
    if xs != [] && !le(x, xs[0]) {
      InsertStable(le, x, xs[1..], k);
      var tail := Insert(le, x, xs[1..]);
      assert ([xs[0]] + tail)[1..] == tail && ([x] + xs)[1..] == xs && ([x] + xs[1..])[1..] == xs[1..];
      // An element that `x` passes over is strictly below `x`, so not both are tied with `k`.
      assert !(Tied(le, k)(x) && Tied(le, k)(xs[0]));
    }
  }

  /** Elements that compare equal keep their input order. */
  lemma {:induction false} SortStable<T(!new)>(le: (T, T) -> bool, xs: seq<T>, k: T)
    requires TotalPreorder(le)
    ensures Filter(Tied(le, k), Sort(le, xs)) == Filter(Tied(le, k), xs)
  {
    if xs != [] {
      var rest := Sort(le, xs[1..]);
      SortStable(le, xs[1..], k);
      InsertStable(le, xs[0], rest, k);
      assert ([xs[0]] + rest)[1..] == rest;
    }
  }

  /** `Sort` returns what `sorted` promises. */
  lemma SortIsPython<T(!new)>(le: (T, T) -> bool, xs: seq<T>)
    requires TotalPreorder(le)
    ensures multiset(Sort(le, xs)) == multiset(xs)
    ensures Ordered(le, Sort(le, xs))
    ensures forall k :: Filter(Tied(le, k), Sort(le, xs)) == Filter(Tied(le, k), xs)
  {
    SortPermutes(le, xs);
    SortOrdered(le, xs);
    forall k ensures Filter(Tied(le, k), Sort(le, xs)) == Filter(Tied(le, k), xs) {
      SortStable(le, xs, k);
    }
  }

  lemma MultisetTail<T>(xs: seq<T>)
    requires xs != []
    ensures multiset(xs[1..]) == multiset(xs) - multiset{xs[0]}
  {
    assert xs == [xs[0]] + xs[1..];
  }

  lemma MultisetWithout<T>(xs: seq<T>, p: nat)
    requires p < |xs|
    ensures multiset(xs) == multiset{xs[p]} + multiset(xs[..p] + xs[p + 1..])
  {
    assert xs == xs[..p] + [xs[p]] + xs[p + 1..];
  }

  /** The first elements of two ordered arrangements of the same elements precede each other. */
  lemma HeadPrecedes<T>(le: (T, T) -> bool, xs: seq<T>, ys: seq<T>)
    requires xs != [] && ys != [] && Ordered(le, xs)
    requires multiset(xs) == multiset(ys)
    ensures ys[0] in xs
    ensures ys[0] == xs[0] || le(xs[0], ys[0])
  {
    assert ys[0] in multiset(xs);
    var i :| 0 <= i < |xs| && xs[i] == ys[0];
  }

  /** What is left of two such arrangements after the first elements, if these are equal. */
  lemma SameTails<T>(le: (T, T) -> bool, xs: seq<T>, ys: seq<T>)
    requires xs != [] && ys != [] && xs[0] == ys[0] && multiset(xs) == multiset(ys)
    requires Ordered(le, xs) && Ordered(le, ys)
    ensures Ordered(le, xs[1..]) && Ordered(le, ys[1..])
    ensures multiset(xs[1..]) == multiset(ys[1..])
  {
    MultisetTail(xs);
    MultisetTail(ys);
  }

  /** Two ordered arrangements of the same elements agree when ties are only between equal elements. */
  lemma {:induction false} OrderedUnique<T>(le: (T, T) -> bool, xs: seq<T>, ys: seq<T>)
    requires Ordered(le, xs) && Ordered(le, ys)
    requires multiset(xs) == multiset(ys)
    requires forall x, y :: x in xs && y in xs && le(x, y) && le(y, x) ==> x == y
    ensures xs == ys
  {
    hide Ordered;
    assert |multiset(xs)| == |xs| && |multiset(ys)| == |ys|;
    if xs != [] {
      HeadPrecedes(le, xs, ys);
      HeadPrecedes(le, ys, xs);
      assert xs[0] == ys[0];
      SameTails(le, xs, ys);
      OrderedUnique(le, xs[1..], ys[1..]);
      assert xs == [xs[0]] + xs[1..] && ys == [ys[0]] + ys[1..];
    }
  }

  /** Sorting forgets the input order when ties are only between equal elements. */
  lemma SortCanonical<T(!new)>(le: (T, T) -> bool, xs: seq<T>, ys: seq<T>)
    requires TotalPreorder(le)
    requires multiset(xs) == multiset(ys)
    requires forall x, y :: x in xs && y in xs && le(x, y) && le(y, x) ==> x == y
    ensures Sort(le, xs) == Sort(le, ys)
  {
    SortOrdered(le, xs);
    SortOrdered(le, ys);
    SortPermutes(le, xs);
    SortPermutes(le, ys);
    forall x | x in Sort(le, xs) || x in Sort(le, ys) ensures x in Sort(le, xs) <==> x in xs
                                                      ensures x in Sort(le, ys) <==> x in ys {
      SortKeepsMembers(le, xs, x);
      SortKeepsMembers(le, ys, x);
    }
    assert forall y :: y in ys ==> y in multiset(xs);
    OrderedUnique(le, Sort(le, xs), Sort(le, ys));
  }
}
