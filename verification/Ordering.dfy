/** Byte-wise string order and stable sorting, as `str::cmp` and `slice::sort_by`
    give them. A string stands for its UTF-8 bytes, one `char` per byte. */
module Ordering {

  // ----- strings -----

  predicate StrLeq(a: string, b: string) {
    |a| == 0 || (|b| > 0 && (a[0] < b[0] || (a[0] == b[0] && StrLeq(a[1..], b[1..]))))
  }

  lemma {:induction false} StrTotal(a: string, b: string)
    ensures StrLeq(a, b) || StrLeq(b, a)
  {
    if |a| > 0 && |b| > 0 && a[0] == b[0] {
      StrTotal(a[1..], b[1..]);
    }
  }

  lemma {:induction false} StrAntisymmetric(a: string, b: string)
    requires StrLeq(a, b) && StrLeq(b, a)
    ensures a == b
  {
    if |a| > 0 {
      StrAntisymmetric(a[1..], b[1..]);
      assert a == [a[0]] + a[1..] && b == [b[0]] + b[1..];
    }
  }

  lemma {:induction false} StrTransitive(a: string, b: string, c: string)
    requires StrLeq(a, b) && StrLeq(b, c)
    ensures StrLeq(a, c)
  {
    if |a| > 0 && a[0] == b[0] && b[0] == c[0] {
      StrTransitive(a[1..], b[1..], c[1..]);
    }
  }

  lemma {:induction false} PrefixIsBelow(a: string, b: string)
    requires a <= b
    ensures StrLeq(a, b)
  {
    if |a| > 0 {
      assert a[1..] <= b[1..];
      PrefixIsBelow(a[1..], b[1..]);
    }
  }

  // ----- stable sorting -----

  ghost predicate TotalPreorder<T(!new)>(leq: (T, T) -> bool) {
    && (forall a, b :: leq(a, b) || leq(b, a))
    && (forall a, b, c :: leq(a, b) && leq(b, c) ==> leq(a, c))
  }

  ghost predicate Sorted<T>(xs: seq<T>, leq: (T, T) -> bool) {
    forall i, j | 0 <= i < j < |xs| :: leq(xs[i], xs[j])
  }

  predicate Same<T>(a: T, b: T, leq: (T, T) -> bool) {
    leq(a, b) && leq(b, a)
  }

  /** The elements that compare equal to `x`, in order. */
  function Class<T>(xs: seq<T>, x: T, leq: (T, T) -> bool): seq<T> {
    if |xs| == 0 then []
    else (if Same(xs[0], x, leq) then [xs[0]] else []) + Class(xs[1..], x, leq)
  }

  function Insert<T>(x: T, xs: seq<T>, leq: (T, T) -> bool): seq<T> {
    if |xs| == 0 || leq(x, xs[0]) then [x] + xs
    else [xs[0]] + Insert(x, xs[1..], leq)
  }

  function Sort<T>(xs: seq<T>, leq: (T, T) -> bool): seq<T> {
    if |xs| == 0 then [] else Insert(xs[0], Sort(xs[1..], leq), leq)
  }

  lemma TakeOut<T>(xs: seq<T>, k: nat)
    requires k < |xs|
    ensures xs == xs[..k] + [xs[k]] + xs[k + 1..]
    ensures multiset(xs) == multiset{xs[k]} + multiset(xs[..k] + xs[k + 1..])
  {
    assert xs == xs[..k] + [xs[k]] + xs[k + 1..];
  }

  lemma CancelOne<T>(x: T, a: multiset<T>, b: multiset<T>)
    requires multiset{x} + a == multiset{x} + b
    ensures a == b
  {
    assert a == multiset{x} + a - multiset{x};
    assert b == multiset{x} + b - multiset{x};
  }

  lemma HeadAndTail<T>(xs: seq<T>)
    requires |xs| > 0
    ensures multiset(xs) == multiset{xs[0]} + multiset(xs[1..])
  {
    assert xs == [xs[0]] + xs[1..];
  }

  lemma {:induction false} InsertAdds<T>(x: T, xs: seq<T>, leq: (T, T) -> bool)
    ensures multiset(Insert(x, xs, leq)) == multiset{x} + multiset(xs)
  {
    if |xs| > 0 {
      HeadAndTail(xs);
      InsertAdds(x, xs[1..], leq);
    }
  }

  lemma SortedCons<T>(x: T, xs: seq<T>, leq: (T, T) -> bool)
    requires Sorted(xs, leq) && forall y | y in xs :: leq(x, y)
    ensures Sorted([x] + xs, leq)
  {
  }

  lemma {:induction false} InsertKeepsOrder<T(!new)>(x: T, xs: seq<T>, leq: (T, T) -> bool)
    requires TotalPreorder(leq) && Sorted(xs, leq)
    ensures Sorted(Insert(x, xs, leq), leq)
  {
    if |xs| == 0 {
    } else if leq(x, xs[0]) {
      forall y | y in xs ensures leq(x, y) {}
      SortedCons(x, xs, leq);
    } else {
      var tail := Insert(x, xs[1..], leq);
      InsertKeepsOrder(x, xs[1..], leq);
      InsertAdds(x, xs[1..], leq);
      forall y | y in tail ensures leq(xs[0], y) {
        assert y in multiset(tail);
      }
      SortedCons(xs[0], tail, leq);
    }
  }

  lemma {:induction false} SortSorts<T(!new)>(xs: seq<T>, leq: (T, T) -> bool)
    requires TotalPreorder(leq)
    ensures Sorted(Sort(xs, leq), leq)
    ensures multiset(Sort(xs, leq)) == multiset(xs)
  {
    if |xs| > 0 {
      SortSorts(xs[1..], leq);
      InsertKeepsOrder(xs[0], Sort(xs[1..], leq), leq);
      InsertAdds(xs[0], Sort(xs[1..], leq), leq);
      HeadAndTail(xs);
    }
  }

  lemma {:induction false} InsertIsStable<T(!new)>(x: T, xs: seq<T>, y: T, leq: (T, T) -> bool)
    requires TotalPreorder(leq) && Sorted(xs, leq)
    ensures Class(Insert(x, xs, leq), y, leq) == Class([x] + xs, y, leq)
  {
    assert ([x] + xs)[1..] == xs;
    if |xs| > 0 && !leq(x, xs[0]) {
      InsertIsStable(x, xs[1..], y, leq);
      assert ([x] + xs[1..])[1..] == xs[1..];
      assert ([xs[0]] + Insert(x, xs[1..], leq))[1..] == Insert(x, xs[1..], leq);
    }
  }

  /** Equal elements keep their order: the sort is the stable one. */
  lemma {:induction false} SortIsStable<T(!new)>(xs: seq<T>, y: T, leq: (T, T) -> bool)
    requires TotalPreorder(leq)
    ensures Class(Sort(xs, leq), y, leq) == Class(xs, y, leq)
  {
    if |xs| > 0 {
      SortIsStable(xs[1..], y, leq);
      SortSorts(xs[1..], leq);
      InsertIsStable(xs[0], Sort(xs[1..], leq), y, leq);
      assert ([xs[0]] + Sort(xs[1..], leq))[1..] == Sort(xs[1..], leq);
    }
  }

  ghost predicate NoTies<T>(xs: seq<T>, leq: (T, T) -> bool) {
    forall x, y | x in xs && y in xs && Same(x, y, leq) :: x == y
  }

  lemma LeastComesFirst<T(!new)>(a: seq<T>, x: T, leq: (T, T) -> bool)
    requires TotalPreorder(leq) && Sorted(a, leq) && x in multiset(a)
    ensures |a| > 0 && leq(a[0], x)
  {
    var i :| 0 <= i < |a| && a[i] == x;
  }

  lemma SameHeads<T(!new)>(a: seq<T>, b: seq<T>, leq: (T, T) -> bool)
    requires TotalPreorder(leq) && NoTies(a, leq) && |a| > 0
    requires Sorted(a, leq) && Sorted(b, leq) && multiset(a) == multiset(b)
    ensures |b| > 0 && a[0] == b[0]
  {
    assert a[0] in multiset(a);
    LeastComesFirst(b, a[0], leq);
    assert b[0] in multiset(b);
    LeastComesFirst(a, b[0], leq);
    assert b[0] in a && Same(a[0], b[0], leq);
  }

  lemma SameTails<T>(a: seq<T>, b: seq<T>)
    requires |a| > 0 && |b| > 0 && multiset(a) == multiset(b) && a[0] == b[0]
    ensures multiset(a[1..]) == multiset(b[1..])
  {
    HeadAndTail(a);
    HeadAndTail(b);
    CancelOne(a[0], multiset(a[1..]), multiset(b[1..]));
  }

  /** Without ties a sorted sequence is determined by its elements. */
  lemma {:induction false} SortedIsUnique<T(!new)>(a: seq<T>, b: seq<T>, leq: (T, T) -> bool)
    requires TotalPreorder(leq) && NoTies(a, leq)
    requires Sorted(a, leq) && Sorted(b, leq) && multiset(a) == multiset(b)
    ensures a == b
  {
    if |a| == 0 {
      assert |multiset(b)| == 0;
    } else {
      SameHeads(a, b, leq);
      SameTails(a, b);
      SortedIsUnique(a[1..], b[1..], leq);
      assert a == [a[0]] + a[1..] && b == [b[0]] + b[1..];
    }
  }

  ghost predicate Permuted<T>(a: seq<T>, b: seq<T>) {
    multiset(a) == multiset(b)
  }

  /** Sorting forgets the order of its input exactly when no two different
      elements compare equal. */
  lemma SortForgetsOrder<T(!new)>(xs: seq<T>, leq: (T, T) -> bool)
    requires TotalPreorder(leq)
    ensures NoTies(xs, leq) <==> forall ys | Permuted(xs, ys) :: Sort(ys, leq) == Sort(xs, leq)
  {
    if NoTies(xs, leq) {
      forall ys | Permuted(xs, ys) ensures Sort(ys, leq) == Sort(xs, leq) {
        SortsAlike(xs, ys, leq);
      }
    } else {
      var x, y :| x in xs && y in xs && Same(x, y, leq) && x != y;
      var a, b := TiesAreVisible(xs, x, y, leq);
      assert Permuted(xs, a) && Permuted(xs, b);
    }
  }

  lemma TiesAreVisible<T(!new)>(xs: seq<T>, x: T, y: T, leq: (T, T) -> bool)
    returns (a: seq<T>, b: seq<T>)
    requires TotalPreorder(leq) && x in xs && y in xs && Same(x, y, leq) && x != y
    ensures Permuted(xs, a) && Permuted(xs, b) && Sort(a, leq) != Sort(b, leq)
  {
    var rest := TwoAside(xs, x, y);
    a, b := [x, y] + rest, [y, x] + rest;
    SortIsStable(a, x, leq);
    SortIsStable(b, x, leq);
    assert Class(a, x, leq)[0] == x && Class(b, x, leq)[0] == y;
  }

  lemma SortsAlike<T(!new)>(xs: seq<T>, ys: seq<T>, leq: (T, T) -> bool)
    requires TotalPreorder(leq) && NoTies(xs, leq) && Permuted(xs, ys)
    ensures Sort(ys, leq) == Sort(xs, leq)
  {
    SortSorts(xs, leq);
    SortSorts(ys, leq);
    forall x | x in Sort(xs, leq) ensures x in xs {
      assert x in multiset(Sort(xs, leq));
    }
    SortedIsUnique(Sort(xs, leq), Sort(ys, leq), leq);
  }

  lemma OneAside<T>(xs: seq<T>, x: T) returns (rest: seq<T>)
    requires x in xs
    ensures multiset(xs) == multiset{x} + multiset(rest)
  {
    var i :| 0 <= i < |xs| && xs[i] == x;
    rest := xs[..i] + xs[i + 1..];
    TakeOut(xs, i);
  }

  /** Some arrangement of what is left of `xs` without one `x` and one `y`. */
  lemma TwoAside<T>(xs: seq<T>, x: T, y: T) returns (rest: seq<T>)
    requires x in xs && y in xs && x != y
    ensures multiset([x, y] + rest) == multiset(xs) == multiset([y, x] + rest)
  {
    var without := OneAside(xs, x);
    assert y in multiset(xs);
    assert y in multiset(without);
    rest := OneAside(without, y);
  }

  lemma {:induction false} SortedStays<T>(xs: seq<T>, leq: (T, T) -> bool)
    requires Sorted(xs, leq)
    ensures Sort(xs, leq) == xs
  {
    if |xs| > 0 {
      SortedStays(xs[1..], leq);
      assert xs == [xs[0]] + xs[1..];
    }
  }

  /** Where the last element of `a` sits in a permutation of it. */
  lemma FindLast<T>(a: seq<T>, b: seq<T>) returns (k: nat)
    requires Permuted(a, b) && |a| > 0
    ensures k < |b| && b[k] == a[|a| - 1] && b == b[..k] + [b[k]] + b[k + 1..]
    ensures Permuted(a[..|a| - 1], b[..k] + b[k + 1..])
  {
    var n := |a| - 1;
    assert a[n] in multiset(a);
    k :| 0 <= k < |b| && b[k] == a[n];
    TakeOut(a, n);
    assert a[..n] + a[n + 1..] == a[..n];
    TakeOut(b, k);
    CancelOne(a[n], multiset(a[..n]), multiset(b[..k] + b[k + 1..]));
  }
}
