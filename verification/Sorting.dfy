/** A stable sort by key, standing for the library's `sort_by_key`. */
module Sorting {
  ghost predicate Sorted<T>(xs: seq<T>, key: T -> int) {
    forall i :: 0 < i < |xs| ==> key(xs[i - 1]) <= key(xs[i])
  }

  ghost predicate StrictlySorted<T>(xs: seq<T>, key: T -> int) {
    forall i :: 0 < i < |xs| ==> key(xs[i - 1]) < key(xs[i])
  }

  ghost predicate Distinct<T>(xs: seq<T>) {
    forall i, j :: 0 <= i < j < |xs| ==> xs[i] != xs[j]
  }

  function Insert<T>(x: T, xs: seq<T>, key: T -> int): (r: seq<T>)
    ensures multiset(r) == multiset(xs) + multiset{x}
    ensures |r| == |xs| + 1 && (r[0] == x || (|xs| > 0 && r[0] == xs[0]))
    ensures Sorted(xs, key) ==> Sorted(r, key)
  {
    if |xs| == 0 || key(x) <= key(xs[0]) then [x] + xs
    else
      assert xs == [xs[0]] + xs[1..];
      [xs[0]] + Insert(x, xs[1..], key)
  }

  function SortBy<T>(xs: seq<T>, key: T -> int): (r: seq<T>)
    ensures multiset(r) == multiset(xs)
    ensures Sorted(r, key)
  {
    if |xs| == 0 then []
    else
      assert xs == [xs[0]] + xs[1..];
      Insert(xs[0], SortBy(xs[1..], key), key)
  }

  lemma {:induction false} Increasing<T>(xs: seq<T>, key: T -> int, i: nat, j: nat)
    requires Sorted(xs, key) && i <= j < |xs|
    ensures key(xs[i]) <= key(xs[j])
    ensures StrictlySorted(xs, key) && i < j ==> key(xs[i]) < key(xs[j])
    decreases j
  {
    if i < j {
      Increasing(xs, key, i, j - 1);
    }
  }

  lemma FirstIsLeast<T>(xs: seq<T>, key: T -> int, y: T)
    requires Sorted(xs, key) && y in multiset(xs)
    ensures |xs| > 0 && key(xs[0]) <= key(y)
    ensures StrictlySorted(xs, key) && y != xs[0] ==> key(xs[0]) < key(y)
  {
    var i :| 0 <= i < |xs| && xs[i] == y;
    Increasing(xs, key, 0, i);
  }

  lemma RemoveFirst<T>(xs: seq<T>)
    requires |xs| > 0
    ensures multiset(xs[1..]) == multiset(xs) - multiset{xs[0]}
  {
    assert xs == [xs[0]] + xs[1..];
  }

  // When the keys differ there is only one way to list the elements by increasing key.
  lemma {:induction false} SortUnique<T>(xs: seq<T>, ys: seq<T>, key: T -> int)
    requires Sorted(xs, key) && StrictlySorted(ys, key)
    requires multiset(xs) == multiset(ys)
    ensures xs == ys
  {
    assert |multiset(xs)| == |xs| && |multiset(ys)| == |ys|;
    if |xs| > 0 {
      assert xs[0] in multiset(xs) && ys[0] in multiset(ys);
      FirstIsLeast(xs, key, ys[0]);
      FirstIsLeast(ys, key, xs[0]);
      RemoveFirst(xs);
      RemoveFirst(ys);
      SortUnique(xs[1..], ys[1..], key);
      assert xs == [xs[0]] + xs[1..] && ys == [ys[0]] + ys[1..];
    }
  }

  lemma {:induction false} MultisetOfDistinct<T>(xs: seq<T>)
    requires Distinct(xs)
    ensures multiset(xs) == multiset(set x | x in xs)
  {
    if |xs| > 0 {
      var front, last := xs[..|xs| - 1], xs[|xs| - 1];
      MultisetOfDistinct(front);
      assert xs == front + [last] && last !in front;
      assert (set x | x in xs) == (set x | x in front) + {last};
    }
  }
}
