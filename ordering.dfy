/** Python's ordering of strings (lexicographic by code point) and the
    `sorted(...)` and `sorted(set(...))` built on it. */
module Ordering {
  import opened Seqs

  /** `a <= b` on Python strings. */
  predicate Below(a: string, b: string)
    decreases |a|
  {
    a == [] || (b != [] && (a[0] < b[0] || (a[0] == b[0] && Below(a[1..], b[1..]))))
  }

  lemma {:induction false} BelowReflexive(a: string)
    ensures Below(a, a)
    decreases |a|
  {
    if a != [] { BelowReflexive(a[1..]); }
  }

  lemma {:induction false} BelowTotal(a: string, b: string)
    ensures Below(a, b) || Below(b, a)
    decreases |a|
  {
    if a != [] && b != [] && a[0] == b[0] { BelowTotal(a[1..], b[1..]); }
  }

  lemma {:induction false} BelowAntisymmetric(a: string, b: string)
    requires Below(a, b) && Below(b, a)
    ensures a == b
    decreases |a|
  {
    if a != [] && b != [] {
      BelowAntisymmetric(a[1..], b[1..]);
      assert a == [a[0]] + a[1..] && b == [b[0]] + b[1..];
    }
  }

  lemma {:induction false} BelowTransitive(a: string, b: string, c: string)
    requires Below(a, b) && Below(b, c)
    ensures Below(a, c)
    decreases |a|
  {
    if a != [] && a[0] == b[0] && b[0] == c[0] {
      BelowTransitive(a[1..], b[1..], c[1..]);
    }
  }

  /** Ascending, repetitions allowed: what `sorted` returns. */
  predicate Sorted(xs: seq<string>) {
    forall i, j :: 0 <= i < j < |xs| ==> Below(xs[i], xs[j])
  }

  /** Strictly ascending: what `sorted(set(...))` returns. */
  predicate StrictlySorted(xs: seq<string>) {
    Sorted(xs) && Distinct(xs)
  }

  lemma SortedCons(h: string, t: seq<string>)
    requires Sorted(t)
    requires forall y :: y in t ==> Below(h, y)
    ensures Sorted([h] + t)
  {
    var r := [h] + t;
    forall i, j | 0 <= i < j < |r| ensures Below(r[i], r[j]) {
      assert r[j] == t[j - 1];
      if i > 0 { assert r[i] == t[i - 1]; }
    }
  }

  /** `x` placed in front of the first element it is below. */
  function Insert(x: string, xs: seq<string>): (r: seq<string>)
    requires Sorted(xs)
    ensures Sorted(r)
    ensures multiset(r) == multiset(xs) + multiset{x}
    decreases |xs|
  {
    if xs == [] then [x]
    else if Below(x, xs[0]) then
      InsertFront(x, xs);
      [x] + xs
    else
      var rest := Insert(x, xs[1..]);
      InsertBehind(x, xs, rest);
      [xs[0]] + rest
  }

  lemma InsertFront(x: string, xs: seq<string>)
    requires Sorted(xs) && xs != [] && Below(x, xs[0])
    ensures Sorted([x] + xs)
    ensures multiset([x] + xs) == multiset(xs) + multiset{x}
  {
    forall y | y in xs ensures Below(x, y) {
      var j :| 0 <= j < |xs| && xs[j] == y;
      if j > 0 { BelowTransitive(x, xs[0], y); }
    }
    SortedCons(x, xs);
  }

  lemma InsertBehind(x: string, xs: seq<string>, rest: seq<string>)
    requires Sorted(xs) && xs != [] && !Below(x, xs[0])
    requires Sorted(rest) && multiset(rest) == multiset(xs[1..]) + multiset{x}
    ensures Sorted([xs[0]] + rest)
    ensures multiset([xs[0]] + rest) == multiset(xs) + multiset{x}
  {
    BelowTotal(x, xs[0]);
    forall y | y in rest ensures Below(xs[0], y) {
      assert y in multiset(rest);
      if y != x {
        assert y in xs[1..];
        var j :| 0 <= j < |xs[1..]| && xs[1..][j] == y;
        assert xs[j + 1] == y;
      }
    }
    SortedCons(xs[0], rest);
    assert xs == [xs[0]] + xs[1..];
  }

  /** `sorted(xs)`: an ascending permutation of `xs`. */
  function Sort(xs: seq<string>): (r: seq<string>)
    ensures Sorted(r)
    ensures multiset(r) == multiset(xs)
    decreases |xs|
  {
    if xs == [] then []
    else
      assert xs == [xs[0]] + xs[1..];
      Insert(xs[0], Sort(xs[1..]))
  }

  /** An ascending order of a given multiset of strings is unique. */
  lemma {:induction false} SortedUnique(a: seq<string>, b: seq<string>)
    requires Sorted(a) && Sorted(b) && multiset(a) == multiset(b)
    ensures a == b
    decreases |a|
  {
    assert |a| == |multiset(a)| == |multiset(b)| == |b|;
    if a != [] {
      HeadsAgree(a, b);
      assert a == [a[0]] + a[1..] && b == [b[0]] + b[1..];
      assert multiset(a[1..]) == multiset(a) - multiset{a[0]};
      assert multiset(b[1..]) == multiset(b) - multiset{b[0]};
      SortedUnique(a[1..], b[1..]);
    }
  }

  /** Two ascending orders of one multiset start with the same element. */
  lemma HeadsAgree(a: seq<string>, b: seq<string>)
    requires Sorted(a) && Sorted(b) && multiset(a) == multiset(b) && a != [] && b != []
    ensures a[0] == b[0]
  {
    assert a[0] in multiset(b) && b[0] in multiset(a);
    var j :| 0 <= j < |b| && b[j] == a[0];
    var i :| 0 <= i < |a| && a[i] == b[0];
    BelowReflexive(a[0]);
    BelowReflexive(b[0]);
    assert Below(b[0], a[0]) by { assert Below(b[0], b[j]) || j == 0; }
    assert Below(a[0], b[0]) by { assert Below(a[0], a[i]) || i == 0; }
    BelowAntisymmetric(a[0], b[0]);
  }

  /** Pane order cannot change a sorted listing: `sorted` depends only on
      the multiset of its input. */
  lemma SortIgnoresOrder(xs: seq<string>, ys: seq<string>)
    requires multiset(xs) == multiset(ys)
    ensures Sort(xs) == Sort(ys)
  {
    SortedUnique(Sort(xs), Sort(ys));
  }

  /** `sorted(set(xs))`: each distinct value once, ascending. */
  function SortedSet(xs: seq<string>): (r: seq<string>)
    ensures StrictlySorted(r)
    ensures Elems(r) == Elems(xs)
  {
    var d := Dedup(xs);
    var r := Sort(d);
    PermutationKeepsDistinct(d, r);
    r
  }

  /** `sorted(set(xs))` depends only on the set of values in `xs`. */
  lemma SortedSetIgnoresOrder(xs: seq<string>, ys: seq<string>)
    requires Elems(xs) == Elems(ys)
    ensures SortedSet(xs) == SortedSet(ys)
  {
    SameElemsSameMultiset(SortedSet(xs), SortedSet(ys));
    SortedUnique(SortedSet(xs), SortedSet(ys));
  }

  /** Ascending order of window indices, as `sorted` orders the keys of a
      dict of integers. */
  predicate IsMin(m: int, s: set<int>) {
    m in s && forall x :: x in s ==> m <= x
  }

  /** A set other than the empty set has an element. */
  lemma HasElement(s: set<int>)
    requires s != {}
    ensures exists y :: y in s
  {
    if forall y :: y !in s {
      assert false;
    }
  }

  /** Every non-empty finite set of integers has a least element. */
  lemma {:induction false} MinExists(s: set<int>)
    requires s != {}
    ensures exists m :: IsMin(m, s)
    decreases |s|
  {
    HasElement(s);
    var y :| y in s;
    if s != {y} {
      var rest := s - {y};
      MinExists(rest);
      var m' :| IsMin(m', rest);
      var m := if y < m' then y else m';
      forall x | x in s ensures m <= x {
        if x != y { assert x in rest; }
      }
      assert IsMin(m, s);
    } else {
      assert IsMin(y, s);
    }
  }

  /** The elements of a finite set of integers in ascending order. */
  ghost function SortedInts(s: set<int>): (r: seq<int>)
    ensures |r| == |s|
    ensures forall i :: 0 <= i < |r| ==> r[i] in s
    ensures forall x :: x in s ==> x in r
    ensures forall i, j :: 0 <= i < j < |r| ==> r[i] < r[j]
    decreases |s|
  {
    if s == {} then []
    else
      MinExists(s);
      var m :| IsMin(m, s);
      var t := SortedInts(s - {m});
      MinFirst(m, s, t);
      [m] + t
  }

  lemma MinFirst(m: int, s: set<int>, t: seq<int>)
    requires IsMin(m, s)
    requires |t| == |s - {m}|
    requires forall i :: 0 <= i < |t| ==> t[i] in s - {m}
    requires forall x :: x in s - {m} ==> x in t
    requires forall i, j :: 0 <= i < j < |t| ==> t[i] < t[j]
    ensures |[m] + t| == |s|
    ensures forall i :: 0 <= i < |[m] + t| ==> ([m] + t)[i] in s
    ensures forall x :: x in s ==> x in [m] + t
    ensures forall i, j :: 0 <= i < j < |[m] + t| ==> ([m] + t)[i] < ([m] + t)[j]
  {
    var r := [m] + t;
    forall i, j | 0 <= i < j < |r| ensures r[i] < r[j] {
      assert r[j] == t[j - 1];
      if i > 0 { assert r[i] == t[i - 1]; }
    }
    forall x | x in s ensures x in r {
      if x != m { assert x in t; }
    }
  }

  /** The smallest element comes first. */
  lemma SortedIntsHead(s: set<int>, m: int)
    requires IsMin(m, s)
    ensures SortedInts(s) == [m] + SortedInts(s - {m})
  {
    var r := SortedInts(s);
    assert r[0] in s;
    assert m in r;
    assert r[0] == m;
  }


  lemma AppendAssoc(a: seq<int>, b: seq<int>, c: seq<int>)
    ensures a + (b + c) == (a + b) + c
  {
  }
}
