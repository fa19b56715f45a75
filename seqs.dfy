/** Sequence helpers behind the source's list comprehensions: filtering,
    element-wise parsing that stops at the first failure (a Python loop whose
    body may raise), duplicate removal and the `len(xs) != len(set(xs))`
    test for repeated values. */
module Seqs {
  import opened Results

  function Elems<T>(xs: seq<T>): set<T> {
    set x | x in xs
  }

  predicate Distinct<T(==)>(xs: seq<T>) {
    forall i, j :: 0 <= i < j < |xs| ==> xs[i] != xs[j]
  }

  /** `[x for x in xs if p(x)]`. */
  function Filter<T>(xs: seq<T>, p: T -> bool): (r: seq<T>)
    ensures |r| <= |xs|
    ensures forall i :: 0 <= i < |r| ==> r[i] in xs && p(r[i])
    ensures forall i :: 0 <= i < |xs| && p(xs[i]) ==> xs[i] in r
    decreases |xs|
  {
    if xs == [] then []
    else if p(xs[0]) then [xs[0]] + Filter(xs[1..], p)
    else Filter(xs[1..], p)
  }

  lemma {:induction false} FilterAppend<T>(a: seq<T>, b: seq<T>, p: T -> bool)
    ensures Filter(a + b, p) == Filter(a, p) + Filter(b, p)
    decreases |a|
  {
    if a == [] {
      assert a + b == b;
    } else {
      assert (a + b)[0] == a[0] && (a + b)[1..] == a[1..] + b;
      FilterAppend(a[1..], b, p);
    }
  }

  /** `[f(x) for x in xs]`. */
  function Map<A, B>(xs: seq<A>, f: A -> B): (r: seq<B>)
    ensures |r| == |xs| && forall i :: 0 <= i < |xs| ==> r[i] == f(xs[i])
  {
    seq(|xs|, i requires 0 <= i < |xs| => f(xs[i]))
  }

  lemma MapAppend<A, B>(a: seq<A>, b: seq<A>, f: A -> B)
    ensures Map(a + b, f) == Map(a, f) + Map(b, f)
  {
  }

  /** `[f(k, m[k]) for k in keys]`, for keys that are all in `m`. */
  function MapEntries<K, V, R>(keys: seq<K>, m: map<K, V>, f: (K, V) -> R): (r: seq<R>)
    requires forall i :: 0 <= i < |keys| ==> keys[i] in m
    ensures |r| == |keys| && forall i :: 0 <= i < |keys| ==> r[i] == f(keys[i], m[keys[i]])
    decreases |keys|
  {
    if keys == [] then [] else [f(keys[0], m[keys[0]])] + MapEntries(keys[1..], m, f)
  }

  lemma MapEntriesSnoc<K, V, R>(keys: seq<K>, k: K, m: map<K, V>, f: (K, V) -> R)
    requires forall i :: 0 <= i < |keys| ==> keys[i] in m
    requires k in m
    ensures MapEntries(keys + [k], m, f) == MapEntries(keys, m, f) + [f(k, m[k])]
  {
    var r := MapEntries(keys + [k], m, f);
    assert |r| == |keys| + 1;
    assert forall i :: 0 <= i < |keys| ==> (keys + [k])[i] == keys[i];
  }

  /** Whether an optional key-value entry has key `k`. */
  predicate HasKey<K(==), V>(e: Option<(K, V)>, k: K) {
    e.Some? && e.value.0 == k
  }

  /** Element `j` gives key `k` and no later element does. */
  predicate LastWithKey<A, K(==), V>(xs: seq<A>, entry: A -> Option<(K, V)>, k: K, j: int) {
    0 <= j < |xs| && HasKey(entry(xs[j]), k) && forall l :: j < l < |xs| ==> !HasKey(entry(xs[l]), k)
  }

  /** A dict filled from `xs` in order: each element gives at most one
      key-value entry, and a later entry for a key overwrites an earlier
      one. */
  function Collect<A, K(==), V>(xs: seq<A>, entry: A -> Option<(K, V)>): map<K, V>
    decreases |xs|
  {
    if xs == [] then map[]
    else
      var m := Collect(xs[..|xs| - 1], entry);
      match entry(xs[|xs| - 1])
      case None => m
      case Some(kv) => m[kv.0 := kv.1]
  }

  /** One more element: its entry, if any, is written over the dict. */
  lemma CollectSnoc<A, K, V>(xs: seq<A>, x: A, entry: A -> Option<(K, V)>)
    ensures Collect(xs + [x], entry) ==
      match entry(x)
      case None => Collect(xs, entry)
      case Some(kv) => Collect(xs, entry)[kv.0 := kv.1]
  {
    assert (xs + [x])[..|xs|] == xs;
  }

  /** The dict after the first `i + 1` elements, from the one after `i`. */
  lemma CollectPrefix<A, K, V>(xs: seq<A>, i: nat, entry: A -> Option<(K, V)>)
    requires i < |xs|
    ensures Collect(xs[..i + 1], entry) ==
      match entry(xs[i])
      case None => Collect(xs[..i], entry)
      case Some(kv) => Collect(xs[..i], entry)[kv.0 := kv.1]
  {
    assert xs[..i + 1][..i] == xs[..i];
  }

  /** What the last element does to the dict. */
  lemma CollectStep<A, K, V>(xs: seq<A>, entry: A -> Option<(K, V)>, k: K)
    requires xs != []
    ensures var init := Collect(xs[..|xs| - 1], entry);
      var e := entry(xs[|xs| - 1]);
      if HasKey(e, k) then k in Collect(xs, entry) && Collect(xs, entry)[k] == e.value.1
      else (k in Collect(xs, entry) <==> k in init) && (k in init ==> Collect(xs, entry)[k] == init[k])
  {
  }

  /** A key is present exactly when some element gives it. */
  lemma {:induction false} CollectHasKey<A, K, V>(xs: seq<A>, entry: A -> Option<(K, V)>, k: K)
    ensures k in Collect(xs, entry) <==> exists j :: 0 <= j < |xs| && HasKey(entry(xs[j]), k)
    decreases |xs|
  {
    if xs != [] {
      var n := |xs| - 1;
      var init := xs[..n];
      CollectHasKey(init, entry, k);
      CollectStep(xs, entry, k);
      if exists j :: 0 <= j < n && HasKey(entry(init[j]), k) {
        var j :| 0 <= j < n && HasKey(entry(init[j]), k);
        assert init[j] == xs[j];
      }
      if exists j :: 0 <= j < |xs| && HasKey(entry(xs[j]), k) {
        var j :| 0 <= j < |xs| && HasKey(entry(xs[j]), k);
        if j < n {
          assert init[j] == xs[j];
        }
      }
    }
  }

  /** A present key holds the value of the last element that gives it. */
  lemma {:induction false} CollectLastWins<A, K, V>(xs: seq<A>, entry: A -> Option<(K, V)>, k: K, j: int)
    requires LastWithKey(xs, entry, k, j)
    ensures k in Collect(xs, entry) && Collect(xs, entry)[k] == entry(xs[j]).value.1
    decreases |xs|
  {
    var n := |xs| - 1;
    var init := xs[..n];
    CollectStep(xs, entry, k);
    if j < n {
      assert init[j] == xs[j];
      forall l | j < l < |init| ensures !HasKey(entry(init[l]), k) {
        assert init[l] == xs[l];
      }
      CollectLastWins(init, entry, k, j);
    }
  }

  /** The elements left when the one at `j` is taken out. */
  lemma RemoveAt<T>(ys: seq<T>, j: nat)
    requires j < |ys|
    ensures multiset(ys[..j] + ys[j + 1..]) == multiset(ys) - multiset{ys[j]}
  {
    assert ys == ys[..j] + [ys[j]] + ys[j + 1..];
  }

  /** Taking one element out before mapping takes its image out after. */
  lemma MapRemoveAt<A, B>(ys: seq<A>, j: nat, f: A -> B)
    requires j < |ys|
    ensures multiset(Map(ys, f)) == multiset{f(ys[j])} + multiset(Map(ys[..j] + ys[j + 1..], f))
  {
    var pre, post := ys[..j], ys[j + 1..];
    assert ys[..j + 1] + post == ys;
    assert ys[..j + 1] == pre + [ys[j]];
    MapAppend(pre + [ys[j]], post, f);
    MapAppend(pre, [ys[j]], f);
    MapAppend(pre, post, f);
    assert Map([ys[j]], f) == [f(ys[j])];
    assert Map(ys, f) == (Map(pre, f) + [f(ys[j])]) + Map(post, f);
    assert multiset(Map(ys, f)) == multiset(Map(pre, f)) + multiset{f(ys[j])} + multiset(Map(post, f));
  }

  /** Mapping a rearranged sequence gives a rearrangement of the mapped one. */
  lemma {:induction false} MapMultiset<A, B>(xs: seq<A>, ys: seq<A>, f: A -> B)
    requires multiset(xs) == multiset(ys)
    ensures multiset(Map(xs, f)) == multiset(Map(ys, f))
    decreases |xs|
  {
    if xs == [] {
      assert |ys| == |multiset(ys)| == 0;
    } else {
      assert xs[0] in multiset(ys);
      var j :| 0 <= j < |ys| && ys[j] == xs[0];
      var rest := ys[..j] + ys[j + 1..];
      RemoveFirst(xs, ys, j);
      MapMultiset(xs[1..], rest, f);
      MapHead(xs, f);
      MapRemoveAt(ys, j, f);
    }
  }

  lemma MapHead<A, B>(xs: seq<A>, f: A -> B)
    requires xs != []
    ensures multiset(Map(xs, f)) == multiset{f(xs[0])} + multiset(Map(xs[1..], f))
  {
    assert Map(xs, f) == [f(xs[0])] + Map(xs[1..], f);
  }

  /** Taking the first element out of `xs` and an equal one out of its
      rearrangement `ys` leaves two rearrangements of each other. */
  lemma RemoveFirst<T>(xs: seq<T>, ys: seq<T>, j: nat)
    requires multiset(xs) == multiset(ys) && xs != [] && j < |ys| && ys[j] == xs[0]
    ensures multiset(xs[1..]) == multiset(ys[..j] + ys[j + 1..])
  {
    RemoveAt(xs, 0);
    RemoveAt(ys, j);
    assert xs[..0] + xs[1..] == xs[1..];
  }

  /** Position of the first element on which `f` fails, or `|xs|`. */
  function FirstFailure<A, B, E>(xs: seq<A>, f: A -> Result<B, E>): (k: nat)
    ensures k <= |xs|
    ensures forall j :: 0 <= j < k ==> f(xs[j]).Ok?
    ensures k < |xs| ==> f(xs[k]).Err?
    decreases |xs|
  {
    if xs == [] || f(xs[0]).Err? then 0 else 1 + FirstFailure(xs[1..], f)
  }

  /** Applies `f` to each element in order; the first failure aborts the
      whole traversal with its error, as an exception raised inside a Python
      `for` loop does. */
  function MapResult<A, B, E>(xs: seq<A>, f: A -> Result<B, E>): (r: Result<seq<B>, E>)
    ensures r.Ok? <==> FirstFailure(xs, f) == |xs|
    ensures r.Ok? ==> |r.value| == |xs| && forall i :: 0 <= i < |xs| ==> r.value[i] == f(xs[i]).value
    ensures r.Err? ==> r.error == f(xs[FirstFailure(xs, f)]).error
    decreases |xs|
  {
    if xs == [] then Ok([])
    else
      match f(xs[0])
      case Err(e) => Err(e)
      case Ok(y) =>
        match MapResult(xs[1..], f)
        case Err(e) => Err(e)
        case Ok(ys) => Ok([y] + ys)
  }

  /** Extending a traversal by one element: it fails with the earlier error,
      fails with the new element's error, or grows by the new value. */
  lemma {:induction false} MapResultSnoc<A, B, E>(xs: seq<A>, x: A, f: A -> Result<B, E>)
    requires MapResult(xs, f).Ok?
    ensures MapResult(xs + [x], f) ==
      match f(x)
      case Err(e) => Err(e)
      case Ok(y) => Ok(MapResult(xs, f).value + [y])
    decreases |xs|
  {
    if xs == [] {
      assert xs + [x] == [x] && [x][1..] == [];
      assert MapResult(xs, f).value == [];
      if f(x).Ok? {
        assert MapResult([x][1..], f) == Ok([]);
        assert [f(x).value] + [] == [] + [f(x).value];
      }
    } else {
      assert (xs + [x])[0] == xs[0] && (xs + [x])[1..] == xs[1..] + [x];
      MapResultSnoc(xs[1..], x, f);
      var ys := MapResult(xs[1..], f).value;
      assert MapResult(xs, f).value == [f(xs[0]).value] + ys;
      if f(x).Ok? {
        assert [f(xs[0]).value] + (ys + [f(x).value]) == ([f(xs[0]).value] + ys) + [f(x).value];
      }
    }
  }

  /** Once a traversal has failed, what follows is never looked at. */
  lemma {:induction false} MapResultAbort<A, B, E>(xs: seq<A>, ys: seq<A>, f: A -> Result<B, E>)
    requires MapResult(xs, f).Err?
    ensures MapResult(xs + ys, f) == MapResult(xs, f)
    decreases |xs|
  {
    assert (xs + ys)[0] == xs[0];
    if f(xs[0]).Ok? {
      assert (xs + ys)[1..] == xs[1..] + ys;
      MapResultAbort(xs[1..], ys, f);
    }
  }

  lemma FilterSnoc<T>(xs: seq<T>, x: T, p: T -> bool)
    ensures Filter(xs + [x], p) == Filter(xs, p) + (if p(x) then [x] else [])
  {
    FilterAppend(xs, [x], p);
    assert [x][1..] == [];
  }

  /** The positions of `xs` whose element passes `p`, in ascending order. */
  function KeptIndices<T>(xs: seq<T>, p: T -> bool): (r: seq<int>)
    decreases |xs|
  {
    if xs == [] then []
    else KeptIndices(xs[..|xs| - 1], p) + (if p(xs[|xs| - 1]) then [|xs| - 1] else [])
  }

  /** `r` is the subsequence of `xs` at the ascending positions `idx`. */
  ghost predicate Picks<T>(r: seq<T>, xs: seq<T>, idx: seq<int>) {
    && |idx| == |r|
    && (forall k :: 0 <= k < |idx| ==> 0 <= idx[k] < |xs| && r[k] == xs[idx[k]])
    && (forall k, l :: 0 <= k < l < |idx| ==> idx[k] < idx[l])
  }

  /** Filtering keeps, in their original order, exactly the elements that
      pass: the result is `xs` at the ascending positions of the passing
      elements, and every passing position is among them. */
  lemma {:induction false} FilterPicks<T>(xs: seq<T>, p: T -> bool)
    ensures Picks(Filter(xs, p), xs, KeptIndices(xs, p))
    ensures forall i :: 0 <= i < |xs| && p(xs[i]) ==> i in KeptIndices(xs, p)
    decreases |xs|
  {
    if xs != [] {
      var n := |xs| - 1;
      var init := xs[..n];
      assert xs == init + [xs[n]];
      FilterPicks(init, p);
      FilterSnoc(init, xs[n], p);
      PicksSnoc(Filter(init, p), init, KeptIndices(init, p), xs[n], p(xs[n]));
      KeptSnoc(init, xs[n], p);
    }
  }

  /** Extending the picked sequence and the source by one element, picked
      or not, keeps the picking. */
  lemma PicksSnoc<T>(r: seq<T>, xs: seq<T>, idx: seq<int>, x: T, keep: bool)
    requires Picks(r, xs, idx)
    ensures Picks(r + (if keep then [x] else []), xs + [x], idx + (if keep then [|xs|] else []))
  {
  }

  /** The passing positions of `xs + [x]` are those of `xs`, and `|xs|`
      when `x` passes. */
  lemma KeptSnoc<T>(xs: seq<T>, x: T, p: T -> bool)
    requires forall i :: 0 <= i < |xs| && p(xs[i]) ==> i in KeptIndices(xs, p)
    ensures forall i :: 0 <= i < |xs| + 1 && p((xs + [x])[i]) ==> i in KeptIndices(xs + [x], p)
  {
    var ys := xs + [x];
    assert ys[..|xs|] == xs;
    assert KeptIndices(ys, p) == KeptIndices(xs, p) + (if p(x) then [|xs|] else []);
    forall i | 0 <= i < |xs| + 1 && p(ys[i]) ensures i in KeptIndices(ys, p) {
      if i < |xs| {
        assert ys[i] == xs[i];
      }
    }
  }

  /** The values a map-then-filter keeps are the images that pass the
      filter. */
  lemma FilterMapElems<A, B>(xs: seq<A>, f: A -> B, p: B -> bool)
    ensures Elems(Filter(Map(xs, f), p)) == set x | x in xs && p(f(x)) :: f(x)
  {
    var ys := Map(xs, f);
    forall y ensures y in Filter(ys, p) <==> y in set x | x in xs && p(f(x)) :: f(x) {
      if y in set x | x in xs && p(f(x)) :: f(x) {
        var x :| x in xs && p(f(x)) && f(x) == y;
        var i :| 0 <= i < |xs| && xs[i] == x;
        assert ys[i] == y;
      }
      if y in Filter(ys, p) {
        var i :| 0 <= i < |ys| && ys[i] == y;
        assert xs[i] in xs;
      }
    }
  }

  /** One more element read by a loop that keeps the results of `f` that
      satisfy `p`. */
  lemma FilterMapPrefix<A, B>(xs: seq<A>, i: nat, f: A -> B, p: B -> bool)
    requires i < |xs|
    ensures Filter(Map(xs[..i + 1], f), p) == Filter(Map(xs[..i], f), p) + (if p(f(xs[i])) then [f(xs[i])] else [])
  {
    assert xs[..i + 1] == xs[..i] + [xs[i]];
    MapAppend(xs[..i], [xs[i]], f);
    assert Map([xs[i]], f) == [f(xs[i])];
    FilterSnoc(Map(xs[..i], f), f(xs[i]), p);
  }

  /** One more element of a filtered traversal read: skipped when the
      filter drops it, otherwise it fails or extends the result. */
  lemma FilteredStep<A, B, E>(xs: seq<A>, i: nat, p: A -> bool, f: A -> Result<B, E>)
    requires i < |xs|
    requires MapResult(Filter(xs[..i], p), f).Ok?
    ensures MapResult(Filter(xs[..i + 1], p), f) ==
      if !p(xs[i]) then MapResult(Filter(xs[..i], p), f)
      else match f(xs[i])
        case Err(e) => Err(e)
        case Ok(y) => Ok(MapResult(Filter(xs[..i], p), f).value + [y])
  {
    assert xs[..i + 1] == xs[..i] + [xs[i]];
    FilterSnoc(xs[..i], xs[i], p);
    var before := Filter(xs[..i], p);
    if p(xs[i]) {
      MapResultSnoc(before, xs[i], f);
    } else {
      assert Filter(xs[..i + 1], p) == before + [] == before;
    }
  }

  /** A failure in the part of a filtered traversal already read is the
      failure of the whole traversal. */
  lemma FilteredAbort<A, B, E>(xs: seq<A>, i: nat, p: A -> bool, f: A -> Result<B, E>)
    requires i <= |xs|
    requires MapResult(Filter(xs[..i], p), f).Err?
    ensures MapResult(Filter(xs, p), f) == MapResult(Filter(xs[..i], p), f)
  {
    assert xs == xs[..i] + xs[i..];
    FilterAppend(xs[..i], xs[i..], p);
    MapResultAbort(Filter(xs[..i], p), Filter(xs[i..], p), f);
  }

  /** Duplicates dropped, first occurrences kept in order. */
  function Dedup<T(==)>(xs: seq<T>): (r: seq<T>)
    ensures Distinct(r) && Elems(r) == Elems(xs)
    decreases |xs|
  {
    if xs == [] then []
    else
      var d := Dedup(xs[..|xs| - 1]);
      var x := xs[|xs| - 1];
      assert xs == xs[..|xs| - 1] + [x];
      assert Elems(xs) == Elems(xs[..|xs| - 1]) + {x};
      assert Elems(d + [x]) == Elems(d) + {x};
      if x in d then d else DistinctSnoc(d, x); d + [x]
  }

  lemma DistinctSnoc<T>(d: seq<T>, x: T)
    requires Distinct(d) && x !in d
    ensures Distinct(d + [x])
  {
  }

  lemma {:induction false} ElemsBound<T>(xs: seq<T>)
    ensures |Elems(xs)| <= |xs|
    decreases |xs|
  {
    if xs != [] {
      ElemsBound(xs[1..]);
      assert Elems(xs) == {xs[0]} + Elems(xs[1..]);
    }
  }

  /** `len(xs) == len(set(xs))` holds exactly when no value repeats. */
  lemma {:induction false} DistinctIffNoCollapse<T>(xs: seq<T>)
    ensures |Elems(xs)| == |xs| <==> Distinct(xs)
    decreases |xs|
  {
    if xs != [] {
      var rest := xs[1..];
      DistinctIffNoCollapse(rest);
      ElemsBound(rest);
      assert Elems(xs) == {xs[0]} + Elems(rest);
      if xs[0] in rest {
        assert Elems(xs) == Elems(rest);
        var j :| 0 <= j < |rest| && rest[j] == xs[0];
        assert xs[0] == xs[j + 1];
      } else {
        assert xs[0] !in Elems(rest);
        assert |Elems(xs)| == 1 + |Elems(rest)|;
        if Distinct(rest) {
          forall i, j | 0 <= i < j < |xs| ensures xs[i] != xs[j] {
            if i > 0 { assert xs[i] == rest[i - 1] && xs[j] == rest[j - 1]; }
            else { assert xs[j] in rest; }
          }
        } else {
          var i, j :| 0 <= i < j < |rest| && rest[i] == rest[j];
          assert xs[i + 1] == xs[j + 1];
        }
      }
    }
  }

  /** A repetition-free sequence holds each of its elements exactly once. */
  lemma {:induction false} DistinctMultiplicity<T>(xs: seq<T>, x: T)
    requires Distinct(xs)
    ensures multiset(xs)[x] == if x in xs then 1 else 0
    decreases |xs|
  {
    if xs != [] {
      assert xs == [xs[0]] + xs[1..];
      assert Distinct(xs[1..]) by {
        forall i, j | 0 <= i < j < |xs[1..]| ensures xs[1..][i] != xs[1..][j] {
          assert xs[1..][i] == xs[i + 1] && xs[1..][j] == xs[j + 1];
        }
      }
      DistinctMultiplicity(xs[1..], x);
      if x == xs[0] {
        assert x !in xs[1..];
      }
    }
  }

  /** Two repetition-free sequences with the same elements are permutations
      of one another. */
  lemma SameElemsSameMultiset<T>(a: seq<T>, b: seq<T>)
    requires Distinct(a) && Distinct(b) && Elems(a) == Elems(b)
    ensures multiset(a) == multiset(b)
  {
    forall x ensures multiset(a)[x] == multiset(b)[x] {
      DistinctMultiplicity(a, x);
      DistinctMultiplicity(b, x);
      assert x in a <==> x in Elems(a);
      assert x in b <==> x in Elems(b);
    }
  }

  /** `f` of the first element from position `i` on that satisfies `p`, or
      `none` when no element does. */
  function FirstWhere<A, B(==)>(xs: seq<A>, p: A -> bool, f: A -> B, none: B, i: nat): (r: B)
    requires i <= |xs|
    ensures (forall j :: i <= j < |xs| ==> !p(xs[j])) ==> r == none
    ensures r != none ==> exists j :: i <= j < |xs| && p(xs[j]) && r == f(xs[j])
    decreases |xs| - i
  {
    if i == |xs| then none
    else if p(xs[i]) then f(xs[i])
    else FirstWhere(xs, p, f, none, i + 1)
  }

  /** The first element that satisfies `p` decides, whatever follows it. */
  lemma {:induction false} FirstWhereAt<A, B>(xs: seq<A>, p: A -> bool, f: A -> B, none: B, i: nat, j: int)
    requires i <= j < |xs| && p(xs[j])
    requires forall l :: i <= l < j ==> !p(xs[l])
    ensures FirstWhere(xs, p, f, none, i) == f(xs[j])
    decreases j - i
  {
    if i < j {
      FirstWhereAt(xs, p, f, none, i + 1, j);
    }
  }

  /** A rearrangement of a repetition-free sequence is repetition-free and
      has the same elements. */
  lemma PermutationKeepsDistinct<T>(d: seq<T>, r: seq<T>)
    requires Distinct(d) && multiset(r) == multiset(d)
    ensures Distinct(r) && Elems(r) == Elems(d)
  {
    forall x ensures x in r <==> x in d {
      assert x in r <==> x in multiset(r);
      assert x in d <==> x in multiset(d);
    }
    forall i, j | 0 <= i < j < |r| ensures r[i] != r[j] {
      if r[i] == r[j] {
        assert multiset(r)[r[i]] >= 2 by {
          assert r == r[..j] + [r[j]] + r[j + 1..];
          assert r[i] in r[..j];
        }
        DistinctMultiplicity(d, r[i]);
      }
    }
  }
}
