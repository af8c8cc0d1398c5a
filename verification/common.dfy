/** Small generic building blocks shared by every module of the model:
    optional values, results, and the array operations the extension uses
    (`filter`, `find`, `findIndex`, and de-duplication through a `Set`). */
module Common {

  /** A JavaScript value that may be missing (`null`, `undefined`, or a
      constructor that threw). */
  datatype Option<+T> = None | Some(value: T)

  /** The outcome of an operation that the source either completes or
      rejects (with an alert, an early return, or a caught exception). */
  datatype Result<+T, +E> = Ok(value: T) | Err(error: E)

  /** `r` can be obtained from `xs` by deleting elements: it is an
      order-preserving sublist. */
  predicate IsSublist<T(==)>(r: seq<T>, xs: seq<T>)
    decreases |xs|
  {
    if |r| == 0 then true
    else if |xs| == 0 then false
    else if r[0] == xs[0] then IsSublist(r[1..], xs[1..])
    else IsSublist(r, xs[1..])
  }

  /** `Array.prototype.filter`: keeps, in order, the elements that satisfy
      `p` (`FilterCount` and `FilterSublist` say which and in what order). */
  function Filter<T>(xs: seq<T>, p: T -> bool): (r: seq<T>)
    ensures |r| <= |xs|
    ensures forall i :: 0 <= i < |r| ==> p(r[i])
  {
    if |xs| == 0 then []
    else
      var rest := Filter(xs[1..], p);
      if p(xs[0]) then [xs[0]] + rest else rest
  }

  /** `Filter` keeps every element that satisfies `p` as often as it
      occurs, and no other. */
  lemma {:induction false} FilterCount<T(!new)>(xs: seq<T>, p: T -> bool)
    ensures forall x :: multiset(Filter(xs, p))[x] == if p(x) then multiset(xs)[x] else 0
  {
    if |xs| > 0 {
      FilterCount(xs[1..], p);
      assert xs == [xs[0]] + xs[1..];
    }
  }

  /** `Filter` keeps the order of `xs`. */
  lemma {:induction false} FilterSublist<T>(xs: seq<T>, p: T -> bool)
    ensures IsSublist(Filter(xs, p), xs)
  {
    if |xs| > 0 {
      FilterSublist(xs[1..], p);
      var rest := Filter(xs[1..], p);
      if p(xs[0]) {
        assert ([xs[0]] + rest)[1..] == rest;
      } else {
        SublistSkip(rest, xs);
      }
    }
  }

  /** A sublist of the tail is a sublist of the whole list. */
  lemma {:induction false} SublistSkip<T>(r: seq<T>, xs: seq<T>)
    requires |xs| > 0 && IsSublist(r, xs[1..])
    ensures IsSublist(r, xs)
    decreases |xs|, 0
  {
    if |r| > 0 && r[0] == xs[0] {
      SublistTail(r, xs[1..]);
    }
  }

  /** Dropping the head of a sublist leaves a sublist. */
  lemma {:induction false} SublistTail<T>(r: seq<T>, xs: seq<T>)
    requires |r| > 0 && IsSublist(r, xs)
    ensures IsSublist(r[1..], xs)
    decreases |xs|, 1
  {
    if r[0] == xs[0] {
      if |r| > 1 {
        SublistSkip(r[1..], xs);
      }
    } else {
      SublistTail(r, xs[1..]);
      SublistSkip(r[1..], xs);
    }
  }

  /** The conjunction of two tests. */
  function And<T>(p: T -> bool, q: T -> bool): T -> bool
  {
    x => p(x) && q(x)
  }

  /** Filtering twice is filtering once by the conjunction. */
  lemma {:induction false} FilterFilter<T(!new)>(xs: seq<T>, p: T -> bool, q: T -> bool)
    ensures Filter(Filter(xs, p), q) == Filter(xs, And(p, q))
  {
    if |xs| > 0 {
      FilterFilter(xs[1..], p, q);
      var rest := Filter(xs[1..], p);
      if p(xs[0]) {
        assert ([xs[0]] + rest)[1..] == rest;
      }
    }
  }

  /** Filtering by two predicates that agree on every element of `xs`
      gives the same list. */
  lemma {:induction false} FilterCongruent<T(!new)>(xs: seq<T>, p: T -> bool, q: T -> bool)
    requires forall i :: 0 <= i < |xs| ==> p(xs[i]) == q(xs[i])
    ensures Filter(xs, p) == Filter(xs, q)
  {
    if |xs| > 0 {
      FilterCongruent(xs[1..], p, q);
    }
  }

  /** Filtering a list extended by one element. */
  lemma {:induction false} FilterAppend<T(!new)>(xs: seq<T>, x: T, p: T -> bool)
    ensures Filter(xs + [x], p) == Filter(xs, p) + (if p(x) then [x] else [])
  {
    if |xs| > 0 {
      assert (xs + [x])[1..] == xs[1..] + [x];
      FilterAppend(xs[1..], x, p);
    }
  }

  /** Filtering a concatenation filters each part. */
  lemma {:induction false} FilterConcat<T>(xs: seq<T>, ys: seq<T>, p: T -> bool)
    ensures Filter(xs + ys, p) == Filter(xs, p) + Filter(ys, p)
  {
    if |xs| > 0 {
      assert (xs + ys)[1..] == xs[1..] + ys;
      FilterConcat(xs[1..], ys, p);
    } else {
      assert xs + ys == ys;
    }
  }

  /** Filtering by a test and by its negation splits the list: the two
      parts together are as long as the whole. */
  lemma {:induction false} FilterPartitionLength<T>(xs: seq<T>, p: T -> bool, q: T -> bool)
    requires forall i :: 0 <= i < |xs| ==> q(xs[i]) == !p(xs[i])
    ensures |Filter(xs, p)| + |Filter(xs, q)| == |xs|
  {
    if |xs| > 0 {
      FilterPartitionLength(xs[1..], p, q);
    }
  }

  /** Filtering by a test every element passes keeps the list. */
  lemma {:induction false} FilterAll<T>(xs: seq<T>, p: T -> bool)
    requires forall i :: 0 <= i < |xs| ==> p(xs[i])
    ensures Filter(xs, p) == xs
  {
    if |xs| > 0 {
      FilterAll(xs[1..], p);
    }
  }

  /** Filtering out every element leaves nothing. */
  lemma FilterNone<T(!new)>(xs: seq<T>, p: T -> bool)
    requires forall i :: 0 <= i < |xs| ==> !p(xs[i])
    ensures Filter(xs, p) == []
  {
  }

  /** Filtering is idempotent. */
  lemma {:induction false} FilterIdempotent<T(!new)>(xs: seq<T>, p: T -> bool)
    ensures Filter(Filter(xs, p), p) == Filter(xs, p)
  {
    FilterFilter(xs, p, p);
    FilterCongruent(xs, And(p, p), p);
  }

  /** `Array.prototype.findIndex`: the index of the first element that
      satisfies `p`, or `None` (the source's `-1`) when there is none. */
  function FirstIndex<T>(xs: seq<T>, p: T -> bool): (r: Option<nat>)
    ensures r.None? <==> forall i :: 0 <= i < |xs| ==> !p(xs[i])
    ensures r.Some? ==> r.value < |xs| && p(xs[r.value])
    ensures r.Some? ==> forall i :: 0 <= i < r.value ==> !p(xs[i])
  {
    if |xs| == 0 then None
    else if p(xs[0]) then Some(0)
    else
      match FirstIndex(xs[1..], p)
      case None => None
      case Some(k) => Some(k + 1)
  }

  /** `Array.prototype.find`: the first element that satisfies `p`. */
  function Find<T>(xs: seq<T>, p: T -> bool): (r: Option<T>)
    ensures r.None? <==> forall i :: 0 <= i < |xs| ==> !p(xs[i])
    ensures r.Some? ==> exists k :: 0 <= k < |xs| && xs[k] == r.value && p(xs[k])
                          && forall i :: 0 <= i < k ==> !p(xs[i])
  {
    match FirstIndex(xs, p)
    case None => None
    case Some(k) => Some(xs[k])
  }

  /** Searching with two tests that agree on every element of `xs` finds
      the same element. */
  lemma {:induction false} FindCongruent<T>(xs: seq<T>, p: T -> bool, q: T -> bool)
    requires forall i :: 0 <= i < |xs| ==> p(xs[i]) == q(xs[i])
    ensures FirstIndex(xs, p) == FirstIndex(xs, q)
    ensures Find(xs, p) == Find(xs, q)
  {
    if |xs| > 0 {
      FindCongruent(xs[1..], p, q);
    }
  }

  /** `Array.prototype.some`. */
  predicate Any<T>(xs: seq<T>, p: T -> bool)
  {
    exists i :: 0 <= i < |xs| && p(xs[i])
  }

  predicate NoDuplicates<T(==)>(xs: seq<T>)
  {
    forall i, j :: 0 <= i < j < |xs| ==> xs[i] != xs[j]
  }

  /** Position of the first occurrence of `x` in `xs`. */
  function FirstOccurrence<T(==)>(xs: seq<T>, x: T): (k: nat)
    requires x in xs
    ensures k < |xs| && xs[k] == x
    ensures forall i :: 0 <= i < k ==> xs[i] != x
  {
    if xs[0] == x then 0 else 1 + FirstOccurrence(xs[1..], x)
  }

  /** Extending a list does not move the first occurrence of an element
      already present. */
  lemma FirstOccurrencePrefix<T>(xs: seq<T>, n: nat, x: T)
    requires n <= |xs| && x in xs[..n]
    ensures FirstOccurrence(xs, x) == FirstOccurrence(xs[..n], x)
  {
    var k' := FirstOccurrence(xs[..n], x);
    forall i | 0 <= i < n
      ensures xs[..n][i] == xs[i]
    {
    }
    assert xs[k'] == x;
  }

  /** An element whose only occurrence is the last one is first found there. */
  lemma FirstOccurrenceLast<T>(xs: seq<T>, x: T)
    requires |xs| > 0 && xs[|xs| - 1] == x && x !in xs[..|xs| - 1]
    ensures FirstOccurrence(xs, x) == |xs| - 1
  {
    forall i | 0 <= i < |xs| - 1
      ensures xs[i] != x
    {
      assert xs[i] == xs[..|xs| - 1][i];
    }
  }

  /** `[...new Set(xs)]`: every distinct element once, in the order of its
      first occurrence (a `Set` iterates in insertion order). */
  function Distinct<T(==,!new)>(xs: seq<T>): (r: seq<T>)
    ensures NoDuplicates(r)
    ensures forall x :: x in r <==> x in xs
    ensures forall i, j :: 0 <= i < j < |r| ==>
              FirstOccurrence(xs, r[i]) < FirstOccurrence(xs, r[j])
  {
    if |xs| == 0 then []
    else
      var init := xs[..|xs| - 1];
      var last := xs[|xs| - 1];
      var rest := Distinct(init);
      assert xs == init + [last];
      forall x | x in rest
        ensures FirstOccurrence(xs, x) == FirstOccurrence(init, x)
      {
        FirstOccurrencePrefix(xs, |xs| - 1, x);
      }
      if last in rest then rest
      else
        FirstOccurrenceLast(xs, last);
        rest + [last]
  }

  /** An element is kept by `Filter` exactly when it occurs and passes. */
  lemma FilterMembership<T(!new)>(xs: seq<T>, p: T -> bool, x: T)
    ensures x in Filter(xs, p) <==> x in xs && p(x)
  {
    FilterCount(xs, p);
    assert x in Filter(xs, p) <==> multiset(Filter(xs, p))[x] > 0;
    assert x in xs <==> multiset(xs)[x] > 0;
  }

  /** De-duplicating a list extended by one element. */
  lemma DistinctAppend<T(!new)>(xs: seq<T>, x: T)
    ensures Distinct(xs + [x]) == if x in xs then Distinct(xs) else Distinct(xs) + [x]
  {
    assert (xs + [x])[..|xs|] == xs;
  }

  /** The step of `DistinctFilter` for an element that passes. */
  lemma DistinctFilterKept<T(!new)>(init: seq<T>, x: T, p: T -> bool)
    requires p(x)
    requires Distinct(Filter(init, p)) == Filter(Distinct(init), p)
    ensures Distinct(Filter(init + [x], p)) == Filter(Distinct(init + [x]), p)
  {
    var f := Filter(init, p);
    var d := Distinct(init);
    FilterAppend(init, x, p);
    assert Filter(init + [x], p) == f + [x];
    FilterMembership(init, p, x);
    DistinctAppend(f, x);
    DistinctAppend(init, x);
    if x in init {
      calc {
        Distinct(Filter(init + [x], p));
        Distinct(f + [x]);
        Distinct(f);
        Filter(d, p);
        Filter(Distinct(init + [x]), p);
      }
    } else {
      FilterAppend(d, x, p);
      calc {
        Distinct(Filter(init + [x], p));
        Distinct(f + [x]);
        Distinct(f) + [x];
        Filter(d, p) + [x];
        Filter(d + [x], p);
        Filter(Distinct(init + [x]), p);
      }
    }
  }

  /** The step of `DistinctFilter` for an element that is dropped. */
  lemma DistinctFilterDropped<T(!new)>(init: seq<T>, x: T, p: T -> bool)
    requires !p(x)
    requires Distinct(Filter(init, p)) == Filter(Distinct(init), p)
    ensures Distinct(Filter(init + [x], p)) == Filter(Distinct(init + [x]), p)
  {
    var d := Distinct(init);
    FilterAppend(init, x, p);
    assert Filter(init + [x], p) == Filter(init, p);
    DistinctAppend(init, x);
    if x !in init {
      FilterAppend(d, x, p);
      assert Filter(Distinct(init + [x]), p) == Filter(d, p);
    }
  }

  /** A non-empty list is its prefix followed by its last element. */
  lemma SplitLast<T>(xs: seq<T>)
    requires |xs| > 0
    ensures xs == xs[..|xs| - 1] + [xs[|xs| - 1]]
  {
  }

  /** One step of `DistinctFilter`: from the last element's prefix to the
      whole list. */
  lemma DistinctFilterStep<T(!new)>(xs: seq<T>, p: T -> bool)
    requires |xs| > 0
    requires Distinct(Filter(xs[..|xs| - 1], p)) == Filter(Distinct(xs[..|xs| - 1]), p)
    ensures Distinct(Filter(xs, p)) == Filter(Distinct(xs), p)
  {
    var init := xs[..|xs| - 1];
    var x := xs[|xs| - 1];
    SplitLast(xs);
    if p(x) {
      DistinctFilterKept(init, x, p);
    } else {
      DistinctFilterDropped(init, x, p);
    }
  }

  /** De-duplication commutes with filtering. */
  lemma {:induction false} DistinctFilter<T(!new)>(xs: seq<T>, p: T -> bool)
    ensures Distinct(Filter(xs, p)) == Filter(Distinct(xs), p)
    decreases |xs|
  {
    if |xs| > 0 {
      DistinctFilter(xs[..|xs| - 1], p);
      DistinctFilterStep(xs, p);
    }
  }
}
