/** Order-preserving filtering, the `Array.prototype.filter` used by every list page. */
module Lists {
  import opened Strings

  function Filter<T>(xs: seq<T>, p: T -> bool): (r: seq<T>)
    ensures |r| <= |xs|
    ensures forall k :: 0 <= k < |r| ==> p(r[k])
  {
    if xs == [] then []
    else (if p(xs[0]) then [xs[0]] else []) + Filter(xs[1..], p)
  }

  lemma {:induction false} FilterMembership<T>(xs: seq<T>, p: T -> bool, x: T)
    ensures x in Filter(xs, p) <==> x in xs && p(x)
  {
    if xs != [] {
      FilterMembership(xs[1..], p, x);
      assert xs == [xs[0]] + xs[1..];
    }
  }

  /** `a` can be obtained from `b` by deleting elements: the relative order of `a` is that of `b`. */
  predicate IsSubsequence<T(==)>(a: seq<T>, b: seq<T>)
    decreases |b|
  {
    a == [] || (b != [] && if a[0] == b[0] then IsSubsequence(a[1..], b[1..]) else IsSubsequence(a, b[1..]))
  }

  lemma {:induction false} SubsequenceDropHead<T>(a: seq<T>, b: seq<T>)
    requires a != [] && IsSubsequence(a, b)
    ensures IsSubsequence(a[1..], b)
    decreases |b|
  {
    if a[0] == b[0] {
      SubsequenceSkip(a[1..], b);
    } else {
      SubsequenceDropHead(a, b[1..]);
      SubsequenceSkip(a[1..], b);
    }
  }

  /** A subsequence of the tail is a subsequence of the whole. */
  lemma {:induction false} SubsequenceSkip<T>(a: seq<T>, b: seq<T>)
    requires b != [] && IsSubsequence(a, b[1..])
    ensures IsSubsequence(a, b)
    decreases |b|, 0
  {
    if a != [] && a[0] == b[0] {
      SubsequenceDropHead(a, b[1..]);
    }
  }

  lemma {:induction false} FilterIsSubsequence<T>(xs: seq<T>, p: T -> bool)
    ensures IsSubsequence(Filter(xs, p), xs)
  {
    if xs != [] {
      FilterIsSubsequence(xs[1..], p);
      if p(xs[0]) {
        assert Filter(xs, p)[1..] == Filter(xs[1..], p);
      } else {
        SubsequenceSkip(Filter(xs[1..], p), xs);
        assert Filter(xs, p) == Filter(xs[1..], p);
      }
    }
  }

  /** The elements that pass and those that fail a predicate make up the whole list. */
  lemma {:induction false} FilterPartition<T>(xs: seq<T>, p: T -> bool, q: T -> bool)
    requires forall x :: q(x) == !p(x)
    ensures multiset(Filter(xs, p)) + multiset(Filter(xs, q)) == multiset(xs)
    ensures |Filter(xs, p)| + |Filter(xs, q)| == |xs|
  {
    if xs != [] {
      FilterPartition(xs[1..], p, q);
      assert xs == [xs[0]] + xs[1..];
    }
  }

  lemma {:induction false} FilterKeepsAll<T>(xs: seq<T>, p: T -> bool)
    requires forall k :: 0 <= k < |xs| ==> p(xs[k])
    ensures Filter(xs, p) == xs
  {
    if xs != [] {
      FilterKeepsAll(xs[1..], p);
    }
  }

  lemma {:induction false} FilterAppend<T>(a: seq<T>, b: seq<T>, p: T -> bool)
    ensures Filter(a + b, p) == Filter(a, p) + Filter(b, p)
  {
    if a != [] {
      FilterAppend(a[1..], b, p);
      assert (a + b)[0] == a[0];
      assert (a + b)[1..] == a[1..] + b;
      var hd: seq<T> := if p(a[0]) then [a[0]] else [];
      assert Filter(a + b, p) == hd + Filter(a[1..] + b, p);
      assert Filter(a, p) == hd + Filter(a[1..], p);
      assert hd + (Filter(a[1..], p) + Filter(b, p)) == (hd + Filter(a[1..], p)) + Filter(b, p);
    } else {
      assert a + b == b;
    }
  }

  lemma {:induction false} FilterNone<T>(ys: seq<T>, p: T -> bool)
    requires forall k :: 0 <= k < |ys| ==> !p(ys[k])
    ensures Filter(ys, p) == []
  {
    if ys != [] {
      FilterNone(ys[1..], p);
    }
  }

  /** Dropping a prefix of rejected elements does not change the filter. */
  lemma {:induction false} FilterSkipRejected<T>(xs: seq<T>, k: nat, p: T -> bool)
    requires k <= |xs|
    requires forall j :: 0 <= j < k ==> !p(xs[j])
    ensures Filter(xs, p) == Filter(xs[k..], p)
  {
    if k > 0 {
      FilterSkipRejected(xs[1..], k - 1, p);
      assert xs[1..][k - 1..] == xs[k..];
    }
  }

  /** The index of the first element satisfying `p` (`Array.prototype.find` / `findIndex`). */
  function FirstIndex<T>(xs: seq<T>, p: T -> bool): (r: Option<nat>)
    ensures r.Some? ==> r.value < |xs| && p(xs[r.value])
    ensures r.Some? ==> forall j :: 0 <= j < r.value ==> !p(xs[j])
    ensures r.None? <==> forall j :: 0 <= j < |xs| ==> !p(xs[j])
  {
    if xs == [] then None
    else if p(xs[0]) then Some(0)
    else match FirstIndex(xs[1..], p)
      case None => None
      case Some(i) => Some(i + 1)
  }

  /** `FilterMembership` for every position of the filtered list and of the original. */
  lemma FilterMembershipAll<T>(xs: seq<T>, p: T -> bool)
    ensures forall k | 0 <= k < |Filter(xs, p)| :: Filter(xs, p)[k] in xs
    ensures forall k | 0 <= k < |xs| && p(xs[k]) :: xs[k] in Filter(xs, p)
  {
    var r := Filter(xs, p);
    forall k | 0 <= k < |r|
      ensures r[k] in xs
    {
      FilterMembership(xs, p, r[k]);
    }
    forall k | 0 <= k < |xs| && p(xs[k])
      ensures xs[k] in r
    {
      FilterMembership(xs, p, xs[k]);
    }
  }
}
