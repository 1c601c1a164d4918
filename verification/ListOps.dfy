/** Sequence operations the three management panels build their lists from:
    `Array.prototype.filter`, spread-append and the checkbox toggle. */
module ListOps {

  /** `a` is an order-preserving subsequence of `b`: `a` is `b` with some
      elements dropped and the rest kept in their original order. */
  predicate IsSubseq<T(==,!new)>(a: seq<T>, b: seq<T>)
    decreases |b|
  {
    if a == [] then true
    else if b == [] then false
    else (a[0] == b[0] && IsSubseq(a[1..], b[1..])) || IsSubseq(a, b[1..])
  }

  /** `xs.filter(p)`: the elements satisfying `p`, each occurrence kept, in order. */
  function Filter<T(==,!new)>(xs: seq<T>, p: T -> bool): (r: seq<T>)
    ensures |r| <= |xs|
    ensures forall x {:trigger x in r} {:trigger x in xs} :: x in r <==> x in xs && p(x)
    ensures forall x {:trigger multiset(r)[x]} :: multiset(r)[x] == if p(x) then multiset(xs)[x] else 0
    ensures IsSubseq(r, xs)
  {
    if xs == [] then []
    else
      var rest := Filter(xs[1..], p);
      assert xs == [xs[0]] + xs[1..];
      if p(xs[0]) then [xs[0]] + rest else rest
  }

  lemma {:induction false} FilterAppend<T(!new)>(a: seq<T>, b: seq<T>, p: T -> bool)
    ensures Filter(a + b, p) == Filter(a, p) + Filter(b, p)
    decreases |a|
  {
    if a == [] {
      assert a + b == b;
    } else {
      assert (a + b)[1..] == a[1..] + b;
      FilterAppend(a[1..], b, p);
    }
  }

  /** Concatenation regroups. Stated once here so that proofs about filtered
      concatenations get the equation without re-proving it by extensionality. */
  lemma ConcatAssociative<T>(a: seq<T>, b: seq<T>, c: seq<T>)
    ensures a + (b + c) == (a + b) + c
  {
  }

  lemma FilterCons<T(!new)>(xs: seq<T>, p: T -> bool)
    requires xs != []
    ensures Filter(xs, p) == Filter([xs[0]], p) + Filter(xs[1..], p)
  {
    var rest := Filter(xs[1..], p);
    assert [xs[0]][1..] == [];
    if p(xs[0]) {
      assert Filter([xs[0]], p) == [xs[0]];
      assert Filter(xs, p) == [xs[0]] + rest;
    } else {
      assert Filter([xs[0]], p) == [];
      assert Filter(xs, p) == rest;
      assert [] + rest == rest;
    }
  }

  /** Filtering keeps everything when every element passes. */
  lemma {:induction false} FilterKeepsAll<T(!new)>(xs: seq<T>, p: T -> bool)
    requires forall x :: x in xs ==> p(x)
    ensures Filter(xs, p) == xs
    decreases |xs|
  {
    if xs != [] {
      assert forall x :: x in xs[1..] ==> x in xs;
      FilterKeepsAll(xs[1..], p);
    }
  }

  /** Filtering keeps nothing when no element passes. */
  lemma FilterKeepsNone<T(!new)>(xs: seq<T>, p: T -> bool)
    requires forall x :: x in xs ==> !p(x)
    ensures Filter(xs, p) == []
  {
    var r := Filter(xs, p);
    assert |r| == 0;
  }

  /** Two predicates that agree on every element select the same list. */
  lemma {:induction false} FilterAgree<T(!new)>(xs: seq<T>, p: T -> bool, q: T -> bool)
    requires forall x :: x in xs ==> p(x) == q(x)
    ensures Filter(xs, p) == Filter(xs, q)
    decreases |xs|
  {
    if xs != [] {
      assert forall x :: x in xs[1..] ==> x in xs;
      FilterAgree(xs[1..], p, q);
    }
  }

  /** Filtering twice by the same predicate changes nothing the second time. */
  lemma FilterIdempotent<T(!new)>(xs: seq<T>, p: T -> bool)
    ensures Filter(Filter(xs, p), p) == Filter(xs, p)
  {
    FilterKeepsAll(Filter(xs, p), p);
  }

  /** The predicate "differs from `p`", i.e. `x => x !== p`. */
  function Other<T(==,!new)>(p: T): T -> bool
  {
    x => x != p
  }

  /** No value occurs twice. */
  ghost predicate NoDuplicates<T(!new)>(s: seq<T>)
  {
    forall x :: multiset(s)[x] <= 1
  }

  /** The checkbox handler `includes(p) ? filter(q => q !== p) : [...ps, p]`. */
  function Toggle<T(==,!new)>(ps: seq<T>, p: T): (r: seq<T>)
    ensures p in r <==> p !in ps
    ensures forall q :: q != p ==> (q in r <==> q in ps)
    ensures p in ps ==> IsSubseq(r, ps) && multiset(r)[p] == 0
    ensures p in ps ==> forall q {:trigger multiset(r)[q]} :: q != p ==> multiset(r)[q] == multiset(ps)[q]
    ensures p !in ps ==> |r| == |ps| + 1 && r[..|ps|] == ps && r[|ps|] == p
    ensures NoDuplicates(ps) ==> NoDuplicates(r)
  {
    if p in ps then Filter(ps, Other(p)) else ps + [p]
  }

  /** Toggling an absent entry on and off again restores the exact list. */
  lemma ToggleTwiceAbsent<T(!new)>(ps: seq<T>, p: T)
    requires p !in ps
    ensures Toggle(Toggle(ps, p), p) == ps
  {
    FilterAppend(ps, [p], Other(p));
    FilterKeepsAll(ps, Other(p));
  }

  /** Toggling a present entry off and on again moves it to the end, so the
      double toggle is not the identity for entries already present. */
  lemma ToggleTwicePresentMovesToEnd()
    ensures Toggle(Toggle([1, 2], 1), 1) == [2, 1]
  {
    assert Filter([1, 2], Other(1)) == [2] by {
      assert [1, 2][1..] == [2];
      assert [2][1..] == [];
    }
  }

  /** Toggling a catalog entry keeps a list drawn from the catalog drawn from it. */
  lemma ToggleWithinCatalog<T(!new)>(ps: seq<T>, p: T, catalog: seq<T>)
    requires forall q :: q in ps ==> q in catalog
    requires p in catalog
    ensures forall q :: q in Toggle(ps, p) ==> q in catalog
  {
  }
}
