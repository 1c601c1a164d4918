/** Column sorting as the three panels do it: a sort configuration `{ key, direction }`,
    the click handler that updates it, the three-way comparator handed to
    `Array.prototype.sort`, and the stable sort that ECMAScript requires of that call. */
module Sorting {
  import opened ListOps

  /** The value a column holds for one record, as JavaScript's `<` sees it: text
      compares by character code, numbers numerically. */
  datatype Key = Str(s: string) | Num(n: int)

  datatype Direction = Asc | Desc

  /** `sortConfig`: the column sorted on and the direction. */
  datatype SortConfig<C> = SortConfig(key: C, direction: Direction)

  /** `b` starts with `a` and is longer. */
  predicate ProperPrefix(a: string, b: string)
  {
    |a| < |b| && b[..|a|] == a
  }

  /** `a` and `b` agree before position `i`, where `a` has the smaller character. */
  predicate SmallerAt(a: string, b: string, i: int)
  {
    0 <= i < |a| && i < |b| && a[..i] == b[..i] && a[i] < b[i]
  }

  /** JavaScript's `<` on two strings, compared character by character: it is the
      lexicographic order, in which a proper prefix comes first and otherwise the
      first differing character decides. */
  predicate StrLess(a: string, b: string)
    ensures StrLess(a, b) <==> ProperPrefix(a, b) || exists i :: SmallerAt(a, b, i)
    decreases |a|
  {
    if a == [] then b != []
    else if b == [] then false
    else if a[0] == b[0] then
      StrLessSameHead(a, b);
      StrLess(a[1..], b[1..])
    else
      StrLessDifferentHead(a, b);
      a[0] < b[0]
  }

  /** With equal first characters, both halves of the lexicographic order move to the tails. */
  lemma StrLessSameHead(a: string, b: string)
    requires a != [] && b != [] && a[0] == b[0]
    ensures ProperPrefix(a, b) <==> ProperPrefix(a[1..], b[1..])
    ensures (exists i :: SmallerAt(a, b, i)) <==> exists j :: SmallerAt(a[1..], b[1..], j)
  {
    if |a| < |b| {
      assert b[..|a|] == [b[0]] + b[1..][..|a| - 1];
      assert a == [a[0]] + a[1..];
    }
    if exists i :: SmallerAt(a, b, i) {
      var i :| SmallerAt(a, b, i);
      assert i > 0;
      assert a[1..][..i - 1] == a[1..i] == b[1..i] == b[1..][..i - 1];
      assert SmallerAt(a[1..], b[1..], i - 1);
    }
    if exists j :: SmallerAt(a[1..], b[1..], j) {
      var j :| SmallerAt(a[1..], b[1..], j);
      assert a[..j + 1] == [a[0]] + a[1..][..j];
      assert b[..j + 1] == [b[0]] + b[1..][..j];
      assert SmallerAt(a, b, j + 1);
    }
  }

  /** With different first characters, the first character decides. */
  lemma StrLessDifferentHead(a: string, b: string)
    requires a != [] && b != [] && a[0] != b[0]
    ensures !ProperPrefix(a, b)
    ensures (exists i :: SmallerAt(a, b, i)) <==> a[0] < b[0]
  {
    if |a| < |b| {
      assert b[..|a|][0] == b[0];
    }
    if a[0] < b[0] {
      assert SmallerAt(a, b, 0);
    }
    if exists i :: SmallerAt(a, b, i) {
      var i :| SmallerAt(a, b, i);
      if i > 0 {
        assert a[..i][0] == b[..i][0];
      }
    }
  }

  /** `<` on column values: numbers numerically, text by `StrLess`. A column holds
      values of one kind only, so the mixed cases never arise; numbers are put first
      to keep the order total. */
  predicate Less(a: Key, b: Key)
    ensures Less(a, b) ==> a != b
    ensures a.Num? && b.Num? ==> (Less(a, b) <==> a.n < b.n)
  {
    match (a, b)
    case (Num(x), Num(y)) => x < y
    case (Str(x), Str(y)) => StrLess(x, y)
    case (Num(_), Str(_)) => true
    case (Str(_), Num(_)) => false
  }

  lemma {:induction false} StrLessIrreflexive(a: string)
    ensures !StrLess(a, a)
    decreases |a|
  {
    if a != [] {
      StrLessIrreflexive(a[1..]);
    }
  }

  lemma {:induction false} StrLessTransitive(a: string, b: string, c: string)
    requires StrLess(a, b) && StrLess(b, c)
    ensures StrLess(a, c)
    decreases |a|
  {
    if a != [] && a[0] == b[0] && b[0] == c[0] {
      StrLessTransitive(a[1..], b[1..], c[1..]);
    }
  }

  lemma {:induction false} StrLessTotal(a: string, b: string)
    ensures a == b || StrLess(a, b) || StrLess(b, a)
    decreases |a|
  {
    if a != [] && b != [] && a[0] == b[0] {
      StrLessTotal(a[1..], b[1..]);
      if a[1..] == b[1..] {
        assert a == [a[0]] + a[1..] && b == [b[0]] + b[1..];
      }
    }
  }

  /** `<` on column values is a strict total order. */
  lemma KeyOrder(a: Key, b: Key, c: Key)
    ensures !Less(a, a)
    ensures Less(a, b) && Less(b, c) ==> Less(a, c)
    ensures a == b || Less(a, b) || Less(b, a)
  {
    if a.Str? {
      StrLessIrreflexive(a.s);
      if b.Str? {
        StrLessTotal(a.s, b.s);
        if c.Str? && StrLess(a.s, b.s) && StrLess(b.s, c.s) {
          StrLessTransitive(a.s, b.s, c.s);
        }
      }
    }
  }

  /** The comparator of the source: -1, 1 or 0 as `a` goes before, after, or ties
      with `b` in direction `dir`. */
  function Compare<T>(a: T, b: T, key: T -> Key, dir: Direction): (c: int)
    ensures c == -1 || c == 0 || c == 1
    ensures c == 0 <==> key(a) == key(b)
    ensures c <= 0 <==> InOrder(a, b, key, dir)
  {
    KeyOrder(key(a), key(b), key(a));
    if Less(key(a), key(b)) then (if dir == Asc then -1 else 1)
    else if Less(key(b), key(a)) then (if dir == Asc then 1 else -1)
    else 0
  }

  /** `a` may stand before `b`: keys non-decreasing for `Asc`, non-increasing for `Desc`. */
  predicate InOrder<T>(a: T, b: T, key: T -> Key, dir: Direction)
  {
    if dir == Asc then !Less(key(b), key(a)) else !Less(key(a), key(b))
  }

  /** Every pair of positions is in order. */
  predicate Ordered<T>(s: seq<T>, key: T -> Key, dir: Direction)
  {
    forall i, j :: 0 <= i < j < |s| ==> InOrder(s[i], s[j], key, dir)
  }

  /** The comparator is consistent, as `Array.prototype.sort` asks: antisymmetric,
      zero exactly on equal keys, negative exactly when `a` must precede `b`. */
  lemma CompareConsistent<T>(a: T, b: T, key: T -> Key, dir: Direction)
    ensures Compare(a, b, key, dir) == -Compare(b, a, key, dir)
    ensures Compare(a, b, key, dir) < 0 <==> !InOrder(b, a, key, dir)
  {
    KeyOrder(key(a), key(b), key(a));
    KeyOrder(key(b), key(a), key(b));
  }

  lemma InOrderTransitive<T>(a: T, b: T, c: T, key: T -> Key, dir: Direction)
    requires InOrder(a, b, key, dir) && InOrder(b, c, key, dir)
    ensures InOrder(a, c, key, dir)
  {
    KeyOrder(key(a), key(b), key(c));
    KeyOrder(key(c), key(b), key(a));
    KeyOrder(key(a), key(c), key(a));
    KeyOrder(key(b), key(c), key(b));
  }

  /** Strictly before, then in order, is strictly before. */
  lemma StrictlyBeforeTransitive<T>(a: T, b: T, c: T, key: T -> Key, dir: Direction)
    requires !InOrder(b, a, key, dir) && InOrder(b, c, key, dir)
    ensures !InOrder(c, a, key, dir)
  {
    if InOrder(c, a, key, dir) {
      InOrderTransitive(b, c, a, key, dir);
    }
  }

  /** One step of a stable insertion sort driven by the comparator: `x` goes before
      the first element it must precede, hence after every element it ties with. */
  function Insert<T(==,!new)>(x: T, s: seq<T>, key: T -> Key, dir: Direction): (r: seq<T>)
    ensures |r| == |s| + 1
    ensures multiset(r) == multiset(s) + multiset{x}
  {
    if s == [] then [x]
    else if Compare(x, s[0], key, dir) < 0 then [x] + s
    else
      assert s == [s[0]] + s[1..];
      [s[0]] + Insert(x, s[1..], key, dir)
  }

  lemma {:induction false} InsertOrdered<T(!new)>(x: T, s: seq<T>, key: T -> Key, dir: Direction)
    requires Ordered(s, key, dir)
    ensures Ordered(Insert(x, s, key, dir), key, dir)
    decreases |s|
  {
    if s == [] {
    } else if Compare(x, s[0], key, dir) < 0 {
      var r := Insert(x, s, key, dir);
      CompareConsistent(x, s[0], key, dir);
      forall j | 1 <= j < |r| ensures InOrder(x, r[j], key, dir) {
        if j > 1 {
          InOrderTransitive(x, s[0], s[j - 1], key, dir);
        }
      }
    } else {
      var t := Insert(x, s[1..], key, dir);
      InsertOrdered(x, s[1..], key, dir);
      CompareConsistent(x, s[0], key, dir);
      KeyOrder(key(x), key(s[0]), key(x));
      forall i | 0 <= i < |t| ensures InOrder(s[0], t[i], key, dir) {
        var e := t[i];
        assert e in multiset(t);
        if e != x {
          assert e in multiset(s[1..]);
          var j :| 0 <= j < |s[1..]| && s[1..][j] == e;
          assert s[j + 1] == e;
        }
      }
    }
  }

  /** The stable sort `Array.prototype.sort(Compare)` performs: each element in input
      order is inserted after everything it ties with. */
  function SortBy<T(==,!new)>(xs: seq<T>, key: T -> Key, dir: Direction): (r: seq<T>)
    ensures multiset(r) == multiset(xs)
    ensures |r| == |xs|
    ensures Ordered(r, key, dir)
    decreases |xs|
  {
    if xs == [] then []
    else
      var n := |xs| - 1;
      assert xs == xs[..n] + [xs[n]];
      var sorted := SortBy(xs[..n], key, dir);
      InsertOrdered(xs[n], sorted, key, dir);
      Insert(xs[n], sorted, key, dir)
  }

  /** The predicate "has key `k`". */
  function HasKey<T>(key: T -> Key, k: Key): T -> bool
  {
    x => key(x) == k
  }

  /** The elements whose key is `k`, in the order they appear. */
  function WithKey<T(==,!new)>(s: seq<T>, key: T -> Key, k: Key): seq<T>
  {
    Filter(s, HasKey(key, k))
  }

  lemma NoneWithKey<T(!new)>(s: seq<T>, key: T -> Key, k: Key)
    requires forall e :: e in s ==> key(e) != k
    ensures WithKey(s, key, k) == []
  {
    var r := WithKey(s, key, k);
    assert |r| == 0;
  }

  lemma OrderedTail<T>(s: seq<T>, key: T -> Key, dir: Direction)
    requires Ordered(s, key, dir) && s != []
    ensures Ordered(s[1..], key, dir)
  {
    forall i, j | 0 <= i < j < |s| - 1 ensures InOrder(s[1..][i], s[1..][j], key, dir) {
      assert s[1..][i] == s[i + 1] && s[1..][j] == s[j + 1];
    }
  }

  /** An element that must precede the head of an ordered list ties with nothing in it. */
  lemma BeforeHeadTiesNothing<T>(x: T, s: seq<T>, key: T -> Key, dir: Direction)
    requires Ordered(s, key, dir) && s != []
    requires Compare(x, s[0], key, dir) < 0
    ensures forall e :: e in s ==> key(e) != key(x)
  {
    CompareConsistent(x, s[0], key, dir);
    KeyOrder(key(x), key(x), key(x));
    forall e | e in s ensures key(e) != key(x) {
      var j :| 0 <= j < |s| && s[j] == e;
      if j > 0 {
        StrictlyBeforeTransitive(x, s[0], s[j], key, dir);
      }
    }
  }

  lemma InsertStableFront<T(!new)>(x: T, s: seq<T>, key: T -> Key, dir: Direction, k: Key)
    requires Ordered(s, key, dir) && s != []
    requires Compare(x, s[0], key, dir) < 0
    ensures WithKey(Insert(x, s, key, dir), key, k) == WithKey(s, key, k) + WithKey([x], key, k)
  {
    assert Insert(x, s, key, dir) == [x] + s;
    FilterAppend([x], s, HasKey(key, k));
    if key(x) == k {
      BeforeHeadTiesNothing(x, s, key, dir);
      NoneWithKey(s, key, k);
    } else {
      NoneWithKey([x], key, k);
    }
  }

  lemma InsertStableRest<T(!new)>(x: T, s: seq<T>, key: T -> Key, dir: Direction, k: Key)
    requires s != [] && Compare(x, s[0], key, dir) >= 0
    requires WithKey(Insert(x, s[1..], key, dir), key, k) == WithKey(s[1..], key, k) + WithKey([x], key, k)
    ensures WithKey(Insert(x, s, key, dir), key, k) == WithKey(s, key, k) + WithKey([x], key, k)
  {
    var p := HasKey(key, k);
    var t := Insert(x, s[1..], key, dir);
    assert Insert(x, s, key, dir) == [s[0]] + t;
    var a, b, c := Filter([s[0]], p), Filter(s[1..], p), Filter([x], p);
    FilterAppend([s[0]], t, p);
    assert Filter(Insert(x, s, key, dir), p) == a + (b + c);
    FilterCons(s, p);
    ConcatAssociative(a, b, c);
  }

  lemma {:induction false} InsertStable<T(!new)>(x: T, s: seq<T>, key: T -> Key, dir: Direction, k: Key)
    requires Ordered(s, key, dir)
    ensures WithKey(Insert(x, s, key, dir), key, k) == WithKey(s, key, k) + WithKey([x], key, k)
    decreases |s|
  {
    if s == [] {
      assert Insert(x, s, key, dir) == [x];
    } else if Compare(x, s[0], key, dir) < 0 {
      InsertStableFront(x, s, key, dir, k);
    } else {
      OrderedTail(s, key, dir);
      InsertStable(x, s[1..], key, dir, k);
      InsertStableRest(x, s, key, dir, k);
    }
  }

  /** Stability: the elements sharing any one key keep their input order. */
  lemma {:induction false} SortStable<T(!new)>(xs: seq<T>, key: T -> Key, dir: Direction, k: Key)
    ensures WithKey(SortBy(xs, key, dir), key, k) == WithKey(xs, key, k)
    decreases |xs|
  {
    if xs != [] {
      var n := |xs| - 1;
      assert xs == xs[..n] + [xs[n]];
      SortStable(xs[..n], key, dir, k);
      InsertStable(xs[n], SortBy(xs[..n], key, dir), key, dir, k);
      FilterAppend(xs[..n], [xs[n]], HasKey(key, k));
    }
  }

  /** An ordered sequence is determined by what it holds for each key: two ordered
      sequences that agree key by key are equal. */
  lemma {:induction false} OrderedUnique<T(!new)>(r: seq<T>, q: seq<T>, key: T -> Key, dir: Direction)
    requires Ordered(r, key, dir) && Ordered(q, key, dir)
    requires forall k :: WithKey(r, key, k) == WithKey(q, key, k)
    ensures r == q
    decreases |r|
  {
    if r == [] || q == [] {
      var s := if r == [] then q else r;
      assert |s| == 0 || s[0] in WithKey(s, key, key(s[0]));
    } else {
      SameHead(r, q, key, dir);
      SameTails(r, q, key);
      OrderedUnique(r[1..], q[1..], key, dir);
    }
  }

  /** Two non-empty ordered sequences that agree key by key start with the same element. */
  lemma SameHead<T(!new)>(r: seq<T>, q: seq<T>, key: T -> Key, dir: Direction)
    requires r != [] && q != []
    requires Ordered(r, key, dir) && Ordered(q, key, dir)
    requires forall k :: WithKey(r, key, k) == WithKey(q, key, k)
    ensures r[0] == q[0]
  {
    var a, b := r[0], q[0];
    assert b in WithKey(q, key, key(b));
    var i :| 0 <= i < |r| && r[i] == b;
    assert InOrder(a, b, key, dir) by {
      if i > 0 { assert InOrder(r[0], r[i], key, dir); }
      else { KeyOrder(key(a), key(a), key(a)); }
    }
    assert a in WithKey(r, key, key(a));
    var j :| 0 <= j < |q| && q[j] == a;
    assert InOrder(b, a, key, dir) by {
      if j > 0 { assert InOrder(q[0], q[j], key, dir); }
      else { KeyOrder(key(b), key(b), key(b)); }
    }
    KeyOrder(key(a), key(b), key(a));
    FilterCons(r, HasKey(key, key(a)));
    FilterCons(q, HasKey(key, key(a)));
    assert [a][1..] == [] && [b][1..] == [];
  }

  /** Removing a common first element keeps two sequences agreeing key by key. */
  lemma SameTails<T(!new)>(r: seq<T>, q: seq<T>, key: T -> Key)
    requires r != [] && q != [] && r[0] == q[0]
    requires forall k :: WithKey(r, key, k) == WithKey(q, key, k)
    ensures forall k :: WithKey(r[1..], key, k) == WithKey(q[1..], key, k)
  {
    forall k ensures WithKey(r[1..], key, k) == WithKey(q[1..], key, k) {
      FilterCons(r, HasKey(key, k));
      FilterCons(q, HasKey(key, k));
      assert WithKey(r, key, k) == WithKey([r[0]], key, k) + WithKey(r[1..], key, k);
      assert WithKey(q, key, k) == WithKey([r[0]], key, k) + WithKey(q[1..], key, k);
    }
  }

  /** `SortBy` is the only stable sort: any ordered rearrangement that keeps the
      input order among equal keys, whatever algorithm produced it, equals it. */
  lemma StableSortIsUnique<T(!new)>(xs: seq<T>, r: seq<T>, key: T -> Key, dir: Direction)
    requires Ordered(r, key, dir)
    requires forall k :: WithKey(r, key, k) == WithKey(xs, key, k)
    ensures r == SortBy(xs, key, dir)
  {
    forall k ensures WithKey(r, key, k) == WithKey(SortBy(xs, key, dir), key, k) {
      SortStable(xs, key, dir, k);
    }
    OrderedUnique(r, SortBy(xs, key, dir), key, dir);
  }

  lemma {:induction false} InsertAtEnd<T(!new)>(x: T, s: seq<T>, key: T -> Key, dir: Direction)
    requires forall i :: 0 <= i < |s| ==> InOrder(s[i], x, key, dir)
    ensures Insert(x, s, key, dir) == s + [x]
    decreases |s|
  {
    if s != [] {
      CompareConsistent(x, s[0], key, dir);
      InsertAtEnd(x, s[1..], key, dir);
      assert s == [s[0]] + s[1..];
    }
  }

  /** Sorting a list that is already in order leaves it as it is, so re-sorting on
      the same configuration is idempotent. */
  lemma SortOrderedIsIdentity<T(!new)>(xs: seq<T>, key: T -> Key, dir: Direction)
    requires Ordered(xs, key, dir)
    ensures SortBy(xs, key, dir) == xs
  {
    StableSortIsUnique(xs, xs, key, dir);
  }

  lemma SortIdempotent<T(!new)>(xs: seq<T>, key: T -> Key, dir: Direction)
    ensures SortBy(SortBy(xs, key, dir), key, dir) == SortBy(xs, key, dir)
  {
    SortOrderedIsIdentity(SortBy(xs, key, dir), key, dir);
  }

  /** With tied keys both directions keep the input order, so the descending sort
      is not the reverse of the ascending one. */
  lemma TiesKeepInputOrderBothWays<T(!new)>(a: T, b: T, key: T -> Key)
    requires key(a) == key(b)
    ensures SortBy([a, b], key, Asc) == [a, b]
    ensures SortBy([a, b], key, Desc) == [a, b]
  {
    KeyOrder(key(a), key(a), key(a));
    assert Ordered([a, b], key, Asc);
    assert Ordered([a, b], key, Desc);
    SortOrderedIsIdentity([a, b], key, Asc);
    SortOrderedIsIdentity([a, b], key, Desc);
  }

  /** `handleSort`: a second click on the ascending column turns it descending; any
      other click selects the column ascending. */
  function NextSortConfig<C(==)>(cfg: SortConfig<C>, key: C): (r: SortConfig<C>)
    ensures r.key == key
    ensures r.direction == Desc <==> cfg.key == key && cfg.direction == Asc
  {
    var direction := if cfg.key == key && cfg.direction == Asc then Desc else Asc;
    SortConfig(key, direction)
  }

  /** Clicking one column repeatedly alternates its direction; coming from another
      column the clicks go ascending, descending, ascending. */
  lemma RepeatedClicks<C>(cfg: SortConfig<C>, key: C)
    ensures var c1 := NextSortConfig(cfg, key);
            var c2 := NextSortConfig(c1, key);
            var c3 := NextSortConfig(c2, key);
            c3 == c1 && c2.direction != c1.direction &&
            (cfg.key != key ==> c1.direction == Asc && c2.direction == Desc)
  {
  }
}
