/** Sorting as `Array.prototype.sort` does it: stable, by a key. */
module StableSort {

  datatype Entry<K, T> = Entry(key: K, item: T)

  /** A strict weak order: what a consistent comparison gives, which may rank different keys as equal. */
  ghost predicate WeakOrder<K(!new)>(less: (K, K) -> bool) {
    && (forall a, b :: less(a, b) ==> !less(b, a))
    && (forall a, b, c :: less(a, c) ==> less(a, b) || less(b, c))
  }

  /** The comparison ranks the two as equal. */
  predicate Tied<K>(less: (K, K) -> bool, a: K, b: K) {
    !less(a, b) && !less(b, a)
  }

  /** A strict total order. */
  ghost predicate Total<K(!new)>(less: (K, K) -> bool) {
    && (forall a :: !less(a, a))
    && (forall a, b, c :: less(a, b) && less(b, c) ==> less(a, c))
    && (forall a, b :: a != b ==> less(a, b) || less(b, a))
  }

  /** A total order is a weak order that ties no two different keys. */
  lemma TotalIffUntied<K(!new)>(less: (K, K) -> bool)
    ensures Total(less) <==> WeakOrder(less) && forall a, b :: Tied(less, a, b) ==> a == b
  {
    if Total(less) {
      forall a, b, c | less(a, c)
        ensures less(a, b) || less(b, c)
      {
        assert a == b || less(a, b) || less(b, a);
      }
    }
    if WeakOrder(less) && forall a, b :: Tied(less, a, b) ==> a == b {
      forall a, b | a != b
        ensures less(a, b) || less(b, a)
      {
        assert !Tied(less, a, b);
      }
    }
  }

  /** `x` goes before the first entry that is not less. */
  function Insert<K, T>(less: (K, K) -> bool, x: Entry<K, T>, ys: seq<Entry<K, T>>): seq<Entry<K, T>> {
    if ys == [] || !less(ys[0].key, x.key) then [x] + ys else [ys[0]] + Insert(less, x, ys[1..])
  }

  function Sort<K, T>(less: (K, K) -> bool, xs: seq<Entry<K, T>>): seq<Entry<K, T>> {
    if xs == [] then [] else Insert(less, xs[0], Sort(less, xs[1..]))
  }

  ghost predicate Sorted<K, T>(less: (K, K) -> bool, xs: seq<Entry<K, T>>) {
    forall i, j :: 0 <= i < j < |xs| ==> !less(xs[j].key, xs[i].key)
  }

  /** Entries with equal keys are equal. */
  ghost predicate Determined<K, T>(xs: seq<Entry<K, T>>) {
    forall i, j :: 0 <= i < |xs| && 0 <= j < |xs| && xs[i].key == xs[j].key ==> xs[i] == xs[j]
  }

  /** Entries with tied keys have one item. */
  ghost predicate Alike<K, T>(less: (K, K) -> bool, xs: seq<Entry<K, T>>) {
    forall i, j :: 0 <= i < |xs| && 0 <= j < |xs| && Tied(less, xs[i].key, xs[j].key) ==> xs[i].item == xs[j].item
  }

  /** The two lists show the same items in the same order. */
  ghost predicate SameItems<K, T>(xs: seq<Entry<K, T>>, ys: seq<Entry<K, T>>) {
    |xs| == |ys| && forall i :: 0 <= i < |xs| ==> xs[i].item == ys[i].item
  }

  /** The entries whose keys tie with one key, in their order. */
  ghost function With<K, T>(less: (K, K) -> bool, k: K, xs: seq<Entry<K, T>>): seq<Entry<K, T>> {
    if xs == [] then [] else (if Tied(less, xs[0].key, k) then [xs[0]] else []) + With(less, k, xs[1..])
  }

  /** The number of entries that come before a key. */
  ghost function Below<K, T>(less: (K, K) -> bool, k: K, xs: seq<Entry<K, T>>): nat {
    if xs == [] then 0 else (if less(xs[0].key, k) then 1 else 0) + Below(less, k, xs[1..])
  }

  lemma {:induction false} InsertPermutes<K, T>(less: (K, K) -> bool, x: Entry<K, T>, ys: seq<Entry<K, T>>)
    ensures multiset(Insert(less, x, ys)) == multiset(ys) + multiset{x}
  {
    if ys != [] && less(ys[0].key, x.key) {
      InsertPermutes(less, x, ys[1..]);
      assert ys == [ys[0]] + ys[1..];
    }
  }

  lemma {:induction false} SortPermutes<K, T>(less: (K, K) -> bool, xs: seq<Entry<K, T>>)
    ensures multiset(Sort(less, xs)) == multiset(xs)
  {
    if xs == [] {
    } else {
      SortPermutes(less, xs[1..]);
      InsertPermutes(less, xs[0], Sort(less, xs[1..]));
      assert xs == [xs[0]] + xs[1..];
    }
  }

  lemma {:induction false} InsertSorts<K(!new), T>(less: (K, K) -> bool, x: Entry<K, T>, ys: seq<Entry<K, T>>)
    requires WeakOrder(less) && Sorted(less, ys)
    ensures Sorted(less, Insert(less, x, ys))
  {
    if ys == [] {
    } else if less(ys[0].key, x.key) {
      InsertSorts(less, x, ys[1..]);
      var more := Insert(less, x, ys[1..]);
      InsertPermutes(less, x, ys[1..]);
      forall j | 0 <= j < |more|
        ensures !less(more[j].key, ys[0].key)
      {
        assert more[j] in multiset(more);
        assert more[j] in multiset(ys[1..]) || more[j] == x;
      }
    } else {
      forall j | 0 <= j < |ys|
        ensures !less(ys[j].key, x.key)
      {
        assert j > 0 ==> !less(ys[j].key, ys[0].key);
      }
    }
  }

  lemma {:induction false} SortSorts<K(!new), T>(less: (K, K) -> bool, xs: seq<Entry<K, T>>)
    requires WeakOrder(less)
    ensures Sorted(less, Sort(less, xs))
  {
    if xs == [] {
    } else {
      SortSorts(less, xs[1..]);
      InsertSorts(less, xs[0], Sort(less, xs[1..]));
    }
  }

  lemma SameLength<A>(xs: seq<A>, ys: seq<A>)
    requires multiset(xs) == multiset(ys)
    ensures |xs| == |ys|
  {
    assert |multiset(xs)| == |xs| && |multiset(ys)| == |ys|;
  }

  // ---- what sorting settles: the place of every entry, up to ties ----

  function BelowOf<K, T>(less: (K, K) -> bool, k: K): Entry<K, T> -> seq<bool> {
    (e: Entry<K, T>) => if less(e.key, k) then [true] else []
  }

  lemma {:induction false} BelowCounts<K, T>(less: (K, K) -> bool, k: K, xs: seq<Entry<K, T>>)
    ensures Below(less, k, xs) == |FlatMap(BelowOf(less, k), xs)|
  {
    if xs == [] {
    } else {
      BelowCounts(less, k, xs[1..]);
    }
  }

  lemma BelowPermutes<K, T>(less: (K, K) -> bool, k: K, xs: seq<Entry<K, T>>, ys: seq<Entry<K, T>>)
    requires multiset(xs) == multiset(ys)
    ensures Below(less, k, xs) == Below(less, k, ys)
  {
    BelowCounts(less, k, xs);
    BelowCounts(less, k, ys);
    FlatMapPermutes(BelowOf(less, k), xs, ys);
    SameLength(FlatMap(BelowOf(less, k), xs), FlatMap(BelowOf(less, k), ys));
  }

  lemma {:induction false} BelowAtLeast<K, T>(less: (K, K) -> bool, k: K, xs: seq<Entry<K, T>>, n: nat)
    requires n <= |xs| && forall j :: 0 <= j < n ==> less(xs[j].key, k)
    ensures Below(less, k, xs) >= n
  {
    if n == 0 {
    } else {
      BelowAtLeast(less, k, xs[1..], n - 1);
    }
  }

  lemma {:induction false} BelowAtMost<K, T>(less: (K, K) -> bool, k: K, xs: seq<Entry<K, T>>, n: nat)
    requires n <= |xs| && forall j :: n <= j < |xs| ==> !less(xs[j].key, k)
    ensures Below(less, k, xs) <= n
  {
    if xs == [] {
    } else {
      BelowAtMost(less, k, xs[1..], if n == 0 then 0 else n - 1);
    }
  }

  /** Two sorted lists of the same entries have tied keys at every place. */
  lemma SortedTie<K(!new), T>(less: (K, K) -> bool, xs: seq<Entry<K, T>>, ys: seq<Entry<K, T>>, i: nat)
    requires WeakOrder(less) && Sorted(less, xs) && Sorted(less, ys) && multiset(xs) == multiset(ys)
    requires i < |xs| == |ys|
    ensures Tied(less, xs[i].key, ys[i].key)
  {
    if less(xs[i].key, ys[i].key) {
      NotBefore(less, xs, ys, i);
    }
    if less(ys[i].key, xs[i].key) {
      NotBefore(less, ys, xs, i);
    }
  }

  lemma NotBefore<K(!new), T>(less: (K, K) -> bool, xs: seq<Entry<K, T>>, ys: seq<Entry<K, T>>, i: nat)
    requires WeakOrder(less) && Sorted(less, xs) && Sorted(less, ys) && multiset(xs) == multiset(ys)
    requires i < |xs| == |ys|
    ensures !less(xs[i].key, ys[i].key)
  {
    var k := ys[i].key;
    if less(xs[i].key, k) {
      forall j | 0 <= j < i + 1 ensures less(xs[j].key, k) {
        assert j < i ==> !less(xs[i].key, xs[j].key);
      }
      BelowAtLeast(less, k, xs, i + 1);
      BelowAtMost(less, k, ys, i);
      BelowPermutes(less, k, xs, ys);
    }
  }

  /** Sorting two orders of the same entries puts entries of `xs` with tied keys at every place. */
  lemma SortsTie<K(!new), T>(less: (K, K) -> bool, xs: seq<Entry<K, T>>, ys: seq<Entry<K, T>>)
    requires WeakOrder(less) && multiset(xs) == multiset(ys)
    ensures |Sort(less, xs)| == |Sort(less, ys)| == |xs|
    ensures forall i :: 0 <= i < |xs| ==>
                          && Sort(less, xs)[i] in xs && Sort(less, ys)[i] in xs
                          && Tied(less, Sort(less, xs)[i].key, Sort(less, ys)[i].key)
  {
    var a, b := Sort(less, xs), Sort(less, ys);
    SortSorts(less, xs);
    SortSorts(less, ys);
    SortPermutes(less, xs);
    SortPermutes(less, ys);
    SameLength(a, xs);
    SameLength(b, xs);
    forall i | 0 <= i < |xs|
      ensures a[i] in xs && b[i] in xs && Tied(less, a[i].key, b[i].key)
    {
      assert a[i] in multiset(xs) && b[i] in multiset(xs);
      SortedTie(less, a, b, i);
    }
  }

  /** Entries whose tied keys go with one item show the same items in whatever order they come. */
  lemma AlikeSortAlike<K(!new), T>(less: (K, K) -> bool, xs: seq<Entry<K, T>>, ys: seq<Entry<K, T>>)
    requires WeakOrder(less) && multiset(xs) == multiset(ys) && Alike(less, xs)
    ensures SameItems(Sort(less, xs), Sort(less, ys))
  {
    SortsTie(less, xs, ys);
  }

  /** Under a total order, entries that their keys determine sort alike in whatever order they come. */
  lemma SortIgnoresOrder<K(!new), T>(less: (K, K) -> bool, xs: seq<Entry<K, T>>, ys: seq<Entry<K, T>>)
    requires Total(less) && multiset(xs) == multiset(ys) && Determined(xs)
    ensures Sort(less, xs) == Sort(less, ys)
  {
    TotalIffUntied(less);
    SortsTie(less, xs, ys);
  }

  // ---- what it leaves open: the order of entries with tied keys stays ----

  lemma {:induction false} InsertIsStable<K(!new), T>(less: (K, K) -> bool, x: Entry<K, T>, ys: seq<Entry<K, T>>, k: K)
    requires WeakOrder(less)
    ensures With(less, k, Insert(less, x, ys)) == With(less, k, [x] + ys)
  {
    assert ([x] + ys)[1..] == ys;
    if ys != [] && less(ys[0].key, x.key) {
      InsertIsStable(less, x, ys[1..], k);
      assert ([x] + ys[1..])[1..] == ys[1..];
      assert Insert(less, x, ys)[1..] == Insert(less, x, ys[1..]);
    }
  }

  /** Sorting keeps entries with tied keys in their order. */
  lemma {:induction false} SortIsStable<K(!new), T>(less: (K, K) -> bool, xs: seq<Entry<K, T>>, k: K)
    requires WeakOrder(less)
    ensures With(less, k, Sort(less, xs)) == With(less, k, xs)
  {
    if xs == [] {
    } else {
      SortIsStable(less, xs[1..], k);
      InsertIsStable(less, xs[0], Sort(less, xs[1..]), k);
      assert ([xs[0]] + Sort(less, xs[1..]))[1..] == Sort(less, xs[1..]);
    }
  }

  lemma {:induction false} WithSource<K, T>(less: (K, K) -> bool, k: K, xs: seq<Entry<K, T>>) returns (j: nat)
    requires With(less, k, xs) != []
    ensures j < |xs| && Tied(less, xs[j].key, k)
  {
    if Tied(less, xs[0].key, k) {
      j := 0;
    } else {
      j := WithSource(less, k, xs[1..]);
      j := j + 1;
    }
  }

  /** In a sorted list the first entry tied with a key stands right after the entries below it. */
  lemma {:induction false} FirstTiedAt<K(!new), T>(less: (K, K) -> bool, k: K, xs: seq<Entry<K, T>>)
    requires WeakOrder(less) && Sorted(less, xs) && With(less, k, xs) != []
    ensures Below(less, k, xs) < |xs| && xs[Below(less, k, xs)] == With(less, k, xs)[0]
  {
    if less(xs[0].key, k) {
      FirstTiedAt(less, k, xs[1..]);
    } else {
      var j := WithSource(less, k, xs);
      assert j > 0 ==> !less(xs[j].key, xs[0].key);
      forall i | 0 <= i < |xs| ensures !less(xs[i].key, k) {
        assert i > 0 ==> !less(xs[i].key, xs[0].key);
      }
      BelowAtMost(less, k, xs, 0);
    }
  }

  /** So the first of two entries with tied keys but different items shows in the result. */
  lemma FirstShows<K(!new), T>(less: (K, K) -> bool, x: Entry<K, T>, xs: seq<Entry<K, T>>, y: Entry<K, T>,
                               ys: seq<Entry<K, T>>)
    requires WeakOrder(less) && Tied(less, x.key, y.key) && x.item != y.item
    requires multiset([x] + xs) == multiset([y] + ys)
    ensures !SameItems(Sort(less, [x] + xs), Sort(less, [y] + ys))
  {
    var k := x.key;
    var a, b := Sort(less, [x] + xs), Sort(less, [y] + ys);
    SortIsStable(less, [x] + xs, k);
    SortIsStable(less, [y] + ys, k);
    assert With(less, k, [x] + xs)[0] == x;
    assert With(less, k, [y] + ys)[0] == y;
    SortSorts(less, [x] + xs);
    SortSorts(less, [y] + ys);
    FirstTiedAt(less, k, a);
    FirstTiedAt(less, k, b);
    SortPermutes(less, [x] + xs);
    SortPermutes(less, [y] + ys);
    BelowPermutes(less, k, a, b);
  }

  lemma MovedToFront<A>(xs: seq<A>, i: nat)
    requires i < |xs|
    ensures multiset([xs[i]] + (xs[..i] + xs[i+1..])) == multiset(xs)
  {
    assert xs == xs[..i] + [xs[i]] + xs[i+1..];
  }

  /** Of two orders, one with each of two such entries first, at least one shows other items. */
  lemma FirstOfTwoShows<K(!new), T>(less: (K, K) -> bool, xs: seq<Entry<K, T>>, i: nat, j: nat)
      returns (ys: seq<Entry<K, T>>)
    requires WeakOrder(less) && i < |xs| && j < |xs|
    requires Tied(less, xs[i].key, xs[j].key) && xs[i].item != xs[j].item
    ensures multiset(ys) == multiset(xs) && !SameItems(Sort(less, xs), Sort(less, ys))
  {
    var a, b := [xs[i]] + (xs[..i] + xs[i+1..]), [xs[j]] + (xs[..j] + xs[j+1..]);
    MovedToFront(xs, i);
    MovedToFront(xs, j);
    FirstShows(less, xs[i], xs[..i] + xs[i+1..], xs[j], xs[..j] + xs[j+1..]);
    ys := if SameItems(Sort(less, xs), Sort(less, a)) then b else a;
  }

  /** Exactly: the sorted items do not depend on the order of the entries if and only if entries with tied keys have
      one item. */
  lemma SortIgnoresOrderIff<K(!new), T(!new)>(less: (K, K) -> bool, xs: seq<Entry<K, T>>)
    requires WeakOrder(less)
    ensures (forall ys :: multiset(ys) == multiset(xs) ==> SameItems(Sort(less, xs), Sort(less, ys)))
            <==> Alike(less, xs)
  {
    if Alike(less, xs) {
      forall ys | multiset(ys) == multiset(xs)
        ensures SameItems(Sort(less, xs), Sort(less, ys))
      {
        AlikeSortAlike(less, xs, ys);
      }
    } else {
      var i: nat, j: nat :| i < |xs| && j < |xs| && Tied(less, xs[i].key, xs[j].key) && xs[i].item != xs[j].item;
      var ys := FirstOfTwoShows(less, xs, i, j);
    }
  }

  // ---- elementwise maps and permutations ----

  function FlatMap<A, B>(f: A -> seq<B>, xs: seq<A>): seq<B> {
    if xs == [] then [] else f(xs[0]) + FlatMap(f, xs[1..])
  }

  lemma {:induction false} FlatMapTakesOut<A, B>(f: A -> seq<B>, xs: seq<A>, j: nat)
    requires j < |xs|
    ensures multiset(FlatMap(f, xs)) == multiset(f(xs[j])) + multiset(FlatMap(f, xs[..j] + xs[j+1..]))
  {
    if j == 0 {
      assert xs[..0] + xs[1..] == xs[1..];
    } else {
      FlatMapTakesOut(f, xs[1..], j - 1);
      assert xs[1..][..j-1] + xs[1..][j..] == (xs[..j] + xs[j+1..])[1..];
    }
  }

  lemma {:induction false} FlatMapPermutes<A, B>(f: A -> seq<B>, xs: seq<A>, ys: seq<A>)
    requires multiset(xs) == multiset(ys)
    ensures multiset(FlatMap(f, xs)) == multiset(FlatMap(f, ys))
  {
    SameLength(xs, ys);
    if xs == [] {
    } else {
      assert xs[0] in multiset(ys);
      var j :| 0 <= j < |ys| && ys[j] == xs[0];
      RestIsPermutation(xs, ys, j);
      FlatMapPermutes(f, xs[1..], ys[..j] + ys[j+1..]);
      HeadAndRest(f, xs, ys, j);
    }
  }

  lemma RestIsPermutation<A>(xs: seq<A>, ys: seq<A>, j: nat)
    requires multiset(xs) == multiset(ys) && xs != [] && j < |ys| && ys[j] == xs[0]
    ensures multiset(xs[1..]) == multiset(ys[..j] + ys[j+1..])
  {
    assert xs == [xs[0]] + xs[1..];
    assert ys == ys[..j] + ([ys[j]] + ys[j+1..]);
    Cancel(multiset{xs[0]}, multiset(xs[1..]), multiset(ys[..j] + ys[j+1..]));
  }

  /** Two ways to look at elements, each giving one thing or nothing.  If whatever looks alike one way looks
      alike the other way, lists with the same looks one way have the same looks the other way. */
  lemma {:induction false} LooksCarryOver<A, B, C>(f: A -> seq<B>, g: A -> seq<C>, xs: seq<A>, ys: seq<A>)
    requires forall x :: x in xs || x in ys ==> |f(x)| == |g(x)| <= 1
    requires forall x, y :: x in xs && y in ys && f(x) == f(y) ==> g(x) == g(y)
    requires multiset(FlatMap(f, xs)) == multiset(FlatMap(f, ys))
    ensures multiset(FlatMap(g, xs)) == multiset(FlatMap(g, ys))
  {
    if xs == [] {
      NothingToSee(f, g, ys);
    } else if f(xs[0]) == [] {
      assert FlatMap(f, xs) == FlatMap(f, xs[1..]) && FlatMap(g, xs) == FlatMap(g, xs[1..]);
      LooksCarryOver(f, g, xs[1..], ys);
    } else {
      var j := SourceOf(f, xs, ys);
      var rest := ys[..j] + ys[j+1..];
      assert xs[0] in xs && ys[j] in ys;
      HeadAndRest(f, xs, ys, j);
      LooksCarryOver(f, g, xs[1..], rest);
      HeadAndRest(g, xs, ys, j);
    }
  }

  /** Taking out elements that look alike. */
  lemma HeadAndRest<A, B>(f: A -> seq<B>, xs: seq<A>, ys: seq<A>, j: nat)
    requires xs != [] && j < |ys| && f(xs[0]) == f(ys[j])
    ensures multiset(FlatMap(f, xs)) == multiset(FlatMap(f, ys)) <==>
            multiset(FlatMap(f, xs[1..])) == multiset(FlatMap(f, ys[..j] + ys[j+1..]))
  {
    FlatMapTakesOut(f, ys, j);
    Cancel(multiset(f(xs[0])), multiset(FlatMap(f, xs[1..])), multiset(FlatMap(f, ys[..j] + ys[j+1..])));
  }

  lemma Cancel<A>(common: multiset<A>, a: multiset<A>, b: multiset<A>)
    ensures common + a == common + b <==> a == b
  {
    assert (common + a) - common == a && (common + b) - common == b;
  }

  lemma NothingToSee<A, B, C>(f: A -> seq<B>, g: A -> seq<C>, ys: seq<A>)
    requires forall y :: y in ys ==> |f(y)| == |g(y)| <= 1
    requires multiset(FlatMap(f, ys)) == multiset{}
    ensures FlatMap(g, ys) == []
  {
    assert |multiset(FlatMap(f, ys))| == |FlatMap(f, ys)|;
    if ys != [] {
      assert ys[0] in ys;
      NothingToSee(f, g, ys[1..]);
    }
  }

  lemma SourceOf<A, B>(f: A -> seq<B>, xs: seq<A>, ys: seq<A>) returns (j: nat)
    requires xs != [] && |f(xs[0])| == 1 && multiset(FlatMap(f, xs)) == multiset(FlatMap(f, ys))
    requires forall y :: y in ys ==> |f(y)| <= 1
    ensures j < |ys| && f(ys[j]) == f(xs[0])
  {
    var b := f(xs[0])[0];
    assert FlatMap(f, xs)[0] == b;
    assert b in multiset(FlatMap(f, ys));
    j := SourceIndex(f, ys, b);
  }

  lemma {:induction false} SourceIndex<A, B>(f: A -> seq<B>, xs: seq<A>, b: B) returns (j: nat)
    requires b in FlatMap(f, xs)
    ensures j < |xs| && b in f(xs[j])
  {
    if b in f(xs[0]) {
      j := 0;
    } else {
      j := SourceIndex(f, xs[1..], b);
      j := j + 1;
    }
  }
}
