/** The insertion-ordered map that JavaScript's `Map` is: overwriting a present key keeps its
    place, a deleted and re-inserted key goes to the end, and iteration starts at the oldest key. */
module OrderedMap {

  datatype Option<+T> = None | Some(value: T)

  datatype OMap<K(==,!new), V> = OMap(keys: seq<K>, vals: map<K, V>) {

    ghost predicate Valid() {
      && NoDuplicates(keys)
      && (forall k :: k in keys <==> k in vals)
    }

    function Get(k: K): Option<V> {
      if k in vals then Some(vals[k]) else None
    }

    function Set(k: K, v: V): OMap<K, V> {
      OMap(if k in vals then keys else keys + [k], vals[k := v])
    }

    function Delete(k: K): OMap<K, V> {
      OMap(Without(keys, k), vals - {k})
    }

    /** In a valid map the number of its entries, as `SizeIsCardinality` states. */
    function Size(): nat { |keys| }

    /** The map without its `n` oldest entries. */
    function DropFirst(n: nat): OMap<K, V>
      requires n <= |keys|
    {
      OMap(keys[n..], map k | k in vals && k in keys[n..] :: vals[k])
    }
  }

  function Empty<K(==,!new), V>(): OMap<K, V> { OMap([], map[]) }

  ghost predicate NoDuplicates<T>(s: seq<T>) {
    forall i, j :: 0 <= i < j < |s| ==> s[i] != s[j]
  }

  /** `s` with every occurrence of `x` left out. */
  function Without<T(==,!new)>(s: seq<T>, x: T): (r: seq<T>)
    ensures x !in r
    ensures forall y :: y in r <==> y in s && y != x
    ensures |r| <= |s|
    ensures x !in s ==> r == s
  {
    if s == [] then []
    else
      assert forall y :: y in s <==> y == s[0] || y in s[1..];
      if s[0] == x then Without(s[1..], x)
      else
        var rest := Without(s[1..], x);
        assert s == [s[0]] + s[1..];
        [s[0]] + rest
  }

  lemma {:induction false} WithoutNoDuplicates<T(!new)>(s: seq<T>, x: T)
    requires NoDuplicates(s)
    ensures NoDuplicates(Without(s, x))
    ensures x in s ==> |Without(s, x)| == |s| - 1
  {
    if s == [] {
    } else {
      WithoutNoDuplicates(s[1..], x);
      assert s == [s[0]] + s[1..];
      if s[0] == x {
        assert x !in s[1..];
      } else {
        assert s[0] !in s[1..];
        assert s[0] !in Without(s[1..], x);
      }
    }
  }

  /** Removing the head of a duplicate-free list is dropping its first element. */
  lemma WithoutHead<T(!new)>(s: seq<T>)
    requires s != [] && NoDuplicates(s)
    ensures Without(s, s[0]) == s[1..]
  {
    assert s == [s[0]] + s[1..];
    assert s[0] !in s[1..];
  }

  lemma SetKeepsValid<K(!new), V>(m: OMap<K, V>, k: K, v: V)
    requires m.Valid()
    ensures m.Set(k, v).Valid()
  {
  }

  lemma DeleteKeepsValid<K(!new), V>(m: OMap<K, V>, k: K)
    requires m.Valid()
    ensures m.Delete(k).Valid()
  {
    WithoutNoDuplicates(m.keys, k);
  }

  lemma DropFirstKeepsValid<K(!new), V>(m: OMap<K, V>, n: nat)
    requires m.Valid() && n <= |m.keys|
    ensures m.DropFirst(n).Valid()
  {
  }

  lemma DropNone<K(!new), V>(m: OMap<K, V>)
    requires m.Valid()
    ensures m.DropFirst(0) == m
  {
    assert m.keys[0..] == m.keys;
  }

  /** Deleting the oldest key of what is left drops one more. */
  lemma DropOneMore<K(!new), V>(m: OMap<K, V>, n: nat)
    requires m.Valid() && n < |m.keys|
    ensures m.DropFirst(n).Delete(m.keys[n]) == m.DropFirst(n + 1)
  {
    WithoutHead(m.keys[n..]);
    assert m.keys[n..][1..] == m.keys[n+1..];
    KeepTail(m.vals, m.keys[n..]);
  }

  lemma KeepTail<K(!new), V>(vals: map<K, V>, keys: seq<K>)
    requires keys != [] && NoDuplicates(keys)
    ensures (map k | k in vals && k in keys :: vals[k]) - {keys[0]} == map k | k in vals && k in keys[1..] :: vals[k]
  {
    assert keys == [keys[0]] + keys[1..];
    assert keys[0] !in keys[1..];
  }

  /** A duplicate-free list of map keys has as many elements as the map. */
  lemma SizeIsCardinality<K(!new), V>(m: OMap<K, V>)
    requires m.Valid()
    ensures m.Size() == |m.vals|
  {
    CardinalityOfList(m.keys, m.vals.Keys);
  }

  lemma {:induction false} CardinalityOfList<T(!new)>(s: seq<T>, elements: set<T>)
    requires NoDuplicates(s)
    requires forall x :: x in s <==> x in elements
    ensures |s| == |elements|
  {
    if s == [] {
      assert elements == {};
    } else {
      assert s == [s[0]] + s[1..];
      assert s[0] !in s[1..];
      CardinalityOfList(s[1..], elements - {s[0]});
    }
  }

  lemma CardinalityOfSubset<T>(a: set<T>, b: set<T>)
    requires a <= b
    ensures |a| <= |b|
  {
    assert b == a + (b - a);
  }
}
