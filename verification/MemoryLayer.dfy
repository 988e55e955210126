/** The in-process layer (src/layers/MemoryLayer.ts): an insertion-ordered map with lazy expiry and bounded size.
    Time is a parameter of every operation. */
module MemoryLayer {
  import opened OrderedMap
  import opened Keys

  type Value = nat
  type Time = int

  datatype Item = Item(value: Value, expiresAt: Option<Time>, accessCount: nat, insertedAt: Time)

  datatype Policy = Lru | Lfu | Fifo

  type Entries = OMap<Key, Item>

  predicate Expired(i: Item, now: Time) {
    i.expiresAt.Some? && i.expiresAt.value <= now
  }

  /** A missing or non-positive TTL never expires. */
  function ExpiryOf(ttl: Option<int>, now: Time): Option<Time> {
    if ttl.Some? && ttl.value > 0 then Some(now + ttl.value) else None
  }

  // ---- what the operations do to the map ----

  function Read(m: Entries, k: Key, p: Policy, now: Time): Entries {
    if k !in m.vals then m
    else if Expired(m.vals[k], now) then m.Delete(k)
    else
      var item := m.vals[k].(accessCount := m.vals[k].accessCount + 1);
      match p
      case Lru => m.Delete(k).Set(k, item)
      case Lfu => m.Set(k, item)
      case Fifo => m
  }

  function Found(m: Entries, k: Key, now: Time): Option<Value> {
    if k in m.vals && !Expired(m.vals[k], now) then Some(m.vals[k].value) else None
  }

  function Put(m: Entries, k: Key, v: Value, ttl: Option<int>, now: Time): Entries {
    m.Delete(k).Set(k, Item(v, ExpiryOf(ttl, now), 0, now))
  }

  /** The order in which the LFU scan prefers victims. */
  predicate Colder(a: Item, b: Item) {
    a.accessCount < b.accessCount || (a.accessCount == b.accessCount && a.insertedAt < b.insertedAt)
  }

  /** The LFU scan over the first `n` keys: the earliest key no other of them is colder than. */
  function Coldest(m: Entries, n: nat): (j: nat)
    requires m.Valid() && 0 < n <= |m.keys|
    ensures j < n
  {
    if n == 1 then 0
    else
      var j := Coldest(m, n - 1);
      if Colder(m.vals[m.keys[n-1]], m.vals[m.keys[j]]) then n - 1 else j
  }

  function Victim(m: Entries, p: Policy): Key
    requires m.Valid() && m.keys != []
  {
    if p == Lfu then m.keys[Coldest(m, |m.keys|)] else m.keys[0]
  }

  function EvictTo(m: Entries, max: nat, p: Policy): Entries
    requires m.Valid()
    decreases |m.keys|
  {
    if |m.keys| <= max then m
    else
      WithoutNoDuplicates(m.keys, Victim(m, p));
      DeleteKeepsValid(m, Victim(m, p));
      EvictTo(m.Delete(Victim(m, p)), max, p)
  }

  function Write(m: Entries, k: Key, v: Value, ttl: Option<int>, now: Time, max: nat, p: Policy): Entries
    requires m.Valid()
  {
    PutKeepsValid(m, k, v, ttl, now);
    EvictTo(Put(m, k, v, ttl, now), max, p)
  }

  function Probe(m: Entries, k: Key, now: Time): Entries {
    if k in m.vals && Expired(m.vals[k], now) then m.Delete(k) else m
  }

  function Live(keys: seq<Key>, vals: map<Key, Item>, now: Time): seq<Key>
    requires forall k :: k in keys ==> k in vals
  {
    if keys == [] then []
    else
      assert keys[0] in keys;
      var rest := Live(keys[1..], vals, now);
      if Expired(vals[keys[0]], now) then rest else [keys[0]] + rest
  }

  function Prune(m: Entries, now: Time): Entries
    requires m.Valid()
  {
    OMap(Live(m.keys, m.vals, now), map k | k in m.vals && !Expired(m.vals[k], now) :: m.vals[k])
  }

  lemma PutKeepsValid(m: Entries, k: Key, v: Value, ttl: Option<int>, now: Time)
    requires m.Valid()
    ensures Put(m, k, v, ttl, now).Valid()
    ensures Put(m, k, v, ttl, now).keys == Without(m.keys, k) + [k]
  {
    DeleteKeepsValid(m, k);
    SetKeepsValid(m.Delete(k), k, Item(v, ExpiryOf(ttl, now), 0, now));
  }

  lemma ReadKeepsValid(m: Entries, k: Key, p: Policy, now: Time)
    requires m.Valid()
    ensures Read(m, k, p, now).Valid()
    ensures |Read(m, k, p, now).keys| <= |m.keys|
  {
    DeleteKeepsValid(m, k);
    WithoutNoDuplicates(m.keys, k);
  }

  lemma {:induction false} LiveKeys(keys: seq<Key>, vals: map<Key, Item>, now: Time)
    requires NoDuplicates(keys) && forall k :: k in keys ==> k in vals
    ensures NoDuplicates(Live(keys, vals, now)) && |Live(keys, vals, now)| <= |keys|
    ensures forall k :: k in Live(keys, vals, now) <==> k in keys && !Expired(vals[k], now)
  {
    if keys == [] {
    } else {
      assert keys == [keys[0]] + keys[1..];
      LiveKeys(keys[1..], vals, now);
      assert keys[0] !in keys[1..];
    }
  }

  lemma PruneKeepsValid(m: Entries, now: Time)
    requires m.Valid()
    ensures Prune(m, now).Valid() && |Prune(m, now).keys| <= |m.keys|
  {
    LiveKeys(m.keys, m.vals, now);
  }

  /** Evicting stops at the limit, only removes, and keeps what it keeps. */
  lemma {:induction false} EvictFits(m: Entries, max: nat, p: Policy)
    requires m.Valid()
    ensures var r := EvictTo(m, max, p);
            && r.Valid()
            && |r.keys| == (if |m.keys| <= max then |m.keys| else max)
            && (forall k :: k in r.vals ==> k in m.vals && r.vals[k] == m.vals[k])
    decreases |m.keys|
  {
    if |m.keys| > max {
      WithoutNoDuplicates(m.keys, Victim(m, p));
      DeleteKeepsValid(m, Victim(m, p));
      EvictFits(m.Delete(Victim(m, p)), max, p);
    }
  }

  /** The LFU victim: no entry is colder, and none before it is as cold. */
  lemma {:induction false} ColdestIsMinimal(m: Entries, n: nat, i: nat)
    requires m.Valid() && 0 < n <= |m.keys| && i < n
    ensures var j := Coldest(m, n);
            && !Colder(m.vals[m.keys[i]], m.vals[m.keys[j]])
            && (i < j ==> Colder(m.vals[m.keys[j]], m.vals[m.keys[i]]))
    decreases n
  {
    if n > 1 {
      var j := Coldest(m, n - 1);
      ColdestIsMinimal(m, n - 1, if i < n - 1 then i else j);
      assert m.keys[j] in m.vals && m.keys[n-1] in m.vals;
    }
  }

  // ---- runs, and LRU inclusion ----

  datatype Op =
    | OpSet(key: Key, value: Value, ttl: Option<int>)
    | OpGet(key: Key)
    | OpHas(key: Key)
    | OpDelete(key: Key)
    | OpClear
    | OpPrune

  datatype Timed = Timed(op: Op, now: Time)

  function Apply(m: Entries, t: Timed, max: nat, p: Policy): Entries
    requires m.Valid()
  {
    match t.op
    case OpSet(k, v, ttl) => Write(m, k, v, ttl, t.now, max, p)
    case OpGet(k) => Read(m, k, p, t.now)
    case OpHas(k) => Probe(m, k, t.now)
    case OpDelete(k) => m.Delete(k)
    case OpClear => Empty()
    case OpPrune => Prune(m, t.now)
  }

  lemma ApplyKeepsValid(m: Entries, t: Timed, max: nat, p: Policy)
    requires m.Valid() && |m.keys| <= max
    ensures Apply(m, t, max, p).Valid() && |Apply(m, t, max, p).keys| <= max
  {
    match t.op
    case OpSet(k, v, ttl) =>
      PutKeepsValid(m, k, v, ttl, t.now);
      EvictFits(Put(m, k, v, ttl, t.now), max, p);
    case OpGet(k) => ReadKeepsValid(m, k, p, t.now);
    case OpHas(k) => DeleteKeepsValid(m, k);
    case OpDelete(k) => DeleteKeepsValid(m, k);
    case OpClear =>
    case OpPrune => PruneKeepsValid(m, t.now);
  }

  function Keep(s: seq<Key>, kept: set<Key>): seq<Key> {
    if s == [] then [] else if s[0] in kept then [s[0]] + Keep(s[1..], kept) else Keep(s[1..], kept)
  }

  /** `small` is `large` with some entries left out: same items, same order. */
  ghost predicate Included(small: Entries, large: Entries) {
    && (forall k :: k in small.vals ==> k in large.vals && large.vals[k] == small.vals[k])
    && small.keys == Keep(large.keys, small.vals.Keys)
  }

  /** The layer with room for `m` is included in the one with room for `n`, and is at least as full. */
  ghost predicate Tracks(small: Entries, m: nat, large: Entries, n: nat) {
    && small.Valid() && large.Valid()
    && |small.keys| <= m <= n && |large.keys| <= n
    && Included(small, large)
    && m - |small.keys| <= n - |large.keys|
  }

  lemma {:induction false} KeepLemma(s: seq<Key>, kept: set<Key>)
    ensures forall k :: k in Keep(s, kept) <==> k in s && k in kept
    ensures |Keep(s, kept)| <= |s|
  {
    if s == [] {
    } else {
      assert s == [s[0]] + s[1..];
      KeepLemma(s[1..], kept);
    }
  }

  lemma {:induction false} KeepWithout(s: seq<Key>, kept: set<Key>, x: Key)
    ensures Keep(Without(s, x), kept - {x}) == Without(Keep(s, kept), x)
    ensures Keep(Without(s, x), kept) == Without(Keep(s, kept), x)
  {
    if s == [] {
    } else {
      KeepWithout(s[1..], kept, x);
    }
  }

  lemma {:induction false} KeepAppend(s: seq<Key>, kept: set<Key>, x: Key)
    requires x !in s
    ensures Keep(s + [x], kept + {x}) == Keep(s, kept) + [x]
  {
    if s == [] {
      assert [x][1..] == [];
    } else {
      assert (s + [x])[1..] == s[1..] + [x];
      KeepAppend(s[1..], kept, x);
    }
  }

  lemma DeleteKeepsIncluded(small: Entries, large: Entries, k: Key)
    requires small.Valid() && large.Valid() && Included(small, large)
    ensures Included(small.Delete(k), large.Delete(k))
    ensures |small.Delete(k).keys| == |small.keys| - (if k in small.vals then 1 else 0)
    ensures |large.Delete(k).keys| == |large.keys| - (if k in large.vals then 1 else 0)
  {
    KeepWithout(large.keys, small.vals.Keys, k);
    WithoutNoDuplicates(small.keys, k);
    WithoutNoDuplicates(large.keys, k);
    assert small.Delete(k).vals.Keys == small.vals.Keys - {k};
  }

  /** Appending an absent key to both. */
  lemma AppendKeepsIncluded(small: Entries, large: Entries, k: Key, item: Item)
    requires small.Valid() && large.Valid() && Included(small, large) && k !in large.vals
    ensures Included(small.Set(k, item), large.Set(k, item))
    ensures |small.Set(k, item).keys| == |small.keys| + 1 && |large.Set(k, item).keys| == |large.keys| + 1
  {
    KeepAppend(large.keys, small.vals.Keys, k);
    assert small.Set(k, item).vals.Keys == small.vals.Keys + {k};
  }

  /** Appending to the larger layer alone. */
  lemma AppendToLarge(small: Entries, large: Entries, k: Key, item: Item)
    requires small.Valid() && large.Valid() && Included(small, large) && k !in large.vals
    ensures Included(small, large.Set(k, item))
  {
    KeepSkipsLast(large.keys, small.vals.Keys, k);
  }

  lemma {:induction false} KeepSkipsLast(s: seq<Key>, kept: set<Key>, x: Key)
    requires x !in kept
    ensures Keep(s + [x], kept) == Keep(s, kept)
  {
    if s == [] {
      assert [x][1..] == [];
    } else {
      assert (s + [x])[1..] == s[1..] + [x];
      KeepSkipsLast(s[1..], kept, x);
    }
  }

  /** Dropping the oldest of the larger layer when the smaller does not hold it. */
  lemma DropFromLarge(small: Entries, large: Entries)
    requires small.Valid() && large.Valid() && Included(small, large)
    requires large.keys != [] && large.keys[0] !in small.vals
    ensures Included(small, large.Delete(large.keys[0]))
  {
    WithoutHead(large.keys);
  }

  /** The oldest key of the smaller layer is the oldest of its keys in the larger one. */
  lemma OldestOfBoth(small: Entries, large: Entries)
    requires small.Valid() && large.Valid() && Included(small, large)
    requires large.keys != [] && large.keys[0] in small.vals
    ensures small.keys != [] && small.keys[0] == large.keys[0]
  {
  }

  /** Dropping the oldest of the smaller layer alone. */
  lemma DropFromSmall(small: Entries, large: Entries)
    requires small.Valid() && large.Valid() && Included(small, large) && small.keys != []
    ensures Included(small.Delete(small.keys[0]), large)
  {
    var x := small.keys[0];
    var rest := small.Delete(x);
    WithoutHead(small.keys);
    assert rest.vals.Keys == small.vals.Keys - {x};
    KeepButFirst(large.keys, small.vals.Keys, x);
  }

  lemma {:induction false} KeepButFirst(s: seq<Key>, kept: set<Key>, x: Key)
    requires NoDuplicates(s) && Keep(s, kept) != [] && Keep(s, kept)[0] == x
    ensures Keep(s, kept - {x}) == Keep(s, kept)[1..]
  {
    if s[0] in kept {
      assert s == [s[0]] + s[1..];
      assert x !in s[1..];
      KeepIgnores(s[1..], kept, x);
    } else {
      KeepButFirst(s[1..], kept, x);
    }
  }

  lemma {:induction false} KeepIgnores(s: seq<Key>, kept: set<Key>, x: Key)
    requires x !in s
    ensures Keep(s, kept - {x}) == Keep(s, kept)
  {
    if s == [] {
    } else {
      KeepIgnores(s[1..], kept, x);
    }
  }

  lemma EvictOne(m: Entries, max: nat)
    requires m.Valid() && |m.keys| == max + 1
    ensures EvictTo(m, max, Lru) == m.Delete(m.keys[0])
    ensures |m.Delete(m.keys[0]).keys| == max && m.Delete(m.keys[0]).Valid()
  {
    WithoutNoDuplicates(m.keys, m.keys[0]);
    DeleteKeepsValid(m, m.keys[0]);
  }

  /** Both layers write the same key. */
  lemma SetKeepsTracks(small: Entries, m: nat, large: Entries, n: nat, k: Key, v: Value, ttl: Option<int>, now: Time)
    requires Tracks(small, m, large, n)
    ensures Tracks(Write(small, k, v, ttl, now, m, Lru), m, Write(large, k, v, ttl, now, n, Lru), n)
  {
    var item := Item(v, ExpiryOf(ttl, now), 0, now);
    DeleteKeepsIncluded(small, large, k);
    DeleteKeepsValid(small, k);
    DeleteKeepsValid(large, k);
    AppendKeepsIncluded(small.Delete(k), large.Delete(k), k, item);
    PutKeepsValid(small, k, v, ttl, now);
    PutKeepsValid(large, k, v, ttl, now);
    TrimKeepsTracks(Put(small, k, v, ttl, now), m, Put(large, k, v, ttl, now), n);
  }

  /** Both layers hold at most one entry too many, the larger one only if the smaller one does. */
  lemma TrimKeepsTracks(a: Entries, m: nat, b: Entries, n: nat)
    requires a.Valid() && b.Valid() && Included(a, b)
    requires m <= n && |a.keys| <= m + 1 && |b.keys| <= n + 1
    requires |a.keys| <= m ==> |b.keys| <= n && m - |a.keys| <= n - |b.keys|
    ensures Tracks(EvictTo(a, m, Lru), m, EvictTo(b, n, Lru), n)
  {
    if |a.keys| == m + 1 {
      EvictOne(a, m);
      DropFromSmall(a, b);
      if |b.keys| == n + 1 {
        EvictOne(b, n);
        if b.keys[0] in a.vals {
          OldestOfBoth(a, b);
        }
        DropFromLarge(a.Delete(a.keys[0]), b);
      }
    }
  }

  /** Both layers delete the same key. */
  lemma DeleteKeepsTracks(small: Entries, m: nat, large: Entries, n: nat, k: Key)
    requires Tracks(small, m, large, n)
    ensures Tracks(small.Delete(k), m, large.Delete(k), n)
    ensures k !in small.vals ==> small.Delete(k) == small
    ensures k !in large.vals ==> large.Delete(k) == large
    ensures k in small.vals ==> |small.Delete(k).keys| < m && |large.Delete(k).keys| < n && k !in large.Delete(k).vals
  {
    DeleteTracks(small, m, large, n, k);
    DeleteAbsent(small, k);
    DeleteAbsent(large, k);
  }

  lemma DeleteTracks(small: Entries, m: nat, large: Entries, n: nat, k: Key)
    requires Tracks(small, m, large, n)
    ensures Tracks(small.Delete(k), m, large.Delete(k), n)
    ensures k in small.vals ==> |small.Delete(k).keys| < m && |large.Delete(k).keys| < n
  {
    DeleteKeepsIncluded(small, large, k);
    DeleteKeepsValid(small, k);
    DeleteKeepsValid(large, k);
  }

  lemma DeleteAbsent(m: Entries, k: Key)
    requires m.Valid()
    ensures k !in m.Delete(k).vals && (k !in m.vals ==> m.Delete(k) == m)
  {
  }

  lemma AppendKeepsTracks(small: Entries, m: nat, large: Entries, n: nat, k: Key, item: Item)
    requires Tracks(small, m, large, n) && k !in large.vals && |small.keys| < m && |large.keys| < n
    ensures Tracks(small.Set(k, item), m, large.Set(k, item), n)
  {
    AppendKeepsIncluded(small, large, k, item);
    SetKeepsValid(small, k, item);
    SetKeepsValid(large, k, item);
  }

  lemma ReadHit(m: Entries, k: Key, now: Time)
    requires k in m.vals && !Expired(m.vals[k], now)
    ensures Read(m, k, Lru, now) == m.Delete(k).Set(k, m.vals[k].(accessCount := m.vals[k].accessCount + 1))
  {
  }

  /** A hit in both moves the key to the end of both. */
  lemma HitInBoth(small: Entries, m: nat, large: Entries, n: nat, k: Key, now: Time)
    requires Tracks(small, m, large, n)
    requires k in small.vals && !Expired(small.vals[k], now)
    ensures Tracks(Read(small, k, Lru, now), m, Read(large, k, Lru, now), n)
  {
    var item := small.vals[k].(accessCount := small.vals[k].accessCount + 1);
    assert large.vals[k] == small.vals[k];
    DeleteKeepsTracks(small, m, large, n, k);
    AppendKeepsTracks(small.Delete(k), m, large.Delete(k), n, k, item);
    ReadHit(small, k, now);
    ReadHit(large, k, now);
  }

  /** A hit in the larger layer alone reorders only an entry the smaller one does not hold. */
  lemma HitInLarge(small: Entries, m: nat, large: Entries, n: nat, k: Key, now: Time)
    requires Tracks(small, m, large, n)
    requires k in large.vals && k !in small.vals && !Expired(large.vals[k], now)
    ensures Tracks(small, m, Read(large, k, Lru, now), n)
  {
    var item := large.vals[k].(accessCount := large.vals[k].accessCount + 1);
    ReadKeepsValid(large, k, Lru, now);
    DeleteKeepsTracks(small, m, large, n, k);
    AppendToLarge(small, large.Delete(k), k, item);
    WithoutNoDuplicates(large.keys, k);
  }

  lemma GetKeepsTracks(small: Entries, m: nat, large: Entries, n: nat, k: Key, now: Time)
    requires Tracks(small, m, large, n)
    ensures Tracks(Read(small, k, Lru, now), m, Read(large, k, Lru, now), n)
  {
    if k !in large.vals {
    } else if Expired(large.vals[k], now) {
      DeleteKeepsTracks(small, m, large, n, k);
    } else if k in small.vals {
      HitInBoth(small, m, large, n, k, now);
    } else {
      HitInLarge(small, m, large, n, k, now);
    }
  }

  lemma {:induction false} KeepLive(keys: seq<Key>, vals: map<Key, Item>, kept: set<Key>, now: Time)
    requires forall k :: k in keys ==> k in vals
    requires forall k :: k in Keep(keys, kept) ==> k in vals
    ensures Live(Keep(keys, kept), vals, now) ==
            Keep(Live(keys, vals, now), set k | k in kept && k in vals && !Expired(vals[k], now))
  {
    if keys == [] {
    } else {
      assert keys == [keys[0]] + keys[1..];
      KeepLemma(keys[1..], kept);
      KeepLive(keys[1..], vals, kept, now);
    }
  }

  /** Which of the kept keys are live depends only on their own items. */
  lemma {:induction false} LiveAgrees(keys: seq<Key>, a: map<Key, Item>, b: map<Key, Item>, now: Time)
    requires forall k :: k in keys ==> k in a && k in b && a[k] == b[k]
    ensures Live(keys, a, now) == Live(keys, b, now)
  {
    if keys == [] {
    } else {
      assert keys[0] in keys;
      LiveAgrees(keys[1..], a, b, now);
    }
  }

  /** A prune takes at least as many entries from the larger layer. */
  lemma {:induction false} LiveLosses(keys: seq<Key>, vals: map<Key, Item>, kept: set<Key>, now: Time)
    requires forall k :: k in keys ==> k in vals
    requires forall k :: k in Keep(keys, kept) ==> k in vals
    ensures |Keep(keys, kept)| - |Live(Keep(keys, kept), vals, now)| <= |keys| - |Live(keys, vals, now)|
  {
    if keys == [] {
    } else {
      assert keys == [keys[0]] + keys[1..];
      KeepLemma(keys[1..], kept);
      LiveLosses(keys[1..], vals, kept, now);
    }
  }

  lemma PruneKeepsTracks(small: Entries, m: nat, large: Entries, n: nat, now: Time)
    requires Tracks(small, m, large, n)
    ensures Tracks(Prune(small, now), m, Prune(large, now), n)
  {
    PruneKeepsValid(small, now);
    PruneKeepsValid(large, now);
    var kept := small.vals.Keys;
    KeepLemma(large.keys, kept);
    KeepLive(large.keys, large.vals, kept, now);
    LiveLosses(large.keys, large.vals, kept, now);
    LiveAgrees(small.keys, small.vals, large.vals, now);
    assert Prune(small, now).vals.Keys == set k | k in kept && k in large.vals && !Expired(large.vals[k], now);
  }

  lemma StepKeepsTracks(small: Entries, m: nat, large: Entries, n: nat, t: Timed)
    requires Tracks(small, m, large, n)
    ensures Tracks(Apply(small, t, m, Lru), m, Apply(large, t, n, Lru), n)
  {
    match t.op
    case OpSet(k, v, ttl) => SetKeepsTracks(small, m, large, n, k, v, ttl, t.now);
    case OpGet(k) => GetKeepsTracks(small, m, large, n, k, t.now);
    case OpHas(k) => DeleteKeepsTracks(small, m, large, n, k);
    case OpDelete(k) => DeleteKeepsTracks(small, m, large, n, k);
    case OpClear =>
    case OpPrune => PruneKeepsTracks(small, m, large, n, t.now);
  }

  function RunAll(ops: seq<Timed>, max: nat, p: Policy): (r: Entries)
    ensures r.Valid() && |r.keys| <= max
    decreases |ops|
  {
    if ops == [] then Empty()
    else
      var before := RunAll(ops[..|ops|-1], max, p);
      ApplyKeepsValid(before, ops[|ops|-1], max, p);
      Apply(before, ops[|ops|-1], max, p)
  }

  /** LRU inclusion.  After any one run of sets, gets, existence checks, deletes, clears and prunes, the layer
      with the larger limit holds every entry of the one with the smaller limit, item for item and in the same
      order, each within its limit; so a hit in the smaller layer is a hit in the larger with the same value. */
  lemma {:induction false} LruInclusion(ops: seq<Timed>, m: nat, n: nat)
    requires m <= n
    ensures Included(RunAll(ops, m, Lru), RunAll(ops, n, Lru))
    ensures Tracks(RunAll(ops, m, Lru), m, RunAll(ops, n, Lru), n)
    ensures forall k, now :: Found(RunAll(ops, m, Lru), k, now).Some? ==>
                               Found(RunAll(ops, n, Lru), k, now) == Found(RunAll(ops, m, Lru), k, now)
    ensures |RunAll(ops, m, Lru).vals| <= m && |RunAll(ops, n, Lru).vals| <= n
    decreases |ops|
  {
    SizeIsCardinality(RunAll(ops, m, Lru));
    SizeIsCardinality(RunAll(ops, n, Lru));
    if ops == [] {
    } else {
      LruInclusion(ops[..|ops|-1], m, n);
      StepKeepsTracks(RunAll(ops[..|ops|-1], m, Lru), m, RunAll(ops[..|ops|-1], n, Lru), n, ops[|ops|-1]);
    }
  }

  // ---- what the map tells of its past, under every policy ----

  /** The last write of a key in a history, or -1. */
  function LastSet(ops: seq<Timed>, k: Key): (w: int)
    ensures -1 <= w < |ops| && (w >= 0 ==> ops[w].op.OpSet? && ops[w].op.key == k)
    decreases |ops|
  {
    var n := |ops| - 1;
    if ops == [] then -1 else if ops[n].op.OpSet? && ops[n].op.key == k then n else LastSet(ops[..n], k)
  }

  /** The last operation that counts as a use of a key, or -1: a write, and under LRU a read. */
  function LastUse(ops: seq<Timed>, k: Key, p: Policy): (u: int)
    ensures -1 <= u < |ops|
    decreases |ops|
  {
    var n := |ops| - 1;
    if ops == [] then -1
    else if (ops[n].op.OpSet? || (p == Lru && ops[n].op.OpGet?)) && ops[n].op.key == k then n
    else LastUse(ops[..n], k, p)
  }

  /** The reads of a key since its last write. */
  function Reads(ops: seq<Timed>, k: Key): nat
    decreases |ops|
  {
    var n := |ops| - 1;
    if ops == [] || (ops[n].op.OpSet? && ops[n].op.key == k) then 0
    else Reads(ops[..n], k) + if ops[n].op.OpGet? && ops[n].op.key == k then 1 else 0
  }

  /** An entry holds what its key's last write put there, and under LRU and LFU the number of reads since. */
  ghost predicate Recalls(m: Entries, ops: seq<Timed>, p: Policy, k: Key) {
    k in m.vals ==>
      var w := LastSet(ops, k);
      && w >= 0
      && var last, item := ops[w].op, m.vals[k];
         && item.value == last.value && item.insertedAt == ops[w].now
         && (item.expiresAt == if last.ttl.Some? && last.ttl.value > 0 then Some(ops[w].now + last.ttl.value) else None)
         && (p != Fifo ==> item.accessCount == Reads(ops, k))
  }

  /** The keys are in the order of their last uses. */
  ghost predicate InUseOrder(keys: seq<Key>, ops: seq<Timed>, p: Policy) {
    forall i, j :: 0 <= i < j < |keys| ==> LastUse(ops, keys[i], p) < LastUse(ops, keys[j], p)
  }

  ghost predicate TellsPast(m: Entries, ops: seq<Timed>, p: Policy) {
    m.Valid() && (forall k :: Recalls(m, ops, p, k)) && InUseOrder(m.keys, ops, p)
  }

  /** `a` is `b` with some elements left out. */
  ghost predicate Sublist(a: seq<Key>, b: seq<Key>)
    decreases |b|
  {
    a == [] || (b != [] && if a[0] == b[0] then Sublist(a[1..], b[1..]) else Sublist(a, b[1..]))
  }

  lemma {:induction false} SublistIsOrdered(a: seq<Key>, b: seq<Key>, ops: seq<Timed>, p: Policy)
    requires Sublist(a, b) && InUseOrder(b, ops, p)
    ensures InUseOrder(a, ops, p) && forall k :: k in a ==> k in b
    decreases |b|
  {
    if a == [] {
    } else {
      assert b == [b[0]] + b[1..] && a == [a[0]] + a[1..];
      if a[0] == b[0] {
        SublistIsOrdered(a[1..], b[1..], ops, p);
        forall i, j | 0 <= i < j < |a|
          ensures LastUse(ops, a[i], p) < LastUse(ops, a[j], p)
        {
          assert i > 0 ==> a[i] == a[1..][i-1] && a[j] == a[1..][j-1];
          assert a[j] == a[1..][j-1] && a[j] in b[1..];
        }
      } else {
        SublistIsOrdered(a, b[1..], ops, p);
      }
    }
  }

  lemma {:induction false} WithoutIsSublist(s: seq<Key>, k: Key)
    ensures Sublist(Without(s, k), s)
  {
    if s == [] {
    } else {
      WithoutIsSublist(s[1..], k);
      if s[0] == k {
        SublistMore(Without(s[1..], k), s);
      }
    }
  }

  lemma {:induction false} SublistMore(a: seq<Key>, b: seq<Key>)
    requires b != [] && Sublist(a, b[1..])
    ensures Sublist(a, b)
    decreases |b|, 0
  {
    if a != [] && a[0] == b[0] {
      assert b[1..] != [];
      SublistTail(a, b[1..]);
    }
  }

  lemma {:induction false} SublistTail(a: seq<Key>, b: seq<Key>)
    requires a != [] && Sublist(a, b)
    ensures Sublist(a[1..], b)
    decreases |b|, 1
  {
    if a[0] == b[0] {
      SublistMore(a[1..], b);
    } else {
      SublistTail(a, b[1..]);
      SublistMore(a[1..], b);
    }
  }

  lemma {:induction false} SublistOfSublist(a: seq<Key>, b: seq<Key>, c: seq<Key>)
    requires Sublist(a, b) && Sublist(b, c)
    ensures Sublist(a, c)
    decreases |c|
  {
    if a == [] {
    } else if b[0] == c[0] {
      if a[0] == b[0] {
        SublistOfSublist(a[1..], b[1..], c[1..]);
      } else {
        SublistOfSublist(a, b[1..], c[1..]);
        SublistMore(a, c);
      }
    } else {
      SublistOfSublist(a, b, c[1..]);
      SublistMore(a, c);
    }
  }

  // ---- every step keeps it ----

  /** `after` is a history with one more operation. */
  ghost predicate Follows(after: seq<Timed>, ops: seq<Timed>) {
    |after| == |ops| + 1 && after[..|ops|] == ops
  }

  /** The operation neither writes the key nor counts as a use or a read of it. */
  ghost predicate LeavesAlone(after: seq<Timed>, ops: seq<Timed>, p: Policy, k: Key) {
    && LastSet(after, k) == LastSet(ops, k) && LastUse(after, k, p) == LastUse(ops, k, p)
    && (p != Fifo ==> Reads(after, k) == Reads(ops, k))
  }

  lemma HistoryGrows(after: seq<Timed>, ops: seq<Timed>, p: Policy, k: Key)
    requires Follows(after, ops)
    ensures var op := after[|ops|].op;
            && (op.OpSet? && op.key == k ==>
                  LastSet(after, k) == LastUse(after, k, p) == |ops| && Reads(after, k) == 0)
            && (op.OpGet? && op.key == k ==>
                  && LastSet(after, k) == LastSet(ops, k) && Reads(after, k) == Reads(ops, k) + 1
                  && LastUse(after, k, p) == if p == Lru then |ops| else LastUse(ops, k, p))
            && (!((op.OpSet? || op.OpGet?) && op.key == k) ==> LeavesAlone(after, ops, p, k))
  {
  }

  lemma RecallsOn(m: Entries, r: Entries, after: seq<Timed>, ops: seq<Timed>, p: Policy, k: Key)
    requires Follows(after, ops) && LeavesAlone(after, ops, p, k) && Recalls(m, ops, p, k)
    requires k in r.vals ==> k in m.vals && r.vals[k] == m.vals[k]
    ensures Recalls(r, after, p, k)
  {
    assert LastSet(ops, k) >= 0 ==> after[..|ops|][LastSet(ops, k)] == after[LastSet(ops, k)];
  }

  /** Leaving entries out keeps what the others tell. */
  lemma FewerTellPast(m: Entries, r: Entries, ops: seq<Timed>, p: Policy)
    requires TellsPast(m, ops, p) && r.Valid() && Sublist(r.keys, m.keys)
    requires forall k :: k in r.vals ==> k in m.vals && r.vals[k] == m.vals[k]
    ensures TellsPast(r, ops, p)
  {
    SublistIsOrdered(r.keys, m.keys, ops, p);
    forall k ensures Recalls(r, ops, p, k) { assert Recalls(m, ops, p, k); }
  }

  lemma {:induction false} EvictIsSublist(m: Entries, max: nat, p: Policy)
    requires m.Valid()
    ensures Sublist(EvictTo(m, max, p).keys, m.keys)
    decreases |m.keys|
  {
    if |m.keys| <= max {
      SublistOfItself(m.keys);
    } else {
      var x := Victim(m, p);
      WithoutNoDuplicates(m.keys, x);
      DeleteKeepsValid(m, x);
      EvictIsSublist(m.Delete(x), max, p);
      WithoutIsSublist(m.keys, x);
      SublistOfSublist(EvictTo(m.Delete(x), max, p).keys, m.Delete(x).keys, m.keys);
    }
  }

  lemma {:induction false} SublistOfItself(s: seq<Key>)
    ensures Sublist(s, s)
  {
    if s == [] {
    } else {
      SublistOfItself(s[1..]);
    }
  }

  lemma {:induction false} LiveIsSublist(keys: seq<Key>, vals: map<Key, Item>, now: Time)
    requires forall k :: k in keys ==> k in vals
    ensures Sublist(Live(keys, vals, now), keys)
  {
    if keys == [] {
    } else {
      assert keys[0] in keys;
      LiveIsSublist(keys[1..], vals, now);
      if Expired(vals[keys[0]], now) {
        SublistMore(Live(keys[1..], vals, now), keys);
      }
    }
  }

  lemma AppendedInOrder(keys: seq<Key>, after: seq<Timed>, ops: seq<Timed>, p: Policy, k: Key)
    requires InUseOrder(keys, ops, p) && LastUse(after, k, p) == |ops|
    requires forall j :: j in keys ==> LastUse(after, j, p) == LastUse(ops, j, p)
    ensures InUseOrder(keys + [k], after, p)
  {
    var r := keys + [k];
    forall i, j | 0 <= i < j < |r|
      ensures LastUse(after, r[i], p) < LastUse(after, r[j], p)
    {
      assert r[i] in keys;
      assert j < |keys| ==> r[j] in keys;
    }
  }

  /** A used key goes to the end: the order of the others, and their items, stay. */
  lemma AppendTellsPast(m: Entries, after: seq<Timed>, ops: seq<Timed>, p: Policy, k: Key, item: Item)
    requires TellsPast(m, ops, p) && Follows(after, ops)
    requires LastUse(after, k, p) == |ops| && forall j :: j != k ==> LeavesAlone(after, ops, p, j)
    requires Recalls(m.Delete(k).Set(k, item), after, p, k)
    ensures TellsPast(m.Delete(k).Set(k, item), after, p)
  {
    var d := m.Delete(k);
    var r := d.Set(k, item);
    DeleteTellsPast(m, ops, k, p);
    SetKeepsValid(d, k, item);
    AppendedInOrder(d.keys, after, ops, p, k);
    forall j ensures Recalls(r, after, p, j) {
      if j != k {
        assert Recalls(m, ops, p, j);
        RecallsOn(m, r, after, ops, p, j);
      }
    }
  }

  /** An operation that leaves all keys alone. */
  lemma IdleTellsPast(m: Entries, after: seq<Timed>, ops: seq<Timed>, p: Policy)
    requires TellsPast(m, ops, p) && Follows(after, ops)
    requires forall j :: j in m.vals ==> LeavesAlone(after, ops, p, j)
    ensures TellsPast(m, after, p)
  {
    forall j ensures Recalls(m, after, p, j) {
      assert Recalls(m, ops, p, j);
      if j in m.vals {
        RecallsOn(m, m, after, ops, p, j);
      }
    }
    forall i, j | 0 <= i < j < |m.keys|
      ensures LastUse(after, m.keys[i], p) < LastUse(after, m.keys[j], p)
    {
      assert m.keys[i] in m.keys && m.keys[j] in m.keys;
    }
  }

  lemma SetTellsPast(m: Entries, after: seq<Timed>, ops: seq<Timed>, max: nat, p: Policy)
    requires TellsPast(m, ops, p) && Follows(after, ops) && after[|ops|].op.OpSet?
    ensures TellsPast(Apply(m, after[|ops|], max, p), after, p)
  {
    var t := after[|ops|];
    var put := Put(m, t.op.key, t.op.value, t.op.ttl, t.now);
    PutTellsPast(m, after, ops, p);
    EvictIsSublist(put, max, p);
    EvictFits(put, max, p);
    FewerTellPast(put, EvictTo(put, max, p), after, p);
  }

  lemma PutTellsPast(m: Entries, after: seq<Timed>, ops: seq<Timed>, p: Policy)
    requires TellsPast(m, ops, p) && Follows(after, ops) && after[|ops|].op.OpSet?
    ensures var t := after[|ops|];
            TellsPast(Put(m, t.op.key, t.op.value, t.op.ttl, t.now), after, p)
  {
    var t := after[|ops|];
    forall j ensures j != t.op.key ==> LeavesAlone(after, ops, p, j) {
      HistoryGrows(after, ops, p, j);
    }
    HistoryGrows(after, ops, p, t.op.key);
    PutRecalls(m, after, ops, p);
    AppendTellsPast(m, after, ops, p, t.op.key, Put(m, t.op.key, t.op.value, t.op.ttl, t.now).vals[t.op.key]);
  }

  lemma PutRecalls(m: Entries, after: seq<Timed>, ops: seq<Timed>, p: Policy)
    requires Follows(after, ops) && after[|ops|].op.OpSet?
    ensures var t := after[|ops|];
            Recalls(Put(m, t.op.key, t.op.value, t.op.ttl, t.now), after, p, t.op.key)
  {
    HistoryGrows(after, ops, p, after[|ops|].op.key);
  }

  lemma GetTellsPast(m: Entries, after: seq<Timed>, ops: seq<Timed>, max: nat, p: Policy)
    requires TellsPast(m, ops, p) && Follows(after, ops) && after[|ops|].op.OpGet?
    ensures TellsPast(Apply(m, after[|ops|], max, p), after, p)
  {
    var t := after[|ops|];
    var k := t.op.key;
    forall j ensures j != k ==> LeavesAlone(after, ops, p, j) {
      HistoryGrows(after, ops, p, j);
    }
    if k !in m.vals {
      IdleTellsPast(m, after, ops, p);
    } else if Expired(m.vals[k], t.now) {
      DeleteTellsPast(m, ops, k, p);
      IdleTellsPast(m.Delete(k), after, ops, p);
    } else {
      HitTellsPast(m, after, ops, p, k);
    }
  }

  /** The entry with one more read. */
  function OneMoreRead(i: Item): Item {
    i.(accessCount := i.accessCount + 1)
  }

  lemma HitTellsPast(m: Entries, after: seq<Timed>, ops: seq<Timed>, p: Policy, k: Key)
    requires TellsPast(m, ops, p) && Follows(after, ops) && after[|ops|].op == OpGet(k)
    requires k in m.vals && !Expired(m.vals[k], after[|ops|].now)
    requires forall j :: j != k ==> LeavesAlone(after, ops, p, j)
    ensures TellsPast(Read(m, k, p, after[|ops|].now), after, p)
  {
    ReadOfHit(m, k, p, after[|ops|].now);
    if p == Lru {
      MoveTellsPast(m, after, ops, k);
    } else if p == Lfu {
      HistoryGrows(after, ops, p, k);
      CountTellsPast(m, after, ops, k);
    } else {
      HistoryGrows(after, ops, p, k);
      IdleTellsPast(m, after, ops, p);
    }
  }

  lemma ReadOfHit(m: Entries, k: Key, p: Policy, now: Time)
    requires k in m.vals && !Expired(m.vals[k], now)
    ensures Read(m, k, p, now) == if p == Lru then m.Delete(k).Set(k, OneMoreRead(m.vals[k]))
                                  else if p == Lfu then m.Set(k, OneMoreRead(m.vals[k])) else m
  {
  }

  lemma MoveTellsPast(m: Entries, after: seq<Timed>, ops: seq<Timed>, k: Key)
    requires TellsPast(m, ops, Lru) && Follows(after, ops) && after[|ops|].op == OpGet(k) && k in m.vals
    requires forall j :: j != k ==> LeavesAlone(after, ops, Lru, j)
    ensures TellsPast(m.Delete(k).Set(k, OneMoreRead(m.vals[k])), after, Lru)
  {
    var item := OneMoreRead(m.vals[k]);
    HistoryGrows(after, ops, Lru, k);
    CountRecalls(m, m.Delete(k).Set(k, item), after, ops, Lru, k);
    AppendTellsPast(m, after, ops, Lru, k, item);
  }

  lemma CountRecalls(m: Entries, r: Entries, after: seq<Timed>, ops: seq<Timed>, p: Policy, k: Key)
    requires Recalls(m, ops, p, k) && Follows(after, ops) && k in m.vals && k in r.vals
    requires LastSet(after, k) == LastSet(ops, k) && Reads(after, k) == Reads(ops, k) + 1
    requires p != Fifo && r.vals[k] == OneMoreRead(m.vals[k])
    ensures Recalls(r, after, p, k)
  {
    assert after[..|ops|][LastSet(ops, k)] == after[LastSet(ops, k)];
  }

  /** Under LFU a hit counts and moves nothing. */
  lemma CountTellsPast(m: Entries, after: seq<Timed>, ops: seq<Timed>, k: Key)
    requires TellsPast(m, ops, Lfu) && Follows(after, ops) && k in m.vals
    requires LastSet(after, k) == LastSet(ops, k) && Reads(after, k) == Reads(ops, k) + 1
    requires LastUse(after, k, Lfu) == LastUse(ops, k, Lfu)
    requires forall j :: j != k ==> LeavesAlone(after, ops, Lfu, j)
    ensures TellsPast(m.Set(k, OneMoreRead(m.vals[k])), after, Lfu)
  {
    var r := m.Set(k, OneMoreRead(m.vals[k]));
    SetKeepsValid(m, k, r.vals[k]);
    forall j ensures Recalls(r, after, Lfu, j) {
      assert Recalls(m, ops, Lfu, j);
      if j == k {
        CountRecalls(m, r, after, ops, Lfu, k);
      } else {
        RecallsOn(m, r, after, ops, Lfu, j);
      }
    }
  }

  lemma DeleteTellsPast(m: Entries, ops: seq<Timed>, k: Key, p: Policy)
    requires TellsPast(m, ops, p)
    ensures TellsPast(m.Delete(k), ops, p)
  {
    DeleteKeepsValid(m, k);
    WithoutIsSublist(m.keys, k);
    FewerTellPast(m, m.Delete(k), ops, p);
  }

  lemma RestTellsPast(m: Entries, after: seq<Timed>, ops: seq<Timed>, max: nat, p: Policy)
    requires TellsPast(m, ops, p) && Follows(after, ops) && !after[|ops|].op.OpSet? && !after[|ops|].op.OpGet?
    ensures TellsPast(Apply(m, after[|ops|], max, p), after, p)
  {
    var t := after[|ops|];
    forall j ensures LeavesAlone(after, ops, p, j) {
      HistoryGrows(after, ops, p, j);
    }
    IdleTellsPast(m, after, ops, p);
    match t.op
    case OpHas(k) => DeleteTellsPast(m, after, k, p);
    case OpDelete(k) => DeleteTellsPast(m, after, k, p);
    case OpClear =>
    case OpPrune =>
      PruneKeepsValid(m, t.now);
      LiveIsSublist(m.keys, m.vals, t.now);
      FewerTellPast(m, Prune(m, t.now), after, p);
  }

  /** After every run, under every policy: each entry holds the value, the expiry and the time of the last write of its
      key, counts the reads since, and the entries are in the order of their last uses. */
  lemma {:induction false} RunTellsPast(ops: seq<Timed>, max: nat, p: Policy)
    ensures TellsPast(RunAll(ops, max, p), ops, p)
    decreases |ops|
  {
    if ops == [] {
    } else {
      var before := ops[..|ops|-1];
      var m := RunAll(before, max, p);
      RunTellsPast(before, max, p);
      if ops[|before|].op.OpSet? {
        SetTellsPast(m, ops, before, max, p);
      } else if ops[|before|].op.OpGet? {
        GetTellsPast(m, ops, before, max, p);
      } else {
        RestTellsPast(m, ops, before, max, p);
      }
    }
  }

  // ---- what goes and what stays ----

  /** Everything but a write removes exactly this: a read or a check an expired entry of its key, a prune all expired
      entries, a delete its key and a clear everything. */
  lemma StaysIff(m: Entries, t: Timed, max: nat, p: Policy, k: Key)
    requires m.Valid() && !t.op.OpSet?
    ensures k in Apply(m, t, max, p).vals <==>
            && k in m.vals && !t.op.OpClear? && t.op != OpDelete(k)
            && ((t.op == OpGet(k) || t.op == OpHas(k) || t.op.OpPrune?) && m.vals[k].expiresAt.Some? ==>
                  t.now < m.vals[k].expiresAt.value)
  {
  }

  /** The use that eviction goes by: the last use under LRU and FIFO, and under LFU the reads since the write, then the
      time of the write. */
  ghost predicate LessUsed(ops: seq<Timed>, p: Policy, a: Key, b: Key) {
    if p != Lfu then LastUse(ops, a, p) < LastUse(ops, b, p)
    else
      && LastSet(ops, a) >= 0 && LastSet(ops, b) >= 0
      && (Reads(ops, a) < Reads(ops, b)
          || (Reads(ops, a) == Reads(ops, b) && ops[LastSet(ops, a)].now <= ops[LastSet(ops, b)].now))
  }

  lemma EvictOneOf(m: Entries, max: nat, p: Policy)
    requires m.Valid() && |m.keys| == max + 1
    ensures Victim(m, p) in m.vals && EvictTo(m, max, p) == m.Delete(Victim(m, p))
  {
    var x := Victim(m, p);
    assert x in m.keys;
    WithoutNoDuplicates(m.keys, x);
    DeleteKeepsValid(m, x);
  }

  /** The victim is a least used entry. */
  lemma VictimIsLeast(m: Entries, ops: seq<Timed>, p: Policy, k: Key)
    requires TellsPast(m, ops, p) && k in m.vals && k != Victim(m, p) && m.keys != []
    ensures LessUsed(ops, p, Victim(m, p), k)
  {
    assert k in m.keys;
    var i :| 0 <= i < |m.keys| && m.keys[i] == k;
    if p == Lfu {
      ColdestIsMinimal(m, |m.keys|, i);
      assert Victim(m, p) in m.keys;
      assert Recalls(m, ops, p, Victim(m, p)) && Recalls(m, ops, p, k);
    }
  }

  /** Of some keys exactly one goes, and no key that stays is less used. */
  ghost predicate GoesAlone(ops: seq<Timed>, p: Policy, keys: set<Key>, left: set<Key>, x: Key) {
    x in keys && left == keys - {x} && forall y :: y in left ==> LessUsed(ops, p, x, y)
  }

  lemma VictimGoesAlone(m: Entries, ops: seq<Timed>, p: Policy)
    requires TellsPast(m, ops, p) && m.keys != []
    ensures GoesAlone(ops, p, m.vals.Keys, m.Delete(Victim(m, p)).vals.Keys, Victim(m, p))
  {
    assert Victim(m, p) in m.keys;
    forall y | y in m.Delete(Victim(m, p)).vals
      ensures LessUsed(ops, p, Victim(m, p), y)
    {
      VictimIsLeast(m, ops, p, y);
    }
  }

  lemma PutKeys(m: Entries, put: Entries, k: Key, item: Item)
    requires m.Valid() && put.keys == Without(m.keys, k) + [k] && put.vals == m.vals[k := item]
    ensures put.vals.Keys == m.vals.Keys + {k} && put.keys != [] && put.keys[|put.keys|-1] == k
    ensures |put.keys| == if k in m.vals.Keys then |m.vals.Keys| else |m.vals.Keys| + 1
  {
    SizeIsCardinality(m);
    SizeOfPut(m, k);
    assert |m.vals| == |m.vals.Keys|;
  }

  lemma PutVals(m: Entries, k: Key, v: Value, ttl: Option<int>, now: Time)
    ensures Put(m, k, v, ttl, now).vals == m.vals[k := Item(v, ExpiryOf(ttl, now), 0, now)]
  {
    assert (m.vals - {k})[k := Item(v, ExpiryOf(ttl, now), 0, now)] == m.vals[k := Item(v, ExpiryOf(ttl, now), 0, now)];
  }

  lemma EvictAtMostOne(put: Entries, max: nat, p: Policy)
    requires put.Valid() && 0 < |put.keys| <= max + 1
    ensures EvictTo(put, max, p) == if |put.keys| <= max then put else put.Delete(Victim(put, p))
  {
    if |put.keys| == max + 1 {
      EvictOneOf(put, max, p);
    }
  }

  lemma RunMore(before: seq<Timed>, ops: seq<Timed>, max: nat, p: Policy)
    requires Follows(ops, before)
    ensures RunAll(ops, max, p) == Apply(RunAll(before, max, p), ops[|before|], max, p)
  {
  }

  /** The entries that a write leaves, from the entries once it has put its own. */
  lemma TrimEvicts(put: Entries, ops: seq<Timed>, max: nat, p: Policy)
    requires TellsPast(put, ops, p) && 0 < |put.keys| <= max + 1
    ensures var r := EvictTo(put, max, p);
            if |put.keys| <= max then r == put
            else exists x :: GoesAlone(ops, p, put.vals.Keys, r.vals.Keys, x)
    ensures p != Lfu && max > 0 ==> put.keys[|put.keys|-1] in EvictTo(put, max, p).vals
  {
    EvictAtMostOne(put, max, p);
    VictimGoesAlone(put, ops, p);
    assert put.keys[|put.keys|-1] in put.keys;
    if p != Lfu && |put.keys| > 1 {
      LastIsNoVictim(put, p, put.keys[|put.keys|-1]);
    }
  }

  /** A write that finds room, or its key present, removes nothing; otherwise exactly one entry goes, and it is a least
      used one.  Under LRU and FIFO the key written stays, if the limit is at least one. */
  lemma WriteEvicts(before: seq<Timed>, ops: seq<Timed>, max: nat, p: Policy)
    requires Follows(ops, before) && ops[|before|].op.OpSet?
    ensures var k := ops[|before|].op.key;
            var m, r := RunAll(before, max, p).vals.Keys, RunAll(ops, max, p).vals.Keys;
            if k in m || |m| < max then r == m + {k} else exists x :: GoesAlone(ops, p, m + {k}, r, x)
    ensures p != Lfu && max > 0 ==> ops[|before|].op.key in RunAll(ops, max, p).vals
  {
    var t := ops[|before|];
    var m := RunAll(before, max, p);
    var put := Put(m, t.op.key, t.op.value, t.op.ttl, t.now);
    RunTellsPast(before, max, p);
    PutTellsPast(m, ops, before, p);
    PutKeepsValid(m, t.op.key, t.op.value, t.op.ttl, t.now);
    PutVals(m, t.op.key, t.op.value, t.op.ttl, t.now);
    PutKeys(m, put, t.op.key, put.vals[t.op.key]);
    SizeIsCardinality(m);
    assert |m.vals| == |m.vals.Keys|;
    TrimEvicts(put, ops, max, p);
    RunMore(before, ops, max, p);
    assert RunAll(ops, max, p) == EvictTo(put, max, p);
  }

  lemma LastIsNoVictim(m: Entries, p: Policy, k: Key)
    requires m.Valid() && |m.keys| > 1 && m.keys[|m.keys|-1] == k && p != Lfu
    ensures Victim(m, p) != k
  {
  }

  lemma SizeOfPut(m: Entries, k: Key)
    requires m.Valid()
    ensures |Without(m.keys, k) + [k]| == if k in m.vals then |m.keys| else |m.keys| + 1
  {
    WithoutNoDuplicates(m.keys, k);
  }

  /** The TTL of the last write of a key, if it has one, has not run out. */
  ghost predicate Unlapsed(ops: seq<Timed>, k: Key, now: Time) {
    var w := LastSet(ops, k);
    w >= 0 && ops[w].op.ttl.Some? && ops[w].op.ttl.value > 0 ==> now < ops[w].now + ops[w].op.ttl.value
  }

  /** After every run a read of a key that is there gives the value last written if its TTL has not run out, and nothing
      otherwise. */
  lemma ReadAnswers(ops: seq<Timed>, max: nat, p: Policy, k: Key, now: Time)
    ensures var m := RunAll(ops, max, p);
            && (Found(m, k, now).Some? <==> k in m.vals && Unlapsed(ops, k, now))
            && (k in m.vals ==> LastSet(ops, k) >= 0)
            && (Found(m, k, now).Some? ==> Found(m, k, now).value == ops[LastSet(ops, k)].op.value)
  {
    RunTellsPast(ops, max, p);
    assert Recalls(RunAll(ops, max, p), ops, p, k);
  }

  // ---- the layer itself ----

  class Layer {
    const maxSize: nat
    const policy: Policy
    const defaultTtl: Option<int>
    var entries: Entries
    /** All operations so far. */
    ghost var history: seq<Timed>

    ghost predicate Valid()
      reads this
    {
      entries.Valid() && |entries.keys| <= maxSize && entries == RunAll(history, maxSize, policy)
    }

    /** The operation is over: the entries are as it leaves them. */
    ghost method Record(op: Op, now: Time)
      requires entries == Apply(RunAll(history, maxSize, policy), Timed(op, now), maxSize, policy)
      modifies this`history
      ensures Valid() && history == old(history) + [Timed(op, now)]
    {
      var more := history + [Timed(op, now)];
      assert Follows(more, history);
      RunMore(history, more, maxSize, policy);
      history := more;
    }

    constructor (maxSize: nat, policy: Policy, defaultTtl: Option<int>)
      ensures Valid() && entries == Empty()
      ensures this.maxSize == maxSize && this.policy == policy && this.defaultTtl == defaultTtl
    {
      this.maxSize, this.policy, this.defaultTtl := maxSize, policy, defaultTtl;
      entries, history := Empty(), [];
    }

    /** A read gives the value last written if the entry is still there and its TTL has not run out. */
    method GetEntry(key: Key, now: Time) returns (r: Option<Value>)
      requires Valid()
      modifies this
      ensures Valid() && history == old(history) + [Timed(OpGet(key), now)]
      ensures entries == Read(old(entries), key, policy, now)
      ensures r.Some? <==> key in old(entries).vals && Unlapsed(old(history), key, now)
      ensures r.Some? ==> LastSet(old(history), key) >= 0
                          && r.value == old(history)[LastSet(old(history), key)].op.value
    {
      ReadAnswers(history, maxSize, policy, key, now);
      r := Look(key, now);
      Record(OpGet(key), now);
    }

    method Look(key: Key, now: Time) returns (r: Option<Value>)
      modifies this`entries
      ensures entries == Read(old(entries), key, policy, now) && r == Found(old(entries), key, now)
    {
      if key !in entries.vals {
        return None;
      }
      var entry := entries.vals[key];
      if Expired(entry, now) {
        entries := entries.Delete(key);
        return None;
      }
      Touch(key, entry, now);
      return Some(entry.value);
    }

    /** The bookkeeping of a hit. */
    method Touch(key: Key, entry: Item, ghost now: Time)
      requires key in entries.vals && entries.vals[key] == entry && !Expired(entry, now)
      modifies this`entries
      ensures entries == Read(old(entries), key, policy, now)
    {
      var touched := entry.(accessCount := entry.accessCount + 1);
      if policy == Lru {
        entries := entries.Delete(key);
        entries := entries.Set(key, touched);
      } else if policy == Lfu {
        entries := entries.Set(key, touched);
      }
    }

    method Set(key: Key, value: Value, ttl: Option<int>, now: Time)
      requires Valid()
      modifies this
      ensures Valid()
      ensures history == old(history) + [Timed(OpSet(key, value, if ttl.Some? then ttl else defaultTtl), now)]
      ensures entries == Write(old(entries), key, value, if ttl.Some? then ttl else defaultTtl, now, maxSize, policy)
    {
      var effective := if ttl.Some? then ttl else defaultTtl;
      ghost var put := Put(entries, key, value, effective, now);
      PutKeepsValid(entries, key, value, effective, now);
      entries := entries.Delete(key);
      entries := entries.Set(key, Item(value, ExpiryOf(effective, now), 0, now));
      EvictDown();
      Record(OpSet(key, value, effective), now);
    }

    /** The loop of `set`. */
    method EvictDown()
      requires entries.Valid()
      modifies this`entries
      ensures entries == EvictTo(old(entries), maxSize, policy)
    {
      while |entries.keys| > maxSize
        invariant entries.Valid() && EvictTo(entries, maxSize, policy) == EvictTo(old(entries), maxSize, policy)
        decreases |entries.keys|
      {
        Evict();
      }
    }

    /** A check answers like a read and uses nothing. */
    method Has(key: Key, now: Time) returns (r: bool)
      requires Valid()
      modifies this
      ensures Valid() && history == old(history) + [Timed(OpHas(key), now)]
      ensures entries == Probe(old(entries), key, now)
      ensures r <==> key in old(entries).vals && Unlapsed(old(history), key, now)
    {
      ReadAnswers(history, maxSize, policy, key, now);
      r := Check(key, now);
      Record(OpHas(key), now);
    }

    method Check(key: Key, now: Time) returns (r: bool)
      modifies this`entries
      ensures entries == Probe(old(entries), key, now) && r == Found(old(entries), key, now).Some?
    {
      if key !in entries.vals {
        return false;
      }
      if Expired(entries.vals[key], now) {
        entries := entries.Delete(key);
        return false;
      }
      return true;
    }

    method Delete(key: Key, ghost now: Time)
      requires Valid()
      modifies this
      ensures Valid() && history == old(history) + [Timed(OpDelete(key), now)] && entries == old(entries).Delete(key)
    {
      entries := entries.Delete(key);
      Record(OpDelete(key), now);
    }

    method Clear(ghost now: Time)
      requires Valid()
      modifies this
      ensures Valid() && history == old(history) + [Timed(OpClear, now)] && entries == Empty()
    {
      entries := Empty();
      Record(OpClear, now);
    }

    /** Evicts the oldest entry, or for LFU the coldest, found by a scan in insertion order. */
    method Evict()
      requires entries.Valid() && entries.keys != []
      modifies this`entries
      ensures entries == old(entries).Delete(Victim(old(entries), policy))
      ensures entries.Valid() && |entries.keys| == |old(entries.keys)| - 1
    {
      WithoutNoDuplicates(entries.keys, Victim(entries, policy));
      DeleteKeepsValid(entries, Victim(entries, policy));
      if policy == Lru || policy == Fifo {
        entries := entries.Delete(entries.keys[0]);
        return;
      }
      var victim := ScanForColdest();
      entries := entries.Delete(entries.keys[victim]);
    }

    /** The minimum scan of LFU. */
    method ScanForColdest() returns (victim: nat)
      requires entries.Valid() && entries.keys != []
      ensures victim == Coldest(entries, |entries.keys|)
    {
      victim := 0;
      for i := 1 to |entries.keys|
        invariant victim < i && victim == Coldest(entries, i)
      {
        if Colder(entries.vals[entries.keys[i]], entries.vals[entries.keys[victim]]) {
          victim := i;
        }
      }
    }

    method PruneExpired(now: Time)
      requires Valid()
      modifies this
      ensures Valid() && history == old(history) + [Timed(OpPrune, now)] && entries == Prune(old(entries), now)
    {
      var keys := entries.keys;
      DropExpired(keys, now);
      Record(OpPrune, now);
    }

    /** The loop of `pruneExpired` over a snapshot of the keys. */
    method DropExpired(keys: seq<Key>, now: Time)
      requires entries.Valid() && keys == entries.keys
      modifies this`entries
      ensures entries == Prune(old(entries), now)
    {
      ghost var before := entries;
      assert PrunedTo(before, 0, now) == before;
      for i := 0 to |keys|
        invariant entries == PrunedTo(before, i, now)
      {
        PruneOneMore(before, i, now);
        if Expired(entries.vals[keys[i]], now) {
          entries := entries.Delete(keys[i]);
        }
      }
      assert keys[..|keys|] == keys;
      assert PrunedTo(before, |keys|, now) == Prune(before, now);
    }
  }

  /** The map when the prune has visited its first `n` keys. */
  ghost function PrunedTo(m: Entries, n: nat, now: Time): Entries
    requires m.Valid() && n <= |m.keys|
  {
    OMap(Live(m.keys[..n], m.vals, now) + m.keys[n..],
         Unexpired(m.vals, m.keys[..n], now))
  }

  /** The entries without the expired ones of some keys. */
  ghost function Unexpired(vals: map<Key, Item>, seen: seq<Key>, now: Time): map<Key, Item> {
    map k | k in vals && !(k in seen && Expired(vals[k], now)) :: vals[k]
  }

  lemma UnexpiredAppends(vals: map<Key, Item>, seen: seq<Key>, k: Key, now: Time)
    requires k in vals && k !in seen
    ensures k in Unexpired(vals, seen, now) && Unexpired(vals, seen, now)[k] == vals[k]
    ensures Unexpired(vals, seen + [k], now) ==
            if Expired(vals[k], now) then Unexpired(vals, seen, now) - {k} else Unexpired(vals, seen, now)
  {
  }

  lemma PruneOneMore(m: Entries, n: nat, now: Time)
    requires m.Valid() && n < |m.keys|
    ensures m.keys[n] in PrunedTo(m, n, now).vals && PrunedTo(m, n, now).vals[m.keys[n]] == m.vals[m.keys[n]]
    ensures PrunedTo(m, n + 1, now) ==
            if Expired(m.vals[m.keys[n]], now) then PrunedTo(m, n, now).Delete(m.keys[n]) else PrunedTo(m, n, now)
  {
    PruneOneMoreKey(m, n, now);
    UnexpiredAppends(m.vals, m.keys[..n], m.keys[n], now);
    assert m.keys[..n+1] == m.keys[..n] + [m.keys[n]];
  }

  lemma PruneOneMoreKey(m: Entries, n: nat, now: Time)
    requires m.Valid() && n < |m.keys|
    ensures m.keys[n] in m.vals && m.keys[n] !in m.keys[..n]
    ensures PrunedTo(m, n + 1, now).keys ==
            if Expired(m.vals[m.keys[n]], now) then Without(PrunedTo(m, n, now).keys, m.keys[n])
            else PrunedTo(m, n, now).keys
  {
    var k := m.keys[n];
    assert m.keys[..n+1] == m.keys[..n] + [k] && m.keys[n..] == [k] + m.keys[n+1..];
    assert k in m.keys && k !in m.keys[..n] && k !in m.keys[n+1..];
    PruneMiddle(m.keys[..n], k, m.keys[n+1..], m.vals, now);
  }

  lemma PruneMiddle(a: seq<Key>, k: Key, b: seq<Key>, vals: map<Key, Item>, now: Time)
    requires k !in a && k !in b && k in vals && forall j :: j in a ==> j in vals
    ensures Live(a + [k], vals, now) + b
            == if Expired(vals[k], now) then Without(Live(a, vals, now) + ([k] + b), k)
               else Live(a, vals, now) + ([k] + b)
  {
    LiveAppends(a, k, vals, now);
    LiveOmits(a, k, vals, now);
    var live := Live(a, vals, now);
    if Expired(vals[k], now) {
      assert live + [] == live;
      WithoutMiddle(live, k, b);
    } else {
      Reassociate(live, [k], b);
    }
  }

  lemma Reassociate(a: seq<Key>, b: seq<Key>, c: seq<Key>)
    ensures a + b + c == a + (b + c)
  {
  }

  lemma {:induction false} LiveOmits(keys: seq<Key>, k: Key, vals: map<Key, Item>, now: Time)
    requires k !in keys && forall j :: j in keys ==> j in vals
    ensures k !in Live(keys, vals, now)
  {
    if keys == [] {
    } else {
      LiveOmits(keys[1..], k, vals, now);
    }
  }

  lemma {:induction false} LiveAppends(keys: seq<Key>, k: Key, vals: map<Key, Item>, now: Time)
    requires k in vals && forall j :: j in keys ==> j in vals
    ensures Live(keys + [k], vals, now) == Live(keys, vals, now) + if Expired(vals[k], now) then [] else [k]
  {
    if keys == [] {
      assert [k][1..] == [];
    } else {
      assert (keys + [k])[1..] == keys[1..] + [k];
      LiveAppends(keys[1..], k, vals, now);
    }
  }

  lemma {:induction false} WithoutMiddle(a: seq<Key>, k: Key, b: seq<Key>)
    requires k !in a && k !in b
    ensures Without(a + ([k] + b), k) == a + b
  {
    if a == [] {
      assert a + ([k] + b) == [k] + b && ([k] + b)[1..] == b;
    } else {
      assert (a + ([k] + b))[1..] == a[1..] + ([k] + b);
      WithoutMiddle(a[1..], k, b);
    }
  }
}
