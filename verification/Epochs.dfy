/** The epoch tables behind every write fence (src/internal/CacheStackMaintenance.ts). */
module Epochs {
  import opened OrderedMap
  import opened Keys

  // A fence for a key is the pair (clearEpoch, currentKeyEpoch(key)).  The functions below are the value-level
  // meaning of the mutators; the class `EpochTable` is the mutable table itself.

  const MAX_SAFE_INTEGER: nat := 9007199254740991
  const MAX_KEY_EPOCHS: nat := 50_000

  datatype Fence = Fence(clearEpoch: nat, keyEpoch: nat)

  /** The order fences are compared by: clear epoch first, then key epoch. */
  ghost predicate Before(a: Fence, b: Fence) {
    a.clearEpoch < b.clearEpoch || (a.clearEpoch == b.clearEpoch && a.keyEpoch < b.keyEpoch)
  }

  ghost predicate NotAfter(a: Fence, b: Fence) {
    a == b || Before(a, b)
  }

  datatype Table = Table(entries: OMap<Key, nat>, nextKeyEpoch: nat, absentKeyEpoch: nat, clearEpoch: nat) {

    /** No token handed out so far exceeds the counter, and the counter is a safe integer. */
    ghost predicate Valid() {
      && entries.Valid()
      && absentKeyEpoch <= nextKeyEpoch <= MAX_SAFE_INTEGER
      && (forall k :: k in entries.vals ==> entries.vals[k] <= nextKeyEpoch)
    }

    function KeyEpoch(k: Key): nat {
      if k in entries.vals then entries.vals[k] else absentKeyEpoch
    }

    function Current(k: Key): Fence { Fence(clearEpoch, KeyEpoch(k)) }

    predicate Outdated(k: Key, f: Fence) { f != Current(k) }

    function BeginClear(): Table {
      this.(clearEpoch := clearEpoch + 1, entries := Empty())
    }

    /** `allocateKeyEpoch`: the table after handing out its `nextKeyEpoch` as the new token. */
    function Allocate(): Table {
      if nextKeyEpoch >= MAX_SAFE_INTEGER then Table(Empty(), 1, 0, clearEpoch + 1)
      else this.(nextKeyEpoch := nextKeyEpoch + 1)
    }

    function BumpOne(k: Key): Table {
      var t := this.(entries := entries.Delete(k)).Allocate();
      t.(entries := t.entries.Set(k, t.nextKeyEpoch))
    }

    function BumpEach(keys: seq<Key>): Table
      decreases |keys|
    {
      if keys == [] then this else BumpEach(keys[..|keys|-1]).BumpOne(keys[|keys|-1])
    }

    /** `pruneKeyEpochsIfNeeded`: one tenth, rounded up, and a rotated token for absent keys. */
    function Prune(): Table {
      if entries.Size() <= MAX_KEY_EPOCHS then this
      else
        var t := this.(entries := entries.DropFirst((entries.Size() + 9) / 10)).Allocate();
        t.(absentKeyEpoch := t.nextKeyEpoch)
    }

    function Bump(keys: seq<Key>): Table { BumpEach(keys).Prune() }
  }

  const INITIAL: Table := Table(Empty(), 0, 0, 0)

  datatype Change = Clear | BumpKeys(keys: seq<Key>)

  function Apply(t: Table, c: Change): Table {
    match c
    case Clear => t.BeginClear()
    case BumpKeys(keys) => t.Bump(keys)
  }

  function ApplyAll(t: Table, cs: seq<Change>): Table
    decreases |cs|
  {
    if cs == [] then t else Apply(ApplyAll(t, cs[..|cs|-1]), cs[|cs|-1])
  }

  predicate Invalidates(c: Change, k: Key) {
    c.Clear? || k in c.keys
  }

  // ---- every fence only moves forward ----

  /** What one mutator may do to the fences: none moves back. */
  ghost predicate Forward(t: Table, u: Table) {
    forall k :: NotAfter(t.Current(k), u.Current(k))
  }

  lemma BumpOneMoves(t: Table, k: Key)
    requires t.Valid()
    ensures t.BumpOne(k).Valid() && Forward(t, t.BumpOne(k))
    ensures Before(t.Current(k), t.BumpOne(k).Current(k))
  {
    DeleteKeepsValid(t.entries, k);
    var d := t.(entries := t.entries.Delete(k)).Allocate();
    SetKeepsValid(d.entries, k, d.nextKeyEpoch);
  }

  lemma {:induction false} BumpEachMoves(t: Table, keys: seq<Key>)
    requires t.Valid()
    ensures t.BumpEach(keys).Valid() && Forward(t, t.BumpEach(keys))
    ensures forall k :: k in keys ==> Before(t.Current(k), t.BumpEach(keys).Current(k))
    decreases |keys|
  {
    if keys == [] {
    } else {
      var n := |keys| - 1;
      var u := t.BumpEach(keys[..n]);
      BumpEachMoves(t, keys[..n]);
      BumpOneMoves(u, keys[n]);
      ForwardFurther(t, u, u.BumpOne(keys[n]));
      forall k | k in keys
        ensures Before(t.Current(k), u.BumpOne(keys[n]).Current(k))
      {
        if k != keys[n] {
          assert k in keys[..n];
        }
        assert NotAfter(t.Current(k), u.Current(k)) && NotAfter(u.Current(k), u.BumpOne(keys[n]).Current(k));
      }
    }
  }

  lemma ForwardFurther(t: Table, u: Table, v: Table)
    requires Forward(t, u) && Forward(u, v)
    ensures Forward(t, v)
  {
    forall k
      ensures NotAfter(t.Current(k), v.Current(k))
    {
      assert NotAfter(t.Current(k), u.Current(k)) && NotAfter(u.Current(k), v.Current(k));
    }
  }

  /** Pruning moves no fence back although the dropped keys lose their own token. */
  lemma PruneMoves(t: Table)
    requires t.Valid()
    ensures t.Prune().Valid() && Forward(t, t.Prune())
  {
    if t.entries.Size() > MAX_KEY_EPOCHS {
      DropFirstKeepsValid(t.entries, (t.entries.Size() + 9) / 10);
    }
  }

  /** One clear or bulk bump: the table stays well-formed, no fence moves back, and the fence of every
      invalidated key moves strictly forward, even for keys the same call prunes again or that a
      counter wrap-around resets. */
  lemma ChangeMoves(t: Table, c: Change)
    requires t.Valid()
    ensures Apply(t, c).Valid() && Forward(t, Apply(t, c))
    ensures forall k :: Invalidates(c, k) ==> Before(t.Current(k), Apply(t, c).Current(k))
  {
    match c
    case Clear =>
    case BumpKeys(keys) =>
      BumpEachMoves(t, keys);
      PruneMoves(t.BumpEach(keys));
  }

  lemma {:induction false} RunMoves(t: Table, cs: seq<Change>)
    requires t.Valid()
    ensures ApplyAll(t, cs).Valid() && Forward(t, ApplyAll(t, cs))
    decreases |cs|
  {
    if cs == [] {
    } else {
      var n := |cs| - 1;
      RunMoves(t, cs[..n]);
      ChangeMoves(ApplyAll(t, cs[..n]), cs[n]);
      forall k
        ensures NotAfter(t.Current(k), ApplyAll(t, cs).Current(k))
      {
        assert NotAfter(t.Current(k), ApplyAll(t, cs[..n]).Current(k));
        assert NotAfter(ApplyAll(t, cs[..n]).Current(k), Apply(ApplyAll(t, cs[..n]), cs[n]).Current(k));
      }
    }
  }

  lemma {:induction false} RunSplits(t: Table, before: seq<Change>, after: seq<Change>)
    ensures ApplyAll(t, before + after) == ApplyAll(ApplyAll(t, before), after)
    decreases |after|
  {
    if after == [] {
      assert before + after == before;
    } else {
      var n := |after| - 1;
      assert (before + after)[..|before + after|-1] == before + after[..n];
      RunSplits(t, before, after[..n]);
    }
  }

  /** ABA freedom.  A fence that some later state of the table finds outdated is found outdated in
      every state after that, however the run goes on. */
  lemma OutdatedForever(t: Table, k: Key, before: seq<Change>, after: seq<Change>)
    requires t.Valid()
    requires ApplyAll(t, before).Outdated(k, t.Current(k))
    ensures ApplyAll(ApplyAll(t, before), after).Outdated(k, t.Current(k))
  {
    RunMoves(t, before);
    RunMoves(ApplyAll(t, before), after);
  }

  /** A fence that is still current at the end of a run was current all along, and neither a clear nor
      a bump of its key happened since it was captured. */
  lemma CurrentMeansUntouched(t: Table, k: Key, before: seq<Change>, c: Change, after: seq<Change>)
    requires t.Valid()
    requires !ApplyAll(t, before + [c] + after).Outdated(k, t.Current(k))
    ensures ApplyAll(t, before).Current(k) == t.Current(k)
    ensures !Invalidates(c, k)
  {
    var u := ApplyAll(t, before);
    RunSplits(t, before + [c], after);
    assert (before + [c])[..|before|] == before;
    RunMoves(t, before);
    ChangeMoves(u, c);
    RunMoves(Apply(u, c), after);
    assert NotAfter(t.Current(k), u.Current(k));
    assert NotAfter(u.Current(k), Apply(u, c).Current(k));
    assert NotAfter(Apply(u, c).Current(k), ApplyAll(Apply(u, c), after).Current(k));
  }

  /** A prune drops the oldest tenth and keeps the rest in order.  It runs once per call, so it does not
      restore the limit after a large bulk bump: the number of entries afterwards is within the limit exactly
      when it was at most 55,556 before, or the token for absent keys wrapped the counter around, which empties
      the table. */
  lemma PruneSize(t: Table)
    requires t.Valid() && t.entries.Size() > MAX_KEY_EPOCHS
    ensures t.entries.Size() == |t.entries.vals|
    ensures t.Prune().entries == if t.nextKeyEpoch == MAX_SAFE_INTEGER then Empty()
                                 else t.entries.DropFirst((t.entries.Size() + 9) / 10)
    ensures t.Prune().Valid()
    ensures |t.Prune().entries.vals| <= MAX_KEY_EPOCHS <==>
            |t.entries.vals| <= 55_556 || t.nextKeyEpoch == MAX_SAFE_INTEGER
  {
    SizeIsCardinality(t.entries);
    PruneMoves(t);
    PruneKeys(t);
    SizeIsCardinality(t.Prune().entries);
  }

  lemma PruneKeys(t: Table)
    requires t.entries.Size() > MAX_KEY_EPOCHS && t.nextKeyEpoch <= MAX_SAFE_INTEGER
    ensures t.Prune().entries == if t.nextKeyEpoch == MAX_SAFE_INTEGER then Empty()
                                 else t.entries.DropFirst((t.entries.Size() + 9) / 10)
  {
  }

  function Distinct(keys: seq<Key>): set<Key> {
    set k | k in keys
  }

  lemma BumpOneKeys(t: Table, k: Key)
    requires t.nextKeyEpoch < MAX_SAFE_INTEGER
    ensures t.BumpOne(k).nextKeyEpoch == t.nextKeyEpoch + 1
    ensures t.BumpOne(k).entries.vals.Keys == t.entries.vals.Keys + {k}
  {
  }

  lemma DistinctLast(keys: seq<Key>)
    requires keys != []
    ensures Distinct(keys) == Distinct(keys[..|keys|-1]) + {keys[|keys|-1]}
  {
    assert keys == keys[..|keys|-1] + [keys[|keys|-1]];
  }

  lemma {:induction false} BumpEachKeys(t: Table, keys: seq<Key>)
    requires t.nextKeyEpoch + |keys| <= MAX_SAFE_INTEGER
    ensures t.BumpEach(keys).nextKeyEpoch == t.nextKeyEpoch + |keys|
    ensures t.BumpEach(keys).entries.vals.Keys == t.entries.vals.Keys + Distinct(keys)
    decreases |keys|
  {
    if keys == [] {
    } else {
      var n := |keys| - 1;
      BumpEachKeys(t, keys[..n]);
      BumpOneKeys(t.BumpEach(keys[..n]), keys[n]);
      DistinctLast(keys);
    }
  }

  /** The number of entries a bulk bump leaves before it prunes. */
  function Together(t: Table, keys: seq<Key>): nat {
    |t.entries.vals.Keys + Distinct(keys)|
  }

  /** What a bulk bump leaves behind, for its caller: without a wrap-around the table ends within the limit if and
      only if its keys and the bumped ones together are at most 55,556. */
  lemma BumpSize(t: Table, keys: seq<Key>)
    requires t.Valid() && t.nextKeyEpoch + |keys| < MAX_SAFE_INTEGER
    ensures |t.Bump(keys).entries.vals| <= MAX_KEY_EPOCHS <==> Together(t, keys) <= 55_556
  {
    var u := t.BumpEach(keys);
    BumpEachMoves(t, keys);
    BumpEachKeys(t, keys);
    SizeIsCardinality(u.entries);
    assert |u.entries.vals| == |u.entries.vals.Keys|;
    if u.entries.Size() > MAX_KEY_EPOCHS {
      PruneSize(u);
    }
  }

  /** So a first bulk bump of different keys breaks the limit from the 55,557th on. */
  lemma FirstBumpSize(keys: seq<Key>)
    requires |keys| < MAX_SAFE_INTEGER && NoDuplicates(keys)
    ensures |INITIAL.Bump(keys).entries.vals| <= MAX_KEY_EPOCHS <==> |keys| <= 55_556
  {
    CardinalityOfList(keys, Distinct(keys));
    assert INITIAL.entries.vals.Keys + Distinct(keys) == Distinct(keys);
    BumpSize(INITIAL, keys);
  }

  // ---- a bump leaves the fences of other keys alone ----

  /** The number of keys before `k` in a list that are not among the bumped ones. */
  function OlderThan(order: seq<Key>, keys: seq<Key>, k: Key): nat {
    if order == [] || order[0] == k then 0
    else (if order[0] in keys then 0 else 1) + OlderThan(order[1..], keys, k)
  }

  /** `u` has the entries of `t` for the keys that were not bumped, in their order, and after them the bumped keys. */
  ghost predicate Spares(t: Table, u: Table, keys: seq<Key>) {
    && u.clearEpoch == t.clearEpoch && u.absentKeyEpoch == t.absentKeyEpoch
    && (forall k :: k !in keys ==> (k in u.entries.vals <==> k in t.entries.vals))
    && (forall k :: k !in keys && k in t.entries.vals ==> u.entries.vals[k] == t.entries.vals[k])
    && Untouched(t.entries.keys, keys) <= u.entries.keys
    && forall k :: k in u.entries.keys[|Untouched(t.entries.keys, keys)|..] ==> k in keys
  }

  /** The keys of a list that are not among the bumped ones. */
  function Untouched(order: seq<Key>, keys: seq<Key>): seq<Key> {
    if order == [] then []
    else if order[0] in keys then Untouched(order[1..], keys)
    else [order[0]] + Untouched(order[1..], keys)
  }

  lemma {:induction false} UntouchedMore(order: seq<Key>, keys: seq<Key>, more: seq<Key>, k: Key)
    requires forall j :: j in more <==> j in keys || j == k
    ensures Untouched(order, more) == Without(Untouched(order, keys), k)
  {
    if order == [] {
    } else {
      UntouchedMore(order[1..], keys, more, k);
      if order[0] !in keys {
        WithoutCons(order[0], Untouched(order[1..], keys), k);
      }
    }
  }

  lemma WithoutCons(x: Key, rest: seq<Key>, k: Key)
    ensures Without([x] + rest, k) == if x == k then Without(rest, k) else [x] + Without(rest, k)
  {
    assert ([x] + rest)[1..] == rest;
  }

  lemma {:induction false} UntouchedByNone(order: seq<Key>)
    ensures Untouched(order, []) == order
  {
    if order == [] {
    } else {
      UntouchedByNone(order[1..]);
    }
  }

  lemma {:induction false} WithoutSplits(a: seq<Key>, b: seq<Key>, k: Key)
    ensures Without(a + b, k) == Without(a, k) + Without(b, k)
  {
    if a == [] {
      assert a + b == b;
    } else {
      assert (a + b)[1..] == a[1..] + b;
      WithoutSplits(a[1..], b, k);
    }
  }

  lemma BumpOneKeepsOrder(t: Table, k: Key)
    requires t.nextKeyEpoch < MAX_SAFE_INTEGER
    ensures t.BumpOne(k).entries.keys == Without(t.entries.keys, k) + [k]
    ensures t.BumpOne(k).entries.vals == t.entries.vals[k := t.nextKeyEpoch + 1]
    ensures t.BumpOne(k).clearEpoch == t.clearEpoch && t.BumpOne(k).absentKeyEpoch == t.absentKeyEpoch
  {
    var d := t.entries.Delete(k);
    SetAppends(d, k, t.nextKeyEpoch + 1);
    assert (t.entries.vals - {k})[k := t.nextKeyEpoch + 1] == t.entries.vals[k := t.nextKeyEpoch + 1];
  }

  lemma SetAppends(m: OMap<Key, nat>, k: Key, v: nat)
    requires k !in m.vals
    ensures m.Set(k, v) == OMap(m.keys + [k], m.vals[k := v])
  {
  }

  lemma {:induction false} BumpEachSpares(t: Table, keys: seq<Key>)
    requires t.nextKeyEpoch + |keys| <= MAX_SAFE_INTEGER
    ensures Spares(t, t.BumpEach(keys), keys)
    decreases |keys|
  {
    if keys == [] {
      UntouchedByNone(t.entries.keys);
    } else {
      var n := |keys| - 1;
      BumpEachSpares(t, keys[..n]);
      BumpEachKeys(t, keys[..n]);
      assert keys == keys[..n] + [keys[n]];
      SparesOneMore(t, t.BumpEach(keys[..n]), keys[..n], keys[n]);
    }
  }

  lemma SparesOneMore(t: Table, u: Table, keys: seq<Key>, k: Key)
    requires u.nextKeyEpoch < MAX_SAFE_INTEGER && Spares(t, u, keys)
    ensures Spares(t, u.BumpOne(k), keys + [k])
  {
    BumpOneKeepsOrder(u, k);
    UntouchedMore(t.entries.keys, keys, keys + [k], k);
    OrderAfterBump(u.entries.keys, Untouched(t.entries.keys, keys), keys, k);
  }

  lemma OrderAfterBump(order: seq<Key>, kept: seq<Key>, keys: seq<Key>, k: Key)
    requires kept <= order && forall j :: j in order[|kept|..] ==> j in keys
    ensures var after := Without(order, k) + [k];
            Without(kept, k) <= after && forall j :: j in after[|Without(kept, k)|..] ==> j in keys + [k]
  {
    var rest := order[|kept|..];
    assert order == kept + rest;
    WithoutSplits(kept, rest, k);
    assert Without(order, k) + [k] == Without(kept, k) + (Without(rest, k) + [k]);
    assert (Without(order, k) + [k])[|Without(kept, k)|..] == Without(rest, k) + [k];
  }

  /** Where an untouched key stands: `OlderThan` keys before it. */
  lemma {:induction false} UntouchedAt(order: seq<Key>, keys: seq<Key>, k: Key)
    requires k in order && k !in keys && NoDuplicates(order)
    ensures var n := OlderThan(order, keys, k);
            n < |Untouched(order, keys)| && Untouched(order, keys)[n] == k
  {
    assert order == [order[0]] + order[1..];
    if order[0] != k {
      UntouchedAt(order[1..], keys, k);
    }
  }

  /** Whether a key stays in the table when its `n` oldest entries are dropped. */
  lemma StaysIff(t: Table, u: Table, keys: seq<Key>, k: Key, n: nat)
    requires t.Valid() && u.Valid() && Spares(t, u, keys) && k !in keys && n <= |u.entries.keys|
    ensures k in u.entries.DropFirst(n).vals <==> k in t.entries.vals && OlderThan(t.entries.keys, keys, k) >= n
  {
    if k in t.entries.vals {
      var p := OlderThan(t.entries.keys, keys, k);
      UntouchedAt(t.entries.keys, keys, k);
      assert u.entries.keys[p] == k;
      if p >= n {
        assert u.entries.keys[n..][p - n] == k;
      }
    }
  }

  /** The condition, on the old table and the bumped keys: the counter does not wrap around, and either there is no
      prune, or the key has an entry with at least a tenth of all entries before it. */
  predicate Undisturbed(t: Table, keys: seq<Key>, k: Key) {
    if Together(t, keys) <= MAX_KEY_EPOCHS then t.nextKeyEpoch + |keys| <= MAX_SAFE_INTEGER
    else
      && t.nextKeyEpoch + |keys| < MAX_SAFE_INTEGER
      && k in t.entries.vals && 10 * OlderThan(t.entries.keys, keys, k) >= Together(t, keys)
  }

  /** Exactly when a bulk bump leaves the fence of another key as it is. */
  lemma BumpSparesIff(t: Table, keys: seq<Key>, k: Key)
    requires t.Valid() && k !in keys
    ensures Apply(t, BumpKeys(keys)).Current(k) == t.Current(k) <==> Undisturbed(t, keys, k)
  {
    if t.nextKeyEpoch + |keys| <= MAX_SAFE_INTEGER {
      var u := t.BumpEach(keys);
      BumpEachMoves(t, keys);
      BumpEachKeys(t, keys);
      BumpEachSpares(t, keys);
      SizeIsCardinality(u.entries);
      assert |u.entries.vals| == |u.entries.vals.Keys|;
      if u.entries.Size() > MAX_KEY_EPOCHS {
        PruneSparesIff(t, u, keys, k);
      }
    } else {
      WrapMovesAll(t, keys, k);
    }
  }

  lemma PruneSparesIff(t: Table, u: Table, keys: seq<Key>, k: Key)
    requires t.Valid() && u.Valid() && Spares(t, u, keys) && k !in keys
    requires u.nextKeyEpoch >= t.nextKeyEpoch && u.entries.Size() > MAX_KEY_EPOCHS
    ensures u.Prune().Current(k) == t.Current(k) <==>
            && u.nextKeyEpoch < MAX_SAFE_INTEGER && k in t.entries.vals
            && 10 * OlderThan(t.entries.keys, keys, k) >= u.entries.Size()
  {
    var n := (u.entries.Size() + 9) / 10;
    StaysIff(t, u, keys, k, n);
    PruneKeys(u);
  }

  /** A wrap-around opens a new clear epoch, which moves every fence. */
  lemma WrapMovesAll(t: Table, keys: seq<Key>, k: Key)
    requires t.Valid() && t.nextKeyEpoch + |keys| > MAX_SAFE_INTEGER
    ensures t.Bump(keys).clearEpoch > t.clearEpoch
  {
    WrapsInBumps(t, keys);
    BumpEachMoves(t, keys);
    PruneMoves(t.BumpEach(keys));
    assert NotAfter(t.BumpEach(keys).Current(k), t.Bump(keys).Current(k));
  }

  lemma {:induction false} WrapsInBumps(t: Table, keys: seq<Key>)
    requires t.Valid() && t.nextKeyEpoch + |keys| > MAX_SAFE_INTEGER
    ensures t.BumpEach(keys).clearEpoch > t.clearEpoch
    decreases |keys|
  {
    var n := |keys| - 1;
    if t.nextKeyEpoch + n > MAX_SAFE_INTEGER {
      WrapsInBumps(t, keys[..n]);
    } else {
      BumpEachKeys(t, keys[..n]);
      BumpEachSpares(t, keys[..n]);
    }
    BumpOneOpens(t.BumpEach(keys[..n]), keys[n]);
  }

  lemma BumpOneOpens(t: Table, k: Key)
    ensures t.BumpOne(k).clearEpoch == if t.nextKeyEpoch >= MAX_SAFE_INTEGER then t.clearEpoch + 1 else t.clearEpoch
  {
  }

  /** The mutable table. */
  class EpochTable {
    var keyEpochs: OMap<Key, nat>
    var nextKeyEpoch: nat
    var absentKeyEpoch: nat
    var clearEpoch: nat

    ghost function State(): Table
      reads this
    {
      Table(keyEpochs, nextKeyEpoch, absentKeyEpoch, clearEpoch)
    }

    constructor ()
      ensures State() == INITIAL && State().Valid()
    {
      keyEpochs, nextKeyEpoch, absentKeyEpoch, clearEpoch := Empty(), 0, 0, 0;
    }

    method BeginClearEpoch()
      modifies this
      ensures State() == old(State()).BeginClear()
      ensures clearEpoch == old(clearEpoch) + 1 && keyEpochs.Size() == 0
      ensures nextKeyEpoch == old(nextKeyEpoch) && absentKeyEpoch == old(absentKeyEpoch)
    {
      clearEpoch := clearEpoch + 1;
      keyEpochs := Empty();
    }

    method CurrentKeyEpoch(key: Key) returns (epoch: nat)
      ensures Fence(clearEpoch, epoch) == State().Current(key)
    {
      epoch := if key in keyEpochs.vals then keyEpochs.vals[key] else absentKeyEpoch;
    }

    /** Either expectation may be missing; a missing one is never outdated. */
    method IsWriteOutdated(key: Key, expectedClearEpoch: Option<nat>, expectedKeyEpoch: Option<nat>)
      returns (outdated: bool)
      ensures !outdated <==> (exists f :: !State().Outdated(key, f)
                                          && (expectedClearEpoch.Some? ==> f.clearEpoch == expectedClearEpoch.value)
                                          && (expectedKeyEpoch.Some? ==> f.keyEpoch == expectedKeyEpoch.value))
      ensures expectedClearEpoch.Some? && expectedKeyEpoch.Some? ==>
                outdated == State().Outdated(key, Fence(expectedClearEpoch.value, expectedKeyEpoch.value))
    {
      var keyEpoch := CurrentKeyEpoch(key);
      assert !State().Outdated(key, State().Current(key));
      if expectedClearEpoch.Some? && expectedClearEpoch.value != clearEpoch {
        return true;
      }
      if expectedKeyEpoch.Some? && expectedKeyEpoch.value != keyEpoch {
        return true;
      }
      return false;
    }

    method AllocateKeyEpoch() returns (epoch: nat)
      modifies this
      ensures State() == old(State()).Allocate() && epoch == nextKeyEpoch
      ensures if old(nextKeyEpoch) >= MAX_SAFE_INTEGER
              then keyEpochs == Empty() && nextKeyEpoch == 1 && absentKeyEpoch == 0 && clearEpoch == old(clearEpoch) + 1
              else nextKeyEpoch == old(nextKeyEpoch) + 1 && keyEpochs == old(keyEpochs)
                   && absentKeyEpoch == old(absentKeyEpoch) && clearEpoch == old(clearEpoch)
    {
      if nextKeyEpoch >= MAX_SAFE_INTEGER {
        clearEpoch := clearEpoch + 1;
        keyEpochs := Empty();
        nextKeyEpoch := 0;
        absentKeyEpoch := 0;
      }
      nextKeyEpoch := nextKeyEpoch + 1;
      return nextKeyEpoch;
    }

    /** The deletion loop of the prune. */
    method DeleteOldest(count: nat) returns (deleted: nat)
      requires keyEpochs.Valid() && count <= keyEpochs.Size()
      modifies this`keyEpochs
      ensures keyEpochs == old(keyEpochs).DropFirst(count) && deleted == count
    {
      ghost var before := keyEpochs;
      DropNone(keyEpochs);
      deleted := 0;
      for i := 0 to count
        invariant keyEpochs == before.DropFirst(i)
        invariant deleted == i
      {
        DropOneMore(before, i);
        if keyEpochs.keys == [] {
          break;
        }
        keyEpochs := keyEpochs.Delete(keyEpochs.keys[0]);
        deleted := deleted + 1;
      }
    }

    method PruneKeyEpochsIfNeeded()
      requires State().Valid()
      modifies this
      ensures State() == old(State()).Prune() && State().Valid()
    {
      PruneMoves(State());
      if keyEpochs.Size() <= MAX_KEY_EPOCHS {
        return;
      }
      var deleted := DeleteOldest((keyEpochs.Size() + 9) / 10);
      if deleted > 0 {
        var epoch := AllocateKeyEpoch();
        absentKeyEpoch := epoch;
      }
    }

    method BumpKeyEpochs(keys: seq<Key>)
      requires State().Valid()
      modifies this
      ensures State() == old(State()).Bump(keys) && State().Valid()
    {
      ghost var before := State();
      for i := 0 to |keys|
        invariant State() == before.BumpEach(keys[..i]) && State().Valid()
      {
        BumpOneMoves(State(), keys[i]);
        assert keys[..i+1][..i] == keys[..i];
        keyEpochs := keyEpochs.Delete(keys[i]);
        var epoch := AllocateKeyEpoch();
        keyEpochs := keyEpochs.Set(keys[i], epoch);
      }
      assert keys[..|keys|] == keys;
      PruneKeyEpochsIfNeeded();
    }
  }
}
